/** Reading a printed WebVTT file gives the episode's captions back, exactly when no rendered claim spells
    the cue arrow and no title spells a timing on a line past its first. */
module CaptionRoundTrip {
  import opened Prelude
  import opened Text
  import opened CaptionWrap
  import opened CaptionTiming
  import opened CaptionVtt
  import opened CaptionReader
  import opened CaptionLines

  /** A claim that speech has been rendered for spells no arrow. */
  predicate SegmentPlain(s: Segment) {
    s.duration > 0 ==> forall c | c in s.claims :: c.duration > 0 ==> !HasArrow(c.text)
  }

  predicate NoArrows(segments: seq<Segment>) { forall s | s in segments :: SegmentPlain(s) }

  /** A title one of whose lines, past the first, reads as a timing. */
  predicate Forges(title: string) {
    exists k | 1 <= k < |LinesOf(title)| :: IsTiming(LinesOf(title)[k])
  }

  predicate NoForgeries(segments: seq<Segment>) {
    forall s | s in segments :: s.duration > 0 && s.title.Some? ==> !Forges(s.title.value)
  }

  // ---- Every cue printed is printable ----

  lemma {:induction false} WordsOfRun(runs: seq<seq<string>>, run: seq<string>)
    requires run in runs
    ensures forall w | w in run :: w in Flatten(runs)
  {
    if run != runs[0] {
      WordsOfRun(runs[1..], run);
    }
  }

  lemma OneLineRun(run: seq<string>)
    requires run != [] && forall w | w in run :: IsWord(w)
    ensures Line(run) != "" && OneLine(Line(run))
  {
    LineEnds(run);
    JoinChars(run, ' ');
    forall w, c | w in run && c in w
      ensures c != '\n' && c != '\r'
    {
      assert !IsSpace(c);
    }
  }

  lemma {:induction false} JoinChars(parts: seq<string>, sep: char)
    ensures forall c | c in Join(parts, sep) :: c == sep || exists p | p in parts :: c in p
  {
    if |parts| > 1 {
      JoinChars(parts[1..], sep);
      forall c | c in Join(parts, sep)
        ensures c == sep || exists p | p in parts :: c in p
      {
        if c !in parts[0] && c != sep {
          assert c in Join(parts[1..], sep);
          var p :| p in parts[1..] && c in p;
          assert p in parts;
        }
      }
    } else if |parts| == 1 {
      assert parts[0] in parts;
    }
  }

  lemma ClaimCuesPrintable(c: Claim)
    ensures forall q | q in ClaimCues(c) :: Printable(q)
  {
    if c.duration > 0 && Words(c.text) != [] {
      var runs := Wrap(Words(c.text));
      WrapIsASplit(Words(c.text));
      forall k | 0 <= k < |runs|
        ensures Lines(runs)[k] != "" && OneLine(Lines(runs)[k])
      {
        assert runs[k] in runs;
        WordsOfRun(runs, runs[k]);
        OneLineRun(runs[k]);
      }
    }
  }

  // ---- Where an arrow can be ----

  lemma ContainsLater(a: string, b: string)
    requires HasArrow(b)
    ensures HasArrow(a + b)
  {
    var i :| 0 <= i <= |b| && StartsWith(b[i..], ARROW);
    assert (a + b)[|a| + i..] == b[i..];
  }

  lemma ContainsEarlier(a: string, b: string)
    requires HasArrow(a)
    ensures HasArrow(a + b)
  {
    var i :| 0 <= i <= |a| && StartsWith(a[i..], ARROW);
    assert (a + b)[i..] == a[i..] + b;
    assert StartsWith((a + b)[i..], ARROW);
  }

  /** An arrow spans no character that is not part of one. */
  lemma ArrowOnOneSide(a: string, sep: char, b: string)
    requires sep != '-' && sep != '>'
    ensures HasArrow(a + [sep] + b) <==> HasArrow(a) || HasArrow(b)
  {
    var s := a + [sep] + b;
    if HasArrow(s) {
      var i :| 0 <= i <= |s| && StartsWith(s[i..], ARROW);
      assert s[i] == '-' && s[i + 1] == '-' && s[i + 2] == '>';
      assert s[|a|] == sep;
      if i > |a| {
        assert s[i..] == b[i - |a| - 1..];
      } else {
        assert i + 3 <= |a|;
        assert StartsWith(a[i..], ARROW);
      }
    }
    if HasArrow(a) {
      ContainsEarlier(a, [sep] + b);
      assert s == a + ([sep] + b);
    }
    if HasArrow(b) {
      ContainsLater(a + [sep], b);
    }
  }

  ghost predicate SomeArrow(parts: seq<string>) { exists p :: p in parts && HasArrow(p) }

  lemma SomeArrowCons(first: string, others: seq<string>)
    ensures SomeArrow([first] + others) <==> HasArrow(first) || SomeArrow(others)
  {
    var all := [first] + others;
    assert first in all && forall p :: p in all <==> p == first || p in others;
  }

  lemma {:induction false} ArrowInJoin(parts: seq<string>, sep: char)
    requires sep != '-' && sep != '>'
    ensures HasArrow(Join(parts, sep)) <==> SomeArrow(parts)
  {
    if parts != [] {
      var others := parts[1..];
      assert parts == [parts[0]] + others;
      SomeArrowCons(parts[0], others);
      ArrowInJoin(others, sep);
      if others != [] {
        ArrowOnOneSide(parts[0], sep, Join(others, sep));
      } else {
        assert !SomeArrow([]);
      }
    } else {
      assert !HasArrow("");
    }
  }

  /** Splitting on whitespace neither makes nor breaks an arrow. */
  lemma {:induction false} ArrowInWords(text: string)
    ensures HasArrow(text) <==> SomeArrow(Words(text))
    decreases |text|
  {
    if text == "" {
      assert !HasArrow("");
    } else if IsSpace(text[0]) {
      ArrowInWords(text[1..]);
      ArrowOnOneSide("", text[0], text[1..]);
      assert text == "" + [text[0]] + text[1..];
      assert !HasArrow("");
    } else {
      var n := WordEnd(text);
      var word, tail := text[..n], text[n..];
      ArrowInWords(tail);
      SomeArrowCons(word, Words(tail));
      ArrowAtWordEnd(word, tail);
      assert text == word + tail;
    }
  }

  lemma ArrowAtWordEnd(word: string, tail: string)
    requires tail == "" || IsSpace(tail[0])
    ensures HasArrow(word + tail) <==> HasArrow(word) || HasArrow(tail)
  {
    if tail == "" {
      assert word + tail == word && !HasArrow("");
    } else {
      ArrowOnOneSide(word, tail[0], tail[1..]);
      ArrowOnOneSide("", tail[0], tail[1..]);
      assert word + tail == word + [tail[0]] + tail[1..];
      assert tail == "" + [tail[0]] + tail[1..];
      assert !HasArrow("");
    }
  }

  lemma {:induction false} RunOfWord(runs: seq<seq<string>>, word: string) returns (run: seq<string>)
    requires word in Flatten(runs)
    ensures run in runs && word in run
  {
    if word in runs[0] {
      run := runs[0];
    } else {
      run := RunOfWord(runs[1..], word);
    }
  }

  predicate CuesPlain(cues: seq<Cue>) { forall q | q in cues :: !HasArrow(q.text) }

  /** A claim's captions spell an arrow exactly when the claim does. */
  lemma ClaimArrow(c: Claim)
    requires c.duration > 0
    ensures CuesPlain(ClaimCues(c)) <==> !HasArrow(c.text)
  {
    var words := Words(c.text);
    var runs := Wrap(words);
    var cues := ClaimCues(c);
    WrapIsASplit(words);
    ArrowInWords(c.text);
    if HasArrow(c.text) {
      var w :| w in words && HasArrow(w);
      var run := RunOfWord(runs, w);
      ArrowInJoin(run, ' ');
      var k :| 0 <= k < |runs| && runs[k] == run;
      assert cues[k] in cues && cues[k].text == Lines(runs)[k] == Line(run);
    } else {
      forall k | 0 <= k < |cues|
        ensures !HasArrow(cues[k].text)
      {
        assert runs[k] in runs && cues[k].text == Line(runs[k]);
        WordsOfRun(runs, runs[k]);
        ArrowInJoin(runs[k], ' ');
      }
    }
  }

  // ---- What the round trip asks of a printer ----

  ghost predicate Faithful(p: Printer) {
    && Invertible(p)
    && (forall c: Claim, q | q in p.captions(c) :: Printable(q))
    && (forall c: Claim :: CuesPlain(p.captions(c)) <==> (c.duration > 0 ==> !HasArrow(c.text)))
  }

  lemma VttIsFaithful()
    ensures Faithful(VTT)
  {
    TimestampIsInvertible();
    forall c: Claim
      ensures forall q | q in ClaimCues(c) :: Printable(q)
      ensures CuesPlain(ClaimCues(c)) <==> (c.duration > 0 ==> !HasArrow(c.text))
    {
      ClaimCuesPrintable(c);
      if c.duration > 0 {
        ClaimArrow(c);
      }
    }
  }

  lemma {:induction false} CuesPrintable(p: Printer, claims: seq<Claim>)
    requires Faithful(p)
    ensures forall q | q in CuesOf(p, claims) :: Printable(q)
  {
    if claims != [] {
      CuesPrintable(p, claims[..|claims| - 1]);
    }
  }

  lemma PlainAppend(a: seq<Cue>, b: seq<Cue>)
    ensures CuesPlain(a + b) <==> CuesPlain(a) && CuesPlain(b)
  {
    assert forall q :: q in a + b <==> q in a || q in b;
  }

  lemma {:induction false} CuesArrow(p: Printer, claims: seq<Claim>)
    requires Faithful(p)
    ensures CuesPlain(CuesOf(p, claims)) <==> forall c | c in claims :: c.duration > 0 ==> !HasArrow(c.text)
  {
    if claims != [] {
      var before, last := claims[..|claims| - 1], claims[|claims| - 1];
      CuesArrow(p, before);
      PlainAppend(CuesOf(p, before), p.captions(last));
      assert claims == before + [last];
    }
  }

  lemma SegmentArrow(p: Printer, s: Segment)
    requires Faithful(p)
    ensures CuesPlain(SegmentCues(p, s)) <==> SegmentPlain(s)
  {
    CuesArrow(p, s.claims);
  }

  lemma NoArrowsAppend(before: seq<Segment>, last: Segment)
    ensures NoArrows(before + [last]) <==> NoArrows(before) && SegmentPlain(last)
  {
    assert forall s :: s in before + [last] <==> s in before || s == last;
  }

  lemma {:induction false} EpisodeArrow(p: Printer, segments: seq<Segment>)
    requires Faithful(p)
    ensures CuesPlain(EpisodeCues(p, segments)) <==> NoArrows(segments)
  {
    if segments != [] {
      var before, last := segments[..|segments| - 1], segments[|segments| - 1];
      assert segments == before + [last] && EpisodeCues(p, segments) == EpisodeCues(p, before) + SegmentCues(p, last);
      EpisodeArrow(p, before);
      SegmentArrow(p, last);
      PlainAppend(EpisodeCues(p, before), SegmentCues(p, last));
      NoArrowsAppend(before, last);
    }
  }

  // ---- Lines ----

  lemma {:induction false} CueLinesOneLine(p: Printer, cues: seq<Cue>)
    requires Invertible(p) && forall q | q in cues :: Printable(q)
    ensures AllOneLine(CueLines(p, cues))
  {
    if cues != [] {
      var last := cues[|cues| - 1];
      CueLinesOneLine(p, cues[..|cues| - 1]);
      assert last in cues;
      ReadPrintedTiming(p, last);
    }
  }

  /** A note as the reader sees it, and an episode. */
  function ShownNote(title: Option<string>): seq<string> {
    if title.Some? && title.value != "" then Printed("NOTE " + title.value) + [""] else []
  }

  function ShownSegment(p: Printer, s: Segment): seq<string> {
    if s.duration <= 0 then [] else ShownNote(s.title) + CueLines(p, CuesOf(p, s.claims))
  }

  function ShownEpisode(p: Printer, segments: seq<Segment>): seq<string> {
    if segments == [] then []
    else ShownEpisode(p, segments[..|segments| - 1]) + ShownSegment(p, segments[|segments| - 1])
  }

  lemma SegmentShown(p: Printer, s: Segment)
    requires Faithful(p)
    ensures Shown(SegmentLines(p, s)) == ShownSegment(p, s)
  {
    if s.duration > 0 {
      var cues := CuesOf(p, s.claims);
      CuesPrintable(p, s.claims);
      CueLinesOneLine(p, cues);
      ShownOneLine(CueLines(p, cues));
      ShownAppend(NoteLines(s.title), CueLines(p, cues));
      if s.title.Some? && s.title.value != "" {
        var note := NoteBlock(s.title.value);
        PrintedOneLine("");
        assert note[1..] == [""] && [""][1..] == [] && Shown([""]) == [""] + Shown([]) == [""];
        assert Shown(note) == Printed(note[0]) + Shown(note[1..]);
      }
    }
  }

  lemma {:induction false} EpisodeShown(p: Printer, segments: seq<Segment>)
    requires Faithful(p)
    ensures Shown(EpisodeLines(p, segments)) == ShownEpisode(p, segments)
  {
    if segments != [] {
      var before, last := segments[..|segments| - 1], segments[|segments| - 1];
      EpisodeShown(p, before);
      SegmentShown(p, last);
      ShownAppend(EpisodeLines(p, before), SegmentLines(p, last));
    }
  }

  lemma {:induction false} CueLinesEnd(p: Printer, cues: seq<Cue>)
    requires cues != []
    ensures CueLines(p, cues) != [] && CueLines(p, cues)[|CueLines(p, cues)| - 1] == ""
  {
  }

  lemma {:induction false} EpisodeLinesEnd(p: Printer, segments: seq<Segment>)
    requires EpisodeLines(p, segments) != []
    ensures EpisodeLines(p, segments)[|EpisodeLines(p, segments)| - 1] == ""
  {
    var before, last := segments[..|segments| - 1], segments[|segments| - 1];
    if SegmentLines(p, last) == [] {
      EpisodeLinesEnd(p, before);
    } else if CuesOf(p, last.claims) != [] {
      CueLinesEnd(p, CuesOf(p, last.claims));
    } else {
      assert SegmentLines(p, last) == NoteLines(last.title) + [] == NoteLines(last.title);
    }
  }

  // ---- The round trip ----

  /** A reader that takes a file's blocks one after the other: a cue is read, a note that forges nothing is
      skipped. */
  ghost predicate Sequential(p: Printer, read: seq<string> -> seq<Cue>) {
    && (forall cue: Cue, rest | Printable(cue) && !HasArrow(cue.text) ::
          read(CueBlock(p, cue) + rest) == [cue] + read(rest))
    && (forall title, rest | !Forges(title) :: read(ShownNote(Some(title)) + rest) == read(rest))
  }

  /** How many captions a title forges: one for each of its lines, past the first, that reads as a timing. */
  lemma NoteTimings(title: string)
    ensures Timings(Printed("NOTE " + title)) == Timings(LinesOf(title)[1..])
    ensures Timings(LinesOf(title)[1..]) > 0 <==> Forges(title)
  {
    var lines := LinesOf(title);
    PrintedTimings("NOTE " + title);
    LinesInFront("NOTE ", title);
    NoteIsNoTiming(lines[0]);
    var all := ["NOTE " + lines[0]] + lines[1..];
    assert all[1..] == lines[1..];
    CountPastFirst(IsTiming, lines);
  }

  lemma ReadShownNote(title: string, rest: seq<string>)
    requires !Forges(title)
    ensures ReadBody(ShownNote(Some(title)) + rest) == ReadBody(rest)
  {
    if title != "" {
      var note := Printed("NOTE " + title);
      NoteTimings(title);
      ReadBodyCounts(note);
      ReadBodyAppend(note, rest);
      assert note + [""] + rest == note + ([""] + rest);
      assert ReadBody(note) == [];
    } else {
      assert [] + rest == rest;
    }
  }

  lemma ReadBodyIsSequential(p: Printer)
    requires Invertible(p)
    ensures Sequential(p, ReadBody)
  {
    forall cue: Cue, rest | Printable(cue) && !HasArrow(cue.text)
      ensures ReadBody(CueBlock(p, cue) + rest) == [cue] + ReadBody(rest)
    {
      ReadPrintedCue(p, cue, rest);
    }
    forall title, rest | !Forges(title)
      ensures ReadBody(ShownNote(Some(title)) + rest) == ReadBody(rest)
    {
      ReadShownNote(title, rest);
    }
  }

  lemma {:induction false} ReadPrintedCues(p: Printer, read: seq<string> -> seq<Cue>, cues: seq<Cue>, rest: seq<string>)
    requires Sequential(p, read)
    requires forall c | c in cues :: Printable(c) && !HasArrow(c.text)
    ensures read(CueLines(p, cues) + rest) == cues + read(rest)
  {
    if cues == [] {
      assert [] + rest == rest;
    } else {
      var last, before := cues[|cues| - 1], cues[..|cues| - 1];
      ReadPrintedCues(p, read, before, CueBlock(p, last) + rest);
      assert last in cues;
      Reassociate(CueLines(p, before), CueBlock(p, last), rest);
      assert before + ([last] + read(rest)) == before + [last] + read(rest);
      assert before + [last] == cues;
    }
  }

  lemma ReadSegment(p: Printer, read: seq<string> -> seq<Cue>, s: Segment, rest: seq<string>)
    requires Faithful(p) && Sequential(p, read) && SegmentPlain(s)
    requires s.duration > 0 && s.title.Some? ==> !Forges(s.title.value)
    ensures read(ShownSegment(p, s) + rest) == SegmentCues(p, s) + read(rest)
  {
    if s.duration > 0 {
      var cues := CuesOf(p, s.claims);
      CuesPrintable(p, s.claims);
      CuesArrow(p, s.claims);
      ReadPrintedCues(p, read, cues, rest);
      var body := CueLines(p, cues) + rest;
      Reassociate(ShownNote(s.title), CueLines(p, cues), rest);
      if s.title.Some? {
        assert s.title == Some(s.title.value);
        assert read(ShownNote(Some(s.title.value)) + body) == read(body);
      } else {
        assert [] + body == body;
      }
    } else {
      assert [] + rest == rest;
    }
  }

  lemma {:induction false} ReadEpisode(p: Printer, read: seq<string> -> seq<Cue>, segments: seq<Segment>,
                                       rest: seq<string>)
    requires Faithful(p) && Sequential(p, read) && NoArrows(segments) && NoForgeries(segments)
    ensures read(ShownEpisode(p, segments) + rest) == EpisodeCues(p, segments) + read(rest)
  {
    if segments == [] {
      assert [] + rest == rest;
    } else {
      var before, last := segments[..|segments| - 1], segments[|segments| - 1];
      assert last in segments;
      ReadSegment(p, read, last, rest);
      ReadEpisode(p, read, before, ShownSegment(p, last) + rest);
      Reassociate(ShownEpisode(p, before), ShownSegment(p, last), rest);
      assert EpisodeCues(p, before) + (SegmentCues(p, last) + read(rest))
          == EpisodeCues(p, before) + SegmentCues(p, last) + read(rest);
    }
  }

  lemma {:induction false} ReadIsPlain(lines: seq<string>)
    ensures CuesPlain(ReadBody(lines))
    decreases |lines|
  {
    if lines != [] {
      if lines[0] == "" {
        ReadIsPlain(lines[1..]);
      } else {
        var end := BlockEnd(lines, 0, false);
        BlockPlain(lines, 0, false);
        ReadIsPlain(lines[end..]);
        var block := lines[..end];
        ArrowInJoin(block[1..], '\n');
        if |block| > 1 {
          ArrowInJoin(block[2..], '\n');
        }
        assert CuesPlain(ReadBlock(block));
      }
    }
  }

  /** The reader gets to the body the printer wrote. */
  lemma ReadPrinted(p: Printer, segments: seq<Segment>)
    requires Faithful(p)
    ensures ReadVtt(Vtt(p, segments)) == Some(ReadBody(ShownEpisode(p, segments)))
  {
    var head, body := ["WEBVTT", ""], EpisodeLines(p, segments);
    if body != [] {
      EpisodeLinesEnd(p, segments);
    }
    LinesComeBack(head + body);
    ShownAppend(head, body);
    ShownOneLine(head);
    EpisodeShown(p, segments);
    assert (head + ShownEpisode(p, segments))[2..] == ShownEpisode(p, segments);
  }

  // ---- How many captions are read ----

  /** How many captions the titles forge. */
  function Forged(segments: seq<Segment>): nat {
    if segments == [] then 0
    else
      var s := segments[|segments| - 1];
      Forged(segments[..|segments| - 1])
      + if s.duration > 0 && s.title.Some? then Timings(LinesOf(s.title.value)[1..]) else 0
  }

  lemma {:induction false} ForgedIff(segments: seq<Segment>)
    ensures Forged(segments) == 0 <==> NoForgeries(segments)
  {
    if segments != [] {
      var before, s := segments[..|segments| - 1], segments[|segments| - 1];
      ForgedIff(before);
      assert forall x :: x in segments <==> x in before || x == s;
      if s.title.Some? {
        NoteTimings(s.title.value);
      }
    }
  }

  lemma {:induction false} CueTimings(p: Printer, cues: seq<Cue>)
    requires Invertible(p) && CuesPlain(cues) && forall q | q in cues :: Printable(q)
    ensures Timings(CueLines(p, cues)) == |cues|
  {
    if cues != [] {
      var before, last := cues[..|cues| - 1], cues[|cues| - 1];
      assert last in cues && forall q | q in before :: q in cues;
      CueTimings(p, before);
      ReadPrintedTiming(p, last);
      NotTiming(last.text);
      BlankIsNoTiming();
      CountThree(IsTiming, TimingLine(p, last), last.text, "");
      CountAppend(IsTiming, CueLines(p, before), CueBlock(p, last));
    }
  }

  lemma NoteShownTimings(title: Option<string>)
    ensures Timings(ShownNote(title)) == if title.Some? then Timings(LinesOf(title.value)[1..]) else 0
  {
    if title.Some? {
      if title.value == "" {
        assert LinesOf("")[1..] == [];
      } else {
        NoteTimings(title.value);
        BlankIsNoTiming();
        CountAppend(IsTiming, Printed("NOTE " + title.value), [""]);
      }
    }
  }

  lemma {:induction false} EpisodeTimings(p: Printer, segments: seq<Segment>)
    requires Faithful(p) && NoArrows(segments)
    ensures Timings(ShownEpisode(p, segments)) == |EpisodeCues(p, segments)| + Forged(segments)
  {
    if segments != [] {
      var before, last := segments[..|segments| - 1], segments[|segments| - 1];
      assert segments == before + [last];
      NoArrowsAppend(before, last);
      EpisodeTimings(p, before);
      CountAppend(IsTiming, ShownEpisode(p, before), ShownSegment(p, last));
      if last.duration > 0 {
        var cues := CuesOf(p, last.claims);
        CuesPrintable(p, last.claims);
        CuesArrow(p, last.claims);
        CueTimings(p, cues);
        NoteShownTimings(last.title);
        CountAppend(IsTiming, ShownNote(last.title), CueLines(p, cues));
      }
    }
  }

  /** Of an episode whose rendered claims spell no arrow, the reader makes its captions and one more for each
      line of a title, past the first, that reads as a timing. */
  lemma CaptionsRead(p: Printer, segments: seq<Segment>)
    requires Faithful(p) && NoArrows(segments)
    ensures ReadVtt(Vtt(p, segments)).Some?
    ensures |ReadVtt(Vtt(p, segments)).value| == |EpisodeCues(p, segments)| + Forged(segments)
  {
    ReadPrinted(p, segments);
    ReadBodyCounts(ShownEpisode(p, segments));
    EpisodeTimings(p, segments);
  }

  lemma RoundTripOf(p: Printer, segments: seq<Segment>)
    requires Faithful(p)
    ensures ReadVtt(Vtt(p, segments)) == Some(EpisodeCues(p, segments)) <==> NoArrows(segments) && NoForgeries(segments)
  {
    ReadPrinted(p, segments);
    var body := ShownEpisode(p, segments);
    if NoArrows(segments) {
      if NoForgeries(segments) {
        ReadBodyIsSequential(p);
        ReadEpisode(p, ReadBody, segments, []);
        assert body + [] == body && EpisodeCues(p, segments) + [] == EpisodeCues(p, segments);
      } else {
        CaptionsRead(p, segments);
        ForgedIff(segments);
      }
    } else {
      EpisodeArrow(p, segments);
      ReadIsPlain(body);
    }
  }

  /** For every episode: reading the printed file returns exactly its captions, timestamps included, if and
      only if no rendered claim spells `-->` and no printed title has, past its first line, a line that reads
      as a timing. Any other title is harmless, line breaks, arrows and all. */
  lemma RoundTripIff(segments: seq<Segment>)
    ensures ReadVtt(Vtt(VTT, segments)) == Some(EpisodeCues(VTT, segments))
            <==> NoArrows(segments) && NoForgeries(segments)
  {
    VttIsFaithful();
    RoundTripOf(VTT, segments);
  }

  /** A claim that does not: an episode of one rendered claim that says `-->`. Its one caption is never read
      back. */
  lemma SpokenArrowIsLost()
    ensures var segments := [Segment(1, None, [Claim(0, 1, "-->")])];
            EpisodeCues(VTT, segments) == [Cue(0, 1, "-->")]
            && ReadVtt(Vtt(VTT, segments)) != Some(EpisodeCues(VTT, segments))
  {
    var claim := Claim(0, 1, "-->");
    ArrowIsOneCaption();
    OneClaim(VTT, claim);
    ArrowInside("", "");
    assert "" + ARROW + "" == claim.text;
    OneClaimArrow(claim);
    RoundTripIff([Segment(1, None, [claim])]);
  }

  lemma OneClaim(p: Printer, claim: Claim)
    ensures EpisodeCues(p, [Segment(1, None, [claim])]) == p.captions(claim)
  {
    var s := Segment(1, None, [claim]);
    assert [claim][..0] == [] && CuesOf(p, []) == [] && CuesOf(p, [claim]) == [] + p.captions(claim);
    assert [s][..0] == [] && EpisodeCues(p, []) == [] && EpisodeCues(p, [s]) == [] + SegmentCues(p, s);
  }

  lemma OneClaimArrow(claim: Claim)
    requires claim.duration > 0 && HasArrow(claim.text)
    ensures !NoArrows([Segment(1, None, [claim])])
  {
    var s := Segment(1, None, [claim]);
    assert claim in s.claims && s in [s] && !SegmentPlain(s);
  }

  lemma ArrowIsOneCaption()
    ensures ClaimCues(Claim(0, 1, "-->")) == [Cue(0, 1, "-->")]
  {
    assert IsWord("-->") && WordEnd("-->") == 3 by {
      assert "-->"[1..] == "->" && "->"[1..] == ">" && ">"[1..] == "" && WordEnd("") == 0;
      assert WordEnd(">") == 1 && WordEnd("->") == 2;
    }
    assert "-->"[..3] == "-->" && "-->"[3..] == "" && Words("") == [];
    assert Words("-->") == ["-->"];
    SplitWhole("-->", ' ');
    ShortTextIsOneCue(0, 1, "-->");
  }

  /** A title that does: a story with nothing rendered but such a title reads back as one cue nobody
      speaks. */
  lemma BrokenTitleForgesACue(p: Printer, head: string, cue: Cue)
    requires Faithful(p) && OneLine(head) && Printable(cue) && !HasArrow(cue.text)
    ensures var title := head + "\n\n" + TimingLine(p, cue) + "\n" + cue.text;
            var segments := [Segment(1, Some(title), [])];
            EpisodeCues(p, segments) == [] && ReadVtt(Vtt(p, segments)) == Some([cue])
  {
    var title := head + "\n\n" + TimingLine(p, cue) + "\n" + cue.text;
    var segments := [Segment(1, Some(title), [])];
    OneTitle(p, title);
    BrokenTitleLines(p, head, cue);
    ReadPrinted(p, segments);
    ForgedBody(p, head, cue);
  }

  lemma OneTitle(p: Printer, title: string)
    requires title != ""
    ensures EpisodeCues(p, [Segment(1, Some(title), [])]) == []
    ensures ShownEpisode(p, [Segment(1, Some(title), [])]) == Printed("NOTE " + title) + [""]
  {
    var s := Segment(1, Some(title), []);
    assert [s][..0] == [] && EpisodeCues(p, []) == [] && ShownEpisode(p, []) == [];
    assert CuesOf(p, []) == [] && CueLines(p, []) == [];
    assert ShownSegment(p, s) == ShownNote(s.title) + [] == ShownNote(s.title);
    assert ShownEpisode(p, [s]) == [] + ShownNote(s.title) == ShownNote(s.title);
  }

  lemma BrokenTitleLines(p: Printer, head: string, cue: Cue)
    requires Invertible(p) && OneLine(head) && Printable(cue)
    ensures Printed("NOTE " + (head + "\n\n" + TimingLine(p, cue) + "\n" + cue.text)) + [""]
         == ["NOTE " + head] + ([""] + (CueBlock(p, cue) + []))
  {
    ReadPrintedTiming(p, cue);
    BrokenNote(head, TimingLine(p, cue), cue.text);
  }

  lemma BrokenNote(a: string, b: string, c: string)
    requires OneLine(a) && OneLine(b) && OneLine(c)
    ensures Printed("NOTE " + (a + "\n\n" + b + "\n" + c)) + [""] == ["NOTE " + a] + ([""] + ([b, c, ""] + []))
  {
    TitleText(a, b, c);
    BrokenLines("NOTE " + a, b, c);
    FiveLines("NOTE " + a, b, c);
  }

  lemma FiveLines(a: string, b: string, c: string)
    ensures [a, "", b, c] + [""] == [a] + ([""] + ([b, c, ""] + []))
  {
  }

  lemma TitleText(a: string, b: string, c: string)
    ensures "NOTE " + (a + "\n\n" + b + "\n" + c) == ("NOTE " + a) + "\n" + ("" + "\n" + (b + "\n" + c))
  {
    Associate("NOTE ", a, "\n\n" + b + "\n" + c);
    assert a + "\n\n" + b + "\n" + c == a + ("\n\n" + b + "\n" + c);
    assert "\n\n" + b + "\n" + c == "\n" + ("" + "\n" + (b + "\n" + c));
    Associate("NOTE " + a, "\n", "" + "\n" + (b + "\n" + c));
  }

  lemma BrokenLines(a: string, b: string, c: string)
    requires OneLine(a) && OneLine(b) && OneLine(c)
    ensures Printed(a + "\n" + ("" + "\n" + (b + "\n" + c))) == [a, "", b, c]
  {
    PrintedAfter(a, "" + "\n" + (b + "\n" + c));
    PrintedAfter("", b + "\n" + c);
    PrintedAfter(b, c);
    PrintedOneLine(a);
    PrintedOneLine("");
    PrintedOneLine(b);
    PrintedOneLine(c);
  }

  lemma ForgedBody(p: Printer, head: string, cue: Cue)
    requires Invertible(p) && Printable(cue) && !HasArrow(cue.text)
    ensures ReadBody(["NOTE " + head] + ([""] + (CueBlock(p, cue) + []))) == [cue]
  {
    ReadBodyAppend(["NOTE " + head], CueBlock(p, cue) + []);
    ReadBodyCounts(["NOTE " + head]);
    NoteIsNoTiming(head);
    CountThree(IsTiming, "NOTE " + head, "", "");
    ReadPrintedCue(p, cue, []);
  }
}
