/** The WebVTT file of an episode: the printer, a reader for the format (WebVTT section 4.1, read as
    section 6.1 parses it), and the round trip between them. */
module CaptionVtt {
  import opened Prelude
  import opened Text
  import opened CaptionWrap
  import opened CaptionTiming

  datatype Claim = Claim(start: nat, duration: int, text: string)

  /** A stored segment, with the title its story resolves to, if any. */
  datatype Segment = Segment(duration: int, title: Option<string>, claims: seq<Claim>)

  const ARROW := "-->"

  // ---- Cues ----

  /** `HH:MM:SS.mmm`, hours always present. */
  function Timestamp(milliseconds: int): string {
    var ms: nat := if milliseconds < 0 then 0 else milliseconds;
    Padded(ms / 1000 / 60 / 60, 2) + ":" + Padded(ms / 1000 / 60 % 60, 2) + ":"
    + Padded(ms / 1000 % 60, 2) + "." + Padded(ms % 1000, 3)
  }

  /** The captions of one claim: none before speech has been rendered, none for an empty text. */
  function ClaimCues(c: Claim): seq<Cue> {
    if c.duration <= 0 || Words(c.text) == [] then []
    else TimedCues(c.start, c.duration, Lines(Wrap(Words(c.text))))
  }

  function Texts(cues: seq<Cue>): (texts: seq<string>)
    ensures |texts| == |cues| && forall k | 0 <= k < |cues| :: texts[k] == cues[k].text
  {
    seq(|cues|, k requires 0 <= k < |cues| => cues[k].text)
  }

  /** A claim's captions, one after the other, say its text: the same letters in the same order, parted where
      it is parted, and the text itself where it is words and single spaces. A claim has none only when it
      has no time or nothing to say. */
  lemma CaptionsSayTheText(c: Claim)
    requires c.duration > 0
    ensures var said := Join(Texts(ClaimCues(c)), ' ');
            && Letters(said) == Letters(c.text) && Words(said) == Words(c.text)
            && (Normalised(c.text) ==> said == c.text)
    ensures ClaimCues(c) == [] <==> Letters(c.text) == ""
  {
    ChunksJoinToText(c.text);
    WordsAreTheLetters(c.text);
    var words := Words(c.text);
    if words != [] {
      var lines := Lines(Wrap(words));
      assert Texts(TimedCues(c.start, c.duration, lines)) == lines;
      assert words[0] in words && IsWord(words[0]);
      WrapIsASplit(words);
    } else {
      assert Texts([]) == [] && Lines(Wrap([])) == [];
    }
  }

  /** And they are shown from its start, one after the other, until it ends, or at most half a millisecond a line
      longer. */
  lemma CaptionsCoverTheClaim(c: Claim)
    requires ClaimCues(c) != []
    ensures var cues := ClaimCues(c); var n := |cues|;
            && cues[0].start == c.start && (forall k | 0 <= k < n - 1 :: cues[k].end == cues[k + 1].start)
            && 0 <= 2 * (cues[n - 1].end - (c.start + c.duration)) <= n - 1
  {
    var lines := Lines(Wrap(Words(c.text)));
    CaptionsSayTheText(c);
    CuesAreContiguous(c.start, c.duration, lines);
    FirstLineIsLong(c.text);
    SumIsTheText(lines);
    OverrunIsBounded(c.start, c.duration, lines);
  }

  lemma FirstLineIsLong(text: string)
    requires Words(text) != []
    ensures Lines(Wrap(Words(text))) != [] && Concat(Lines(Wrap(Words(text)))) != ""
  {
    var words := Words(text);
    WrapIsASplit(words);
    var first := Wrap(words)[0];
    FillStarts([words[0]], words[1..]);
    assert first[0] == words[0] && words[0] in words;
    LineWidth(first);
  }

  /** How a file is printed: how a time is written, and how a claim is cut into captions. The printer
      is `VTT`; what only depends on the file's shape is proved of any. */
  datatype Printer = Printer(stamp: int -> string, captions: Claim -> seq<Cue>)

  const VTT := Printer(Timestamp, ClaimCues)

  function CuesOf(p: Printer, claims: seq<Claim>): seq<Cue> {
    if claims == [] then [] else CuesOf(p, claims[..|claims| - 1]) + p.captions(claims[|claims| - 1])
  }

  /** `_cues`. */
  method Cues(segment: Segment) returns (cues: seq<Cue>)
    ensures cues == CuesOf(VTT, segment.claims)
  {
    cues := [];
    for i := 0 to |segment.claims|
      invariant cues == CuesOf(VTT, segment.claims[..i])
    {
      var claim := segment.claims[i];
      assert segment.claims[..i + 1][..i] == segment.claims[..i];
      if claim.duration > 0 {
        var text := Line(Words(claim.text));
        if text != "" {
          if Words(claim.text) != [] {
            LineIsNormalised(Words(claim.text));
          }
          var split := SplitCue(claim.start, claim.duration, text);
          cues := cues + split;
        } else {
          if Words(claim.text) != [] {
            LineEnds(Words(claim.text));
          }
        }
      }
    }
    assert segment.claims[..|segment.claims|] == segment.claims;
  }

  // ---- The printer ----

  function TimingLine(p: Printer, cue: Cue): string { p.stamp(cue.start) + " --> " + p.stamp(cue.end) }

  /** A cue takes three lines, a note two. */
  function CueBlock(p: Printer, cue: Cue): seq<string> { [TimingLine(p, cue), cue.text, ""] }

  function NoteBlock(title: string): seq<string> { ["NOTE " + title, ""] }

  function CueLines(p: Printer, cues: seq<Cue>): seq<string> {
    if cues == [] then []
    else CueLines(p, cues[..|cues| - 1]) + CueBlock(p, cues[|cues| - 1])
  }

  function NoteLines(title: Option<string>): seq<string> {
    if title.Some? && title.value != "" then NoteBlock(title.value) else []
  }

  function SegmentLines(p: Printer, s: Segment): seq<string> {
    if s.duration <= 0 then [] else NoteLines(s.title) + CueLines(p, CuesOf(p, s.claims))
  }

  function EpisodeLines(p: Printer, segments: seq<Segment>): seq<string> {
    if segments == [] then []
    else EpisodeLines(p, segments[..|segments| - 1]) + SegmentLines(p, segments[|segments| - 1])
  }

  /** The captions of one segment: none before it has been rendered. */
  function SegmentCues(p: Printer, s: Segment): seq<Cue> { if s.duration <= 0 then [] else CuesOf(p, s.claims) }

  /** Every caption of the episode, in spoken order. */
  function EpisodeCues(p: Printer, segments: seq<Segment>): seq<Cue> {
    if segments == [] then []
    else EpisodeCues(p, segments[..|segments| - 1]) + SegmentCues(p, segments[|segments| - 1])
  }

  function Vtt(p: Printer, segments: seq<Segment>): string {
    Join(["WEBVTT", ""] + EpisodeLines(p, segments), '\n')
  }

  /** The captions of claims come in the order of the claims, */
  lemma CuesInOrder(p: Printer, a: seq<Claim>, b: seq<Claim>)
    ensures CuesOf(p, a + b) == CuesOf(p, a) + CuesOf(p, b)
  {
    var read := claims => CuesOf(p, claims);
    forall before, last
      ensures read(before + [last]) == read(before) + p.captions(last)
    {
      assert (before + [last])[..|before|] == before;
    }
    ReadInOrder(read, p.captions, a, b);
  }

  lemma EpisodeStep(p: Printer, before: seq<Segment>, last: Segment)
    ensures EpisodeCues(p, before + [last]) == EpisodeCues(p, before) + SegmentCues(p, last)
    ensures EpisodeLines(p, before + [last]) == EpisodeLines(p, before) + SegmentLines(p, last)
  {
    assert (before + [last])[..|before|] == before;
  }

  /** those of the episode in the order of its segments, and so do its lines: */
  lemma EpisodeInOrder(p: Printer, a: seq<Segment>, b: seq<Segment>)
    ensures EpisodeCues(p, a + b) == EpisodeCues(p, a) + EpisodeCues(p, b)
    ensures EpisodeLines(p, a + b) == EpisodeLines(p, a) + EpisodeLines(p, b)
  {
    var cues, lines := segments => EpisodeCues(p, segments), segments => EpisodeLines(p, segments);
    forall before, last
      ensures cues(before + [last]) == cues(before) + SegmentCues(p, last)
      ensures lines(before + [last]) == lines(before) + SegmentLines(p, last)
    {
      EpisodeStep(p, before, last);
    }
    ReadInOrder(cues, s => SegmentCues(p, s), a, b);
    ReadInOrder(lines, s => SegmentLines(p, s), a, b);
  }

  /** a story's title just before its captions. */
  lemma TitleBeforeItsCaptions(p: Printer, s: Segment)
    requires s.duration > 0
    ensures s.title.Some? && s.title.value != "" ==>
              SegmentLines(p, s) == ["NOTE " + s.title.value, ""] + SegmentLines(p, s.(title := None))
    ensures s.title == Some("") ==> SegmentLines(p, s) == SegmentLines(p, s.(title := None))
    ensures |SegmentLines(p, s.(title := None))| == 3 * |SegmentCues(p, s)|
  {
    CueLinesLength(p, CuesOf(p, s.claims));
    assert [] + CueLines(p, CuesOf(p, s.claims)) == CueLines(p, CuesOf(p, s.claims));
  }

  lemma {:induction false} CueLinesLength(p: Printer, cues: seq<Cue>)
    ensures |CueLines(p, cues)| == 3 * |cues|
  {
    if cues != [] {
      CueLinesLength(p, cues[..|cues| - 1]);
    }
  }

  /** Hours are always printed, in two digits or more. */
  lemma HoursAlwaysPresent(milliseconds: int)
    ensures |Timestamp(milliseconds)| >= |"00:00:00.000"|
  {
  }

  lemma Reassociate(a: seq<string>, b: seq<string>, c: seq<string>)
    ensures a + (b + c) == a + b + c
  {
  }

  /** The inner loop of `transcript_vtt`: three lines a cue. */
  method AppendCues(p: Printer, before: seq<string>, cues: seq<Cue>) returns (lines: seq<string>)
    ensures lines == before + CueLines(p, cues)
  {
    lines := before;
    for k := 0 to |cues|
      invariant lines == before + CueLines(p, cues[..k])
    {
      assert cues[..k + 1][..k] == cues[..k];
      lines := lines + [TimingLine(p, cues[k]), cues[k].text, ""];
    }
    assert cues[..|cues|] == cues;
  }

  /** The body of the loop over segments. */
  method AppendSegment(before: seq<string>, segment: Segment) returns (lines: seq<string>)
    ensures lines == before + SegmentLines(VTT, segment)
  {
    lines := before;
    if segment.duration > 0 {
      if segment.title.Some? && segment.title.value != "" {
        lines := lines + ["NOTE " + segment.title.value, ""];
      }
      assert lines == before + NoteLines(segment.title);
      var cues := Cues(segment);
      Reassociate(before, NoteLines(segment.title), CueLines(VTT, cues));
      lines := AppendCues(VTT, lines, cues);
    }
  }

  /** `transcript_vtt`. */
  method TranscriptVtt(segments: seq<Segment>) returns (document: string)
    ensures document == Vtt(VTT, segments)
  {
    var lines := ["WEBVTT", ""];
    for i := 0 to |segments|
      invariant lines == ["WEBVTT", ""] + EpisodeLines(VTT, segments[..i])
    {
      assert segments[..i + 1][..i] == segments[..i];
      Reassociate(["WEBVTT", ""], EpisodeLines(VTT, segments[..i]), SegmentLines(VTT, segments[i]));
      lines := AppendSegment(lines, segments[i]);
    }
    assert segments[..|segments|] == segments;
    document := Join(lines, '\n');
  }
}
