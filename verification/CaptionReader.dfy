/** A reader for WebVTT files, and what it makes of the files `CaptionVtt` prints. */
module CaptionReader {
  import opened Prelude
  import opened Text
  import opened CaptionWrap
  import opened CaptionTiming
  import opened CaptionVtt

  // ---- The reader ----

  /** CRLF and CR end a line as LF does. */
  function UnifyBreaks(s: string): (r: string)
    ensures s != "" ==> r != ""
    decreases |s|
  {
    if s == [] then []
    else if s[0] == '\r' then ['\n'] + UnifyBreaks(if |s| > 1 && s[1] == '\n' then s[2..] else s[1..])
    else [s[0]] + UnifyBreaks(s[1..])
  }

  /** The lines a text reads as. */
  function LinesOf(text: string): (lines: seq<string>)
    ensures |lines| >= 1
  {
    SplitOn(UnifyBreaks(text), '\n')
  }

  predicate HasArrow(line: string) { Contains(line, ARROW) }

  predicate IsBlank(c: char) { c == ' ' || c == '\t' || c == '\n' || c == '\U{c}' || c == '\r' }

  function SkipBlanks(s: string): string {
    if s != "" && IsBlank(s[0]) then SkipBlanks(s[1..]) else s
  }

  function DigitsEnd(s: string): (n: nat)
    ensures n <= |s| && AllDigits(s[..n])
  {
    if s != "" && IsDigit(s[0]) then 1 + DigitsEnd(s[1..]) else 0
  }

  /** The digits a text begins with, and what follows them. */
  function Number(s: string): (r: (string, string))
    ensures AllDigits(r.0)
  {
    (s[..DigitsEnd(s)], s[DigitsEnd(s)..])
  }

  /** A colon, then exactly two digits. */
  function TwoDigits(s: string): Option<(nat, string)> {
    if s == "" || s[0] != ':' then None
    else
      var number := Number(s[1..]);
      if |number.0| == 2 then Some((Value(number.0), number.1)) else None
  }

  /** The point and exactly three digits, after hours, minutes and seconds. */
  function ReadMillis(h: nat, m: nat, sec: nat, s: string): Option<(nat, string)> {
    if s == "" || s[0] != '.' then None
    else
      var number := Number(s[1..]);
      if |number.0| == 3 && m <= 59 && sec <= 59
      then Some((((h * 60 + m) * 60 + sec) * 1000 + Value(number.0), number.1)) else None
  }

  /** A timestamp and what follows it. The first number is hours when it cannot be minutes, or when two more
      follow it. */
  function ReadStamp(s: string): Option<(nat, string)> {
    var first := Number(s);
    if first.0 == "" then None
    else
      match TwoDigits(first.1)
      case None => None
      case Some((second, after)) =>
        if |first.0| != 2 || Value(first.0) > 59 || (after != "" && after[0] == ':') then
          match TwoDigits(after)
          case None => None
          case Some((third, tail)) => ReadMillis(Value(first.0), second, third, tail)
        else ReadMillis(0, Value(first.0), second, after)
  }

  /** `start --> end`, and any settings after it. */
  function ReadTiming(line: string): Option<(nat, nat)> {
    match ReadStamp(SkipBlanks(line))
    case None => None
    case Some((start, rest)) =>
      var arrow := SkipBlanks(rest);
      if !(ARROW <= arrow) then None
      else
        match ReadStamp(SkipBlanks(arrow[3..]))
        case None => None
        case Some((end, _)) => Some((start, end))
  }

  /** Where the block that starts at line 0 stops: at a blank line, or at an arrow that can be neither
      its first line nor the line after its identifier. */
  function BlockEnd(lines: seq<string>, n: nat, arrow: bool): (end: nat)
    requires n <= |lines|
    ensures n <= end <= |lines|
    ensures n == 0 && lines != [] && lines[0] != "" ==> end > 0
    decreases |lines| - n
  {
    if n == |lines| || lines[n] == "" then n
    else if HasArrow(lines[n]) then
      if n == 0 || (n == 1 && !arrow) then BlockEnd(lines, n + 1, true) else n
    else BlockEnd(lines, n + 1, arrow)
  }

  function ReadCueBlock(timing: string, payload: seq<string>): seq<Cue> {
    match ReadTiming(timing)
    case None => []
    case Some((start, end)) => [Cue(start, end, Join(payload, '\n'))]
  }

  /** A block is a cue when its first line, or the line after its identifier, has an arrow. */
  function ReadBlock(block: seq<string>): seq<Cue>
    requires block != []
  {
    if HasArrow(block[0]) then ReadCueBlock(block[0], block[1..])
    else if |block| > 1 && HasArrow(block[1]) then ReadCueBlock(block[1], block[2..])
    else []
  }

  function ReadBody(lines: seq<string>): seq<Cue>
    decreases |lines|
  {
    if lines == [] then []
    else if lines[0] == "" then ReadBody(lines[1..])
    else
      var end := BlockEnd(lines, 0, false);
      ReadBlock(lines[..end]) + ReadBody(lines[end..])
  }

  /** The cues of a file, or nothing when it does not begin as one. */
  function ReadVtt(document: string): Option<seq<Cue>> {
    var lines := LinesOf(document);
    if |lines| >= 2 && lines[0] == "WEBVTT" && lines[1] == "" then Some(ReadBody(lines[2..])) else None
  }

  // ---- Timestamps ----

  predicate EndsNumber(tail: string) { tail == "" || !IsDigit(tail[0]) }

  lemma {:induction false} NumberOf(digits: string, tail: string)
    requires AllDigits(digits) && EndsNumber(tail)
    ensures Number(digits + tail) == (digits, tail)
  {
    if digits == "" {
      assert digits + tail == tail;
    } else {
      NumberOf(digits[1..], tail);
      assert (digits + tail)[1..] == digits[1..] + tail && digits[0] in digits;
    }
  }

  predicate Digits(s: string, n: nat) { AllDigits(s) && |s| == n }

  lemma TwoDigitsOf(s: string, digits: string, tail: string)
    requires s == ":" + (digits + tail) && Digits(digits, 2) && EndsNumber(tail)
    ensures TwoDigits(s) == Some((Value(digits), tail)) && EndsNumber(s) && s != "" && s[0] == ':'
  {
    NumberOf(digits, tail);
    assert s[1..] == digits + tail;
  }

  lemma MillisOf(h: nat, m: nat, sec: nat, s: string, digits: string, tail: string)
    requires s == "." + (digits + tail) && Digits(digits, 3) && EndsNumber(tail) && m <= 59 && sec <= 59
    ensures ReadMillis(h, m, sec, s) == Some((((h * 60 + m) * 60 + sec) * 1000 + Value(digits), tail))
    ensures EndsNumber(s)
  {
    NumberOf(digits, tail);
    assert s[1..] == digits + tail;
  }

  lemma PaddedLength(n: nat, width: nat)
    requires width >= 1 && n < Power10(width)
    ensures |Padded(n, width)| == width && Value(Padded(n, width)) == n
  {
    DecLength(n, width);
    ValuePadded(n, width);
  }

  /** Reading a timestamp with hours, each step by its outcome. */
  lemma StampSteps(s: string, first: string, rest: string, m: nat, after: string, sec: nat, tail: string)
    requires Number(s) == (first, rest) && first != "" && TwoDigits(rest) == Some((m, after))
    requires after != "" && after[0] == ':' && TwoDigits(after) == Some((sec, tail))
    ensures AllDigits(first) && ReadStamp(s) == ReadMillis(Value(first), m, sec, tail)
  {
  }

  /** Hours, minutes, seconds and milliseconds, as they are printed. */
  lemma StampOfParts(h: string, m: string, sec: string, minutes: string, seconds: string, millis: string,
                     read: Option<(nat, string)>)
    requires AllDigits(h) && h != "" && Digits(m, 2) && Digits(sec, 2) && EndsNumber(millis)
    requires seconds == ":" + (sec + millis) && minutes == ":" + (m + seconds)
    requires ReadMillis(Value(h), Value(m), Value(sec), millis) == read
    ensures ReadStamp(h + minutes) == read
  {
    TwoDigitsOf(seconds, sec, millis);
    TwoDigitsOf(minutes, m, seconds);
    NumberOf(h, minutes);
    StampSteps(h + minutes, h, minutes, Value(m), seconds, Value(sec), millis);
  }

  lemma SevenParts(a: string, b: string, c: string, d: string, e: string, f: string, g: string, tail: string)
    ensures a + b + c + d + e + f + g + tail == a + (b + (c + (d + (e + (f + (g + tail))))))
  {
    Associate(a + b + c + d + e + f, g, tail);
    Associate(a + b + c + d + e, f, g + tail);
    Associate(a + b + c + d, e, f + (g + tail));
    Associate(a + b + c, d, e + (f + (g + tail)));
    Associate(a + b, c, d + (e + (f + (g + tail))));
    Associate(a, b, c + (d + (e + (f + (g + tail)))));
  }

  lemma PrintedParts(h: string, m: string, sec: string, ms: string, tail: string, total: nat)
    requires AllDigits(h) && h != "" && Digits(m, 2) && Digits(sec, 2) && Digits(ms, 3) && EndsNumber(tail)
    requires Value(m) <= 59 && Value(sec) <= 59
    requires total == ((Value(h) * 60 + Value(m)) * 60 + Value(sec)) * 1000 + Value(ms)
    ensures ReadStamp(h + ":" + m + ":" + sec + "." + ms + tail) == Some((total, tail))
  {
    var millis := "." + (ms + tail);
    var seconds := ":" + (sec + millis);
    MillisOf(Value(h), Value(m), Value(sec), millis, ms, tail);
    StampOfParts(h, m, sec, ":" + (m + seconds), seconds, millis, Some((total, tail)));
    SevenParts(h, ":", m, ":", sec, ".", ms, tail);
  }

  /** The reader reads back every timestamp the printer prints, for any number of hours, and stops where it
      ends. */
  lemma ReadPrintedStamp(ms: nat, tail: string)
    requires EndsNumber(tail)
    ensures ReadStamp(Timestamp(ms) + tail) == Some((ms, tail))
  {
    var hours, minutes, seconds, millis := ms / 1000 / 60 / 60, ms / 1000 / 60 % 60, ms / 1000 % 60, ms % 1000;
    assert Power10(1) == 10 && Power10(2) == 100 && Power10(3) == 1000;
    ValuePadded(hours, 2);
    PaddedLength(minutes, 2);
    PaddedLength(seconds, 2);
    PaddedLength(millis, 3);
    assert ms == ((hours * 60 + minutes) * 60 + seconds) * 1000 + millis;
    PrintedParts(Padded(hours, 2), Padded(minutes, 2), Padded(seconds, 2), Padded(millis, 3), tail, ms);
  }

  lemma WordAppend(a: string, b: string)
    requires IsWord(a) && IsWord(b)
    ensures IsWord(a + b)
  {
  }

  lemma StampIsAWord(ms: nat)
    ensures IsWord(Timestamp(ms))
  {
    var hours, minutes := Padded(ms / 1000 / 60 / 60, 2), Padded(ms / 1000 / 60 % 60, 2);
    var seconds, millis := Padded(ms / 1000 % 60, 2), Padded(ms % 1000, 3);
    assert IsWord(hours) && IsWord(minutes) && IsWord(seconds) && IsWord(millis);
    WordAppend(hours, ":");
    WordAppend(hours + ":", minutes);
    WordAppend(hours + ":" + minutes, ":");
    WordAppend(hours + ":" + minutes + ":", seconds);
    WordAppend(hours + ":" + minutes + ":" + seconds, ".");
    WordAppend(hours + ":" + minutes + ":" + seconds + ".", millis);
  }

  /** A way to print times that the reader reads back, one word each. */
  ghost predicate Invertible(p: Printer) {
    forall ms: nat, tail | EndsNumber(tail) ::
      IsWord(p.stamp(ms)) && ReadStamp(p.stamp(ms) + tail) == Some((ms, tail))
  }

  lemma TimestampIsInvertible()
    ensures Invertible(VTT)
  {
    forall ms: nat, tail | EndsNumber(tail)
      ensures IsWord(Timestamp(ms)) && ReadStamp(Timestamp(ms) + tail) == Some((ms, tail))
    {
      ReadPrintedStamp(ms, tail);
      StampIsAWord(ms);
    }
  }

  lemma ArrowInside(a: string, b: string)
    ensures HasArrow(a + ARROW + b)
  {
    var line := a + ARROW + b;
    assert line[|a|..] == ARROW + b;
    assert StartsWith(line[|a|..], ARROW);
  }

  // An arrow in what is left of a text is an arrow in the text.

  lemma ArrowLater(s: string, k: nat)
    requires k <= |s| && HasArrow(s[k..])
    ensures HasArrow(s)
  {
    var i :| 0 <= i <= |s[k..]| && StartsWith(s[k..][i..], ARROW);
    assert s[k..][i..] == s[k + i..];
  }

  lemma {:induction false} ArrowAfterBlanks(s: string)
    requires HasArrow(SkipBlanks(s))
    ensures HasArrow(s)
  {
    if s != "" && IsBlank(s[0]) {
      ArrowAfterBlanks(s[1..]);
      ArrowLater(s, 1);
    }
  }

  lemma ArrowAfterNumber(s: string)
    requires HasArrow(Number(s).1)
    ensures HasArrow(s)
  {
    ArrowLater(s, DigitsEnd(s));
  }

  lemma ArrowAfterTwoDigits(s: string)
    requires TwoDigits(s).Some? && HasArrow(TwoDigits(s).value.1)
    ensures HasArrow(s)
  {
    ArrowAfterNumber(s[1..]);
    ArrowLater(s, 1);
  }

  lemma ArrowAfterMillis(h: nat, m: nat, sec: nat, s: string)
    requires ReadMillis(h, m, sec, s).Some? && HasArrow(ReadMillis(h, m, sec, s).value.1)
    ensures HasArrow(s)
  {
    ArrowAfterNumber(s[1..]);
    ArrowLater(s, 1);
  }

  lemma ArrowAfterStamp(s: string)
    requires ReadStamp(s).Some? && HasArrow(ReadStamp(s).value.1)
    ensures HasArrow(s)
  {
    var (first, rest) := Number(s);
    var (second, after) := TwoDigits(rest).value;
    if |first| != 2 || Value(first) > 59 || (after != "" && after[0] == ':') {
      var (third, tail) := TwoDigits(after).value;
      ArrowAfterMillis(Value(first), second, third, tail);
      ArrowAfterTwoDigits(after);
    } else {
      ArrowAfterMillis(0, Value(first), second, after);
    }
    ArrowAfterTwoDigits(rest);
    ArrowAfterNumber(s);
  }

  /** Only a line with an arrow is ever read as a timing. */
  lemma TimingHasArrow(line: string)
    requires ReadTiming(line).Some?
    ensures HasArrow(line)
  {
    var rest := ReadStamp(SkipBlanks(line)).value.1;
    var arrow := SkipBlanks(rest);
    assert arrow[0..] == arrow && StartsWith(arrow[0..], ARROW);
    ArrowAfterBlanks(rest);
    ArrowAfterStamp(SkipBlanks(line));
    ArrowAfterBlanks(line);
  }

  lemma SkipOne(s: string)
    requires s != "" && !IsBlank(s[0])
    ensures SkipBlanks(s) == s && SkipBlanks(" " + s) == s
  {
    assert (" " + s)[1..] == s;
  }

  /** Reading a timing, each step by its outcome. */
  lemma TimingSteps(line: string, start: nat, rest: string, arrow: string, second: string, end: nat, tail: string)
    requires ReadStamp(SkipBlanks(line)) == Some((start, rest)) && SkipBlanks(rest) == arrow && ARROW <= arrow
    requires SkipBlanks(arrow[3..]) == second && ReadStamp(second) == Some((end, tail))
    ensures ReadTiming(line) == Some((start, end))
  {
  }

  lemma TimingOfParts(a: string, b: string, start: nat, end: nat, line: string, rest: string, arrow: string)
    requires a != "" && !IsBlank(a[0]) && b != "" && !IsBlank(b[0])
    requires arrow == ARROW + (" " + b) && rest == " " + arrow && line == a + rest
    requires ReadStamp(line) == Some((start, rest)) && ReadStamp(b) == Some((end, ""))
    ensures ReadTiming(line) == Some((start, end))
  {
    assert line[0] == a[0] && arrow[0] == '-' && arrow[3..] == " " + b;
    SkipOne(line);
    SkipOne(arrow);
    SkipOne(b);
    TimingSteps(line, start, rest, arrow, b, end, "");
  }

  lemma TimingOfWords(a: string, b: string, start: nat, end: nat)
    requires IsWord(a) && IsWord(b)
    requires ReadStamp(a + (" --> " + b)) == Some((start, " --> " + b)) && ReadStamp(b + "") == Some((end, ""))
    ensures ReadTiming(a + " --> " + b) == Some((start, end))
  {
    assert a[0] in a && b[0] in b;
    ArrowText(b);
    Associate(a, " --> ", b);
    assert b + "" == b;
    TimingOfParts(a, b, start, end, a + (" --> " + b), " --> " + b, ARROW + (" " + b));
  }

  lemma ArrowText(b: string)
    ensures " --> " + b == " " + (ARROW + (" " + b))
  {
  }

  lemma TimingShape(a: string, b: string)
    requires IsWord(a) && IsWord(b)
    ensures var line := a + " --> " + b; line != "" && HasArrow(line) && '\n' !in line && '\r' !in line
  {
    ArrowInside(a + " ", " " + b);
    assert a + " --> " + b == a + " " + ARROW + (" " + b);
    assert '\n' !in a && '\r' !in a && '\n' !in b && '\r' !in b;
  }

  lemma StampReads(p: Printer, ms: nat, tail: string)
    requires Invertible(p) && EndsNumber(tail)
    ensures IsWord(p.stamp(ms)) && ReadStamp(p.stamp(ms) + tail) == Some((ms, tail))
  {
  }

  lemma ReadPrintedTiming(p: Printer, cue: Cue)
    requires Invertible(p) && cue.start >= 0 && cue.end >= 0
    ensures var line := TimingLine(p, cue);
            && ReadTiming(line) == Some((cue.start, cue.end))
            && line != "" && HasArrow(line) && '\n' !in line && '\r' !in line
  {
    var a, b := p.stamp(cue.start), p.stamp(cue.end);
    StampReads(p, cue.start, " --> " + b);
    StampReads(p, cue.end, "");
    TimingShape(a, b);
    TimingOfWords(a, b, cue.start, cue.end);
  }

  /** A comment's first line is never a timing, whatever the title says. */
  lemma NoteIsNoTiming(title: string)
    ensures ReadTiming("NOTE " + title) == None
  {
    var line := "NOTE " + title;
    assert line[0] == 'N' && SkipBlanks(line) == line && Number(line).0 == "";
  }

  // ---- Blocks ----

  /** A cue as the printer makes them: times from zero on, a non-empty text on one line. */
  predicate Printable(cue: Cue) {
    cue.start >= 0 && cue.end >= 0 && cue.text != "" && '\n' !in cue.text && '\r' !in cue.text
  }

  /** A timing line, a text and a blank line are one block. */
  lemma ReadCueLines(timing: string, text: string, rest: seq<string>)
    requires timing != "" && HasArrow(timing) && text != "" && !HasArrow(text)
    ensures ReadBody([timing, text, ""] + rest) == ReadCueBlock(timing, [text]) + ReadBody(rest)
  {
    var lines := [timing, text, ""] + rest;
    assert BlockEnd(lines, 2, true) == 2;
    assert BlockEnd(lines, 0, false) == BlockEnd(lines, 1, true) == 2;
    assert lines[..2] == [timing, text];
    assert lines[..2][1..] == [text];
    assert lines[2..] == [""] + rest && lines[2..][1..] == rest;
  }

  lemma ReadPrintedCue(p: Printer, cue: Cue, rest: seq<string>)
    requires Invertible(p) && Printable(cue) && !HasArrow(cue.text)
    ensures ReadBody(CueBlock(p, cue) + rest) == [cue] + ReadBody(rest)
  {
    ReadPrintedTiming(p, cue);
    ReadCueLines(TimingLine(p, cue), cue.text, rest);
    assert Join([cue.text], '\n') == cue.text;
  }
}
