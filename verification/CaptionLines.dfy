/** A file line by line: how many captions the reader makes of its lines, and which lines the reader sees
    of what was printed. */
module CaptionLines {
  import opened Prelude
  import opened Text
  import opened CaptionTiming
  import opened CaptionVtt
  import opened CaptionReader

  // ---- One caption a timing ----

  predicate IsTiming(line: string) { ReadTiming(line).Some? }

  function Count(test: string -> bool, lines: seq<string>): nat {
    if lines == [] then 0 else (if test(lines[0]) then 1 else 0) + Count(test, lines[1..])
  }

  /** How many of the lines read as a timing. */
  function Timings(lines: seq<string>): nat { Count(IsTiming, lines) }

  lemma {:induction false} CountAppend(test: string -> bool, a: seq<string>, b: seq<string>)
    ensures Count(test, a + b) == Count(test, a) + Count(test, b)
  {
    if a == [] {
      assert a + b == b;
    } else {
      CountAppend(test, a[1..], b);
      assert (a + b)[1..] == a[1..] + b;
    }
  }

  lemma {:induction false} CountIff(test: string -> bool, lines: seq<string>)
    ensures Count(test, lines) > 0 <==> exists k :: 0 <= k < |lines| && test(lines[k])
  {
    if lines != [] {
      CountIff(test, lines[1..]);
      assert forall k | 0 < k < |lines| :: lines[k] == lines[1..][k - 1];
      if Count(test, lines[1..]) > 0 {
        var k :| 0 <= k < |lines[1..]| && test(lines[1..][k]);
        assert test(lines[k + 1]);
      }
    }
  }

  lemma CountPastFirst(test: string -> bool, lines: seq<string>)
    requires lines != []
    ensures Count(test, lines[1..]) > 0 <==> exists k | 1 <= k < |lines| :: test(lines[k])
  {
    CountIff(test, lines[1..]);
    if k :| 1 <= k < |lines| && test(lines[k]) {
      assert lines[1..][k - 1] == lines[k];
    }
    if k :| 0 <= k < |lines[1..]| && test(lines[1..][k]) {
      assert lines[k + 1] == lines[1..][k];
    }
  }

  lemma CountThree(test: string -> bool, a: string, b: string, c: string)
    ensures Count(test, [a]) == if test(a) then 1 else 0
    ensures Count(test, [b, c]) == (if test(b) then 1 else 0) + (if test(c) then 1 else 0)
    ensures Count(test, [a, b, c]) == Count(test, [a]) + Count(test, [b, c])
  {
    assert [a, b, c] == [a] + [b, c] && [b, c] == [b] + [c];
    CountAppend(test, [a], [b, c]);
    CountAppend(test, [b], [c]);
  }

  lemma NoArrowNoTiming(lines: seq<string>)
    requires forall k | 0 <= k < |lines| :: !HasArrow(lines[k])
    ensures Timings(lines) == 0
  {
    CountIff(IsTiming, lines);
    if Timings(lines) > 0 {
      var k :| 0 <= k < |lines| && IsTiming(lines[k]);
      TimingHasArrow(lines[k]);
    }
  }

  /** No line of a payload has an arrow, so no caption the reader returns does. */
  lemma {:induction false} BlockPlain(lines: seq<string>, n: nat, arrow: bool)
    requires n <= |lines|
    ensures forall k | n <= k < BlockEnd(lines, n, arrow) ::
              HasArrow(lines[k]) ==> k == 0 || (k == 1 && !arrow && (n == 1 || !HasArrow(lines[0])))
    decreases |lines| - n
  {
    if n < |lines| && lines[n] != "" {
      if HasArrow(lines[n]) {
        if n == 0 || (n == 1 && !arrow) {
          BlockPlain(lines, n + 1, true);
        }
      } else {
        BlockPlain(lines, n + 1, arrow);
      }
    }
  }

  lemma NotTiming(line: string)
    requires !HasArrow(line)
    ensures ReadTiming(line) == None && !IsTiming(line)
  {
    if ReadTiming(line).Some? {
      TimingHasArrow(line);
    }
  }

  /** A block makes a caption exactly when one of its lines reads as a timing, and no block has two. */
  lemma BlockCounts(block: seq<string>)
    requires block != []
    requires forall k | 0 <= k < |block| :: HasArrow(block[k]) ==> k == 0 || (k == 1 && !HasArrow(block[0]))
    ensures |ReadBlock(block)| == Timings(block)
  {
    if HasArrow(block[0]) {
      NoArrowNoTiming(block[1..]);
    } else {
      NotTiming(block[0]);
      if |block| > 1 {
        assert block[1..][0] == block[1] && block[1..][1..] == block[2..];
        NoArrowNoTiming(block[2..]);
        assert Timings(block[1..]) == (if IsTiming(block[1]) then 1 else 0) + Timings(block[2..]);
        if !HasArrow(block[1]) {
          NotTiming(block[1]);
        }
      }
    }
  }

  lemma FirstBlock(lines: seq<string>) returns (end: nat)
    requires lines != [] && lines[0] != ""
    ensures 0 < end <= |lines| && ReadBody(lines) == ReadBlock(lines[..end]) + ReadBody(lines[end..])
    ensures |ReadBlock(lines[..end])| == Timings(lines[..end])
  {
    end := BlockEnd(lines, 0, false);
    BlockPlain(lines, 0, false);
    BlockCounts(lines[..end]);
  }

  lemma CountsAdd(lines: seq<string>, end: nat, first: seq<Cue>, others: seq<Cue>)
    requires end <= |lines| && |first| == Timings(lines[..end]) && |others| == Timings(lines[end..])
    ensures |first + others| == Timings(lines)
  {
    CountAppend(IsTiming, lines[..end], lines[end..]);
    assert lines == lines[..end] + lines[end..];
  }

  /** The reader makes one caption of each line that reads as a timing, wherever it stands. */
  lemma {:induction false} ReadBodyCounts(lines: seq<string>)
    ensures |ReadBody(lines)| == Timings(lines)
    decreases |lines|
  {
    if lines != [] {
      if lines[0] == "" {
        ReadBodyCounts(lines[1..]);
        BlankIsNoTiming();
      } else {
        var end := FirstBlock(lines);
        ReadBodyCounts(lines[end..]);
        CountsAdd(lines, end, ReadBlock(lines[..end]), ReadBody(lines[end..]));
      }
    }
  }

  lemma BlankIsNoTiming()
    ensures !IsTiming("") && Timings([""]) == 0
  {
  }

  // ---- A blank line parts what is read ----

  lemma {:induction false} BlockEndAppend(a: seq<string>, b: seq<string>, n: nat, arrow: bool)
    requires n <= |a|
    ensures BlockEnd(a + ([""] + b), n, arrow) == BlockEnd(a, n, arrow)
    decreases |a| - n
  {
    if n < |a| && a[n] != "" {
      BlockEndAppend(a, b, n + 1, true);
      BlockEndAppend(a, b, n + 1, arrow);
    }
  }

  lemma ReadBodyStep(lines: seq<string>, end: nat)
    requires lines != [] && lines[0] != "" && end == BlockEnd(lines, 0, false)
    ensures ReadBody(lines) == ReadBlock(lines[..end]) + ReadBody(lines[end..])
  {
  }

  lemma AssociateCues(a: seq<Cue>, b: seq<Cue>, c: seq<Cue>)
    ensures (a + b) + c == a + (b + c)
  {
  }

  lemma SliceAppend(a: seq<string>, b: seq<string>, end: nat)
    requires end <= |a|
    ensures (a + b)[..end] == a[..end] && (a + b)[end..] == a[end..] + b
  {
  }

  lemma {:induction false} ReadBodyAppend(a: seq<string>, b: seq<string>)
    ensures ReadBody(a + ([""] + b)) == ReadBody(a) + ReadBody(b)
    decreases |a|
  {
    var tail := [""] + b;
    if a == [] {
      assert a + tail == tail && tail[1..] == b;
    } else if a[0] == "" {
      SliceAppend(a, tail, 1);
      ReadBodyAppend(a[1..], b);
    } else {
      var end := BlockEnd(a, 0, false);
      BlockEndAppend(a, b, 0, false);
      SliceAppend(a, tail, end);
      ReadBodyStep(a, end);
      ReadBodyStep(a + tail, end);
      ReadBodyAppend(a[end..], b);
      AssociateCues(ReadBlock(a[..end]), ReadBody(a[end..]), ReadBody(b));
    }
  }

  // ---- The lines of what is printed ----

  /** How much of a text its first character, or line break, takes. */
  function FirstWidth(s: string): (n: nat)
    requires s != ""
    ensures 1 <= n <= |s|
  {
    if s[0] == '\r' && |s| > 1 && s[1] == '\n' then 2 else 1
  }

  lemma UnifyStep(s: string)
    requires s != ""
    ensures UnifyBreaks(s) == [if s[0] == '\r' then '\n' else s[0]] + UnifyBreaks(s[FirstWidth(s)..])
  {
  }

  lemma {:induction false} UnifyEnds(a: string)
    ensures var u := UnifyBreaks(a + "\n");
            u != "" && u[|u| - 1] == '\n' && (UnifyBreaks(a) == u || UnifyBreaks(a) == u[..|u| - 1])
    decreases |a|
  {
    var s := a + "\n";
    UnifyStep(s);
    if a == "" {
      assert s[1..] == "" && UnifyBreaks("") == "";
    } else if a == "\r" {
      assert s[2..] == "" && a[1..] == "" && UnifyBreaks("") == "";
      UnifyStep(a);
    } else {
      var n := FirstWidth(a);
      UnifyStep(a);
      UnifyEnds(a[n..]);
      assert FirstWidth(s) == n && s[n..] == a[n..] + "\n";
      EndsBehind([if s[0] == '\r' then '\n' else s[0]], UnifyBreaks(a[n..]), UnifyBreaks(a[n..] + "\n"));
    }
  }

  lemma EndsBehind(first: string, u: string, v: string)
    requires v != "" && v[|v| - 1] == '\n' && (u == v || u == v[..|v| - 1])
    ensures var all := first + v;
            all[|all| - 1] == '\n' && (first + u == all || first + u == all[..|all| - 1])
  {
  }

  lemma {:induction false} UnifyAppend(a: string, b: string)
    ensures UnifyBreaks(a + "\n" + b) == UnifyBreaks(a + "\n") + UnifyBreaks(b)
    decreases |a|
  {
    var front := a + "\n";
    var s := front + b;
    var n := FirstWidth(s);
    assert s[0] == front[0] && FirstWidth(front) == n && s[n..] == front[n..] + b;
    UnifyStep(s);
    UnifyStep(front);
    if n == |front| {
      assert front[n..] == "" && UnifyBreaks("") == "" && s[n..] == b;
    } else {
      assert front[n..] == a[n..] + "\n";
      UnifyAppend(a[n..], b);
      Associate([if s[0] == '\r' then '\n' else s[0]], UnifyBreaks(front[n..]), UnifyBreaks(b));
    }
  }

  /** The lines that a printed line is read as: itself, unless it holds line breaks. */
  function Printed(line: string): seq<string> {
    var u := UnifyBreaks(line + "\n");
    SplitOn(u[..|u| - 1], '\n')
  }

  lemma LinesAfter(line: string, rest: string)
    ensures LinesOf(line + "\n" + rest) == Printed(line) + LinesOf(rest)
  {
    var u := UnifyBreaks(line + "\n");
    UnifyEnds(line);
    UnifyAppend(line, rest);
    assert u == u[..|u| - 1] + ['\n'];
    SplitAppend(u[..|u| - 1], UnifyBreaks(rest), '\n');
  }

  lemma PrintedAfter(line: string, rest: string)
    ensures Printed(line + "\n" + rest) == Printed(line) + Printed(rest)
  {
    var u, v := UnifyBreaks(line + "\n"), UnifyBreaks(rest + "\n");
    UnifyEnds(line);
    UnifyEnds(rest);
    UnifyAppend(line, rest + "\n");
    assert line + "\n" + rest + "\n" == line + "\n" + (rest + "\n");
    assert (u + v)[..|u + v| - 1] == u[..|u| - 1] + ['\n'] + v[..|v| - 1];
    SplitAppend(u[..|u| - 1], v[..|v| - 1], '\n');
  }

  predicate OneLine(s: string) { '\n' !in s && '\r' !in s }

  lemma {:induction false} UnifyPlain(s: string)
    requires '\r' !in s
    ensures UnifyBreaks(s) == s
  {
    if s != "" {
      UnifyPlain(s[1..]);
      assert s == [s[0]] + s[1..];
    }
  }

  lemma PrintedOneLine(s: string)
    requires OneLine(s)
    ensures Printed(s) == [s]
  {
    UnifyPlain(s + "\n");
    assert (s + "\n")[..|s|] == s;
    SplitWhole(s, '\n');
  }

  /** What a printed text reads as differs from what it reads as alone by a blank line at most. */
  lemma PrintedTimings(line: string)
    ensures Timings(Printed(line)) == Timings(LinesOf(line))
  {
    var u := UnifyBreaks(line + "\n");
    UnifyEnds(line);
    if UnifyBreaks(line) == u {
      assert u == u[..|u| - 1] + ['\n'] + "";
      SplitAppend(u[..|u| - 1], "", '\n');
      CountAppend(IsTiming, Printed(line), [""]);
      BlankIsNoTiming();
    }
  }

  lemma {:induction false} UnifyInFront(front: string, text: string)
    requires '\r' !in front
    ensures UnifyBreaks(front + text) == front + UnifyBreaks(text)
  {
    if front == "" {
      assert front + text == text;
    } else {
      var s := front + text;
      assert s[1..] == front[1..] + text && front[0] in front;
      UnifyStep(s);
      UnifyInFront(front[1..], text);
      Associate([front[0]], front[1..], UnifyBreaks(text));
      assert [front[0]] + front[1..] == front;
    }
  }

  lemma PrependedPlain(x: char, c: char, first: string, others: seq<string>)
    requires x != c
    ensures Prepended(x, c, [first] + others) == [[x] + first] + others
  {
    assert ([first] + others)[1..] == others;
  }

  lemma {:induction false} SplitInFront(front: string, s: string, c: char)
    requires c !in front
    ensures SplitOn(front + s, c) == [front + SplitOn(s, c)[0]] + SplitOn(s, c)[1..]
  {
    var first, others := SplitOn(s, c)[0], SplitOn(s, c)[1..];
    if front == "" {
      assert front + s == s && front + first == first;
    } else {
      assert (front + s)[1..] == front[1..] + s && front[0] in front;
      SplitStep(front + s, c);
      SplitInFront(front[1..], s, c);
      PrependedPlain(front[0], c, front[1..] + first, others);
      Associate([front[0]], front[1..], first);
      assert [front[0]] + front[1..] == front;
    }
  }

  /** A text in front of a first line stays in front of it. */
  lemma LinesInFront(front: string, text: string)
    requires OneLine(front)
    ensures LinesOf(front + text) == [front + LinesOf(text)[0]] + LinesOf(text)[1..]
  {
    UnifyInFront(front, text);
    SplitInFront(front, UnifyBreaks(text), '\n');
  }

  /** The lines of a file, as the reader sees them. */
  function Shown(lines: seq<string>): seq<string> {
    if lines == [] then [] else Printed(lines[0]) + Shown(lines[1..])
  }

  lemma {:induction false} ShownAppend(a: seq<string>, b: seq<string>)
    ensures Shown(a + b) == Shown(a) + Shown(b)
  {
    if a == [] {
      assert a + b == b;
    } else {
      ShownAppend(a[1..], b);
      assert (a + b)[1..] == a[1..] + b;
      Reassociate(Printed(a[0]), Shown(a[1..]), Shown(b));
    }
  }

  predicate AllOneLine(lines: seq<string>) { forall l | l in lines :: OneLine(l) }

  lemma {:induction false} ShownOneLine(lines: seq<string>)
    requires AllOneLine(lines)
    ensures Shown(lines) == lines
  {
    if lines != [] {
      assert lines[0] in lines && forall l | l in lines[1..] :: l in lines;
      PrintedOneLine(lines[0]);
      ShownOneLine(lines[1..]);
    }
  }

  /** The reader sees the lines the printer joined, when they end with a blank one. */
  lemma {:induction false} LinesComeBack(lines: seq<string>)
    requires lines != [] && lines[|lines| - 1] == ""
    ensures LinesOf(Join(lines, '\n')) == Shown(lines)
  {
    PrintedOneLine("");
    if |lines| == 1 {
      assert lines[1..] == [] && Shown([]) == [];
      assert LinesOf("") == [""];
    } else {
      LinesComeBack(lines[1..]);
      LinesAfter(lines[0], Join(lines[1..], '\n'));
    }
  }
}
