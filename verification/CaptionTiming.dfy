/** Sharing a claim's time between its caption lines, by length, in whole milliseconds. */
module CaptionTiming {
  import opened Text
  import opened CaptionWrap

  datatype Cue = Cue(start: int, end: int, text: string)

  /** `round(a / b)`: half goes to the even neighbour. */
  function RoundHalfEven(a: nat, b: nat): nat
    requires b > 0
  {
    var q, r := a / b, a % b;
    if 2 * r < b then q else if 2 * r > b then q + 1 else if q % 2 == 0 then q else q + 1
  }

  lemma Distribute(a: int, b: int, c: int)
    ensures a * (b + c) == a * b + a * c
  {
  }

  /** Rounding moves a quotient by at most a half. */
  lemma RoundIsClose(a: nat, b: nat)
    requires b > 0
    ensures -(b as int) <= 2 * (b * RoundHalfEven(a, b)) - 2 * a <= b
  {
    var q, r := a / b, a % b;
    assert a == b * q + r;
    Distribute(b, q, 1);
  }

  /** And to the even neighbour when it is moved by exactly a half: with `RoundIsClose`, all that it does. */
  lemma TiesGoToEven(a: nat, b: nat)
    requires b > 0
    requires var moved := 2 * (b * RoundHalfEven(a, b)) - 2 * a; moved == b || moved == -(b as int)
    ensures RoundHalfEven(a, b) % 2 == 0
  {
    var q, r := a / b, a % b;
    assert a == b * q + r;
    Distribute(b, q, 1);
  }

  function Lengths(chunks: seq<string>): (lens: seq<nat>)
    ensures |lens| == |chunks|
  {
    seq(|chunks|, k requires 0 <= k < |chunks| => |chunks[k]|)
  }

  function Sum(lens: seq<nat>): nat {
    if lens == [] then 0 else Sum(lens[..|lens| - 1]) + lens[|lens| - 1]
  }

  /** `sum(...) or 1`. */
  function Total(lens: seq<nat>): (t: nat)
    ensures t > 0
  {
    if Sum(lens) == 0 then 1 else Sum(lens)
  }

  /** Where the k-th line ends, from the claim's start, before the last line's adjustment. */
  function Boundary(duration: nat, lens: seq<nat>, total: nat, k: nat): nat
    requires k <= |lens| && total > 0
  {
    if k == 0 then 0
    else Boundary(duration, lens, total, k - 1) + RoundHalfEven(duration * lens[k - 1], total)
  }

  /** The span of line k: its rounded share, and for the last line whatever is left. */
  function SpanOf(duration: nat, lens: seq<nat>, total: nat, k: nat): nat
    requires k < |lens| && total > 0
  {
    var offset := Boundary(duration, lens, total, k);
    if k == |lens| - 1 then (if offset <= duration then duration - offset else 0)
    else RoundHalfEven(duration * lens[k], total)
  }

  function TimedCues(start: int, duration: nat, chunks: seq<string>): (cues: seq<Cue>)
    ensures |cues| == |chunks|
  {
    var lens := Lengths(chunks);
    var total := Total(lens);
    seq(|chunks|, k requires 0 <= k < |chunks| =>
      var from := start + Boundary(duration, lens, total, k);
      Cue(from, from + SpanOf(duration, lens, total, k), chunks[k]))
  }

  // ---- The loop ----

  /** The second loop of `_split_cue`. */
  method Apportion(start: int, duration: nat, chunks: seq<string>) returns (out: seq<Cue>)
    ensures out == TimedCues(start, duration, chunks)
  {
    var lens := Lengths(chunks);
    var total := Total(lens);
    out := [];
    var offset: nat := 0;
    for i := 0 to |chunks|
      invariant out == TimedCues(start, duration, chunks)[..i]
      invariant i < |chunks| ==> offset == Boundary(duration, lens, total, i)
    {
      var span: nat;
      if i == |chunks| - 1 {
        span := if duration - offset > 0 then duration - offset else 0;
      } else {
        span := RoundHalfEven(duration * |chunks[i]|, total);
      }
      out := out + [Cue(start + offset, start + offset + span, chunks[i])];
      offset := offset + span;
    }
  }

  lemma {:induction false} ShortTextIsOneLine(run: seq<string>, rest: seq<string>)
    requires run != [] && Width(run + rest) <= MAX_CUE_CHARS
    ensures Fill(run, rest) == [run + rest]
    decreases |rest|
  {
    if rest == [] {
      assert run + rest == run;
    } else {
      var next := run + [rest[0]];
      assert run + rest == next + rest[1..];
      if rest[1..] != [] {
        WidthSplits(next, rest[1..]);
      } else {
        assert run + rest == next;
      }
      ShortTextIsOneLine(next, rest[1..]);
    }
  }

  /** The early return of `_split_cue` is the general case: a text that fits is one line, given the
      claim's whole time. */
  lemma ShortTextIsOneCue(start: int, duration: nat, text: string)
    requires |text| <= MAX_CUE_CHARS
    ensures TimedCues(start, duration, Lines(Wrap(SplitOn(text, ' ')))) == [Cue(start, start + duration, text)]
  {
    var words := SplitOn(text, ' ');
    JoinSplit(text, ' ');
    LineWidth(words);
    assert [words[0]] + words[1..] == words;
    ShortTextIsOneLine([words[0]], words[1..]);
    assert Lines(Wrap(words)) == [text];
    OneChunkTakesAll(start, duration, text);
  }

  lemma OneChunkTakesAll(start: int, duration: nat, text: string)
    ensures TimedCues(start, duration, [text]) == [Cue(start, start + duration, text)]
  {
    assert Boundary(duration, Lengths([text]), Total(Lengths([text])), 0) == 0;
  }

  /** `_split_cue`. */
  method SplitCue(start: int, duration: nat, text: string) returns (out: seq<Cue>)
    requires Normalised(text)
    ensures out == TimedCues(start, duration, Lines(Wrap(SplitOn(text, ' '))))
  {
    if |text| <= MAX_CUE_CHARS {
      ShortTextIsOneCue(start, duration, text);
      return [Cue(start, start + duration, text)];
    }
    var chunks := Chunks(text);
    out := Apportion(start, duration, chunks);
  }

  // ---- What the times promise ----

  /** The lines of a claim follow one another from its start, and none ends before it begins. */
  lemma CuesAreContiguous(start: int, duration: nat, chunks: seq<string>)
    ensures var cues := TimedCues(start, duration, chunks);
            && (chunks != [] ==> cues[0].start == start)
            && (forall k | 0 <= k < |cues| :: cues[k].start <= cues[k].end)
            && (forall k | 0 <= k < |cues| - 1 :: cues[k].end == cues[k + 1].start)
  {
    var cues := TimedCues(start, duration, chunks);
    var lens := Lengths(chunks);
    forall k | 0 <= k < |cues| - 1
      ensures cues[k].end == cues[k + 1].start
    {
      assert Boundary(duration, lens, Total(lens), k + 1)
          == Boundary(duration, lens, Total(lens), k) + RoundHalfEven(duration * lens[k], Total(lens));
    }
  }

  lemma {:induction false} ConcatSnoc(words: seq<string>, w: string)
    ensures Concat(words + [w]) == Concat(words) + w
  {
    if words == [] {
      assert [w][1..] == [] && w + [] == w;
    } else {
      ConcatSnoc(words[1..], w);
      assert (words + [w])[1..] == words[1..] + [w];
    }
  }

  lemma {:induction false} SumIsTheText(chunks: seq<string>)
    ensures Sum(Lengths(chunks)) == |Concat(chunks)|
  {
    if chunks != [] {
      var n := |chunks| - 1;
      assert chunks == chunks[..n] + [chunks[n]] && Lengths(chunks)[..n] == Lengths(chunks[..n]);
      SumIsTheText(chunks[..n]);
      ConcatSnoc(chunks[..n], chunks[n]);
    }
  }

  /** Every line but the last is shown for the whole millisecond nearest to its share, by length, of the time. */
  lemma ShareIsNearest(start: int, duration: nat, chunks: seq<string>, k: nat)
    requires k < |chunks| - 1 && Concat(chunks) != ""
    ensures var cue := TimedCues(start, duration, chunks)[k];
            var total := |Concat(chunks)|;
            && cue.text == chunks[k]
            && -(total as int) <= 2 * (total * (cue.end - cue.start)) - 2 * (duration * |chunks[k]|) <= total
  {
    SumIsTheText(chunks);
    RoundIsClose(duration * |chunks[k]|, |Concat(chunks)|);
  }

  /** Twice how far a boundary is from its exact place, in units of 1/total ms. */
  function Drift(duration: nat, lens: seq<nat>, total: nat, k: nat): int
    requires k <= |lens| && total > 0
  {
    2 * (total * Boundary(duration, lens, total, k)) - 2 * (duration * Sum(lens[..k]))
  }

  lemma DriftGrows(duration: nat, lens: seq<nat>, total: nat, k: nat)
    requires 0 < k <= |lens| && total > 0
    ensures -(total as int) <= Drift(duration, lens, total, k) - Drift(duration, lens, total, k - 1) <= total
  {
    assert lens[..k][..k - 1] == lens[..k - 1];
    RoundIsClose(duration * lens[k - 1], total);
    Distribute(total, Boundary(duration, lens, total, k - 1), RoundHalfEven(duration * lens[k - 1], total));
    Distribute(duration, Sum(lens[..k - 1]), lens[k - 1]);
  }

  /** The k-th boundary is within k/2 ms of its exact proportional place. */
  lemma {:induction false} BoundaryIsClose(duration: nat, lens: seq<nat>, total: nat, k: nat)
    requires k <= |lens| && total > 0
    ensures -(k * total as int) <= Drift(duration, lens, total, k) <= k * total
  {
    if k == 0 {
      assert lens[..0] == [];
    } else {
      BoundaryIsClose(duration, lens, total, k - 1);
      DriftGrows(duration, lens, total, k);
      assert k * total == (k - 1) * total + total by { Distribute(total, k - 1, 1); }
    }
  }

  /** Where a claim's captions end: at the claim's end, or later by what the rounding ran over. */
  lemma LastCueEnds(start: int, duration: nat, chunks: seq<string>)
    requires chunks != []
    ensures var lens := Lengths(chunks);
            var n := |chunks|;
            var last := Boundary(duration, lens, Total(lens), n - 1);
            TimedCues(start, duration, chunks)[n - 1].end == start + if last <= duration then duration else last
  {
  }

  /** The captions end exactly with the claim if and only if the earlier lines' rounded shares leave room. */
  lemma EndsExactlyIffRoom(start: int, duration: nat, chunks: seq<string>)
    requires chunks != []
    ensures var lens := Lengths(chunks);
            var n := |chunks|;
            (TimedCues(start, duration, chunks)[n - 1].end == start + duration)
            <==> (Boundary(duration, lens, Total(lens), n - 1) <= duration)
  {
    LastCueEnds(start, duration, chunks);
  }

  lemma MulLess(a: int, b: int, c: nat)
    requires a < b
    ensures a * c + c <= b * c
  {
    Distribute(c, a + 1, b - a - 1);
    Distribute(c, a, 1);
  }

  /** With at most (n-1)/2 ms of drift and a last share of `share`, in units of 1/total ms. */
  lemma OverrunFromDrift(last: nat, duration: nat, total: nat, n: nat, before: nat, share: nat)
    requires total > 0 && n >= 1 && total == before + share
    requires 2 * (total * last) - 2 * (duration * before) <= (n - 1) * total
    ensures 2 * (last - duration) <= n - 1
    ensures 2 * (duration * share) >= (n - 1) * total ==> last <= duration
  {
    Distribute(duration, before, share);
    assert 2 * (duration * share) >= 0;
    assert (2 * (last - duration)) * total == 2 * (total * last) - 2 * (duration * total);
    if 2 * (last - duration) > n - 1 {
      MulLess(n - 1, 2 * (last - duration), total);
      assert false;
    }
    if 2 * (duration * share) >= (n - 1) * total && last > duration {
      MulLess(duration, last, total);
      assert false;
    }
  }

  /** They overrun by at most (n-1)/2 ms, and not at all once the last line's share is that large. */
  lemma OverrunIsBounded(start: int, duration: nat, chunks: seq<string>)
    requires chunks != [] && Sum(Lengths(chunks)) > 0
    ensures var lens := Lengths(chunks);
            var n := |chunks|;
            var overrun := TimedCues(start, duration, chunks)[n - 1].end - (start + duration);
            && 0 <= 2 * overrun <= n - 1
            && (2 * (duration * lens[n - 1]) >= (n - 1) * Total(lens) ==> overrun == 0)
  {
    var lens := Lengths(chunks);
    var n, total := |chunks|, Total(lens);
    LastCueEnds(start, duration, chunks);
    BoundaryIsClose(duration, lens, total, n - 1);
    assert lens[..n] == lens;
    OverrunFromDrift(Boundary(duration, lens, total, n - 1), duration, total, n, Sum(lens[..n - 1]), lens[n - 1]);
  }

  /** The bound is met: five equal lines over three milliseconds overrun by one. */
  lemma FiveLinesOverrun(start: int, chunk: string)
    requires chunk != []
    ensures var cues := TimedCues(start, 3, [chunk, chunk, chunk, chunk, chunk]);
            cues[4].end == start + 3 + 1
  {
    var chunks := [chunk, chunk, chunk, chunk, chunk];
    var lens := Lengths(chunks);
    var l := |chunk|;
    assert lens == [l, l, l, l, l];
    assert lens[..4] == [l, l, l, l] && lens[..4][..3] == [l, l, l] && lens[..4][..3][..2] == [l, l];
    assert [l, l][..1] == [l] && [l][..0] == [];
    assert Sum([l]) == l && Sum([l, l]) == 2 * l && Sum([l, l, l]) == 3 * l;
    assert Sum(lens[..4]) == 4 * l && Sum(lens) == 5 * l;
    assert RoundHalfEven(3 * l, 5 * l) == 1;
    var t := 5 * l;
    assert Boundary(3, lens, t, 1) == 1 && Boundary(3, lens, t, 2) == 2 && Boundary(3, lens, t, 3) == 3;
    assert Boundary(3, lens, t, 4) == 4;
    LastCueEnds(start, 3, chunks);
  }
}
