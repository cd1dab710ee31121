/** Python string operations the other modules share: split, join, strip, replace, decimals. */
module Text {

  function SplitOn(s: string, c: char): (parts: seq<string>)
    ensures |parts| >= 1
  {
    if s == [] then [[]]
    else
      var rest := SplitOn(s[1..], c);
      if s[0] == c then [[]] + rest else [[s[0]] + rest[0]] + rest[1..]
  }

  function Join(parts: seq<string>, c: char): string {
    if parts == [] then []
    else if |parts| == 1 then parts[0]
    else parts[0] + [c] + Join(parts[1..], c)
  }

  lemma {:induction false} JoinSplit(s: string, c: char)
    ensures Join(SplitOn(s, c), c) == s
    ensures forall p :: p in SplitOn(s, c) ==> c !in p
  {
    if s != [] {
      JoinSplit(s[1..], c);
    }
  }

  /** The first part of a split, when the text starts with a part and its separator. */
  lemma {:induction false} SplitFirst(a: string, b: string, c: char)
    requires c !in a
    ensures SplitOn(a + [c] + b, c) == [a] + SplitOn(b, c)
  {
    var s := a + [c] + b;
    if a == [] {
      assert s[1..] == b;
    } else {
      assert a[0] in a;
      SplitFirst(a[1..], b, c);
      assert a == [a[0]] + a[1..];
      assert s[1..] == a[1..] + [c] + b;
    }
  }

  lemma {:induction false} SplitWhole(a: string, c: char)
    requires c !in a
    ensures SplitOn(a, c) == [a]
  {
    if a != [] {
      assert a[0] in a;
      SplitWhole(a[1..], c);
      assert a == [a[0]] + a[1..];
    }
  }

  lemma {:induction false} SplitJoin(parts: seq<string>, c: char)
    requires parts != [] && forall p :: p in parts ==> c !in p
    ensures SplitOn(Join(parts, c), c) == parts
  {
    if |parts| == 1 {
      SplitWhole(parts[0], c);
    } else {
      SplitFirst(parts[0], Join(parts[1..], c), c);
      SplitJoin(parts[1..], c);
    }
  }

  lemma {:induction false} JoinAppend(a: seq<string>, b: seq<string>, c: char)
    requires a != [] && b != []
    ensures Join(a + b, c) == Join(a, c) + [c] + Join(b, c)
  {
    if |a| == 1 {
      assert (a + b)[1..] == b;
    } else {
      JoinAppend(a[1..], b, c);
      assert (a + b)[1..] == a[1..] + b;
    }
  }

  /** What one more character in front makes of a split. */
  function Prepended(x: char, c: char, parts: seq<string>): seq<string>
    requires parts != []
  {
    if x == c then [[]] + parts else [[x] + parts[0]] + parts[1..]
  }

  lemma PrependedAppend(x: char, c: char, parts: seq<string>, more: seq<string>)
    requires parts != []
    ensures Prepended(x, c, parts + more) == Prepended(x, c, parts) + more
  {
    assert (parts + more)[1..] == parts[1..] + more;
  }

  lemma SplitStep(s: string, c: char)
    requires s != []
    ensures SplitOn(s, c) == Prepended(s[0], c, SplitOn(s[1..], c))
  {
  }

  lemma {:induction false} SplitAppend(a: string, b: string, c: char)
    ensures SplitOn(a + [c] + b, c) == SplitOn(a, c) + SplitOn(b, c)
  {
    var s := a + [c] + b;
    SplitStep(s, c);
    if a == [] {
      assert s[1..] == b;
    } else {
      assert s[1..] == a[1..] + [c] + b;
      SplitAppend(a[1..], b, c);
      SplitStep(a, c);
      PrependedAppend(a[0], c, SplitOn(a[1..], c), SplitOn(b, c));
    }
  }

  /** `s.find(sub)` restricted to position 0. */
  predicate StartsWith(s: string, sub: string) { sub <= s }

  predicate Contains(s: string, sub: string) { exists i | 0 <= i <= |s| :: StartsWith(s[i..], sub) }

  /** `s.replace(old, new)`: left to right, occurrences that do not overlap. */
  function Replace(s: string, pattern: string, filler: string): string
    requires pattern != []
    decreases |s|
  {
    if s == [] then []
    else if pattern <= s then filler + Replace(s[|pattern|..], pattern, filler)
    else [s[0]] + Replace(s[1..], pattern, filler)
  }

  lemma ReplaceCharStep(s: string, c: char, filler: string)
    requires s != []
    ensures Replace(s, [c], filler) == (if s[0] == c then filler else [s[0]]) + Replace(s[1..], [c], filler)
  {
    assert [c] <= s <==> s[0] == c;
  }

  lemma Associate(a: string, b: string, c: string)
    ensures (a + b) + c == a + (b + c)
  {
  }

  /** Replacing one character is done character by character. */
  lemma {:induction false} ReplaceCharAppend(a: string, b: string, c: char, filler: string)
    ensures Replace(a + b, [c], filler) == Replace(a, [c], filler) + Replace(b, [c], filler)
  {
    if a == [] {
      assert a + b == b;
    } else {
      ReplaceCharAppend(a[1..], b, c, filler);
      assert (a + b)[1..] == a[1..] + b;
      ReplaceCharStep(a + b, c, filler);
      ReplaceCharStep(a, c, filler);
      Associate(if a[0] == c then filler else [a[0]], Replace(a[1..], [c], filler), Replace(b, [c], filler));
    }
  }

  lemma ReplaceCharOf(x: char, c: char, filler: string)
    ensures Replace([x], [c], filler) == if x == c then filler else [x]
  {
    assert [x][1..] == [];
    assert Replace([], [c], filler) == [];
    if x == c {
      assert filler + [] == filler;
    } else {
      assert [c][0] != [x][0];
    }
  }

  /** A text without the pattern is left as it is. */
  lemma {:induction false} ReplaceNone(s: string, pattern: string, filler: string)
    requires pattern != [] && !Contains(s, pattern)
    ensures Replace(s, pattern, filler) == s
  {
    if s != [] {
      assert s[0..] == s;
      assert !StartsWith(s[0..], pattern);
      forall i | 0 <= i <= |s[1..]|
        ensures !StartsWith(s[1..][i..], pattern)
      {
        assert s[1..][i..] == s[i + 1..];
        assert !StartsWith(s[i + 1..], pattern);
      }
      ReplaceNone(s[1..], pattern, filler);
      assert s == [s[0]] + s[1..];
    }
  }

  lemma NothingToReplace(s: string, c: char, filler: string)
    requires c !in s
    ensures Replace(s, [c], filler) == s
  {
    forall i | 0 <= i <= |s|
      ensures !StartsWith(s[i..], [c])
    {
      assert i < |s| ==> s[i..][0] == s[i] && s[i] in s;
    }
    ReplaceNone(s, [c], filler);
  }

  /** No occurrence starts in `a` and ends in `b`. */
  ghost predicate Apart(a: string, b: string, pattern: string) {
    forall i | 0 <= i < |a| :: StartsWith((a + b)[i..], pattern) ==> i + |pattern| <= |a|
  }

  lemma {:induction false} ReplaceAppend(a: string, b: string, pattern: string, filler: string)
    requires pattern != [] && Apart(a, b, pattern)
    ensures Replace(a + b, pattern, filler) == Replace(a, pattern, filler) + Replace(b, pattern, filler)
    decreases |a|
  {
    var s := a + b;
    if a == [] {
      assert s == b;
    } else {
      assert s[0..] == s;
      assert pattern <= a ==> pattern <= s;
      if pattern <= s {
        assert StartsWith(s[0..], pattern);
        assert pattern <= a;
        var n := |pattern|;
        assert s[n..] == a[n..] + b;
        ApartLater(a, b, pattern, n);
        ReplaceAppend(a[n..], b, pattern, filler);
      } else {
        assert s[1..] == a[1..] + b;
        ApartLater(a, b, pattern, 1);
        ReplaceAppend(a[1..], b, pattern, filler);
      }
    }
  }

  lemma ApartLater(a: string, b: string, pattern: string, n: nat)
    requires n <= |a| && Apart(a, b, pattern)
    ensures Apart(a[n..], b, pattern)
  {
    forall i | 0 <= i < |a[n..]| && StartsWith((a[n..] + b)[i..], pattern)
      ensures i + |pattern| <= |a[n..]|
    {
      assert (a[n..] + b)[i..] == (a + b)[n + i..];
      assert StartsWith((a + b)[n + i..], pattern);
    }
  }

  // ---- Decimals ----

  predicate IsDigit(c: char) { '0' <= c <= '9' }

  predicate AllDigits(s: string) { forall c | c in s :: IsDigit(c) }

  function Digit(d: nat): (c: char)
    requires d < 10
    ensures IsDigit(c) && DigitValue(c) == d
  {
    ('0' as int + d) as char
  }

  function DigitValue(c: char): (d: nat)
    requires IsDigit(c)
    ensures d < 10
  {
    c as int - '0' as int
  }

  /** `str(n)`. */
  function Dec(n: nat): (s: string)
    ensures s != [] && AllDigits(s)
  {
    if n < 10 then [Digit(n)] else Dec(n / 10) + [Digit(n % 10)]
  }

  /** `int(s)` of a run of ASCII digits; the empty run is 0. */
  function Value(s: string): nat
    requires AllDigits(s)
  {
    if s == [] then 0 else Value(s[..|s| - 1]) * 10 + DigitValue(s[|s| - 1])
  }

  lemma {:induction false} ValueDec(n: nat)
    ensures Value(Dec(n)) == n
  {
    if n >= 10 {
      ValueDec(n / 10);
      assert Dec(n)[..|Dec(n)| - 1] == Dec(n / 10);
    }
  }

  function Zeros(k: nat): (s: string)
    ensures |s| == k && forall c :: c in s ==> c == '0'
  {
    if k == 0 then [] else ['0'] + Zeros(k - 1)
  }

  /** `f"{n:0{width}d}"`. */
  function Padded(n: nat, width: nat): (s: string)
    ensures |s| >= width && s != [] && AllDigits(s)
  {
    var d := Dec(n);
    if |d| >= width then d else Zeros(width - |d|) + d
  }

  lemma {:induction false} ValueZeros(k: nat, s: string)
    requires AllDigits(s)
    ensures AllDigits(Zeros(k) + s)
    ensures Value(Zeros(k) + s) == Value(s)
  {
    var t := Zeros(k) + s;
    if s != [] {
      assert t[..|t| - 1] == Zeros(k) + s[..|s| - 1];
      ValueZeros(k, s[..|s| - 1]);
    } else if k > 0 {
      assert t == Zeros(k);
      assert Zeros(k) == Zeros(k - 1) + ['0'] by { ZerosSnoc(k - 1); }
      assert t[..|t| - 1] == Zeros(k - 1) + [];
      ValueZeros(k - 1, []);
    }
  }

  lemma {:induction false} ZerosSnoc(k: nat)
    ensures Zeros(k + 1) == Zeros(k) + ['0']
  {
    if k > 0 {
      ZerosSnoc(k - 1);
    }
  }

  lemma ValuePadded(n: nat, width: nat)
    ensures Value(Padded(n, width)) == n
  {
    ValueDec(n);
    if |Dec(n)| < width {
      ValueZeros(width - |Dec(n)|, Dec(n));
    }
  }

  /** A number below 10^k prints in at most k digits. */
  lemma {:induction false} DecLength(n: nat, k: nat)
    requires k >= 1 && n < Power10(k)
    ensures |Dec(n)| <= k
  {
    if n >= 10 {
      DecLength(n / 10, k - 1);
    }
  }

  function Power10(k: nat): (p: nat)
    ensures p >= 1
  {
    if k == 0 then 1 else 10 * Power10(k - 1)
  }

  // ---- Case, of ASCII letters ----

  function Upper(c: char): char {
    if 'a' <= c <= 'z' then (c as int - 'a' as int + 'A' as int) as char else c
  }

  function Lower(c: char): char {
    if 'A' <= c <= 'Z' then (c as int - 'A' as int + 'a' as int) as char else c
  }

  // ---- Whitespace ----

  /** What `str.split()` and `str.strip()` treat as whitespace. */
  predicate IsSpace(c: char) {
    || '\t' <= c <= '\r' || '\U{1c}' <= c <= ' ' || c == '\U{85}' || c == '\U{a0}' || c == '\U{1680}'
    || '\U{2000}' <= c <= '\U{200a}' || c == '\U{2028}' || c == '\U{2029}' || c == '\U{202f}'
    || c == '\U{205f}' || c == '\U{3000}'
  }

  function StripLeft(s: string): (t: string)
    ensures |t| <= |s|
  {
    if s != [] && IsSpace(s[0]) then StripLeft(s[1..]) else s
  }

  function StripRight(s: string): (t: string)
    ensures |t| <= |s|
  {
    if s != [] && IsSpace(s[|s| - 1]) then StripRight(s[..|s| - 1]) else s
  }

  /** `s.strip()`. */
  function Strip(s: string): string { StripRight(StripLeft(s)) }

  predicate AllSpace(s: string) { forall c | c in s :: IsSpace(c) }

  /** Nothing to strip at either end. */
  predicate IsStripped(s: string) { s == "" || (!IsSpace(s[0]) && !IsSpace(s[|s| - 1])) }

  lemma {:induction false} StripLeftPad(left: string, s: string)
    requires AllSpace(left) && (s == "" || !IsSpace(s[0]))
    ensures StripLeft(left + s) == s
  {
    if left == "" {
      assert left + s == s;
    } else {
      assert left[0] in left && (left + s)[0] == left[0] && (left + s)[1..] == left[1..] + s;
      StripLeftPad(left[1..], s);
    }
  }

  lemma {:induction false} StripRightPad(s: string, right: string)
    requires AllSpace(right) && (s == "" || !IsSpace(s[|s| - 1]))
    ensures StripRight(s + right) == s
  {
    if right == "" {
      assert s + right == s;
    } else {
      var n, all := |right| - 1, s + right;
      assert right[n] in right && all[|all| - 1] == right[n] && all[..|all| - 1] == s + right[..n];
      StripRightPad(s, right[..n]);
    }
  }

  lemma {:induction false} StripLeftAll(s: string)
    requires AllSpace(s)
    ensures StripLeft(s) == ""
  {
    if s != "" {
      assert s[0] in s;
      StripLeftAll(s[1..]);
    }
  }

  /** Stripping takes the whitespace off both ends, and nothing else. */
  lemma StripPads(left: string, s: string, right: string)
    requires AllSpace(left) && AllSpace(right) && IsStripped(s)
    ensures Strip(left + s + right) == s
  {
    if s == "" {
      StripLeftAll(left + s + right);
    } else {
      assert left + s + right == left + (s + right) && (s + right)[0] == s[0];
      StripLeftPad(left, s + right);
      StripRightPad(s, right);
    }
  }
}
