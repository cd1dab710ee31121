/** An ECDSA signature from the DER that OpenSSL emits to the r || s of a JWS. */
module JwsSignature {
  import opened Prelude

  type Byte = x: nat | x < 256

  datatype Failure = UnexpectedEncoding | UnexpectedLength | IndexOutOfRange

  /** `bytes.lstrip(b"\x00")`. */
  function StripZeros(s: seq<Byte>): seq<Byte> { if s != [] && s[0] == 0 then StripZeros(s[1..]) else s }

  function Zeros(n: nat): seq<Byte> { if n == 0 then [] else [0] + Zeros(n - 1) }

  /** `bytes.rjust(32, b"\x00")`. */
  function Justify(s: seq<Byte>): seq<Byte> { if |s| >= 32 then s else Zeros(32 - |s|) + s }

  /** A slice, which like Python's stops at the end. */
  function Slice(s: seq<Byte>, from: nat, to: nat): seq<Byte> {
    if from >= |s| || to <= from then [] else if to >= |s| then s[from..] else s[from..to]
  }

  datatype Part = Part(value: seq<Byte>, next: nat)

  /** One turn of the loop: the integer that starts at `index`. */
  function Integer(der: seq<Byte>, index: nat): Result<Part, Failure> {
    if index >= |der| then Err(IndexOutOfRange)
    else if der[index] != 0x02 then Err(UnexpectedEncoding)
    else if index + 1 >= |der| then Err(IndexOutOfRange)
    else
      var length := der[index + 1];
      var value := StripZeros(Slice(der, index + 2, index + 2 + length));
      if |value| > 32 then Err(UnexpectedLength) else Ok(Part(Justify(value), index + 2 + length))
  }

  /** Where the sequence's content starts. */
  function Start(der: seq<Byte>): nat
    requires |der| >= 8
  {
    if der[1] < 0x80 then 2 else 2 + (der[1] - 0x80)
  }

  function Convert(der: seq<Byte>): Result<seq<Byte>, Failure> {
    if |der| < 8 || der[0] != 0x30 then Err(UnexpectedEncoding)
    else
      match Integer(der, Start(der))
      case Err(e) => Err(e)
      case Ok(r) =>
        match Integer(der, r.next)
        case Err(e) => Err(e)
        case Ok(s) => Ok(r.value + s.value)
  }

  /** The body of the loop, up to where it appends. */
  method ReadInteger(der: seq<Byte>, index: nat) returns (part: Result<Part, Failure>)
    ensures part == Integer(der, index)
  {
    if index >= |der| {
      return Err(IndexOutOfRange);
    }
    if der[index] != 0x02 {
      return Err(UnexpectedEncoding);
    }
    if index + 1 >= |der| {
      return Err(IndexOutOfRange);
    }
    var length := der[index + 1];
    var value := StripZeros(Slice(der, index + 2, index + 2 + length));
    if |value| > 32 {
      return Err(UnexpectedLength);
    }
    return Ok(Part(Justify(value), index + 2 + length));
  }

  /** `_der_to_raw_signature`, with its one index and its list of parts. */
  method DerToRawSignature(der: seq<Byte>) returns (raw: Result<seq<Byte>, Failure>)
    ensures raw == Convert(der)
  {
    if |der| < 8 || der[0] != 0x30 {
      return Err(UnexpectedEncoding);
    }
    var index: nat := if der[1] < 0x80 then 2 else 2 + (der[1] - 0x80);
    var parts: seq<seq<Byte>> := [];
    for k := 0 to 2
      invariant |parts| == k
      invariant k == 0 ==> index == Start(der)
      invariant k == 1 ==> Integer(der, Start(der)) == Ok(Part(parts[0], index))
      invariant k == 2 ==> Convert(der) == Ok(parts[0] + parts[1])
    {
      var part := ReadInteger(der, index);
      if part.Err? {
        return Err(part.error);
      }
      parts := parts + [part.value.value];
      index := part.value.next;
    }
    return Ok(parts[0] + parts[1]);
  }

  // ---- Numbers and their bytes ----

  /** The number that bytes spell, most significant first. */
  function Value(s: seq<Byte>): nat { if s == [] then 0 else Value(s[..|s| - 1]) * 256 + s[|s| - 1] }

  /** The fewest bytes that spell a number. */
  function Digits(n: nat): seq<Byte> { if n == 0 then [] else Digits(n / 256) + [n % 256] }

  function Power256(k: nat): nat { if k == 0 then 1 else 256 * Power256(k - 1) }

  lemma {:induction false} DigitsSpell(n: nat)
    ensures Value(Digits(n)) == n
    ensures n > 0 ==> Digits(n) != [] && Digits(n)[0] != 0
  {
    if n > 0 {
      DigitsSpell(n / 256);
      assert (Digits(n / 256) + [n % 256])[..|Digits(n / 256)|] == Digits(n / 256);
    }
  }

  lemma {:induction false} DigitsFit(n: nat, k: nat)
    ensures n < Power256(k) <==> |Digits(n)| <= k
  {
    if n > 0 && k > 0 {
      DigitsFit(n / 256, k - 1);
    } else if n == 0 {
      PowerPositive(k);
    }
  }

  lemma {:induction false} PowerPositive(k: nat)
    ensures Power256(k) > 0
  {
    if k > 0 {
      PowerPositive(k - 1);
    }
  }

  lemma {:induction false} LeadingZero(s: seq<Byte>)
    ensures Value([0] + s) == Value(s)
  {
    if s != [] {
      var most := s[..|s| - 1];
      LeadingZero(most);
      assert ([0] + s)[..|s|] == [0] + most;
    } else {
      assert ([0] + s)[..0] == [];
    }
  }

  /** Neither stripping zeros nor putting them back changes the number. */
  lemma {:induction false} StripKeepsValue(s: seq<Byte>)
    ensures Value(StripZeros(s)) == Value(s)
  {
    if s != [] && s[0] == 0 {
      StripKeepsValue(s[1..]);
      LeadingZero(s[1..]);
      assert s == [0] + s[1..];
    }
  }

  lemma {:induction false} ZerosKeepValue(n: nat, s: seq<Byte>)
    ensures Value(Zeros(n) + s) == Value(s) && |Zeros(n)| == n
  {
    if n > 0 {
      ZerosKeepValue(n - 1, s);
      LeadingZero(Zeros(n - 1) + s);
      assert Zeros(n) + s == [0] + (Zeros(n - 1) + s);
    } else {
      assert Zeros(n) + s == s;
    }
  }

  lemma JustifyKeepsValue(s: seq<Byte>)
    requires |s| <= 32
    ensures |Justify(s)| == 32 && Value(Justify(s)) == Value(s)
  {
    if |s| < 32 {
      ZerosKeepValue(32 - |s|, s);
    }
  }

  /** Thirty-two bytes worth the content of the integer at `index`. */
  predicate Spells(half: seq<Byte>, der: seq<Byte>, index: nat) {
    && index + 1 < |der| && |half| == 32
    && Value(half) == Value(Slice(der, index + 2, index + 2 + der[index + 1]))
  }

  lemma IntegerIsPreserved(der: seq<Byte>, index: nat)
    requires Integer(der, index).Ok?
    ensures Spells(Integer(der, index).value.value, der, index)
  {
    var content := Slice(der, index + 2, index + 2 + der[index + 1]);
    StripKeepsValue(content);
    JustifyKeepsValue(StripZeros(content));
  }

  lemma Halves(r: seq<Byte>, s: seq<Byte>)
    requires |r| == 32 && |s| == 32
    ensures |r + s| == 64 && (r + s)[..32] == r && (r + s)[32..] == s
  {
  }

  lemma HalvesSpell(der: seq<Byte>, raw: seq<Byte>, r: seq<Byte>, i: nat, s: seq<Byte>, j: nat)
    requires raw == r + s && Spells(r, der, i) && Spells(s, der, j)
    ensures |raw| == 64 && Spells(raw[..32], der, i) && Spells(raw[32..], der, j)
  {
    Halves(r, s);
  }

  lemma AcceptedIsTwoIntegers(der: seq<Byte>)
    requires Convert(der).Ok?
    ensures |der| >= 8 && Integer(der, Start(der)).Ok?
    ensures var r := Integer(der, Start(der)).value;
            && Start(der) + 1 < |der| && r.next == Start(der) + 2 + der[Start(der) + 1]
            && Integer(der, r.next).Ok? && Convert(der).value == r.value + Integer(der, r.next).value.value
  {
  }

  /** Whatever it is given, what it accepts it neither changes nor confuses: the first half is worth the
      first integer's content, and the second half the content of the integer that follows it. */
  lemma AcceptedIsPreserved(der: seq<Byte>, raw: seq<Byte>)
    requires Convert(der) == Ok(raw)
    ensures |raw| == 64 && |der| >= 8 && Spells(raw[..32], der, Start(der))
    ensures Spells(raw[32..], der, Start(der) + 2 + der[Start(der) + 1])
  {
    AcceptedIsTwoIntegers(der);
    var first := Integer(der, Start(der)).value;
    IntegerIsPreserved(der, Start(der));
    IntegerIsPreserved(der, first.next);
    HalvesSpell(der, raw, first.value, Start(der), Integer(der, first.next).value.value, first.next);
  }

  // ---- DER ----

  /** X.690 section 8.1.3: the short form below 128, the long form from there. */
  function Length(n: nat): seq<Byte>
    requires Measured(n)
  {
    if n < 128 then [n] else [0x80 + |Digits(n)|] + Digits(n)
  }

  /** DER has no longer length than this: the first octet 0xFF is reserved. */
  predicate Measured(n: nat) { |Digits(n)| <= 126 }

  /** X.690 section 8.3: the fewest octets of two's complement, so a zero before a leading one bit. */
  function Content(n: nat): seq<Byte> {
    var digits := Digits(n);
    if digits == [] then [0] else if digits[0] >= 0x80 then [0] + digits else digits
  }

  function Int(n: nat): seq<Byte>
    requires Measured(|Content(n)|)
  {
    [0x02] + Length(|Content(n)|) + Content(n)
  }

  predicate Encodable(r: nat, s: nat) {
    Measured(|Content(r)|) && Measured(|Content(s)|) && Measured(|Int(r) + Int(s)|)
  }

  /** The `ECDSA-Sig-Value` of RFC 3279 section 2.2.3. */
  function Der(r: nat, s: nat): seq<Byte>
    requires Encodable(r, s)
  {
    [0x30] + Length(|Int(r) + Int(s)|) + (Int(r) + Int(s))
  }

  /** RFC 7518 section 3.4: a number in exactly 32 bytes. */
  function Fixed(n: nat): seq<Byte> { Justify(Digits(n)) }

  const LIMIT := Power256(32)

  lemma FixedSpells(n: nat)
    requires n < LIMIT
    ensures |Fixed(n)| == 32 && Value(Fixed(n)) == n
  {
    DigitsSpell(n);
    DigitsFit(n, 32);
    JustifyKeepsValue(Digits(n));
  }

  lemma ContentStripped(n: nat)
    ensures StripZeros(Content(n)) == Digits(n)
    ensures |Content(n)| <= |Digits(n)| + 1
  {
    DigitsSpell(n);
    var digits := Digits(n);
    if digits == [] {
      assert StripZeros([0]) == StripZeros([0][1..]);
    } else if digits[0] >= 0x80 {
      assert ([0] + digits)[1..] == digits;
    }
  }

  /** An integer whose length takes the short form is read whole. */
  lemma ShortInteger(before: seq<Byte>, n: nat, after: seq<Byte>)
    requires |Content(n)| < 128 && Measured(|Content(n)|)
    ensures var der := before + Int(n) + after;
            Integer(der, |before|)
            == if n < LIMIT then Ok(Part(Fixed(n), |before| + |Int(n)|)) else Err(UnexpectedLength)
  {
    var der, content, i := before + Int(n) + after, Content(n), |before|;
    assert Int(n) == [0x02, |content|] + content;
    assert der[i] == Int(n)[0] && der[i + 1] == Int(n)[1];
    assert Slice(der, i + 2, i + 2 + |content|) == content;
    ContentStripped(n);
    DigitsFit(n, 32);
  }

  /** A content that does not start with a zero, and of which more than 32 octets are taken, is refused. */
  lemma RefusedAt(der: seq<Byte>, i: nat)
    requires i + 2 + 128 <= |der| && der[i] == 0x02 && der[i + 1] >= 128 && der[i + 2] != 0
    ensures Integer(der, i) == Err(UnexpectedLength)
  {
    var taken := Slice(der, i + 2, i + 2 + der[i + 1]);
    assert |taken| >= 128 && taken[0] == der[i + 2];
    assert StripZeros(taken) == taken;
  }

  /** One whose length takes the long form is misread, but never accepted: its first length octet is taken
      for the whole length, and what follows starts with no zero. */
  lemma LongInteger(before: seq<Byte>, n: nat, after: seq<Byte>)
    requires |Content(n)| >= 128 && Measured(|Content(n)|)
    ensures n >= LIMIT && Integer(before + Int(n) + after, |before|) == Err(UnexpectedLength)
  {
    LongIntegerStarts(n);
    var coded := Int(n);
    var der := before + coded + after;
    assert der[|before|] == coded[0] && der[|before| + 1] == coded[1] && der[|before| + 2] == coded[2];
    RefusedAt(der, |before|);
    ContentStripped(n);
    DigitsFit(n, 32);
  }

  lemma LongIntegerStarts(n: nat)
    requires |Content(n)| >= 128 && Measured(|Content(n)|)
    ensures |Int(n)| >= 130 && Int(n)[0] == 0x02 && Int(n)[1] >= 128 && Int(n)[2] != 0
  {
    var size := Digits(|Content(n)|);
    DigitsSpell(|Content(n)|);
    assert Int(n) == [0x02, 0x80 + |size|] + size + Content(n);
  }

  lemma IntegerAt(before: seq<Byte>, n: nat, after: seq<Byte>)
    requires Measured(|Content(n)|)
    ensures var der := before + Int(n) + after;
            Integer(der, |before|)
            == if n < LIMIT then Ok(Part(Fixed(n), |before| + |Int(n)|)) else Err(UnexpectedLength)
  {
    if |Content(n)| < 128 {
      ShortInteger(before, n, after);
    } else {
      LongInteger(before, n, after);
    }
  }

  lemma Header(r: nat, s: nat)
    requires Encodable(r, s)
    ensures var der := Der(r, s); var size := Length(|Int(r) + Int(s)|);
            && |der| >= 8 && der[0] == 0x30 && Start(der) == 1 + |size|
            && der == ([0x30] + size) + Int(r) + Int(s)
            && der == ([0x30] + size + Int(r)) + Int(s) + []
  {
    var body := Int(r) + Int(s);
    assert |Content(r)| >= 1 && |Content(s)| >= 1;
    assert |Int(r)| >= 3 && |Int(s)| >= 3;
    assert Der(r, s)[1] == Length(|body|)[0];
  }

  /** For every pair of numbers DER can encode: 32 bytes of each when both fit, and a refusal exactly when
      one does not. */
  lemma DerToJws(r: nat, s: nat)
    requires Encodable(r, s)
    ensures Convert(Der(r, s)) == if r < LIMIT && s < LIMIT then Ok(Fixed(r) + Fixed(s)) else Err(UnexpectedLength)
  {
    Header(r, s);
    var head := [0x30] + Length(|Int(r) + Int(s)|);
    IntegerAt(head, r, Int(s));
    IntegerAt(head + Int(r), s, []);
    Converted(Der(r, s), Integer(Der(r, s), |head|), Integer(Der(r, s), |head + Int(r)|));
  }

  /** The steps of converting, each by its outcome. */
  lemma Converted(der: seq<Byte>, first: Result<Part, Failure>, second: Result<Part, Failure>)
    requires |der| >= 8 && der[0] == 0x30 && Integer(der, Start(der)) == first
    requires first.Ok? ==> Integer(der, first.value.next) == second
    ensures first.Err? ==> Convert(der) == Err(first.error)
    ensures first.Ok? && second.Err? ==> Convert(der) == Err(second.error)
    ensures first.Ok? && second.Ok? ==> Convert(der) == Ok(first.value.value + second.value.value)
  {
  }

  /** Every signature on the curve is one DER can encode, with one-octet lengths throughout. */
  lemma FittingIsEncodable(r: nat, s: nat)
    requires r < LIMIT && s < LIMIT
    ensures Encodable(r, s) && |Int(r) + Int(s)| <= 70
  {
    DigitsFit(r, 32);
    DigitsFit(s, 32);
    ContentStripped(r);
    ContentStripped(s);
    OneOctet(|Content(r)|);
    OneOctet(|Content(s)|);
    OneOctet(|Int(r) + Int(s)|);
  }

  lemma OneOctet(n: nat)
    requires n < 128
    ensures Measured(n)
  {
    DigitsFit(n, 1);
    assert Power256(1) == 256 * Power256(0);
  }

  /** So a JWS verifier reads back the very numbers that were signed. */
  lemma SignatureReadBack(r: nat, s: nat)
    requires r < LIMIT && s < LIMIT
    ensures Encodable(r, s) && Convert(Der(r, s)).Ok?
    ensures var raw := Convert(Der(r, s)).value;
            |raw| == 64 && Value(raw[..32]) == r && Value(raw[32..]) == s
  {
    FittingIsEncodable(r, s);
    DerToJws(r, s);
    FixedSpells(r);
    FixedSpells(s);
    Halves(Fixed(r), Fixed(s));
  }
}
