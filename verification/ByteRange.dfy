/** Serving one byte range of an episode's audio from memory. */
module ByteRange {
  import opened Prelude
  import opened Text

  // ---- The header ----

  /** What `\s` matches in ASCII. */
  predicate Blank(c: char) { '\t' <= c <= '\r' || c == ' ' }

  predicate AllBlank(s: string) { forall c | c in s :: Blank(c) }

  predicate NoBlank(s: string) { forall c | c in s :: !Blank(c) }

  function TrimLeft(s: string): string { if s != [] && Blank(s[0]) then TrimLeft(s[1..]) else s }

  function TrimRight(s: string): string {
    if s != [] && Blank(s[|s| - 1]) then TrimRight(s[..|s| - 1]) else s
  }

  function Trim(s: string): string { TrimRight(TrimLeft(s)) }

  /** The two numbers of a range, either of which may be empty. */
  datatype Range = Range(first: string, last: string)

  /** At most eighteen digits, with blanks around them. */
  predicate IsField(s: string) { AllDigits(Trim(s)) && |Trim(s)| <= 18 }

  /** `_RANGE.match`. */
  function Match(header: string): Option<Range> {
    var sides := SplitOn(header, '=');
    if |sides| != 2 || Trim(sides[0]) != "bytes" then None
    else
      var fields := SplitOn(sides[1], '-');
      if |fields| != 2 || !IsField(fields[0]) || !IsField(fields[1]) then None
      else Some(Range(Trim(fields[0]), Trim(fields[1])))
  }

  /** A field as the pattern has it: `\s*([0-9]{0,18})\s*`. */
  ghost predicate Field(s: string, digits: string) {
    && AllDigits(digits) && |digits| <= 18
    && exists before, after :: AllBlank(before) && AllBlank(after) && s == before + digits + after
  }

  /** The pattern's language, as it is written: `^\s*bytes\s*=\s*([0-9]{0,18})\s*-\s*([0-9]{0,18})\s*$`. */
  ghost predicate Spelled(header: string, range: Range) {
    exists unit, first, last ::
      && header == unit + "=" + (first + "-" + last)
      && (exists before, after :: AllBlank(before) && AllBlank(after) && unit == before + "bytes" + after)
      && Field(first, range.first) && Field(last, range.last)
  }

  lemma {:induction false} LeftBlanks(s: string) returns (blanks: string)
    ensures AllBlank(blanks) && s == blanks + TrimLeft(s)
  {
    if s != [] && Blank(s[0]) {
      var more := LeftBlanks(s[1..]);
      blanks := [s[0]] + more;
    } else {
      blanks := [];
    }
  }

  lemma {:induction false} RightBlanks(s: string) returns (blanks: string)
    ensures AllBlank(blanks) && s == TrimRight(s) + blanks
  {
    if s != [] && Blank(s[|s| - 1]) {
      var more := RightBlanks(s[..|s| - 1]);
      blanks := more + [s[|s| - 1]];
    } else {
      blanks := [];
    }
  }

  lemma TrimSplits(s: string)
    ensures exists before, after :: AllBlank(before) && AllBlank(after) && s == before + Trim(s) + after
  {
    var before := LeftBlanks(s);
    var after := RightBlanks(TrimLeft(s));
    assert s == before + Trim(s) + after;
  }

  lemma {:induction false} TrimLeftOf(before: string, s: string)
    requires AllBlank(before) && (s == [] || !Blank(s[0]))
    ensures TrimLeft(before + s) == s
  {
    if before == [] {
      assert before + s == s;
    } else {
      TrimLeftOf(before[1..], s);
      assert (before + s)[1..] == before[1..] + s;
    }
  }

  lemma {:induction false} TrimRightOf(s: string, after: string)
    requires AllBlank(after) && (s == [] || !Blank(s[|s| - 1]))
    ensures TrimRight(s + after) == s
  {
    if after == [] {
      assert s + after == s;
    } else {
      TrimRightOf(s, after[..|after| - 1]);
      assert (s + after)[..|s + after| - 1] == s + after[..|after| - 1];
    }
  }

  lemma TrimOf(before: string, s: string, after: string)
    requires AllBlank(before) && NoBlank(s) && AllBlank(after)
    ensures Trim(before + s + after) == s
  {
    if s == [] {
      assert before + s + after == (before + after) + [];
      TrimLeftOf(before + after, []);
    } else {
      assert before + s + after == before + (s + after);
      TrimLeftOf(before, s + after);
      TrimRightOf(s, after);
    }
  }

  lemma FieldIff(s: string, digits: string)
    ensures Field(s, digits) <==> IsField(s) && Trim(s) == digits
  {
    TrimSplits(s);
    if Field(s, digits) {
      var before, after :| AllBlank(before) && AllBlank(after) && s == before + digits + after;
      TrimOf(before, digits, after);
    }
  }

  lemma FieldHasNo(s: string, digits: string, c: char)
    requires Field(s, digits) && !Blank(c) && !IsDigit(c)
    ensures c !in s
  {
  }

  /** The matcher accepts exactly the pattern's language, and reads exactly its two groups. */
  lemma MatchIff(header: string, range: Range)
    ensures Match(header) == Some(range) <==> Spelled(header, range)
  {
    if Spelled(header, range) {
      SpelledMatches(header, range);
    }
    if Match(header) == Some(range) {
      MatchIsSpelled(header, range);
    }
  }

  lemma SpelledMatches(header: string, range: Range)
    requires Spelled(header, range)
    ensures Match(header) == Some(range)
  {
    var unit, first, last :|
      && header == unit + "=" + (first + "-" + last)
      && (exists before, after :: AllBlank(before) && AllBlank(after) && unit == before + "bytes" + after)
      && Field(first, range.first) && Field(last, range.last);
    var before, after :| AllBlank(before) && AllBlank(after) && unit == before + "bytes" + after;
    TrimOf(before, "bytes", after);
    FieldHasNo(first, range.first, '=');
    FieldHasNo(first, range.first, '-');
    FieldHasNo(last, range.last, '=');
    FieldHasNo(last, range.last, '-');
    FieldIff(first, range.first);
    FieldIff(last, range.last);
    SplitTwo(unit, first + "-" + last, '=');
    SplitTwo(first, last, '-');
  }

  lemma SplitTwo(a: string, b: string, c: char)
    requires c !in a && c !in b
    ensures SplitOn(a + [c] + b, c) == [a, b]
  {
    SplitFirst(a, b, c);
    SplitWhole(b, c);
  }

  lemma JoinTwo(s: string, c: char)
    requires |SplitOn(s, c)| == 2
    ensures s == SplitOn(s, c)[0] + [c] + SplitOn(s, c)[1]
  {
    JoinSplit(s, c);
    var parts := SplitOn(s, c);
    assert parts == [parts[0]] + [parts[1]];
    JoinAppend([parts[0]], [parts[1]], c);
  }

  lemma MatchIsSpelled(header: string, range: Range)
    requires Match(header) == Some(range)
    ensures Spelled(header, range)
  {
    var sides := SplitOn(header, '=');
    var fields := SplitOn(sides[1], '-');
    JoinTwo(header, '=');
    JoinTwo(sides[1], '-');
    TrimSplits(sides[0]);
    FieldIff(fields[0], range.first);
    FieldIff(fields[1], range.last);
    assert header == sides[0] + "=" + (fields[0] + "-" + fields[1]);
  }

  // ---- The answer ----

  /** 200 with everything; 206 with the bytes its `Content-Range` names and their number; or 416 with the
      length. */
  datatype Answer<T> =
    | Whole(body: seq<T>)
    | Partial(body: seq<T>, start: nat, end: nat, total: nat, length: nat)
    | Unsatisfiable(total: nat)

  /** The range a header asks for, if it asks for one. */
  function Requested(header: Option<string>): (asked: Option<Range>)
    ensures asked.Some? ==> AllDigits(asked.value.first) && AllDigits(asked.value.last)
  {
    if header.None? || header.value == "" then None
    else
      var range := Match(header.value);
      if range.None? then None
      else if range.value.first != "" && range.value.last != "" && Value(range.value.last) < Value(range.value.first)
      then None
      else if range.value.first == "" && range.value.last == "" then None
      else range
  }

  /** RFC 9110 section 14.1.2: the positions a range selects in a representation of `total` bytes. */
  predicate Selects(range: Range, total: nat, position: nat)
    requires AllDigits(range.first) && AllDigits(range.last)
  {
    && position < total
    && if range.first != "" then Value(range.first) <= position && (range.last != "" ==> position <= Value(range.last))
       else position + Value(range.last) >= total
  }

  /** `_byte_range_response`. A header that asks for no range gets everything; one that does gets exactly the
      bytes it selects, under a `Content-Range` that names them, or a 416 exactly when it selects none. */
  function Serve<T>(data: seq<T>, header: Option<string>): (answer: Answer<T>)
    ensures Requested(header).None? ==> answer == Whole(data)
    ensures Requested(header).Some? ==>
              || (answer == Unsatisfiable(|data|) && forall p: nat :: !Selects(Requested(header).value, |data|, p))
              || (answer.Partial? && answer.start <= answer.end
                  && forall p: nat :: Selects(Requested(header).value, |data|, p) <==> answer.start <= p <= answer.end)
    ensures answer.Partial? ==>
              && answer.start <= answer.end < answer.total == |data|
              && answer.body == data[answer.start..answer.end + 1] && answer.length == |answer.body| >= 1
  {
    var total := |data|;
    var asked := Requested(header);
    if asked.None? then Whole(data)
    else
      var first, last := asked.value.first, asked.value.last;
      var start := if first != "" then Value(first) else if Value(last) > total then 0 else total - Value(last);
      var end := if first != "" && last != "" && Value(last) < total - 1 then Value(last) else total - 1;
      if start >= total || end < start then Unsatisfiable(total)
      else Partial(data[start..end + 1], start, end, total, end - start + 1)
  }

  /** A header asks for a range exactly when it spells one that does not end before it starts. */
  lemma RequestedIff(header: Option<string>, range: Range)
    requires AllDigits(range.first) && AllDigits(range.last)
    ensures Requested(header) == Some(range) <==>
            && header.Some? && Spelled(header.value, range) && (range.first != "" || range.last != "")
            && (range.first != "" && range.last != "" ==> Value(range.first) <= Value(range.last))
  {
    if header.Some? {
      MatchIff(header.value, range);
      if header.value == "" {
        assert SplitOn("", '=') == [""];
      }
    }
  }

  // ---- A client ----

  function Ask(first: nat, last: nat): string { "bytes=" + Dec(first) + "-" + Dec(last) }

  /** Such a header is read as those two positions, while each has at most eighteen digits; past that it is
      no range at all. */
  lemma AskIsRead(first: nat, last: nat)
    ensures Match(Ask(first, last))
            == if |Dec(first)| <= 18 && |Dec(last)| <= 18 then Some(Range(Dec(first), Dec(last))) else None
  {
    var from, to := Dec(first), Dec(last);
    assert '=' !in from && '=' !in to && '-' !in from && '-' !in to && NoBlank(from) && NoBlank(to);
    assert Ask(first, last) == "bytes" + ['='] + (from + ['-'] + to);
    SplitTwo("bytes", from + ['-'] + to, '=');
    SplitTwo(from, to, '-');
    TrimAlone("bytes");
    TrimAlone(from);
    TrimAlone(to);
  }

  lemma TrimAlone(s: string)
    requires NoBlank(s)
    ensures Trim(s) == s
  {
    TrimOf([], s, []);
    assert [] + s + [] == s;
  }

  /** Ask for the next `chunk` bytes until the reported total is reached or nothing is left; a 200 is the
      whole representation. */
  function Fetch<T>(data: seq<T>, got: seq<T>, chunk: nat): seq<T>
    requires chunk >= 1
    decreases |data| - |got|
  {
    match Serve(data, Some(Ask(|got|, |got| + chunk - 1)))
    case Whole(body) => body
    case Unsatisfiable(_) => got
    case Partial(body, _, _, total, _) =>
      if |got| + |body| >= total then got + body else Fetch(data, got + body, chunk)
  }

  /** What a header that asks for two positions in order is answered with. */
  lemma RangeServed<T>(data: seq<T>, header: string, range: Range, from: nat, to: nat)
    requires header != "" && Match(header) == Some(range) && range.first != "" && range.last != ""
    requires AllDigits(range.first) && AllDigits(range.last)
    requires Value(range.first) == from <= to == Value(range.last)
    ensures var answer := Serve(data, Some(header));
            if from >= |data| then answer == Unsatisfiable(|data|)
            else answer.Partial? && answer.start == from && answer.end == if to < |data| then to else |data| - 1
  {
  }

  /** What one request of the client's is answered with. */
  lemma NextChunk<T>(data: seq<T>, at: nat, chunk: nat)
    requires chunk >= 1 && at <= |data|
    ensures var answer := Serve(data, Some(Ask(at, at + chunk - 1)));
            || answer == Whole(data)
            || (at == |data| && answer == Unsatisfiable(|data|))
            || (at < |data| && answer.Partial? && answer.start == at
                && answer.end == if at + chunk <= |data| then at + chunk - 1 else |data| - 1)
  {
    var last := at + chunk - 1;
    AskIsRead(at, last);
    ValueDec(at);
    ValueDec(last);
    if Match(Ask(at, last)).Some? {
      RangeServed(data, Ask(at, last), Range(Dec(at), Dec(last)), at, last);
    }
  }

  /** For any data, any chunk size and any place to resume from, the client ends with the data exactly. */
  lemma {:induction false} FetchIsTheData<T>(data: seq<T>, got: seq<T>, chunk: nat)
    requires chunk >= 1 && got <= data
    ensures Fetch(data, got, chunk) == data
    decreases |data| - |got|
  {
    NextChunk(data, |got|, chunk);
    var answer := Serve(data, Some(Ask(|got|, |got| + chunk - 1)));
    if answer.Partial? {
      assert got + answer.body == data[..answer.end + 1];
      if answer.end + 1 < |data| {
        FetchIsTheData(data, got + answer.body, chunk);
      }
    }
  }
}
