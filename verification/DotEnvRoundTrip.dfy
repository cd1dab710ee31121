/** What `bin/dev` reads from a file `bin/local-env` wrote: every secret and every override, and nothing
    else, exactly when no secret holds a line separator other than a newline. */
module DotEnvRoundTrip {
  import opened Prelude
  import opened Text
  import opened DotEnv

  // ---- Escaping, and undoing it ----

  function EscapeChar(c: char): string {
    if c == '\\' then "\\\\" else if c == '"' then "\\\"" else if c == '$' then "\\$"
    else if c == '\n' then "\\n" else [c]
  }

  function EscapeEach(value: string): string {
    if value == "" then "" else EscapeChar(value[0]) + EscapeEach(value[1..])
  }

  /** The order matters: each later replacement must leave the earlier ones' backslashes alone. */
  lemma FourReplacesOf(c: char)
    ensures Escaped([c]) == EscapeChar(c)
  {
    ReplaceCharOf(c, '\\', "\\\\");
    ReplaceCharOf(c, '"', "\\\"");
    ReplaceCharOf(c, '$', "\\$");
    ReplaceCharOf(c, '\n', "\\n");
    if c == '\\' {
      NothingToReplace("\\\\", '"', "\\\"");
      NothingToReplace("\\\\", '$', "\\$");
      NothingToReplace("\\\\", '\n', "\\n");
    } else if c == '"' {
      NothingToReplace("\\\"", '$', "\\$");
      NothingToReplace("\\\"", '\n', "\\n");
    } else if c == '$' {
      NothingToReplace("\\$", '\n', "\\n");
    }
  }

  lemma EscapedAppend(a: string, b: string)
    ensures Escaped(a + b) == Escaped(a) + Escaped(b)
  {
    ReplaceCharAppend(a, b, '\\', "\\\\");
    var a1, b1 := Replace(a, "\\", "\\\\"), Replace(b, "\\", "\\\\");
    ReplaceCharAppend(a1, b1, '"', "\\\"");
    var a2, b2 := Replace(a1, "\"", "\\\""), Replace(b1, "\"", "\\\"");
    ReplaceCharAppend(a2, b2, '$', "\\$");
    ReplaceCharAppend(Replace(a2, "$", "\\$"), Replace(b2, "$", "\\$"), '\n', "\\n");
  }

  /** Four ordered replacements are one per-character escape. */
  lemma {:induction false} EscapedIsPerCharacter(value: string)
    ensures Escaped(value) == EscapeEach(value)
  {
    if value != "" {
      assert value == [value[0]] + value[1..];
      EscapedAppend([value[0]], value[1..]);
      FourReplacesOf(value[0]);
      EscapedIsPerCharacter(value[1..]);
    }
  }

  lemma UnescapedStep(c: char, tail: string)
    ensures Unescaped(EscapeChar(c) + tail) == [c] + Unescaped(tail)
  {
    var s := EscapeChar(c) + tail;
    if |EscapeChar(c)| == 2 {
      assert s[2..] == tail;
    } else {
      assert s[1..] == tail;
    }
  }

  /** The reader's unescaper inverts the printer's escapes. */
  lemma {:induction false} UnescapeInvertsEscape(value: string)
    ensures Unescaped(EscapeEach(value)) == value
  {
    if value != "" {
      UnescapedStep(value[0], EscapeEach(value[1..]));
      UnescapeInvertsEscape(value[1..]);
    }
  }

  /** Between double quotes: no quote that would end them, no dollar that would be expanded and no end of
      line, but behind a backslash. */
  predicate Literal(s: string) {
    s == "" || (if s[0] == '\\' then |s| > 1 && Literal(s[2..])
                else s[0] != '"' && s[0] != '$' && s[0] != '\n' && Literal(s[1..]))
  }

  lemma {:induction false} EscapedIsLiteral(value: string)
    ensures Literal(Escaped(value))
  {
    EscapedIsPerCharacter(value);
    if value != "" {
      EscapedIsLiteral(value[1..]);
      EscapedIsPerCharacter(value[1..]);
      var first, rest := EscapeChar(value[0]), EscapeEach(value[1..]);
      assert (first + rest)[|first|..] == rest;
    }
  }

  lemma {:induction false} EscapeNoShorter(value: string)
    ensures |EscapeEach(value)| >= |value|
  {
    if value != "" {
      EscapeNoShorter(value[1..]);
    }
  }

  /** A value is written as it is exactly when it needs no quotes. */
  lemma BareIffUnquoted(value: string)
    ensures RenderValue(value) == value <==> IsBare(value)
  {
    EscapedIsPerCharacter(value);
    EscapeNoShorter(value);
  }

  // ---- One line ----

  lemma StripNothing(s: string)
    requires s == "" || (!IsSpace(s[0]) && !IsSpace(s[|s| - 1]))
    ensures Strip(s) == s
  {
    assert StripLeft(s) == s;
  }

  lemma {:induction false} IndexOfFirst(a: string, c: char, b: string)
    requires c !in a
    ensures IndexOf(a + [c] + b, c) == |a|
  {
    var s := a + [c] + b;
    if a != "" {
      assert s[1..] == a[1..] + [c] + b;
      assert a[0] in a;
      IndexOfFirst(a[1..], c, b);
    }
  }

  /** A rendered value is stripped by nothing and read back as the value. */
  lemma ValueReadBack(value: string)
    ensures var v := RenderValue(value);
            Strip(v) == v && ValueOf(v) == value && (v == "" || !IsSpace(v[|v| - 1]))
  {
    var v := RenderValue(value);
    if IsBare(value) {
      assert value != "" ==> value[0] in value && value[|value| - 1] in value;
    } else {
      assert v[1..|v| - 1] == Escaped(value);
      EscapedIsPerCharacter(value);
      UnescapeInvertsEscape(value);
    }
    StripNothing(v);
  }

  lemma NameHasNoSpace(name: string)
    requires IsEnvName(name)
    ensures '=' !in name && !IsSpace(name[0]) && !IsSpace(name[|name| - 1]) && name[0] != '#'
    ensures WithoutExport(name) == name && Strip(name) == name
  {
    assert name[0] in name && name[|name| - 1] in name;
    assert |name| > 6 ==> name[6] in name;
    StripNothing(name);
  }

  /** A line made of a name and a stripped value sets that name to what the value reads as. */
  lemma AssignmentReadBack(name: string, v: string)
    requires IsEnvName(name) && Strip(v) == v && (v == "" || !IsSpace(v[|v| - 1]))
    ensures ReadLine(name + "=" + v) == Some((name, ValueOf(v)))
  {
    var line := name + "=" + v;
    NameHasNoSpace(name);
    StripNothing(line);
    IndexOfFirst(name, '=', v);
    assert line[|name|] == '=';
    assert line[..|name|] == name && line[|name| + 1..] == v;
  }

  lemma SecretReadBack(s: Secret)
    requires IsEnvName(s.name)
    ensures ReadLine(SecretLine(s)) == Some((s.name, s.value))
  {
    ValueReadBack(s.value);
    AssignmentReadBack(s.name, RenderValue(s.value));
  }

  lemma {:induction false} StripRightHead(s: string)
    requires s != "" && !IsSpace(s[0])
    ensures StripRight(s) != "" && StripRight(s)[0] == s[0]
  {
    if IsSpace(s[|s| - 1]) {
      StripRightHead(s[..|s| - 1]);
    }
  }

  lemma CommentIsIgnored(text: string)
    ensures ReadLine("#" + text) == None
  {
    StripRightHead("#" + text);
    assert StripLeft("#" + text) == "#" + text;
  }

  // ---- Lines ----

  predicate OneLine(s: string) { forall c | c in s :: !IsLineBreak(c) }

  lemma {:induction false} LineEndAt(line: string, rest: string)
    requires OneLine(line)
    ensures LineEnd(line + "\n" + rest) == |line|
  {
    var s := line + "\n" + rest;
    if line != "" {
      assert line[0] in line;
      assert s[1..] == line[1..] + "\n" + rest;
      LineEndAt(line[1..], rest);
    }
  }

  lemma SplitFirstLine(line: string, rest: string)
    requires OneLine(line)
    ensures SplitLines(line + "\n" + rest) == [line] + SplitLines(rest)
  {
    var s := line + "\n" + rest;
    LineEndAt(line, rest);
    assert s[..|line|] == line && s[|line| + 1..] == rest && s[|line|] == '\n';
  }

  /** A splitter that takes a text's lines off one at a time. */
  ghost predicate TakesLines(split: string -> seq<string>) {
    forall line, rest | OneLine(line) :: split(line + "\n" + rest) == [line] + split(rest)
  }

  lemma SplitLinesTakesLines()
    ensures TakesLines(SplitLines)
  {
    forall line, rest | OneLine(line)
      ensures SplitLines(line + "\n" + rest) == [line] + SplitLines(rest)
    {
      SplitFirstLine(line, rest);
    }
  }

  lemma {:induction false} SplitUnlines(split: string -> seq<string>, lines: seq<string>, rest: string)
    requires TakesLines(split) && forall l | l in lines :: OneLine(l)
    ensures split(Unlines(lines) + rest) == lines + split(rest)
  {
    if lines == [] {
      assert "" + rest == rest;
      assert lines + split(rest) == split(rest);
    } else {
      var before, last := lines[..|lines| - 1], lines[|lines| - 1];
      assert last in lines;
      assert Unlines(lines) + rest == Unlines(before) + (last + "\n" + rest);
      SplitUnlines(split, before, last + "\n" + rest);
      assert before + ([last] + split(rest)) == before + [last] + split(rest);
      assert before + [last] == lines;
    }
  }

  lemma {:induction false} ReadLinesAppend(read: string -> Option<(string, string)>, a: seq<string>, b: seq<string>)
    ensures ReadLines(read, a + b) == ReadLines(read, a) + ReadLines(read, b)
  {
    if b == [] {
      assert a + b == a;
    } else {
      var before, last := b[..|b| - 1], b[|b| - 1];
      assert (a + b)[..|a + b| - 1] == a + before;
      ReadLinesAppend(read, a, before);
    }
  }

  // ---- What the file says ----

  function SecretsMap(secrets: seq<Secret>): map<string, string> {
    if secrets == [] then map[]
    else SecretsMap(secrets[..|secrets| - 1])[secrets[|secrets| - 1].name := secrets[|secrets| - 1].value]
  }

  function PairsMap(pairs: seq<(string, string)>): map<string, string> {
    if pairs == [] then map[]
    else PairsMap(pairs[..|pairs| - 1])[pairs[|pairs| - 1].0 := pairs[|pairs| - 1].1]
  }

  /** A fixed line is on one line, and an override on it needs no quotes. */
  predicate PlainLine(line: FixedLine) {
    match line
    case Comment(text) => OneLine(text)
    case Blank => true
    case Override(name, value) => IsEnvName(name) && IsBare(value)
  }

  /** A line reader that reads back what the printer writes. */
  ghost predicate ReadsBack(read: string -> Option<(string, string)>) {
    && (forall s: Secret | IsEnvName(s.name) :: read(SecretLine(s)) == Some((s.name, s.value)))
    && (forall line | PlainLine(line) ::
          read(FixedText(line)) == if line.Override? then Some((line.name, line.value)) else None)
  }

  lemma OverrideReadBack(name: string, value: string)
    requires IsEnvName(name) && IsBare(value)
    ensures ReadLine(name + "=" + value) == Some((name, value))
  {
    assert SecretLine(Secret(name, value)) == name + "=" + value;
    SecretReadBack(Secret(name, value));
  }

  lemma OverrideOneLine(name: string, value: string)
    requires IsEnvName(name) && IsBare(value)
    ensures OneLine(name + "=" + value)
  {
  }

  lemma FixedLineReadBack(line: FixedLine)
    requires PlainLine(line)
    ensures ReadLine(FixedText(line)) == if line.Override? then Some((line.name, line.value)) else None
  {
    match line
    case Comment(text) => CommentIsIgnored(text);
    case Blank => StripNothing("");
    case Override(name, value) => OverrideReadBack(name, value);
  }

  lemma ReadLineReadsBack()
    ensures ReadsBack(ReadLine)
  {
    forall s: Secret | IsEnvName(s.name)
      ensures ReadLine(SecretLine(s)) == Some((s.name, s.value))
    {
      SecretReadBack(s);
    }
    forall line | PlainLine(line)
      ensures ReadLine(FixedText(line)) == if line.Override? then Some((line.name, line.value)) else None
    {
      FixedLineReadBack(line);
    }
  }

  lemma {:induction false} ReadSecrets(read: string -> Option<(string, string)>, secrets: seq<Secret>)
    requires ReadsBack(read) && forall s | s in secrets :: IsEnvName(s.name)
    ensures ReadLines(read, SecretLines(secrets)) == SecretsMap(secrets)
  {
    if secrets != [] {
      var before, last := secrets[..|secrets| - 1], secrets[|secrets| - 1];
      ReadSecrets(read, before);
      assert last in secrets;
      var lines := SecretLines(secrets);
      assert lines[..|lines| - 1] == SecretLines(before) && lines[|lines| - 1] == SecretLine(last);
    }
  }

  lemma {:induction false} ReadFixedLines(read: string -> Option<(string, string)>, lines: seq<FixedLine>)
    requires ReadsBack(read) && forall l | l in lines :: PlainLine(l)
    ensures ReadLines(read, FixedLines(lines)) == PairsMap(OverridesOf(lines))
  {
    if lines != [] {
      var before, last := lines[..|lines| - 1], lines[|lines| - 1];
      ReadFixedLines(read, before);
      assert last in lines;
      var texts := FixedLines(lines);
      assert texts[..|texts| - 1] == FixedLines(before) && texts[|texts| - 1] == FixedText(last);
      var pairs := OverridesOf(lines);
      assert last.Override? ==> pairs[..|pairs| - 1] == OverridesOf(before);
      assert !last.Override? ==> pairs == OverridesOf(before);
    }
  }

  lemma FixedTextOneLine(line: FixedLine)
    requires PlainLine(line)
    ensures OneLine(FixedText(line))
  {
    if line.Override? {
      OverrideOneLine(line.name, line.value);
    }
  }

  lemma FixedLinesOneLine(lines: seq<FixedLine>)
    requires forall l | l in lines :: PlainLine(l)
    ensures forall t | t in FixedLines(lines) :: OneLine(t)
  {
    forall k | 0 <= k < |lines|
      ensures OneLine(FixedText(lines[k]))
    {
      assert lines[k] in lines;
      FixedTextOneLine(lines[k]);
    }
  }

  // ---- Separators ----

  /** A line separator the printer does not escape. */
  predicate HasHardBreak(s: string) { exists c :: c in s && IsLineBreak(c) && c != '\n' }

  lemma {:induction false} EscapeKeepsLine(value: string)
    requires !HasHardBreak(value)
    ensures OneLine(EscapeEach(value))
  {
    if value != "" {
      assert value[0] in value && forall c | c in value[1..] :: c in value;
      EscapeKeepsLine(value[1..]);
    }
  }

  lemma SecretOnOneLine(s: Secret)
    requires IsEnvName(s.name) && !HasHardBreak(s.value)
    ensures OneLine(SecretLine(s))
  {
    if !IsBare(s.value) {
      EscapedIsPerCharacter(s.value);
      EscapeKeepsLine(s.value);
    }
  }

  lemma {:induction false} SecretsOnOneLine(secrets: seq<Secret>)
    requires forall s | s in secrets :: IsEnvName(s.name) && !HasHardBreak(s.value)
    ensures forall l | l in SecretLines(secrets) :: OneLine(l)
  {
    if secrets != [] {
      SecretsOnOneLine(secrets[..|secrets| - 1]);
      assert secrets[|secrets| - 1] in secrets;
      SecretOnOneLine(secrets[|secrets| - 1]);
    }
  }

  lemma {:induction false} UnescapedChars(value: string)
    ensures forall c | c in Unescaped(value) :: c in value || c == '\n'
    decreases |value|
  {
    if value != "" {
      if value[0] == '\\' && |value| > 1 && EscapeOf(value[1]).Some? {
        UnescapedChars(value[2..]);
      } else {
        UnescapedChars(value[1..]);
      }
    }
  }

  lemma {:induction false} StripLeftChars(s: string)
    ensures forall c | c in StripLeft(s) :: c in s
  {
    if s != "" && IsSpace(s[0]) {
      StripLeftChars(s[1..]);
    }
  }

  lemma {:induction false} StripRightChars(s: string)
    ensures forall c | c in StripRight(s) :: c in s
  {
    if s != "" && IsSpace(s[|s| - 1]) {
      StripRightChars(s[..|s| - 1]);
    }
  }

  lemma StripChars(s: string)
    ensures forall c | c in Strip(s) :: c in s
  {
    StripLeftChars(s);
    StripRightChars(StripLeft(s));
  }

  /** What a line sets is made of the line's characters and newlines. */
  lemma ReadLineChars(raw: string)
    requires ReadLine(raw).Some?
    ensures forall c | c in ReadLine(raw).value.1 :: c in raw || c == '\n'
  {
    var line := Strip(raw);
    var n := IndexOf(line, '=');
    var value := Strip(line[n + 1..]);
    StripChars(raw);
    StripChars(line[n + 1..]);
    assert forall c | c in value :: c in raw;
    if IsQuoted(value) {
      var inner := value[1..|value| - 1];
      assert forall c | c in inner :: c in value;
      UnescapedChars(inner);
    }
  }

  /** No value read from lines holds an unescapable separator. */
  lemma {:induction false} ReadValuesAreSoft(lines: seq<string>)
    requires forall l | l in lines :: OneLine(l)
    ensures forall k | k in ReadLines(ReadLine, lines) :: !HasHardBreak(ReadLines(ReadLine, lines)[k])
  {
    if lines != [] {
      var last := lines[|lines| - 1];
      ReadValuesAreSoft(lines[..|lines| - 1]);
      assert last in lines;
      if ReadLine(last).Some? {
        ReadLineChars(last);
      }
    }
  }

  // ---- The round trip ----

  /** The file's fixed lines: a header that sets nothing, and the block that sets the overrides. */
  predicate FixedParts(header: seq<FixedLine>, block: seq<FixedLine>) {
    && (forall l | l in header :: PlainLine(l) && !l.Override?)
    && (forall l | l in block :: PlainLine(l))
    && OverridesOf(block) == OVERRIDES
  }

  /** What `collect` keeps: usable names, none reserved, none twice. */
  predicate Collected(secrets: seq<Secret>) {
    && (forall s | s in secrets :: IsEnvName(s.name) && s.name !in RESERVED_NAMES)
    && (forall i, j | 0 <= i < j < |secrets| :: secrets[i].name != secrets[j].name)
  }

  function File(header: seq<FixedLine>, secrets: seq<Secret>, block: seq<FixedLine>): string {
    Unlines(FixedLines(header)) + Unlines(SecretLines(secrets)) + Unlines(FixedLines(block))
  }

  function Expected(secrets: seq<Secret>): map<string, string> { SecretsMap(secrets) + PairsMap(OVERRIDES) }

  lemma {:induction false} NoOverrides(lines: seq<FixedLine>)
    requires forall l | l in lines :: !l.Override?
    ensures OverridesOf(lines) == []
  {
    if lines != [] {
      NoOverrides(lines[..|lines| - 1]);
      assert lines[|lines| - 1] in lines;
    }
  }

  lemma FileLines(header: seq<FixedLine>, secrets: seq<Secret>, block: seq<FixedLine>)
    requires FixedParts(header, block) && forall s | s in secrets :: IsEnvName(s.name) && !HasHardBreak(s.value)
    ensures SplitLines(File(header, secrets, block)) == FixedLines(header) + (SecretLines(secrets) + FixedLines(block))
  {
    FixedLinesOneLine(header);
    FixedLinesOneLine(block);
    SecretsOnOneLine(secrets);
    SplitLinesTakesLines();
    SplitsInThree(SplitLines, FixedLines(header), SecretLines(secrets), FixedLines(block));
  }

  lemma SplitsInThree(split: string -> seq<string>, h: seq<string>, s: seq<string>, b: seq<string>)
    requires TakesLines(split) && split("") == []
    requires forall l | l in h || l in s || l in b :: OneLine(l)
    ensures split(Unlines(h) + Unlines(s) + Unlines(b)) == h + (s + b)
  {
    var tail := Unlines(b) + "";
    assert tail == Unlines(b);
    SplitUnlines(split, b, "");
    assert b + [] == b;
    SplitUnlines(split, s, Unlines(b));
    SplitUnlines(split, h, Unlines(s) + Unlines(b));
    assert Unlines(h) + Unlines(s) + Unlines(b) == Unlines(h) + (Unlines(s) + Unlines(b));
  }

  lemma ReadsInThree(read: string -> Option<(string, string)>, header: seq<FixedLine>, secrets: seq<Secret>,
                     block: seq<FixedLine>)
    requires ReadsBack(read) && forall s | s in secrets :: IsEnvName(s.name)
    requires forall l | l in header || l in block :: PlainLine(l)
    requires OverridesOf(header) == []
    ensures ReadLines(read, FixedLines(header) + (SecretLines(secrets) + FixedLines(block)))
         == SecretsMap(secrets) + PairsMap(OverridesOf(block))
  {
    ReadLinesAppend(read, FixedLines(header), SecretLines(secrets) + FixedLines(block));
    ReadLinesAppend(read, SecretLines(secrets), FixedLines(block));
    ReadFixedLines(read, header);
    ReadFixedLines(read, block);
    ReadSecrets(read, secrets);
    assert PairsMap([]) == map[];
  }

  lemma SoftFileReadBack(header: seq<FixedLine>, secrets: seq<Secret>, block: seq<FixedLine>)
    requires FixedParts(header, block) && forall s | s in secrets :: IsEnvName(s.name) && !HasHardBreak(s.value)
    ensures ReadLines(ReadLine, SplitLines(File(header, secrets, block))) == Expected(secrets)
  {
    FileLines(header, secrets, block);
    ReadLineReadsBack();
    NoOverrides(header);
    ReadsInThree(ReadLine, header, secrets, block);
  }

  lemma {:induction false} SecretsMapHas(secrets: seq<Secret>, i: nat)
    requires i < |secrets| && Collected(secrets)
    ensures secrets[i].name in SecretsMap(secrets) && SecretsMap(secrets)[secrets[i].name] == secrets[i].value
  {
    if i < |secrets| - 1 {
      SecretsMapHas(secrets[..|secrets| - 1], i);
    }
  }

  lemma {:induction false} SecretsMapKeys(secrets: seq<Secret>)
    ensures forall k | k in SecretsMap(secrets) :: exists s | s in secrets :: s.name == k
  {
    if secrets != [] {
      var before, last := secrets[..|secrets| - 1], secrets[|secrets| - 1];
      SecretsMapKeys(before);
      assert forall s :: s in before || s == last ==> s in secrets;
    }
  }

  lemma {:induction false} PairsMapKeys(pairs: seq<(string, string)>)
    ensures forall k :: k in PairsMap(pairs) <==> exists i :: 0 <= i < |pairs| && pairs[i].0 == k
  {
    if pairs != [] {
      var before, last := pairs[..|pairs| - 1], pairs[|pairs| - 1];
      PairsMapKeys(before);
      forall k
        ensures k in PairsMap(pairs) <==> exists i :: 0 <= i < |pairs| && pairs[i].0 == k
      {
        if k in PairsMap(before) {
          var i :| 0 <= i < |before| && before[i].0 == k;
          assert pairs[i].0 == k;
        }
        if exists i :: 0 <= i < |pairs| && pairs[i].0 == k {
          var i :| 0 <= i < |pairs| && pairs[i].0 == k;
          assert i < |before| ==> before[i].0 == k;
        }
        assert last.0 == k ==> pairs[|pairs| - 1].0 == k;
      }
    }
  }

  /** The stated list of override names is the list the block sets. */
  lemma OverrideNamesAgree()
    ensures PairsMap(OVERRIDES).Keys == OVERRIDE_NAMES
  {
    PairsMapKeys(OVERRIDES);
    var names := [OVERRIDES[0].0, OVERRIDES[1].0, OVERRIDES[2].0, OVERRIDES[3].0, OVERRIDES[4].0,
                  OVERRIDES[5].0, OVERRIDES[6].0, OVERRIDES[7].0, OVERRIDES[8].0, OVERRIDES[9].0];
    forall k
      ensures k in PairsMap(OVERRIDES) <==> k in OVERRIDE_NAMES
    {
      if k in PairsMap(OVERRIDES) {
        var i :| 0 <= i < |OVERRIDES| && OVERRIDES[i].0 == k;
        assert names[i] in OVERRIDE_NAMES;
      }
    }
  }

  lemma OverrideNotASecret(secrets: seq<Secret>, name: string)
    requires Collected(secrets) && name in RESERVED_NAMES
    ensures name !in SecretsMap(secrets)
  {
    SecretsMapKeys(secrets);
  }

  /** The round trip is exact: the reader gets the kept secrets and the overrides if and only if no
      kept value holds a line separator the printer does not escape. */
  lemma RoundTripIffSoft(header: seq<FixedLine>, secrets: seq<Secret>, block: seq<FixedLine>)
    requires FixedParts(header, block) && Collected(secrets)
    ensures ReadLines(ReadLine, SplitLines(File(header, secrets, block))) == Expected(secrets)
        <==> forall s | s in secrets :: !HasHardBreak(s.value)
  {
    if forall s | s in secrets :: !HasHardBreak(s.value) {
      SoftFileReadBack(header, secrets, block);
    } else {
      var i :| 0 <= i < |secrets| && HasHardBreak(secrets[i].value);
      HardSecretExpected(secrets, i);
      ReadValuesAreSoft(SplitLines(File(header, secrets, block)));
    }
  }

  /** One secret that does: a lone carriage return. */
  lemma CarriageReturnIsLost(header: seq<FixedLine>, block: seq<FixedLine>)
    requires FixedParts(header, block)
    ensures var secrets := [Secret("A", "\r")];
            Collected(secrets) && ReadLines(ReadLine, SplitLines(File(header, secrets, block))) != Expected(secrets)
  {
    var secret := Secret("A", "\r");
    NotReserved();
    assert '\r' in secret.value && IsLineBreak('\r') && HasHardBreak(secret.value) && secret in [secret];
    RoundTripIffSoft(header, [secret], block);
  }

  lemma NotReserved()
    ensures "A" !in RESERVED_NAMES
  {
    assert forall name | name in RESERVED_NAMES :: |name| > 1;
  }

  lemma HardSecretExpected(secrets: seq<Secret>, i: nat)
    requires Collected(secrets) && i < |secrets|
    ensures secrets[i].name in Expected(secrets) && Expected(secrets)[secrets[i].name] == secrets[i].value
  {
    SecretsMapHas(secrets, i);
    OverrideNamesAgree();
    assert secrets[i] in secrets;
  }

  /** What the expected map is: each secret's value under its name, the overrides under theirs, no name
      besides, and none that is meant to stay unset. */
  lemma ExpectedIs(secrets: seq<Secret>)
    requires Collected(secrets)
    ensures forall i | 0 <= i < |secrets| ::
              secrets[i].name in Expected(secrets) && Expected(secrets)[secrets[i].name] == secrets[i].value
    ensures forall k | k in PairsMap(OVERRIDES) ::
              k in Expected(secrets) && Expected(secrets)[k] == PairsMap(OVERRIDES)[k]
    ensures forall k | k in Expected(secrets) :: k in OVERRIDE_NAMES || exists s | s in secrets :: s.name == k
    ensures forall k | k in UNSET_NAMES :: k !in Expected(secrets)
  {
    OverrideNamesAgree();
    SecretsMapKeys(secrets);
    forall i | 0 <= i < |secrets|
      ensures secrets[i].name in Expected(secrets) && Expected(secrets)[secrets[i].name] == secrets[i].value
    {
      HardSecretExpected(secrets, i);
    }
    UnsetAreNotOverrides();
    forall k | k in UNSET_NAMES
      ensures k !in Expected(secrets)
    {
      OverrideNotASecret(secrets, k);
    }
  }

  lemma UnsetAreNotOverrides()
    ensures UNSET_NAMES !! OVERRIDE_NAMES
  {
    assert "MOTET_APP_BASE_URL" !in OVERRIDE_NAMES;
    assert "MOTET_API_TOKEN" !in OVERRIDE_NAMES;
    assert "MOTET_DRAIN_TRIGGER" !in OVERRIDE_NAMES;
  }

  /** What `collect` keeps, which `DotEnv.KeptKeepsAll` says is every name that is not reserved and its value
      as pasted, is what the round trip asks for when no secret id is listed twice. */
  lemma {:induction false} KeptIsCollected(names: seq<string>, values: string -> string)
    requires forall n | n in names :: IsEnvName(n)
    requires forall i, j | 0 <= i < j < |names| :: names[i] != names[j]
    ensures Collected(Kept(names, values))
    ensures forall s | s in Kept(names, values) :: s.name in names
  {
    if names != [] {
      var before, last := names[..|names| - 1], names[|names| - 1];
      KeptIsCollected(before, values);
      assert last in names && forall n | n in before :: n in names && n != last;
    }
  }

  // ---- What the reader makes of other lines ----

  /** An assignment as a hand may write it: indented, exported, and spaced around the equals sign. */
  datatype Spaced = Spaced(left: string, exported: bool, name: string, after: string, before: string, right: string) {
    predicate Proper() {
      && AllSpace(left) && AllSpace(after) && AllSpace(before) && AllSpace(right)
      && IsEnvName(name) && (exported || !(EXPORT <= name + after))
    }

    function Target(): string { (if exported then EXPORT else "") + (name + after) }

    function Text(value: string): string { left + (Target() + ['='] + (before + value)) + right }
  }

  /** However it is spaced, and whether or not it is exported, it sets its name to its value. */
  lemma SpacedAssignment(a: Spaced, value: string)
    requires a.Proper() && IsStripped(value)
    ensures ReadLine(a.Text(value)) == Some((a.name, ValueOf(value)))
  {
    var target, raw := a.Target(), a.Text(value);
    TargetIsPlain(a);
    if value == "" {
      assert raw == a.left + (target + ['='] + "") + (a.before + a.right);
      StripPads(a.left, target + ['='] + "", a.before + a.right);
      AssignedTo(raw, target, "");
    } else {
      var line := target + ['='] + (a.before + value);
      assert line[0] == target[0] && line[|line| - 1] == value[|value| - 1];
      StripPads(a.left, line, a.right);
      AssignedTo(raw, target, a.before + value);
      StripPads(a.before, value, "");
      assert a.before + value + "" == a.before + value;
    }
  }

  lemma TargetIsPlain(a: Spaced)
    requires a.Proper()
    ensures var target := a.Target();
            && target != "" && target[0] != '#' && !IsSpace(target[0]) && '=' !in target
            && Strip(WithoutExport(target)) == a.name
  {
    var target := a.Target();
    NameHasNoSpace(a.name);
    assert !IsSpace('=') && '=' !in a.after;
    StripPads("", a.name, a.after);
    assert "" + a.name + a.after == a.name + a.after;
    if a.exported {
      assert target[|EXPORT|..] == a.name + a.after && EXPORT <= target;
    } else {
      assert target == a.name + a.after;
    }
  }

  lemma AssignedTo(raw: string, target: string, value: string)
    requires target != "" && target[0] != '#' && '=' !in target && Strip(raw) == target + ['='] + value
    ensures ReadLine(raw) == Some((Strip(WithoutExport(target)), ValueOf(Strip(value))))
  {
    var line := target + ['='] + value;
    IndexOfFirst(target, '=', value);
    assert line[|target|] == '=' && line[..|target|] == target && line[|target| + 1..] == value;
  }

  /** Between single quotes every character is itself; between double quotes the escapes are undone. */
  lemma QuotesTakenOff(value: string)
    ensures IsStripped("'" + value + "'") && ValueOf("'" + value + "'") == value
    ensures IsStripped("\"" + value + "\"") && ValueOf("\"" + value + "\"") == Unescaped(value)
  {
    assert ("'" + value + "'")[1..|value| + 1] == value;
    assert ("\"" + value + "\"")[1..|value| + 1] == value;
  }

  /** A line without an equals sign sets nothing, and neither does a comment, however indented. */
  lemma NothingSet(raw: string, left: string, text: string)
    requires '=' !in raw && AllSpace(left)
    ensures ReadLine(raw) == None && ReadLine(left + ("#" + text)) == None
  {
    StripChars(raw);
    StripLeftPad(left, "#" + text);
    StripRightHead("#" + text);
  }

  /** Any one separator ends a line, */
  lemma LineEndsAtSeparator(line: string, separator: char, rest: string)
    requires OneLine(line) && IsLineBreak(separator) && (separator == '\r' ==> rest == "" || rest[0] != '\n')
    ensures SplitLines(line + ([separator] + rest)) == [line] + SplitLines(rest)
  {
    var s := line + ([separator] + rest);
    LineEndBefore(line, [separator] + rest);
    assert s[|line|] == separator && s[..|line|] == line && s[|line| + 1..] == rest;
  }

  /** and a carriage return and newline end it together. */
  lemma LineEndsAtPair(line: string, rest: string)
    requires OneLine(line)
    ensures SplitLines(line + ("\r\n" + rest)) == [line] + SplitLines(rest)
  {
    var s := line + ("\r\n" + rest);
    LineEndBefore(line, "\r\n" + rest);
    assert s[|line|] == '\r' && s[|line| + 1] == '\n' && s[..|line|] == line && s[|line| + 2..] == rest;
  }

  lemma LastLineNeedsNoEnd(line: string)
    requires OneLine(line) && line != ""
    ensures SplitLines(line) == [line]
  {
    LineEndBefore(line, "");
    assert line + "" == line;
  }

  lemma {:induction false} LineEndBefore(line: string, rest: string)
    requires OneLine(line) && (rest == "" || IsLineBreak(rest[0]))
    ensures LineEnd(line + rest) == |line|
  {
    if line == "" {
      assert line + rest == rest;
    } else {
      assert line[0] in line && (line + rest)[0] == line[0] && (line + rest)[1..] == line[1..] + rest;
      LineEndBefore(line[1..], rest);
    }
  }
}
