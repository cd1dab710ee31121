/** Names, fields and declarations: `camel_case`, `render_struct` and `generate`. */
module SwiftEmit {
  import opened Prelude
  import opened SwiftTypes
  import Text

  // ---- Identifiers ----

  /** The separators `camel_case` folds into `_`. */
  predicate IsSeparator(c: char) { c == '_' || c == '-' || c == '.' || c == '/' || c == ' ' }

  function Normalised(name: string): string {
    if name == [] then [] else [if IsSeparator(name[0]) then '_' else name[0]] + Normalised(name[1..])
  }

  function NonEmpty(parts: seq<string>): (kept: seq<string>)
    ensures forall p :: p in kept <==> p in parts && p != []
    ensures |kept| <= |parts|
  {
    if parts == [] then [] else (if parts[0] != [] then [parts[0]] else []) + NonEmpty(parts[1..])
  }

  function Capitalised(p: string): string {
    if p == [] then [] else [Text.Upper(p[0])] + p[1..]
  }

  function Tail(parts: seq<string>): string {
    if parts == [] then [] else Capitalised(parts[0]) + Tail(parts[1..])
  }

  function CamelCase(name: string): Result<string, GenerationError> {
    var parts := NonEmpty(Text.SplitOn(Normalised(name), '_'));
    if parts == [] then Err(NoIdentifier(name))
    else
      assert parts[0] in parts;
      Ok([Text.Lower(parts[0][0])] + parts[0][1..] + Tail(parts[1..]))
  }

  lemma {:induction false} NormalisedPlain(s: string)
    requires forall c | c in s :: !IsSeparator(c)
    ensures Normalised(s) == s
  {
    if s != [] {
      NormalisedPlain(s[1..]);
    }
  }

  lemma CapitalisedPlain(part: string)
    requires forall c | c in part :: !IsSeparator(c)
    ensures forall c | c in Capitalised(part) :: !IsSeparator(c)
  {
    if part != [] {
      assert part[0] in part;
    }
  }

  lemma {:induction false} TailPlain(parts: seq<string>)
    requires forall p, c | p in parts && c in p :: !IsSeparator(c)
    ensures forall c | c in Tail(parts) :: !IsSeparator(c)
  {
    if parts != [] {
      TailPlain(parts[1..]);
      CapitalisedPlain(parts[0]);
    }
  }

  lemma {:induction false} NormalisedSeparators(s: string)
    ensures forall c | c in Normalised(s) :: IsSeparator(c) ==> c == '_'
  {
    if s != [] {
      NormalisedSeparators(s[1..]);
    }
  }

  lemma {:induction false} SplitKeepsChars(s: string, sep: char)
    ensures forall p, c | p in Text.SplitOn(s, sep) && c in p :: c in s && c != sep
  {
    if s != [] {
      SplitKeepsChars(s[1..], sep);
    }
  }

  lemma CamelCasePlain(name: string)
    requires CamelCase(name).Ok?
    ensures var out := CamelCase(name).value;
            out != [] && Text.Lower(out[0]) == out[0] && forall c | c in out :: !IsSeparator(c)
  {
    var n := Normalised(name);
    var parts := NonEmpty(Text.SplitOn(n, '_'));
    NormalisedSeparators(name);
    SplitKeepsChars(n, '_');
    forall p, c | p in parts && c in p
      ensures !IsSeparator(c)
    {
      assert p in Text.SplitOn(n, '_');
    }
    assert parts[0] in parts;
    TailPlain(parts[1..]);
    var out := CamelCase(name).value;
    forall c | c in out
      ensures !IsSeparator(c)
    {
      assert c == Text.Lower(parts[0][0]) || c in parts[0] || c in Tail(parts[1..]);
      assert parts[0][0] in parts[0];
    }
  }

  lemma CamelCaseOfPlain(out: string)
    requires out != [] && Text.Lower(out[0]) == out[0] && forall c | c in out :: !IsSeparator(c)
    ensures CamelCase(out) == Ok(out)
  {
    NormalisedPlain(out);
    assert '_' !in out;
    Text.SplitWhole(out, '_');
    assert NonEmpty([out]) == [out];
    assert [Text.Lower(out[0])] + out[1..] + [] == out;
  }

  /** A generated name is a fixpoint: renaming what was already renamed changes nothing, so a
      summary that is itself a generated name collides with the operation it was taken from. */
  lemma CamelCaseFixpoint(name: string)
    requires CamelCase(name).Ok?
    ensures CamelCase(CamelCase(name).value) == CamelCase(name)
  {
    CamelCasePlain(name);
    CamelCaseOfPlain(CamelCase(name).value);
  }

  const SWIFT_DECLARATIONS: seq<string> := [
    "associatedtype", "class", "deinit", "enum", "extension", "fileprivate", "func", "import", "init",
    "inout", "internal", "let", "operator", "private", "protocol", "public", "static", "struct",
    "subscript", "typealias", "var"]

  const SWIFT_STATEMENTS: seq<string> := [
    "break", "case", "continue", "default", "defer", "do", "else", "fallthrough", "for", "guard", "if", "in",
    "repeat", "return", "switch", "where", "while", "as", "catch", "false", "is", "nil", "rethrows", "super",
    "self", "Self", "throw", "throws", "true", "try", "Any", "Protocol", "Type"]

  const PYTHON_KEYWORDS: seq<string> := [
    "False", "None", "True", "and", "as", "assert", "async", "await", "break", "class", "continue",
    "def", "del", "elif", "else", "except", "finally", "for", "from", "global", "if", "import", "in",
    "is", "lambda", "nonlocal", "not", "or", "pass", "raise", "return", "try", "while", "with", "yield"]

  predicate Among(name: string, words: seq<string>) {
    words != [] && (words[0] == name || Among(name, words[1..]))
  }

  predicate IsReserved(name: string) {
    Among(name, SWIFT_DECLARATIONS) || Among(name, SWIFT_STATEMENTS) || Among(name, PYTHON_KEYWORDS)
  }

  function Quoted(name: string): string { "`" + name + "`" }

  function PropertyName(wire: string): Result<string, GenerationError> {
    match CamelCase(wire)
    case Err(e) => Err(e)
    case Ok(name) => Ok(if IsReserved(name) then Quoted(name) else name)
  }

  /** `prop.strip("`")`. */
  function Bare(property: string): string
    decreases |property|
  {
    if property == [] then []
    else if property[0] == '`' then Bare(property[1..])
    else if property[|property| - 1] == '`' then Bare(property[..|property| - 1])
    else property
  }

  // ---- What a name becomes ----

  predicate PlainPart(part: string) { part != "" && forall c | c in part :: !IsSeparator(c) }

  function PartsOf(name: string): seq<string> { NonEmpty(Text.SplitOn(Normalised(name), '_')) }

  lemma AssociateParts(a: seq<string>, b: seq<string>, c: seq<string>)
    ensures (a + b) + c == a + (b + c)
  {
  }

  lemma NonEmptyStep(parts: seq<string>)
    requires parts != []
    ensures NonEmpty(parts) == (if parts[0] != "" then [parts[0]] else []) + NonEmpty(parts[1..])
  {
  }

  lemma {:induction false} NonEmptyAppend(a: seq<string>, b: seq<string>)
    ensures NonEmpty(a + b) == NonEmpty(a) + NonEmpty(b)
  {
    if a == [] {
      assert a + b == b;
    } else {
      NonEmptyAppend(a[1..], b);
      assert (a + b)[1..] == a[1..] + b && (a + b)[0] == a[0];
      NonEmptyStep(a);
      NonEmptyStep(a + b);
      AssociateParts(if a[0] != "" then [a[0]] else [], NonEmpty(a[1..]), NonEmpty(b));
    }
  }

  lemma TailStep(parts: seq<string>)
    requires parts != []
    ensures Tail(parts) == Capitalised(parts[0]) + Tail(parts[1..])
  {
  }

  lemma TailSnoc(parts: seq<string>, part: string)
    ensures Tail(parts + [part]) == Tail(parts) + Capitalised(part)
  {
    var all := parts + [part];
    TailStep(all);
    if parts == [] {
      assert all[1..] == [] && Tail([]) == "";
    } else {
      TailSnoc(parts[1..], part);
      assert all[1..] == parts[1..] + [part] && all[0] == parts[0];
      TailStep(parts);
      Text.Associate(Capitalised(parts[0]), Tail(parts[1..]), Capitalised(part));
    }
  }

  lemma {:induction false} NormalisedAppend(a: string, b: string)
    ensures Normalised(a + b) == Normalised(a) + Normalised(b)
  {
    if a == "" {
      assert a + b == b;
    } else {
      NormalisedAppend(a[1..], b);
      assert (a + b)[1..] == a[1..] + b;
      Text.Associate([if IsSeparator(a[0]) then '_' else a[0]], Normalised(a[1..]), Normalised(b));
    }
  }

  /** Any separator parts a name in two. */
  lemma PartsSplit(a: string, separator: char, b: string)
    requires IsSeparator(separator)
    ensures PartsOf(a + [separator] + b) == PartsOf(a) + PartsOf(b)
  {
    NormalisedAppend(a + [separator], b);
    NormalisedAppend(a, [separator]);
    assert [separator][1..] == "" && Normalised("") == "" && Normalised([separator]) == "_";
    Text.SplitAppend(Normalised(a), Normalised(b), '_');
    NonEmptyAppend(Text.SplitOn(Normalised(a), '_'), Text.SplitOn(Normalised(b), '_'));
  }

  lemma PartsOfPlain(part: string)
    requires forall c | c in part :: !IsSeparator(c)
    ensures PartsOf(part) == if part == "" then [] else [part]
  {
    NormalisedPlain(part);
    assert '_' !in part;
    Text.SplitWhole(part, '_');
    assert [part][1..] == [] && NonEmpty([]) == [];
  }

  /** A name of one part keeps it, with its first letter in lower case. */
  lemma CamelCaseOfOnePart(part: string)
    requires PlainPart(part)
    ensures CamelCase(part) == Ok([Text.Lower(part[0])] + part[1..])
  {
    PartsOfPlain(part);
    assert [part][1..] == [] && Tail([]) == "";
    assert [Text.Lower(part[0])] + part[1..] + "" == [Text.Lower(part[0])] + part[1..];
  }

  /** Each further part is kept too, with its first letter in upper case, whatever separates it. */
  lemma CamelCaseOfNextPart(name: string, separator: char, part: string)
    requires CamelCase(name).Ok? && IsSeparator(separator) && PlainPart(part)
    ensures CamelCase(name + [separator] + part) == Ok(CamelCase(name).value + ([Text.Upper(part[0])] + part[1..]))
  {
    var parts := PartsOf(name);
    PartsSplit(name, separator, part);
    PartsOfPlain(part);
    TailSnoc(parts[1..], part);
    assert (parts + [part])[1..] == parts[1..] + [part];
    assert parts[0] in parts;
    Text.Associate([Text.Lower(parts[0][0])] + parts[0][1..], Tail(parts[1..]), Capitalised(part));
  }

  /** Separators in front, behind or doubled make no difference; and a name of nothing else has no identifier. */
  lemma CamelCaseIgnoresSpareSeparators(name: string, separator: char)
    requires IsSeparator(separator) && CamelCase(name).Ok?
    ensures CamelCase(name + [separator]) == CamelCase(name) == CamelCase([separator] + name)
    ensures CamelCase([separator]).Err?
  {
    PartsOfPlain("");
    PartsSplit(name, separator, "");
    PartsSplit("", separator, name);
    PartsSplit("", separator, "");
    assert name + [separator] + "" == name + [separator] && "" + [separator] + name == [separator] + name;
    assert PartsOf(name) + [] == PartsOf(name) && [] + PartsOf(name) == PartsOf(name);
    assert "" + [separator] + "" == [separator];
  }

  /** A property goes by its camel-cased name, in backquotes exactly when that is a keyword. */
  lemma QuotedIffReserved(wire: string)
    requires CamelCase(wire).Ok?
    ensures var name := CamelCase(wire).value;
            && (PropertyName(wire) == Ok("`" + name + "`") <==> IsReserved(name))
            && (PropertyName(wire) == Ok(name) <==> !IsReserved(name))
  {
    var name := CamelCase(wire).value;
    assert |"`" + name + "`"| == |name| + 2;
  }

  /** A name is among the words exactly when it is one of them. */
  lemma {:induction false} AmongIff(name: string, words: seq<string>)
    ensures Among(name, words) <==> name in words
  {
    if words != [] {
      AmongIff(name, words[1..]);
      assert words == [words[0]] + words[1..];
    }
  }

  // ---- Fields ----

  function FieldOf(p: Property, required: set<string>): Result<Field, GenerationError> {
    match Translate(p.schema)
    case Err(e) => Err(e)
    case Ok(typing) =>
      match PropertyName(p.wire)
      case Err(e) => Err(e)
      case Ok(name) => Ok(Field(p.wire, name, typing.base, typing.optional || p.wire !in required))
  }

  /** The fields of a struct in declaration order, or the first property the generator refuses. */
  function FieldsOf(properties: seq<Property>, required: set<string>): Result<seq<Field>, GenerationError> {
    if properties == [] then Ok([])
    else
      var n := |properties| - 1;
      match FieldsOf(properties[..n], required)
      case Err(e) => Err(e)
      case Ok(before) =>
        match FieldOf(properties[n], required)
        case Err(e) => Err(e)
        case Ok(f) => Ok(before + [f])
  }

  lemma {:induction false} FieldsOfPointwise(properties: seq<Property>, required: set<string>)
    requires FieldsOf(properties, required).Ok?
    ensures var fields := FieldsOf(properties, required).value;
            && |fields| == |properties|
            && forall i | 0 <= i < |fields| :: FieldOf(properties[i], required) == Ok(fields[i])
  {
    if properties != [] {
      var n := |properties| - 1;
      FieldsOfPointwise(properties[..n], required);
      var before, last := FieldsOf(properties[..n], required).value, FieldOf(properties[n], required);
      assert FieldsOf(properties, required).value == before + [last.value];
      forall i | 0 <= i <= n
        ensures FieldOf(properties[i], required) == Ok((before + [last.value])[i])
      {
        assert i < n ==> properties[..n][i] == properties[i] && (before + [last.value])[i] == before[i];
      }
    }
  }

  lemma {:induction false} FieldsOfRefusesPrefix(properties: seq<Property>, required: set<string>, n: nat)
    requires n <= |properties| && FieldsOf(properties[..n], required).Err?
    ensures FieldsOf(properties, required) == FieldsOf(properties[..n], required)
    decreases |properties|
  {
    if n < |properties| {
      var shorter := properties[..|properties| - 1];
      assert shorter[..n] == properties[..n];
      FieldsOfRefusesPrefix(shorter, required, n);
    } else {
      assert properties[..n] == properties;
    }
  }

  // ---- Declarations ----

  /** What `render_struct` prints, before layout: the stored properties and the `CodingKeys` cases. */
  datatype StructDecl = StructDecl(name: string, fields: seq<Field>, codingKeys: Option<seq<Case>>)
  datatype Case = Case(property: string, raw: Option<string>)

  /** Swift's rule: without `CodingKeys` the key is the property's name, and a case without a raw
      value is named by itself. */
  function KeyDecoded(d: StructDecl, i: nat): string
    requires i < |d.fields|
    requires d.codingKeys.Some? ==> |d.codingKeys.value| == |d.fields|
  {
    match d.codingKeys
    case None => Bare(d.fields[i].property)
    case Some(cases) =>
      match cases[i].raw
      case Some(raw) => raw
      case None => Bare(cases[i].property)
  }

  /** The first loop of `render_struct`: one field a property, or the first refusal. */
  method BuildFields(c: Component) returns (r: Result<seq<Field>, GenerationError>)
    ensures r == FieldsOf(c.properties, c.required)
  {
    var fields: seq<Field> := [];
    for i := 0 to |c.properties|
      invariant FieldsOf(c.properties[..i], c.required) == Ok(fields)
    {
      assert c.properties[..i + 1][..i] == c.properties[..i];
      var field := FieldOf(c.properties[i], c.required);
      if field.Err? {
        FieldsOfRefusesPrefix(c.properties, c.required, i + 1);
        return Err(field.error);
      }
      fields := fields + [field.value];
    }
    assert c.properties[..|c.properties|] == c.properties;
    return Ok(fields);
  }

  /** The `CodingKeys` half of `render_struct`: no enum, or one case a field, so that every field is
      decoded from its wire name. */
  method CodingKeys(name: string, fields: seq<Field>) returns (d: StructDecl)
    ensures d.name == name && d.fields == fields
    ensures d.codingKeys.Some? ==> |d.codingKeys.value| == |fields|
    ensures forall i :: 0 <= i < |fields| ==> KeyDecoded(d, i) == fields[i].wire
  {
    if forall f :: f in fields ==> f.wire == Bare(f.property) {
      return StructDecl(name, fields, None);
    }
    var cases: seq<Case> := [];
    for i := 0 to |fields|
      invariant |cases| == i
      invariant forall k :: 0 <= k < i ==>
        fields[k].wire == (if cases[k].raw.Some? then cases[k].raw.value else Bare(cases[k].property))
    {
      var bare := Bare(fields[i].property);
      cases := cases + [Case(fields[i].property, if fields[i].wire == bare then None else Some(fields[i].wire))];
    }
    return StructDecl(name, fields, Some(cases));
  }

  /** `render_struct`: every field is emitted in order, and every one is decoded from its wire name. */
  method RenderStruct(name: string, c: Component) returns (r: Result<StructDecl, GenerationError>)
    ensures r.Err? ==> FieldsOf(c.properties, c.required) == Err(r.error)
    ensures r.Ok? ==> r.value.name == name && FieldsOf(c.properties, c.required) == Ok(r.value.fields)
    ensures r.Ok? && r.value.codingKeys.Some? ==> |r.value.codingKeys.value| == |r.value.fields|
    ensures r.Ok? ==> forall i :: 0 <= i < |r.value.fields| ==> KeyDecoded(r.value, i) == r.value.fields[i].wire
  {
    var built := BuildFields(c);
    if built.Err? {
      return Err(built.error);
    }
    var d := CodingKeys(name, built.value);
    return Ok(d);
  }

  // ---- Clashing properties ----

  /** Two wire names become one Swift name: they camel-case to one, or one of them to a reserved name and the
      other, unreserved, to its quoted form. */
  predicate Collide(a: string, b: string) {
    && CamelCase(a).Ok? && CamelCase(b).Ok?
    && var x, y := CamelCase(a).value, CamelCase(b).value;
    || x == y
    || (IsReserved(x) && !IsReserved(y) && y == Quoted(x))
    || (IsReserved(y) && !IsReserved(x) && x == Quoted(y))
  }

  lemma PropertyNameClash(a: string, b: string)
    requires CamelCase(a).Ok? && CamelCase(b).Ok?
    ensures PropertyName(a) == PropertyName(b) <==> Collide(a, b)
  {
    var x, y := CamelCase(a).value, CamelCase(b).value;
    assert Quoted(x)[1..|x| + 1] == x && Quoted(y)[1..|y| + 1] == y;
  }

  predicate NamesDistinct(fields: seq<Field>) {
    forall i, j | 0 <= i < j < |fields| :: fields[i].property != fields[j].property
  }

  /** Nothing refuses a struct two of whose properties share a name, which Swift does not compile: the
      emitted names are distinct if and only if no two wire names collide. */
  lemma DistinctIffNoneCollide(c: Component, fields: seq<Field>)
    requires FieldsOf(c.properties, c.required) == Ok(fields)
    ensures NamesDistinct(fields)
            <==> forall i, j | 0 <= i < j < |c.properties| :: !Collide(c.properties[i].wire, c.properties[j].wire)
  {
    FieldsOfPointwise(c.properties, c.required);
    forall i, j | 0 <= i < j < |fields|
      ensures fields[i].property == fields[j].property <==> Collide(c.properties[i].wire, c.properties[j].wire)
    {
      assert FieldOf(c.properties[i], c.required) == Ok(fields[i]);
      assert FieldOf(c.properties[j], c.required) == Ok(fields[j]);
      PropertyNameClash(c.properties[i].wire, c.properties[j].wire);
    }
  }

  /** Two properties of one struct that do. */
  lemma UnderscoreAndHyphenCollide()
    ensures CamelCase("a_b") == CamelCase("a-b") == Ok("aB") && Collide("a_b", "a-b")
  {
    SplitAB();
    FoldsToAB("a_b", '_');
    FoldsToAB("a-b", '-');
  }

  lemma SplitAB()
    ensures Text.SplitOn("a_b", '_') == ["a", "b"]
  {
    Text.SplitWhole("b", '_');
    Text.SplitFirst("a", "b", '_');
    assert "a" + ['_'] + "b" == "a_b";
  }

  lemma FoldsToAB(name: string, separator: char)
    requires IsSeparator(separator) && name == ['a', separator, 'b']
    ensures CamelCase(name) == Ok("aB")
  {
    SplitAB();
    assert name[1..] == [separator, 'b'] && [separator, 'b'][1..] == ['b'] && ['b'][1..] == [];
    assert Normalised(['b']) == "b" && Normalised([separator, 'b']) == "_b" && Normalised(name) == "a_b";
    assert ["a", "b"][1..] == ["b"] && ["b"][1..] == [];
    assert NonEmpty(["b"]) == ["b"] && NonEmpty(["a", "b"]) == ["a", "b"];
    assert Text.Upper('b') == 'B' && "b"[1..] == "" && Tail([]) == "";
    assert Capitalised("b") == "B" && Tail(["b"]) == "B";
    assert Text.Lower('a') == 'a' && "a"[1..] == "";
    assert ['a'] + "" + "B" == "aB";
  }

  // ---- Endpoints ----

  /** A parameter the generated function takes; header parameters are left to the client. */
  datatype Param = PathParam(wire: string) | QueryParam(wire: string, schema: Schema)

  datatype Operation = Operation(path: string, verb: string, summary: Option<string>, operationId: Option<string>,
                                 params: seq<Param>)

  datatype Arg = Arg(name: string, typ: SwiftType, optional: bool)

  /** `operation.get("summary")` is used only when it is a non-empty string. */
  function EndpointName(op: Operation): Result<string, GenerationError> {
    if op.summary.Some? && op.summary.value != [] then CamelCase(op.summary.value)
    else if op.operationId.Some? && op.operationId.value != [] then CamelCase(op.operationId.value)
    else CamelCase(op.verb + "_" + op.path)
  }

  /** Two operations with the same summary get the same name, whatever else they are called; the operation id
      names one only where there is no summary, and the route only where there is neither. */
  lemma NamedBySummaryFirst(a: Operation, b: Operation)
    ensures a.summary.Some? && a.summary.value != "" && a.summary == b.summary ==> EndpointName(a) == EndpointName(b)
    ensures a.summary.Some? && a.summary.value != "" ==> EndpointName(a) == CamelCase(a.summary.value)
    ensures a.summary.None? && b.summary == Some("") && a.operationId == b.operationId
            && a.operationId.Some? && a.operationId.value != "" ==>
              EndpointName(a) == EndpointName(b) == CamelCase(a.operationId.value)
    ensures (a.summary.None? || a.summary.value == "") && (a.operationId.None? || a.operationId.value == "") ==>
              EndpointName(a) == CamelCase(a.verb + "_" + a.path)
  {
  }

  /** A path parameter is a string; a query parameter is what its schema says, and optional. */
  function ArgOf(p: Param): Result<Arg, GenerationError> {
    match PropertyName(p.wire)
    case Err(e) => Err(e)
    case Ok(name) =>
      if p.PathParam? then Ok(Arg(name, StringT, false))
      else
        match Translate(p.schema)
        case Err(e) => Err(e)
        case Ok(typing) => Ok(Arg(name, typing.base, true))
  }

  function Only(params: seq<Param>, inPath: bool): (kept: seq<Param>)
    ensures forall p :: p in kept <==> p in params && p.PathParam? == inPath
  {
    if params == [] then []
    else (if params[0].PathParam? == inPath then [params[0]] else []) + Only(params[1..], inPath)
  }

  lemma AssociateParams(a: seq<Param>, b: seq<Param>, c: seq<Param>)
    ensures (a + b) + c == a + (b + c)
  {
  }

  lemma OnlyStep(params: seq<Param>, inPath: bool)
    requires params != []
    ensures Only(params, inPath)
            == (if params[0].PathParam? == inPath then [params[0]] else []) + Only(params[1..], inPath)
  {
  }

  /** The parameters of one place, in the order they are declared. */
  lemma {:induction false} OnlyAppend(a: seq<Param>, b: seq<Param>, inPath: bool)
    ensures Only(a + b, inPath) == Only(a, inPath) + Only(b, inPath)
  {
    if a == [] {
      assert a + b == b;
    } else {
      OnlyAppend(a[1..], b, inPath);
      assert (a + b)[1..] == a[1..] + b && (a + b)[0] == a[0];
      OnlyStep(a, inPath);
      OnlyStep(a + b, inPath);
      var first := if a[0].PathParam? == inPath then [a[0]] else [];
      AssociateParams(first, Only(a[1..], inPath), Only(b, inPath));
    }
  }

  /** A path parameter must be given, as text; any query parameter may be left out. */
  lemma ArgsByPlace(p: Param)
    requires ArgOf(p).Ok?
    ensures ArgOf(p).value.optional <==> p.QueryParam?
    ensures p.PathParam? ==> ArgOf(p).value.typ == StringT
    ensures p.QueryParam? ==> Translate(p.schema).Ok? && ArgOf(p).value.typ == Translate(p.schema).value.base
  {
  }

  predicate ArgsOk(params: seq<Param>) { forall p | p in params :: ArgOf(p).Ok? }

  predicate AreArgs(params: seq<Param>, args: seq<Arg>) {
    |args| == |params| && forall i | 0 <= i < |params| :: ArgOf(params[i]) == Ok(args[i])
  }

  /** One of the two argument loops of `render_endpoint`. */
  method Args(params: seq<Param>) returns (r: Result<seq<Arg>, GenerationError>)
    ensures r.Ok? <==> ArgsOk(params)
    ensures r.Ok? ==> AreArgs(params, r.value)
  {
    var args: seq<Arg> := [];
    for i := 0 to |params|
      invariant |args| == i && forall k | 0 <= k < i :: ArgOf(params[k]) == Ok(args[k])
    {
      var arg := ArgOf(params[i]);
      if arg.Err? {
        assert params[i] in params;
        return Err(arg.error);
      }
      args := args + [arg.value];
    }
    return Ok(args);
  }

  lemma BothPlaces(params: seq<Param>)
    ensures ArgsOk(params) <==> ArgsOk(Only(params, true)) && ArgsOk(Only(params, false))
  {
    assert forall p | p in params :: p in Only(params, true) || p in Only(params, false);
  }

  lemma ArgsAppend(a: seq<Param>, b: seq<Param>, x: seq<Arg>, y: seq<Arg>)
    requires AreArgs(a, x) && AreArgs(b, y)
    ensures AreArgs(a + b, x + y)
  {
  }

  /** `render_endpoint`: the path's arguments, then the query's, or a refusal if any of them is refused. */
  method RenderEndpoint(op: Operation) returns (r: Result<seq<Arg>, GenerationError>)
    ensures r.Ok? <==> ArgsOk(op.params)
    ensures r.Ok? ==> AreArgs(Only(op.params, true) + Only(op.params, false), r.value)
  {
    BothPlaces(op.params);
    var path := Args(Only(op.params, true));
    if path.Err? {
      return Err(path.error);
    }
    var query := Args(Only(op.params, false));
    if query.Err? {
      return Err(query.error);
    }
    ArgsAppend(Only(op.params, true), Only(op.params, false), path.value, query.value);
    return Ok(path.value + query.value);
  }

  /** Arguments clash as properties do, and nothing refuses that either. */
  lemma ArgsDistinctIffNoneCollide(params: seq<Param>, args: seq<Arg>)
    requires AreArgs(params, args)
    ensures (forall i, j | 0 <= i < j < |args| :: args[i].name != args[j].name)
            <==> forall i, j | 0 <= i < j < |params| :: !Collide(params[i].wire, params[j].wire)
  {
    forall i, j | 0 <= i < j < |args|
      ensures args[i].name == args[j].name <==> Collide(params[i].wire, params[j].wire)
    {
      assert ArgOf(params[i]) == Ok(args[i]) && ArgOf(params[j]) == Ok(args[j]);
      PropertyNameClash(params[i].wire, params[j].wire);
    }
  }

  // ---- The client ----

  datatype Checked =
    | Named(names: seq<string>)
    | Clash(first: nat, second: nat)
    | Nameless(at: nat, error: GenerationError)

  /** The names half of the endpoint loop, over each operation's name in the order it visits them:
      accepted exactly when every name exists and no two are equal. */
  method CheckNames(named: seq<Result<string, GenerationError>>) returns (r: Checked)
    ensures r.Named? <==> (forall i :: 0 <= i < |named| ==> named[i].Ok?)
                          && (forall i, j :: 0 <= i < j < |named| ==> named[i] != named[j])
    ensures r.Named? ==> |r.names| == |named| && forall i :: 0 <= i < |named| ==> named[i] == Ok(r.names[i])
    ensures r.Clash? ==> r.first < r.second < |named| && named[r.first].Ok? && named[r.first] == named[r.second]
    ensures r.Clash? ==> forall i, j :: 0 <= i < j < r.second ==> named[i] != named[j]
    ensures r.Nameless? ==> r.at < |named| && named[r.at] == Err(r.error)
  {
    var seen: map<string, nat> := map[];
    var names: seq<string> := [];
    for i := 0 to |named|
      invariant |names| == i
      invariant forall k :: 0 <= k < i ==> named[k] == Ok(names[k])
      invariant forall k :: 0 <= k < i ==> names[k] in seen && seen[names[k]] == k
      invariant forall n :: n in seen ==> seen[n] < i && names[seen[n]] == n
      invariant forall j, k :: 0 <= j < k < i ==> named[j] != named[k]
    {
      if named[i].Err? {
        return Nameless(i, named[i].error);
      }
      var name := named[i].value;
      if name in seen {
        assert named[seen[name]] == named[i];
        return Clash(seen[name], i);
      }
      seen := seen[name := i];
      names := names + [name];
    }
    return Named(names);
  }

  datatype Endpoint = Endpoint(name: string, args: seq<Arg>)

  /** An endpoint takes its operation's path arguments and then its query arguments. */
  predicate IsEndpoint(op: Operation, e: Endpoint) {
    AreArgs(Only(op.params, true) + Only(op.params, false), e.args)
  }

  /** A declaration renders its component: every field in order, each decoded from its wire name. */
  predicate Renders(d: StructDecl, name: string, c: Component) {
    && d.name == name && FieldsOf(c.properties, c.required) == Ok(d.fields)
    && (d.codingKeys.Some? ==> |d.codingKeys.value| == |d.fields|)
    && forall i | 0 <= i < |d.fields| :: KeyDecoded(d, i) == d.fields[i].wire
  }

  /** One struct a component, in order. */
  predicate RendersAll(structs: seq<StructDecl>, components: seq<(string, Component)>) {
    |structs| == |components|
    && forall i | 0 <= i < |components| :: Renders(structs[i], components[i].0, components[i].1)
  }

  predicate StructsOk(components: seq<(string, Component)>) {
    forall i | 0 <= i < |components| :: FieldsOf(components[i].1.properties, components[i].1.required).Ok?
  }

  predicate NamesOk(ops: seq<Operation>) {
    && (forall i | 0 <= i < |ops| :: EndpointName(ops[i]).Ok?)
    && (forall i, j | 0 <= i < j < |ops| :: EndpointName(ops[i]) != EndpointName(ops[j]))
  }

  lemma NamesAre(ops: seq<Operation>, named: seq<Result<string, GenerationError>>)
    requires |named| == |ops| && forall i | 0 <= i < |ops| :: named[i] == EndpointName(ops[i])
    ensures NamesOk(ops)
            <==> (forall i | 0 <= i < |named| :: named[i].Ok?)
                 && (forall i, j | 0 <= i < j < |named| :: named[i] != named[j])
  {
    if NamesOk(ops) {
      forall i, j | 0 <= i < j < |named|
        ensures named[i].Ok? && named[i] != named[j]
      {
        assert EndpointName(ops[i]) != EndpointName(ops[j]);
      }
    } else if forall i | 0 <= i < |ops| :: EndpointName(ops[i]).Ok? {
      var i, j :| 0 <= i < j < |ops| && EndpointName(ops[i]) == EndpointName(ops[j]);
      assert named[i] == named[j];
    } else {
      var i :| 0 <= i < |ops| && !EndpointName(ops[i]).Ok?;
      assert !named[i].Ok?;
    }
  }

  predicate ParamsOk(ops: seq<Operation>) {
    forall i | 0 <= i < |ops| :: ArgsOk(ops[i].params)
  }

  lemma RendersOneMore(structs: seq<StructDecl>, d: StructDecl, components: seq<(string, Component)>)
    requires |structs| < |components| && RendersAll(structs, components[..|structs|])
    requires Renders(d, components[|structs|].0, components[|structs|].1)
    ensures RendersAll(structs + [d], components[..|structs| + 1])
  {
    var n := |structs|;
    forall i | 0 <= i <= n
      ensures Renders((structs + [d])[i], components[..n + 1][i].0, components[..n + 1][i].1)
    {
      if i < n {
        assert Renders(structs[i], components[..n][i].0, components[..n][i].1);
      }
    }
  }

  lemma RenderedAreOk(structs: seq<StructDecl>, components: seq<(string, Component)>)
    requires RendersAll(structs, components)
    ensures StructsOk(components)
  {
    forall i | 0 <= i < |components|
      ensures FieldsOf(components[i].1.properties, components[i].1.required).Ok?
    {
      assert Renders(structs[i], components[i].0, components[i].1);
    }
  }

  /** The schema loop of `generate`: a struct a component, in order. */
  method Structs(components: seq<(string, Component)>) returns (r: Result<seq<StructDecl>, GenerationError>)
    ensures r.Ok? <==> StructsOk(components)
    ensures r.Ok? ==> RendersAll(r.value, components)
  {
    var structs: seq<StructDecl> := [];
    for i := 0 to |components|
      invariant |structs| == i && RendersAll(structs, components[..i])
    {
      var rendered := RenderStruct(components[i].0, components[i].1);
      if rendered.Err? {
        assert FieldsOf(components[i].1.properties, components[i].1.required).Err?;
        return Err(rendered.error);
      }
      assert Renders(rendered.value, components[i].0, components[i].1);
      RendersOneMore(structs, rendered.value, components);
      structs := structs + [rendered.value];
    }
    assert components[..|components|] == components;
    RenderedAreOk(structs, components);
    return Ok(structs);
  }

  method NamedEndpoint(op: Operation, name: string) returns (r: Result<Endpoint, GenerationError>)
    ensures r.Ok? <==> ArgsOk(op.params)
    ensures r.Ok? ==> r.value.name == name && IsEndpoint(op, r.value)
  {
    var args := RenderEndpoint(op);
    if args.Err? {
      return Err(args.error);
    }
    return Ok(Endpoint(name, args.value));
  }

  /** The rendering half of the endpoint loop. */
  method Endpoints(ops: seq<Operation>, names: seq<string>) returns (r: Result<seq<Endpoint>, GenerationError>)
    requires |names| == |ops|
    ensures r.Ok? <==> ParamsOk(ops)
    ensures r.Ok? ==> |r.value| == |ops|
    ensures r.Ok? ==> forall i | 0 <= i < |ops| :: r.value[i].name == names[i] && IsEndpoint(ops[i], r.value[i])
  {
    var endpoints: seq<Endpoint> := [];
    for i := 0 to |ops|
      invariant |endpoints| == i && forall k | 0 <= k < i :: endpoints[k].name == names[k]
      invariant forall k | 0 <= k < i :: IsEndpoint(ops[k], endpoints[k]) && ArgsOk(ops[k].params)
    {
      var endpoint := NamedEndpoint(ops[i], names[i]);
      if endpoint.Err? {
        return Err(endpoint.error);
      }
      endpoints := endpoints + [endpoint.value];
    }
    return Ok(endpoints);
  }

  datatype Generated =
    | Client(structs: seq<StructDecl>, endpoints: seq<Endpoint>)
    | Clashing(first: nat, second: nat)
    | Refused(error: GenerationError)

  /** `generate`: the client is written if and only if no property is refused, every operation has a name,
      no two names are equal and no parameter is refused; and then it has a struct a component and an
      endpoint an operation. */
  method Generate(components: seq<(string, Component)>, ops: seq<Operation>) returns (r: Generated)
    ensures r.Client? <==> StructsOk(components) && NamesOk(ops) && ParamsOk(ops)
    ensures r.Client? ==> RendersAll(r.structs, components)
    ensures r.Client? ==> |r.endpoints| == |ops| && forall i | 0 <= i < |ops| ::
              EndpointName(ops[i]) == Ok(r.endpoints[i].name) && IsEndpoint(ops[i], r.endpoints[i])
    ensures r.Clashing? ==> r.first < r.second < |ops| && EndpointName(ops[r.first]) == EndpointName(ops[r.second])
  {
    var structs := Structs(components);
    if structs.Err? {
      return Refused(structs.error);
    }
    var named := seq(|ops|, i requires 0 <= i < |ops| => EndpointName(ops[i]));
    var checked := CheckNames(named);
    NamesAre(ops, named);
    if checked.Nameless? {
      return Refused(checked.error);
    }
    if checked.Clash? {
      return Clashing(checked.first, checked.second);
    }
    var endpoints := Endpoints(ops, checked.names);
    if endpoints.Err? {
      return Refused(endpoints.error);
    }
    return Client(structs.value, endpoints.value);
  }
}
