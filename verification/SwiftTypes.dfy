/** The schema-to-Swift compiler of the iOS client generator, and what its output means.

    `Translate` is the source's `swift_type`; `Valid` is the JSON Schema reading of a node;
    `Decodes` is what Swift's synthesized `Codable` accepts for the type that was emitted. */
module SwiftTypes {
  import opened Prelude

  datatype Json =
    | Null
    | Bool(b: bool)
    | Num(n: real)
    | Str(s: string)
    | Arr(items: seq<Json>)
    | Obj(members: map<string, Json>)

  /** One schema node: the keywords the generator looks at, each present or absent. */
  datatype Schema = Schema(ref: Option<string>, anyOf: Variants, typ: Option<string>,
                           format: Option<string>, items: Items)
  datatype Variants = NoAnyOf | AnyOf(variants: seq<Schema>)
  datatype Items = NoItems | Items(schema: Schema)

  /** One entry of `components.schemas`: every one of them is an object schema. */
  datatype Component = Component(properties: seq<Property>, required: set<string>)
  datatype Property = Property(wire: string, schema: Schema)

  type Env = map<string, Component>

  datatype SwiftType =
    | StringT | DateT | IntT | DoubleT | BoolT
    | JsonT                                          // `JSONValue`
    | ArrayT(elem: SwiftType, elemOptional: bool)    // `[T]` or `[T?]`
    | StructT(name: string)

  /** What `swift_type` returns: a type, and whether the place it is used in is optional. */
  datatype Typing = Typing(base: SwiftType, optional: bool)

  datatype GenerationError =
    | UnsupportedRef(ref: string)
    | UnsupportedUnion
    | UnsupportedType(name: string)
    | NoIdentifier(wire: string)

  const REF_PREFIX := "#/components/schemas/"

  /** The text after the last `/`. */
  function LastSegment(s: string): string
    decreases |s|
  {
    if s == [] then []
    else if '/' in s[1..] then LastSegment(s[1..])
    else if s[0] == '/' then s[1..] else s
  }

  function RefName(ref: string): Result<string, GenerationError> {
    if REF_PREFIX <= ref then Ok(LastSegment(ref)) else Err(UnsupportedRef(ref))
  }

  function NonNull(variants: seq<Schema>): (kept: seq<Schema>)
    ensures forall s :: s in kept <==> s in variants && s.typ != Some("null")
    ensures |kept| <= |variants|
    ensures |kept| < |variants| <==> exists s :: s in variants && s.typ == Some("null")
  {
    if variants == [] then []
    else (if variants[0].typ != Some("null") then [variants[0]] else []) + NonNull(variants[1..])
  }

  predicate Modelled(s: Schema) {
    s.ref.Some? || s.typ == Some("array") || s.typ == Some("object")
  }

  function Translate(s: Schema): Result<Typing, GenerationError>
    decreases s
  {
    if s.ref.Some? then
      match RefName(s.ref.value)
      case Err(e) => Err(e)
      case Ok(name) => Ok(Typing(StructT(name), false))
    else if s.anyOf.AnyOf? then
      var kept := NonNull(s.anyOf.variants);
      var nullable := |kept| < |s.anyOf.variants|;
      if |kept| != 1 then
        if exists v :: v in kept && Modelled(v) then Err(UnsupportedUnion) else Ok(Typing(JsonT, nullable))
      else
        assert kept[0] in s.anyOf.variants;
        match Translate(kept[0])
        case Err(e) => Err(e)
        case Ok(inner) => Ok(Typing(inner.base, nullable))
    else if s.typ == Some("string") then
      Ok(Typing(if s.format == Some("date-time") then DateT else StringT, false))
    else if s.typ == Some("integer") then Ok(Typing(IntT, false))
    else if s.typ == Some("number") then Ok(Typing(DoubleT, false))
    else if s.typ == Some("boolean") then Ok(Typing(BoolT, false))
    else if s.typ == Some("array") then
      if s.items.NoItems? then Ok(Typing(ArrayT(JsonT, false), false))
      else
        match Translate(s.items.schema)
        case Err(e) => Err(e)
        case Ok(inner) => Ok(Typing(ArrayT(inner.base, inner.optional), false))
    else if s.typ == Some("object") || s.typ == None then Ok(Typing(JsonT, false))
    else Err(UnsupportedType(s.typ.value))
  }

  // ---- The schema side: which JSON values a node admits ----

  predicate IsWhole(n: real) { n == n.Floor as real }

  /** The `type` keyword, with `format: date-time` read as an assertion by `isDate`. */
  predicate ValidType(isDate: string -> bool, typ: string, format: Option<string>, v: Json) {
    match typ
    case "string" => v.Str? && (format == Some("date-time") ==> isDate(v.s))
    case "integer" => v.Num? && IsWhole(v.n)
    case "number" => v.Num?
    case "boolean" => v.Bool?
    case "array" => v.Arr?
    case "object" => v.Obj?
    case "null" => v.Null?
    case _ => false
  }

  /** Every keyword a node carries must hold. A `$ref` that names no component admits nothing. */
  ghost predicate Valid(env: Env, isDate: string -> bool, s: Schema, v: Json)
    decreases v, 1, s
  {
    && (s.ref.Some? ==>
          exists name :: name in env && s.ref.value == REF_PREFIX + name && '/' !in name
                         && ValidComponent(env, isDate, env[name], v))
    && (s.anyOf.AnyOf? ==>
          exists i :: 0 <= i < |s.anyOf.variants| && Valid(env, isDate, s.anyOf.variants[i], v))
    && (s.typ.Some? ==> ValidType(isDate, s.typ.value, s.format, v))
    && (s.items.Items? && v.Arr? ==> forall e | e in v.items :: Valid(env, isDate, s.items.schema, e))
  }

  ghost predicate ValidComponent(env: Env, isDate: string -> bool, c: Component, v: Json)
    decreases v, 0
  {
    && v.Obj?
    && c.required <= v.members.Keys
    && forall p | p in c.properties && p.wire in v.members :: Valid(env, isDate, p.schema, v.members[p.wire])
  }

  // ---- The Swift side: which JSON values the emitted type decodes ----

  datatype Field = Field(wire: string, property: string, typ: SwiftType, optional: bool)

  /** The emitted structs, each as its fields in declaration order. */
  type Program = map<string, seq<Field>>

  predicate InRange(n: real) { -0x8000_0000_0000_0000 <= n.Floor < 0x8000_0000_0000_0000 }

  /** `Int` is 64 bits wide and refuses anything else. */
  predicate FitsInt(n: real) {
    IsWhole(n) && InRange(n)
  }

  ghost predicate Decodes(prog: Program, isDate: string -> bool, t: SwiftType, v: Json)
    decreases v, t
  {
    match t
    case StringT => v.Str?
    case DateT => v.Str? && isDate(v.s)
    case IntT => v.Num? && FitsInt(v.n)
    case DoubleT => v.Num?
    case BoolT => v.Bool?
    case JsonT => true
    case ArrayT(elem, elemOptional) =>
      v.Arr? && forall e | e in v.items :: (elemOptional && e.Null?) || Decodes(prog, isDate, elem, e)
    case StructT(name) =>
      && name in prog
      && v.Obj?
      && forall f | f in prog[name] ::
          if f.wire in v.members
          then (f.optional && v.members[f.wire].Null?) || Decodes(prog, isDate, f.typ, v.members[f.wire])
          else f.optional
  }

  /** A place typed `T?` takes null as nil; a place typed `T` decodes a `T`. */
  ghost predicate DecodesAt(prog: Program, isDate: string -> bool, t: Typing, v: Json) {
    (t.optional && v.Null?) || Decodes(prog, isDate, t.base, v)
  }

  // ---- Where Swift's `Int` is narrower than a schema's integer ----

  /** Every number at a place the schema calls an integer is one Swift's `Int` can hold: elementwise in
      arrays, through a union's one variant that is not null, and through references. */
  ghost predicate Fits(env: Env, s: Schema, v: Json)
    decreases v, 1, s
  {
    if s.ref.Some? then
      RefName(s.ref.value).Ok? && RefName(s.ref.value).value in env ==>
        FitsComponent(env, env[RefName(s.ref.value).value], v)
    else if s.anyOf.AnyOf? then
      var kept := NonNull(s.anyOf.variants);
      |kept| == 1 ==> assert kept[0] in s.anyOf.variants; Fits(env, kept[0], v)
    else
      && (s.typ == Some("integer") && v.Num? ==> InRange(v.n))
      && (s.typ == Some("array") && s.items.Items? && v.Arr? ==>
            forall e | e in v.items :: Fits(env, s.items.schema, e))
  }

  ghost predicate FitsComponent(env: Env, c: Component, v: Json)
    decreases v, 0
  {
    v.Obj? ==>
      forall p | p in c.properties && p.wire in v.members :: Fits(env, p.schema, v.members[p.wire])
  }

  // ---- Where the translation loses a null ----

  /** Null is admitted here, and the typing neither is optional nor holds null. That needs a sole
      `anyOf` variant that takes null itself, with no null beside it: its inner flag is discarded. */
  predicate LosesNull(s: Schema)
    decreases s
  {
    && s.ref.None? && s.anyOf.AnyOf?
    && var kept := NonNull(s.anyOf.variants);
    && |kept| == 1 && |kept| == |s.anyOf.variants|
    && assert kept[0] in s.anyOf.variants;
    && Translate(kept[0]).Ok? && Translate(kept[0]).value.base != JsonT
    && (Translate(kept[0]).value.optional || LosesNull(kept[0]))
  }

  /** Some array element under this node is a place that loses null. */
  predicate LosesInside(s: Schema)
    decreases s
  {
    && s.ref.None?
    && if s.anyOf.AnyOf? then
         var kept := NonNull(s.anyOf.variants);
         |kept| == 1 && assert kept[0] in s.anyOf.variants; LosesInside(kept[0])
       else
         s.typ == Some("array") && s.items.Items? && (LosesNull(s.items.schema) || LosesInside(s.items.schema))
  }

  /** The guard: this node drops an inner null that a client would have to decode. */
  predicate Drops(s: Schema) { LosesNull(s) || LosesInside(s) }
}
