/** The translation preserves meaning: what the schema admits, the emitted Swift type decodes,
    exactly when no null is dropped on the way. */
module SwiftSoundness {
  import opened Prelude
  import opened SwiftTypes
  import opened SwiftEmit

  /** `prog` is what the generator emits for `env`: one struct a component, none refused. */
  ghost predicate Emitted(env: Env, prog: Program) {
    && prog.Keys == env.Keys
    && forall name | name in env :: FieldsOf(env[name].properties, env[name].required) == Ok(prog[name])
  }

  /** A property whose nulls the generator drops where the client has to decode one. */
  predicate PropertyDrops(c: Component, p: Property) {
    LosesInside(p.schema) || (LosesNull(p.schema) && p.wire in c.required)
  }

  predicate Faithful(c: Component) {
    forall p | p in c.properties :: !PropertyDrops(c, p)
  }

  /** The check a maintainer can run over `components.schemas` before trusting the client. */
  predicate FaithfulEnv(env: Env) {
    forall name | name in env :: Faithful(env[name])
  }

  lemma {:induction false} LastSegmentOfSuffix(prefix: string, name: string)
    requires prefix != [] && prefix[|prefix| - 1] == '/' && '/' !in name
    ensures LastSegment(prefix + name) == name
  {
    var s := prefix + name;
    if |prefix| > 1 {
      assert s[1..] == prefix[1..] + name;
      assert prefix[1..][|prefix[1..]| - 1] == '/';
      LastSegmentOfSuffix(prefix[1..], name);
    } else {
      assert s[1..] == name;
    }
  }

  /** `ref_name` finds the component a local reference points at. */
  lemma RefNameResolves(name: string)
    requires '/' !in name
    ensures RefName(REF_PREFIX + name) == Ok(name)
  {
    LastSegmentOfSuffix(REF_PREFIX, name);
  }

  /** How a union is typed: by its one variant that is not null, or as any JSON. */
  lemma UnionTyping(s: Schema)
    requires s.ref.None? && s.anyOf.AnyOf? && Translate(s).Ok?
    ensures var kept := NonNull(s.anyOf.variants);
            && Translate(s).value.optional == (|kept| < |s.anyOf.variants|)
            && (|kept| != 1 ==> Translate(s).value.base == JsonT)
            && (|kept| == 1 ==> kept[0] in s.anyOf.variants && Translate(kept[0]).Ok?
                                && Translate(s).value.base == Translate(kept[0]).value.base)
  {
    var kept := NonNull(s.anyOf.variants);
    if |kept| == 1 {
      assert kept[0] in s.anyOf.variants;
    }
  }

  /** A value of a union is a value of one of its variants. */
  lemma UnionVariant(env: Env, isDate: string -> bool, s: Schema, v: Json) returns (variant: Schema)
    requires s.anyOf.AnyOf? && Valid(env, isDate, s, v)
    ensures variant in s.anyOf.variants && Valid(env, isDate, variant, v)
    ensures variant in NonNull(s.anyOf.variants) || (variant.typ == Some("null") && v.Null?)
  {
    var i :| 0 <= i < |s.anyOf.variants| && Valid(env, isDate, s.anyOf.variants[i], v);
    variant := s.anyOf.variants[i];
  }

  /** A union typed neither optional nor any JSON that loses no null: neither does its one variant. */
  lemma UnionNull(s: Schema, variant: Schema)
    requires s.ref.None? && s.anyOf.AnyOf? && Translate(s).Ok? && !LosesNull(s)
    requires !Translate(s).value.optional && Translate(s).value.base != JsonT
    requires variant in s.anyOf.variants
    ensures Translate(variant).Ok? && !Translate(variant).value.optional && !LosesNull(variant)
    ensures Translate(variant).value.base != JsonT
  {
    var kept := NonNull(s.anyOf.variants);
    UnionTyping(s);
    assert |kept| == |s.anyOf.variants| == 1;
    assert variant in kept;
  }

  /** A node with neither reference nor union takes null only when it is typed as any JSON. */
  lemma LeafNull(env: Env, isDate: string -> bool, s: Schema)
    requires s.ref.None? && s.anyOf.NoAnyOf? && Translate(s).Ok?
    requires Valid(env, isDate, s, Null)
    ensures Translate(s).value.base == JsonT
  {
  }

  /** Null is admitted only where the typing takes it, unless the node loses it. */
  lemma {:induction false} NullKept(env: Env, isDate: string -> bool, s: Schema)
    requires Translate(s).Ok? && Valid(env, isDate, s, Null) && !LosesNull(s)
    ensures Translate(s).value.optional || Translate(s).value.base == JsonT
    decreases s
  {
    if s.ref.None? {
      if s.anyOf.AnyOf? {
        UnionTyping(s);
        var variant := UnionVariant(env, isDate, s, Null);
        if !Translate(s).value.optional && Translate(s).value.base != JsonT {
          UnionNull(s, variant);
          NullKept(env, isDate, variant);
        }
      } else {
        LeafNull(env, isDate, s);
      }
    }
  }

  /** A reference is typed as the struct of the component that admits the value. */
  lemma RefTarget(env: Env, isDate: string -> bool, s: Schema, v: Json) returns (name: string)
    requires s.ref.Some? && Valid(env, isDate, s, v)
    ensures name in env && ValidComponent(env, isDate, env[name], v)
    ensures Translate(s) == Ok(Typing(StructT(name), false))
  {
    name :| name in env && s.ref.value == REF_PREFIX + name && '/' !in name
            && ValidComponent(env, isDate, env[name], v);
    RefNameResolves(name);
  }

  /** A union not typed as any JSON is typed as its one variant, and loses inside what that loses. */
  lemma UnionInside(s: Schema, variant: Schema)
    requires s.ref.None? && s.anyOf.AnyOf? && Translate(s).Ok? && !LosesInside(s)
    requires variant in NonNull(s.anyOf.variants)
    ensures Translate(s).value.base == JsonT
            || (Translate(variant).Ok? && !LosesInside(variant)
                && Translate(s).value.base == Translate(variant).value.base)
  {
    UnionTyping(s);
  }

  lemma LeafKept(env: Env, prog: Program, isDate: string -> bool, s: Schema, v: Json)
    requires s.ref.None? && s.anyOf.NoAnyOf? && Translate(s).Ok?
    requires s.typ != Some("array") || s.items.NoItems?
    requires Valid(env, isDate, s, v) && Fits(env, s, v)
    ensures Decodes(prog, isDate, Translate(s).value.base, v)
  {
  }

  /** A value that is not null keeps its meaning through every node: arrays elementwise, a union
      through its one modelled variant, a reference through the component it names. */
  lemma {:induction false} NonNullKept(env: Env, prog: Program, isDate: string -> bool, s: Schema, v: Json)
    requires Emitted(env, prog) && FaithfulEnv(env)
    requires Translate(s).Ok? && !LosesInside(s)
    requires Valid(env, isDate, s, v) && Fits(env, s, v) && !v.Null?
    ensures Decodes(prog, isDate, Translate(s).value.base, v)
    decreases v, 1, s, 1
  {
    if s.ref.Some? {
      var name := RefTarget(env, isDate, s, v);
      StructKept(env, prog, isDate, name, v);
    } else if s.anyOf.AnyOf? {
      UnionKept(env, prog, isDate, s, v);
    } else if s.typ == Some("array") && s.items.Items? {
      ArrayKept(env, prog, isDate, s, v);
    } else {
      LeafKept(env, prog, isDate, s, v);
    }
  }

  lemma {:induction false} UnionKept(env: Env, prog: Program, isDate: string -> bool, s: Schema, v: Json)
    requires Emitted(env, prog) && FaithfulEnv(env)
    requires s.ref.None? && s.anyOf.AnyOf? && Translate(s).Ok? && !LosesInside(s)
    requires Valid(env, isDate, s, v) && Fits(env, s, v) && !v.Null?
    ensures Decodes(prog, isDate, Translate(s).value.base, v)
    decreases v, 1, s, 0
  {
    var variant := UnionVariant(env, isDate, s, v);
    UnionInside(s, variant);
    if Translate(s).value.base != JsonT {
      UnionFits(env, s, variant, v);
      NonNullKept(env, prog, isDate, variant, v);
    }
  }

  lemma UnionFits(env: Env, s: Schema, variant: Schema, v: Json)
    requires s.ref.None? && s.anyOf.AnyOf? && Translate(s).Ok? && Translate(s).value.base != JsonT
    requires variant in NonNull(s.anyOf.variants) && Fits(env, s, v)
    ensures Fits(env, variant, v)
  {
    UnionTyping(s);
    var kept := NonNull(s.anyOf.variants);
    assert |kept| == 1 && kept[0] == variant;
  }

  lemma {:induction false} ArrayKept(env: Env, prog: Program, isDate: string -> bool, s: Schema, v: Json)
    requires Emitted(env, prog) && FaithfulEnv(env)
    requires s.ref.None? && s.anyOf.NoAnyOf? && s.typ == Some("array") && s.items.Items?
    requires Translate(s).Ok? && !LosesInside(s)
    requires Valid(env, isDate, s, v) && Fits(env, s, v)
    ensures Decodes(prog, isDate, Translate(s).value.base, v)
    decreases v, 0, s
  {
    var inner := Translate(s.items.schema);
    assert inner.Ok? && Translate(s).value.base == ArrayT(inner.value.base, inner.value.optional);
    forall e | e in v.items
      ensures DecodesAt(prog, isDate, inner.value, e)
    {
      ValueKept(env, prog, isDate, s.items.schema, e);
    }
  }

  lemma {:induction false} ValueKept(env: Env, prog: Program, isDate: string -> bool, s: Schema, v: Json)
    requires Emitted(env, prog) && FaithfulEnv(env)
    requires Translate(s).Ok? && !LosesInside(s) && !LosesNull(s)
    requires Valid(env, isDate, s, v) && Fits(env, s, v)
    ensures DecodesAt(prog, isDate, Translate(s).value, v)
    decreases v, 2
  {
    if v.Null? {
      NullKept(env, isDate, s);
    } else {
      NonNullKept(env, prog, isDate, s, v);
    }
  }

  lemma {:induction false} MemberKept(env: Env, prog: Program, isDate: string -> bool, c: Component, p: Property,
                                      f: Field, v: Json)
    requires Emitted(env, prog) && FaithfulEnv(env) && c in env.Values && p in c.properties
    requires FieldOf(p, c.required) == Ok(f) && ValidComponent(env, isDate, c, v) && FitsComponent(env, c, v)
    ensures if f.wire in v.members then DecodesAt(prog, isDate, Typing(f.typ, f.optional), v.members[f.wire])
            else f.optional
    decreases v, 0, 0
  {
    if p.wire in v.members {
      var member := v.members[p.wire];
      if !member.Null? {
        NonNullKept(env, prog, isDate, p.schema, member);
      } else if p.wire in c.required {
        NullKept(env, isDate, p.schema);
      }
    }
  }

  lemma {:induction false} StructKept(env: Env, prog: Program, isDate: string -> bool, name: string, v: Json)
    requires Emitted(env, prog) && FaithfulEnv(env) && name in env
    requires ValidComponent(env, isDate, env[name], v) && FitsComponent(env, env[name], v)
    ensures Decodes(prog, isDate, StructT(name), v)
    decreases v, 0, 1
  {
    var c := env[name];
    FieldsOfPointwise(c.properties, c.required);
    forall i | 0 <= i < |prog[name]|
      ensures var f := prog[name][i];
              if f.wire in v.members
              then DecodesAt(prog, isDate, Typing(f.typ, f.optional), v.members[f.wire])
              else f.optional
    {
      assert FieldOf(c.properties[i], c.required) == Ok(prog[name][i]);
      MemberKept(env, prog, isDate, c, c.properties[i], prog[name][i], v);
    }
  }

  // ---- What decodes fits ----

  lemma {:induction false} NullFits(env: Env, s: Schema)
    ensures Fits(env, s, Null)
    decreases s
  {
    if s.ref.None? && s.anyOf.AnyOf? {
      var kept := NonNull(s.anyOf.variants);
      if |kept| == 1 {
        assert kept[0] in s.anyOf.variants;
        NullFits(env, kept[0]);
      }
    }
  }

  /** A value the emitted type decodes has every integer in range, valid or not. */
  lemma {:induction false} DecodedFits(env: Env, prog: Program, isDate: string -> bool, s: Schema, v: Json)
    requires Emitted(env, prog) && Translate(s).Ok?
    requires DecodesAt(prog, isDate, Translate(s).value, v)
    ensures Fits(env, s, v)
    decreases v, 1, s
  {
    if v.Null? {
      NullFits(env, s);
    } else if s.ref.Some? {
      DecodedStructFits(env, prog, isDate, RefName(s.ref.value).value, v);
    } else if s.anyOf.AnyOf? {
      UnionTyping(s);
      var kept := NonNull(s.anyOf.variants);
      if |kept| == 1 {
        DecodedFits(env, prog, isDate, kept[0], v);
      }
    } else if s.typ == Some("array") && s.items.Items? {
      forall e | e in v.items
        ensures Fits(env, s.items.schema, e)
      {
        DecodedFits(env, prog, isDate, s.items.schema, e);
      }
    }
  }

  lemma {:induction false} DecodedStructFits(env: Env, prog: Program, isDate: string -> bool, name: string, v: Json)
    requires Emitted(env, prog) && Decodes(prog, isDate, StructT(name), v)
    ensures name in env && FitsComponent(env, env[name], v)
    decreases v, 0
  {
    var c := env[name];
    FieldsOfPointwise(c.properties, c.required);
    forall p | p in c.properties && p.wire in v.members
      ensures Fits(env, p.schema, v.members[p.wire])
    {
      var i :| 0 <= i < |c.properties| && c.properties[i] == p;
      var f := prog[name][i];
      assert f in prog[name] && FieldOf(p, c.required) == Ok(f);
      if v.members[p.wire].Null? {
        NullFits(env, p.schema);
      } else {
        DecodedFits(env, prog, isDate, p.schema, v.members[p.wire]);
      }
    }
  }

  /** Soundness, for every environment however cyclic: what a faithful schema admits, the emitted type
      decodes if and only if every number at an integer's place is in Swift's range. */
  lemma Soundness(env: Env, prog: Program, isDate: string -> bool, s: Schema, v: Json)
    requires Emitted(env, prog) && FaithfulEnv(env)
    requires Translate(s).Ok? && !Drops(s)
    requires Valid(env, isDate, s, v)
    ensures DecodesAt(prog, isDate, Translate(s).value, v) <==> Fits(env, s, v)
  {
    if Fits(env, s, v) {
      ValueKept(env, prog, isDate, s, v);
    }
    if DecodesAt(prog, isDate, Translate(s).value, v) {
      DecodedFits(env, prog, isDate, s, v);
    }
  }

  /** The same of a component and its struct. */
  lemma StructSoundness(env: Env, prog: Program, isDate: string -> bool, name: string, v: Json)
    requires Emitted(env, prog) && FaithfulEnv(env) && name in env
    requires ValidComponent(env, isDate, env[name], v)
    ensures Decodes(prog, isDate, StructT(name), v) <==> FitsComponent(env, env[name], v)
  {
    if FitsComponent(env, env[name], v) {
      StructKept(env, prog, isDate, name, v);
    }
    if Decodes(prog, isDate, StructT(name), v) {
      DecodedStructFits(env, prog, isDate, name, v);
    }
  }

  // ---- Exactly what a type decodes ----

  /** The node says null is one of its variants. */
  predicate SaysNull(s: Schema) {
    s.ref.None? && s.anyOf.AnyOf? && exists v :: v in s.anyOf.variants && v.typ == Some("null")
  }

  /** The value has the shape the schema gives it. Nothing is asked only of a bare object, a node without a
      type, the elements of an array without items, and a union of several primitives. */
  ghost predicate Shaped(env: Env, isDate: string -> bool, s: Schema, v: Json)
    decreases v, 1, s
  {
    if s.ref.Some? then
      && REF_PREFIX <= s.ref.value && LastSegment(s.ref.value) in env
      && ShapedComponent(env, isDate, env[LastSegment(s.ref.value)], v)
    else if s.anyOf.AnyOf? then
      var others := NonNull(s.anyOf.variants);
      |others| == 1 ==> assert others[0] in s.anyOf.variants; Shaped(env, isDate, others[0], v)
    else
      match s.typ
      case Some("string") => ValidType(isDate, "string", s.format, v)
      case Some("integer") => ValidType(isDate, "integer", s.format, v)
      case Some("number") => ValidType(isDate, "number", s.format, v)
      case Some("boolean") => ValidType(isDate, "boolean", s.format, v)
      case Some("array") =>
        v.Arr? && (s.items.Items? ==>
                     forall e | e in v.items ::
                       (SaysNull(s.items.schema) && e.Null?) || Shaped(env, isDate, s.items.schema, e))
      case _ => true
  }

  /** A property that is required and does not say null must be there; any other may be left out or null. */
  ghost predicate ShapedComponent(env: Env, isDate: string -> bool, c: Component, v: Json)
    decreases v, 0
  {
    && v.Obj?
    && forall p | p in c.properties ::
         if p.wire in v.members
         then ((SaysNull(p.schema) || p.wire !in c.required) && v.members[p.wire].Null?)
              || Shaped(env, isDate, p.schema, v.members[p.wire])
         else SaysNull(p.schema) || p.wire !in c.required
  }

  lemma OptionalIffSaysNull(s: Schema)
    requires Translate(s).Ok?
    ensures Translate(s).value.optional <==> SaysNull(s)
  {
    if s.ref.None? && s.anyOf.AnyOf? {
      UnionTyping(s);
    }
  }

  lemma LeafShaped(env: Env, prog: Program, isDate: string -> bool, s: Schema, v: Json)
    requires s.ref.None? && s.anyOf.NoAnyOf? && Translate(s).Ok?
    requires s.typ != Some("array") || s.items.NoItems?
    ensures Decodes(prog, isDate, Translate(s).value.base, v) <==> Shaped(env, isDate, s, v) && Fits(env, s, v)
  {
  }

  lemma {:induction false} UnionShaped(env: Env, prog: Program, isDate: string -> bool, s: Schema, v: Json)
    requires Emitted(env, prog) && s.ref.None? && s.anyOf.AnyOf? && Translate(s).Ok?
    ensures Decodes(prog, isDate, Translate(s).value.base, v) <==> Shaped(env, isDate, s, v) && Fits(env, s, v)
    decreases v, 1, s, 0
  {
    UnionTyping(s);
    var others := NonNull(s.anyOf.variants);
    if |others| == 1 {
      assert others[0] in s.anyOf.variants;
      BaseShaped(env, prog, isDate, others[0], v);
    }
  }

  lemma {:induction false} ArrayShaped(env: Env, prog: Program, isDate: string -> bool, s: Schema, v: Json)
    requires Emitted(env, prog) && s.ref.None? && s.anyOf.NoAnyOf? && Translate(s).Ok?
    requires s.typ == Some("array") && s.items.Items?
    ensures Decodes(prog, isDate, Translate(s).value.base, v) <==> Shaped(env, isDate, s, v) && Fits(env, s, v)
    decreases v, 1, s, 0
  {
    var inner := Translate(s.items.schema).value;
    OptionalIffSaysNull(s.items.schema);
    if v.Arr? {
      forall e | e in v.items
        ensures (inner.optional && e.Null?) || Decodes(prog, isDate, inner.base, e)
                <==> ((SaysNull(s.items.schema) && e.Null?) || Shaped(env, isDate, s.items.schema, e))
                     && Fits(env, s.items.schema, e)
      {
        BaseShaped(env, prog, isDate, s.items.schema, e);
        NullFits(env, s.items.schema);
      }
    }
  }

  lemma {:induction false} BaseShaped(env: Env, prog: Program, isDate: string -> bool, s: Schema, v: Json)
    requires Emitted(env, prog) && Translate(s).Ok?
    ensures Decodes(prog, isDate, Translate(s).value.base, v) <==> Shaped(env, isDate, s, v) && Fits(env, s, v)
    decreases v, 1, s, 1
  {
    if s.ref.Some? {
      StructShaped(env, prog, isDate, LastSegment(s.ref.value), v);
    } else if s.anyOf.AnyOf? {
      UnionShaped(env, prog, isDate, s, v);
    } else if s.typ == Some("array") && s.items.Items? {
      ArrayShaped(env, prog, isDate, s, v);
    } else {
      LeafShaped(env, prog, isDate, s, v);
    }
  }

  /** One member of an object, as its property's field decodes it. */
  lemma {:induction false} MemberShaped(env: Env, prog: Program, isDate: string -> bool, c: Component, p: Property,
                                        v: Json)
    requires Emitted(env, prog) && FieldOf(p, c.required).Ok?
    ensures var f := FieldOf(p, c.required).value;
            && (f.optional <==> SaysNull(p.schema) || p.wire !in c.required)
            && ((f.optional && v.Null?) || Decodes(prog, isDate, f.typ, v)
                <==> ((f.optional && v.Null?) || Shaped(env, isDate, p.schema, v)) && Fits(env, p.schema, v))
    decreases v, 2
  {
    OptionalIffSaysNull(p.schema);
    BaseShaped(env, prog, isDate, p.schema, v);
    NullFits(env, p.schema);
  }

  lemma {:induction false} StructShaped(env: Env, prog: Program, isDate: string -> bool, name: string, v: Json)
    requires Emitted(env, prog)
    ensures Decodes(prog, isDate, StructT(name), v)
            <==> name in env && ShapedComponent(env, isDate, env[name], v) && FitsComponent(env, env[name], v)
    decreases v, 0
  {
    if name in env && v.Obj? {
      var c := env[name];
      FieldsOfPointwise(c.properties, c.required);
      forall i | 0 <= i < |c.properties|
        ensures FieldDecodes(prog, isDate, prog[name][i], v) <==> PropertyShaped(env, isDate, c, c.properties[i], v)
      {
        var p := c.properties[i];
        assert FieldOf(p, c.required) == Ok(prog[name][i]);
        OptionalIffSaysNull(p.schema);
        if p.wire in v.members {
          MemberShaped(env, prog, isDate, c, p, v.members[p.wire]);
        }
      }
      AllFields(env, prog, isDate, name, v);
    }
  }

  ghost predicate FieldDecodes(prog: Program, isDate: string -> bool, f: Field, v: Json)
    requires v.Obj?
  {
    if f.wire in v.members
    then (f.optional && v.members[f.wire].Null?) || Decodes(prog, isDate, f.typ, v.members[f.wire])
    else f.optional
  }

  ghost predicate PropertyShaped(env: Env, isDate: string -> bool, c: Component, p: Property, v: Json)
    requires v.Obj?
  {
    if p.wire in v.members
    then (((SaysNull(p.schema) || p.wire !in c.required) && v.members[p.wire].Null?)
          || Shaped(env, isDate, p.schema, v.members[p.wire]))
         && Fits(env, p.schema, v.members[p.wire])
    else SaysNull(p.schema) || p.wire !in c.required
  }

  lemma AllFields(env: Env, prog: Program, isDate: string -> bool, name: string, v: Json)
    requires name in env && name in prog && |prog[name]| == |env[name].properties| && v.Obj?
    requires forall i | 0 <= i < |prog[name]| ::
               FieldDecodes(prog, isDate, prog[name][i], v)
               <==> PropertyShaped(env, isDate, env[name], env[name].properties[i], v)
    ensures Decodes(prog, isDate, StructT(name), v)
            <==> ShapedComponent(env, isDate, env[name], v) && FitsComponent(env, env[name], v)
  {
    var c, fields := env[name], prog[name];
    if Decodes(prog, isDate, StructT(name), v) {
      forall p | p in c.properties
        ensures PropertyShaped(env, isDate, c, p, v)
      {
        var i :| 0 <= i < |c.properties| && c.properties[i] == p;
        assert fields[i] in fields && FieldDecodes(prog, isDate, fields[i], v);
      }
    }
    if ShapedComponent(env, isDate, c, v) && FitsComponent(env, c, v) {
      forall f | f in fields
        ensures FieldDecodes(prog, isDate, f, v)
      {
        var i :| 0 <= i < |fields| && fields[i] == f;
        assert c.properties[i] in c.properties && PropertyShaped(env, isDate, c, c.properties[i], v);
      }
    }
  }

  /** Both directions, for every schema and every value, valid or not: what the emitted type decodes is
      exactly what has the schema's shape, with its integers in range. */
  lemma DecodesExactly(env: Env, prog: Program, isDate: string -> bool, s: Schema, v: Json)
    requires Emitted(env, prog) && Translate(s).Ok?
    ensures DecodesAt(prog, isDate, Translate(s).value, v)
            <==> ((SaysNull(s) && v.Null?) || Shaped(env, isDate, s, v)) && Fits(env, s, v)
  {
    OptionalIffSaysNull(s);
    BaseShaped(env, prog, isDate, s, v);
    NullFits(env, s);
  }

  const TYPES := {"string", "integer", "number", "boolean", "array", "object"}

  /** A node the generator has no type for: a reference out of the contract, a union over a reference, an
      array or an object and something else, or a type of its own; at the node, or where its type is taken from. */
  predicate Unsupported(s: Schema)
    decreases s
  {
    if s.ref.Some? then !(REF_PREFIX <= s.ref.value)
    else if s.anyOf.AnyOf? then
      var others := NonNull(s.anyOf.variants);
      if |others| == 1 then assert others[0] in s.anyOf.variants; Unsupported(others[0])
      else exists o :: o in others && Modelled(o)
    else if s.typ == Some("array") then s.items.Items? && Unsupported(s.items.schema)
    else s.typ.Some? && s.typ.value !in TYPES
  }

  lemma {:induction false} RefusesIffUnsupported(s: Schema)
    ensures Translate(s).Err? <==> Unsupported(s)
    decreases s
  {
    if s.ref.None? {
      if s.anyOf.AnyOf? {
        var others := NonNull(s.anyOf.variants);
        if |others| == 1 {
          assert others[0] in s.anyOf.variants;
          RefusesIffUnsupported(others[0]);
        }
      } else if s.typ == Some("array") && s.items.Items? {
        RefusesIffUnsupported(s.items.schema);
      }
    }
  }

  // ---- What `generate` writes ----

  predicate NamedApart(components: seq<(string, Component)>) {
    forall i, j | 0 <= i < j < |components| :: components[i].0 != components[j].0
  }

  function EnvOf(components: seq<(string, Component)>): Env {
    if components == [] then map[]
    else EnvOf(components[..|components| - 1])[components[|components| - 1].0 := components[|components| - 1].1]
  }

  function ProgramOf(structs: seq<StructDecl>): Program {
    if structs == [] then map[]
    else ProgramOf(structs[..|structs| - 1])[structs[|structs| - 1].name := structs[|structs| - 1].fields]
  }

  /** The structs of a client that was written are the program soundness speaks of. */
  lemma {:induction false} ClientIsEmitted(components: seq<(string, Component)>, structs: seq<StructDecl>)
    requires RendersAll(structs, components)
    ensures Emitted(EnvOf(components), ProgramOf(structs))
  {
    if components != [] {
      var n := |components| - 1;
      assert Renders(structs[n], components[n].0, components[n].1);
      ClientIsEmitted(components[..n], structs[..n]);
    }
  }

  /** And its environment is the contract's, component by component. */
  lemma {:induction false} EnvOfEach(components: seq<(string, Component)>)
    requires NamedApart(components)
    ensures forall i | 0 <= i < |components| ::
              components[i].0 in EnvOf(components) && EnvOf(components)[components[i].0] == components[i].1
    ensures forall name | name in EnvOf(components) :: exists i :: 0 <= i < |components| && components[i].0 == name
  {
    if components != [] {
      var n := |components| - 1;
      EnvOfEach(components[..n]);
      forall name | name in EnvOf(components)
        ensures exists i :: 0 <= i < |components| && components[i].0 == name
      {
        if name == components[n].0 {
          assert components[n].0 == name;
        } else {
          var i :| 0 <= i < n && components[..n][i].0 == name;
          assert components[i].0 == name;
        }
      }
    }
  }

  // ---- Structs that store themselves ----

  /** The component a place holds by value: through references and a union's one variant, but not inside an
      array. */
  function HeldByValue(s: Schema): Option<string>
    decreases s
  {
    if s.ref.Some? then (match RefName(s.ref.value) case Ok(name) => Some(name) case Err(_) => None)
    else if s.anyOf.AnyOf? then
      var kept := NonNull(s.anyOf.variants);
      if |kept| == 1 then assert kept[0] in s.anyOf.variants; HeldByValue(kept[0]) else None
    else None
  }

  lemma {:induction false} HeldIsStored(s: Schema, name: string)
    requires Translate(s).Ok?
    ensures Translate(s).value.base == StructT(name) <==> HeldByValue(s) == Some(name)
    decreases s
  {
    if s.ref.None? && s.anyOf.AnyOf? {
      UnionTyping(s);
      var kept := NonNull(s.anyOf.variants);
      if |kept| == 1 {
        assert kept[0] in s.anyOf.variants;
        HeldIsStored(kept[0], name);
      }
    }
  }

  predicate Holds(env: Env, from: string, to: string) {
    from in env && exists p :: p in env[from].properties && HeldByValue(p.schema) == Some(to)
  }

  /** A Swift struct stores a struct, optional or not: a value inside a value. */
  predicate Stores(prog: Program, from: string, to: string) {
    from in prog && exists f :: f in prog[from] && f.typ == StructT(to)
  }

  lemma StoresIffHolds(env: Env, prog: Program, from: string, to: string)
    requires Emitted(env, prog)
    ensures Stores(prog, from, to) <==> Holds(env, from, to)
  {
    if from in env {
      var c := env[from];
      FieldsOfPointwise(c.properties, c.required);
      forall i | 0 <= i < |c.properties|
        ensures prog[from][i].typ == StructT(to) <==> HeldByValue(c.properties[i].schema) == Some(to)
      {
        assert FieldOf(c.properties[i], c.required) == Ok(prog[from][i]);
        HeldIsStored(c.properties[i].schema, to);
      }
      if Holds(env, from, to) {
        var i :| 0 <= i < |c.properties| && HeldByValue(c.properties[i].schema) == Some(to);
        assert prog[from][i] in prog[from];
      }
      if Stores(prog, from, to) {
        var i :| 0 <= i < |prog[from]| && prog[from][i].typ == StructT(to);
        assert c.properties[i] in c.properties;
      }
    }
  }

  /** A chain of structs, each stored in the one before it, that comes back to where it began. */
  predicate StorageCycle(prog: Program, names: seq<string>) {
    && |names| >= 2 && names[0] == names[|names| - 1]
    && forall i | 0 <= i < |names| - 1 :: Stores(prog, names[i], names[i + 1])
  }

  predicate ReferenceCycle(env: Env, names: seq<string>) {
    && |names| >= 2 && names[0] == names[|names| - 1]
    && forall i | 0 <= i < |names| - 1 :: Holds(env, names[i], names[i + 1])
  }

  /** Swift compiles a struct only if it does not store itself. The emitted structs do not exactly when no
      chain of by-value references comes back to its component, which nothing in the generator asks. */
  lemma FiniteIffNoReferenceCycle(env: Env, prog: Program)
    requires Emitted(env, prog)
    ensures (forall names :: !StorageCycle(prog, names)) <==> (forall names :: !ReferenceCycle(env, names))
  {
    forall names
      ensures StorageCycle(prog, names) <==> ReferenceCycle(env, names)
    {
      forall i | 0 <= i < |names| - 1
        ensures Stores(prog, names[i], names[i + 1]) <==> Holds(env, names[i], names[i + 1])
      {
        StoresIffHolds(env, prog, names[i], names[i + 1]);
      }
    }
  }

  const SELF_NODE := Schema(Some(REF_PREFIX + "N"), NoAnyOf, None, None, NoItems)
  const SELF_ENV: Env := map["N" := Component([Property("parent", SELF_NODE)], {})]

  lemma SelfHolds()
    ensures FaithfulEnv(SELF_ENV) && Holds(SELF_ENV, "N", "N")
  {
    RefNameResolves("N");
    var p := SELF_ENV["N"].properties[0];
    assert p == Property("parent", SELF_NODE) && HeldByValue(p.schema) == Some("N");
  }

  /** An optional property that refers to its own component: faithful, and so sound, but a struct that
      stores itself. */
  lemma SelfReferenceIsStored(prog: Program)
    requires Emitted(SELF_ENV, prog)
    ensures FaithfulEnv(SELF_ENV) && StorageCycle(prog, ["N", "N"])
  {
    SelfHolds();
    StoresIffHolds(SELF_ENV, prog, "N", "N");
  }

  // ---- The guard is exact ----

  /** Each node uses one group of keywords, as the API framework emits them: a reference, a union, or
      a type. (A node that contradicts itself admits nothing, so nothing of it can be lost.) */
  predicate Plain(s: Schema)
    decreases s
  {
    && (s.ref.Some? ==> s.anyOf.NoAnyOf? && s.typ.None?)
    && (s.anyOf.AnyOf? ==> s.typ.None? && s.items.NoItems?
                           && forall i | 0 <= i < |s.anyOf.variants| :: Plain(s.anyOf.variants[i]))
    && (s.items.Items? ==> Plain(s.items.schema))
  }

  /** Null is valid at a node whose flag says so, and at one that loses it. */
  lemma {:induction false} NullAdmitted(env: Env, isDate: string -> bool, s: Schema)
    requires Plain(s) && Translate(s).Ok?
    requires Translate(s).value.optional || LosesNull(s)
    ensures Valid(env, isDate, s, Null)
    decreases s
  {
    var variants := s.anyOf.variants;
    var kept := NonNull(variants);
    if |kept| < |variants| {
      var v :| v in variants && v.typ == Some("null");
      var i :| 0 <= i < |variants| && variants[i] == v;
      assert Plain(variants[i]);
      assert Valid(env, isDate, variants[i], Null);
    } else {
      assert kept[0] in variants;
      var i :| 0 <= i < |variants| && variants[i] == kept[0];
      NullAdmitted(env, isDate, variants[i]);
    }
  }

  /** Null where the typing loses it decodes as nothing. */
  lemma {:induction false} NullRefused(prog: Program, isDate: string -> bool, s: Schema)
    requires Translate(s).Ok? && LosesNull(s)
    ensures !DecodesAt(prog, isDate, Translate(s).value, Null)
  {
    assert NonNull(s.anyOf.variants)[0] in s.anyOf.variants;
  }

  /** A value other than null that a node losing something inside admits and its type refuses. */
  lemma {:induction false} InsideWitness(env: Env, prog: Program, isDate: string -> bool, s: Schema) returns (v: Json)
    requires Plain(s) && Translate(s).Ok? && LosesInside(s)
    ensures Valid(env, isDate, s, v) && Fits(env, s, v) && !v.Null?
    ensures !Decodes(prog, isDate, Translate(s).value.base, v)
    decreases s, 0
  {
    if s.anyOf.AnyOf? {
      var kept := NonNull(s.anyOf.variants);
      assert kept[0] in s.anyOf.variants;
      var i :| 0 <= i < |s.anyOf.variants| && s.anyOf.variants[i] == kept[0];
      v := InsideWitness(env, prog, isDate, s.anyOf.variants[i]);
    } else {
      var element := DropWitness(env, prog, isDate, s.items.schema);
      v := Arr([element]);
      assert element in v.items;
    }
  }

  lemma {:induction false} DropWitness(env: Env, prog: Program, isDate: string -> bool, s: Schema) returns (v: Json)
    requires Plain(s) && Translate(s).Ok? && Drops(s)
    ensures Valid(env, isDate, s, v) && Fits(env, s, v)
    ensures !DecodesAt(prog, isDate, Translate(s).value, v)
    decreases s, 1
  {
    if LosesNull(s) {
      v := Null;
      NullAdmitted(env, isDate, s);
      NullRefused(prog, isDate, s);
      NullFits(env, s);
    } else {
      v := InsideWitness(env, prog, isDate, s);
    }
  }

  ghost predicate SoundAt(env: Env, prog: Program, isDate: string -> bool, s: Schema)
    requires Translate(s).Ok?
  {
    forall v | Valid(env, isDate, s, v) :: DecodesAt(prog, isDate, Translate(s).value, v) <==> Fits(env, s, v)
  }

  /** The exact condition: a node's typing decodes everything the node admits if and only if the node
      drops no null. */
  lemma SoundIffFaithful(env: Env, prog: Program, isDate: string -> bool, s: Schema)
    requires Emitted(env, prog) && FaithfulEnv(env)
    requires Plain(s) && Translate(s).Ok?
    ensures SoundAt(env, prog, isDate, s) <==> !Drops(s)
  {
    if Drops(s) {
      var v := DropWitness(env, prog, isDate, s);
    } else {
      forall v | Valid(env, isDate, s, v)
        ensures DecodesAt(prog, isDate, Translate(s).value, v) <==> Fits(env, s, v)
      {
        Soundness(env, prog, isDate, s, v);
      }
    }
  }

  /** A value with every number in it replaced by zero. */
  function Zeroed(v: Json): Json
    decreases v
  {
    match v
    case Num(_) => Num(0.0)
    case Arr(items) => Arr(seq(|items|, i requires 0 <= i < |items| => Zeroed(items[i])))
    case Obj(members) => Obj(map k | k in members :: Zeroed(members[k]))
    case _ => v
  }

  /** Zeroing keeps a value valid, and puts every integer in range. */
  lemma {:induction false} ZeroedStands(env: Env, isDate: string -> bool, s: Schema, v: Json)
    requires Valid(env, isDate, s, v)
    ensures Valid(env, isDate, s, Zeroed(v))
    decreases v, 1, s
  {
    if s.ref.Some? {
      var name :| name in env && s.ref.value == REF_PREFIX + name && '/' !in name
                  && ValidComponent(env, isDate, env[name], v);
      ZeroedComponentStands(env, isDate, env[name], v);
    }
    if s.anyOf.AnyOf? {
      var i :| 0 <= i < |s.anyOf.variants| && Valid(env, isDate, s.anyOf.variants[i], v);
      ZeroedStands(env, isDate, s.anyOf.variants[i], v);
    }
    if s.items.Items? && v.Arr? {
      forall e | e in Zeroed(v).items
        ensures Valid(env, isDate, s.items.schema, e)
      {
        var i :| 0 <= i < |v.items| && Zeroed(v.items[i]) == e;
        ZeroedStands(env, isDate, s.items.schema, v.items[i]);
      }
    }
  }

  lemma {:induction false} ZeroedComponentStands(env: Env, isDate: string -> bool, c: Component, v: Json)
    requires ValidComponent(env, isDate, c, v)
    ensures ValidComponent(env, isDate, c, Zeroed(v))
    decreases v, 0
  {
    assert Zeroed(v).members.Keys == v.members.Keys;
    forall p | p in c.properties && p.wire in v.members
      ensures Valid(env, isDate, p.schema, Zeroed(v).members[p.wire])
    {
      ZeroedStands(env, isDate, p.schema, v.members[p.wire]);
    }
  }

  lemma {:induction false} ZeroedFits(env: Env, s: Schema, v: Json)
    ensures Fits(env, s, Zeroed(v))
    decreases v, 1, s
  {
    if s.ref.Some? {
      if RefName(s.ref.value).Ok? && RefName(s.ref.value).value in env {
        ZeroedComponentFits(env, env[RefName(s.ref.value).value], v);
      }
    } else if s.anyOf.AnyOf? {
      var kept := NonNull(s.anyOf.variants);
      if |kept| == 1 {
        assert kept[0] in s.anyOf.variants;
        ZeroedFits(env, kept[0], v);
      }
    } else if s.items.Items? && v.Arr? {
      forall e | e in Zeroed(v).items
        ensures Fits(env, s.items.schema, e)
      {
        var i :| 0 <= i < |v.items| && Zeroed(v.items[i]) == e;
        ZeroedFits(env, s.items.schema, v.items[i]);
      }
    }
  }

  lemma {:induction false} ZeroedComponentFits(env: Env, c: Component, v: Json)
    ensures FitsComponent(env, c, Zeroed(v))
    decreases v, 0
  {
    if v.Obj? {
      forall p | p in c.properties && p.wire in Zeroed(v).members
        ensures Fits(env, p.schema, Zeroed(v).members[p.wire])
      {
        ZeroedFits(env, p.schema, v.members[p.wire]);
      }
    }
  }

  lemma ZeroedComponent(env: Env, isDate: string -> bool, c: Component, v: Json)
    requires ValidComponent(env, isDate, c, v)
    ensures ValidComponent(env, isDate, c, Zeroed(v)) && FitsComponent(env, c, Zeroed(v))
  {
    ZeroedComponentStands(env, isDate, c, v);
    ZeroedComponentFits(env, c, v);
  }

  ghost predicate StructSound(env: Env, prog: Program, isDate: string -> bool, name: string)
    requires name in env
  {
    forall v | ValidComponent(env, isDate, env[name], v) ::
      Decodes(prog, isDate, StructT(name), v) <==> FitsComponent(env, env[name], v)
  }

  ghost predicate Inhabited(env: Env, isDate: string -> bool, name: string)
    requires name in env
  {
    exists v :: ValidComponent(env, isDate, env[name], v)
  }

  /** A value a dropping property admits and its field refuses, though the field has to decode one. */
  lemma LostValue(env: Env, prog: Program, isDate: string -> bool, c: Component, p: Property) returns (lost: Json)
    requires Plain(p.schema) && FieldOf(p, c.required).Ok? && PropertyDrops(c, p)
    ensures Valid(env, isDate, p.schema, lost) && Fits(env, p.schema, lost)
    ensures var f := FieldOf(p, c.required).value;
            !Decodes(prog, isDate, f.typ, lost) && !(f.optional && lost.Null?)
  {
    if LosesInside(p.schema) {
      lost := InsideWitness(env, prog, isDate, p.schema);
    } else {
      lost := Null;
      NullAdmitted(env, isDate, p.schema);
      NullRefused(prog, isDate, p.schema);
      NullFits(env, p.schema);
    }
  }

  /** An object with one property replaced by a value that property admits. */
  lemma Replaced(env: Env, isDate: string -> bool, c: Component, p: Property, o: Json, lost: Json)
    requires p in c.properties && forall q | q in c.properties && q.wire == p.wire :: q == p
    requires ValidComponent(env, isDate, c, o) && FitsComponent(env, c, o)
    requires Valid(env, isDate, p.schema, lost) && Fits(env, p.schema, lost)
    ensures var v := Obj(o.members[p.wire := lost]); ValidComponent(env, isDate, c, v) && FitsComponent(env, c, v)
  {
  }

  /** An object a dropping component admits and its struct refuses: any valid object with the value of
      the dropping property replaced. */
  lemma StructWitness(env: Env, prog: Program, isDate: string -> bool, name: string, p: Property, o: Json)
    returns (v: Json)
    requires Emitted(env, prog) && name in env
    requires forall q | q in env[name].properties :: Plain(q.schema)
    requires forall q, r | q in env[name].properties && r in env[name].properties && q.wire == r.wire :: q == r
    requires p in env[name].properties && PropertyDrops(env[name], p)
    requires ValidComponent(env, isDate, env[name], o) && FitsComponent(env, env[name], o)
    ensures ValidComponent(env, isDate, env[name], v) && FitsComponent(env, env[name], v)
    ensures !Decodes(prog, isDate, StructT(name), v)
  {
    var c := env[name];
    FieldsOfPointwise(c.properties, c.required);
    var i :| 0 <= i < |c.properties| && c.properties[i] == p;
    assert FieldOf(p, c.required) == Ok(prog[name][i]);
    var lost := LostValue(env, prog, isDate, c, p);
    Replaced(env, isDate, c, p, o, lost);
    v := Obj(o.members[p.wire := lost]);
    assert prog[name][i] in prog[name] && v.members[p.wire] == lost;
  }

  /** The exact condition for a whole contract whose schemas each admit something: every struct decodes
      everything its schema admits if and only if no property of any of them drops a null. */
  lemma ClientSoundIffFaithful(env: Env, prog: Program, isDate: string -> bool)
    requires Emitted(env, prog)
    requires forall name, p | name in env && p in env[name].properties :: Plain(p.schema)
    requires forall name, p, q | name in env && p in env[name].properties && q in env[name].properties
                                 && p.wire == q.wire :: p == q
    requires forall name | name in env :: Inhabited(env, isDate, name)
    ensures (forall name | name in env :: StructSound(env, prog, isDate, name)) <==> FaithfulEnv(env)
  {
    if FaithfulEnv(env) {
      forall name, v | name in env && ValidComponent(env, isDate, env[name], v)
        ensures Decodes(prog, isDate, StructT(name), v) <==> FitsComponent(env, env[name], v)
      {
        StructSoundness(env, prog, isDate, name, v);
      }
    } else {
      var name :| name in env && !Faithful(env[name]);
      var p :| p in env[name].properties && PropertyDrops(env[name], p);
      var o :| ValidComponent(env, isDate, env[name], o);
      ZeroedComponent(env, isDate, env[name], o);
      var v := StructWitness(env, prog, isDate, name, p, Zeroed(o));
      assert !StructSound(env, prog, isDate, name);
    }
  }

  // ---- The counterexample ----

  const STRING_NODE := Schema(None, NoAnyOf, Some("string"), None, NoItems)
  const NULL_NODE := Schema(None, NoAnyOf, Some("null"), None, NoItems)

  /** `anyOf: [{anyOf: [string, null]}]`: null is valid, the type emitted is a bare `String`. */
  lemma NestedNullIsLost(env: Env, prog: Program, isDate: string -> bool)
    ensures var s := Schema(None, AnyOf([Schema(None, AnyOf([STRING_NODE, NULL_NODE]), None, None, NoItems)]),
                            None, None, NoItems);
            && Translate(s) == Ok(Typing(StringT, false))
            && Valid(env, isDate, s, Null)
            && !DecodesAt(prog, isDate, Typing(StringT, false), Null)
  {
    var inner := Schema(None, AnyOf([STRING_NODE, NULL_NODE]), None, None, NoItems);
    var s := Schema(None, AnyOf([inner]), None, None, NoItems);
    assert [STRING_NODE, NULL_NODE][1..] == [NULL_NODE] && [NULL_NODE][1..] == [];
    assert NonNull([NULL_NODE]) == [] && NonNull([STRING_NODE, NULL_NODE]) == [STRING_NODE];
    assert [inner][1..] == [];
    assert NonNull([inner]) == [inner];
    assert Translate(STRING_NODE) == Ok(Typing(StringT, false));
    assert Translate(inner) == Ok(Typing(StringT, true));
    assert Valid(env, isDate, NULL_NODE, Null);
    assert inner.anyOf.variants[1] == NULL_NODE;
    assert Valid(env, isDate, inner, Null);
    assert s.anyOf.variants[0] == inner;
  }

  /** Why soundness asks what fits: a schema's integers are unbounded and Swift's are not. */
  lemma WideIntegerIsRefused(env: Env, prog: Program, isDate: string -> bool, n: int)
    requires !(-0x8000_0000_0000_0000 <= n < 0x8000_0000_0000_0000)
    ensures var s := Schema(None, NoAnyOf, Some("integer"), None, NoItems);
            && Valid(env, isDate, s, Num(n as real))
            && Translate(s) == Ok(Typing(IntT, false))
            && !DecodesAt(prog, isDate, Typing(IntT, false), Num(n as real))
  {
    assert (n as real).Floor == n;
  }
}
