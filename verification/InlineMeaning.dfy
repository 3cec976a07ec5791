/** Inlining keeps the meaning of a schema. */
module InlineMeaning {
  import opened Json
  import opened Inlining
  import opened Validation

  predicate Scalar(j: Json) {
    !j.Arr? && !j.Obj?
  }

  predicate Flat(j: Json) {
    Scalar(j) || (j.Arr? && forall i :: 0 <= i < |j.items| ==> Scalar(j.items[i]))
  }

  /** Schemas inlining leaves intact: enum values are scalars, a reference has no constraint beside it, and,
      when strict, no property bears one of the five annotation names. */
  ghost predicate PlainSchema(s: Json, strict: bool) {
    match s
    case Bool(_) => true
    case Obj(f) =>
      if IsRefNode(s) then forall k :: k in f ==> k !in FLAT_KEYWORDS && k !in NESTED_KEYWORDS
      else
        && (forall k :: k in f && k in FLAT_KEYWORDS ==> Flat(f[k]))
        && ("properties" in f ==>
              && f["properties"].Obj?
              && forall name :: name in f["properties"].fields ==>
                   if name in ANNOTATIONS then !strict else PlainSchema(f["properties"].fields[name], strict))
        && ("items" in f ==> PlainSchema(f["items"], strict))
        && ("anyOf" in f ==> PlainMembers(f["anyOf"], strict))
        && ("oneOf" in f ==> PlainMembers(f["oneOf"], strict))
    case _ => false
  }

  ghost predicate PlainMembers(members: Json, strict: bool) {
    members.Arr? && forall i :: 0 <= i < |members.items| ==> PlainSchema(members.items[i], strict)
  }

  lemma FlatIsKept(j: Json, components: map<string, Json>, stack: set<string>)
    requires Flat(j)
    ensures Inline(j, components, stack) == j
  {
    if j.Arr? {
      assert Inline(j, components, stack).items == j.items;
    }
  }

  /** No dictionary in the value has a key named like an annotation. */
  ghost predicate Unannotated(v: Json) {
    && (v.Obj? ==> forall k :: k in v.fields ==> k !in ANNOTATIONS && Unannotated(v.fields[k]))
    && (v.Arr? ==> forall i :: 0 <= i < |v.items| ==> Unannotated(v.items[i]))
  }

  predicate FlatKeywords(s: Json) {
    s.Obj? && !IsRefNode(s) && forall k :: k in s.fields && k in FLAT_KEYWORDS ==> Flat(s.fields[k])
  }

  lemma FlatKeywordKept(s: Json, components: map<string, Json>, stack: set<string>, k: string)
    requires FlatKeywords(s) && k in FLAT_KEYWORDS
    ensures Has(Inline(s, components, stack), k) == Has(s, k)
    ensures Get(Inline(s, components, stack), k) == Get(s, k)
  {
    assert k !in ANNOTATIONS;
    if k in s.fields { FlatIsKept(s.fields[k], components, stack); }
  }

  /** A schema with flat keywords and its inlined form agree on every keyword that is not a schema. */
  lemma AssertionsKept(c: Context, s: Json, stack: set<string>, v: Json)
    requires FlatKeywords(s)
    ensures Assertions(c, Inline(s, c.components, stack), v) == Assertions(c, s, v)
  {
    FlatKeywordKept(s, c.components, stack, "type");
    FlatKeywordKept(s, c.components, stack, "enum");
    FlatKeywordKept(s, c.components, stack, "maximum");
    FlatKeywordKept(s, c.components, stack, "minimum");
    FlatKeywordKept(s, c.components, stack, "maxLength");
    FlatKeywordKept(s, c.components, stack, "minLength");
    FlatKeywordKept(s, c.components, stack, "pattern");
    FlatKeywordKept(s, c.components, stack, "required");
    SameAssertions(c, s, Inline(s, c.components, stack), v);
  }

  lemma NestedKept(s: Json, components: map<string, Json>, stack: set<string>, k: string)
    requires s.Obj? && !IsRefNode(s) && k in NESTED_KEYWORDS
    ensures Has(Inline(s, components, stack), k) == Has(s, k)
    ensures Has(s, k) ==> Inline(s, components, stack).fields[k] == Inline(s.fields[k], components, stack)
  {
    assert k !in ANNOTATIONS;
  }

  lemma PropertiesKept(s: Json, components: map<string, Json>, stack: set<string>, strict: bool)
    requires s.Obj? && PlainSchema(s, strict) && !IsRefNode(s)
    ensures var t := Inline(s, components, stack);
      && (forall name :: name in DictAt(t, "properties") <==> name in DictAt(s, "properties") && name !in ANNOTATIONS)
      && forall name :: name in DictAt(t, "properties") ==>
           DictAt(t, "properties")[name] == Inline(DictAt(s, "properties")[name], components, stack)
  {
    NestedKept(s, components, stack, "properties");
    if Has(s, "properties") {
      assert !IsRefNode(s.fields["properties"]) by {
        if "$ref" in s.fields["properties"].fields {
          assert PlainSchema(s.fields["properties"].fields["$ref"], strict);
        }
      }
    }
  }

  lemma MembersKept(s: Json, components: map<string, Json>, stack: set<string>, k: string, strict: bool)
    requires s.Obj? && PlainSchema(s, strict) && !IsRefNode(s) && k in {"anyOf", "oneOf"}
    ensures var t := Inline(s, components, stack);
      && Get(t, k).Arr? == Get(s, k).Arr?
      && |ListAt(t, k)| == |ListAt(s, k)|
      && forall i :: 0 <= i < |ListAt(s, k)| ==>
           PlainSchema(ListAt(s, k)[i], strict) && ListAt(t, k)[i] == Inline(ListAt(s, k)[i], components, stack)
  {
    NestedKept(s, components, stack, k);
  }

  /** A reference stands for its component, and for the empty schema when there is none. */
  lemma RefMeans(c: Context, s: Json, stack: set<string>, fuel: nat, v: Json, strict: bool)
    requires IsRefNode(s) && PlainSchema(s, strict) && RefName(s) !in stack
    ensures Validates(c, fuel, s, v) == (fuel > 0 ==> Validates(c, fuel - 1, Component(c, RefName(s)), v))
    ensures RefName(s) in c.components ==> Component(c, RefName(s)) == c.components[RefName(s)]
    ensures Inline(s, c.components, stack) ==
            if RefName(s) in c.components
            then Inline(c.components[RefName(s)], c.components, stack + {RefName(s)})
            else Obj(map[])
  {
    NoKeywords(c, fuel, s, v);
  }

  lemma MissingComponent(c: Context, s: Json, stack: set<string>, fuel: nat, anyFuel: nat, v: Json, strict: bool)
    requires IsRefNode(s) && PlainSchema(s, strict) && RefName(s) !in stack && RefName(s) !in c.components
    ensures Validates(c, fuel, s, v) && Validates(c, anyFuel, Inline(s, c.components, stack), v)
  {
    RefMeans(c, s, stack, fuel, v, strict);
    EmptyAccepts(c, anyFuel, v);
    if fuel > 0 {
      EmptyAccepts(c, fuel - 1, v);
    }
  }

  lemma ScalarKeepsMeaning(c: Context, s: Json, stack: set<string>, fuel: nat, anyFuel: nat, v: Json, strict: bool)
    requires PlainSchema(s, strict) && !s.Obj?
    ensures Validates(c, fuel, s, v) == Validates(c, anyFuel, Inline(s, c.components, stack), v)
  {
  }

  /** The component a reference leads to is resolved in turn, with one name fewer to come. */
  lemma NextComponent(c: Context, s: Json, stack: set<string>, strict: bool)
    requires IsRefNode(s) && Resolves(s, c.components, stack, strict)
    ensures RefName(s) !in stack
    ensures RefName(s) in c.components ==>
      && PlainSchema(c.components[RefName(s)], strict)
      && Resolves(c.components[RefName(s)], c.components, stack + {RefName(s)}, strict)
  {
  }

  lemma OneNameFewer(all: set<string>, stack: set<string>, name: string)
    requires name in all && name !in stack
    ensures all - (stack + {name}) < all - stack
    ensures |all - (stack + {name})| == |all - stack| - 1
  {
    assert all - (stack + {name}) == (all - stack) - {name};
  }

  /** Every component resolved on the way through `node` is plain; the others do not matter. */
  ghost predicate ResolvesPlain(node: Json, components: map<string, Json>, stack: set<string>, strict: bool)
    decreases components.Keys - stack, node
  {
    match node
    case Arr(items) => forall i :: 0 <= i < |items| ==> ResolvesPlain(items[i], components, stack, strict)
    case Obj(fields) =>
      if IsRefNode(node) then
        var name := RefName(node);
        name !in stack && name in components ==>
          PlainSchema(components[name], strict) && ResolvesPlain(components[name], components, stack + {name}, strict)
      else
        forall k :: k in fields && k !in ANNOTATIONS ==> ResolvesPlain(fields[k], components, stack, strict)
    case _ => true
  }

  /** Plain components never put text where a reference was. */
  lemma {:induction false} PlainNeverText(node: Json, components: map<string, Json>, stack: set<string>, strict: bool)
    requires ResolvesPlain(node, components, stack, strict) && !node.Str?
    ensures !Inline(node, components, stack).Str?
    decreases components.Keys - stack, node
  {
    if IsRefNode(node) {
      var name := RefName(node);
      if name !in stack && name in components {
        PlainNeverText(components[name], components, stack + {name}, strict);
      }
    }
  }

  lemma NoRefBecomesOne(s: Json, components: map<string, Json>, stack: set<string>, strict: bool)
    requires s.Obj? && !IsRefNode(s) && ResolvesPlain(s, components, stack, strict)
    ensures !IsRefNode(Inline(s, components, stack))
  {
    assert "$ref" !in ANNOTATIONS;
    if "$ref" in s.fields && !s.fields["$ref"].Str? {
      PlainNeverText(s.fields["$ref"], components, stack, strict);
    }
  }

  /** Resolving `node` meets no cycle, and only plain components. */
  ghost predicate Resolves(node: Json, components: map<string, Json>, stack: set<string>, strict: bool) {
    NoCycle(node, components, stack) && ResolvesPlain(node, components, stack, strict)
  }

  lemma MembersResolve(s: Json, components: map<string, Json>, stack: set<string>, k: string, strict: bool)
    requires s.Obj? && !IsRefNode(s) && Resolves(s, components, stack, strict) && k in {"anyOf", "oneOf"}
    ensures forall i :: 0 <= i < |ListAt(s, k)| ==> Resolves(ListAt(s, k)[i], components, stack, strict)
  {
    assert k !in ANNOTATIONS;
    if Has(s, k) {
      assert Resolves(s.fields[k], components, stack, strict);
    }
  }

  lemma {:induction false} MembersKeepMeaning(c: Context, s: Json, stack: set<string>, fuel: nat, anyFuel: nat, v: Json, k: string, strict: bool)
    requires KeptNode(c, s, stack, fuel, strict) && k in {"anyOf", "oneOf"}
    requires strict || Unannotated(v)
    ensures var t := Inline(s, c.components, stack);
      && Get(t, k).Arr? == Get(s, k).Arr?
      && SameVerdicts(c, s, t, k, fuel, anyFuel, v)
    decreases c.components.Keys - stack, s, 0
  {
    hide Validates, Inline, Resolves, PlainSchema, IsRefText;
    MembersKept(s, c.components, stack, k, strict);
    MembersResolve(s, c.components, stack, k, strict);
    forall i | 0 <= i < |ListAt(s, k)|
      ensures Validates(c, fuel, ListAt(s, k)[i], v) ==
              Validates(c, anyFuel, ListAt(Inline(s, c.components, stack), k)[i], v)
    {
      assert ListAt(s, k)[i] in ListAt(s, k);
      InliningKeepsMeaning(c, ListAt(s, k)[i], stack, fuel, anyFuel, v, strict);
    }
  }

  lemma PropertiesResolve(s: Json, components: map<string, Json>, stack: set<string>, strict: bool)
    requires s.Obj? && PlainSchema(s, strict) && !IsRefNode(s) && Resolves(s, components, stack, strict)
    ensures forall name :: name in DictAt(s, "properties") ==>
              name !in ANNOTATIONS ==> PlainSchema(DictAt(s, "properties")[name], strict) && Resolves(DictAt(s, "properties")[name], components, stack, strict)
  {
    assert "properties" !in ANNOTATIONS;
    if Has(s, "properties") {
      assert Resolves(s.fields["properties"], components, stack, strict);
      assert !IsRefNode(s.fields["properties"]) by {
        if "$ref" in s.fields["properties"].fields {
          assert PlainSchema(s.fields["properties"].fields["$ref"], strict);
        }
      }
    }
  }

  lemma {:induction false} PropertiesKeepMeaning(c: Context, s: Json, stack: set<string>, fuel: nat, anyFuel: nat, v: Json, strict: bool)
    requires KeptNode(c, s, stack, fuel, strict) && v.Obj?
    requires strict || Unannotated(v)
    ensures PropertiesOk(c, fuel, s, v) == PropertiesOk(c, anyFuel, Inline(s, c.components, stack), v)
    decreases c.components.Keys - stack, s, 0
  {
    PropertiesKept(s, c.components, stack, strict);
    PropertiesResolve(s, c.components, stack, strict);
    hide Validates, Inline, Resolves, PlainSchema, IsRefText;
    forall name | name in DictAt(s, "properties") && name in v.fields && name !in ANNOTATIONS
      ensures Validates(c, fuel, DictAt(s, "properties")[name], v.fields[name]) ==
              Validates(c, anyFuel, DictAt(Inline(s, c.components, stack), "properties")[name], v.fields[name])
    {
      assert strict || Unannotated(v.fields[name]);
      InliningKeepsMeaning(c, DictAt(s, "properties")[name], stack, fuel, anyFuel, v.fields[name], strict);
    }
  }

  lemma {:induction false} ItemsKeepMeaning(c: Context, s: Json, stack: set<string>, fuel: nat, anyFuel: nat, v: Json, strict: bool)
    requires KeptNode(c, s, stack, fuel, strict) && v.Arr?
    requires strict || Unannotated(v)
    ensures ItemsOk(c, fuel, s, v) == ItemsOk(c, anyFuel, Inline(s, c.components, stack), v)
    decreases c.components.Keys - stack, s, 0
  {
    NestedKept(s, c.components, stack, "items");
    assert "items" !in ANNOTATIONS;
    if Has(s, "items") {
      forall i | 0 <= i < |v.items| {
        InliningKeepsMeaning(c, s.fields["items"], stack, fuel, anyFuel, v.items[i], strict);
      }
    }
  }

  /** A dictionary schema, not a reference, of a component set inlining leaves intact. */
  ghost predicate KeptNode(c: Context, s: Json, stack: set<string>, fuel: nat, strict: bool) {
    && s.Obj? && !IsRefNode(s) && PlainSchema(s, strict) && Resolves(s, c.components, stack, strict)
    && |c.components.Keys - stack| <= fuel
  }

  /** A value validates against the inlined schema exactly when it validates against the original with
      references resolved on demand, given fuel for each component not yet being resolved. */
  lemma {:induction false} InliningKeepsMeaning(c: Context, s: Json, stack: set<string>, fuel: nat, anyFuel: nat, v: Json, strict: bool)
    requires PlainSchema(s, strict) && Resolves(s, c.components, stack, strict)
    requires strict || Unannotated(v)
    requires |c.components.Keys - stack| <= fuel
    ensures Validates(c, fuel, s, v) == Validates(c, anyFuel, Inline(s, c.components, stack), v)
    decreases c.components.Keys - stack, s, 2
  {
    hide Validates, Inline, Resolves, PlainSchema, LastSegment;
    if !s.Obj? {
      ScalarKeepsMeaning(c, s, stack, fuel, anyFuel, v, strict);
    } else if !IsRefNode(s) {
      NodeKeepsMeaning(c, s, stack, fuel, anyFuel, v, strict);
    } else if RefName(s) !in c.components {
      NextComponent(c, s, stack, strict);
      MissingComponent(c, s, stack, fuel, anyFuel, v, strict);
    } else {
      var name := RefName(s);
      NextComponent(c, s, stack, strict);
      OneNameFewer(c.components.Keys, stack, name);
      RefMeans(c, s, stack, fuel, v, strict);
      InliningKeepsMeaning(c, c.components[name], stack + {name}, fuel - 1, anyFuel, v, strict);
    }
  }

  lemma {:induction false} NodeKeepsMeaning(c: Context, s: Json, stack: set<string>, fuel: nat, anyFuel: nat, v: Json, strict: bool)
    requires KeptNode(c, s, stack, fuel, strict)
    requires strict || Unannotated(v)
    ensures Validates(c, fuel, s, v) == Validates(c, anyFuel, Inline(s, c.components, stack), v)
    decreases c.components.Keys - stack, s, 1
  {
    var t := Inline(s, c.components, stack);
    NoRefBecomesOne(s, c.components, stack, strict);
    AssertionsKept(c, s, stack, v);
    MembersKeepMeaning(c, s, stack, fuel, anyFuel, v, "anyOf", strict);
    MembersKeepMeaning(c, s, stack, fuel, anyFuel, v, "oneOf", strict);
    SameMembers(c, s, t, fuel, anyFuel, v);
    if v.Obj? {
      PropertiesKeepMeaning(c, s, stack, fuel, anyFuel, v, strict);
    } else if v.Arr? {
      ItemsKeepMeaning(c, s, stack, fuel, anyFuel, v, strict);
    }
    SameParts(c, s, t, fuel, anyFuel, v);
  }

  lemma OneOkMoves(c: Context, s: Json, t: Json, fuel: nat, fuel': nat, v: Json)
    requires SameVerdicts(c, s, t, "oneOf", fuel, fuel', v) && OneOk(c, fuel, s, v)
    ensures OneOk(c, fuel', t, v)
  {
    hide Validates;
    var i :| 0 <= i < |ListAt(s, "oneOf")| && OnlyAt(c, fuel, s, i, v);
    assert OnlyAt(c, fuel', t, i, v);
  }

  lemma SameMembers(c: Context, s: Json, t: Json, fuel: nat, fuel': nat, v: Json)
    requires SameVerdicts(c, s, t, "anyOf", fuel, fuel', v) && SameVerdicts(c, s, t, "oneOf", fuel, fuel', v)
    ensures AnyOk(c, fuel, s, v) == AnyOk(c, fuel', t, v)
    ensures OneOk(c, fuel, s, v) == OneOk(c, fuel', t, v)
  {
    hide Validates;
    if OneOk(c, fuel, s, v) {
      OneOkMoves(c, s, t, fuel, fuel', v);
    }
    if OneOk(c, fuel', t, v) {
      OneOkMoves(c, t, s, fuel', fuel, v);
    }
  }

  ghost predicate SameVerdicts(c: Context, s: Json, t: Json, k: string, fuel: nat, fuel': nat, v: Json) {
    && |ListAt(t, k)| == |ListAt(s, k)|
    && forall i :: 0 <= i < |ListAt(s, k)| ==>
         Validates(c, fuel, ListAt(s, k)[i], v) == Validates(c, fuel', ListAt(t, k)[i], v)
  }

  /** Validity of a dictionary schema depends on its parts only. */
  lemma SameParts(c: Context, s: Json, t: Json, fuel: nat, fuel': nat, v: Json)
    requires s.Obj? && t.Obj? && !IsRefNode(s) && !IsRefNode(t)
    requires Assertions(c, s, v) == Assertions(c, t, v)
    requires v.Obj? ==> PropertiesOk(c, fuel, s, v) == PropertiesOk(c, fuel', t, v)
    requires v.Arr? ==> ItemsOk(c, fuel, s, v) == ItemsOk(c, fuel', t, v)
    requires Get(t, "anyOf").Arr? == Get(s, "anyOf").Arr? && AnyOk(c, fuel, s, v) == AnyOk(c, fuel', t, v)
    requires Get(t, "oneOf").Arr? == Get(s, "oneOf").Arr? && OneOk(c, fuel, s, v) == OneOk(c, fuel', t, v)
    ensures Validates(c, fuel, s, v) == Validates(c, fuel', t, v)
  {
  }

  /** For a whole document: whatever its other components are, a schema that meets no reference cycle and
      only plain components, and any fuel that pays for each component once. */
  lemma InliningPreservesMeaning(c: Context, s: Json, fuel: nat, anyFuel: nat, v: Json, strict: bool)
    requires PlainSchema(s, strict) && Resolves(s, c.components, {}, strict)
    requires strict || Unannotated(v)
    requires |c.components| <= fuel
    ensures Validates(c, fuel, s, v) == Validates(c, anyFuel, Inline(s, c.components, {}), v)
  {
    assert c.components.Keys - {} == c.components.Keys;
    InliningKeepsMeaning(c, s, {}, fuel, anyFuel, v, strict);
  }
}
