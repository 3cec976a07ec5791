/** Inlining only ever accepts more: properties named like an annotation, constraints beside a reference
    and reference cycles included. */
module InlineLoosens {
  import opened Json
  import opened Inlining
  import opened Validation
  import opened InlineMeaning

  /** Schemas inlining can only loosen: the values of flat keywords are flat, and the members of a `oneOf`,
      of which exactly one must take a value, are kept as they are. Any property names, anything beside a
      reference, any cycles. */
  ghost predicate Loosens(s: Json, components: map<string, Json>, stack: set<string>)
    decreases components.Keys - stack, s
  {
    match s
    case Obj(f) =>
      if IsRefNode(s) then
        var name := RefName(s);
        name !in stack && name in components ==> Loosens(components[name], components, stack + {name})
      else
        && FlatKeywords(s)
        && ("$ref" in f ==> ResolvesPlain(f["$ref"], components, stack, true))
        && ("properties" in f ==> f["properties"].Obj? && !IsRefNode(f["properties"]))
        && (forall name :: name in DictAt(s, "properties") && name !in ANNOTATIONS ==>
              Loosens(DictAt(s, "properties")[name], components, stack))
        && ("items" in f ==> Loosens(f["items"], components, stack))
        && ("anyOf" in f ==> f["anyOf"].Arr?) && (forall m :: m in ListAt(s, "anyOf") ==> Loosens(m, components, stack))
        && ("oneOf" in f ==> f["oneOf"].Arr?) && (forall m :: m in ListAt(s, "oneOf") ==> Kept(m, components, stack))
    case _ => true
  }

  ghost predicate Kept(m: Json, components: map<string, Json>, stack: set<string>) {
    PlainSchema(m, true) && Resolves(m, components, stack, true)
  }

  ghost predicate LoosensNode(c: Context, s: Json, stack: set<string>, fuel: nat) {
    s.Obj? && !IsRefNode(s) && Loosens(s, c.components, stack) && |c.components.Keys - stack| <= fuel
  }

  lemma NodeParts(c: Context, s: Json, stack: set<string>, fuel: nat)
    requires LoosensNode(c, s, stack, fuel)
    ensures FlatKeywords(s) && !IsRefNode(Inline(s, c.components, stack)) && Inline(s, c.components, stack).Obj?
  {
    assert "$ref" !in ANNOTATIONS;
    if "$ref" in s.fields && !s.fields["$ref"].Str? {
      PlainNeverText(s.fields["$ref"], c.components, stack, true);
    }
  }

  /** Inlining a keyword that holds schemas. */
  lemma NestedInlined(s: Json, components: map<string, Json>, stack: set<string>, k: string)
    requires s.Obj? && !IsRefNode(s) && k in NESTED_KEYWORDS
    ensures Has(Inline(s, components, stack), k) == Has(s, k)
    ensures Has(s, k) ==> Inline(s, components, stack).fields[k] == Inline(s.fields[k], components, stack)
  {
    NestedKept(s, components, stack, k);
  }

  lemma {:induction false} PropertiesLoosen(c: Context, s: Json, stack: set<string>, fuel: nat, anyFuel: nat, v: Json)
    requires LoosensNode(c, s, stack, fuel) && v.Obj? && PropertiesOk(c, fuel, s, v)
    ensures PropertiesOk(c, anyFuel, Inline(s, c.components, stack), v)
    decreases c.components.Keys - stack, s, 0
  {
    hide Validates;
    NestedInlined(s, c.components, stack, "properties");
    var t := Inline(s, c.components, stack);
    forall name | name in DictAt(t, "properties") && name in v.fields
      ensures Validates(c, anyFuel, DictAt(t, "properties")[name], v.fields[name])
    {
      InliningLoosens(c, DictAt(s, "properties")[name], stack, fuel, anyFuel, v.fields[name]);
    }
  }

  lemma {:induction false} ItemsLoosen(c: Context, s: Json, stack: set<string>, fuel: nat, anyFuel: nat, v: Json)
    requires LoosensNode(c, s, stack, fuel) && v.Arr? && ItemsOk(c, fuel, s, v)
    ensures ItemsOk(c, anyFuel, Inline(s, c.components, stack), v)
    decreases c.components.Keys - stack, s, 0
  {
    hide Validates;
    NestedInlined(s, c.components, stack, "items");
    if Has(s, "items") {
      forall i | 0 <= i < |v.items| {
        InliningLoosens(c, s.fields["items"], stack, fuel, anyFuel, v.items[i]);
      }
    }
  }

  lemma {:induction false} AnyLoosens(c: Context, s: Json, stack: set<string>, fuel: nat, anyFuel: nat, v: Json)
    requires LoosensNode(c, s, stack, fuel)
    ensures Get(Inline(s, c.components, stack), "anyOf").Arr? == Get(s, "anyOf").Arr?
    ensures AnyOk(c, fuel, s, v) ==> AnyOk(c, anyFuel, Inline(s, c.components, stack), v)
    decreases c.components.Keys - stack, s, 0
  {
    hide Validates;
    NestedInlined(s, c.components, stack, "anyOf");
    if AnyOk(c, fuel, s, v) {
      var i :| 0 <= i < |ListAt(s, "anyOf")| && Validates(c, fuel, ListAt(s, "anyOf")[i], v);
      assert ListAt(s, "anyOf")[i] in ListAt(s, "anyOf");
      InliningLoosens(c, ListAt(s, "anyOf")[i], stack, fuel, anyFuel, v);
      assert ListAt(Inline(s, c.components, stack), "anyOf")[i] == Inline(ListAt(s, "anyOf")[i], c.components, stack);
    }
  }

  lemma OneMembersKept(c: Context, s: Json, stack: set<string>, fuel: nat)
    requires LoosensNode(c, s, stack, fuel)
    ensures var t := Inline(s, c.components, stack);
      && Get(t, "oneOf").Arr? == Get(s, "oneOf").Arr? && |ListAt(t, "oneOf")| == |ListAt(s, "oneOf")|
      && (forall m :: m in ListAt(s, "oneOf") ==> Kept(m, c.components, stack))
      && forall i :: 0 <= i < |ListAt(s, "oneOf")| ==> ListAt(t, "oneOf")[i] == Inline(ListAt(s, "oneOf")[i], c.components, stack)
  {
    hide Kept;
    NestedInlined(s, c.components, stack, "oneOf");
  }

  lemma OneKept(c: Context, s: Json, stack: set<string>, fuel: nat, anyFuel: nat, v: Json)
    requires LoosensNode(c, s, stack, fuel)
    ensures Get(Inline(s, c.components, stack), "oneOf").Arr? == Get(s, "oneOf").Arr?
    ensures OneOk(c, fuel, s, v) ==> OneOk(c, anyFuel, Inline(s, c.components, stack), v)
  {
    OneMembersKept(c, s, stack, fuel);
    hide Loosens, Inline;
    var t := Inline(s, c.components, stack);
    assert |ListAt(t, "oneOf")| == |ListAt(s, "oneOf")|;
    forall i | 0 <= i < |ListAt(s, "oneOf")|
      ensures Validates(c, fuel, ListAt(s, "oneOf")[i], v) == Validates(c, anyFuel, ListAt(t, "oneOf")[i], v)
    {
      hide Validates;
      assert ListAt(s, "oneOf")[i] in ListAt(s, "oneOf");
      InliningKeepsMeaning(c, ListAt(s, "oneOf")[i], stack, fuel, anyFuel, v, true);
    }
    if OneOk(c, fuel, s, v) {
      hide Validates;
      OneOkMoves(c, s, t, fuel, anyFuel, v);
    }
  }

  /** A node is at least as loose when its parts are. */
  lemma LooserParts(c: Context, s: Json, t: Json, fuel: nat, fuel': nat, v: Json)
    requires s.Obj? && t.Obj? && !IsRefNode(s) && !IsRefNode(t) && Validates(c, fuel, s, v)
    requires Assertions(c, s, v) == Assertions(c, t, v)
    requires v.Obj? && PropertiesOk(c, fuel, s, v) ==> PropertiesOk(c, fuel', t, v)
    requires v.Arr? && ItemsOk(c, fuel, s, v) ==> ItemsOk(c, fuel', t, v)
    requires Get(t, "anyOf").Arr? == Get(s, "anyOf").Arr? && (AnyOk(c, fuel, s, v) ==> AnyOk(c, fuel', t, v))
    requires Get(t, "oneOf").Arr? == Get(s, "oneOf").Arr? && (OneOk(c, fuel, s, v) ==> OneOk(c, fuel', t, v))
    ensures Validates(c, fuel', t, v)
  {
  }

  lemma {:induction false} NodeLoosens(c: Context, s: Json, stack: set<string>, fuel: nat, anyFuel: nat, v: Json)
    requires LoosensNode(c, s, stack, fuel) && Validates(c, fuel, s, v)
    ensures Validates(c, anyFuel, Inline(s, c.components, stack), v)
    decreases c.components.Keys - stack, s, 1
  {
    var t := Inline(s, c.components, stack);
    hide Validates, Inline, Loosens, PropertiesOk, ItemsOk, AnyOk, OneOk, Assertions, LoosensNode;
    assert s.Obj? && !IsRefNode(s) by { NodeShape(c, s, stack, fuel); }
    NodeParts(c, s, stack, fuel);
    AssertionsKept(c, s, stack, v);
    AnyLoosens(c, s, stack, fuel, anyFuel, v);
    OneKept(c, s, stack, fuel, anyFuel, v);
    if v.Obj? && PropertiesOk(c, fuel, s, v) { PropertiesLoosen(c, s, stack, fuel, anyFuel, v); }
    if v.Arr? && ItemsOk(c, fuel, s, v) { ItemsLoosen(c, s, stack, fuel, anyFuel, v); }
    LooserParts(c, s, t, fuel, anyFuel, v);
  }

  lemma NodeShape(c: Context, s: Json, stack: set<string>, fuel: nat)
    requires LoosensNode(c, s, stack, fuel)
    ensures s.Obj? && !IsRefNode(s)
  {
  }

  /** A reference met again, or one no component answers, inlines to what accepts everything. */
  lemma CutAccepts(c: Context, s: Json, stack: set<string>, anyFuel: nat, v: Json)
    requires IsRefNode(s) && (RefName(s) in stack || RefName(s) !in c.components)
    ensures Validates(c, anyFuel, Inline(s, c.components, stack), v)
  {
    var t := Inline(s, c.components, stack);
    assert t == Obj(map["$cycle" := Str(RefName(s))]) || t == Obj(map[]);
    assert Get(t, "$ref") == Null;
    NoKeywords(c, anyFuel, t, v);
  }

  lemma FollowsRef(c: Context, s: Json, stack: set<string>, fuel: nat, v: Json)
    requires IsRefNode(s) && RefName(s) !in stack && RefName(s) in c.components && fuel > 0 && Validates(c, fuel, s, v)
    ensures Validates(c, fuel - 1, c.components[RefName(s)], v)
    ensures Inline(s, c.components, stack) == Inline(c.components[RefName(s)], c.components, stack + {RefName(s)})
  {
  }

  lemma NextLoosens(c: Context, s: Json, stack: set<string>)
    requires IsRefNode(s) && Loosens(s, c.components, stack) && RefName(s) !in stack && RefName(s) in c.components
    ensures Loosens(c.components[RefName(s)], c.components, stack + {RefName(s)})
  {
  }

  lemma OtherAccepts(c: Context, s: Json, stack: set<string>, fuel: nat, anyFuel: nat, v: Json)
    requires !s.Obj? && Validates(c, fuel, s, v)
    ensures Validates(c, anyFuel, Inline(s, c.components, stack), v)
  {
  }

  /** What the document accepts, references resolved on demand, the inlined schema accepts. */
  lemma {:induction false} InliningLoosens(c: Context, s: Json, stack: set<string>, fuel: nat, anyFuel: nat, v: Json)
    requires Loosens(s, c.components, stack) && |c.components.Keys - stack| <= fuel
    requires Validates(c, fuel, s, v)
    ensures Validates(c, anyFuel, Inline(s, c.components, stack), v)
    decreases c.components.Keys - stack, s, 2
  {
    hide Validates, Inline, Loosens, LastSegment;
    if !s.Obj? {
      OtherAccepts(c, s, stack, fuel, anyFuel, v);
    } else if !IsRefNode(s) {
      NodeLoosens(c, s, stack, fuel, anyFuel, v);
    } else if RefName(s) in stack || RefName(s) !in c.components {
      CutAccepts(c, s, stack, anyFuel, v);
    } else {
      var name := RefName(s);
      OneNameFewer(c.components.Keys, stack, name);
      FollowsRef(c, s, stack, fuel, v);
      NextLoosens(c, s, stack);
      InliningLoosens(c, c.components[name], stack + {name}, fuel - 1, anyFuel, v);
    }
  }

  /** For a whole document. */
  lemma InliningOnlyLoosens(c: Context, s: Json, fuel: nat, anyFuel: nat, v: Json)
    requires Loosens(s, c.components, {}) && |c.components| <= fuel && Validates(c, fuel, s, v)
    ensures Validates(c, anyFuel, Inline(s, c.components, {}), v)
  {
    assert c.components.Keys - {} == c.components.Keys;
    InliningLoosens(c, s, {}, fuel, anyFuel, v);
  }

  // ------------------------------------------------------------------ what inlining keeps, it loosens

  /** Every schema inlining keeps the meaning of is one of these. */
  lemma {:induction false} PlainLoosens(s: Json, components: map<string, Json>, stack: set<string>)
    requires PlainSchema(s, true) && Resolves(s, components, stack, true)
    ensures Loosens(s, components, stack)
    decreases components.Keys - stack, s, 1
  {
    if s.Obj? {
      if IsRefNode(s) {
        var name := RefName(s);
        if name in components { PlainLoosens(components[name], components, stack + {name}); }
      } else {
        PlainNodeLoosens(s, components, stack);
      }
    }
  }

  lemma {:induction false} PlainNodeLoosens(s: Json, components: map<string, Json>, stack: set<string>)
    requires s.Obj? && !IsRefNode(s) && PlainSchema(s, true) && Resolves(s, components, stack, true)
    ensures Loosens(s, components, stack)
    decreases components.Keys - stack, s, 0
  {
    PlainShape(s);
    PropertiesResolve(s, components, stack, true);
    MembersResolve(s, components, stack, "anyOf", true);
    MembersResolve(s, components, stack, "oneOf", true);
    ItemsResolve(s, components, stack);
    hide PlainSchema, Resolves, ResolvesPlain, Flat;
    forall name | name in DictAt(s, "properties") {
      PlainLoosens(DictAt(s, "properties")[name], components, stack);
    }
    if Has(s, "items") { PlainLoosens(s.fields["items"], components, stack); }
    forall m | m in ListAt(s, "anyOf")
      ensures Loosens(m, components, stack)
    {
      var i :| 0 <= i < |ListAt(s, "anyOf")| && ListAt(s, "anyOf")[i] == m;
      PlainLoosens(m, components, stack);
    }
    forall m | m in ListAt(s, "oneOf")
      ensures Kept(m, components, stack)
    {
      var i :| 0 <= i < |ListAt(s, "oneOf")| && ListAt(s, "oneOf")[i] == m;
    }
  }

  lemma PlainShape(s: Json)
    requires s.Obj? && !IsRefNode(s) && PlainSchema(s, true)
    ensures FlatKeywords(s)
    ensures "properties" in s.fields ==> s.fields["properties"].Obj? && !IsRefNode(s.fields["properties"])
    ensures "anyOf" in s.fields ==> s.fields["anyOf"].Arr?
    ensures "oneOf" in s.fields ==> s.fields["oneOf"].Arr?
    ensures forall m :: m in ListAt(s, "anyOf") || m in ListAt(s, "oneOf") ==> PlainSchema(m, true)
  {
    if "properties" in s.fields && "$ref" in s.fields["properties"].fields {
      assert PlainSchema(s.fields["properties"].fields["$ref"], true);
    }
  }

  lemma ItemsResolve(s: Json, components: map<string, Json>, stack: set<string>)
    requires s.Obj? && !IsRefNode(s) && PlainSchema(s, true) && Resolves(s, components, stack, true)
    ensures Has(s, "items") ==> PlainSchema(s.fields["items"], true) && Resolves(s.fields["items"], components, stack, true)
    ensures Has(s, "$ref") ==> ResolvesPlain(s.fields["$ref"], components, stack, true)
  {
    assert "items" !in ANNOTATIONS && "$ref" !in ANNOTATIONS;
  }
}
