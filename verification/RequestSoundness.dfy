/** A request comparison that reports nothing keeps an installed app's requests accepted. */
module RequestSoundness {
  import opened Json
  import opened Inlining
  import opened Validation
  import opened Compare
  import opened CompareLaws
  import opened ResponseSoundness

  predicate ListedEnum(s: Json) {
    Has(s, "enum") ==> Get(s, "enum").Arr?
  }

  /** Python's equality takes some other value for this one: it holds a boolean, a 0 or a 1. */
  predicate Confusable(v: Json) {
    match v
    case Bool(_) => true
    case Num(n) => n == 0.0 || n == 1.0
    case Arr(items) => exists i :: 0 <= i < |items| && Confusable(items[i])
    case Obj(fields) => exists k :: k in fields && Confusable(fields[k])
    case _ => false
  }

  /** No enum value that Python may take for another is missing from the new enum. */
  predicate EnumsKept(o: Json, n: Json) {
    Has(n, "enum") ==>
      && Has(o, "enum")
      && forall v :: v in ListAt(o, "enum") && Confusable(v) ==> v in ListAt(n, "enum")
  }

  predicate NumericBound(s: Json, bound: string) {
    Has(s, bound) ==> Get(s, bound).Num?
  }

  /** The keywords of one core schema have the values they should. */
  predicate PlainKeywords(s: Json) {
    && !IsRefNode(s) && ListedEnum(s)
    && NumericBound(s, "maxLength") && NumericBound(s, "minLength")
    && NumericBound(s, "maximum") && NumericBound(s, "minimum")
  }

  /** The nullable wrapper as it is written for an optional value: `[X, null]` and nothing beside it. */
  predicate IsWrapper(s: Json, inner: Json) {
    || s == Obj(map["anyOf" := Arr([inner, NULL_SCHEMA])])
    || s == Obj(map["anyOf" := Arr([NULL_SCHEMA, inner])])
    || s == Obj(map["oneOf" := Arr([inner, NULL_SCHEMA])])
    || s == Obj(map["oneOf" := Arr([NULL_SCHEMA, inner])])
  }

  ghost predicate RequestCore(s: Json)
    decreases s, 0
  {
    && Core(s) && PlainKeywords(s)
    && (Has(s, "items") ==> RequestTyped(s.fields["items"]))
    && (forall name :: name in DictAt(s, "properties") ==> RequestTyped(DictAt(s, "properties")[name]))
  }

  ghost predicate RequestTyped(s: Json)
    decreases s, 1
  {
    && Typed(s)
    && RequestCore(Unwrap(s).0)
    && (Unwrap(s).0 != s ==> IsWrapper(s, Unwrap(s).0))
  }

  /** What the request comparison leaves to its reader: null still taken where it was, no number turned
      integer, no enum where there was none, no boolean taken for a number in one; at every depth both
      sides declare. */
  ghost predicate Compatible(was: Json, now: Json)
    decreases was
  {
    && CompatibleHere(was, now)
    && (var o, n := Unwrap(was).0, Unwrap(now).0;
        && (forall name :: name in DictAt(o, "properties") && name in DictAt(n, "properties") ==>
              Compatible(DictAt(o, "properties")[name], DictAt(n, "properties")[name]))
        && (Has(o, "items") && Has(n, "items") ==> Compatible(o.fields["items"], n.fields["items"])))
  }

  predicate CompatibleHere(was: Json, now: Json) {
    var (o, oNull) := Unwrap(was);
    var (n, nNull) := Unwrap(now);
    (oNull ==> nNull) && !(TypeOf(o) == "number" && TypeOf(n) == "integer") && EnumsKept(o, n)
  }

  /** The members of a union or of a nullable wrapper, or the schema alone. */
  function Members(s: Json): (r: seq<Json>)
    ensures forall x :: x in r ==> if s == UnionOf(ListAt(s, "anyOf")) then x < s else x == s
    ensures s != UnionOf(ListAt(s, "anyOf")) ==> s in r
  {
    if s == UnionOf(ListAt(s, "anyOf")) then ListAt(s, "anyOf") else [s]
  }

  /** Schemas the request comparison vouches for, with what it leaves to its reader: one type on each
      side, along the properties and items both declare; and of a union, each member of the old schema
      taken in by one of the new. */
  ghost predicate Serves(was: Json, now: Json)
    decreases was, now, 1
  {
    && !Cut(was, now)
    && (if Union(was) || Union(now) then
          forall a :: a in Members(was) ==> TakenIn(was, now, a)
        else
          var o, n := Unwrap(was).0, Unwrap(now).0;
          && Shallow(o) && Shallow(n) && PlainKeywords(o) && PlainKeywords(n)
          && (n != now ==> IsWrapper(now, n))
          && CompatibleHere(was, now) && ServesInside(o, n))
  }

  ghost predicate ServesInside(o: Json, n: Json)
    decreases o, n, 0
  {
    && (forall name :: name in DictAt(o, "properties") && name in DictAt(n, "properties") ==>
          Serves(DictAt(o, "properties")[name], DictAt(n, "properties")[name]))
    && (Has(o, "items") && Has(n, "items") ==> Serves(o.fields["items"], n.fields["items"]))
  }

  ghost predicate TakenIn(was: Json, now: Json, a: Json)
    requires (Union(was) || Union(now)) && a in Members(was)
    decreases was, now, 0
  {
    exists b :: b in Members(now) && TakesIn(a, b)
  }

  /** Null takes in null; otherwise a silent comparison says so. */
  ghost predicate TakesIn(a: Json, b: Json)
    decreases a, b, 2
  {
    (a == b == NULL_SCHEMA) || (Serves(a, b) && RequestLines(a, b, "") == multiset{})
  }

  lemma ServesUnion(was: Json, now: Json)
    requires Union(was) || Union(now)
    ensures Serves(was, now) <==> !Cut(was, now) && forall a :: a in Members(was) ==> TakenIn(was, now, a)
  {
    hide Union, RequestLines, Unwrap;
  }

  lemma ServesTyped(was: Json, now: Json)
    requires !Union(was) && !Union(now)
    ensures Serves(was, now) <==>
            var o, n := Unwrap(was).0, Unwrap(now).0;
            && !Cut(was, now) && Shallow(o) && Shallow(n) && PlainKeywords(o) && PlainKeywords(n)
            && (n != now ==> IsWrapper(now, n)) && CompatibleHere(was, now) && ServesInside(o, n)
  {
    hide Union, Shallow, Unwrap, PlainKeywords, IsWrapper, CompatibleHere, ServesInside;
  }

  lemma TakerOf(was: Json, now: Json, a: Json) returns (b: Json)
    requires (Union(was) || Union(now)) && Serves(was, now) && a in Members(was)
    ensures b in Members(now) && TakesIn(a, b)
  {
    ServesUnion(was, now);
    hide *;
    assert TakenIn(was, now, a);
    b := SomeTaker(was, now, a);
  }

  lemma SomeTaker(was: Json, now: Json, a: Json) returns (b: Json)
    requires (Union(was) || Union(now)) && a in Members(was) && TakenIn(was, now, a)
    ensures b in Members(now) && TakesIn(a, b)
  {
    hide Union, Serves, Members, TakesIn;
    b :| b in Members(now) && TakesIn(a, b);
  }

  lemma RequestCoreParts(s: Json)
    requires RequestTyped(s)
    ensures var o := Unwrap(s).0;
      && Shallow(o) && PlainKeywords(o) && !Has(s, "$cycle") && (o != s ==> IsWrapper(s, o))
      && (Has(o, "items") ==> RequestTyped(o.fields["items"]))
      && (forall name :: name in DictAt(o, "properties") ==> RequestTyped(DictAt(o, "properties")[name]))
  {
    hide Unwrap, PlainKeywords, IsWrapper;
    TypedParts(s);
  }

  lemma {:induction false} TypedServes(was: Json, now: Json)
    requires RequestTyped(was) && RequestTyped(now) && Compatible(was, now)
    ensures Serves(was, now)
    decreases was
  {
    hide Serves, RequestTyped, Shallow, Union, Unwrap, PlainKeywords, IsWrapper, CompatibleHere;
    var o, n := Unwrap(was).0, Unwrap(now).0;
    RequestCoreParts(was);
    RequestCoreParts(now);
    TypedIsNoUnion(was);
    TypedIsNoUnion(now);
    ServesTyped(was, now);
    forall name | name in DictAt(o, "properties") && name in DictAt(n, "properties") {
      TypedServes(DictAt(o, "properties")[name], DictAt(n, "properties")[name]);
    }
    if Has(o, "items") && Has(n, "items") {
      TypedServes(o.fields["items"], n.fields["items"]);
    }
  }

  /** The value uses declared properties only: of a union, those of a member that takes it. */
  ghost predicate DeclaredOnly(c: Context, fuel: nat, was: Json, v: Json)
    decreases was, 1
  {
    if Union(was) then exists m :: m in ListAt(was, "anyOf") && Validates(c, fuel, m, v) && DeclaredOnly(c, fuel, m, v)
    else if Unwrap(was).0 != was then v == Null || DeclaredOnly(c, fuel, Unwrap(was).0, v)
    else DeclaredInside(c, fuel, was, v)
  }

  ghost predicate DeclaredInside(c: Context, fuel: nat, o: Json, v: Json)
    decreases o, 0
  {
    && (v.Obj? ==> forall name :: name in v.fields ==>
          name in DictAt(o, "properties") && DeclaredOnly(c, fuel, DictAt(o, "properties")[name], v.fields[name]))
    && (v.Arr? && Has(o, "items") ==> forall i :: 0 <= i < |v.items| ==> DeclaredOnly(c, fuel, o.fields["items"], v.items[i]))
  }

  // ------------------------------------------------------------------ one keyword at a time

  /** A type name kept by a silent comparison still admits what it admitted, exactly when it is not a
      number turned integer. */
  lemma TypeKeptExactly(t: string, u: string)
    requires t in VALUE_TYPES && u in VALUE_TYPES && Widen({t}) <= Widen({u})
    ensures (forall v :: TypeMatches(t, v) ==> TypeMatches(u, v)) <==> !(t == "number" && u == "integer")
  {
    assert t in Widen({t}) && t in Widen({u});
    if t == "number" && u == "integer" {
      assert TypeMatches(t, Num(0.5)) && !TypeMatches(u, Num(0.5));
    } else if t == "integer" {
      assert "number" in Widen({t});
    }
  }

  lemma {:induction false} FreshText(values: seq<Json>) returns (s: string)
    ensures Str(s) !in values
    ensures forall v :: v in values && v.Str? ==> |v.s| < |s|
  {
    if values == [] {
      s := "x";
    } else {
      var shorter := FreshText(values[1..]);
      var first := Text(values[0]);
      s := shorter + first + "x";
      assert forall v :: v in values ==> v == values[0] || v in values[1..];
    }
  }

  /** Two values Python takes for the same are the same, unless one holds a boolean, a 0 or a 1. */
  lemma {:induction false} SameUnlessConfusable(v: Json, w: Json)
    requires PyNormal(v) == PyNormal(w) && !Confusable(v)
    ensures v == w
  {
    match v
    case Arr(items) =>
      forall i | 0 <= i < |items|
        ensures items[i] == w.items[i]
      {
        assert PyNormal(v).items[i] == PyNormal(w).items[i];
        SameUnlessConfusable(items[i], w.items[i]);
      }
    case Obj(fields) =>
      assert PyNormal(v).fields.Keys == fields.Keys && PyNormal(w).fields.Keys == w.fields.Keys;
      forall k | k in fields
        ensures fields[k] == w.fields[k]
      {
        assert PyNormal(v).fields[k] == PyNormal(w).fields[k];
        SameUnlessConfusable(fields[k], w.fields[k]);
      }
    case _ =>
  }

  /** With no value reported gone, an enum still admits what was admitted, exactly when it did not
      appear where none was and no boolean, 0 or 1, alone or inside a value, was swapped for another. */
  lemma EnumKeptExactly(o: Json, n: Json)
    requires ListedEnum(o) && ListedEnum(n) && !EnumNarrowed(o, n)
    ensures (forall v :: EnumOk(o, v) ==> EnumOk(n, v)) <==> EnumsKept(o, n)
  {
    if Has(n, "enum") && !Has(o, "enum") {
      var s := FreshText(ListAt(n, "enum"));
      assert EnumOk(o, Str(s)) && !EnumOk(n, Str(s));
    } else if EnumsKept(o, n) {
      forall v | EnumOk(o, v)
        ensures EnumOk(n, v)
      {
        if Has(n, "enum") {
          EnumValueKept(o, n, v);
        }
      }
    } else {
      var v :| v in ListAt(o, "enum") && Confusable(v) && v !in ListAt(n, "enum");
      assert EnumOk(o, v) && !EnumOk(n, v);
    }
  }

  lemma EnumValueKept(o: Json, n: Json, v: Json)
    requires !EnumNarrowed(o, n) && Has(o, "enum") && Has(n, "enum") && EnumsKept(o, n) && v in ListAt(o, "enum")
    ensures v in ListAt(n, "enum")
  {
    if !Confusable(v) {
      NothingGone(ListAt(o, "enum"), ListAt(n, "enum"));
      var i :| 0 <= i < |ListAt(n, "enum")| && PyNormal(ListAt(n, "enum")[i]) == PyNormal(v);
      SameUnlessConfusable(v, ListAt(n, "enum")[i]);
    }
  }

  lemma BoundKept(o: Json, n: Json, bound: string, v: Json)
    requires NumericBound(o, bound) && NumericBound(n, bound) && !Tightened(o, n, bound) && BoundOk(o, bound, v)
    requires bound in {"maxLength", "minLength", "maximum", "minimum"}
    ensures BoundOk(n, bound, v)
  {
  }

  lemma RequiredKept(o: Json, n: Json, v: Json)
    requires forall x :: x in ListAt(n, "required") && x.Str? ==> Requires(o, x.s)
    requires RequiredOk(o, v)
    ensures RequiredOk(n, v)
  {
    if v.Obj? {
      forall i | 0 <= i < |ListAt(n, "required")| && ListAt(n, "required")[i].Str?
        ensures ListAt(n, "required")[i].s in v.fields
      {
        RequiredPresent(o, ListAt(n, "required")[i].s, v);
      }
    }
  }

  /** Every keyword about the value itself is kept. */
  lemma AssertionsStay(c: Context, o: Json, n: Json, v: Json)
    requires Shallow(o) && Shallow(n) && PlainKeywords(o) && PlainKeywords(n)
    requires Types(o) == {TypeOf(o)} && Types(n) == {TypeOf(n)}
    requires RequestSilentHere(o, n)
    requires !(TypeOf(o) == "number" && TypeOf(n) == "integer") && EnumsKept(o, n)
    requires Assertions(c, o, v)
    ensures Assertions(c, n, v) && !IsRefNode(n)
  {
    assert TypeOf(o) in Widen(Types(o)) && TypeOf(n) in Widen(Types(n));
    TypeKeptExactly(TypeOf(o), TypeOf(n));
    NothingGone(ListAt(o, "enum"), ListAt(n, "enum"));
    EnumKeptExactly(o, n);
    BoundKept(o, n, "maxLength", v);
    BoundKept(o, n, "minLength", v);
    BoundKept(o, n, "maximum", v);
    BoundKept(o, n, "minimum", v);
    RequiredKept(o, n, v);
    assert TypeOk(n, v) && EnumOk(n, v) && PatternOk(c, n, v);
  }

  // ------------------------------------------------------------------ whole values

  lemma NullSchemaTakesNull(c: Context, fuel: nat, v: Json)
    ensures Validates(c, fuel, NULL_SCHEMA, v) <==> v == Null
  {
    var s := NULL_SCHEMA;
    assert Get(s, "type") == Str("null");
    if v == Null {
      assert forall k :: k != "type" ==> !Has(s, k);
    } else {
      assert !TypeOk(s, v);
    }
  }

  /** A schema that is a union and nothing else is decided by the union. */
  lemma UnionOnly(c: Context, fuel: nat, s: Json, v: Json)
    requires s.Obj? && forall k :: k in s.fields ==> k == "anyOf" || k == "oneOf"
    ensures Validates(c, fuel, s, v) <==>
            && (Get(s, "anyOf").Arr? ==> AnyOk(c, fuel, s, v))
            && (Get(s, "oneOf").Arr? ==> OneOk(c, fuel, s, v))
  {
    hide TypeMatches, AnyOk, OneOk;
    assert forall k :: k != "anyOf" && k != "oneOf" ==> !Has(s, k);
  }

  /** A two-member union takes what exactly one member takes. */
  lemma PairTakes(c: Context, fuel: nat, s: Json, key: string, members: seq<Json>, i: nat, v: Json)
    requires key == "anyOf" || key == "oneOf"
    requires s == Obj(map[key := Arr(members)]) && |members| == 2 && i < 2
    requires Validates(c, fuel, members[i], v) && !Validates(c, fuel, members[1 - i], v)
    ensures Validates(c, fuel, s, v)
  {
    hide Validates;
    UnionOnly(c, fuel, s, v);
    assert Get(s, key) == Arr(members) && ListAt(s, key) == members;
    if key == "anyOf" {
      assert !Has(s, "oneOf");
      assert Validates(c, fuel, ListAt(s, "anyOf")[i], v);
    } else {
      assert !Has(s, "anyOf");
      OneOfPair(c, fuel, s, i, v);
    }
  }

  lemma OneOfPair(c: Context, fuel: nat, s: Json, i: nat, v: Json)
    requires |ListAt(s, "oneOf")| == 2 && i < 2
    requires Validates(c, fuel, ListAt(s, "oneOf")[i], v) && !Validates(c, fuel, ListAt(s, "oneOf")[1 - i], v)
    ensures OneOk(c, fuel, s, v)
  {
    hide Validates, ListAt;
    assert OnlyAt(c, fuel, s, i, v);
  }

  /** The wrapper takes null and what it wraps. */
  lemma WrapperTakes(c: Context, fuel: nat, s: Json, inner: Json, v: Json)
    requires IsWrapper(s, inner) && Shallow(inner)
    requires v == Null || Validates(c, fuel, inner, v)
    ensures Validates(c, fuel, s, v)
  {
    NullSchemaTakesNull(c, fuel, v);
    CoreRefusesNull(c, fuel, inner);
    hide Shallow, Validates, NULL_SCHEMA;
    var first, second := [inner, NULL_SCHEMA], [NULL_SCHEMA, inner];
    var key := if s == Obj(map["anyOf" := Arr(first)]) || s == Obj(map["anyOf" := Arr(second)]) then "anyOf" else "oneOf";
    if s == Obj(map[key := Arr(first)]) {
      PairTakes(c, fuel, s, key, first, if v == Null then 1 else 0, v);
    } else {
      PairTakes(c, fuel, s, key, second, if v == Null then 0 else 1, v);
    }
  }

  /** A core schema accepts a value when its keywords and everything nested do. */
  lemma CoreAccepts(c: Context, fuel: nat, s: Json, v: Json)
    requires Shallow(s) && !IsRefNode(s) && Assertions(c, s, v)
    requires v.Obj? ==> PropertiesOk(c, fuel, s, v)
    requires v.Arr? ==> ItemsOk(c, fuel, s, v)
    ensures Validates(c, fuel, s, v)
  {
  }

  lemma CoreValue(c: Context, fuel: nat, s: Json, v: Json)
    requires s.Obj? && Validates(c, fuel, s, v)
    ensures Assertions(c, s, v)
  {
  }

  lemma {:induction false} NullDeclared(c: Context, fuel: nat, s: Json)
    requires Validates(c, fuel, s, Null)
    ensures DeclaredOnly(c, fuel, s, Null)
    decreases s
  {
    hide Validates, Unwrap;
    if Union(s) {
      var i := MemberTaking(c, fuel, s, "anyOf", Null);
      NullDeclared(c, fuel, ListAt(s, "anyOf")[i]);
    }
  }

  lemma UnionIsPure(s: Json)
    requires Union(s)
    ensures s == UnionOf(ListAt(s, "anyOf"))
  {
  }

  /** A declared value is a declared value of one of the members. */
  lemma MemberSent(c: Context, fuel: nat, s: Json, v: Json) returns (a: Json)
    requires Validates(c, fuel, s, v) && DeclaredOnly(c, fuel, s, v)
    ensures a in Members(s) && Validates(c, fuel, a, v) && DeclaredOnly(c, fuel, a, v)
  {
    hide Validates, Unwrap, NULL_SCHEMA, DeclaredInside;
    if Union(s) {
      a :| a in ListAt(s, "anyOf") && Validates(c, fuel, a, v) && DeclaredOnly(c, fuel, a, v);
    } else if s != UnionOf(ListAt(s, "anyOf")) {
      a := s;
    } else if v == Null {
      var i := MemberTaking(c, fuel, s, "anyOf", v);
      a := ListAt(s, "anyOf")[i];
      NullDeclared(c, fuel, a);
    } else {
      a := WrapperSent(c, fuel, s, v);
    }
  }

  lemma WrapperSent(c: Context, fuel: nat, s: Json, v: Json) returns (a: Json)
    requires s == UnionOf(ListAt(s, "anyOf")) && !Union(s)
    requires Validates(c, fuel, s, v) && DeclaredOnly(c, fuel, s, v) && v != Null
    ensures a in Members(s) && Validates(c, fuel, a, v) && DeclaredOnly(c, fuel, a, v)
  {
    hide Validates, NonNull, DeclaredInside;
    a := Unwrap(s).0;
    if a == s {
      var i := MemberTaking(c, fuel, s, "anyOf", v);
      NullSchemaTakesNull(c, fuel, v);
    } else {
      WrappedValue(c, fuel, s, v);
      assert !Has(s, "oneOf");
      UnwrapsToMember(s);
    }
  }

  lemma UnwrapsToMember(s: Json)
    requires s == UnionOf(ListAt(s, "anyOf")) && Unwrap(s).0 != s
    ensures Unwrap(s).0 in ListAt(s, "anyOf")
  {
    assert !Has(s, "oneOf");
  }

  /** What a member takes, the union takes. */
  lemma MemberTakesFor(c: Context, fuel: nat, s: Json, b: Json, v: Json)
    requires b in Members(s) && Validates(c, fuel, b, v)
    ensures Validates(c, fuel, s, v)
  {
    hide Validates;
    if s == UnionOf(ListAt(s, "anyOf")) {
      UnionOnly(c, fuel, s, v);
      var i :| 0 <= i < |ListAt(s, "anyOf")| && ListAt(s, "anyOf")[i] == b;
      assert !Has(s, "oneOf");
    }
  }

  /** Soundness: with nothing reported, and what the comparison leaves to its reader kept, the new schema
      accepts every value the old one accepted that uses its declared properties. */
  lemma {:induction false} SilentRequestIsAccepted(c: Context, fuel: nat, was: Json, now: Json, where: string, v: Json)
    requires Serves(was, now)
    requires RequestLines(was, now, where) == multiset{}
    requires Validates(c, fuel, was, v) && DeclaredOnly(c, fuel, was, v)
    ensures Validates(c, fuel, now, v)
    decreases was, now, 2
  {
    hide Validates, RequestLines, Unwrap, Union, Serves, Members, TakesIn, DeclaredOnly;
    if Union(was) || Union(now) {
      var a := MemberSent(c, fuel, was, v);
      var b := TakerOf(was, now, a);
      if Union(was) { UnionIsPure(was); } else { UnionIsPure(now); }
      TakerAccepts(c, fuel, a, b, v);
      MemberTakesFor(c, fuel, now, b, v);
    } else {
      TypedRequestIsAccepted(c, fuel, was, now, where, v);
    }
  }

  lemma {:induction false} TakerAccepts(c: Context, fuel: nat, a: Json, b: Json, v: Json)
    requires TakesIn(a, b) && Validates(c, fuel, a, v) && DeclaredOnly(c, fuel, a, v)
    ensures Validates(c, fuel, b, v)
    decreases a, b, 3
  {
    hide Validates, RequestLines, Serves, DeclaredOnly;
    if a == b {
    } else {
      SilentRequestIsAccepted(c, fuel, a, b, "", v);
    }
  }

  lemma {:induction false} TypedRequestIsAccepted(c: Context, fuel: nat, was: Json, now: Json, where: string, v: Json)
    requires Serves(was, now) && !Union(was) && !Union(now)
    requires RequestLines(was, now, where) == multiset{}
    requires Validates(c, fuel, was, v) && DeclaredOnly(c, fuel, was, v)
    ensures Validates(c, fuel, now, v)
    decreases was, now, 1
  {
    hide Validates, RequestLines, Unwrap, Types, Assertions, IsWrapper, Shallow, PlainKeywords, RequestSilentHere, RequestSilentInside;
    hide Serves, ServesInside, Union, DeclaredOnly, DeclaredInside, EnumsKept;
    var o, n := Unwrap(was).0, Unwrap(now).0;
    ServesTyped(was, now);
    ShallowParts(was);
    ShallowParts(now);
    RequestSilent(was, now, where);
    if v == Null {
      if o == was { CoreRefusesNull(c, fuel, was); }
      if n != now { WrapperTakes(c, fuel, now, n, v); }
    } else {
      if o != was { WrappedValue(c, fuel, was, v); }
      DeclaredCore(c, fuel, was, v);
      CoreIsObject(o);
      CoreValue(c, fuel, o, v);
      ValidParts(c, fuel, o, v);
      AssertionsStay(c, o, n, v);
      InsideIsAccepted(c, fuel, o, n, where, v);
      CoreAccepts(c, fuel, n, v);
      if n != now { WrapperTakes(c, fuel, now, n, v); }
    }
  }

  lemma DeclaredCore(c: Context, fuel: nat, s: Json, v: Json)
    requires Shallow(Unwrap(s).0) && DeclaredOnly(c, fuel, s, v) && v != Null
    ensures DeclaredInside(c, fuel, Unwrap(s).0, v)
  {
    hide DeclaredInside;
    TypedIsNoUnion(s);
    var o := Unwrap(s).0;
    assert Unwrap(o).0 == o;
    TypedIsNoUnion(o);
  }

  lemma {:induction false} InsideIsAccepted(c: Context, fuel: nat, o: Json, n: Json, where: string, v: Json)
    requires Shallow(o) && Shallow(n) && ServesInside(o, n) && RequestSilentInside(o, n, where)
    requires Assertions(c, o, v) && Assertions(c, n, v) && DeclaredInside(c, fuel, o, v)
    requires v.Obj? ==> PropertiesOk(c, fuel, o, v)
    requires v.Arr? ==> ItemsOk(c, fuel, o, v)
    ensures v.Obj? ==> PropertiesOk(c, fuel, n, v)
    ensures v.Arr? ==> ItemsOk(c, fuel, n, v)
    decreases o, n, 0
  {
    hide Validates, RequestLines, Shallow, Assertions, Serves, DeclaredOnly;
    if v.Obj? {
      forall name | name in DictAt(n, "properties") && name in v.fields
        ensures Validates(c, fuel, DictAt(n, "properties")[name], v.fields[name])
      {
        SilentRequestIsAccepted(c, fuel, DictAt(o, "properties")[name], DictAt(n, "properties")[name],
                                where + "." + name, v.fields[name]);
      }
    } else if v.Arr? {
      ArrayTyped(c, o, v);
      ArrayTyped(c, n, v);
      forall i | 0 <= i < |v.items|
        ensures Validates(c, fuel, n.fields["items"], v.items[i])
      {
        SilentRequestIsAccepted(c, fuel, o.fields["items"], n.fields["items"], where + "[]", v.items[i]);
      }
    }
  }

  lemma ArrayTyped(c: Context, s: Json, v: Json)
    requires Shallow(s) && Assertions(c, s, v) && v.Arr?
    ensures Has(s, "items")
  {
  }

  /** Null keeps being accepted exactly when the wrapper is kept. */
  lemma NullKeptExactly(c: Context, fuel: nat, was: Json, now: Json)
    requires RequestTyped(was) && RequestTyped(now)
    ensures (Validates(c, fuel, was, Null) ==> Validates(c, fuel, now, Null)) <==> (Unwrap(was).1 ==> Unwrap(now).1)
  {
    NullAccepted(c, fuel, was);
    NullAccepted(c, fuel, now);
  }

  lemma NullAccepted(c: Context, fuel: nat, s: Json)
    requires RequestTyped(s)
    ensures Validates(c, fuel, s, Null) <==> Unwrap(s).1
  {
    hide Validates, Unwrap, IsWrapper, Core;
    TypedParts(s);
    if Unwrap(s).0 == s {
      CoreRefusesNull(c, fuel, s);
    } else {
      WrapperTakes(c, fuel, s, Unwrap(s).0, Null);
    }
  }
}
