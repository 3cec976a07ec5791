/** Shapes the comparison cannot see into: schemas that say nothing of a value, unions, and what stands
    beside the nullable wrapper. */
module Unseen {
  import opened Json
  import opened Inlining
  import opened Validation
  import opened Compare
  import opened CompareLaws
  import opened ResponseSoundness
  import opened RequestSoundness
  import opened Gaps

  /** What stands where a reference cycle is cut. */
  function Marker(name: string): Json {
    Obj(map["$cycle" := Str(name)])
  }

  function ListOf(items: Json): Json {
    Obj(map["type" := Str("array"), "items" := items])
  }

  /** Says nothing of the value, or nothing of an array's items. */
  ghost predicate Loose(s: Json) {
    s == Obj(map[]) || s == Just("array") || exists name :: s == Marker(name)
  }

  lemma LooseTakes(c: Context, fuel: nat, s: Json, v: Json)
    requires Loose(s)
    ensures Validates(c, fuel, s, v) <==> (s == Just("array") ==> v.Arr?)
  {
    hide Validates;
    if s == Just("array") {
      JustTakes(c, fuel, "array", v);
    } else {
      NoKeywords(c, fuel, s, v);
    }
  }

  lemma LooseIsNotTyped(s: Json)
    requires Loose(s)
    ensures !Typed(s)
  {
    assert Get(s, "anyOf") == Null && Get(s, "oneOf") == Null;
    assert !Has(s, "items");
  }

  // ------------------------------------------------------------------ values of the wrong type

  /** A value of another type. */
  function Unfit(t: string): Json {
    if t == "string" then Bool(true) else Str("")
  }

  lemma UnfitMatchesNothing(t: string, u: string)
    requires t in VALUE_TYPES && u in Widen({t})
    ensures !TypeMatches(u, Unfit(t))
  {
  }

  lemma UnfitIsUnreadable(s: Json)
    requires Typed(s)
    ensures !Readable(s, Unfit(TypeOf(Unwrap(s).0)))
  {
    hide Unwrap, Types, TypeMatches, Widen, UnionMembers, ReadableInside, Shallow;
    var o := Unwrap(s).0;
    TypedParts(s);
    ShallowHasNoMembers(o);
    forall u | u in Widen(Types(o))
      ensures !TypeMatches(u, Unfit(TypeOf(o)))
    {
      UnfitMatchesNothing(TypeOf(o), u);
    }
  }

  lemma UnfitIsRefused(c: Context, fuel: nat, s: Json)
    requires Typed(s)
    ensures !Validates(c, fuel, s, Unfit(TypeOf(Unwrap(s).0)))
  {
    hide Validates, Unwrap, Types, TypeMatches;
    var o := Unwrap(s).0;
    var v := Unfit(TypeOf(o));
    TypedParts(s);
    UnfitMatchesNothing(TypeOf(o), TypeOf(o));
    if Validates(c, fuel, s, v) {
      if o != s { WrappedValue(c, fuel, s, v); }
      ValidParts(c, fuel, o, v);
    }
  }

  /** A list whose one item is of the wrong type. */
  function UnfitList(o: Json): Json
    requires Has(o, "items")
  {
    Arr([Unfit(TypeOf(Unwrap(o.fields["items"]).0))])
  }

  lemma UnfitListIsUnreadable(s: Json)
    requires Typed(s) && Has(Unwrap(s).0, "items")
    ensures !Readable(s, UnfitList(Unwrap(s).0))
  {
    TypedParts(s);
    CoreParts(Unwrap(s).0);
    hide Unwrap, Types, Shallow, Typed;
    var o := Unwrap(s).0;
    UnfitIsUnreadable(o.fields["items"]);
    var v := UnfitList(o);
    assert v.items[0] == Unfit(TypeOf(Unwrap(o.fields["items"]).0));
    assert !ReadableInside(o, v);
  }

  lemma UnfitListIsRefused(c: Context, fuel: nat, s: Json)
    requires Typed(s) && Has(Unwrap(s).0, "items")
    ensures !Validates(c, fuel, s, UnfitList(Unwrap(s).0))
  {
    hide Validates, Unwrap;
    TypedParts(s);
    var o := Unwrap(s).0;
    var v := UnfitList(o);
    CoreParts(o);
    UnfitIsRefused(c, fuel, o.fields["items"]);
    assert !Validates(c, fuel, o.fields["items"], v.items[0]);
    assert !ItemsOk(c, fuel, o, v);
    if Validates(c, fuel, s, v) {
      if o != s { WrappedValue(c, fuel, s, v); }
      ValidParts(c, fuel, o, v);
    }
  }

  // ------------------------------------------------------------------ responses that stop saying

  /** Silence in a response keeps the app reading exactly when the new schema still says what it is: not
      when it says nothing, or says an array and not of what, or was cut at a cycle. */
  lemma SilentResponseSoundExactly(c: Context, fuel: nat, was: Json, now: Json, where: string)
    requires Typed(was) && (Typed(now) || Loose(now))
    requires ResponseLines(was, now, where) == multiset{}
    ensures (forall v :: Validates(c, fuel, now, v) ==> Readable(was, v)) <==> Typed(now)
  {
    hide Validates, Readable, Typed, ResponseLines, Loose;
    if Typed(now) {
      forall v | Validates(c, fuel, now, v)
        ensures Readable(was, v)
      {
        TypedFollows(was, now);
        SilentResponseIsReadable(c, fuel, was, now, where, v);
      }
    } else {
      var v := UnreadableLoose(c, fuel, was, now, where);
    }
  }

  lemma UnreadableLoose(c: Context, fuel: nat, was: Json, now: Json, where: string) returns (v: Json)
    requires Typed(was) && Loose(now) && ResponseLines(was, now, where) == multiset{}
    ensures Validates(c, fuel, now, v) && !Readable(was, v)
  {
    hide Validates, Readable, ResponseLines, Unwrap, Types, Widen, TypeMoved, ResponseSilentInside;
    var o := Unwrap(was).0;
    if now == Just("array") {
      ArrayOrSilent(was, where);
      v := UnfitList(o);
      UnfitListIsUnreadable(was);
    } else {
      v := Unfit(TypeOf(o));
      UnfitIsUnreadable(was);
    }
    LooseTakes(c, fuel, now, v);
  }

  lemma ArrayOrSilent(was: Json, where: string)
    requires Typed(was) && ResponseLines(was, Just("array"), where) == multiset{}
    ensures Has(Unwrap(was).0, "items")
  {
    hide ResponseLines, Unwrap, Types, Just, ResponseSilentInside;
    var o := Unwrap(was).0;
    TypedParts(was);
    JustParts("array");
    ResponseSilent(was, Just("array"), where);
    assert "array" in Widen(Types(Just("array"))) - {"null"};
    assert "array" in Widen(Types(o));
  }

  /** A response that drops its type, is cut at a cycle, or drops the items of its array, is silent. */
  lemma LooseResponseUnreported(t: string, name: string, where: string)
    requires t in VALUE_TYPES
    ensures ResponseLines(Just(t), Obj(map[]), where) == multiset{}
    ensures ResponseLines(Just(t), Marker(name), where) == multiset{}
    ensures ResponseLines(ListOf(Just(t)), Just("array"), where) == multiset{}
  {
    hide ResponseLines, Unwrap, Types, TypeMoved, Just;
    assert t != "null";
    JustParts(t);
    JustParts("array");
    ListParts(Just(t));
    EmptyParts();
    ResponseSilent(Just(t), Obj(map[]), where);
    ResponseSilent(ListOf(Just(t)), Just("array"), where);
    NoTypeMoved(Just(t));
    SameTypeStays(ListOf(Just(t)), Just("array"));
    assert ResponseLines(Just(t), Marker(name), where) == multiset{} by { CutIsSilent(Just(t), Marker(name), where); }
  }

  lemma CutIsSilent(was: Json, now: Json, where: string)
    requires Cut(was, now)
    ensures ResponseLines(was, now, where) == multiset{} && RequestLines(was, now, where) == multiset{}
  {
  }

  lemma EmptyParts()
    ensures Unwrap(Obj(map[])) == (Obj(map[]), false) && Types(Obj(map[])) == {}
    ensures Bare(Obj(map[]))
  {
    assert Get(Obj(map[]), "type") == Null && ListAt(Obj(map[]), "oneOf") == [];
  }

  lemma ListParts(items: Json)
    ensures Unwrap(ListOf(items)) == (ListOf(items), false) && Types(ListOf(items)) == {"array"}
    ensures !Has(ListOf(items), "$cycle") && Bare(ListOf(items))
  {
  }

  lemma NoTypeMoved(o: Json)
    ensures !TypeMoved(o, Obj(map[]))
  {
    EmptyParts();
    WidenNothing();
  }

  lemma SameTypeStays(o: Json, n: Json)
    requires Types(o) == Types(n)
    ensures !TypeMoved(o, n)
  {
    hide Types;
  }

  // ------------------------------------------------------------------ requests that start saying

  /** Silence in a request keeps the app's values accepted exactly when the old schema said what it took:
      not when it took anything, or any array, or was cut at a cycle. */
  lemma SilentRequestSoundExactly(c: Context, fuel: nat, was: Json, now: Json, where: string)
    requires RequestTyped(now) && ((RequestTyped(was) && Compatible(was, now)) || Loose(was))
    requires RequestLines(was, now, where) == multiset{}
    ensures (forall v :: Validates(c, fuel, was, v) && DeclaredOnly(c, fuel, was, v) ==> Validates(c, fuel, now, v)) <==> RequestTyped(was)
  {
    hide Validates, RequestTyped, RequestLines, Loose, Compatible, DeclaredOnly;
    if RequestTyped(was) {
      assert Compatible(was, now) by {
        if Loose(was) { TypedIsNotLoose(was); }
      }
      forall v | Validates(c, fuel, was, v) && DeclaredOnly(c, fuel, was, v)
        ensures Validates(c, fuel, now, v)
      {
        TypedServes(was, now);
        SilentRequestIsAccepted(c, fuel, was, now, where, v);
      }
    } else {
      var v := RefusedLoose(c, fuel, was, now, where);
    }
  }

  lemma TypedIsNotLoose(s: Json)
    requires RequestTyped(s)
    ensures !Loose(s)
  {
    hide Loose, Typed;
    if Loose(s) { LooseIsNotTyped(s); }
  }

  lemma RefusedLoose(c: Context, fuel: nat, was: Json, now: Json, where: string) returns (v: Json)
    requires Loose(was) && RequestTyped(now) && RequestLines(was, now, where) == multiset{}
    ensures Validates(c, fuel, was, v) && DeclaredOnly(c, fuel, was, v) && !Validates(c, fuel, now, v)
  {
    hide Validates, RequestLines, Unwrap, Types;
    var n := Unwrap(now).0;
    if was == Just("array") {
      ArrayStays(now, where);
      v := UnfitList(n);
      UnfitListIsRefused(c, fuel, now);
    } else {
      v := Unfit(TypeOf(n));
      UnfitIsRefused(c, fuel, now);
    }
    LooseTakes(c, fuel, was, v);
    LooseDeclares(c, fuel, was, v);
  }

  lemma LooseDeclares(c: Context, fuel: nat, s: Json, v: Json)
    requires Loose(s) && !v.Obj?
    ensures DeclaredOnly(c, fuel, s, v)
  {
    assert Get(s, "anyOf") == Null && Get(s, "oneOf") == Null;
    assert Unwrap(s).0 == s && !Has(s, "items") && !Union(s);
  }

  lemma ArrayStays(now: Json, where: string)
    requires Typed(now) && RequestLines(Just("array"), now, where) == multiset{}
    ensures Has(Unwrap(now).0, "items")
  {
    hide RequestLines, Unwrap, Types, Just, RequestSilentInside;
    var n := Unwrap(now).0;
    TypedParts(now);
    JustParts("array");
    RequestSilent(Just("array"), now, where);
    assert "array" in Widen(Types(Just("array")));
    assert "array" in Widen(Types(n));
  }

  /** A request that starts to ask for a type, or to say what an array holds, is silent. */
  lemma LooseRequestUnreported(t: string, name: string, where: string)
    requires t in VALUE_TYPES
    ensures RequestLines(Obj(map[]), Just(t), where) == multiset{}
    ensures RequestLines(Marker(name), Just(t), where) == multiset{}
    ensures RequestLines(Just("array"), ListOf(Just(t)), where) == multiset{}
  {
    hide RequestLines, Unwrap, Types, Widen, Just;
    assert t != "null";
    JustParts(t);
    JustParts("array");
    ListParts(Just(t));
    EmptyParts();
    WidenNothing();
    CutIsSilent(Marker(name), Just(t), where);
    JustIsBare(t);
    JustIsBare("array");
    OnlyTypesCompared(Obj(map[]), Just(t), where);
    OnlyTypesCompared(Just("array"), ListOf(Just(t)), where);
  }

  // ------------------------------------------------------------------ unions, and what only types decide

  /** No keyword the comparison looks at but the type names. */
  predicate Bare(s: Json) {
    && s.Obj? && !Has(s, "$cycle") && !Has(s, "properties") && !Has(s, "enum") && !Has(s, "pattern") && !Has(s, "required")
    && !Has(s, "maxLength") && !Has(s, "minLength") && !Has(s, "maximum") && !Has(s, "minimum")
  }

  lemma JustIsBare(t: string)
    ensures Bare(Just(t)) && !Has(Just(t), "items")
  {
  }

  /** Between bare schemas, outside the nullable wrapper, a request comparison looks at type names only,
      whatever the members of a union go on to say. */
  lemma OnlyTypesCompared(was: Json, now: Json, where: string)
    requires Bare(was) && Bare(now) && Unwrap(was).0 == was && Unwrap(now).0 == now
    requires !(Has(was, "items") && Has(now, "items"))
    ensures RequestLines(was, now, where) == multiset{} <==>
            (Widen(Types(was)) != {} && Widen(Types(now)) != {} ==> Widen(Types(was)) <= Widen(Types(now)))
  {
    hide RequestLines, Unwrap, Types, Widen, PyIn, Tighter, Requires;
    RequestSilent(was, now, where);
  }

  /** A text of at most so many characters. */
  function Capped(most: nat): Json {
    Obj(map["type" := Str("string"), "maxLength" := Num(most as real)])
  }

  lemma CappedTakes(c: Context, fuel: nat, most: nat, v: Json)
    ensures Core(Capped(most)) && Shallow(Capped(most))
    ensures Validates(c, fuel, Capped(most), v) <==> v.Str? && |v.s| <= most
  {
  }

  function Pair(first: Json, second: Json): Json {
    UnionOf([first, second])
  }

  lemma PairParts(a: Json, b: Json)
    requires Get(a, "type") != Str("null") && Get(b, "type") != Str("null")
    ensures var s := Pair(a, b);
      && Bare(s) && !Has(s, "items") && Unwrap(s).0 == s && Types(s) == Types(a) + Types(b)
  {
    hide Types;
    PairIsNoWrapper(a, b);
    PairTypes(a, b);
    hide NonNull;
    assert forall k :: k != "anyOf" ==> !Has(Pair(a, b), k);
  }

  lemma PairIsNoWrapper(a: Json, b: Json)
    requires Get(a, "type") != Str("null") && Get(b, "type") != Str("null")
    ensures Unwrap(Pair(a, b)).0 == Pair(a, b)
  {
    hide NonNull;
    var s, members := Pair(a, b), [a, b];
    assert ListAt(s, "anyOf") == members && Get(s, "oneOf") == Null;
    assert members[0] == a && members[1] == b;
    CountNonNull(members);
  }

  lemma PairTypes(a: Json, b: Json)
    ensures Types(Pair(a, b)) == Types(a) + Types(b)
  {
    var s, members := Pair(a, b), [a, b];
    assert Get(s, "anyOf") == Arr(members) && Truthy(Arr(members)) && Get(s, "type") == Null && ListAt(s, "anyOf") == members;
    assert members[0] == a && members[1] == b;
    assert forall t :: t in Types(s) <==> exists i :: 0 <= i < 2 && t in Types(members[i]);
  }

  lemma PairRefuses(c: Context, fuel: nat, a: Json, b: Json, v: Json)
    requires !Validates(c, fuel, a, v) && !Validates(c, fuel, b, v)
    ensures !Validates(c, fuel, Pair(a, b), v)
  {
    hide Validates;
    if Validates(c, fuel, Pair(a, b), v) {
      var i := MemberTaking(c, fuel, Pair(a, b), "anyOf", v);
    }
  }

  /** A limit put on one member of a union is silent, and some text is refused. */
  lemma UnionMemberUnreported(c: Context, fuel: nat, most: nat, where: string) returns (v: Json)
    ensures RequestLines(Pair(Just("string"), Just("boolean")), Pair(Capped(most), Just("boolean")), where) == multiset{}
    ensures Validates(c, fuel, Pair(Just("string"), Just("boolean")), v)
    ensures !Validates(c, fuel, Pair(Capped(most), Just("boolean")), v)
  {
    hide Validates, RequestLines, Types, Widen, Unwrap, Just, Capped;
    v := LongText(most);
    JustParts("string");
    JustParts("boolean");
    CappedParts(most);
    JustTyped("string");
    JustTyped("boolean");
    PairParts(Just("string"), Just("boolean"));
    PairParts(Capped(most), Just("boolean"));
    OnlyTypesCompared(Pair(Just("string"), Just("boolean")), Pair(Capped(most), Just("boolean")), where);
    JustTakes(c, fuel, "string", v);
    JustTakes(c, fuel, "boolean", v);
    CappedTakes(c, fuel, most, v);
    PairTakes(c, fuel, Pair(Just("string"), Just("boolean")), "anyOf", [Just("string"), Just("boolean")], 0, v);
    PairRefuses(c, fuel, Capped(most), Just("boolean"), v);
  }

  lemma JustTyped(t: string)
    ensures Get(Just(t), "type") == Str(t)
  {
  }

  lemma CappedParts(most: nat)
    ensures Types(Capped(most)) == {"string"} && Get(Capped(most), "type") == Str("string")
  {
  }

  /** A text of one character more. */
  function LongText(most: nat): Json {
    Str(seq(most + 1, _ => 'x'))
  }

  // ------------------------------------------------------------------ null in a list of types

  function NullableList(t: string): Json {
    Obj(map["type" := Arr([Str(t), Str("null")])])
  }

  /** Null written into a list of types is not seen: silence keeps the app reading exactly when it
      expected null, and the type is not an array, whose items the list form does not give. */
  lemma ListNullExactly(c: Context, fuel: nat, was: Json, t: string, where: string)
    requires Typed(was) && t in VALUE_TYPES && ResponseLines(was, NullableList(t), where) == multiset{}
    ensures (forall v :: Validates(c, fuel, NullableList(t), v) ==> Readable(was, v)) <==> Unwrap(was).1 && t != "array"
  {
    hide Validates, Readable, ResponseLines, Unwrap, Types, Widen, NullableList;
    var now := NullableList(t);
    var o := Unwrap(was).0;
    TypedParts(was);
    NullableListParts(t);
    ResponseSilent(was, now, where);
    StillOfThatType(o, t);
    if !Unwrap(was).1 {
      NullableListTakes(c, fuel, t, Null);
      NullReadable(was);
    } else if t == "array" {
      var v := UnfitList(o);
      NullableListTakes(c, fuel, t, v);
      UnfitListIsUnreadable(was);
    } else {
      forall v | Validates(c, fuel, now, v)
        ensures Readable(was, v)
      {
        NullableListTakes(c, fuel, t, v);
        FlatReadable(was, t, v);
      }
    }
  }

  lemma NullableListParts(t: string)
    ensures var s := NullableList(t);
      && Unwrap(s) == (s, false) && Types(s) == {t, "null"} && !Has(s, "$cycle") && !Has(s, "properties") && !Has(s, "items")
  {
    var kinds := [Str(t), Str("null")];
    assert Get(NullableList(t), "type") == Arr(kinds) && kinds[0] == Str(t) && kinds[1] == Str("null");
  }

  lemma NullableListTakes(c: Context, fuel: nat, t: string, v: Json)
    ensures Validates(c, fuel, NullableList(t), v) <==> v == Null || TypeMatches(t, v)
  {
    var s, kinds := NullableList(t), [Str(t), Str("null")];
    assert forall k :: k != "type" ==> !Has(s, k);
    assert Get(s, "type") == Arr(kinds) && kinds[0] == Str(t) && kinds[1] == Str("null");
    assert TypeOk(s, v) <==> TypeMatches(t, v) || TypeMatches("null", v);
  }

  lemma NullReadable(was: Json)
    requires Typed(was)
    ensures Readable(was, Null) <==> Unwrap(was).1
  {
    hide Unwrap, Types, Widen, UnionMembers, Shallow, ReadableInside;
    TypedParts(was);
    ShallowHasNoMembers(Unwrap(was).0);
    NullIsNoType(TypeOf(Unwrap(was).0));
  }

  lemma NullIsNoType(t: string)
    requires t in VALUE_TYPES
    ensures forall u :: u in Widen({t}) ==> !TypeMatches(u, Null)
  {
    assert "null" !in VALUE_TYPES;
  }

  /** The new type is one the old core is read as; an array has its items. */
  lemma StillOfThatType(o: Json, t: string)
    requires Shallow(o) && Types(o) == {TypeOf(o)} && TypeOf(o) in VALUE_TYPES && t in VALUE_TYPES
    requires !TypeMoved(o, NullableList(t))
    ensures t in Widen(Types(o)) && (t == "array" <==> Has(o, "items"))
  {
    hide Types;
    NullableListParts(t);
    assert t != "null";
    assert t in Widen(Types(NullableList(t))) - {"null"};
  }

  lemma FlatReadable(was: Json, t: string, v: Json)
    requires Typed(was) && Unwrap(was).1 && DictAt(Unwrap(was).0, "properties") == map[] && !Has(Unwrap(was).0, "items")
    requires t in Widen(Types(Unwrap(was).0)) && (v == Null || TypeMatches(t, v))
    ensures Readable(was, v)
  {
    hide Unwrap, Types, Widen, TypeMatches, UnionMembers, Shallow;
    TypedParts(was);
    ShallowHasNoMembers(Unwrap(was).0);
  }

  // ------------------------------------------------------------------ beside the wrapper

  /** Whatever stands beside the nullable wrapper is compared by nothing. */
  lemma BesideWrapperUnseen(was: Json, a: Json, b: Json, where: string)
    requires Unwrap(a) == Unwrap(b) && !Has(a, "$cycle") && !Has(b, "$cycle")
    ensures RequestLines(was, a, where) == RequestLines(was, b, where) && RequestLines(a, was, where) == RequestLines(b, was, where)
    ensures ResponseLines(was, a, where) == ResponseLines(was, b, where) && ResponseLines(a, was, where) == ResponseLines(b, was, where)
  {
    hide Unwrap, RequestLines, ResponseLines, RequestUnwrapped, ResponseUnwrapped;
    Unfolds(was, a, where);
    Unfolds(was, b, where);
    Unfolds(a, was, where);
    Unfolds(b, was, where);
  }

  /** The lines between two schemas out of their wrappers. */
  ghost function RequestUnwrapped(o: Json, n: Json, where: string): multiset<Line> {
    RequestHere(o, n, where) + RequestInside(o, n, where)
  }

  ghost function ResponseUnwrapped(o: (Json, bool), n: (Json, bool), where: string): multiset<Line> {
    When(n.1 && !o.1, Line(where, NowNull)) +
    if TypeMoved(o.0, n.0) then multiset{Line(where, TypeChanged(Widen(Types(o.0)), Widen(Types(n.0))))}
    else ResponseInside(o.0, n.0, where)
  }

  /** A comparison depends on what its schemas unwrap to, and on whether either was cut. */
  lemma Unfolds(was: Json, now: Json, where: string)
    ensures RequestLines(was, now, where) == if Cut(was, now) then multiset{} else RequestUnwrapped(Unwrap(was).0, Unwrap(now).0, where)
    ensures ResponseLines(was, now, where) == if Cut(was, now) then multiset{} else ResponseUnwrapped(Unwrap(was), Unwrap(now), where)
  {
    hide Unwrap, TypeMoved, ResponseInside, RequestHere, RequestInside, Types, Widen, When;
  }

  /** The nullable text of at most `inner` characters, with a limit of `outer` written beside the wrapper. */
  function Beside(inner: nat, outer: nat): Json {
    Obj(map["anyOf" := Arr([Capped(inner), NULL_SCHEMA]), "maxLength" := Num(outer as real)])
  }

  /** A limit beside the wrapper is silent, and keeps every value accepted exactly when it is no tighter
      than the limit inside. */
  lemma BesideLimitExactly(c: Context, fuel: nat, inner: nat, outer: nat, where: string)
    ensures RequestLines(Pair(Capped(inner), NULL_SCHEMA), Beside(inner, outer), where) == multiset{}
    ensures (forall v :: Validates(c, fuel, Pair(Capped(inner), NULL_SCHEMA), v) ==> Validates(c, fuel, Beside(inner, outer), v))
            <==> inner <= outer
  {
    hide Validates, RequestLines, Unwrap, Beside, Pair, Capped;
    var was, now := Pair(Capped(inner), NULL_SCHEMA), Beside(inner, outer);
    BesideParts(inner, outer);
    RequestSame(was, where);
    BesideWrapperUnseen(was, was, now, where);
    if inner <= outer {
      forall v | Validates(c, fuel, was, v)
        ensures Validates(c, fuel, now, v)
      {
        PairCappedTakes(c, fuel, inner, v);
        BesideTakes(c, fuel, inner, outer, v);
      }
    } else {
      var v := LongText(inner - 1);
      PairCappedTakes(c, fuel, inner, v);
      BesideTakes(c, fuel, inner, outer, v);
    }
  }

  lemma BesideParts(inner: nat, outer: nat)
    ensures var s, bare := Beside(inner, outer), Pair(Capped(inner), NULL_SCHEMA);
      && !Has(s, "$cycle") && !Has(bare, "$cycle") && Unwrap(s) == Unwrap(bare) == (Capped(inner), true)
      && IsWrapper(bare, Capped(inner))
  {
    var members := [Capped(inner), NULL_SCHEMA];
    assert Get(Beside(inner, outer), "anyOf") == Arr(members) && Get(Pair(Capped(inner), NULL_SCHEMA), "anyOf") == Arr(members);
    CappedParts(inner);
    assert Get(members[0], "type") == Str("string") && Get(members[1], "type") == Str("null");
    assert NonNull(members[1..]) == [];
    assert NonNull(members) == [Capped(inner)];
  }

  lemma PairCappedTakes(c: Context, fuel: nat, inner: nat, v: Json)
    ensures Validates(c, fuel, Pair(Capped(inner), NULL_SCHEMA), v) <==> v == Null || (v.Str? && |v.s| <= inner)
  {
    hide Validates, Unwrap, Pair, Capped;
    var s := Pair(Capped(inner), NULL_SCHEMA);
    BesideParts(inner, 0);
    CappedTakes(c, fuel, inner, v);
    if v == Null || Validates(c, fuel, Capped(inner), v) {
      WrapperTakes(c, fuel, s, Capped(inner), v);
    } else if Validates(c, fuel, s, v) {
      NotItself(inner);
      WrappedValue(c, fuel, s, v);
    }
  }

  lemma NotItself(inner: nat)
    ensures Pair(Capped(inner), NULL_SCHEMA) != Capped(inner)
  {
    assert Has(Pair(Capped(inner), NULL_SCHEMA), "anyOf") && !Has(Capped(inner), "anyOf");
  }

  /** The limit beside the wrapper counts too. */
  lemma BesideTakes(c: Context, fuel: nat, inner: nat, outer: nat, v: Json)
    ensures Validates(c, fuel, Beside(inner, outer), v) <==>
            Validates(c, fuel, Pair(Capped(inner), NULL_SCHEMA), v) && (v.Str? ==> |v.s| <= outer)
  {
    hide TypeMatches, AnyOk, Capped, NULL_SCHEMA;
    var s, bare := Beside(inner, outer), Pair(Capped(inner), NULL_SCHEMA);
    UnionOnly(c, fuel, bare, v);
    assert !Has(bare, "oneOf") && !Has(s, "oneOf") && Get(bare, "anyOf") == Get(s, "anyOf");
    BesideAsserts(c, inner, outer, v);
    SameAny(c, fuel, s, bare, v);
    hide Assertions, Pair;
    assert forall k :: k != "anyOf" && k != "maxLength" ==> !Has(s, k);
  }

  lemma BesideAsserts(c: Context, inner: nat, outer: nat, v: Json)
    ensures Assertions(c, Beside(inner, outer), v) <==> (v.Str? ==> |v.s| <= outer)
  {
    hide TypeMatches, Capped, NULL_SCHEMA;
    var s := Beside(inner, outer);
    assert Get(s, "maxLength") == Num(outer as real);
    assert forall k :: k != "anyOf" && k != "maxLength" ==> !Has(s, k);
  }

  lemma SameAny(c: Context, fuel: nat, s: Json, t: Json, v: Json)
    requires Get(s, "anyOf") == Get(t, "anyOf")
    ensures AnyOk(c, fuel, s, v) == AnyOk(c, fuel, t, v)
  {
    hide Validates;
    assert ListAt(s, "anyOf") == ListAt(t, "anyOf");
  }

  // ------------------------------------------------------------------ integers

  /** An integer field that becomes a number is silent, and now holds fractions. */
  lemma IntegerWidenedUnreported(c: Context, fuel: nat, where: string)
    ensures ResponseLines(Just("integer"), Just("number"), where) == multiset{}
    ensures Validates(c, fuel, Just("number"), Num(0.5)) && !TypeMatches("integer", Num(0.5))
  {
    hide ResponseLines, Validates, Unwrap, Types, Just, Requires;
    JustParts("integer");
    JustParts("number");
    JustTakes(c, fuel, "number", Num(0.5));
    NothingInside(Just("integer"), Just("number"), where);
    ResponseSilent(Just("integer"), Just("number"), where);
  }
}
