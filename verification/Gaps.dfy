/** Where silence is worth less than it seems: keywords the comparison leaves out, with one input each, and
    for null in a response the exact guard. */
module Gaps {
  import opened Json
  import opened Inlining
  import opened Validation
  import opened Compare
  import opened CompareLaws
  import opened ResponseSoundness
  import opened RequestSoundness

  /** The schema of one type and nothing else. */
  function Just(t: string): Json {
    Obj(map["type" := Str(t)])
  }

  lemma JustTakes(c: Context, fuel: nat, t: string, v: Json)
    ensures Validates(c, fuel, Just(t), v) <==> TypeMatches(t, v)
  {
    var s := Just(t);
    assert forall k :: k != "type" ==> !Has(s, k);
    assert TypeOk(s, v) == TypeMatches(t, v);
  }

  lemma JustParts(t: string)
    ensures var s := Just(t);
      && (t != "null" ==> Unwrap(s) == (s, false)) && Types(s) == {t}
      && Only(s, "type")
  {
  }

  /** The schema has no other keyword. */
  ghost predicate Only(s: Json, key: string) {
    forall k :: k != key ==> !Has(s, k)
  }

  lemma NothingInside(o: Json, n: Json, where: string)
    requires Only(o, "type") && Only(n, "type")
    ensures RequestSilentInside(o, n, where) && ResponseSilentInside(o, n, where)
  {
    hide RequestLines, ResponseLines, Requires;
    assert !Has(o, "properties") && !Has(o, "items");
  }

  lemma NothingHere(o: Json, n: Json)
    requires Only(o, "type") && Only(n, "type") && Widen(Types(o)) <= Widen(Types(n))
    ensures RequestSilentHere(o, n)
  {
    hide Types, Widen, PyIn, Tighter, Requires;
    assert !Has(n, "required") && !Has(n, "enum") && !Has(n, "pattern");
    assert !Has(n, "maxLength") && !Has(n, "minLength") && !Has(n, "maximum") && !Has(n, "minimum");
  }

  /** With nothing but types on both sides, only types are compared. */
  lemma JustTypes(t: string, u: string, where: string)
    requires Widen({t}) <= Widen({u}) && t != "null" && u != "null"
    ensures RequestLines(Just(t), Just(u), where) == multiset{}
  {
    hide RequestLines, Unwrap, Types, Widen, RequestSilentHere, RequestSilentInside, Just;
    JustParts(t);
    JustParts(u);
    assert !Cut(Just(t), Just(u));
    RequestSilent(Just(t), Just(u), where);
    NothingHere(Just(t), Just(u));
    NothingInside(Just(t), Just(u), where);
  }

  /** A number turned integer in a request is not reported. */
  lemma NumberNarrowedUnreported(c: Context, fuel: nat, where: string)
    ensures RequestLines(Just("number"), Just("integer"), where) == multiset{}
    ensures Validates(c, fuel, Just("number"), Num(0.5)) && !Validates(c, fuel, Just("integer"), Num(0.5))
  {
    JustTypes("number", "integer", where);
    JustTakes(c, fuel, "number", Num(0.5));
    JustTakes(c, fuel, "integer", Num(0.5));
  }

  function Optional(t: string): Json {
    Obj(map["anyOf" := Arr([Just(t), NULL_SCHEMA])])
  }

  /** A request field that stops taking null is not reported. */
  lemma NullDroppedUnreported(c: Context, fuel: nat, t: string, where: string)
    requires t in VALUE_TYPES
    ensures RequestLines(Optional(t), Just(t), where) == multiset{}
    ensures Validates(c, fuel, Optional(t), Null) && !Validates(c, fuel, Just(t), Null)
  {
    hide RequestLines, Unwrap, Types, RequestSilentHere, RequestSilentInside, Validates, Just, NULL_SCHEMA;
    assert t != "null";
    JustParts(t);
    JustTakes(c, fuel, t, Null);
    OptionalParts(t);
    NullSchemaTakesNull(c, fuel, Null);
    PairTakes(c, fuel, Optional(t), "anyOf", [Just(t), NULL_SCHEMA], 1, Null);
    assert !Cut(Optional(t), Just(t));
    RequestSilent(Optional(t), Just(t), where);
    NothingHere(Just(t), Just(t));
    NothingInside(Just(t), Just(t), where);
  }

  lemma OptionalParts(t: string)
    requires t != "null"
    ensures Unwrap(Optional(t)) == (Just(t), true) && !Has(Optional(t), "$cycle")
  {
    var members := [Just(t), NULL_SCHEMA];
    assert ListAt(Optional(t), "anyOf") == members;
    assert Get(Just(t), "type") == Str(t);
    assert NonNull(members[1..]) == [];
    assert NonNull(members) == [Just(t)];
  }

  /** The schema of one enum and nothing else. */
  function Choice(values: seq<Json>): Json {
    Obj(map["enum" := Arr(values)])
  }

  lemma ChoiceParts(c: Context, fuel: nat, values: seq<Json>, v: Json)
    ensures Only(Choice(values), "enum") && ListAt(Choice(values), "enum") == values
    ensures Validates(c, fuel, Choice(values), v) <==> v in values
  {
    hide TypeMatches;
    var s := Choice(values);
    assert forall k :: k != "enum" ==> !Has(s, k);
    assert Get(s, "enum") == Arr(values);
    assert EnumOk(s, v) == (v in values);
  }

  /** Two enums are compared in Python's equality, in which True is 1: an enum that swaps one for the
      other is not reported. */
  lemma BooleanSwappedUnreported(c: Context, fuel: nat, where: string)
    ensures RequestLines(Choice([Bool(true)]), Choice([Num(1.0)]), where) == multiset{}
    ensures Validates(c, fuel, Choice([Bool(true)]), Bool(true)) && !Validates(c, fuel, Choice([Num(1.0)]), Bool(true))
  {
    hide RequestLines, Validates, Choice;
    ChoiceParts(c, fuel, [Bool(true)], Bool(true));
    ChoiceParts(c, fuel, [Num(1.0)], Bool(true));
    var o, n := Choice([Bool(true)]), Choice([Num(1.0)]);
    assert Get(o, "anyOf") == Null && Get(n, "anyOf") == Null && Get(o, "oneOf") == Null && Get(n, "oneOf") == Null;
    assert Unwrap(o).0 == o && Unwrap(n).0 == n;
    assert !Cut(o, n);
    RequestSilent(o, n, where);
    EnumsInside(o, n, where);
    assert PyNormal(Bool(true)) == PyNormal([Num(1.0)][0]);
  }

  lemma EnumsInside(o: Json, n: Json, where: string)
    requires Only(o, "enum") && Only(n, "enum")
    ensures RequestSilentInside(o, n, where)
    ensures (forall v :: v in ListAt(o, "enum") ==> PyIn(v, ListAt(n, "enum"))) ==> RequestSilentHere(o, n)
  {
    hide RequestLines, Widen, PyIn, Tighter, Requires;
    assert !Has(o, "properties") && !Has(o, "items");
    assert Get(o, "type") == Null && ListAt(o, "anyOf") == [] && ListAt(o, "oneOf") == [] && Types(o) == {} by {
      assert !Has(o, "type") && !Has(o, "anyOf") && !Has(o, "oneOf");
    }
    assert Widen({}) == {} by { assert "integer" !in {}; WidenNothing(); }
    assert !Has(n, "required") && !Has(n, "pattern");
    assert !Has(n, "maxLength") && !Has(n, "minLength") && !Has(n, "maximum") && !Has(n, "minimum");
  }

  lemma WidenNothing()
    ensures Widen({}) == {}
  {
  }

  /** An enum appearing where none was is not reported. */
  lemma EnumAppearedUnreported(c: Context, fuel: nat, values: seq<Json>, where: string) returns (v: Json)
    ensures RequestLines(Obj(map[]), Choice(values), where) == multiset{}
    ensures Validates(c, fuel, Obj(map[]), v) && !Validates(c, fuel, Choice(values), v)
  {
    hide RequestLines, Validates, Choice;
    var s := FreshText(values);
    v := Str(s);
    EmptyAccepts(c, fuel, v);
    ChoiceParts(c, fuel, values, v);
    var o, n := Obj(map[]), Choice(values);
    assert Get(n, "anyOf") == Null && Get(n, "oneOf") == Null;
    assert Unwrap(o).0 == o && Unwrap(n).0 == n;
    assert !Cut(o, n);
    RequestSilent(o, n, where);
    EnumsInside(o, n, where);
  }

  // ------------------------------------------------------------------ null in a response

  /** A union of at least one member, each of one type, and nothing beside it. */
  ghost predicate TypedUnion(s: Json) {
    && Only(s, "anyOf") && Get(s, "anyOf").Arr?
    && forall i :: 0 <= i < |ListAt(s, "anyOf")| ==> Get(ListAt(s, "anyOf")[i], "type").Str?
  }

  lemma {:induction false} CountNonNull(members: seq<Json>)
    requires |members| == 2
    ensures |NonNull(members)| == (if Get(members[0], "type") != Str("null") then 1 else 0) +
                                  (if Get(members[1], "type") != Str("null") then 1 else 0)
  {
    assert NonNull(members[1..][1..]) == [];
    assert |NonNull(members[1..])| == if Get(members[1], "type") != Str("null") then 1 else 0;
  }

  /** A union that admits null is seen to, exactly when it has two members and not both are null. */
  lemma NullSeenExactly(c: Context, fuel: nat, s: Json)
    requires TypedUnion(s) && Validates(c, fuel, s, Null)
    ensures Unwrap(s).1 <==>
            var members := ListAt(s, "anyOf");
            |members| == 2 && !(Get(members[0], "type") == Get(members[1], "type") == Str("null"))
  {
    hide Validates, NonNull;
    var members := ListAt(s, "anyOf");
    assert !Has(s, "type") && !Has(s, "oneOf");
    var i := MemberTaking(c, fuel, s, "anyOf", Null);
    NullMember(c, fuel, members[i]);
    if |members| == 2 {
      CountNonNull(members);
    }
  }

  lemma NullMember(c: Context, fuel: nat, s: Json)
    requires Get(s, "type").Str? && Validates(c, fuel, s, Null)
    ensures Get(s, "type") == Str("null")
  {
    assert TypeOk(s, Null);
  }

  /** `[t, t, null]`: a union of three. */
  function WideUnion(t: string): Json {
    Obj(map["anyOf" := Arr([Just(t), Just(t), NULL_SCHEMA])])
  }

  lemma WideUnionTakesNull(c: Context, fuel: nat, t: string)
    ensures Validates(c, fuel, WideUnion(t), Null)
  {
    hide Validates, Just, NULL_SCHEMA;
    var s := WideUnion(t);
    UnionOnly(c, fuel, s, Null);
    NullSchemaTakesNull(c, fuel, Null);
    assert Get(s, "anyOf") == Arr([Just(t), Just(t), NULL_SCHEMA]) && !Has(s, "oneOf");
    assert Validates(c, fuel, ListAt(s, "anyOf")[2], Null);
  }

  lemma UnguardedNull(t: string)
    requires t != "null"
    ensures !Readable(Just(t), Null)
  {
    hide Just, Unwrap, Types;
    JustParts(t);
    JustHasNoMembers(t);
  }

  lemma JustHasNoMembers(t: string)
    ensures UnionMembers(Just(t)) == []
  {
  }

  /** A response whose union of three gains null is not reported, and an app that reads it unguarded
      meets null. */
  lemma NullInWideUnionUnreported(c: Context, fuel: nat, t: string, where: string)
    requires t in VALUE_TYPES
    ensures ResponseLines(Just(t), WideUnion(t), where) == multiset{}
    ensures Validates(c, fuel, WideUnion(t), Null) && !Readable(Just(t), Null)
  {
    hide ResponseLines, Validates, Just, WideUnion, Readable, Unwrap, Types;
    assert t != "null";
    JustParts(t);
    WideUnionParts(t);
    WideUnionTakesNull(c, fuel, t);
    UnguardedNull(t);
    var o, n := Just(t), WideUnion(t);
    assert !Cut(o, n);
    ResponseSilent(o, n, where);
    assert Widen(Types(n)) - {"null"} - Widen(Types(o)) == {};
    assert !TypeMoved(o, n);
    assert !Has(o, "properties") && !Has(o, "items");
  }

  lemma WideUnionParts(t: string)
    requires t != "null"
    ensures var s := WideUnion(t);
      && Unwrap(s) == (s, false) && Types(s) == {t, "null"}
      && ListAt(s, "anyOf") == [Just(t), Just(t), NULL_SCHEMA] && Only(s, "anyOf")
  {
    var s := WideUnion(t);
    var members := [Just(t), Just(t), NULL_SCHEMA];
    assert Get(s, "anyOf") == Arr(members);
    JustParts(t);
    assert Types(members[0]) == {t} && Types(members[1]) == {t} && Types(members[2]) == {"null"};
    assert forall i :: 0 <= i < 3 ==> Types(members[i]) <= {t, "null"};
    assert t in Types(members[0]) && "null" in Types(members[2]);
  }
}
