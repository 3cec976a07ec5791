/** A response comparison that reports nothing keeps an installed app reading. */
module ResponseSoundness {
  import opened Json
  import opened Validation
  import opened Compare
  import opened CompareLaws

  const VALUE_TYPES: set<string> := {"boolean", "number", "integer", "string", "array", "object"}

  /** A schema of one non-null type, with `items` exactly on arrays. */
  predicate Shallow(s: Json) {
    && s.Obj? && !Has(s, "$cycle") && !Has(s, "anyOf") && !Has(s, "oneOf")
    && Get(s, "type").Str? && Get(s, "type").s in VALUE_TYPES
    && (Get(s, "type").s == "array" <==> Has(s, "items"))
  }

  /** The same all the way down. */
  ghost predicate Core(s: Json)
    decreases s, 0
  {
    && Shallow(s)
    && (Has(s, "items") ==> Typed(s.fields["items"]))
    && (forall name :: name in DictAt(s, "properties") ==> Typed(DictAt(s, "properties")[name]))
  }

  /** Null only through the two-member wrapper. */
  ghost predicate Typed(s: Json)
    decreases s, 1
  {
    && !Has(s, "$cycle")
    && (Core(s) || (Unwrap(s).0 != s && Core(Unwrap(s).0)))
  }

  function TypeOf(core: Json): string {
    Text(Get(core, "type"))
  }

  /** What a schema of one type is to the comparison, out of its wrapper if it has one. */
  lemma ShallowParts(s: Json)
    requires Shallow(Unwrap(s).0)
    ensures var (o, oNull) := Unwrap(s);
      && Types(o) == {TypeOf(o)} && TypeOf(o) in VALUE_TYPES && (o == s || oNull) && (o == s ==> !oNull)
  {
    assert "null" !in VALUE_TYPES;
  }

  lemma CoreParts(s: Json)
    requires Core(s)
    ensures Shallow(s)
    ensures Has(s, "items") ==> Typed(s.fields["items"])
    ensures forall name :: name in DictAt(s, "properties") ==> Typed(DictAt(s, "properties")[name])
  {
  }

  lemma TypedCore(s: Json)
    requires Typed(s)
    ensures Core(Unwrap(s).0) && !Has(s, "$cycle")
  {
    if Core(s) {
      assert Unwrap(s).0 == s by { CoreParts(s); }
    }
  }

  lemma TypedParts(s: Json)
    requires Typed(s)
    ensures var (o, oNull) := Unwrap(s);
      && Core(o) && Shallow(o) && Types(o) == {TypeOf(o)} && TypeOf(o) in VALUE_TYPES
      && (o == s || oNull) && (o == s ==> !oNull)
  {
    TypedCore(s);
    CoreParts(Unwrap(s).0);
    ShallowParts(s);
  }

  lemma NullTyped(c: Context, fuel: nat, s: Json, v: Json)
    requires Get(s, "type") == Str("null") && Validates(c, fuel, s, v)
    ensures v == Null
  {
    assert TypeOk(s, v);
  }

  /** Of the members of a wrapper, only the wrapped one takes a value that is not null. */
  lemma OnlyMember(c: Context, fuel: nat, s: Json, key: string, i: nat, v: Json)
    requires Wraps(s, key) && i < |ListAt(s, key)| && Validates(c, fuel, ListAt(s, key)[i], v) && v != Null
    ensures Validates(c, fuel, NonNull(ListAt(s, key))[0], v)
  {
    hide Validates;
    var m := ListAt(s, key)[i];
    if Get(m, "type") == Str("null") {
      NullTyped(c, fuel, m, v);
    } else {
      assert m in NonNull(ListAt(s, key));
    }
  }

  lemma MemberTaking(c: Context, fuel: nat, s: Json, key: string, v: Json) returns (i: nat)
    requires (key == "anyOf" || key == "oneOf") && Get(s, key).Arr? && Validates(c, fuel, s, v)
    ensures i < |ListAt(s, key)| && Validates(c, fuel, ListAt(s, key)[i], v)
  {
    if key == "anyOf" {
      assert AnyOk(c, fuel, s, v);
      hide Validates;
      i :| i < |ListAt(s, "anyOf")| && Validates(c, fuel, ListAt(s, "anyOf")[i], v);
    } else {
      assert OneOk(c, fuel, s, v);
      hide Validates;
      i :| i < |ListAt(s, "oneOf")| && OnlyAt(c, fuel, s, i, v);
    }
  }

  /** A value of the wrapper is null or a value of what it wraps. */
  lemma WrappedValue(c: Context, fuel: nat, s: Json, v: Json)
    requires Unwrap(s).0 != s && Validates(c, fuel, s, v) && v != Null
    ensures Validates(c, fuel, Unwrap(s).0, v)
  {
    hide Validates, NonNull;
    var key := if Wraps(s, "anyOf") then "anyOf" else "oneOf";
    assert Wraps(s, key);
    var i := MemberTaking(c, fuel, s, key, v);
    OnlyMember(c, fuel, s, key, i, v);
  }

  // ------------------------------------------------------------------ the app's side

  /** The members a schema's types are read off when it has no `type` of its own. */
  function UnionMembers(s: Json): (r: seq<Json>)
    ensures forall i :: 0 <= i < |r| ==> r[i] < s
  {
    if Get(s, "type").Str? || Get(s, "type").Arr? then []
    else ListAt(s, if Truthy(Get(s, "anyOf")) then "anyOf" else "oneOf")
  }

  /** An app built on `was` can read `v`: null only where it expected null, a value of a type it
      expected (an integer field is read as a number) or of some member of a union it expected, every
      always-present property there, and so at every depth. */
  ghost predicate Readable(was: Json, v: Json)
    decreases was, 1
  {
    var (o, oNull) := Unwrap(was);
    (v == Null && oNull) || (
      && (if UnionMembers(o) != [] then exists i :: 0 <= i < |UnionMembers(o)| && Readable(UnionMembers(o)[i], v)
          else Types(o) == {} || exists t :: t in Widen(Types(o)) && TypeMatches(t, v))
      && ReadableInside(o, v))
  }

  ghost predicate ReadableInside(o: Json, v: Json)
    decreases o, 0
  {
    && (v.Obj? ==> forall name :: name in DictAt(o, "properties") ==>
          && (Requires(o, name) ==> name in v.fields)
          && (name in v.fields ==> Readable(DictAt(o, "properties")[name], v.fields[name])))
    && (v.Arr? && Has(o, "items") ==> forall i :: 0 <= i < |v.items| ==> Readable(o.fields["items"], v.items[i]))
  }

  // ------------------------------------------------------------------ which pairs the comparison vouches for

  /** A union and nothing else. */
  function UnionOf(members: seq<Json>): Json {
    Obj(map["anyOf" := Arr(members)])
  }

  const NULL_SCHEMA := Obj(map["type" := Str("null")])

  /** A union the comparison does not take for the nullable wrapper, of more than null. */
  predicate Union(s: Json) {
    && s == UnionOf(ListAt(s, "anyOf")) && Unwrap(s).0 == s
    && exists i :: 0 <= i < |ListAt(s, "anyOf")| && ListAt(s, "anyOf")[i] != NULL_SCHEMA
  }

  /** The members of a union, or the schema alone. */
  function Alternatives(s: Json): (r: seq<Json>)
    ensures forall x :: x in r ==> if Union(s) then x < s else x == s
    ensures !Union(s) ==> s in r
  {
    if Union(s) then ListAt(s, "anyOf") else [s]
  }

  /** The comparison of two schemas vouches for what it says nothing about: one type on each side, along
      the properties and items the old one has; and of a union, each alternative of the new schema
      answered by one of the old. */
  ghost predicate Follows(was: Json, now: Json)
    decreases was, now, 1
  {
    && !Cut(was, now)
    && (if Union(was) || Union(now) then
          && Types(Unwrap(now).0) != {}
          && forall b :: b in Alternatives(now) ==> Answered(was, now, b)
        else
          Shallow(Unwrap(was).0) && Shallow(Unwrap(now).0) && FollowsInside(Unwrap(was).0, Unwrap(now).0))
  }

  ghost predicate FollowsInside(o: Json, n: Json)
    decreases o, n, 0
  {
    && (forall name :: name in DictAt(o, "properties") && name in DictAt(n, "properties") ==>
          Follows(DictAt(o, "properties")[name], DictAt(n, "properties")[name]))
    && (Has(o, "items") && Has(n, "items") ==> Follows(o.fields["items"], n.fields["items"]))
  }

  /** Some alternative of the old schema answers for this one of the new. */
  ghost predicate Answered(was: Json, now: Json, b: Json)
    requires (Union(was) || Union(now)) && b in Alternatives(now)
    decreases was, now, 0
  {
    exists a :: a in Alternatives(was) && Answers(a, b, Union(now))
  }

  /** By admitting null where the new alternative is null among others, or by a silent comparison. */
  ghost predicate Answers(a: Json, b: Json, amongOthers: bool)
    decreases a, b, 2
  {
    (amongOthers && NullAnswered(a, b)) || (Follows(a, b) && ResponseLines(a, b, "") == multiset{})
  }

  /** The new alternative is null, and the old one admits it. */
  predicate NullAnswered(a: Json, b: Json) {
    b == NULL_SCHEMA && Unwrap(a).1
  }

  lemma FollowsUnion(was: Json, now: Json)
    requires Union(was) || Union(now)
    ensures Follows(was, now) <==>
            !Cut(was, now) && Types(Unwrap(now).0) != {} && forall b :: b in Alternatives(now) ==> Answered(was, now, b)
  {
    hide Union, ResponseLines, Types, Unwrap;
  }

  lemma AnswerTo(was: Json, now: Json, b: Json) returns (a: Json)
    requires (Union(was) || Union(now)) && Follows(was, now) && b in Alternatives(now)
    ensures a in Alternatives(was) && Answers(a, b, Union(now))
  {
    FollowsUnion(was, now);
    hide *;
    assert Answered(was, now, b);
    a := SomeAnswer(was, now, b);
  }

  lemma SomeAnswer(was: Json, now: Json, b: Json) returns (a: Json)
    requires (Union(was) || Union(now)) && b in Alternatives(now) && Answered(was, now, b)
    ensures a in Alternatives(was) && Answers(a, b, Union(now))
  {
    hide Union, Follows, Alternatives, Answers;
    a :| a in Alternatives(was) && Answers(a, b, Union(now));
  }

  lemma FollowsTyped(was: Json, now: Json)
    requires !Union(was) && !Union(now)
    ensures Follows(was, now) <==>
            !Cut(was, now) && Shallow(Unwrap(was).0) && Shallow(Unwrap(now).0) && FollowsInside(Unwrap(was).0, Unwrap(now).0)
  {
    hide Union, Shallow, Unwrap, FollowsInside;
  }

  lemma TypedIsNoUnion(s: Json)
    requires Shallow(Unwrap(s).0)
    ensures !Union(s)
  {
    if s == Unwrap(s).0 { assert !Has(s, "anyOf"); }
  }

  /** Two schemas typed all the way down follow each other. */
  lemma {:induction false} TypedFollows(was: Json, now: Json)
    requires Typed(was) && Typed(now)
    ensures Follows(was, now)
    decreases was
  {
    hide Follows, Typed, Core, Shallow, Union, Unwrap;
    var o, n := Unwrap(was).0, Unwrap(now).0;
    TypedCore(was);
    TypedCore(now);
    CoreParts(o);
    CoreParts(n);
    TypedIsNoUnion(was);
    TypedIsNoUnion(now);
    FollowsTyped(was, now);
    forall name | name in DictAt(o, "properties") && name in DictAt(n, "properties") {
      TypedFollows(DictAt(o, "properties")[name], DictAt(n, "properties")[name]);
    }
    if Has(o, "items") && Has(n, "items") {
      TypedFollows(o.fields["items"], n.fields["items"]);
    }
  }

  /** A value of the new core has a type the old one expects. */
  lemma TypeRead(o: Json, n: Json, v: Json)
    requires Types(o) == {TypeOf(o)} && Types(n) == {TypeOf(n)} && !TypeMoved(o, n)
    requires TypeOf(n) != "null" && Get(n, "type").Str? && TypeOk(n, v)
    ensures TypeOf(n) in Widen(Types(o)) && TypeMatches(TypeOf(n), v)
  {
    assert TypeOf(n) in Widen(Types(n));
    assert TypeOf(n) !in Widen(Types(n)) - {"null"} - Widen(Types(o));
  }

  lemma RequiredPresent(n: Json, name: string, v: Json)
    requires v.Obj? && RequiredOk(n, v) && Requires(n, name)
    ensures name in v.fields
  {
    var i :| 0 <= i < |ListAt(n, "required")| && ListAt(n, "required")[i] == Str(name);
  }

  lemma CoreRefusesNull(c: Context, fuel: nat, s: Json)
    requires Shallow(s)
    ensures !Validates(c, fuel, s, Null)
  {
    assert !TypeOk(s, Null);
  }

  /** The parts of a valid value. */
  lemma ValidParts(c: Context, fuel: nat, s: Json, v: Json)
    requires s.Obj? && Validates(c, fuel, s, v)
    ensures TypeOk(s, v) && RequiredOk(s, v)
    ensures v.Obj? ==> PropertiesOk(c, fuel, s, v)
    ensures v.Arr? ==> ItemsOk(c, fuel, s, v)
  {
  }

  /** The value of an array schema with a silent comparison has items on both sides. */
  lemma ArrayOnBothSides(o: Json, n: Json, v: Json)
    requires Shallow(o) && Shallow(n) && Types(o) == {TypeOf(o)} && v.Arr?
    requires TypeOf(n) in Widen(Types(o)) && TypeMatches(TypeOf(n), v)
    ensures Has(o, "items") && Has(n, "items")
  {
  }

  lemma ShallowHasNoMembers(o: Json)
    requires Shallow(o)
    ensures UnionMembers(o) == []
  {
  }

  /** A value valid for a schema is valid for one of its alternatives. */
  lemma AlternativeTaking(c: Context, fuel: nat, s: Json, v: Json) returns (b: Json)
    requires Validates(c, fuel, s, v)
    ensures b in Alternatives(s) && Validates(c, fuel, b, v)
  {
    hide Validates, Unwrap;
    if Union(s) {
      var j := MemberTaking(c, fuel, s, "anyOf", v);
      b := ListAt(s, "anyOf")[j];
    } else {
      b := s;
    }
  }

  lemma UnionReads(s: Json, v: Json)
    requires Union(s)
    ensures UnionMembers(s) == ListAt(s, "anyOf")
    ensures (exists i :: 0 <= i < |UnionMembers(s)| && Readable(UnionMembers(s)[i], v)) ==> Readable(s, v)
  {
    hide NULL_SCHEMA, Types;
    assert Get(s, "type") == Null && Truthy(Get(s, "anyOf"));
    assert !Has(s, "properties") && !Has(s, "items");
  }

  /** Whoever reads an alternative reads the whole. */
  lemma ReadsAlternative(s: Json, a: Json, v: Json)
    requires a in Alternatives(s) && Readable(a, v)
    ensures Readable(s, v)
  {
    hide Unwrap, Types, TypeMatches, Readable;
    if Union(s) {
      UnionReads(s, v);
      var i :| 0 <= i < |UnionMembers(s)| && UnionMembers(s)[i] == a;
    }
  }

  lemma ReadsNull(s: Json)
    requires Unwrap(s).1
    ensures Readable(s, Null)
  {
  }

  /** Soundness: with nothing reported, every value valid for the new schema is readable by an app
      built on the old one. */
  lemma {:induction false} SilentResponseIsReadable(c: Context, fuel: nat, was: Json, now: Json, where: string, v: Json)
    requires Follows(was, now)
    requires ResponseLines(was, now, where) == multiset{}
    requires Validates(c, fuel, now, v)
    ensures Readable(was, v)
    decreases was, now, 2
  {
    hide Validates, ResponseLines, Unwrap, Readable, Types, Union, Follows, Alternatives, Answers;
    if Union(was) || Union(now) {
      var b := AlternativeTaking(c, fuel, now, v);
      var a := AnswerTo(was, now, b);
      AnswerIsReadable(c, fuel, a, b, Union(now), v);
      ReadsAlternative(was, a, v);
    } else {
      TypedValueIsReadable(c, fuel, was, now, where, v);
    }
  }

  lemma {:induction false} AnswerIsReadable(c: Context, fuel: nat, a: Json, b: Json, amongOthers: bool, v: Json)
    requires Answers(a, b, amongOthers) && Validates(c, fuel, b, v)
    ensures Readable(a, v)
    decreases a, b, 3
  {
    hide Validates, ResponseLines, Unwrap, Readable, Follows;
    if NullAnswered(a, b) {
      NullTyped(c, fuel, b, v);
      ReadsNull(a);
    } else {
      SilentResponseIsReadable(c, fuel, a, b, "", v);
    }
  }

  lemma {:induction false} TypedValueIsReadable(c: Context, fuel: nat, was: Json, now: Json, where: string, v: Json)
    requires Follows(was, now) && !Union(was) && !Union(now)
    requires ResponseLines(was, now, where) == multiset{}
    requires Validates(c, fuel, now, v)
    ensures Readable(was, v)
    decreases was, now, 1
  {
    hide Validates, ResponseLines, Unwrap, TypeMoved, Widen, Types, TypeMatches, TypeOk, RequiredOk, Requires, Shallow, Union, UnionMembers, Follows;
    hide FollowsInside, ResponseSilentInside, ReadableInside;
    FollowsTyped(was, now);
    var (o, oNull) := Unwrap(was);
    var (n, nNull) := Unwrap(now);
    ShallowParts(was);
    ShallowParts(now);
    ResponseSilent(was, now, where);
    if v == Null {
      if n == now { CoreRefusesNull(c, fuel, now); }
    } else {
      if n != now { WrappedValue(c, fuel, now, v); }
      CoreIsObject(n);
      ValidParts(c, fuel, n, v);
      TypeRead(o, n, v);
      ShallowHasNoMembers(o);
      InsideIsReadable(c, fuel, o, n, where, v);
    }
  }

  lemma {:induction false} InsideIsReadable(c: Context, fuel: nat, o: Json, n: Json, where: string, v: Json)
    requires Shallow(o) && Shallow(n) && Types(o) == {TypeOf(o)} && FollowsInside(o, n) && ResponseSilentInside(o, n, where)
    requires TypeOf(n) in Widen(Types(o)) && TypeMatches(TypeOf(n), v) && RequiredOk(n, v)
    requires v.Obj? ==> PropertiesOk(c, fuel, n, v)
    requires v.Arr? ==> ItemsOk(c, fuel, n, v)
    ensures ReadableInside(o, v)
    decreases o, n, 0
  {
    hide Validates, ResponseLines, Widen, Types, TypeMatches, RequiredOk, Requires, Shallow, Follows, Readable;
    if v.Obj? {
      forall name | name in DictAt(o, "properties")
        ensures Requires(o, name) ==> name in v.fields
        ensures name in v.fields ==> Readable(DictAt(o, "properties")[name], v.fields[name])
      {
        if Requires(o, name) { RequiredPresent(n, name, v); }
        if name in v.fields {
          SilentResponseIsReadable(c, fuel, DictAt(o, "properties")[name], DictAt(n, "properties")[name],
                                   where + "." + name, v.fields[name]);
        }
      }
    } else if v.Arr? {
      ArrayOnBothSides(o, n, v);
      forall i | 0 <= i < |v.items|
        ensures Readable(o.fields["items"], v.items[i])
      {
        SilentResponseIsReadable(c, fuel, o.fields["items"], n.fields["items"], where + "[]", v.items[i]);
      }
    }
  }

  lemma CoreIsObject(s: Json)
    requires Shallow(s)
    ensures s.Obj? && Get(s, "type").Str? && TypeOf(s) in VALUE_TYPES && TypeOf(s) != "null"
  {
    assert "null" !in VALUE_TYPES;
  }

  // ------------------------------------------------------------------ chains of releases

  lemma TypesCompose(a: Json, b: Json, c: Json)
    requires !TypeMoved(a, b) && !TypeMoved(b, c) && Types(b) != {}
    ensures !TypeMoved(a, c)
  {
    forall t | t in Widen(Types(c)) && t != "null" && Types(a) != {}
      ensures t in Widen(Types(a))
    {
      assert t !in (Widen(Types(c)) - {"null"}) - Widen(Types(b));
      assert t !in (Widen(Types(b)) - {"null"}) - Widen(Types(a));
    }
    WidenEmpty(Types(a));
  }

  lemma WidenEmpty(types: set<string>)
    ensures Widen(types) == {} <==> types == {}
  {
    if types != {} {
      var t :| t in types;
      assert t in Widen(types);
    }
  }

  /** An array between two arrays has items, like any array. */
  lemma ItemsBetween(a: Json, b: Json, c: Json)
    requires Shallow(a) && Shallow(b) && Shallow(c)
    requires Types(a) == {TypeOf(a)} && Types(b) == {TypeOf(b)} && Types(c) == {TypeOf(c)}
    requires !TypeMoved(a, b) && !TypeMoved(b, c)
    requires Has(a, "items") && Has(c, "items")
    ensures Has(b, "items")
  {
    assert TypeOf(c) in Widen(Types(c));
    assert TypeOf(c) !in (Widen(Types(c)) - {"null"}) - Widen(Types(b));
    assert TypeOf(b) == "array";
  }

  /** Silence does not depend on where it is. */
  lemma {:induction false} SilentAnywhere(was: Json, now: Json, here: string, there: string)
    requires ResponseLines(was, now, here) == multiset{}
    ensures ResponseLines(was, now, there) == multiset{}
    decreases was, 1
  {
    hide ResponseLines, TypeMoved, Unwrap, ResponseSilentInside;
    if Cut(was, now) {
      CutResponse(was, now, there);
    } else {
      ResponseSilent(was, now, here);
      ResponseSilent(was, now, there);
      SilentInsideAnywhere(Unwrap(was).0, Unwrap(now).0, here, there);
    }
  }

  lemma CutResponse(was: Json, now: Json, where: string)
    requires Cut(was, now)
    ensures ResponseLines(was, now, where) == multiset{}
  {
  }

  lemma {:induction false} SilentInsideAnywhere(o: Json, n: Json, here: string, there: string)
    requires ResponseSilentInside(o, n, here)
    ensures ResponseSilentInside(o, n, there)
    decreases o, 0
  {
    hide ResponseLines, Requires;
    forall name | name in DictAt(o, "properties")
      ensures ResponseLines(DictAt(o, "properties")[name], DictAt(n, "properties")[name], there + "." + name) == multiset{}
    {
      SilentAnywhere(DictAt(o, "properties")[name], DictAt(n, "properties")[name], here + "." + name, there + "." + name);
    }
    if Has(o, "items") && Has(n, "items") {
      SilentAnywhere(o.fields["items"], n.fields["items"], here + "[]", there + "[]");
    }
  }

  /** Two silent steps make a silent step, and one the comparison vouches for. */
  lemma {:induction false} SilenceComposes(a: Json, b: Json, c: Json, where: string)
    requires Follows(a, b) && Follows(b, c)
    requires ResponseLines(a, b, where) == multiset{} && ResponseLines(b, c, where) == multiset{}
    ensures Follows(a, c) && ResponseLines(a, c, where) == multiset{}
    decreases a, b, c, 3
  {
    hide Follows, ResponseLines, Union, Unwrap, Types;
    if Union(a) || Union(b) || Union(c) {
      UnionsCompose(a, b, c, where);
    } else {
      TypedCompose(a, b, c, where);
    }
  }

  lemma {:induction false} TypedCompose(a: Json, b: Json, c: Json, where: string)
    requires Follows(a, b) && Follows(b, c) && !Union(a) && !Union(b) && !Union(c)
    requires ResponseLines(a, b, where) == multiset{} && ResponseLines(b, c, where) == multiset{}
    ensures Follows(a, c) && ResponseLines(a, c, where) == multiset{}
    decreases a, b, c, 2
  {
    hide ResponseLines, ResponseSilentInside, Unwrap, TypeMoved, Widen, Types, Shallow, Union, Follows, FollowsInside;
    FollowsTyped(a, b);
    FollowsTyped(b, c);
    FollowsTyped(a, c);
    var x, y, z := Unwrap(a).0, Unwrap(b).0, Unwrap(c).0;
    ShallowParts(a);
    ShallowParts(b);
    ShallowParts(c);
    ResponseSilent(a, b, where);
    ResponseSilent(b, c, where);
    ResponseSilent(a, c, where);
    TypesCompose(x, y, z);
    InsideComposes(x, y, z, where);
  }

  /** The same for what lies inside two schemas of one type. */
  lemma {:induction false} InsideComposes(x: Json, y: Json, z: Json, where: string)
    requires Shallow(x) && Shallow(y) && Shallow(z)
    requires Types(x) == {TypeOf(x)} && Types(y) == {TypeOf(y)} && Types(z) == {TypeOf(z)}
    requires !TypeMoved(x, y) && !TypeMoved(y, z)
    requires ResponseSilentInside(x, y, where) && ResponseSilentInside(y, z, where)
    requires FollowsInside(x, y) && FollowsInside(y, z)
    ensures ResponseSilentInside(x, z, where) && FollowsInside(x, z)
    decreases x, y, z, 0
  {
    hide ResponseLines, Unwrap, TypeMoved, Widen, Types, Requires, Follows, Shallow;
    forall name | name in DictAt(x, "properties")
      ensures name in DictAt(z, "properties") && (Requires(x, name) ==> Requires(z, name))
      ensures ResponseLines(DictAt(x, "properties")[name], DictAt(z, "properties")[name], where + "." + name) == multiset{}
      ensures Follows(DictAt(x, "properties")[name], DictAt(z, "properties")[name])
    {
      SilenceComposes(DictAt(x, "properties")[name], DictAt(y, "properties")[name], DictAt(z, "properties")[name],
                      where + "." + name);
    }
    if Has(x, "items") && Has(z, "items") {
      ItemsBetween(x, y, z);
      SilenceComposes(x.fields["items"], y.fields["items"], z.fields["items"], where + "[]");
    }
  }

  /** Null by itself is followed by nothing. */
  lemma {:induction false} NullFollowedByNothing(s: Json)
    ensures !Follows(NULL_SCHEMA, s)
    decreases s
  {
    hide Types;
    assert !Union(NULL_SCHEMA) && !Shallow(Unwrap(NULL_SCHEMA).0) by { assert ListAt(NULL_SCHEMA, "anyOf") == []; }
    hide Follows, Shallow, Unwrap, NULL_SCHEMA;
    if Union(s) {
      var j :| 0 <= j < |ListAt(s, "anyOf")| && ListAt(s, "anyOf")[j] != NULL_SCHEMA;
      var b := ListAt(s, "anyOf")[j];
      NullFollowedByNothing(b);
      FollowsUnion(NULL_SCHEMA, s);
      assert b in Alternatives(s) && !Answers(NULL_SCHEMA, b, true);
      assert !Answered(NULL_SCHEMA, s, b);
    } else {
      FollowsTyped(NULL_SCHEMA, s);
    }
  }

  /** What follows in silence has an answer to each alternative. */
  lemma AnsweredBy(was: Json, now: Json, where: string, b: Json) returns (a: Json)
    requires Follows(was, now) && ResponseLines(was, now, where) == multiset{} && b in Alternatives(now)
    ensures a in Alternatives(was) && Answers(a, b, Union(now))
  {
    hide Follows, ResponseLines, Union, Alternatives, Types, Unwrap, Answers;
    if Union(was) || Union(now) {
      a := AnswerTo(was, now, b);
    } else {
      AnswersAlone(was, now, where, Union(now));
      a := was;
    }
  }

  lemma AnswersAlone(was: Json, now: Json, where: string, amongOthers: bool)
    requires Follows(was, now) && ResponseLines(was, now, where) == multiset{}
    ensures Answers(was, now, amongOthers)
  {
    hide Follows, ResponseLines;
    SilentAnywhere(was, now, where, "");
  }

  lemma NotCut(was: Json, now: Json)
    requires Follows(was, now)
    ensures !Cut(was, now) && Types(Unwrap(now).0) != {}
  {
    hide Follows, Union, Types, Unwrap, Shallow;
    if Union(was) || Union(now) {
      FollowsUnion(was, now);
    } else {
      FollowsTyped(was, now);
      ShallowParts(now);
    }
  }

  lemma NullPasses(a: Json, b: Json)
    requires Follows(a, b) && ResponseLines(a, b, "") == multiset{} && Unwrap(b).1
    ensures Unwrap(a).1
  {
    hide Follows, ResponseLines, Unwrap;
    NotCut(a, b);
    ResponseSilent(a, b, "");
  }

  /** Whoever answers for the one who answers, answers. */
  lemma {:induction false} AnswersCompose(a: Json, b: Json, c: Json, middle: bool, amongOthers: bool)
    requires Answers(a, b, middle) && Answers(b, c, amongOthers)
    ensures Answers(a, c, amongOthers)
    decreases a, b, c, 4
  {
    hide Follows, ResponseLines, Unwrap, NULL_SCHEMA;
    if amongOthers && NullAnswered(b, c) {
      if !NullAnswered(a, b) { NullPasses(a, b); }
    } else {
      if NullAnswered(a, b) { NullFollowedByNothing(c); }
      SilenceComposes(a, b, c, "");
    }
  }

  /** With a union among the three. */
  lemma {:induction false} UnionsCompose(a: Json, b: Json, c: Json, where: string)
    requires Follows(a, b) && Follows(b, c) && (Union(a) || Union(b) || Union(c))
    requires ResponseLines(a, b, where) == multiset{} && ResponseLines(b, c, where) == multiset{}
    ensures Follows(a, c) && ResponseLines(a, c, where) == multiset{}
    decreases a, b, c, 2
  {
    hide Follows, ResponseLines, Unwrap, Union, Types, Answers;
    NotCut(a, b);
    NotCut(b, c);
    if Union(a) || Union(c) {
      forall z | z in Alternatives(c)
        ensures Answered(a, c, z)
      {
        var x := AnsweredThrough(a, b, c, where, z);
      }
      FollowsUnion(a, c);
      NothingToCompare(a, b, c, where);
    } else {
      var x := AnsweredThrough(a, b, c, where, c);
      AloneAnswers(a, c);
      SilentAnywhere(a, c, "", where);
    }
  }

  lemma {:induction false} AnsweredThrough(a: Json, b: Json, c: Json, where: string, z: Json) returns (x: Json)
    requires Follows(a, b) && Follows(b, c) && (Union(a) || Union(b) || Union(c)) && z in Alternatives(c)
    requires ResponseLines(a, b, where) == multiset{} && ResponseLines(b, c, where) == multiset{}
    ensures x in Alternatives(a) && Answers(x, z, Union(c))
    decreases a, b, c, 1
  {
    hide Follows, ResponseLines, Unwrap, Union, Types, Answers;
    var y := AnsweredBy(b, c, where, z);
    x := AnsweredBy(a, b, where, y);
    AnswersCompose(x, y, z, Union(b), Union(c));
  }

  lemma AloneAnswers(a: Json, c: Json)
    requires Answers(a, c, false)
    ensures Follows(a, c) && ResponseLines(a, c, "") == multiset{}
  {
    hide Follows, ResponseLines;
  }

  lemma UnionIsBare(s: Json)
    requires Union(s)
    ensures Unwrap(s).0 == s && DictAt(s, "properties") == map[] && !Has(s, "items")
  {
  }

  /** Nothing is left to compare where a union stands at either end. */
  lemma NothingToCompare(a: Json, b: Json, c: Json, where: string)
    requires !Cut(a, b) && !Cut(b, c) && Types(Unwrap(b).0) != {} && (Union(a) || Union(c))
    requires ResponseLines(a, b, where) == multiset{} && ResponseLines(b, c, where) == multiset{}
    ensures ResponseLines(a, c, where) == multiset{}
  {
    hide ResponseLines, Unwrap, Types, Union, TypeMoved, Requires;
    ResponseSilent(a, b, where);
    ResponseSilent(b, c, where);
    ResponseSilent(a, c, where);
    TypesCompose(Unwrap(a).0, Unwrap(b).0, Unwrap(c).0);
    if Union(a) { UnionIsBare(a); } else { UnionIsBare(c); }
  }

  /** A chain of releases, each additive over the one before, is additive end to end. */
  lemma {:induction false} AdditiveChain(releases: seq<Json>, where: string)
    requires |releases| > 0
    requires forall i :: 0 <= i < |releases| - 1 ==>
      Follows(releases[i], releases[i + 1]) && ResponseLines(releases[i], releases[i + 1], where) == multiset{}
    ensures ResponseLines(releases[0], releases[|releases| - 1], where) == multiset{}
    ensures |releases| > 1 ==> Follows(releases[0], releases[|releases| - 1])
  {
    var k := |releases| - 1;
    if k == 0 {
      ResponseSame(releases[0], where);
    } else {
      AdditiveChain(releases[..k], where);
      assert Follows(releases[k - 1], releases[k - 1 + 1]) && ResponseLines(releases[k - 1], releases[k - 1 + 1], where) == multiset{};
      if k > 1 {
        SilenceComposes(releases[0], releases[k - 1], releases[k], where);
      }
    }
  }
}
