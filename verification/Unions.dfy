/** Inside a union the comparison sees type names only: when values stay readable and accepted all the
    same, and when not. */
module Unions {
  import opened Json
  import opened Inlining
  import opened Validation
  import opened Compare
  import opened CompareLaws
  import opened ResponseSoundness
  import opened RequestSoundness
  import opened Gaps
  import opened Unseen

  // ------------------------------------------------------------------ member by member

  /** Unions of any size: if each old member is taken in by a new one, whatever is a declared value of an
      old member is accepted by the new union. */
  lemma UnionStaysAccepted(c: Context, fuel: nat, olds: seq<Json>, news: seq<Json>, v: Json)
    requires forall a :: a in olds ==> exists b :: b in news && TakesIn(a, b)
    requires exists a :: a in olds && Validates(c, fuel, a, v) && DeclaredOnly(c, fuel, a, v)
    ensures Validates(c, fuel, UnionOf(news), v)
  {
    hide Validates, TakesIn, DeclaredOnly;
    var a :| a in olds && Validates(c, fuel, a, v) && DeclaredOnly(c, fuel, a, v);
    var b :| b in news && TakesIn(a, b);
    TakerAccepts(c, fuel, a, b, v);
    assert ListAt(UnionOf(news), "anyOf") == news;
    MemberTakesFor(c, fuel, UnionOf(news), b, v);
  }

  /** And if each new member is answered by an old one, whatever the new union sends is readable by an app
      that reads one of the old members. */
  lemma UnionStaysReadable(c: Context, fuel: nat, olds: seq<Json>, news: seq<Json>, v: Json) returns (a: Json)
    requires forall b :: b in news ==> exists a :: a in olds && Answers(a, b, true)
    requires Validates(c, fuel, UnionOf(news), v)
    ensures a in olds && Readable(a, v)
  {
    hide Validates, Answers, Readable;
    assert Get(UnionOf(news), "anyOf") == Arr(news) && ListAt(UnionOf(news), "anyOf") == news;
    var j := MemberTaking(c, fuel, UnionOf(news), "anyOf", v);
    assert news[j] in news;
    a :| a in olds && Answers(a, news[j], true);
    AnswerIsReadable(c, fuel, a, news[j], true, v);
  }

  // ------------------------------------------------------------------ what is compared of a union

  /** Between bare schemas, outside the nullable wrapper, a response comparison looks at null and at type
      names only, whatever the members of a union go on to say. */
  lemma ResponseTypesCompared(was: Json, now: Json, where: string)
    requires Bare(was) && Bare(now) && Unwrap(was).0 == was && Unwrap(now).0 == now
    requires !(Has(was, "items") && Has(now, "items"))
    ensures ResponseLines(was, now, where) == multiset{} <==>
            (Unwrap(now).1 ==> Unwrap(was).1) && !TypeMoved(was, now)
  {
    hide ResponseLines, Unwrap, TypeMoved, Requires;
    ResponseSilent(was, now, where);
    assert DictAt(was, "properties") == map[];
  }

  /** Unions that name the same types are silent against each other. */
  lemma SameNamesSilent(a: Json, b: Json, x: Json, where: string)
    requires Get(a, "type") != Str("null") && Get(b, "type") != Str("null") && Get(x, "type") != Str("null")
    requires Types(a) == Types(b)
    ensures RequestLines(Pair(a, x), Pair(b, x), where) == multiset{}
    ensures ResponseLines(Pair(a, x), Pair(b, x), where) == multiset{}
  {
    hide RequestLines, ResponseLines, Types, Widen, Unwrap, Pair;
    PairParts(a, x);
    PairParts(b, x);
    PairHasNoNull(a, x);
    PairHasNoNull(b, x);
    OnlyTypesCompared(Pair(a, x), Pair(b, x), where);
    SameTypeStays(Pair(a, x), Pair(b, x));
    ResponseTypesCompared(Pair(a, x), Pair(b, x), where);
  }

  lemma PairHasNoNull(a: Json, x: Json)
    requires Unwrap(Pair(a, x)).0 == Pair(a, x)
    ensures !Unwrap(Pair(a, x)).1
  {
    hide NonNull;
    assert Get(Pair(a, x), "type") == Null;
  }

  lemma PairTakesExactly(c: Context, fuel: nat, a: Json, b: Json, v: Json)
    ensures Validates(c, fuel, Pair(a, b), v) <==> Validates(c, fuel, a, v) || Validates(c, fuel, b, v)
  {
    hide Validates;
    assert ListAt(Pair(a, b), "anyOf") == [a, b];
    assert [a, b][0] == a && [a, b][1] == b;
    if Validates(c, fuel, a, v) { MemberTakesFor(c, fuel, Pair(a, b), a, v); }
    if Validates(c, fuel, b, v) { MemberTakesFor(c, fuel, Pair(a, b), b, v); }
    if !Validates(c, fuel, a, v) && !Validates(c, fuel, b, v) { PairRefuses(c, fuel, a, b, v); }
  }

  // ------------------------------------------------------------------ a limit on a member

  /** A limit changed on one member of a union is silent, and keeps every value accepted exactly when it is
      no tighter. */
  lemma MemberLimitExactly(c: Context, fuel: nat, before: nat, after: nat, where: string)
    ensures RequestLines(Pair(Capped(before), Just("boolean")), Pair(Capped(after), Just("boolean")), where) == multiset{}
    ensures (forall v :: Validates(c, fuel, Pair(Capped(before), Just("boolean")), v) ==>
                           Validates(c, fuel, Pair(Capped(after), Just("boolean")), v)) <==> before <= after
  {
    hide Validates, RequestLines, ResponseLines, Types, Capped, Just, Pair;
    CappedParts(before);
    CappedParts(after);
    JustTyped("boolean");
    SameNamesSilent(Capped(before), Capped(after), Just("boolean"), where);
    forall v
      ensures Validates(c, fuel, Pair(Capped(before), Just("boolean")), v) <==> v.Bool? || (v.Str? && |v.s| <= before)
      ensures Validates(c, fuel, Pair(Capped(after), Just("boolean")), v) <==> v.Bool? || (v.Str? && |v.s| <= after)
    {
      CappedOrFlag(c, fuel, before, v);
      CappedOrFlag(c, fuel, after, v);
    }
    if before > after {
      var v := LongText(before - 1);
      assert Validates(c, fuel, Pair(Capped(before), Just("boolean")), v);
    }
  }

  lemma CappedOrFlag(c: Context, fuel: nat, most: nat, v: Json)
    ensures Validates(c, fuel, Pair(Capped(most), Just("boolean")), v) <==> v.Bool? || (v.Str? && |v.s| <= most)
  {
    hide Validates, Capped, Just, Pair;
    PairTakesExactly(c, fuel, Capped(most), Just("boolean"), v);
    CappedTakes(c, fuel, most, v);
    JustTakes(c, fuel, "boolean", v);
  }

  // ------------------------------------------------------------------ a property of a member

  /** A dictionary that always holds a text under each name. */
  function Record(names: seq<string>): Json {
    Obj(map[
          "type" := Str("object"),
          "properties" := Obj(map name | name in names :: Just("string")),
          "required" := Arr(seq(|names|, i requires 0 <= i < |names| => Str(names[i])))])
  }

  predicate HoldsTexts(names: seq<string>, v: Json) {
    v.Obj? && forall name :: name in names ==> name in v.fields && v.fields[name].Str?
  }

  lemma RecordParts(names: seq<string>)
    ensures var s := Record(names);
      && Get(s, "type") == Str("object") && Types(s) == {"object"} && Unwrap(s) == (s, false) && UnionMembers(s) == []
      && (forall name :: name in DictAt(s, "properties") <==> name in names)
      && (forall name :: name in names ==> DictAt(s, "properties")[name] == Just("string") && Requires(s, name))
  {
    var s := Record(names);
    var required := seq(|names|, i requires 0 <= i < |names| => Str(names[i]));
    assert Get(s, "type") == Str("object") && Get(s, "anyOf") == Null && Get(s, "oneOf") == Null;
    assert ListAt(s, "required") == required;
    forall name | name in names
      ensures Str(name) in required
    {
      var i :| 0 <= i < |names| && names[i] == name;
      assert required[i] == Str(name);
    }
  }

  lemma RecordAsserts(c: Context, names: seq<string>, v: Json)
    ensures Assertions(c, Record(names), v) <==> v.Obj? && forall name :: name in names ==> name in v.fields
  {
    hide TypeMatches;
    var s := Record(names);
    var required := seq(|names|, i requires 0 <= i < |names| => Str(names[i]));
    assert Get(s, "type") == Str("object") && ListAt(s, "required") == required;
    assert forall k :: k != "type" && k != "properties" && k != "required" ==> !Has(s, k);
    assert TypeOk(s, v) <==> v.Obj? by { ObjectMatches(v); }
    if v.Obj? && RequiredOk(s, v) {
      forall name | name in names
        ensures name in v.fields
      {
        var i :| 0 <= i < |names| && names[i] == name;
        assert required[i].s == name;
      }
    }
    assert v.Obj? ==> (RequiredOk(s, v) <==> forall name :: name in names ==> name in v.fields);
  }

  lemma ObjectMatches(v: Json)
    ensures TypeMatches("object", v) <==> v.Obj?
  {
  }

  lemma RecordTakes(c: Context, fuel: nat, names: seq<string>, v: Json)
    ensures Validates(c, fuel, Record(names), v) <==> HoldsTexts(names, v)
  {
    hide Assertions, Just;
    var s := Record(names);
    RecordAsserts(c, names, v);
    assert forall k :: k != "type" && k != "properties" && k != "required" ==> !Has(s, k);
    if v.Obj? {
      RecordPropertiesTake(c, fuel, names, v);
    }
  }

  lemma RecordPropertiesTake(c: Context, fuel: nat, names: seq<string>, v: Json)
    requires v.Obj?
    ensures PropertiesOk(c, fuel, Record(names), v) <==>
            forall name :: name in names && name in v.fields ==> v.fields[name].Str?
  {
    hide Validates, Just, Record;
    RecordParts(names);
    forall name | name in names && name in v.fields
      ensures Validates(c, fuel, DictAt(Record(names), "properties")[name], v.fields[name]) <==> v.fields[name].Str?
    {
      JustTakes(c, fuel, "string", v.fields[name]);
    }
  }

  lemma TextReads(v: Json)
    ensures Readable(Just("string"), v) <==> v.Str?
  {
    hide Just, Types, Unwrap;
    JustParts("string");
    JustHasNoMembers("string");
    assert !Has(Just("string"), "properties") && !Has(Just("string"), "items");
    TextsOnly(v);
  }

  lemma TextsOnly(v: Json)
    ensures (exists t :: t in Widen({"string"}) && TypeMatches(t, v)) <==> v.Str?
  {
    assert Widen({"string"}) == {"string"};
    assert "string" in Widen({"string"});
  }

  lemma ObjectsOnly(v: Json)
    ensures (exists t :: t in Widen({"object"}) && TypeMatches(t, v)) <==> v.Obj?
  {
    assert Widen({"object"}) == {"object"};
    assert "object" in Widen({"object"});
  }

  lemma RecordReads(names: seq<string>, v: Json)
    ensures Readable(Record(names), v) <==> HoldsTexts(names, v)
  {
    hide Record, Types, Unwrap, TypeMatches, Widen, UnionMembers, Just, Requires;
    var s := Record(names);
    RecordParts(names);
    ObjectsOnly(v);
    if v.Obj? {
      forall name | name in names && name in v.fields
        ensures Readable(DictAt(s, "properties")[name], v.fields[name]) <==> v.fields[name].Str?
      {
        TextReads(v.fields[name]);
      }
      assert ReadableInside(s, v) <==> HoldsTexts(names, v);
    }
  }

  lemma PairMembers(a: Json, b: Json)
    ensures UnionMembers(Pair(a, b)) == [a, b]
    ensures DictAt(Pair(a, b), "properties") == map[] && !Has(Pair(a, b), "items")
  {
    var s, members := Pair(a, b), [a, b];
    assert Get(s, "anyOf") == Arr(members) && Get(s, "type") == Null;
  }

  lemma UnionReadsExactly(s: Json, v: Json)
    requires Unwrap(s) == (s, false) && UnionMembers(s) != [] && DictAt(s, "properties") == map[] && !Has(s, "items")
    ensures Readable(s, v) <==> exists i :: 0 <= i < |UnionMembers(s)| && Readable(UnionMembers(s)[i], v)
  {
    hide Unwrap, UnionMembers, Types;
    assert ReadableInside(s, v);
  }

  lemma PairReads(a: Json, b: Json, v: Json)
    requires Get(a, "type") != Str("null") && Get(b, "type") != Str("null")
    ensures Readable(Pair(a, b), v) <==> Readable(a, v) || Readable(b, v)
  {
    hide Pair, Types, UnionMembers, Unwrap, Readable;
    PairParts(a, b);
    PairHasNoNull(a, b);
    PairMembers(a, b);
    UnionReadsExactly(Pair(a, b), v);
    assert [a, b][0] == a && [a, b][1] == b;
  }

  lemma EitherTakes(c: Context, fuel: nat, names: seq<string>, v: Json)
    ensures Validates(c, fuel, Pair(Record(names), Just("string")), v) <==> HoldsTexts(names, v) || v.Str?
    ensures Readable(Pair(Record(names), Just("string")), v) <==> HoldsTexts(names, v) || v.Str?
  {
    hide Validates, Readable, Record, Just, Pair, HoldsTexts;
    PairTakesExactly(c, fuel, Record(names), Just("string"), v);
    RecordTakes(c, fuel, names, v);
    JustTakes(c, fuel, "string", v);
    RecordParts(names);
    JustTyped("string");
    PairReads(Record(names), Just("string"), v);
    RecordReads(names, v);
    TextReads(v);
  }

  /** A dictionary with an empty text under each name. */
  function Blank(names: seq<string>): Json {
    Obj(map name | name in names :: Str(""))
  }

  /** Properties taken from one member of a union are never reported: the comparison is silent, and an app
      that reads the union keeps reading it exactly when none was taken. */
  lemma MemberPropertiesExactly(c: Context, fuel: nat, before: seq<string>, after: seq<string>, where: string)
    ensures ResponseLines(Pair(Record(before), Just("string")), Pair(Record(after), Just("string")), where) == multiset{}
    ensures (forall v :: Validates(c, fuel, Pair(Record(after), Just("string")), v) ==>
                           Readable(Pair(Record(before), Just("string")), v))
            <==> forall name :: name in before ==> name in after
  {
    hide Validates, Readable, RequestLines, ResponseLines, Types, Record, Just, Pair;
    RecordParts(before);
    RecordParts(after);
    JustTyped("string");
    SameNamesSilent(Record(before), Record(after), Just("string"), where);
    if forall name :: name in before ==> name in after {
      forall v | Validates(c, fuel, Pair(Record(after), Just("string")), v)
        ensures Readable(Pair(Record(before), Just("string")), v)
      {
        EitherTakes(c, fuel, before, v);
        EitherTakes(c, fuel, after, v);
      }
    } else {
      var v := Blank(after);
      EitherTakes(c, fuel, before, v);
      EitherTakes(c, fuel, after, v);
    }
  }

  /** The removal of the one property of a member: silent, refused by the old union, and read by neither
      of its members. */
  lemma MemberRemovalUnreported(c: Context, fuel: nat, name: string, where: string)
    ensures var was, now := Pair(Record([name]), Just("string")), Pair(Record([]), Just("string"));
      && ResponseLines(was, now, where) == multiset{}
      && Validates(c, fuel, now, Obj(map[])) && !Validates(c, fuel, was, Obj(map[])) && !Readable(was, Obj(map[]))
  {
    hide Validates, Readable, ResponseLines, Record, Just, Pair;
    MemberPropertiesExactly(c, fuel, [name], [], where);
    EitherTakes(c, fuel, [name], Obj(map[]));
    EitherTakes(c, fuel, [], Obj(map[]));
    assert name in [name];
  }
}
