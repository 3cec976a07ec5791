/** Laws of the comparison: what silence means, and that nothing breaks against itself. */
module CompareLaws {
  import opened Json
  import opened Bags
  import opened Compare

  // ------------------------------------------------------------------ what a silent comparison says

  ghost predicate ResponseSilentInside(o: Json, n: Json, where: string) {
    && (forall name :: name in DictAt(o, "properties") ==>
          && name in DictAt(n, "properties")
          && (Requires(o, name) ==> Requires(n, name))
          && ResponseLines(DictAt(o, "properties")[name], DictAt(n, "properties")[name], where + "." + name) == multiset{})
    && (Has(o, "items") && Has(n, "items") ==>
          ResponseLines(o.fields["items"], n.fields["items"], where + "[]") == multiset{})
  }

  lemma ResponsePropertySilent(o: Json, n: Json, name: string, where: string)
    requires name in DictAt(o, "properties")
    ensures ResponseProperty(o, n, name, where) == multiset{} <==>
            && name in DictAt(n, "properties")
            && (Requires(o, name) ==> Requires(n, name))
            && ResponseLines(DictAt(o, "properties")[name], DictAt(n, "properties")[name], where + "." + name) == multiset{}
  {
    hide ResponseLines;
    if name in DictAt(n, "properties") {
      var first := When(Requires(o, name) && !Requires(n, name), Line(where + "." + name, NotAlwaysPresent));
      assert first <= ResponseProperty(o, n, name, where);
    }
  }

  lemma ResponseInsideSilent(o: Json, n: Json, where: string)
    ensures ResponseInside(o, n, where) == multiset{} <==> ResponseSilentInside(o, n, where)
  {
    hide ResponseLines, ResponseProperty;
    var parts := ResponseParts(o, n, where);
    GatherEmpty(parts);
    forall name | name in DictAt(o, "properties") {
      ResponsePropertySilent(o, n, name, where);
    }
    assert Gather(parts) <= ResponseInside(o, n, where);
  }

  /** A response comparison is silent exactly when null did not appear, no type moved, no property went
      or became optional, and everything nested is silent. */
  lemma ResponseSilent(was: Json, now: Json, where: string)
    requires !Cut(was, now)
    ensures ResponseLines(was, now, where) == multiset{} <==>
            var (o, oNull) := Unwrap(was);
            var (n, nNull) := Unwrap(now);
            (nNull ==> oNull) && !TypeMoved(o, n) && ResponseSilentInside(o, n, where)
  {
    hide ResponseSilentInside, ResponseInside, TypeMoved, Unwrap;
    var (o, oNull) := Unwrap(was);
    var (n, nNull) := Unwrap(now);
    ResponseInsideSilent(o, n, where);
    assert When(nNull && !oNull, Line(where, NowNull)) <= ResponseLines(was, now, where);
  }

  ghost predicate RequestSilentInside(o: Json, n: Json, where: string) {
    && (forall name :: name in DictAt(o, "properties") && name in DictAt(n, "properties") ==>
          RequestLines(DictAt(o, "properties")[name], DictAt(n, "properties")[name], where + "." + name) == multiset{})
    && (Has(o, "items") && Has(n, "items") ==>
          RequestLines(o.fields["items"], n.fields["items"], where + "[]") == multiset{})
  }

  lemma RequestInsideSilent(o: Json, n: Json, where: string)
    ensures RequestInside(o, n, where) == multiset{} <==> RequestSilentInside(o, n, where)
  {
    hide RequestLines;
    var parts := RequestParts(o, n, where);
    GatherEmpty(parts);
    assert forall name :: name in DictAt(o, "properties") && name in DictAt(n, "properties") ==> name in parts;
    assert Gather(parts) <= RequestInside(o, n, where);
  }

  /** No value of one list is missing from the other. */
  lemma {:induction false} NothingGone(values: seq<Json>, kept: seq<Json>)
    ensures Gone(values, kept) == [] <==> forall v :: v in values ==> PyIn(v, kept)
  {
    if values != [] {
      NothingGone(values[1..], kept);
      assert forall v :: v in values <==> v == values[0] || v in values[1..];
    }
  }

  lemma {:induction false} NothingNowRequired(names: seq<Json>, was: Json, where: string)
    ensures NowRequiredLines(names, was, where) == multiset{} <==>
            forall v :: v in names && v.Str? ==> Requires(was, v.s)
  {
    hide Requires;
    if names != [] {
      var k := |names| - 1;
      NothingNowRequired(names[..k], was, where);
      var line := When(names[k].Str? && !Requires(was, names[k].s), Line(where + "." + Text(names[k]), NowRequired));
      assert line <= NowRequiredLines(names, was, where);
      assert NowRequiredLines(names[..k], was, where) <= NowRequiredLines(names, was, where);
      assert forall v :: v in names <==> v in names[..k] || v == names[k];
    }
  }

  ghost predicate RequestSilentHere(o: Json, n: Json) {
    && (Widen(Types(o)) != {} && Widen(Types(n)) != {} ==> Widen(Types(o)) <= Widen(Types(n)))
    && (Has(o, "enum") && Has(n, "enum") ==> forall v :: v in ListAt(o, "enum") ==> PyIn(v, ListAt(n, "enum")))
    && !Tightened(o, n, "maxLength") && !Tightened(o, n, "minLength")
    && !Tightened(o, n, "maximum") && !Tightened(o, n, "minimum")
    && (Has(n, "pattern") ==> Get(n, "pattern") == Get(o, "pattern"))
    && (forall v :: v in ListAt(n, "required") && v.Str? ==> Requires(o, v.s))
  }

  lemma LimitsSilent(o: Json, n: Json, where: string)
    ensures LimitLines(o, n, where) == multiset{} <==>
            && !Tightened(o, n, "maxLength") && !Tightened(o, n, "minLength")
            && !Tightened(o, n, "maximum") && !Tightened(o, n, "minimum")
  {
    hide Tightened;
    var a, b := BoundLines(o, n, "maxLength", where), BoundLines(o, n, "minLength", where);
    var c, d := BoundLines(o, n, "maximum", where), BoundLines(o, n, "minimum", where);
    assert a <= LimitLines(o, n, where) && b <= LimitLines(o, n, where);
    assert c <= LimitLines(o, n, where) && d <= LimitLines(o, n, where);
  }

  lemma NoDifference<T>(a: set<T>, b: set<T>)
    ensures a - b == {} <==> a <= b
  {
    if a - b == {} {
      forall t | t in a
        ensures t in b
      {
        assert t !in a - b;
      }
    }
  }

  lemma TypesSilent(o: Json, n: Json, where: string)
    ensures TypeLines(o, n, where) == multiset{} <==>
            (Widen(Types(o)) != {} && Widen(Types(n)) != {} ==> Widen(Types(o)) <= Widen(Types(n)))
  {
    hide Types, Widen;
    NoDifference(Widen(Types(o)), Widen(Types(n)));
  }

  lemma FiveSilent<T>(a: multiset<T>, b: multiset<T>, c: multiset<T>, d: multiset<T>, e: multiset<T>)
    ensures a + b + c + d + e == multiset{} <==> a == b == c == d == e == multiset{}
  {
    var all := a + b + c + d + e;
    assert a <= all && b <= all && c <= all && d <= all && e <= all;
  }

  lemma RequestHereSilent(o: Json, n: Json, where: string)
    ensures RequestHere(o, n, where) == multiset{} <==> RequestSilentHere(o, n)
  {
    TypesSilent(o, n, where);
    NothingGone(ListAt(o, "enum"), ListAt(n, "enum"));
    LimitsSilent(o, n, where);
    NothingNowRequired(ListAt(n, "required"), o, where);
    FiveSilent(TypeLines(o, n, where), EnumLines(o, n, where), LimitLines(o, n, where), PatternLines(o, n, where),
               NowRequiredLines(ListAt(n, "required"), o, where));
    hide TypeLines, Types, Gone, NowRequiredLines, Tightened, LimitLines, PyIn;
  }

  /** A request comparison is silent exactly when nothing the app may send is refused by any keyword
      compared, and everything nested is silent. */
  lemma RequestSilent(was: Json, now: Json, where: string)
    requires !Cut(was, now)
    ensures RequestLines(was, now, where) == multiset{} <==>
            var o, n := Unwrap(was).0, Unwrap(now).0;
            RequestSilentHere(o, n) && RequestSilentInside(o, n, where)
  {
    hide RequestSilentHere, RequestSilentInside, RequestHere, RequestInside, Unwrap;
    var o, n := Unwrap(was).0, Unwrap(now).0;
    RequestHereSilent(o, n, where);
    RequestInsideSilent(o, n, where);
    assert RequestHere(o, n, where) <= RequestLines(was, now, where);
  }

  // ------------------------------------------------------------------ nothing breaks against itself

  lemma {:induction false} ResponseSame(s: Json, where: string)
    ensures ResponseLines(s, s, where) == multiset{}
    decreases s
  {
    if !Has(s, "$cycle") {
      var (o, _) := Unwrap(s);
      ResponseSilent(s, s, where);
      forall name | name in DictAt(o, "properties") {
        ResponseSame(DictAt(o, "properties")[name], where + "." + name);
      }
      if Has(o, "items") {
        ResponseSame(o.fields["items"], where + "[]");
      }
      assert ResponseSilentInside(o, o, where);
    }
  }

  lemma {:induction false} RequestSame(s: Json, where: string)
    ensures RequestLines(s, s, where) == multiset{}
    decreases s
  {
    if !Has(s, "$cycle") {
      var (o, _) := Unwrap(s);
      RequestSilent(s, s, where);
      forall name | name in DictAt(o, "properties") {
        RequestSame(DictAt(o, "properties")[name], where + "." + name);
      }
      if Has(o, "items") {
        RequestSame(o.fields["items"], where + "[]");
      }
      assert RequestSilentInside(o, o, where);
      assert RequestSilentHere(o, o);
    }
  }

  lemma ParameterSame(table: map<Ident, Json>, ident: Ident, key: string)
    requires ident in table
    ensures ParameterLines(table, ident, table[ident], key) == multiset{}
  {
    hide RequestLines, SchemaOf;
    var where := key + " " + ident.place + " parameter '" + ident.name + "'";
    RequestSame(SchemaOf(table[ident]), where);
    assert Truthy(Get(table[ident], "required")) ==> Truthy(table[ident]);
  }

  lemma ParametersSame(parameters: seq<Json>, key: string)
    ensures ParametersLines(parameters, parameters, key) == multiset{}
  {
    var table := ParameterTable(parameters);
    forall ident | ident in table
      ensures ParameterLines(table, ident, table[ident], key) == multiset{}
    {
      ParameterSame(table, ident, key);
    }
    GatherEmpty(ParameterParts(table, table, key));
  }

  /** A response recorded as null reads as one that was removed. */
  ghost predicate ProperResponses(entry: Json) {
    forall status :: status in DictAt(entry, "responses") && status != "" && status[0] == '2' ==>
      DictAt(entry, "responses")[status] != Null
  }

  lemma StatusSame(responses: map<string, Json>, status: string, key: string)
    requires status in responses
    ensures StatusLines(responses, status, responses[status], key) ==
            When(responses[status] == Null && status != "" && status[0] == '2', Line(key + " -> " + status, SuccessRemoved))
  {
    hide ResponseLines;
    ResponseSame(JsonOf(Get(responses[status], "content")), key + " -> " + status);
  }

  lemma ResponsesSame(entry: Json, key: string)
    ensures ResponsesLines(entry, entry, key) == multiset{} <==> ProperResponses(entry)
  {
    hide StatusLines;
    var responses := DictAt(entry, "responses");
    forall status | status in responses {
      StatusSame(responses, status, key);
    }
    var parts := StatusParts(responses, responses, key);
    GatherEmpty(parts);
    assert forall status :: status in responses ==> status in parts;
  }

  lemma BodySame(entry: Json, key: string)
    ensures BodyLines(entry, entry, key) == multiset{}
  {
    hide RequestLines;
    RequestSame(JsonOf(Get(Get(entry, "requestBody"), "content")), key + " request");
  }

  /** An entry breaks nothing against itself exactly when it is there and none of its success
      responses is null. */
  ghost predicate ProperEntry(entry: Json) {
    entry != Null && ProperResponses(entry)
  }

  lemma OperationSame(key: string, entry: Json)
    ensures OperationLines(key, entry, entry) == multiset{} <==> ProperEntry(entry)
  {
    ParametersSame(ListAt(entry, "parameters"), key);
    BodySame(entry, key);
    ResponsesSame(entry, key);
    hide ParametersLines, BodyLines, ResponsesLines, ProperResponses;
  }

  /** A snapshot breaks nothing against itself exactly when all its entries are proper. */
  lemma NothingBreaksAgainstItself(s: map<string, Json>)
    ensures BreakingChanges(s, s) == multiset{} <==> forall key :: key in s ==> ProperEntry(s[key])
  {
    hide OperationLines, ProperEntry;
    forall key | key in s {
      OperationSame(key, s[key]);
    }
    var parts := OperationParts(s, s);
    GatherEmpty(parts);
    assert forall key :: key in s ==> key in parts;
  }

  /** Breaks decompose by operation: entries added to a snapshot add their own breaks and change no
      other. */
  lemma BreaksDecompose(s: map<string, Json>, more: map<string, Json>, now: map<string, Json>)
    requires forall key :: key in more ==> key !in s
    ensures BreakingChanges(s + more, now) == BreakingChanges(s, now) + BreakingChanges(more, now)
  {
    hide OperationLines;
    assert OperationParts(s + more, now) == OperationParts(s, now) + OperationParts(more, now);
    GatherSplit(OperationParts(s, now), OperationParts(more, now));
  }
}
