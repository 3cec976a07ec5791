/** What inlining drops: properties named like an annotation, constraints beside a reference, dictionary
    values in an enum, and everything below a reference cycle. */
module InliningGaps {
  import opened Json
  import opened Inlining
  import opened Validation
  import opened InlineMeaning
  import opened Compare
  import opened CompareLaws
  import opened Places
  import opened Paths
  import opened ResponseSoundness
  import opened RequestSoundness
  import opened Gaps
  import opened Unseen

  /** A property named like an annotation loses its schema: its values are no longer constrained. */
  lemma AnnotationNamedPropertyLost(c: Context, fuel: nat, name: string, v: Json)
    requires name in ANNOTATIONS && v != Null
    ensures var s := Obj(map["properties" := Obj(map[name := NULL_SCHEMA])]);
      && !Validates(c, fuel, s, Obj(map[name := v]))
      && Validates(c, fuel, Inline(s, c.components, {}), Obj(map[name := v]))
  {
    var inner := Obj(map[name := NULL_SCHEMA]);
    var s := Obj(map["properties" := inner]);
    NullSchemaTakesNull(c, fuel, v);
    hide NULL_SCHEMA;
    assert DictAt(s, "properties")[name] == NULL_SCHEMA;
    assert !PropertiesOk(c, fuel, s, Obj(map[name := v]));
    StrippedProperties(c.components, name, s);
    EmptyProperties(c, fuel, Obj(map[name := v]));
  }

  /** A dictionary that is no reference keeps its keys but for the annotations, each value inlined. */
  lemma FieldsInlined(s: Json, components: map<string, Json>, stack: set<string>)
    requires s.Obj? && !IsRefNode(s)
    ensures var t := Inline(s, components, stack);
      && t.Obj? && (forall k :: k in t.fields <==> k in s.fields && k !in ANNOTATIONS)
      && forall k :: k in t.fields ==> t.fields[k] == Inline(s.fields[k], components, stack)
  {
  }

  lemma AnnotationStripped(components: map<string, Json>, name: string, x: Json)
    requires name in ANNOTATIONS
    ensures Inline(Obj(map[name := x]), components, {}) == Obj(map[])
  {
    hide Inline;
    var s := Obj(map[name := x]);
    assert "$ref" !in ANNOTATIONS && !Has(s, "$ref");
    FieldsInlined(s, components, {});
    assert Inline(s, components, {}).fields == map[];
  }

  lemma StrippedProperties(components: map<string, Json>, name: string, s: Json)
    requires name in ANNOTATIONS && s == Obj(map["properties" := Obj(map[name := NULL_SCHEMA])])
    ensures Inline(s, components, {}) == Obj(map["properties" := Obj(map[])])
  {
    hide Inline, NULL_SCHEMA;
    assert "$ref" !in ANNOTATIONS && "properties" !in ANNOTATIONS && !Has(s, "$ref");
    AnnotationStripped(components, name, NULL_SCHEMA);
    FieldsInlined(s, components, {});
    assert Inline(s, components, {}).fields == map["properties" := Obj(map[])];
  }

  lemma EmptyProperties(c: Context, fuel: nat, v: Json)
    ensures Validates(c, fuel, Obj(map["properties" := Obj(map[])]), v)
  {
    hide TypeMatches;
    var s := Obj(map["properties" := Obj(map[])]);
    assert forall k :: k != "properties" ==> !Has(s, k);
  }

  /** A constraint beside a reference is dropped. */
  lemma RefSiblingLost(c: Context, fuel: nat, name: string, t: string, v: Json)
    requires '/' !in name && name !in c.components && !TypeMatches(t, v)
    ensures var s := Obj(map["$ref" := Str(REF_PREFIX + name), "type" := Str(t)]);
      && !Validates(c, fuel, s, v)
      && Validates(c, fuel, Inline(s, c.components, {}), v)
  {
    hide TypeMatches;
    var s := Obj(map["$ref" := Str(REF_PREFIX + name), "type" := Str(t)]);
    LastSegmentOfName(REF_PREFIX, name);
    assert Get(s, "type") == Str(t) && Get(s, "$ref") == Str(REF_PREFIX + name);
    assert !TypeOk(s, v);
    assert IsRefNode(s) && RefName(s) == name;
    assert Inline(s, c.components, {}) == Obj(map[]);
    EmptyAccepts(c, fuel, v);
  }

  // ------------------------------------------------------------------ what a removal looks like

  /** A dictionary schema, its properties a dictionary too, with no union and no cycle marker. */
  predicate ObjectSchema(s: Json) {
    && s.Obj? && !IsRefNode(s) && !Has(s, "$cycle") && !Has(s, "anyOf") && !Has(s, "oneOf")
    && (Has(s, "properties") ==> s.fields["properties"].Obj? && !IsRefNode(s.fields["properties"]))
    && Flat(Get(s, "required"))
  }

  /** The inlined schema declares the same properties but for those named like an annotation, and
      requires the same names. */
  lemma DeclaredAfterwards(s: Json, components: map<string, Json>, stack: set<string>, name: string)
    requires ObjectSchema(s)
    ensures var t := Inline(s, components, stack);
      && t.Obj? && !Has(t, "$cycle") && Unwrap(t).0 == t
      && (name in DictAt(t, "properties") <==> name in DictAt(s, "properties") && name !in ANNOTATIONS)
      && (name in DictAt(t, "properties") ==>
            DictAt(t, "properties")[name] == Inline(DictAt(s, "properties")[name], components, stack))
      && Requires(t, name) == Requires(s, name)
  {
    hide Inline;
    var t := Inline(s, components, stack);
    assert "properties" !in ANNOTATIONS && "required" !in ANNOTATIONS;
    FieldsInlined(s, components, stack);
    assert Get(t, "anyOf") == Null && Get(t, "oneOf") == Null;
    if Has(s, "properties") { FieldsInlined(s.fields["properties"], components, stack); }
    if Has(s, "required") { FlatIsKept(s.fields["required"], components, stack); }
  }

  /** Between two documents, behind any references, the removal of a response property of a schema that is no
      union is reported exactly when the property is not named like an annotation; and so is that it is no
      longer always present. */
  lemma RemovalReportedExactly(
      was: Json, old_: map<string, Json>, oldStack: set<string>, now: Json, new_: map<string, Json>, newStack: set<string>,
      where: string, name: string)
    requires ObjectSchema(was) && ObjectSchema(now) && OneStep(name)
    requires !TypeMoved(Inline(was, old_, oldStack), Inline(now, new_, newStack))
    ensures var lines := ResponseLines(Inline(was, old_, oldStack), Inline(now, new_, newStack), where);
      && (Line(where + "." + name, Removed) in lines <==>
            name in DictAt(was, "properties") && name !in DictAt(now, "properties") && name !in ANNOTATIONS)
      && (Line(where + "." + name, NotAlwaysPresent) in lines <==>
            && name in DictAt(was, "properties") && name in DictAt(now, "properties") && name !in ANNOTATIONS
            && Requires(was, name) && !Requires(now, name))
  {
    hide Inline, ObjectSchema, TypeMoved, Unwrap, Requires, OneStep, ResponseLines;
    DeclaredAfterwards(was, old_, oldStack, name);
    DeclaredAfterwards(now, new_, newStack, name);
    LossReportedExactly(Inline(was, old_, oldStack), Inline(now, new_, newStack), where, name);
  }

  /** The same at the end of any path of properties, items and nullable wrappers the comparison of two
      recorded schemas walks. */
  lemma NestedRemovalReportedExactly(
      before: Json, after: Json, where: string, path: seq<Step>,
      was: Json, old_: map<string, Json>, oldStack: set<string>, now: Json, new_: map<string, Json>, newStack: set<string>,
      name: string)
    requires Leads(before, after, path) && OneStepNames(before) && OneStep(name)
    requires ObjectSchema(was) && ObjectSchema(now)
    requires EndOf(before, after, path) == (Inline(was, old_, oldStack), Inline(now, new_, newStack))
    ensures var lines, at := ResponseLines(before, after, where), PlaceAt(where, path);
      && (Line(at + "." + name, Removed) in lines <==>
            name in DictAt(was, "properties") && name !in DictAt(now, "properties") && name !in ANNOTATIONS)
      && (Line(at + "." + name, NotAlwaysPresent) in lines <==>
            && name in DictAt(was, "properties") && name in DictAt(now, "properties") && name !in ANNOTATIONS
            && Requires(was, name) && !Requires(now, name))
  {
    hide Inline, ObjectSchema, Unwrap, Requires, OneStep, ResponseLines, Leads, EndOf, PlaceAt, OneStepNames;
    DeclaredAfterwards(was, old_, oldStack, name);
    DeclaredAfterwards(now, new_, newStack, name);
    NestedLossReportedExactly(before, after, where, path, name);
  }

  // ------------------------------------------------------------------ what a request keyword looks like

  /** Between two documents, what is compared of a request property's own keywords is what is compared of
      its two schemas inlined, exactly when the property is not named like an annotation; otherwise
      nothing is. */
  lemma PropertyKeywordsComparedExactly(
      was: Json, old_: map<string, Json>, oldStack: set<string>, now: Json, new_: map<string, Json>, newStack: set<string>,
      where: string, name: string, what: Finding)
    requires ObjectSchema(was) && ObjectSchema(now) && OneStep(name) && what != NowRequired
    ensures Line(where + "." + name, what) in RequestLines(Inline(was, old_, oldStack), Inline(now, new_, newStack), where) <==>
            && name in DictAt(was, "properties") && name in DictAt(now, "properties") && name !in ANNOTATIONS
            && Line(where + "." + name, what) in
                 RequestLines(Inline(DictAt(was, "properties")[name], old_, oldStack),
                              Inline(DictAt(now, "properties")[name], new_, newStack), where + "." + name)
  {
    hide Inline, ObjectSchema, Unwrap, Requires, OneStep, RequestLines;
    DeclaredAfterwards(was, old_, oldStack, name);
    DeclaredAfterwards(now, new_, newStack, name);
    RequestReportedBelow(Inline(was, old_, oldStack), Inline(now, new_, newStack), where, name, what);
  }

  /** The schema with another schema for one of its properties. */
  function WithProperty(s: Json, name: string, b: Json): Json
    requires Has(s, "properties") && s.fields["properties"].Obj?
  {
    Obj(s.fields["properties" := Obj(s.fields["properties"].fields[name := b])])
  }

  /** The schema of a property named like an annotation can be anything: what is recorded is the same, and
      so is every comparison. */
  lemma AnnotationNamedSchemaUnseen(s: Json, components: map<string, Json>, stack: set<string>, name: string, b: Json)
    requires ObjectSchema(s) && Has(s, "properties") && name in ANNOTATIONS
    ensures Inline(WithProperty(s, name, b), components, stack) == Inline(s, components, stack)
  {
    hide Inline, Flat;
    var properties, changed := s.fields["properties"], Obj(s.fields["properties"].fields[name := b]);
    var t := WithProperty(s, name, b);
    assert "$ref" !in ANNOTATIONS && "properties" !in ANNOTATIONS;
    assert Get(changed, "$ref") == Get(properties, "$ref") && Get(t, "$ref") == Get(s, "$ref");
    FieldsInlined(properties, components, stack);
    FieldsInlined(changed, components, stack);
    assert Inline(changed, components, stack).fields == Inline(properties, components, stack).fields;
    FieldsInlined(s, components, stack);
    FieldsInlined(t, components, stack);
    assert Inline(t, components, stack).fields == Inline(s, components, stack).fields;
  }

  /** A body with one property. */
  function Body(name: string, a: Json): Json {
    Obj(map["type" := Str("object"), "properties" := Obj(map[name := a])])
  }

  /** A limit put on a request property named like an annotation is silent, and a text accepted before is
      refused by the document. */
  lemma AnnotationNamedLimitUnreported(c: Context, fuel: nat, name: string, most: nat, where: string)
    requires name in ANNOTATIONS
    ensures RequestLines(Inline(Body(name, Just("string")), c.components, {}), Inline(Body(name, Capped(most)), c.components, {}), where) == multiset{}
    ensures Validates(c, fuel, Body(name, Just("string")), Obj(map[name := LongText(most)]))
    ensures !Validates(c, fuel, Body(name, Capped(most)), Obj(map[name := LongText(most)]))
  {
    hide RequestLines, Inline, Validates, Just, Capped, Body, LongText;
    BodiesAreSilent(c.components, name, Just("string"), Capped(most), where);
    BodyTakes(c, fuel, name, Just("string"), LongText(most));
    BodyTakes(c, fuel, name, Capped(most), LongText(most));
    LongTextIsLong(most);
    JustTakes(c, fuel, "string", LongText(most));
    CappedTakes(c, fuel, most, LongText(most));
  }

  /** Two bodies that differ in the schema of that property are recorded alike. */
  lemma BodiesAreSilent(components: map<string, Json>, name: string, a: Json, b: Json, where: string)
    requires name in ANNOTATIONS
    ensures RequestLines(Inline(Body(name, a), components, {}), Inline(Body(name, b), components, {}), where) == multiset{}
  {
    BodyShape(name, a);
    BodyReplaced(name, a, b);
    hide RequestLines, Inline, Body, ObjectSchema, WithProperty;
    AnnotationNamedSchemaUnseen(Body(name, a), components, {}, name, b);
    RequestSame(Inline(Body(name, a), components, {}), where);
  }

  lemma LongTextIsLong(most: nat)
    ensures LongText(most).Str? && |LongText(most).s| == most + 1
  {
  }

  lemma BodyShape(name: string, a: Json)
    requires name in ANNOTATIONS
    ensures ObjectSchema(Body(name, a)) && Has(Body(name, a), "properties")
  {
    assert "$ref" !in ANNOTATIONS;
  }

  lemma BodyReplaced(name: string, a: Json, b: Json)
    ensures Has(Body(name, a), "properties") && Body(name, a).fields["properties"].Obj?
    ensures WithProperty(Body(name, a), name, b) == Body(name, b)
  {
    assert map[name := a][name := b] == map[name := b];
    assert WithProperty(Body(name, a), name, b).fields == Body(name, b).fields;
  }

  lemma BodyTakes(c: Context, fuel: nat, name: string, a: Json, v: Json)
    ensures Validates(c, fuel, Body(name, a), Obj(map[name := v])) <==> Validates(c, fuel, a, v)
  {
    var s := Body(name, a);
    assert Get(s, "type") == Str("object") && DictAt(s, "properties")[name] == a;
    assert forall k :: k != "type" && k != "properties" ==> !Has(s, k);
    assert Assertions(c, s, Obj(map[name := v]));
  }

  /** A response that always held one text property. */
  function OneField(name: string): Json {
    Obj(map["type" := Str("object"), "properties" := Obj(map[name := Just("string")]), "required" := Arr([Str(name)])])
  }

  /** An object with no property to read. */
  predicate Hollow(s: Json) {
    && Get(s, "type") == Str("object") && DictAt(s, "properties") == map[]
    && !Has(s, "anyOf") && !Has(s, "oneOf") && !Has(s, "items") && !Has(s, "$cycle")
  }

  /** Inlined, it has no property any more. */
  lemma OneFieldInlined(components: map<string, Json>, name: string)
    requires name in ANNOTATIONS
    ensures Hollow(Inline(OneField(name), components, {}))
  {
    hide Inline, Just;
    var s := OneField(name);
    assert "type" !in ANNOTATIONS && "properties" !in ANNOTATIONS;
    assert !Has(s, "$ref") && !Has(s, "anyOf") && !Has(s, "oneOf") && !Has(s, "items") && !Has(s, "$cycle");
    AnnotationStripped(components, name, Just("string"));
    FlatIsKept(Str("object"), components, {});
    FieldsInlined(s, components, {});
  }

  lemma ObjectInlined(components: map<string, Json>)
    ensures Hollow(Inline(Just("object"), components, {}))
  {
    hide Inline;
    assert "type" !in ANNOTATIONS && !Has(Just("object"), "$ref");
    FlatIsKept(Str("object"), components, {});
    FieldsInlined(Just("object"), components, {});
  }

  lemma HollowIsSilent(o: Json, n: Json, where: string)
    requires Hollow(o) && Hollow(n)
    ensures ResponseLines(o, n, where) == multiset{}
  {
    hide ResponseLines, Requires, Types;
    ObjectTypes(o);
    ObjectTypes(n);
    SameTypeStays(o, n);
    ResponseSilent(o, n, where);
  }

  lemma ObjectTypes(s: Json)
    requires Get(s, "type") == Str("object")
    ensures Types(s) == {"object"}
  {
  }

  lemma FieldMissing(name: string)
    ensures !Readable(OneField(name), Obj(map[]))
  {
    hide Just, Types, Widen;
    var s := OneField(name);
    assert Get(s, "anyOf") == Null && Get(s, "oneOf") == Null;
    assert name in DictAt(s, "properties");
    assert ListAt(s, "required")[0] == Str(name);
  }

  /** The removal of an always-present property named like an annotation is silent, and an app that reads
      it does not find it. */
  lemma AnnotationNamedRemovalUnreported(c: Context, fuel: nat, name: string, where: string)
    requires name in ANNOTATIONS
    ensures ResponseLines(Inline(OneField(name), c.components, {}), Inline(Just("object"), c.components, {}), where) == multiset{}
    ensures Validates(c, fuel, Just("object"), Obj(map[]))
    ensures !Readable(OneField(name), Obj(map[]))
  {
    hide ResponseLines, Inline, Readable, Validates, Just, OneField, Hollow;
    OneFieldInlined(c.components, name);
    ObjectInlined(c.components);
    HollowIsSilent(Inline(OneField(name), c.components, {}), Inline(Just("object"), c.components, {}), where);
    JustTakes(c, fuel, "object", Obj(map[]));
    FieldMissing(name);
  }

  // ------------------------------------------------------------------ exactly one of

  /** Of a `oneOf`, loosening one member can refuse a value: it was taken by the other alone, and is now
      taken by both. */
  lemma OneOfTightened(c: Context, fuel: nat, name: string, v: Json)
    requires name in ANNOTATIONS && v != Null
    ensures var s := Obj(map["oneOf" := Arr([Obj(map["properties" := Obj(map[name := NULL_SCHEMA])]), Obj(map[])])]);
      && Validates(c, fuel, s, Obj(map[name := v]))
      && !Validates(c, fuel, Inline(s, c.components, {}), Obj(map[name := v]))
  {
    var first := Obj(map["properties" := Obj(map[name := NULL_SCHEMA])]);
    var s, members := Obj(map["oneOf" := Arr([first, Obj(map[])])]), [first, Obj(map[])];
    var value := Obj(map[name := v]);
    AnnotationNamedPropertyLost(c, fuel, name, v);
    EmptyAccepts(c, fuel, value);
    OneOfInlined(c.components, name, first, s);
    hide Validates, Inline, NULL_SCHEMA;
    assert members[0] == first && members[1] == Obj(map[]);
    PairTakes(c, fuel, s, "oneOf", members, 1, value);
    var hollow := Obj(map["properties" := Obj(map[])]);
    EmptyProperties(c, fuel, value);
    BothTake(c, fuel, hollow, Obj(map[]), value);
  }

  lemma OneOfInlined(components: map<string, Json>, name: string, first: Json, s: Json)
    requires name in ANNOTATIONS && first == Obj(map["properties" := Obj(map[name := NULL_SCHEMA])])
    requires s == Obj(map["oneOf" := Arr([first, Obj(map[])])])
    ensures Inline(s, components, {}) == Obj(map["oneOf" := Arr([Obj(map["properties" := Obj(map[])]), Obj(map[])])])
  {
    hide NULL_SCHEMA;
    StrippedProperties(components, name, first);
    var members := Arr([first, Obj(map[])]);
    assert "oneOf" !in ANNOTATIONS && !Has(s, "$ref");
    assert Inline(Obj(map[]), components, {}).fields == map[];
    assert Inline(members, components, {}).items == [Obj(map["properties" := Obj(map[])]), Obj(map[])];
    FieldsInlined(s, components, {});
    hide Inline;
    assert Inline(s, components, {}).fields == map["oneOf" := Inline(members, components, {})];
  }

  lemma BothTake(c: Context, fuel: nat, a: Json, b: Json, v: Json)
    requires Validates(c, fuel, a, v) && Validates(c, fuel, b, v)
    ensures !Validates(c, fuel, Obj(map["oneOf" := Arr([a, b])]), v)
  {
    hide Validates;
    var s, members := Obj(map["oneOf" := Arr([a, b])]), [a, b];
    UnionOnly(c, fuel, s, v);
    assert Get(s, "oneOf") == Arr(members) && ListAt(s, "oneOf") == members && members[0] == a && members[1] == b;
  }

  // ------------------------------------------------------------------ enum values and cycles

  /** A dictionary in an enum loses its annotation keys: the value that was admitted is refused. */
  lemma EnumValueStripped(c: Context, fuel: nat, name: string, v: Json)
    requires name in ANNOTATIONS
    ensures var s := Choice([Obj(map[name := v])]);
      && Validates(c, fuel, s, Obj(map[name := v]))
      && !Validates(c, fuel, Inline(s, c.components, {}), Obj(map[name := v]))
  {
    hide Validates, Inline, Choice;
    ChoiceParts(c, fuel, [Obj(map[name := v])], Obj(map[name := v]));
    ChoiceParts(c, fuel, [Obj(map[])], Obj(map[name := v]));
    ChoiceInlined(c.components, name, v);
    assert name in map[name := v];
    assert [Obj(map[])][0] == Obj(map[]) && [Obj(map[name := v])][0] == Obj(map[name := v]);
  }

  lemma ChoiceInlined(components: map<string, Json>, name: string, v: Json)
    requires name in ANNOTATIONS
    ensures Inline(Choice([Obj(map[name := v])]), components, {}) == Choice([Obj(map[])])
  {
    var s, value := Choice([Obj(map[name := v])]), Obj(map[name := v]);
    assert "$ref" !in ANNOTATIONS && "enum" !in ANNOTATIONS;
    AnnotationStripped(components, name, v);
    assert Inline(Arr([value]), components, {}).items == [Obj(map[])];
    assert Inline(s, components, {}).fields == map["enum" := Arr([Obj(map[])])];
  }

  /** What stands where a reference cycle is cut accepts every value. */
  lemma MarkerAcceptsEverything(c: Context, fuel: nat, name: string, v: Json)
    ensures Validates(c, fuel, Marker(name), v)
  {
    assert Get(Marker(name), "$ref") == Null;
    NoKeywords(c, fuel, Marker(name), v);
  }

  /** A list of lists, at every depth: inlined, it is a list of anything. */
  lemma CycleLost(c: Context, fuel: nat, name: string)
    requires '/' !in name && fuel >= 2
    requires name in c.components && c.components[name] == ListOf(RefTo(name))
    ensures !Validates(c, fuel, RefTo(name), Arr([Str("x")]))
    ensures Validates(c, fuel, Inline(RefTo(name), c.components, {}), Arr([Str("x")]))
  {
    hide Validates, Inline, ListOf, RefTo, Marker;
    var v := Arr([Str("x")]);
    RefToNames(name);
    RefMeansComponent(c, fuel, name, v);
    RefMeansComponent(c, fuel - 1, name, Str("x"));
    ListTakes(c, fuel - 1, RefTo(name), v);
    ListTakes(c, fuel - 2, RefTo(name), Str("x"));
    CycleInlined(c.components, name);
    ListTakes(c, fuel, Marker(name), v);
    MarkerAcceptsEverything(c, fuel, name, Str("x"));
    assert v.items[0] == Str("x");
  }

  lemma RefMeansComponent(c: Context, fuel: nat, name: string, v: Json)
    requires '/' !in name && name in c.components && fuel > 0
    ensures Validates(c, fuel, RefTo(name), v) <==> Validates(c, fuel - 1, c.components[name], v)
  {
    RefToNames(name);
    NoKeywords(c, fuel, RefTo(name), v);
  }

  lemma ListTakes(c: Context, fuel: nat, items: Json, v: Json)
    ensures Validates(c, fuel, ListOf(items), v) <==>
            v.Arr? && forall i :: 0 <= i < |v.items| ==> Validates(c, fuel, items, v.items[i])
  {
    var s := ListOf(items);
    assert Get(s, "type") == Str("array") && Get(s, "items") == items;
    assert forall k :: k != "type" && k != "items" ==> !Has(s, k);
    assert TypeOk(s, v) <==> v.Arr?;
  }

  lemma CycleInlined(components: map<string, Json>, name: string)
    requires '/' !in name && name in components && components[name] == ListOf(RefTo(name))
    ensures Inline(RefTo(name), components, {}) == ListOf(Marker(name))
  {
    RefToNames(name);
    assert {} + {name} == {name};
    assert "type" !in ANNOTATIONS && "items" !in ANNOTATIONS;
    assert Get(ListOf(RefTo(name)), "$ref") == Null;
    assert Inline(RefTo(name), components, {name}) == Marker(name);
    assert Inline(ListOf(RefTo(name)), components, {name}).fields == ListOf(Marker(name)).fields;
  }
}
