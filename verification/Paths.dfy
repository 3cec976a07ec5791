/** When a loss deep inside a response reaches the report. */
module Paths {
  import opened Json
  import opened Bags
  import opened Compare
  import opened CompareLaws
  import opened Places

  /** One step down: into a property, or into the items of an array. */
  datatype Step = Field(name: string) | Item

  function StepDown(o: Json, step: Step): Json
    requires CanStep(o, step)
  {
    match step
    case Field(name) => DictAt(o, "properties")[name]
    case Item => o.fields["items"]
  }

  predicate CanStep(o: Json, step: Step) {
    match step
    case Field(name) => name in DictAt(o, "properties")
    case Item => Has(o, "items")
  }

  function PlaceOf(where: string, step: Step): string {
    match step
    case Field(name) => where + "." + name
    case Item => where + "[]"
  }

  /** The comparison walks the whole path: both schemas can step, out of their wrappers, neither cut at a
      cycle and no type moved on the way. A union that is no wrapper has nothing to step into. */
  ghost predicate Leads(was: Json, now: Json, path: seq<Step>)
    decreases |path|
  {
    var o, n := Unwrap(was).0, Unwrap(now).0;
    && !Cut(was, now) && !TypeMoved(o, n)
    && (path != [] ==> CanStep(o, path[0]) && CanStep(n, path[0]) && Leads(StepDown(o, path[0]), StepDown(n, path[0]), path[1..]))
  }

  /** The two schemas at the end, out of their wrappers. */
  function EndOf(was: Json, now: Json, path: seq<Step>): (Json, Json)
    requires Leads(was, now, path)
    decreases |path|
  {
    var o, n := Unwrap(was).0, Unwrap(now).0;
    if path == [] then (o, n) else EndOf(StepDown(o, path[0]), StepDown(n, path[0]), path[1..])
  }

  function PlaceAt(where: string, path: seq<Step>): string
    decreases |path|
  {
    if path == [] then where else PlaceAt(PlaceOf(where, path[0]), path[1..])
  }

  /** No property name, at any depth, reads like two steps. */
  ghost predicate OneStepNames(s: Json)
    decreases s
  {
    var o := Unwrap(s).0;
    && (forall name :: name in DictAt(o, "properties") ==> OneStep(name) && OneStepNames(DictAt(o, "properties")[name]))
    && (Has(o, "items") ==> OneStepNames(o.fields["items"]))
  }

  /** The place is a step's place or lies under it. */
  predicate Beneath(at: string, place: string) {
    place == at || Under(at, place)
  }

  lemma NextOf(x: string, rest: string, place: string)
    requires x + rest <= place && rest != ""
    ensures |x| < |place| && place[|x|] in rest
  {
    assert place[|x|] == (x + rest)[|x|] == rest[0];
  }

  lemma FieldsApart(where: string, a: string, b: string, place: string)
    requires Beneath(where + "." + a, place) && Beneath(where + "." + b, place) && OneStep(b) && |a| <= |b|
    ensures a == b
  {
    var x, y := where + "." + a, where + "." + b;
    assert place[..|x|] == x && place[..|y|] == y;
    assert a == b[..|a|] by {
      assert place[|where| + 1..|x|] == a && place[|where| + 1..|y|] == b;
    }
    var rest := b[|a|..];
    assert y == x + rest && forall ch :: ch in rest ==> ch in b;
    if rest != "" { NextOf(x, rest, place); }
  }

  /** Two steps of plain names with a place in common are one step. */
  lemma StepsApart(where: string, a: Step, b: Step, place: string)
    requires Beneath(PlaceOf(where, a), place) && Beneath(PlaceOf(where, b), place)
    requires a.Field? ==> OneStep(a.name)
    requires b.Field? ==> OneStep(b.name)
    ensures a == b
  {
    assert place[|where|] == PlaceOf(where, a)[|where|] == PlaceOf(where, b)[|where|];
    if a.Field? && b.Field? {
      hide OneStep;
      if |a.name| <= |b.name| { FieldsApart(where, a.name, b.name, place); }
      else { FieldsApart(where, b.name, a.name, place); }
    }
  }

  lemma {:induction false} PlaceIsBeneath(where: string, path: seq<Step>, name: string)
    ensures Under(where, PlaceAt(where, path) + "." + name)
    decreases |path|
  {
    if path == [] {
      DeeperPlace(where, "." + name, where + "." + name);
    } else {
      PlaceIsBeneath(PlaceOf(where, path[0]), path[1..], name);
      StepIsUnder(where, path[0], PlaceAt(where, path) + "." + name);
    }
  }

  lemma StepIsUnder(where: string, step: Step, place: string)
    requires Beneath(PlaceOf(where, step), place)
    ensures Under(where, place)
  {
  }

  /** What is reported beneath a step is what the comparison a step down reports. */
  lemma ReportedBeneath(o: Json, n: Json, where: string, step: Step, line: Line)
    requires CanStep(o, step) && CanStep(n, step) && Under(PlaceOf(where, step), line.where)
    requires forall name :: name in DictAt(o, "properties") ==> OneStep(name)
    ensures line in ResponseInside(o, n, where) <==>
            line in ResponseLines(StepDown(o, step), StepDown(n, step), PlaceOf(where, step))
  {
    hide ResponseLines, ResponseProperty, OneStep, Under;
    var parts := ResponseParts(o, n, where);
    if line in ResponseInside(o, n, where) {
      if line in Gather(parts) {
        GatherMember(parts, line);
        var name :| name in parts && line in parts[name];
        PropertyIsDeeper(o, n, name, where, line);
        StepsApart(where, Field(name), step, line.where);
        OnlyNested(o, n, name, where, line);
      } else {
        ResponseStartsHere(o.fields["items"], n.fields["items"], where + "[]", line);
        StepsApart(where, Item, step, line.where);
      }
    }
    if line in ResponseLines(StepDown(o, step), StepDown(n, step), PlaceOf(where, step)) {
      match step
      case Field(name) =>
        OnlyNested(o, n, name, where, line);
        PropertyIsIncluded(o, n, where, name);
      case Item =>
    }
  }

  lemma OnlyNested(o: Json, n: Json, name: string, where: string, line: Line)
    requires name in DictAt(o, "properties") && name in DictAt(n, "properties") && Under(where + "." + name, line.where)
    ensures line in ResponseProperty(o, n, name, where) <==>
            line in ResponseLines(DictAt(o, "properties")[name], DictAt(n, "properties")[name], where + "." + name)
  {
    hide ResponseLines;
  }

  /** A loss at the end of a path is in the report of the whole exactly when it is in the comparison of the
      two ends. */
  lemma {:induction false} ReachesTheReport(was: Json, now: Json, where: string, path: seq<Step>, name: string, what: Finding)
    requires Leads(was, now, path) && OneStepNames(was) && what != NowNull
    ensures Line(PlaceAt(where, path) + "." + name, what) in ResponseLines(was, now, where) <==>
            Line(PlaceAt(where, path) + "." + name, what) in
              ResponseInside(EndOf(was, now, path).0, EndOf(was, now, path).1, PlaceAt(where, path))
    decreases |path|
  {
    hide ResponseLines, ResponseInside, Unwrap, TypeMoved, OneStep, Under;
    var line := Line(PlaceAt(where, path) + "." + name, what);
    var o, n := Unwrap(was).0, Unwrap(now).0;
    InsideUnlessMoved(was, now, where, line);
    if path != [] {
      PlaceIsBeneath(PlaceOf(where, path[0]), path[1..], name);
      ReportedBeneath(o, n, where, path[0], line);
      ReachesTheReport(StepDown(o, path[0]), StepDown(n, path[0]), PlaceOf(where, path[0]), path[1..], name, what);
    }
  }

  /** At the end of any path the comparison walks, a property is reported as removed, and as no longer
      always present, exactly when it is. */
  lemma NestedLossReportedExactly(was: Json, now: Json, where: string, path: seq<Step>, name: string)
    requires Leads(was, now, path) && OneStepNames(was) && OneStep(name)
    ensures var (o, n) := EndOf(was, now, path);
      && (Line(PlaceAt(where, path) + "." + name, Removed) in ResponseLines(was, now, where) <==>
            name in DictAt(o, "properties") && name !in DictAt(n, "properties"))
      && (Line(PlaceAt(where, path) + "." + name, NotAlwaysPresent) in ResponseLines(was, now, where) <==>
            && name in DictAt(o, "properties") && name in DictAt(n, "properties")
            && Requires(o, name) && !Requires(n, name))
  {
    hide ResponseLines, ResponseInside, ResponseProperty, Leads, OneStepNames, OneStep, EndOf, Requires, PlaceAt;
    var (o, n) := EndOf(was, now, path);
    var at := PlaceAt(where, path);
    ReachesTheReport(was, now, where, path, name, Removed);
    ReachesTheReport(was, now, where, path, name, NotAlwaysPresent);
    LossInsideExactly(o, n, at, name);
  }
}
