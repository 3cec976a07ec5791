/** Where the lines of a comparison point: each at the schema it is about, under the operation it is
    about. */
module Places {
  import opened Json
  import opened Bags
  import opened Compare

  /** The place lies inside the schema at `where`: its text goes on with a property or an item. */
  predicate Under(where: string, place: string) {
    where < place && (place[|where|] == '.' || place[|where|] == '[')
  }

  lemma DeeperPlace(where: string, more: string, place: string)
    requires more != "" && (more[0] == '.' || more[0] == '[') && where + more <= place
    ensures Under(where, place)
  {
    assert place[..|where|] == where && place[|where|] == (where + more)[|where|];
  }

  // ------------------------------------------------------------------ responses

  /** A line about something inside points deeper than the schema itself. */
  lemma {:induction false} ResponseInsideIsDeeper(o: Json, n: Json, where: string, line: Line)
    requires line in ResponseInside(o, n, where)
    ensures Under(where, line.where)
    decreases o, 0
  {
    hide ResponseLines, ResponseProperty;
    var parts := ResponseParts(o, n, where);
    if line in Gather(parts) {
      GatherMember(parts, line);
      var name :| name in parts && line in parts[name];
      PropertyIsDeeper(o, n, name, where, line);
      assert where + "." + name == where + ("." + name);
      DeeperPlace(where, "." + name, line.where);
    } else {
      ResponseStartsHere(o.fields["items"], n.fields["items"], where + "[]", line);
      DeeperPlace(where, "[]", line.where);
    }
  }

  lemma {:induction false} PropertyIsDeeper(o: Json, n: Json, name: string, where: string, line: Line)
    requires name in DictAt(o, "properties") && line in ResponseProperty(o, n, name, where)
    ensures line.where == where + "." + name || Under(where + "." + name, line.where)
    decreases o, 0, 0
  {
    hide ResponseLines;
    if line.where != where + "." + name {
      ResponseStartsHere(DictAt(o, "properties")[name], DictAt(n, "properties")[name], where + "." + name, line);
    }
  }

  lemma {:induction false} ResponseStartsHere(was: Json, now: Json, where: string, line: Line)
    requires line in ResponseLines(was, now, where)
    ensures line.where == where || Under(where, line.where)
    decreases was, 1
  {
    hide ResponseInside;
    var o, n := Unwrap(was).0, Unwrap(now).0;
    if line in ResponseInside(o, n, where) {
      ResponseInsideIsDeeper(o, n, where, line);
    }
  }

  /** The lines about a schema's own place are exactly these: that it can now be null, and that its type
      moved, each when it did. */
  lemma ResponseReportedHere(was: Json, now: Json, where: string, what: Finding)
    requires !Cut(was, now)
    ensures Line(where, what) in ResponseLines(was, now, where) <==>
            var (o, oNull) := Unwrap(was);
            var (n, nNull) := Unwrap(now);
            || (what == NowNull && nNull && !oNull)
            || (what == TypeChanged(Widen(Types(o)), Widen(Types(n))) && TypeMoved(o, n))
  {
    hide ResponseInside, Unwrap, TypeMoved, Types, Widen;
    var o, n := Unwrap(was).0, Unwrap(now).0;
    if Line(where, what) in ResponseInside(o, n, where) {
      ResponseInsideIsDeeper(o, n, where, Line(where, what));
    }
  }

  /** A property name whose place cannot be confused with a place inside another property. */
  predicate OneStep(name: string) {
    '.' !in name && '[' !in name
  }

  lemma SamePlace(where: string, a: string, b: string)
    requires OneStep(b)
    ensures !Under(where + "." + a, where + "." + b) && !Under(where + "[]", where + "." + b) && where + "." + b != where + "[]"
    ensures where + "." + a == where + "." + b ==> a == b
  {
    var x, y := where + "." + a, where + "." + b;
    assert x[|where| + 1..] == a && y[|where| + 1..] == b;
    assert |a| < |b| ==> y[|x|] == b[|a|];
    assert y[|where|] == '.' && (where + "[]")[|where|] == '[';
  }

  lemma LossInside(o: Json, n: Json, where: string, name: string, what: Finding)
    requires OneStep(name) && Line(where + "." + name, what) in ResponseInside(o, n, where)
    ensures name in DictAt(o, "properties") && Line(where + "." + name, what) in ResponseProperty(o, n, name, where)
  {
    hide ResponseLines, ResponseProperty;
    var line := Line(where + "." + name, what);
    var parts := ResponseParts(o, n, where);
    if line in Gather(parts) {
      GatherMember(parts, line);
      var p :| p in parts && line in parts[p];
      PropertyIsDeeper(o, n, p, where, line);
      SamePlace(where, p, name);
    } else {
      ResponseStartsHere(o.fields["items"], n.fields["items"], where + "[]", line);
      SamePlace(where, "", name);
    }
  }

  lemma PropertyIsIncluded(o: Json, n: Json, where: string, name: string)
    requires name in DictAt(o, "properties")
    ensures ResponseProperty(o, n, name, where) <= ResponseInside(o, n, where)
  {
    hide ResponseProperty, ResponseLines;
    var parts := ResponseParts(o, n, where);
    GatherHolds(parts, name);
    assert Gather(parts) <= ResponseInside(o, n, where);
  }

  lemma NotAboutPresence(was: Json, now: Json, where: string)
    ensures Line(where, Removed) !in ResponseLines(was, now, where)
    ensures Line(where, NotAlwaysPresent) !in ResponseLines(was, now, where)
  {
    hide Unwrap, TypeMoved, Types, Widen;
    if !Cut(was, now) {
      ResponseReportedHere(was, now, where, Removed);
      ResponseReportedHere(was, now, where, NotAlwaysPresent);
    }
  }

  lemma LossOfProperty(o: Json, n: Json, where: string, name: string)
    requires name in DictAt(o, "properties")
    ensures Line(where + "." + name, Removed) in ResponseProperty(o, n, name, where) <==> name !in DictAt(n, "properties")
    ensures Line(where + "." + name, NotAlwaysPresent) in ResponseProperty(o, n, name, where) <==>
            name in DictAt(n, "properties") && Requires(o, name) && !Requires(n, name)
  {
    hide ResponseLines, Requires;
    if name in DictAt(n, "properties") {
      NotAboutPresence(DictAt(o, "properties")[name], DictAt(n, "properties")[name], where + "." + name);
    }
  }

  /** A property the app reads that went, or is no longer always there, is reported under its name. */
  lemma LossIsReported(was: Json, now: Json, where: string, name: string)
    requires !Cut(was, now) && !TypeMoved(Unwrap(was).0, Unwrap(now).0)
    requires name in DictAt(Unwrap(was).0, "properties")
    ensures var o, n := Unwrap(was).0, Unwrap(now).0;
      && (name !in DictAt(n, "properties") ==> Line(where + "." + name, Removed) in ResponseLines(was, now, where))
      && (name in DictAt(n, "properties") && Requires(o, name) && !Requires(n, name) ==>
            Line(where + "." + name, NotAlwaysPresent) in ResponseLines(was, now, where))
  {
    hide Unwrap, TypeMoved, Requires, ResponseInside, ResponseProperty, ResponseLines;
    var o, n := Unwrap(was).0, Unwrap(now).0;
    PropertyIsIncluded(o, n, where, name);
    LossOfProperty(o, n, where, name);
    InsideUnlessMoved(was, now, where, Line(where + "." + name, Removed));
    InsideUnlessMoved(was, now, where, Line(where + "." + name, NotAlwaysPresent));
  }

  lemma LossInsideExactly(o: Json, n: Json, where: string, name: string)
    requires OneStep(name)
    ensures Line(where + "." + name, Removed) in ResponseInside(o, n, where) <==>
            name in DictAt(o, "properties") && name !in DictAt(n, "properties")
    ensures Line(where + "." + name, NotAlwaysPresent) in ResponseInside(o, n, where) <==>
            && name in DictAt(o, "properties") && name in DictAt(n, "properties")
            && Requires(o, name) && !Requires(n, name)
  {
    hide Requires, ResponseInside, ResponseProperty, ResponseLines;
    if name in DictAt(o, "properties") {
      PropertyIsIncluded(o, n, where, name);
      LossOfProperty(o, n, where, name);
    }
    if Line(where + "." + name, Removed) in ResponseInside(o, n, where) {
      LossInside(o, n, where, name, Removed);
    }
    if Line(where + "." + name, NotAlwaysPresent) in ResponseInside(o, n, where) {
      LossInside(o, n, where, name, NotAlwaysPresent);
    }
  }

  /** A property is reported as removed, and as no longer always present, exactly when it is. */
  lemma LossReportedExactly(was: Json, now: Json, where: string, name: string)
    requires !Cut(was, now) && !TypeMoved(Unwrap(was).0, Unwrap(now).0) && OneStep(name)
    ensures var o, n := Unwrap(was).0, Unwrap(now).0;
      && (Line(where + "." + name, Removed) in ResponseLines(was, now, where) <==>
            name in DictAt(o, "properties") && name !in DictAt(n, "properties"))
      && (Line(where + "." + name, NotAlwaysPresent) in ResponseLines(was, now, where) <==>
            && name in DictAt(o, "properties") && name in DictAt(n, "properties")
            && Requires(o, name) && !Requires(n, name))
  {
    hide Unwrap, TypeMoved, Requires, ResponseInside, ResponseLines, OneStep;
    InsideUnlessMoved(was, now, where, Line(where + "." + name, Removed));
    InsideUnlessMoved(was, now, where, Line(where + "." + name, NotAlwaysPresent));
    LossInsideExactly(Unwrap(was).0, Unwrap(now).0, where, name);
  }

  lemma InsideUnlessMoved(was: Json, now: Json, where: string, line: Line)
    requires !Cut(was, now) && !TypeMoved(Unwrap(was).0, Unwrap(now).0) && line.what != NowNull
    ensures line in ResponseLines(was, now, where) <==> line in ResponseInside(Unwrap(was).0, Unwrap(now).0, where)
  {
    hide Unwrap, TypeMoved, ResponseInside;
  }

  // ------------------------------------------------------------------ requests

  lemma {:induction false} RequestInsideIsDeeper(o: Json, n: Json, where: string, line: Line)
    requires line in RequestInside(o, n, where)
    ensures Under(where, line.where)
    decreases o, 0
  {
    hide RequestLines;
    var parts := RequestParts(o, n, where);
    if line in Gather(parts) {
      GatherMember(parts, line);
      var name :| name in parts && line in parts[name];
      RequestStartsHere(DictAt(o, "properties")[name], DictAt(n, "properties")[name], where + "." + name, line);
      assert where + "." + name == where + ("." + name);
      DeeperPlace(where, "." + name, line.where);
    } else {
      RequestStartsHere(o.fields["items"], n.fields["items"], where + "[]", line);
      DeeperPlace(where, "[]", line.where);
    }
  }

  lemma {:induction false} NowRequiredIsDeeper(names: seq<Json>, was: Json, where: string, line: Line)
    requires line in NowRequiredLines(names, was, where)
    ensures Under(where, line.where) && line.what == NowRequired
  {
    hide Requires;
    var k := |names| - 1;
    if line in NowRequiredLines(names[..k], was, where) {
      NowRequiredIsDeeper(names[..k], was, where, line);
    } else {
      assert line.where == where + ("." + Text(names[k]));
      DeeperPlace(where, "." + Text(names[k]), line.where);
    }
  }

  lemma InTwo<T>(a: multiset<T>, b: multiset<T>, x: T)
    ensures x in a + b <==> x in a || x in b
  {
  }

  lemma InFour<T>(a: multiset<T>, b: multiset<T>, c: multiset<T>, d: multiset<T>, x: T)
    ensures x in a + b + c + d <==> x in a || x in b || x in c || x in d
  {
  }

  /** The lines about the value itself: one for each keyword that no longer admits what it did. */
  ghost predicate ReportsHere(o: Json, n: Json, where: string, line: Line) {
    || line in TypeLines(o, n, where)
    || line in EnumLines(o, n, where)
    || line in LimitLines(o, n, where)
    || line in PatternLines(o, n, where)
  }

  lemma RequestHereParts(o: Json, n: Json, where: string, line: Line)
    ensures line in RequestHere(o, n, where) <==>
            ReportsHere(o, n, where, line) || line in NowRequiredLines(ListAt(n, "required"), o, where)
  {
    hide TypeLines, EnumLines, LimitLines, PatternLines, NowRequiredLines, ListAt;
    var a, b, c, d := TypeLines(o, n, where), EnumLines(o, n, where), LimitLines(o, n, where), PatternLines(o, n, where);
    InFour(a, b, c, d, line);
    InTwo(a + b + c + d, NowRequiredLines(ListAt(n, "required"), o, where), line);
  }

  lemma LimitReported(o: Json, n: Json, where: string, line: Line)
    ensures line in LimitLines(o, n, where) <==>
            exists bound :: bound in {"maxLength", "minLength", "maximum", "minimum"}
                            && line == Line(where, BoundTightened(bound, Get(n, bound))) && Tightened(o, n, bound)
  {
    hide Tightened;
    InFour(BoundLines(o, n, "maxLength", where), BoundLines(o, n, "minLength", where),
           BoundLines(o, n, "maximum", where), BoundLines(o, n, "minimum", where), line);
  }

  lemma HereIsHere(o: Json, n: Json, where: string, line: Line)
    requires ReportsHere(o, n, where, line)
    ensures line.where == where
  {
    hide Types, Widen, EnumNarrowed, Gone, LimitLines, Get;
    LimitReported(o, n, where, line);
  }

  lemma {:induction false} RequestStartsHere(was: Json, now: Json, where: string, line: Line)
    requires line in RequestLines(was, now, where)
    ensures line.where == where || Under(where, line.where)
    decreases was, 1
  {
    hide RequestInside, RequestHere, NowRequiredLines, ReportsHere, Unwrap;
    var o, n := Unwrap(was).0, Unwrap(now).0;
    RequestHereParts(o, n, where, line);
    if line in RequestInside(o, n, where) {
      RequestInsideIsDeeper(o, n, where, line);
    } else if line in NowRequiredLines(ListAt(n, "required"), o, where) {
      NowRequiredIsDeeper(ListAt(n, "required"), o, where, line);
    } else {
      HereIsHere(o, n, where, line);
    }
  }

  lemma KeywordReported(o: Json, n: Json, where: string, what: Finding)
    ensures Line(where, what) in TypeLines(o, n, where) <==>
            var sent, accepted := Widen(Types(o)), Widen(Types(n));
            what == TypesRejected(sent - accepted) && sent != {} && accepted != {} && sent - accepted != {}
    ensures Line(where, what) in EnumLines(o, n, where) <==>
            what == ValuesRejected(Gone(ListAt(o, "enum"), ListAt(n, "enum"))) && EnumNarrowed(o, n)
    ensures Line(where, what) in PatternLines(o, n, where) <==>
            what == PatternChanged && Has(n, "pattern") && Get(n, "pattern") != Get(o, "pattern")
  {
    hide Types, Widen, EnumNarrowed, Gone, ListAt, Get;
  }

  lemma OnlyHere(was: Json, now: Json, where: string, what: Finding)
    requires !Cut(was, now)
    ensures Line(where, what) in RequestLines(was, now, where) <==>
            ReportsHere(Unwrap(was).0, Unwrap(now).0, where, Line(where, what))
  {
    hide RequestInside, RequestHere, NowRequiredLines, ReportsHere, Unwrap;
    var o, n := Unwrap(was).0, Unwrap(now).0;
    var line := Line(where, what);
    RequestHereParts(o, n, where, line);
    if line in RequestInside(o, n, where) {
      RequestInsideIsDeeper(o, n, where, line);
    }
    if line in NowRequiredLines(ListAt(n, "required"), o, where) {
      NowRequiredIsDeeper(ListAt(n, "required"), o, where, line);
    }
  }

  /** The lines about a value's own place are exactly these: the types no longer taken, the enum values
      gone, each bound that tightened, and the pattern. */
  lemma RequestReportedHere(was: Json, now: Json, where: string, what: Finding)
    requires !Cut(was, now)
    ensures Line(where, what) in RequestLines(was, now, where) <==>
            var o, n := Unwrap(was).0, Unwrap(now).0;
            var sent, accepted := Widen(Types(o)), Widen(Types(n));
            || (what == TypesRejected(sent - accepted) && sent != {} && accepted != {} && sent - accepted != {})
            || (what == ValuesRejected(Gone(ListAt(o, "enum"), ListAt(n, "enum"))) && EnumNarrowed(o, n))
            || (exists bound :: bound in {"maxLength", "minLength", "maximum", "minimum"}
                                && what == BoundTightened(bound, Get(n, bound)) && Tightened(o, n, bound))
            || (what == PatternChanged && Has(n, "pattern") && Get(n, "pattern") != Get(o, "pattern"))
  {
    var o, n := Unwrap(was).0, Unwrap(now).0;
    var line := Line(where, what);
    OnlyHere(was, now, where, what);
    KeywordReported(o, n, where, what);
    LimitReported(o, n, where, line);
    hide RequestLines, TypeLines, EnumLines, PatternLines, LimitLines, Tightened, Types, Widen, EnumNarrowed, Gone, Unwrap, Get;
  }

  /** What is reported at a property's place, but that it is now required, is what the comparison of its two
      schemas reports there. */
  lemma RequestReportedBelow(was: Json, now: Json, where: string, name: string, what: Finding)
    requires !Cut(was, now) && OneStep(name) && what != NowRequired
    ensures var o, n := Unwrap(was).0, Unwrap(now).0;
      Line(where + "." + name, what) in RequestLines(was, now, where) <==>
        && name in DictAt(o, "properties") && name in DictAt(n, "properties")
        && Line(where + "." + name, what) in
             RequestLines(DictAt(o, "properties")[name], DictAt(n, "properties")[name], where + "." + name)
  {
    hide RequestLines, RequestInside, RequestHere, OneStep, Unwrap, ReportsHere, NowRequiredLines;
    var o, n := Unwrap(was).0, Unwrap(now).0;
    var line := Line(where + "." + name, what);
    RequestHereParts(o, n, where, line);
    if line in RequestHere(o, n, where) {
      if ReportsHere(o, n, where, line) { HereIsHere(o, n, where, line); }
      else { NowRequiredIsDeeper(ListAt(n, "required"), o, where, line); }
    }
    RequestSplits(was, now, where);
    RequestInsideAt(o, n, where, name, what);
  }

  lemma RequestSplits(was: Json, now: Json, where: string)
    requires !Cut(was, now)
    ensures RequestLines(was, now, where) ==
            RequestHere(Unwrap(was).0, Unwrap(now).0, where) + RequestInside(Unwrap(was).0, Unwrap(now).0, where)
  {
    hide RequestHere, RequestInside, Unwrap;
  }

  lemma RequestInsideAt(o: Json, n: Json, where: string, name: string, what: Finding)
    requires OneStep(name)
    ensures Line(where + "." + name, what) in RequestInside(o, n, where) <==>
        && name in DictAt(o, "properties") && name in DictAt(n, "properties")
        && Line(where + "." + name, what) in
             RequestLines(DictAt(o, "properties")[name], DictAt(n, "properties")[name], where + "." + name)
  {
    hide RequestLines, OneStep, Under;
    var line := Line(where + "." + name, what);
    var parts := RequestParts(o, n, where);
    if line in RequestInside(o, n, where) {
      if line in Gather(parts) {
        GatherMember(parts, line);
        var p :| p in parts && line in parts[p];
        RequestStartsHere(DictAt(o, "properties")[p], DictAt(n, "properties")[p], where + "." + p, line);
        SamePlace(where, p, name);
      } else {
        RequestStartsHere(o.fields["items"], n.fields["items"], where + "[]", line);
        SamePlace(where, "", name);
      }
    }
    if name in DictAt(o, "properties") && name in DictAt(n, "properties") {
      GatherHolds(parts, name);
      assert parts[name] <= RequestInside(o, n, where);
    }
  }
}
