/** The comparison as the program runs it: loops that append to one shared report. */
module Reporting {
  import opened Json
  import opened Bags
  import opened Compare

  /** The list of lines every comparison appends to. */
  class Report {
    var lines: seq<Line>

    constructor ()
      ensures lines == []
    {
      lines := [];
    }

    method Append(line: Line)
      modifies this
      ensures lines == old(lines) + [line]
    {
      lines := lines + [line];
    }
  }

  /** Everything from `before` is still there, and exactly `added` was appended. */
  ghost predicate Appended(before: seq<Line>, after: seq<Line>, added: multiset<Line>) {
    before <= after && multiset(after) == multiset(before) + added
  }

  lemma AppendedNone(lines: seq<Line>)
    ensures Appended(lines, lines, multiset{})
  {
  }

  lemma AppendedOne(before: seq<Line>, line: Line)
    ensures Appended(before, before + [line], multiset{line})
  {
  }

  lemma AppendedTwice(a: seq<Line>, b: seq<Line>, c: seq<Line>, first: multiset<Line>, second: multiset<Line>)
    requires Appended(a, b, first) && Appended(b, c, second)
    ensures Appended(a, c, first + second)
  {
  }

  /** `if condition: out.append(line)` */
  method AppendWhen(condition: bool, line: Line, out: Report)
    modifies out
    ensures Appended(old(out.lines), out.lines, When(condition, line))
  {
    if condition {
      out.Append(line);
    }
  }

  method Response(was: Json, now: Json, where: string, out: Report)
    modifies out
    ensures Appended(old(out.lines), out.lines, ResponseLines(was, now, where))
    decreases was, 2
  {
    hide Appended, ResponseParts, Unwrap, TypeMoved, Widen, When;
    ghost var s0 := out.lines;
    AppendedNone(s0);
    if Cut(was, now) {
      return;
    }
    var (o, oNull) := Unwrap(was);
    var (n, nNull) := Unwrap(now);
    AppendWhen(nNull && !oNull, Line(where, NowNull), out);
    ghost var s1 := out.lines;
    if TypeMoved(o, n) {
      var line := Line(where, TypeChanged(Widen(Types(o)), Widen(Types(n))));
      out.Append(line);
      AppendedOne(s1, line);
      AppendedTwice(s0, s1, out.lines, When(nNull && !oNull, Line(where, NowNull)), multiset{line});
      return;
    }
    Properties(o, n, where, out);
    ghost var s2 := out.lines;
    ghost var nested := multiset{};
    AppendedNone(s2);
    if Has(o, "items") && Has(n, "items") {
      Response(o.fields["items"], n.fields["items"], where + "[]", out);
      nested := ResponseLines(o.fields["items"], n.fields["items"], where + "[]");
    }
    AppendedTwice(s1, s2, out.lines, Gather(ResponseParts(o, n, where)), nested);
    AppendedTwice(s0, s1, out.lines, When(nNull && !oNull, Line(where, NowNull)), ResponseInside(o, n, where));
  }

  method Properties(o: Json, n: Json, where: string, out: Report)
    modifies out
    ensures Appended(old(out.lines), out.lines, Gather(ResponseParts(o, n, where)))
    decreases o, 1
  {
    hide Appended, Gather;
    ghost var parts := ResponseParts(o, n, where);
    var todo := DictAt(o, "properties").Keys;
    NothingDone(out.lines, parts);
    while todo != {}
      invariant todo <= parts.Keys
      invariant Appended(old(out.lines), out.lines, Gather(parts - todo))
    {
      var name :| name in todo;
      ghost var s1, done := out.lines, Gather(parts - todo);
      Property(o, n, name, where, out);
      AppendedTwice(old(out.lines), s1, out.lines, done, parts[name]);
      GatherNext(parts, todo, name);
      todo := todo - {name};
    }
    assert parts - {} == parts;
  }

  lemma NothingDone<K(!new)>(lines: seq<Line>, parts: map<K, multiset<Line>>)
    ensures Appended(lines, lines, Gather(parts - parts.Keys))
  {
    assert parts - parts.Keys == map[];
  }

  method Property(o: Json, n: Json, name: string, where: string, out: Report)
    requires name in DictAt(o, "properties")
    modifies out
    ensures Appended(old(out.lines), out.lines, ResponseProperty(o, n, name, where))
    decreases o, 0
  {
    hide Appended, ResponseLines, When;
    var oldProps, newProps := DictAt(o, "properties"), DictAt(n, "properties");
    ghost var s0 := out.lines;
    if name !in newProps {
      out.Append(Line(where + "." + name, Removed));
      AppendedOne(s0, Line(where + "." + name, Removed));
    } else {
      AppendWhen(Requires(o, name) && !Requires(n, name), Line(where + "." + name, NotAlwaysPresent), out);
      ghost var s1 := out.lines;
      Response(oldProps[name], newProps[name], where + "." + name, out);
      AppendedTwice(s0, s1, out.lines,
                    When(Requires(o, name) && !Requires(n, name), Line(where + "." + name, NotAlwaysPresent)),
                    ResponseLines(oldProps[name], newProps[name], where + "." + name));
    }
  }

  // ------------------------------------------------------------------ requests

  method Request(was: Json, now: Json, where: string, out: Report)
    modifies out
    ensures Appended(old(out.lines), out.lines, RequestLines(was, now, where))
    decreases was, 2
  {
    hide Appended, RequestParts, RequestHere, Unwrap;
    ghost var s0 := out.lines;
    AppendedNone(s0);
    if Cut(was, now) {
      return;
    }
    var (o, _) := Unwrap(was);
    var (n, _) := Unwrap(now);
    Limits(o, n, where, out);
    ghost var s1 := out.lines;
    SharedProperties(o, n, where, out);
    ghost var s2 := out.lines;
    ghost var nested := multiset{};
    AppendedNone(s2);
    if Has(o, "items") && Has(n, "items") {
      Request(o.fields["items"], n.fields["items"], where + "[]", out);
      nested := RequestLines(o.fields["items"], n.fields["items"], where + "[]");
    }
    AppendedTwice(s1, s2, out.lines, Gather(RequestParts(o, n, where)), nested);
    AppendedTwice(s0, s1, out.lines, RequestHere(o, n, where), RequestInside(o, n, where));
  }

  /** Everything compared about the value itself. */
  method Limits(o: Json, n: Json, where: string, out: Report)
    modifies out
    ensures Appended(old(out.lines), out.lines, RequestHere(o, n, where))
  {
    hide Appended, When, Types, Widen, Tightened, Gone, NowRequiredLines, ListAt, Get;
    ghost var s0 := out.lines;
    var sent, accepted := Widen(Types(o)), Widen(Types(n));
    AppendWhen(sent != {} && accepted != {} && sent - accepted != {}, Line(where, TypesRejected(sent - accepted)), out);
    ghost var s1 := out.lines;
    AppendWhen(EnumNarrowed(o, n), Line(where, ValuesRejected(Gone(ListAt(o, "enum"), ListAt(n, "enum")))), out);
    AppendedTwice(s0, s1, out.lines, TypeLines(o, n, where), EnumLines(o, n, where));
    ghost var s2 := out.lines;
    Bounds(o, n, where, out);
    AppendedTwice(s0, s2, out.lines, TypeLines(o, n, where) + EnumLines(o, n, where), LimitLines(o, n, where));
    ghost var s3 := out.lines;
    AppendWhen(Get(n, "pattern") != Get(o, "pattern") && Has(n, "pattern"), Line(where, PatternChanged), out);
    AppendedTwice(s0, s3, out.lines, TypeLines(o, n, where) + EnumLines(o, n, where) + LimitLines(o, n, where), PatternLines(o, n, where));
    ghost var s4 := out.lines;
    RequiredNames(ListAt(n, "required"), o, where, out);
    AppendedTwice(s0, s4, out.lines,
                  TypeLines(o, n, where) + EnumLines(o, n, where) + LimitLines(o, n, where) + PatternLines(o, n, where),
                  NowRequiredLines(ListAt(n, "required"), o, where));
  }

  method Bounds(o: Json, n: Json, where: string, out: Report)
    modifies out
    ensures Appended(old(out.lines), out.lines, LimitLines(o, n, where))
  {
    hide Appended, When, Tightened;
    ghost var s0 := out.lines;
    AppendWhen(Tightened(o, n, "maxLength"), Line(where, BoundTightened("maxLength", Get(n, "maxLength"))), out);
    ghost var s1 := out.lines;
    AppendWhen(Tightened(o, n, "minLength"), Line(where, BoundTightened("minLength", Get(n, "minLength"))), out);
    AppendedTwice(s0, s1, out.lines, BoundLines(o, n, "maxLength", where), BoundLines(o, n, "minLength", where));
    ghost var s2 := out.lines;
    AppendWhen(Tightened(o, n, "maximum"), Line(where, BoundTightened("maximum", Get(n, "maximum"))), out);
    AppendedTwice(s0, s2, out.lines, BoundLines(o, n, "maxLength", where) + BoundLines(o, n, "minLength", where),
                  BoundLines(o, n, "maximum", where));
    ghost var s3 := out.lines;
    AppendWhen(Tightened(o, n, "minimum"), Line(where, BoundTightened("minimum", Get(n, "minimum"))), out);
    AppendedTwice(s0, s3, out.lines,
                  BoundLines(o, n, "maxLength", where) + BoundLines(o, n, "minLength", where) + BoundLines(o, n, "maximum", where),
                  BoundLines(o, n, "minimum", where));
  }

  method RequiredNames(names: seq<Json>, was: Json, where: string, out: Report)
    modifies out
    ensures Appended(old(out.lines), out.lines, NowRequiredLines(names, was, where))
  {
    hide Appended, When;
    AppendedNone(out.lines);
    for i := 0 to |names|
      invariant Appended(old(out.lines), out.lines, NowRequiredLines(names[..i], was, where))
    {
      ghost var s1 := out.lines;
      var missing := names[i].Str? && !Requires(was, names[i].s);
      AppendWhen(missing, Line(where + "." + Text(names[i]), NowRequired), out);
      assert names[..i + 1][..i] == names[..i];
      AppendedTwice(old(out.lines), s1, out.lines, NowRequiredLines(names[..i], was, where),
                    When(missing, Line(where + "." + Text(names[i]), NowRequired)));
    }
    assert names[..|names|] == names;
  }

  method SharedProperties(o: Json, n: Json, where: string, out: Report)
    modifies out
    ensures Appended(old(out.lines), out.lines, Gather(RequestParts(o, n, where)))
    decreases o, 1
  {
    hide Appended, Gather, RequestLines;
    var oldProps, newProps := DictAt(o, "properties"), DictAt(n, "properties");
    ghost var parts := RequestParts(o, n, where);
    var todo := oldProps.Keys * newProps.Keys;
    NothingDone(out.lines, parts);
    while todo != {}
      invariant todo <= parts.Keys
      invariant Appended(old(out.lines), out.lines, Gather(parts - todo))
    {
      var name :| name in todo;
      ghost var s1, done := out.lines, Gather(parts - todo);
      Request(oldProps[name], newProps[name], where + "." + name, out);
      AppendedTwice(old(out.lines), s1, out.lines, done, parts[name]);
      GatherNext(parts, todo, name);
      todo := todo - {name};
    }
    assert parts - {} == parts;
  }

  // ------------------------------------------------------------------ operations

  method Parameters(was: seq<Json>, now: seq<Json>, key: string, out: Report)
    modifies out
    ensures Appended(old(out.lines), out.lines, ParametersLines(was, now, key))
  {
    hide Appended, Gather, RequestLines;
    var before, after := ParameterTable(was), ParameterTable(now);
    ghost var parts := ParameterParts(before, after, key);
    var todo := after.Keys;
    assert parts.Keys == todo;
    NothingDone(out.lines, parts);
    while todo != {}
      invariant todo <= parts.Keys
      invariant Appended(old(out.lines), out.lines, Gather(parts - todo))
    {
      var ident :| ident in todo;
      ghost var s1, done := out.lines, Gather(parts - todo);
      Parameter(before, ident, after[ident], key, out);
      AppendedTwice(old(out.lines), s1, out.lines, done, parts[ident]);
      GatherNext(parts, todo, ident);
      todo := todo - {ident};
    }
    assert parts - {} == parts;
  }

  method Parameter(before: map<Ident, Json>, ident: Ident, parameter: Json, key: string, out: Report)
    modifies out
    ensures Appended(old(out.lines), out.lines, ParameterLines(before, ident, parameter, key))
  {
    hide Appended, RequestLines, When, Truthy, SchemaOf;
    ghost var s0 := out.lines;
    var where := key + " " + ident.place + " parameter '" + ident.name + "'";
    var known := ident in before && Truthy(before[ident]);
    var nowRequired := Truthy(Get(parameter, "required")) && !(known && Truthy(Get(before[ident], "required")));
    AppendWhen(nowRequired, Line(where, NowRequired), out);
    ghost var s1 := out.lines;
    AppendedNone(s1);
    ghost var nested := multiset{};
    if known {
      Request(SchemaOf(before[ident]), SchemaOf(parameter), where, out);
      nested := RequestLines(SchemaOf(before[ident]), SchemaOf(parameter), where);
    }
    AppendedTwice(s0, s1, out.lines, When(nowRequired, Line(where, NowRequired)), nested);
  }

  method Body(before: Json, after: Json, key: string, out: Report)
    modifies out
    ensures Appended(old(out.lines), out.lines, BodyLines(before, after, key))
  {
    hide Appended, RequestLines, When, Truthy, JsonOf, Get;
    ghost var s0 := out.lines;
    AppendedNone(s0);
    var oldBody, newBody := Get(before, "requestBody"), Get(after, "requestBody");
    if Truthy(oldBody) || Truthy(newBody) {
      var oldJson, newJson := JsonOf(Get(oldBody, "content")), JsonOf(Get(newBody, "content"));
      var nowRequired := Truthy(Get(newBody, "required")) && !Truthy(Get(oldBody, "required"));
      AppendWhen(nowRequired, Line(key + " request body", BodyNowRequired), out);
      ghost var s1 := out.lines;
      ghost var nested: multiset<Line>;
      if oldJson != Null && newJson != Null {
        Request(oldJson, newJson, key + " request", out);
        nested := RequestLines(oldJson, newJson, key + " request");
      } else {
        AppendWhen(oldJson != Null, Line(key + " request body", BodyNoLongerJson), out);
        nested := When(oldJson != Null, Line(key + " request body", BodyNoLongerJson));
      }
      AppendedTwice(s0, s1, out.lines, When(nowRequired, Line(key + " request body", BodyNowRequired)), nested);
    }
  }

  method Status(responses: map<string, Json>, status: string, response: Json, key: string, out: Report)
    modifies out
    ensures Appended(old(out.lines), out.lines, StatusLines(responses, status, response, key))
  {
    hide Appended, ResponseLines, When, JsonOf;
    ghost var s0 := out.lines;
    AppendedNone(s0);
    var where := key + " -> " + status;
    if status !in responses || responses[status] == Null {
      AppendWhen(status != "" && status[0] == '2', Line(where, SuccessRemoved), out);
      return;
    }
    var oldJson, newJson := JsonOf(Get(response, "content")), JsonOf(Get(responses[status], "content"));
    if oldJson != Null && newJson == Null {
      out.Append(Line(where, NoLongerJson));
      AppendedOne(s0, Line(where, NoLongerJson));
    } else if oldJson != Null && newJson != Null {
      Response(oldJson, newJson, where, out);
    }
  }

  method Responses(before: Json, after: Json, key: string, out: Report)
    modifies out
    ensures Appended(old(out.lines), out.lines, ResponsesLines(before, after, key))
  {
    hide Appended, Gather, StatusLines;
    var was, now := DictAt(before, "responses"), DictAt(after, "responses");
    ghost var parts := StatusParts(was, now, key);
    var todo := was.Keys;
    assert parts.Keys == todo;
    NothingDone(out.lines, parts);
    while todo != {}
      invariant todo <= parts.Keys
      invariant Appended(old(out.lines), out.lines, Gather(parts - todo))
    {
      var status :| status in todo;
      ghost var s1, done := out.lines, Gather(parts - todo);
      Status(now, status, was[status], key, out);
      AppendedTwice(old(out.lines), s1, out.lines, done, parts[status]);
      GatherNext(parts, todo, status);
      todo := todo - {status};
    }
    assert parts - {} == parts;
  }

  method Operation(key: string, before: Json, after: Json, out: Report)
    modifies out
    ensures Appended(old(out.lines), out.lines, OperationLines(key, before, after))
  {
    hide Appended, ParametersLines, BodyLines, ResponsesLines;
    ghost var s0 := out.lines;
    if after == Null {
      out.Append(Line(key, OperationRemoved));
      AppendedOne(s0, Line(key, OperationRemoved));
      return;
    }
    Parameters(ListAt(before, "parameters"), ListAt(after, "parameters"), key, out);
    ghost var s1 := out.lines;
    Body(before, after, key, out);
    ghost var s2 := out.lines;
    Responses(before, after, key, out);
    ghost var first := ParametersLines(ListAt(before, "parameters"), ListAt(after, "parameters"), key);
    AppendedTwice(s0, s1, s2, first, BodyLines(before, after, key));
    AppendedTwice(s0, s2, out.lines, first + BodyLines(before, after, key), ResponsesLines(before, after, key));
  }

  lemma FreshReport(lines: seq<Line>, all: multiset<Line>)
    requires Appended([], lines, all)
    ensures multiset(lines) == all
    ensures lines == [] <==> all == multiset{}
  {
    if lines != [] {
      assert lines[0] in multiset(lines);
    }
  }

  /** The whole comparison of two snapshots, in a fresh report. */
  method CompareSnapshots(was: map<string, Json>, now: map<string, Json>) returns (lines: seq<Line>)
    ensures multiset(lines) == BreakingChanges(was, now)
    ensures lines == [] <==> BreakingChanges(was, now) == multiset{}
  {
    hide Appended, Gather, OperationLines;
    var out := new Report();
    ghost var parts := OperationParts(was, now);
    var todo := was.Keys;
    assert parts.Keys == todo;
    NothingDone(out.lines, parts);
    while todo != {}
      invariant todo <= parts.Keys
      invariant Appended([], out.lines, Gather(parts - todo))
    {
      var key :| key in todo;
      ghost var s1, done := out.lines, Gather(parts - todo);
      Operation(key, was[key], EntryOf(now, key), out);
      AppendedTwice([], s1, out.lines, done, parts[key]);
      GatherNext(parts, todo, key);
      todo := todo - {key};
    }
    assert parts - {} == parts;
    lines := out.lines;
    FreshReport(lines, BreakingChanges(was, now));
  }
}
