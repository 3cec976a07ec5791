/** What the report says of one exchange, with the keys of the recorded entries written out: a parameter, a
    request body, a response, and the keywords of a schema. */
module Exchanges {
  import opened Json
  import opened Bags
  import opened Validation
  import opened Compare
  import opened CompareLaws
  import opened Places

  // ------------------------------------------------------------------ whole entries

  /** `part["content"]["application/json"]["schema"]` is there, and is `s`. */
  predicate GivesJson(part: Json, s: Json) {
    && part.Obj? && "content" in part.fields
    && part.fields["content"].Obj? && "application/json" in part.fields["content"].fields
    && part.fields["content"].fields["application/json"].Obj?
    && "schema" in part.fields["content"].fields["application/json"].fields
    && part.fields["content"].fields["application/json"].fields["schema"] == s
    && s != Null
  }

  /** `entry["responses"][status]` is a dictionary that gives the JSON schema `s`. */
  predicate AnswersJson(entry: Json, status: string, s: Json) {
    && entry.Obj? && "responses" in entry.fields && entry.fields["responses"].Obj?
    && status in entry.fields["responses"].fields
    && GivesJson(entry.fields["responses"].fields[status], s)
  }

  predicate TakesJson(entry: Json, s: Json) {
    entry.Obj? && "requestBody" in entry.fields && GivesJson(entry.fields["requestBody"], s)
  }

  lemma JsonGiven(part: Json, s: Json)
    requires GivesJson(part, s)
    ensures JsonOf(Get(part, "content")) == s && part != Null && Truthy(part)
  {
  }

  /** A recorded response with JSON on both sides is compared by its schemas. */
  lemma StatusCompared(responses: map<string, Json>, status: string, response: Json, key: string, s: Json, n: Json)
    requires GivesJson(response, s) && status in responses && GivesJson(responses[status], n)
    ensures StatusLines(responses, status, response, key) == ResponseLines(s, n, key + " -> " + status)
  {
    hide ResponseLines, JsonOf, GivesJson, Get;
    JsonGiven(response, s);
    JsonGiven(responses[status], n);
    SchemaIsThere(response, s);
    SchemaIsThere(responses[status], n);
  }

  lemma SchemaIsThere(part: Json, s: Json)
    requires GivesJson(part, s)
    ensures s != Null
  {
  }

  lemma BodyCompared(before: Json, after: Json, key: string, s: Json, n: Json)
    requires TakesJson(before, s) && TakesJson(after, n)
    ensures RequestLines(s, n, key + " request") <= BodyLines(before, after, key)
  {
    hide RequestLines, JsonOf, GivesJson, Truthy;
    JsonGiven(before.fields["requestBody"], s);
    JsonGiven(after.fields["requestBody"], n);
    SchemaIsThere(before.fields["requestBody"], s);
    SchemaIsThere(after.fields["requestBody"], n);
  }

  lemma OperationReaches(was: map<string, Json>, now: map<string, Json>, key: string)
    requires key in was && key in now
    ensures OperationLines(key, was[key], now[key]) <= BreakingChanges(was, now)
  {
    hide OperationLines;
    GatherHolds(OperationParts(was, now), key);
    assert OperationParts(was, now)[key] == OperationLines(key, was[key], now[key]);
  }

  /** Every line of the comparison of two response schemas is in the report. */
  lemma ResponseSchemasCompared(was: map<string, Json>, now: map<string, Json>, key: string, status: string, s: Json, n: Json)
    requires key in was && key in now && AnswersJson(was[key], status, s) && AnswersJson(now[key], status, n)
    ensures ResponseLines(s, n, key + " -> " + status) <= BreakingChanges(was, now)
  {
    hide ResponseLines, OperationLines, ResponsesLines, GivesJson;
    var before, after := was[key], now[key];
    ResponseIsIncluded(before, after, key, status, s, n);
    OperationReaches(was, now, key);
  }

  lemma ResponseIsIncluded(before: Json, after: Json, key: string, status: string, s: Json, n: Json)
    requires AnswersJson(before, status, s) && AnswersJson(after, status, n)
    ensures ResponseLines(s, n, key + " -> " + status) <= OperationLines(key, before, after)
  {
    hide ResponseLines, ParametersLines, BodyLines, StatusLines, GivesJson;
    var parts := StatusParts(DictAt(before, "responses"), DictAt(after, "responses"), key);
    StatusCompared(after.fields["responses"].fields, status, before.fields["responses"].fields[status], key, s, n);
    GatherHolds(parts, status);
    assert ResponsesLines(before, after, key) <= OperationLines(key, before, after);
  }

  /** And of two request body schemas. */
  lemma BodySchemasCompared(was: map<string, Json>, now: map<string, Json>, key: string, s: Json, n: Json)
    requires key in was && key in now && TakesJson(was[key], s) && TakesJson(now[key], n)
    ensures RequestLines(s, n, key + " request") <= BreakingChanges(was, now)
  {
    hide RequestLines, ParametersLines, ResponsesLines, BodyLines, GivesJson;
    var before, after := was[key], now[key];
    BodyCompared(before, after, key, s, n);
    assert BodyLines(before, after, key) <= OperationLines(key, before, after);
    OperationReaches(was, now, key);
  }

  // ------------------------------------------------------------------ entries with one thing in them

  lemma GatherOne<K(!new), V(!new)>(k: K, bag: multiset<V>)
    ensures Gather(map[k := bag]) == bag
  {
    GatherPick(map[k := bag], k);
    assert map[k := bag] - {k} == map[];
  }

  lemma OneOperation(key: string, before: Json, after: Json)
    ensures BreakingChanges(map[key := before], map[key := after]) == OperationLines(key, before, after)
  {
    hide OperationLines;
    assert OperationParts(map[key := before], map[key := after]) == map[key := OperationLines(key, before, after)];
    GatherOne(key, OperationLines(key, before, after));
  }

  /** An operation that is gone is one line, and nothing else about it is. */
  lemma GoneExactly(key: string, before: Json)
    ensures BreakingChanges(map[key := before], map[]) == multiset{Line(key, OperationRemoved)}
  {
    assert OperationParts(map[key := before], map[]) == map[key := multiset{Line(key, OperationRemoved)}];
    GatherOne(key, multiset{Line(key, OperationRemoved)});
  }

  function JsonPart(s: Json): Json {
    Obj(map["content" := Obj(map["application/json" := Obj(map["schema" := s])])])
  }

  function OneResponse(status: string, part: Json): Json {
    Obj(map["responses" := Obj(map[status := part])])
  }

  lemma NothingButResponses(key: string, before: map<string, Json>, after: map<string, Json>)
    ensures OperationLines(key, Obj(map["responses" := Obj(before)]), Obj(map["responses" := Obj(after)])) ==
            Gather(StatusParts(before, after, key))
  {
    ResponsesAlone(before);
    ResponsesAlone(after);
    ParametersSame([], key);
    NoBodyLines(key, Obj(map["responses" := Obj(before)]), Obj(map["responses" := Obj(after)]));
    hide StatusParts, BodyLines, ParametersLines, DictAt, ListAt;
  }

  lemma ResponsesAlone(responses: map<string, Json>)
    ensures var entry := Obj(map["responses" := Obj(responses)]);
      && ListAt(entry, "parameters") == [] && Get(entry, "requestBody") == Null && DictAt(entry, "responses") == responses
  {
  }

  lemma NoBodyLines(key: string, before: Json, after: Json)
    requires Get(before, "requestBody") == Null && Get(after, "requestBody") == Null
    ensures BodyLines(before, after, key) == multiset{}
  {
  }

  lemma OneStatus(key: string, status: string, part: Json, after: map<string, Json>)
    ensures BreakingChanges(map[key := OneResponse(status, part)], map[key := Obj(map["responses" := Obj(after)])]) ==
            StatusLines(after, status, part, key)
  {
    hide StatusLines, OperationLines, BreakingChanges;
    OneOperation(key, OneResponse(status, part), Obj(map["responses" := Obj(after)]));
    NothingButResponses(key, map[status := part], after);
    assert StatusParts(map[status := part], after, key) == map[status := StatusLines(after, status, part, key)];
    GatherOne(status, StatusLines(after, status, part, key));
  }

  /** One recorded response and nothing else: the report is the comparison of the two schemas. */
  lemma OneResponseExactly(key: string, status: string, s: Json, n: Json)
    requires s != Null && n != Null
    ensures BreakingChanges(map[key := OneResponse(status, JsonPart(s))], map[key := OneResponse(status, JsonPart(n))]) ==
            ResponseLines(s, n, key + " -> " + status)
  {
    hide ResponseLines, StatusLines, BreakingChanges;
    OneStatus(key, status, JsonPart(s), map[status := JsonPart(n)]);
    StatusCompared(map[status := JsonPart(n)], status, JsonPart(s), key, s, n);
  }

  /** A response that is gone is a line exactly when its status begins with 2. */
  lemma StatusGoneExactly(key: string, status: string, part: Json)
    ensures BreakingChanges(map[key := OneResponse(status, part)], map[key := Obj(map["responses" := Obj(map[])])]) ==
            if status != "" && status[0] == '2' then multiset{Line(key + " -> " + status, SuccessRemoved)} else multiset{}
  {
    hide BreakingChanges, ResponseLines;
    OneStatus(key, status, part, map[]);
  }

  /** A response that no longer gives JSON is one line, whatever its status. */
  lemma NoJsonExactly(key: string, status: string, s: Json)
    requires s != Null
    ensures BreakingChanges(map[key := OneResponse(status, JsonPart(s))], map[key := OneResponse(status, Obj(map[]))]) ==
            multiset{Line(key + " -> " + status, NoLongerJson)}
  {
    hide BreakingChanges, ResponseLines;
    OneStatus(key, status, JsonPart(s), map[status := Obj(map[])]);
    JsonGiven(JsonPart(s), s);
    hide JsonPart;
    assert JsonOf(Get(Obj(map[]), "content")) == Null;
  }

  /** A request body, required or not. */
  function OneBody(required: bool, s: Json): Json {
    Obj(map["requestBody" := Obj(map[
                               "required" := Bool(required),
                               "content" := Obj(map["application/json" := Obj(map["schema" := s])])])])
  }

  lemma NothingButBody(key: string, before: Json, after: Json)
    requires !Has(before, "parameters") && !Has(before, "responses") && !Has(after, "parameters") && !Has(after, "responses")
    requires after != Null
    ensures BreakingChanges(map[key := before], map[key := after]) == BodyLines(before, after, key)
  {
    hide BodyLines;
    OneOperation(key, before, after);
    ParametersSame([], key);
    assert StatusParts(map[], map[], key) == map[];
    assert Gather(StatusParts(map[], map[], key)) == multiset{};
  }

  /** One request body and nothing else: whether it is now required, and the comparison of the schemas. */
  lemma OneBodyExactly(key: string, wasRequired: bool, s: Json, nowRequired: bool, n: Json)
    requires s != Null && n != Null
    ensures BreakingChanges(map[key := OneBody(wasRequired, s)], map[key := OneBody(nowRequired, n)]) ==
            (if nowRequired && !wasRequired then multiset{Line(key + " request body", BodyNowRequired)} else multiset{}) +
            RequestLines(s, n, key + " request")
  {
    hide RequestLines;
    NothingButBody(key, OneBody(wasRequired, s), OneBody(nowRequired, n));
    BodyParts(wasRequired, s);
    BodyParts(nowRequired, n);
    hide OneBody, JsonOf;
  }

  lemma BodyParts(required: bool, s: Json)
    ensures var body := Get(OneBody(required, s), "requestBody");
      Truthy(body) && JsonOf(Get(body, "content")) == s && Truthy(Get(body, "required")) == required
  {
    var body := Get(OneBody(required, s), "requestBody");
    assert "content" in body.fields && Get(body, "required") == Bool(required);
  }

  /** A body where none was: a line exactly when it is required. A body that is gone: it no longer takes
      JSON. */
  lemma BodyAppearsOrGoes(key: string, required: bool, s: Json)
    requires s != Null
    ensures BreakingChanges(map[key := Obj(map[])], map[key := OneBody(required, s)]) ==
            if required then multiset{Line(key + " request body", BodyNowRequired)} else multiset{}
    ensures BreakingChanges(map[key := OneBody(required, s)], map[key := Obj(map[])]) ==
            multiset{Line(key + " request body", BodyNoLongerJson)}
  {
    hide BodyLines, OneBody, BreakingChanges;
    BodyKeys(required, s);
    NothingButBody(key, Obj(map[]), OneBody(required, s));
    NothingButBody(key, OneBody(required, s), Obj(map[]));
    BodyAppears(key, required, s);
    BodyGoes(key, required, s);
  }

  lemma BodyKeys(required: bool, s: Json)
    ensures !Has(OneBody(required, s), "parameters") && !Has(OneBody(required, s), "responses") && OneBody(required, s) != Null
  {
  }

  lemma NoBody()
    ensures Get(Obj(map[]), "requestBody") == Null && JsonOf(Get(Null, "content")) == Null
    ensures !Truthy(Null) && !Truthy(Get(Null, "required"))
  {
  }

  lemma BodyAppears(key: string, required: bool, s: Json)
    requires s != Null
    ensures BodyLines(Obj(map[]), OneBody(required, s), key) ==
            if required then multiset{Line(key + " request body", BodyNowRequired)} else multiset{}
  {
    BodyParts(required, s);
    NoBody();
    hide OneBody, JsonOf, Truthy, Get, RequestLines;
  }

  lemma BodyGoes(key: string, required: bool, s: Json)
    requires s != Null
    ensures BodyLines(OneBody(required, s), Obj(map[]), key) == multiset{Line(key + " request body", BodyNoLongerJson)}
  {
    BodyParts(required, s);
    NoBody();
    hide OneBody, JsonOf, Truthy, Get, RequestLines;
  }

  function Parameter(place: string, name: string, required: bool, s: Json): Json {
    Obj(map["in" := Str(place), "name" := Str(name), "required" := Bool(required), "schema" := s])
  }

  function WithParameters(parameters: seq<Json>): Json {
    Obj(map["parameters" := Arr(parameters)])
  }

  lemma ParameterReads(place: string, name: string, required: bool, s: Json)
    ensures var p := Parameter(place, name, required, s);
      && IdentOf(p) == Ident(place, name) && Truthy(p) && Truthy(Get(p, "required")) == required && SchemaOf(p) == s
  {
    var p := Parameter(place, name, required, s);
    assert Get(p, "in") == Str(place) && Get(p, "name") == Str(name) && Get(p, "required") == Bool(required) && Get(p, "schema") == s;
    assert "in" in p.fields;
  }

  lemma NothingButParameters(key: string, before: seq<Json>, after: seq<Json>)
    ensures BreakingChanges(map[key := WithParameters(before)], map[key := WithParameters(after)]) == ParametersLines(before, after, key)
  {
    hide ParametersLines;
    var b, a := WithParameters(before), WithParameters(after);
    OneOperation(key, b, a);
    assert !Has(b, "requestBody") && !Has(a, "requestBody") && !Has(b, "responses") && !Has(a, "responses");
    assert ListAt(b, "parameters") == before && ListAt(a, "parameters") == after;
    assert StatusParts(map[], map[], key) == map[];
  }

  function Demanded(key: string, place: string, name: string): multiset<Line> {
    multiset{Line(key + " " + place + " parameter '" + name + "'", NowRequired)}
  }

  lemma TableOfOne(p: Json)
    ensures ParameterTable([p]) == map[IdentOf(p) := p]
  {
    assert [p][..0] == [];
  }

  /** The last of two parameters of one place and name is the one that counts. */
  lemma LastCounts(p: Json, q: Json)
    requires IdentOf(p) == IdentOf(q)
    ensures ParameterTable([p, q]) == ParameterTable([q])
  {
    assert [p, q][..1] == [p];
    TableOfOne(p);
    TableOfOne(q);
  }

  /** One parameter on each side: matched by place and name together, a line when it is now required, and the
      comparison of the schemas when it is the same one. */
  lemma OneParameterExactly(
      key: string, place: string, name: string, wasRequired: bool, s: Json,
      place': string, name': string, nowRequired: bool, n: Json)
    ensures BreakingChanges(map[key := WithParameters([Parameter(place, name, wasRequired, s)])],
                            map[key := WithParameters([Parameter(place', name', nowRequired, n)])]) ==
            if place == place' && name == name'
            then (if nowRequired && !wasRequired then Demanded(key, place, name) else multiset{}) +
                 RequestLines(s, n, key + " " + place + " parameter '" + name + "'")
            else if nowRequired then Demanded(key, place', name') else multiset{}
  {
    hide RequestLines, Parameter, IdentOf, Demanded, BreakingChanges, WithParameters;
    var p, q := Parameter(place, name, wasRequired, s), Parameter(place', name', nowRequired, n);
    ParameterReads(place, name, wasRequired, s);
    OneToOne(key, p, q);
    if place == place' && name == name' {
      RowKnown(key, place, name, wasRequired, s, nowRequired, n);
    } else {
      RowNew(map[IdentOf(p) := p], key, place', name', nowRequired, n);
    }
  }

  lemma OneToOne(key: string, p: Json, q: Json)
    ensures BreakingChanges(map[key := WithParameters([p])], map[key := WithParameters([q])]) ==
            ParameterLines(map[IdentOf(p) := p], IdentOf(q), q, key)
  {
    hide ParameterLines, IdentOf, BreakingChanges, WithParameters;
    NothingButParameters(key, [p], [q]);
    TableOfOne(p);
    TableOfOne(q);
    OneRow(map[IdentOf(p) := p], IdentOf(q), q, key);
    hide ParameterTable, ParameterParts;
  }

  lemma RowKnown(key: string, place: string, name: string, wasRequired: bool, s: Json, nowRequired: bool, n: Json)
    ensures var p, q := Parameter(place, name, wasRequired, s), Parameter(place, name, nowRequired, n);
      ParameterLines(map[Ident(place, name) := p], IdentOf(q), q, key) ==
      (if nowRequired && !wasRequired then Demanded(key, place, name) else multiset{}) +
      RequestLines(s, n, key + " " + place + " parameter '" + name + "'")
  {
    hide RequestLines, Parameter, SchemaOf, Truthy, IdentOf;
    ParameterReads(place, name, wasRequired, s);
    ParameterReads(place, name, nowRequired, n);
  }

  lemma RowNew(before: map<Ident, Json>, key: string, place: string, name: string, required: bool, n: Json)
    requires Ident(place, name) !in before
    ensures var q := Parameter(place, name, required, n);
      ParameterLines(before, IdentOf(q), q, key) == if required then Demanded(key, place, name) else multiset{}
  {
    hide RequestLines, Parameter, SchemaOf, Truthy, IdentOf;
    ParameterReads(place, name, required, n);
  }

  lemma OneRow(before: map<Ident, Json>, ident: Ident, q: Json, key: string)
    ensures Gather(ParameterParts(before, map[ident := q], key)) == ParameterLines(before, ident, q, key)
  {
    hide ParameterLines;
    assert ParameterParts(before, map[ident := q], key) == map[ident := ParameterLines(before, ident, q, key)];
    GatherOne(ident, ParameterLines(before, ident, q, key));
  }

  /** A parameter where none was is a line exactly when it is required; one that is gone is none. */
  lemma ParameterAppearsOrGoes(key: string, place: string, name: string, required: bool, s: Json)
    ensures BreakingChanges(map[key := WithParameters([])], map[key := WithParameters([Parameter(place, name, required, s)])]) ==
            if required then Demanded(key, place, name) else multiset{}
    ensures BreakingChanges(map[key := WithParameters([Parameter(place, name, required, s)])], map[key := WithParameters([])]) == multiset{}
  {
    hide RequestLines;
    var p := Parameter(place, name, required, s);
    NothingButParameters(key, [], [p]);
    NothingButParameters(key, [p], []);
    ParameterReads(place, name, required, s);
    hide Parameter, SchemaOf, Truthy, IdentOf;
    TableOfOne(p);
    var ident := IdentOf(p);
    OneRow(map[], ident, p, key);
    assert ParameterParts(map[ident := p], map[], key) == map[];
  }

  // ------------------------------------------------------------------ the keywords of a schema

  /** Where either side is the marker of a cut cycle, nothing is compared. */
  lemma CutIsSilent(was: Json, now: Json, where: string)
    requires (was.Obj? && "$cycle" in was.fields) || (now.Obj? && "$cycle" in now.fields)
    ensures RequestLines(was, now, where) == multiset{} && ResponseLines(was, now, where) == multiset{}
  {
  }

  const LIMITS: set<string> := {"maxLength", "minLength", "maximum", "minimum"}

  lemma LimitReportedHere(was: Json, now: Json, where: string, bound: string, limit: Json)
    requires !Has(was, "$cycle") && !Has(now, "$cycle") && bound in LIMITS
    ensures Line(where, BoundTightened(bound, limit)) in RequestLines(was, now, where) <==>
            limit == Get(Unwrap(now).0, bound) && Tightened(Unwrap(was).0, Unwrap(now).0, bound)
  {
    hide RequestLines, Unwrap, Types, Widen, EnumNarrowed, Gone, Tightened, Get;
    RequestReportedHere(was, now, where, BoundTightened(bound, limit));
    assert bound in {"maxLength", "minLength", "maximum", "minimum"};
  }

  /** Between two limits under one keyword, a line exactly when the new one is lower, for an upper limit, or
      higher, for a lower one. */
  lemma LimitChangedExactly(was: Json, now: Json, where: string, bound: string, a: real, b: real)
    requires !Has(was, "$cycle") && !Has(now, "$cycle") && bound in LIMITS
    requires var o, n := Unwrap(was).0, Unwrap(now).0;
      Has(o, bound) && o.fields[bound] == Num(a) && Has(n, bound) && n.fields[bound] == Num(b)
    ensures Line(where, BoundTightened(bound, Num(b))) in RequestLines(was, now, where) <==>
            if bound == "maxLength" || bound == "maximum" then b < a else b > a
  {
    hide RequestLines, Unwrap;
    LimitReportedHere(was, now, where, bound, Num(b));
  }

  /** A limit where none was is always a line; where none is now, never. */
  lemma LimitAppearsOrGoes(was: Json, now: Json, where: string, bound: string, limit: Json)
    requires !Has(was, "$cycle") && !Has(now, "$cycle") && bound in LIMITS
    ensures var o, n := Unwrap(was).0, Unwrap(now).0;
      && (!Has(o, bound) && Has(n, bound) ==> Line(where, BoundTightened(bound, n.fields[bound])) in RequestLines(was, now, where))
      && (!Has(n, bound) ==> Line(where, BoundTightened(bound, limit)) !in RequestLines(was, now, where))
  {
    hide RequestLines, Unwrap, Tighter;
    LimitReportedHere(was, now, where, bound, limit);
    LimitReportedHere(was, now, where, bound, Get(Unwrap(now).0, bound));
  }

  /** A tightened numeric limit is one that refuses some number the old one took. */
  lemma LimitRefusesExactly(was: Json, now: Json, where: string, bound: string, a: real, b: real)
    requires !Has(was, "$cycle") && !Has(now, "$cycle") && (bound == "maximum" || bound == "minimum")
    requires var o, n := Unwrap(was).0, Unwrap(now).0;
      Has(o, bound) && o.fields[bound] == Num(a) && Has(n, bound) && n.fields[bound] == Num(b)
    ensures Line(where, BoundTightened(bound, Num(b))) in RequestLines(was, now, where) <==>
            exists v :: BoundOk(Unwrap(was).0, bound, v) && !BoundOk(Unwrap(now).0, bound, v)
  {
    hide RequestLines, Unwrap;
    LimitChangedExactly(was, now, where, bound, a, b);
    if (bound == "maximum" && b < a) || (bound == "minimum" && b > a) {
      assert BoundOk(Unwrap(was).0, bound, Num(a)) && !BoundOk(Unwrap(now).0, bound, Num(a));
    }
  }

  function TextLimit(a: real): Json {
    Obj(map["type" := Str("string"), "maxLength" := Num(a)])
  }

  /** A limit changed alone is at most one line. */
  lemma TextLimitAlone(where: string, a: real, b: real)
    ensures RequestLines(TextLimit(a), TextLimit(b), where) ==
            if b < a then multiset{Line(where, BoundTightened("maxLength", Num(b)))} else multiset{}
  {
    hide RequestLines, RequestInside, RequestHere, TextLimit, Unwrap;
    TextLimitParts(a);
    TextLimitParts(b);
    TextLimitHere(where, a, b);
    assert DictAt(TextLimit(a), "properties") == map[];
    NothingInside(TextLimit(a), TextLimit(b), where);
    RequestSplits(TextLimit(a), TextLimit(b), where);
  }

  lemma NothingInside(o: Json, n: Json, where: string)
    requires DictAt(o, "properties") == map[] && !Has(o, "items")
    ensures RequestInside(o, n, where) == multiset{}
  {
    hide RequestLines, DictAt;
    assert RequestParts(o, n, where) == map[];
  }

  lemma TextLimitHere(where: string, a: real, b: real)
    ensures RequestHere(TextLimit(a), TextLimit(b), where) ==
            if b < a then multiset{Line(where, BoundTightened("maxLength", Num(b)))} else multiset{}
  {
    hide TextLimit, TypeLines, EnumLines, PatternLines, NowRequiredLines, LimitLines;
    TextLimitParts(b);
    NothingElse(where, a, b);
    OneLimit(where, a, b);
  }

  lemma NothingElse(where: string, a: real, b: real)
    ensures var was, now := TextLimit(a), TextLimit(b);
      && TypeLines(was, now, where) == multiset{} && EnumLines(was, now, where) == multiset{}
      && PatternLines(was, now, where) == multiset{} && NowRequiredLines(ListAt(now, "required"), was, where) == multiset{}
  {
    hide TextLimit, Types, Widen, Gone;
    TextLimitParts(a);
    TextLimitParts(b);
  }

  lemma OneLimit(where: string, a: real, b: real)
    ensures LimitLines(TextLimit(a), TextLimit(b), where) ==
            if b < a then multiset{Line(where, BoundTightened("maxLength", Num(b)))} else multiset{}
  {
    hide TextLimit, When;
    TextLimitParts(a);
    TextLimitParts(b);
    var was, now := TextLimit(a), TextLimit(b);
    var there := When(b < a, Line(where, BoundTightened("maxLength", Num(b))));
    assert BoundLines(was, now, "maxLength", where) == there;
    NoLimit(was, now, "minLength", where);
    NoLimit(was, now, "maximum", where);
    NoLimit(was, now, "minimum", where);
    hide BoundLines;
    WhenSays(b < a, Line(where, BoundTightened("maxLength", Num(b))));
  }

  lemma NoLimit(was: Json, now: Json, bound: string, where: string)
    requires !Has(now, bound)
    ensures BoundLines(was, now, bound, where) == multiset{}
  {
  }

  lemma WhenSays(condition: bool, line: Line)
    ensures When(condition, line) == if condition then multiset{line} else multiset{}
  {
  }

  lemma TextLimitParts(a: real)
    ensures var s := TextLimit(a);
      && Unwrap(s).0 == s && Types(s) == {"string"} && !Has(s, "$cycle") && Get(s, "maxLength") == Num(a)
      && forall k :: k != "type" && k != "maxLength" ==> !Has(s, k)
  {
    var s := TextLimit(a);
    assert Get(s, "type") == Str("string") && Get(s, "anyOf") == Null && Get(s, "oneOf") == Null;
  }

  /** The type an app that knows `types` can take for one of its own. */
  predicate Covered(t: string, types: set<string>) {
    t in types || (t == "number" && "integer" in types)
  }

  /** A type line in a response, exactly when both sides mention types and the new one some type but null
      that the old one does not cover. */
  lemma ResponseTypeExactly(was: Json, now: Json, where: string)
    requires !Has(was, "$cycle") && !Has(now, "$cycle")
    ensures var o, n := Types(Unwrap(was).0), Types(Unwrap(now).0);
      (exists x, y :: Line(where, TypeChanged(x, y)) in ResponseLines(was, now, where)) <==>
      o != {} && n != {} && exists t :: t in n && t != "null" && !Covered(t, o)
  {
    hide ResponseLines, Unwrap, Types;
    var o, n := Types(Unwrap(was).0), Types(Unwrap(now).0);
    forall x, y {
      ResponseReportedHere(was, now, where, TypeChanged(x, y));
    }
    MovedExactly(Unwrap(was).0, Unwrap(now).0);
    if TypeMoved(Unwrap(was).0, Unwrap(now).0) {
      assert Line(where, TypeChanged(Widen(o), Widen(n))) in ResponseLines(was, now, where);
    }
  }

  lemma WidenCovers(types: set<string>)
    ensures forall t :: t in Widen(types) <==> Covered(t, types)
    ensures Widen(types) == {} <==> types == {}
  {
    if types != {} {
      var t :| t in types;
      assert t in Widen(types);
    }
  }

  lemma MovedExactly(o: Json, n: Json)
    ensures TypeMoved(o, n) <==> Types(o) != {} && Types(n) != {} && exists t :: t in Types(n) && t != "null" && !Covered(t, Types(o))
  {
    hide Types, Widen, Covered;
    WidenCovers(Types(o));
    WidenCovers(Types(n));
    MovedTypes(Types(o), Types(n));
  }

  lemma MovedTypes(o: set<string>, n: set<string>)
    ensures (Widen(n) - {"null"}) - Widen(o) != {} <==> exists t :: t in n && t != "null" && !Covered(t, o)
  {
    WidenCovers(o);
    WidenCovers(n);
    hide Widen;
    if t :| t in (Widen(n) - {"null"}) - Widen(o) {
      assert t in n || (t == "number" && "integer" in n);
      assert "integer" in o ==> Covered("number", o);
    }
    if t :| t in n && t != "null" && !Covered(t, o) {
      assert Covered(t, n) && t in (Widen(n) - {"null"}) - Widen(o);
    }
  }

  /** And in a request, exactly when the new side mentions types and none covers some type of the old
      one; null counts. */
  lemma RequestTypeExactly(was: Json, now: Json, where: string)
    requires !Has(was, "$cycle") && !Has(now, "$cycle")
    ensures var o, n := Types(Unwrap(was).0), Types(Unwrap(now).0);
      (exists x :: Line(where, TypesRejected(x)) in RequestLines(was, now, where)) <==>
      n != {} && exists t :: t in o && !Covered(t, n)
  {
    hide RequestLines, Unwrap, Types, Widen, Covered;
    var o, n := Types(Unwrap(was).0), Types(Unwrap(now).0);
    forall x
      ensures Line(where, TypesRejected(x)) in RequestLines(was, now, where) <==>
              x == Widen(o) - Widen(n) && Widen(o) != {} && Widen(n) != {} && x != {}
    {
      TypesRejectedHere(was, now, where, x);
    }
    RejectedExactly(o, n);
    if Widen(o) != {} && Widen(n) != {} && Widen(o) - Widen(n) != {} {
      assert Line(where, TypesRejected(Widen(o) - Widen(n))) in RequestLines(was, now, where);
    }
  }

  lemma TypesRejectedHere(was: Json, now: Json, where: string, x: set<string>)
    requires !Has(was, "$cycle") && !Has(now, "$cycle")
    ensures var o, n := Types(Unwrap(was).0), Types(Unwrap(now).0);
      Line(where, TypesRejected(x)) in RequestLines(was, now, where) <==>
      x == Widen(o) - Widen(n) && Widen(o) != {} && Widen(n) != {} && x != {}
  {
    hide RequestLines, Unwrap, Types, EnumNarrowed, Gone, Tightened, Widen, Get;
    RequestReportedHere(was, now, where, TypesRejected(x));
  }

  lemma RejectedExactly(o: set<string>, n: set<string>)
    ensures (Widen(o) != {} && Widen(n) != {} && Widen(o) - Widen(n) != {}) <==> n != {} && exists t :: t in o && !Covered(t, n)
  {
    WidenCovers(o);
    WidenCovers(n);
    hide Widen;
    if t :| t in Widen(o) - Widen(n) {
      assert t in o || (t == "number" && "integer" in o);
      assert "integer" in n ==> Covered("number", n);
    }
    if t :| t in o && !Covered(t, n) {
      assert Covered(t, o) && t in Widen(o) - Widen(n);
    }
  }

  /** The types a schema mentions: its own, or those of a list, or through the members of either kind of
      union. */
  lemma TypesMentioned(t: string, kinds: seq<Json>, key: string, members: seq<Json>)
    requires key == "anyOf" || key == "oneOf"
    ensures Types(Obj(map["type" := Str(t)])) == {t}
    ensures forall k :: k in Types(Obj(map["type" := Arr(kinds)])) <==> Str(k) in kinds
    ensures forall k :: k in Types(Obj(map[key := Arr(members)])) <==> exists m :: m in members && k in Types(m)
  {
    var listed := Obj(map["type" := Arr(kinds)]);
    assert Get(listed, "type") == Arr(kinds);
    forall k
      ensures k in Types(listed) <==> Str(k) in kinds
    {
      if Str(k) in kinds { var i :| 0 <= i < |kinds| && kinds[i] == Str(k); }
    }
    UnionTypes(key, members);
  }

  lemma UnionTypes(key: string, members: seq<Json>)
    requires key == "anyOf" || key == "oneOf"
    ensures forall k :: k in Types(Obj(map[key := Arr(members)])) <==> exists m :: m in members && k in Types(m)
  {
    var s := Obj(map[key := Arr(members)]);
    assert Get(s, "type") == Null && Get(s, key) == Arr(members);
    assert key == "oneOf" ==> Get(s, "anyOf") == Null;
    assert key == "anyOf" && members == [] ==> ListAt(s, "oneOf") == [];
    forall k
      ensures k in Types(s) <==> exists m :: m in members && k in Types(m)
    {
      if m :| m in members && k in Types(m) {
        var i :| 0 <= i < |members| && members[i] == m;
        assert ListAt(s, key)[i] == m;
      }
      if k in Types(s) {
        var i :| 0 <= i < |ListAt(s, key)| && k in Types(ListAt(s, key)[i]);
        assert ListAt(s, key)[i] in members;
      }
    }
  }

  /** The nullable wrapper, either kind and either order. */
  lemma WrapperOpens(x: Json, key: string)
    requires (key == "anyOf" || key == "oneOf") && Get(x, "type") != Str("null")
    ensures var null_ := Obj(map["type" := Str("null")]);
      && Unwrap(Obj(map[key := Arr([x, null_])])) == (x, true)
      && Unwrap(Obj(map[key := Arr([null_, x])])) == (x, true)
  {
    var null_ := Obj(map["type" := Str("null")]);
    assert Get(null_, "type") == Str("null");
    OneLeft([x, null_], x);
    OneLeft([null_, x], x);
    OpensTo(key, [x, null_], x);
    OpensTo(key, [null_, x], x);
  }

  lemma OneLeft(members: seq<Json>, x: Json)
    requires |members| == 2 && Get(x, "type") != Str("null")
    requires (members[0] == x && Get(members[1], "type") == Str("null")) || (members[1] == x && Get(members[0], "type") == Str("null"))
    ensures NonNull(members) == [x]
  {
    assert NonNull(members[1..][1..]) == [];
  }

  lemma OpensTo(key: string, members: seq<Json>, x: Json)
    requires (key == "anyOf" || key == "oneOf") && NonNull(members) == [x] && |members| == 2
    ensures Unwrap(Obj(map[key := Arr(members)])) == (x, true)
  {
    hide NonNull;
    var s := Obj(map[key := Arr(members)]);
    assert Get(s, key) == Arr(members) && ListAt(s, key) == members;
    assert key == "oneOf" ==> Get(s, "anyOf") == Null;
  }

  /** What is listed as gone of an enum is what is gone. */
  lemma {:induction false} GoneValues(values: seq<Json>, kept: seq<Json>, v: Json)
    ensures v in Gone(values, kept) <==> v in values && !PyIn(v, kept)
  {
    hide PyIn;
    if values != [] { GoneValues(values[1..], kept, v); }
  }

  /** A line about the enum, exactly when both sides have one and some old value is in the new one under no
      Python spelling. */
  lemma EnumReportedExactly(was: Json, now: Json, where: string)
    requires !Has(was, "$cycle") && !Has(now, "$cycle")
    ensures var o, n := Unwrap(was).0, Unwrap(now).0;
      (exists x :: Line(where, ValuesRejected(x)) in RequestLines(was, now, where)) <==>
      && Has(o, "enum") && Has(n, "enum")
      && exists v :: v in ListAt(o, "enum") && forall k :: k in ListAt(n, "enum") ==> PyNormal(k) != PyNormal(v)
  {
    hide RequestLines, Unwrap, Types, Widen, Gone, Tightened, Get, ListAt;
    var o, n := Unwrap(was).0, Unwrap(now).0;
    var gone := Gone(ListAt(o, "enum"), ListAt(n, "enum"));
    forall x
      ensures Line(where, ValuesRejected(x)) in RequestLines(was, now, where) <==> x == gone && EnumNarrowed(o, n)
    {
      EnumReportedHere(was, now, where, x);
    }
    if v :| v in ListAt(o, "enum") && forall k :: k in ListAt(n, "enum") ==> PyNormal(k) != PyNormal(v) {
      GoneValues(ListAt(o, "enum"), ListAt(n, "enum"), v);
      if Has(o, "enum") && Has(n, "enum") {
        assert Line(where, ValuesRejected(gone)) in RequestLines(was, now, where);
      }
    } else if gone != [] {
      GoneValues(ListAt(o, "enum"), ListAt(n, "enum"), gone[0]);
    }
  }

  lemma EnumReportedHere(was: Json, now: Json, where: string, x: seq<Json>)
    requires !Has(was, "$cycle") && !Has(now, "$cycle")
    ensures var o, n := Unwrap(was).0, Unwrap(now).0;
      Line(where, ValuesRejected(x)) in RequestLines(was, now, where) <==>
      x == Gone(ListAt(o, "enum"), ListAt(n, "enum")) && EnumNarrowed(o, n)
  {
    hide RequestLines, Unwrap, Types, EnumNarrowed, Gone, Tightened, Widen, Get;
    RequestReportedHere(was, now, where, ValuesRejected(x));
  }

  lemma FrontOrLast<T>(items: seq<T>, x: T)
    requires items != []
    ensures x in items <==> x in items[..|items| - 1] || x == items[|items| - 1]
  {
    assert items == items[..|items| - 1] + [items[|items| - 1]];
  }

  lemma NamesStep(names: seq<Json>, was: Json, where: string, line: Line)
    requires names != []
    ensures var front, last := names[..|names| - 1], names[|names| - 1];
      line in NowRequiredLines(names, was, where) <==>
      || line in NowRequiredLines(front, was, where)
      || line in When(last.Str? && !Requires(was, last.s), Line(where + "." + Text(last), NowRequired))
  {
    hide Requires, Text, When;
  }

  lemma {:induction false} NamesDemanded(names: seq<Json>, was: Json, where: string, name: string)
    ensures Line(where + "." + name, NowRequired) in NowRequiredLines(names, was, where) <==>
            Str(name) in names && !Requires(was, name)
  {
    if names != [] {
      var k := |names| - 1;
      NamesDemanded(names[..k], was, where, name);
      LastDemanded(names[k], was, where, name);
      NamesStep(names, was, where, Line(where + "." + name, NowRequired));
      FrontOrLast(names, Str(name));
      hide Requires, Text, When, NowRequiredLines;
    }
  }

  lemma LastDemanded(last: Json, was: Json, where: string, name: string)
    ensures Line(where + "." + name, NowRequired) in
              When(last.Str? && !Requires(was, last.s), Line(where + "." + Text(last), NowRequired)) <==>
            last == Str(name) && !Requires(was, name)
  {
    hide Requires;
    if last.Str? && where + "." + last.s == where + "." + name {
      SamePlaceSameName(where, last.s, name);
    }
  }

  lemma SamePlaceSameName(where: string, a: string, b: string)
    requires where + "." + a == where + "." + b
    ensures a == b
  {
    assert (where + "." + a)[|where| + 1..] == a && (where + "." + b)[|where| + 1..] == b;
  }

  /** No nested comparison says of its own place that it is now required. */
  lemma NeverDemandedHere(was: Json, now: Json, where: string)
    ensures Line(where, NowRequired) !in RequestLines(was, now, where)
  {
    hide Unwrap, Types, Widen, EnumNarrowed, Gone, Tightened;
    if !Cut(was, now) {
      hide RequestLines;
      RequestReportedHere(was, now, where, NowRequired);
    }
  }

  /** A name that is now required is a line under the name, exactly when it was not required before. */
  lemma DemandReportedExactly(was: Json, now: Json, where: string, name: string)
    requires !Has(was, "$cycle") && !Has(now, "$cycle") && OneStep(name)
    ensures Line(where + "." + name, NowRequired) in RequestLines(was, now, where) <==>
            Str(name) in ListAt(Unwrap(now).0, "required") && Str(name) !in ListAt(Unwrap(was).0, "required")
  {
    hide RequestLines, RequestInside, RequestHere, OneStep, Unwrap, ReportsHere, NowRequiredLines;
    var o, n := Unwrap(was).0, Unwrap(now).0;
    var line := Line(where + "." + name, NowRequired);
    RequestHereParts(o, n, where, line);
    if ReportsHere(o, n, where, line) { HereIsHere(o, n, where, line); }
    NamesDemanded(ListAt(n, "required"), o, where, name);
    RequestSplits(was, now, where);
    RequestInsideAt(o, n, where, name, NowRequired);
    if name in DictAt(o, "properties") && name in DictAt(n, "properties") {
      NeverDemandedHere(DictAt(o, "properties")[name], DictAt(n, "properties")[name], where + "." + name);
    }
  }
}
