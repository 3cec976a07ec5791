/** What a new API would break for an app built against a recorded snapshot: the comparison of two
    inlined snapshots, as the bag of lines it reports. */
module Compare {
  import opened Json
  import opened Bags

  datatype Finding =
    | OperationRemoved
    | SuccessRemoved
    | NoLongerJson
    | NowNull
    | TypeChanged(was: set<string>, becomes: set<string>)
    | Removed
    | NotAlwaysPresent
    | TypesRejected(types: set<string>)
    | ValuesRejected(values: seq<Json>)
    | BoundTightened(bound: string, limit: Json)
    | PatternChanged
    | NowRequired
    | BodyNowRequired
    | BodyNoLongerJson

  datatype Line = Line(where: string, what: Finding)

  /** A line when the condition holds. */
  function When(condition: bool, line: Line): multiset<Line> {
    if condition then multiset{line} else multiset{}
  }

  // ------------------------------------------------------------------ the nullable wrapper and types

  /** The members whose type is not "null". */
  function NonNull(members: seq<Json>): (kept: seq<Json>)
    ensures |kept| <= |members|
    ensures forall x :: x in kept <==> x in members && Get(x, "type") != Str("null")
  {
    if members == [] then []
    else (if Get(members[0], "type") != Str("null") then [members[0]] else []) + NonNull(members[1..])
  }

  /** The member `key: [X, null]` wraps, in either order. */
  predicate Wraps(schema: Json, key: string) {
    && Get(schema, key).Arr?
    && |NonNull(ListAt(schema, key))| == 1
    && |ListAt(schema, key)| == 2
  }

  /** The schema inside the nullable wrapper, and whether null is admitted. */
  function Unwrap(schema: Json): (r: (Json, bool))
    ensures r.0 == schema || r.0 < schema
  {
    if Wraps(schema, "anyOf") then
      assert NonNull(ListAt(schema, "anyOf"))[0] in ListAt(schema, "anyOf");
      (NonNull(ListAt(schema, "anyOf"))[0], true)
    else if Wraps(schema, "oneOf") then
      assert NonNull(ListAt(schema, "oneOf"))[0] in ListAt(schema, "oneOf");
      (NonNull(ListAt(schema, "oneOf"))[0], true)
    else (schema, Get(schema, "type") == Str("null"))
  }

  /** The type names a schema mentions, through its union members when it has no `type`. */
  function Types(schema: Json): set<string> {
    match Get(schema, "type")
    case Arr(kinds) => set i | 0 <= i < |kinds| && kinds[i].Str? :: kinds[i].s
    case Str(kind) => {kind}
    case _ =>
      var key := if Truthy(Get(schema, "anyOf")) then "anyOf" else "oneOf";
      set i, t | 0 <= i < |ListAt(schema, key)| && t in Types(ListAt(schema, key)[i]) :: t
  }

  function Widen(types: set<string>): set<string> {
    if "integer" in types then types + {"number"} else types
  }

  predicate Cut(was: Json, now: Json) {
    Has(was, "$cycle") || Has(now, "$cycle")
  }

  /** `name in schema.get("required", [])` */
  predicate Requires(schema: Json, name: string) {
    Str(name) in ListAt(schema, "required")
  }

  // ------------------------------------------------------------------ responses

  predicate TypeMoved(was: Json, now: Json) {
    var read, sent := Widen(Types(was)), Widen(Types(now));
    read != {} && sent != {} && (sent - {"null"}) - read != {}
  }

  /** What changes for an app that reads a value of `was` and now meets one of `now`. */
  ghost function ResponseLines(was: Json, now: Json, where: string): multiset<Line>
    decreases was, 3
  {
    if Cut(was, now) then multiset{}
    else
      var (o, oNull) := Unwrap(was);
      var (n, nNull) := Unwrap(now);
      When(nNull && !oNull, Line(where, NowNull)) +
      if TypeMoved(o, n) then multiset{Line(where, TypeChanged(Widen(Types(o)), Widen(Types(n))))}
      else ResponseInside(o, n, where)
  }

  /** The lines about the properties and the items. */
  ghost function ResponseInside(o: Json, n: Json, where: string): multiset<Line>
    decreases o, 2
  {
    Gather(ResponseParts(o, n, where)) +
    if Has(o, "items") && Has(n, "items")
    then ResponseLines(o.fields["items"], n.fields["items"], where + "[]")
    else multiset{}
  }

  /** The lines of each property the app reads. */
  ghost function ResponseParts(o: Json, n: Json, where: string): (parts: map<string, multiset<Line>>)
    ensures parts.Keys == DictAt(o, "properties").Keys
    decreases o, 1
  {
    map name | name in DictAt(o, "properties") :: ResponseProperty(o, n, name, where)
  }

  ghost function ResponseProperty(o: Json, n: Json, name: string, where: string): multiset<Line>
    requires name in DictAt(o, "properties")
    decreases o, 0
  {
    var at := where + "." + name;
    if name !in DictAt(n, "properties") then multiset{Line(at, Removed)}
    else
      When(Requires(o, name) && !Requires(n, name), Line(at, NotAlwaysPresent)) +
      ResponseLines(DictAt(o, "properties")[name], DictAt(n, "properties")[name], at)
  }

  // ------------------------------------------------------------------ requests

  /** The limit under `bound` is tighter, or is there where none was. */
  predicate Tightened(was: Json, now: Json, bound: string) {
    Has(now, bound) && (!Has(was, bound) || Tighter(bound, was.fields[bound], now.fields[bound]))
  }

  predicate Tighter(bound: string, a: Json, b: Json) {
    a.Num? && b.Num? && if bound == "maxLength" || bound == "maximum" then b.n < a.n else b.n > a.n
  }

  function BoundLines(was: Json, now: Json, bound: string, where: string): multiset<Line> {
    When(Tightened(was, now, bound), Line(where, BoundTightened(bound, Get(now, bound))))
  }

  /** The values of one enum missing from another, in Python's equality. */
  function Gone(values: seq<Json>, kept: seq<Json>): seq<Json> {
    if values == [] then []
    else (if PyIn(values[0], kept) then [] else [values[0]]) + Gone(values[1..], kept)
  }

  predicate EnumNarrowed(was: Json, now: Json) {
    Has(was, "enum") && Has(now, "enum") && Gone(ListAt(was, "enum"), ListAt(now, "enum")) != []
  }

  /** One line for each name of the list the old schema did not require. */
  function NowRequiredLines(names: seq<Json>, was: Json, where: string): multiset<Line> {
    if names == [] then multiset{}
    else
      var last := names[|names| - 1];
      NowRequiredLines(names[..|names| - 1], was, where) +
      When(last.Str? && !Requires(was, last.s), Line(where + "." + Text(last), NowRequired))
  }

  function Text(j: Json): string {
    if j.Str? then j.s else ""
  }

  function TypeLines(o: Json, n: Json, where: string): multiset<Line> {
    var sent, accepted := Widen(Types(o)), Widen(Types(n));
    When(sent != {} && accepted != {} && sent - accepted != {}, Line(where, TypesRejected(sent - accepted)))
  }

  function EnumLines(o: Json, n: Json, where: string): multiset<Line> {
    When(EnumNarrowed(o, n), Line(where, ValuesRejected(Gone(ListAt(o, "enum"), ListAt(n, "enum")))))
  }

  function LimitLines(o: Json, n: Json, where: string): multiset<Line> {
    BoundLines(o, n, "maxLength", where) + BoundLines(o, n, "minLength", where) +
    BoundLines(o, n, "maximum", where) + BoundLines(o, n, "minimum", where)
  }

  function PatternLines(o: Json, n: Json, where: string): multiset<Line> {
    When(Get(n, "pattern") != Get(o, "pattern") && Has(n, "pattern"), Line(where, PatternChanged))
  }

  /** The lines about the value itself, before any nested schema. */
  function RequestHere(o: Json, n: Json, where: string): multiset<Line> {
    TypeLines(o, n, where) + EnumLines(o, n, where) + LimitLines(o, n, where) + PatternLines(o, n, where) +
    NowRequiredLines(ListAt(n, "required"), o, where)
  }

  /** What the new API no longer accepts of what an app built on `was` sends. */
  ghost function RequestLines(was: Json, now: Json, where: string): multiset<Line>
    decreases was, 2
  {
    if Cut(was, now) then multiset{}
    else
      var (o, _) := Unwrap(was);
      var (n, _) := Unwrap(now);
      RequestHere(o, n, where) + RequestInside(o, n, where)
  }

  /** The lines about the shared properties and the items. */
  ghost function RequestInside(o: Json, n: Json, where: string): multiset<Line>
    decreases o, 1
  {
    Gather(RequestParts(o, n, where)) +
    if Has(o, "items") && Has(n, "items")
    then RequestLines(o.fields["items"], n.fields["items"], where + "[]")
    else multiset{}
  }

  /** The lines of each property both sides declare. */
  ghost function RequestParts(o: Json, n: Json, where: string): (parts: map<string, multiset<Line>>)
    ensures parts.Keys == DictAt(o, "properties").Keys * DictAt(n, "properties").Keys
    decreases o, 0
  {
    map name | name in DictAt(o, "properties") && name in DictAt(n, "properties") ::
      RequestLines(DictAt(o, "properties")[name], DictAt(n, "properties")[name], where + "." + name)
  }

  // ------------------------------------------------------------------ operations

  /** `(content or {}).get("application/json", {}).get("schema")` */
  function JsonOf(content: Json): Json {
    Get(Get(content, "application/json"), "schema")
  }

  datatype Ident = Ident(place: string, name: string)

  function IdentOf(parameter: Json): Ident {
    Ident(Text(Get(parameter, "in")), Text(Get(parameter, "name")))
  }

  /** The parameters by place and name; the last of two with the same identity stays. */
  function ParameterTable(parameters: seq<Json>): map<Ident, Json> {
    if parameters == [] then map[]
    else
      var last := parameters[|parameters| - 1];
      ParameterTable(parameters[..|parameters| - 1])[IdentOf(last) := last]
  }

  ghost function ParameterLines(before: map<Ident, Json>, ident: Ident, parameter: Json, key: string): multiset<Line> {
    var where := key + " " + ident.place + " parameter '" + ident.name + "'";
    var known := ident in before && Truthy(before[ident]);
    When(Truthy(Get(parameter, "required")) && !(known && Truthy(Get(before[ident], "required"))), Line(where, NowRequired)) +
    if known then RequestLines(SchemaOf(before[ident]), SchemaOf(parameter), where) else multiset{}
  }

  /** `parameter.get("schema", {})` */
  function SchemaOf(parameter: Json): Json {
    if Has(parameter, "schema") then parameter.fields["schema"] else Obj(map[])
  }

  ghost function ParametersLines(was: seq<Json>, now: seq<Json>, key: string): multiset<Line> {
    Gather(ParameterParts(ParameterTable(was), ParameterTable(now), key))
  }

  ghost function ParameterParts(before: map<Ident, Json>, after: map<Ident, Json>, key: string): map<Ident, multiset<Line>> {
    map ident | ident in after :: ParameterLines(before, ident, after[ident], key)
  }

  ghost function BodyLines(before: Json, after: Json, key: string): multiset<Line> {
    var oldBody, newBody := Get(before, "requestBody"), Get(after, "requestBody");
    if !Truthy(oldBody) && !Truthy(newBody) then multiset{}
    else
      var oldJson, newJson := JsonOf(Get(oldBody, "content")), JsonOf(Get(newBody, "content"));
      When(Truthy(Get(newBody, "required")) && !Truthy(Get(oldBody, "required")), Line(key + " request body", BodyNowRequired)) +
      if oldJson != Null && newJson != Null then RequestLines(oldJson, newJson, key + " request")
      else When(oldJson != Null, Line(key + " request body", BodyNoLongerJson))
  }

  ghost function StatusLines(responses: map<string, Json>, status: string, response: Json, key: string): multiset<Line> {
    var where := key + " -> " + status;
    if status !in responses || responses[status] == Null then
      When(status != "" && status[0] == '2', Line(where, SuccessRemoved))
    else
      var oldJson, newJson := JsonOf(Get(response, "content")), JsonOf(Get(responses[status], "content"));
      if oldJson == Null then multiset{}
      else if newJson == Null then multiset{Line(where, NoLongerJson)}
      else ResponseLines(oldJson, newJson, where)
  }

  ghost function ResponsesLines(before: Json, after: Json, key: string): multiset<Line> {
    Gather(StatusParts(DictAt(before, "responses"), DictAt(after, "responses"), key))
  }

  ghost function StatusParts(was: map<string, Json>, now: map<string, Json>, key: string): map<string, multiset<Line>> {
    map status | status in was :: StatusLines(now, status, was[status], key)
  }

  /** What changed for one operation. */
  ghost function OperationLines(key: string, before: Json, after: Json): multiset<Line> {
    if after == Null then multiset{Line(key, OperationRemoved)}
    else
      ParametersLines(ListAt(before, "parameters"), ListAt(after, "parameters"), key) +
      BodyLines(before, after, key) +
      ResponsesLines(before, after, key)
  }

  /** `snapshot.get(key)` */
  function EntryOf(snapshot: map<string, Json>, key: string): Json {
    if key in snapshot then snapshot[key] else Null
  }

  /** What `now` would break for an app built against `was`. */
  ghost function BreakingChanges(was: map<string, Json>, now: map<string, Json>): multiset<Line> {
    Gather(OperationParts(was, now))
  }

  ghost function OperationParts(was: map<string, Json>, now: map<string, Json>): map<string, multiset<Line>> {
    map key | key in was :: OperationLines(key, was[key], EntryOf(now, key))
  }
}
