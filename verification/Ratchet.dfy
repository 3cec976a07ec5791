/** The recorded contract as a state machine: check, add newly listed operations, or re-record. */
module Ratchet {
  import opened Json
  import opened Wrappers
  import opened Bags
  import opened Inlining
  import opened Validation
  import opened InlineMeaning
  import opened InlineLoosens
  import opened Places
  import Paths
  import opened Compare
  import opened CompareLaws
  import opened ResponseSoundness
  import opened RequestSoundness
  import Reporting

  datatype Mode = Check | Update | Release

  /** One run of the program, against whatever API and surface there are at the time. */
  datatype Run = Run(mode: Mode, openapi: Json, surface: seq<string>)

  /** The operations listed now and not yet recorded. */
  function Missing(recorded: map<string, Json>, current: map<string, Json>): map<string, Json> {
    map key | key in current && key !in recorded :: current[key]
  }

  /** What is recorded after a run. */
  ghost function Next(recorded: map<string, Json>, run: Run): map<string, Json> {
    match Snapshot(run.openapi, run.surface)
    case Err(_) => recorded
    case Ok(current) =>
      match run.mode
      case Check => recorded
      case Update => recorded + Missing(recorded, current)
      case Release => current
  }

  /** The check has nothing to say. */
  ghost predicate Passes(recorded: map<string, Json>, current: map<string, Json>) {
    BreakingChanges(recorded, current) == multiset{} && Missing(recorded, current) == map[]
  }

  /** The run ends with exit status 0. */
  ghost predicate Succeeds(recorded: map<string, Json>, run: Run) {
    && Snapshot(run.openapi, run.surface).Ok?
    && (run.mode == Check ==> Passes(recorded, Snapshot(run.openapi, run.surface).value))
  }

  /** The committed snapshot file. */
  class Contract {
    var recorded: map<string, Json>

    constructor (file: map<string, Json>)
      ensures recorded == file
    {
      recorded := file;
    }

    /** The program: its exit status, the breaks it prints and the operations it names as missing. */
    method Execute(run: Run) returns (status: int, problems: seq<Line>, missing: set<string>)
      modifies this
      ensures recorded == Next(old(recorded), run)
      ensures status == if Succeeds(old(recorded), run) then 0 else 1
      ensures run.mode == Check && Snapshot(run.openapi, run.surface).Ok? ==>
                && multiset(problems) == BreakingChanges(recorded, Snapshot(run.openapi, run.surface).value)
                && missing == Missing(recorded, Snapshot(run.openapi, run.surface).value).Keys
    {
      hide BreakingChanges, Snapshot;
      problems, missing := [], {};
      var snapshot := TakeSnapshot(run.openapi, run.surface);
      if snapshot.Err? {
        return 1, problems, missing;
      }
      var current := snapshot.value;
      if run.mode == Release {
        recorded := current;
        return 0, problems, missing;
      }
      var added := Missing(recorded, current);
      if run.mode == Update {
        recorded := recorded + added;
        return 0, problems, missing;
      }
      problems := Reporting.CompareSnapshots(recorded, current);
      missing := added.Keys;
      assert added == map[] <==> missing == {};
      status := if problems != [] || missing != {} then 1 else 0;
    }
  }

  // ------------------------------------------------------------------ one run

  lemma AddedAgainstItself(recorded: map<string, Json>, current: map<string, Json>)
    ensures BreakingChanges(Missing(recorded, current), current) == multiset{} <==>
            forall key :: key in Missing(recorded, current) ==> ProperEntry(current[key])
  {
    hide OperationLines, ProperEntry;
    var more := Missing(recorded, current);
    var parts := OperationParts(more, current);
    forall key | key in more {
      OperationSame(key, current[key]);
    }
    GatherEmpty(parts);
    assert forall key :: key in more ==> key in parts;
  }

  lemma SameSum<T>(a: multiset<T>, b: multiset<T>)
    ensures a + b == a <==> b == multiset{}
  {
    assert b == (a + b) - a;
  }

  /** Adding operations hides no break and invents none, exactly when every entry added is one that
      breaks nothing against itself. */
  lemma UpdateHidesNothing(recorded: map<string, Json>, current: map<string, Json>)
    ensures BreakingChanges(recorded + Missing(recorded, current), current) == BreakingChanges(recorded, current) <==>
            forall key :: key in Missing(recorded, current) ==> ProperEntry(current[key])
  {
    var more := Missing(recorded, current);
    BreaksDecompose(recorded, more, current);
    AddedAgainstItself(recorded, current);
    SameSum(BreakingChanges(recorded, current), BreakingChanges(more, current));
  }

  /** Against any later API, what was broken before an update is still reported after it. */
  lemma UpdateForgetsNothing(recorded: map<string, Json>, current: map<string, Json>, later: map<string, Json>)
    ensures BreakingChanges(recorded, later) <= BreakingChanges(recorded + Missing(recorded, current), later)
  {
    BreaksDecompose(recorded, Missing(recorded, current), later);
  }

  /** A check right after a release, of the same API, passes exactly when the entries released break
      nothing against themselves. */
  lemma CheckAfterRelease(recorded: map<string, Json>, openapi: Json, surface: seq<string>)
    requires Snapshot(openapi, surface).Ok?
    ensures var current := Snapshot(openapi, surface).value;
      Succeeds(Next(recorded, Run(Release, openapi, surface)), Run(Check, openapi, surface)) <==>
      forall key :: key in current ==> ProperEntry(current[key])
  {
    var current := Snapshot(openapi, surface).value;
    NothingBreaksAgainstItself(current);
    assert Missing(current, current) == map[];
  }

  /** The document of one operation whose success response is null. */
  function NullResponse(): Json {
    Obj(map["paths" := Obj(map["/x" := Obj(map["get" := Obj(map["responses" := Obj(map["200" := Null])])])])])
  }

  const KEY := "GET /x"

  /** Adding that operation to an empty record invents a break of it against itself. */
  lemma ImproperEntryBreaks()
    ensures Snapshot(NullResponse(), [KEY]).Ok?
    ensures var current := Snapshot(NullResponse(), [KEY]).value;
      && BreakingChanges(map[], current) == multiset{}
      && BreakingChanges(map[] + Missing(map[], current), current) != multiset{}
      && !Succeeds(Next(map[], Run(Release, NullResponse(), [KEY])), Run(Check, NullResponse(), [KEY]))
  {
    hide Entry, BreakingChanges, ProperEntry;
    TheOperation();
    var current := Snapshot(NullResponse(), [KEY]).value;
    assert KEY in [KEY] && current[KEY] == Entry(NullResponse(), KEY);
    TheEntryIsImproper();
    NothingFromNothing(current);
    UpdateHidesNothing(map[], current);
    CheckAfterRelease(map[], NullResponse(), [KEY]);
  }

  lemma NothingFromNothing(current: map<string, Json>)
    ensures BreakingChanges(map[], current) == multiset{}
  {
    assert OperationParts(map[], current) == map[];
  }

  lemma TheOperation()
    ensures Operation(NullResponse(), KEY) == Obj(map["responses" := Obj(map["200" := Null])])
  {
    PartitionAtSpace("GET", "/x");
    assert KEY == "GET" + " " + "/x";
    hide Partition;
    assert LowerAscii("GET") == "get";
  }

  lemma TheEntryIsImproper()
    ensures !ProperEntry(Entry(NullResponse(), KEY))
  {
    hide Operation, Inline;
    TheOperation();
    EntryResponses(NullResponse(), KEY);
    NullResponseStays(DictAt(Get(NullResponse(), "components"), "schemas"));
    assert Get(Entry(NullResponse(), KEY), "responses") == Obj(map["200" := Null]);
    assert "200"[0] == '2' && "200" in DictAt(Entry(NullResponse(), KEY), "responses");
  }

  lemma NullResponseStays(components: map<string, Json>)
    ensures Inline(Obj(map["200" := Null]), components, {}) == Obj(map["200" := Null])
  {
    assert "200" !in ANNOTATIONS;
    assert Inline(Obj(map["200" := Null]), components, {}).fields == map["200" := Null];
  }

  // ------------------------------------------------------------------ whole histories

  /** What is recorded after a history of runs. */
  ghost function After(recorded: map<string, Json>, history: seq<Run>): map<string, Json> {
    if history == [] then recorded
    else Next(After(recorded, history[..|history| - 1]), history[|history| - 1])
  }

  ghost predicate NoRelease(history: seq<Run>) {
    forall i :: 0 <= i < |history| ==> history[i].mode != Release
  }

  /** Without a release, no recorded entry changes or disappears. */
  lemma {:induction false} EntriesStay(recorded: map<string, Json>, history: seq<Run>)
    requires NoRelease(history)
    ensures forall key :: key in recorded ==> key in After(recorded, history) && After(recorded, history)[key] == recorded[key]
  {
    hide Snapshot;
    if history != [] {
      EntriesStay(recorded, history[..|history| - 1]);
    }
  }

  lemma PartOfSilence<T>(a: multiset<T>, b: multiset<T>)
    requires a + b == multiset{}
    ensures a == multiset{}
  {
    assert a <= a + b;
  }

  /** A check that passes means nothing breaks against what was recorded before the history began. */
  lemma PassingCoversThePast(recorded: map<string, Json>, history: seq<Run>, current: map<string, Json>)
    requires NoRelease(history) && Passes(After(recorded, history), current)
    ensures BreakingChanges(recorded, current) == multiset{}
  {
    hide BreakingChanges, After;
    EntriesStay(recorded, history);
    var now := After(recorded, history);
    var more := now - recorded.Keys;
    Extension(recorded, now);
    BreaksDecompose(recorded, more, current);
    PartOfSilence(BreakingChanges(recorded, current), BreakingChanges(more, current));
  }

  lemma Extension<K, V>(part: map<K, V>, whole: map<K, V>)
    requires forall k :: k in part ==> k in whole && whole[k] == part[k]
    ensures part + (whole - part.Keys) == whole
  {
  }

  // ------------------------------------------------------------------ what a passing check means

  lemma SilentOperation(was: map<string, Json>, now: map<string, Json>, key: string)
    requires BreakingChanges(was, now) == multiset{} && key in was
    ensures OperationLines(key, was[key], EntryOf(now, key)) == multiset{}
  {
    hide OperationLines;
    var parts := OperationParts(was, now);
    GatherEmpty(parts);
    assert parts[key] == multiset{};
  }

  lemma SilentOperationParts(key: string, before: Json, after: Json)
    requires OperationLines(key, before, after) == multiset{}
    ensures after != Null
    ensures ParametersLines(ListAt(before, "parameters"), ListAt(after, "parameters"), key) == multiset{}
    ensures BodyLines(before, after, key) == multiset{} && ResponsesLines(before, after, key) == multiset{}
  {
    hide ParametersLines, BodyLines, ResponsesLines;
    assert after != Null by {
      assert Line(key, OperationRemoved) !in OperationLines(key, before, after);
    }
    assert ParametersLines(ListAt(before, "parameters"), ListAt(after, "parameters"), key) <= OperationLines(key, before, after);
    assert BodyLines(before, after, key) <= OperationLines(key, before, after);
    assert ResponsesLines(before, after, key) <= OperationLines(key, before, after);
  }

  function ResponseJson(entry: Json, status: string): Json {
    JsonOf(Get(Get(Get(entry, "responses"), status), "content"))
  }

  lemma SilentStatus(key: string, before: Json, after: Json, status: string)
    requires ResponsesLines(before, after, key) == multiset{}
    requires status in DictAt(before, "responses") && status != "" && status[0] == '2'
    requires ResponseJson(before, status) != Null
    ensures status in DictAt(after, "responses") && ResponseJson(after, status) != Null
    ensures ResponseLines(ResponseJson(before, status), ResponseJson(after, status), key + " -> " + status) == multiset{}
  {
    hide ResponseLines, JsonOf;
    var earlier, later := DictAt(before, "responses"), DictAt(after, "responses");
    var parts := StatusParts(earlier, later, key);
    GatherEmpty(parts);
    assert parts[status] == multiset{};
    assert StatusLines(later, status, earlier[status], key) == multiset{};
  }

  /** The whole promise for responses: over any history of checks and updates with no release, if the
      check passes now, then every success response recorded at the start still exists, and every value
      the current API may send there is readable by the app recorded at the start. */
  lemma InstalledAppsKeepReading(
      recorded: map<string, Json>, history: seq<Run>, openapi: Json, surface: seq<string>,
      key: string, status: string, c: Context, fuel: nat, v: Json)
    requires NoRelease(history) && Succeeds(After(recorded, history), Run(Check, openapi, surface))
    requires key in recorded && status in DictAt(recorded[key], "responses") && status != "" && status[0] == '2'
    requires ResponseJson(recorded[key], status) != Null
    ensures key in surface && ResponseJson(Entry(openapi, key), status) != Null
    ensures Follows(ResponseJson(recorded[key], status), ResponseJson(Entry(openapi, key), status))
            && Validates(c, fuel, ResponseJson(Entry(openapi, key), status), v)
            ==> Readable(ResponseJson(recorded[key], status), v)
  {
    hide OperationLines, ResponsesLines, Readable, Follows, Validates, ResponseJson, Entry, ResponseLines;
    var current := Snapshot(openapi, surface).value;
    PassingCoversThePast(recorded, history, current);
    SilentOperation(recorded, current, key);
    SilentOperationParts(key, recorded[key], EntryOf(current, key));
    assert key in surface && EntryOf(current, key) == Entry(openapi, key);
    SilentStatus(key, recorded[key], Entry(openapi, key), status);
    var was, now := ResponseJson(recorded[key], status), ResponseJson(Entry(openapi, key), status);
    if Follows(was, now) && Validates(c, fuel, now, v) {
      SilentResponseIsReadable(c, fuel, was, now, key + " -> " + status, v);
    }
  }

  // ------------------------------------------------------------------ down to the document

  /** Inlining goes through a node that is not a reference, key by key. */
  lemma InlineGoesThrough(node: Json, components: map<string, Json>, k: string)
    requires !IsRefNode(node) && k !in ANNOTATIONS
    ensures Get(Inline(node, components, {}), k) == Inline(Get(node, k), components, {})
  {
  }

  /** The JSON schema the document gives for a response, references and all. */
  function DocumentSchema(operation: Json, status: string): Json {
    JsonOf(Get(Get(Get(operation, "responses"), status), "content"))
  }

  /** Nothing on the way to the schema is itself a reference. */
  predicate PlainPath(operation: Json, status: string) {
    var responses := Get(operation, "responses");
    var response := Get(responses, status);
    var content := Get(response, "content");
    && !IsRefNode(responses) && !IsRefNode(response) && !IsRefNode(content)
    && !IsRefNode(Get(content, "application/json"))
    && status !in ANNOTATIONS
  }

  lemma EntryHoldsInlined(openapi: Json, key: string, status: string)
    requires PlainPath(Operation(openapi, key), status) && Has(Operation(openapi, key), "responses")
    ensures ResponseJson(Entry(openapi, key), status) ==
            Inline(DocumentSchema(Operation(openapi, key), status), DictAt(Get(openapi, "components"), "schemas"), {})
  {
    hide IsRefText, Inline;
    var components := DictAt(Get(openapi, "components"), "schemas");
    var operation := Operation(openapi, key);
    var responses := Get(operation, "responses");
    var content := Get(Get(responses, status), "content");
    assert "responses" !in ANNOTATIONS && "content" !in ANNOTATIONS && "application/json" !in ANNOTATIONS && "schema" !in ANNOTATIONS;
    EntryResponses(openapi, key);
    InlineGoesThrough(responses, components, status);
    InlineGoesThrough(Get(responses, status), components, "content");
    InlineGoesThrough(content, components, "application/json");
    InlineGoesThrough(Get(content, "application/json"), components, "schema");
  }

  lemma EntryResponses(openapi: Json, key: string)
    requires Has(Operation(openapi, key), "responses")
    ensures Get(Entry(openapi, key), "responses") ==
            Inline(Get(Operation(openapi, key), "responses"), DictAt(Get(openapi, "components"), "schemas"), {})
  {
    assert "responses" !in ANNOTATIONS;
  }

  /** The same promise against the document itself: what the API may send is judged by the schemas as
      the document writes them, with references resolved on demand. */
  lemma InstalledAppsReadTheDocument(
      recorded: map<string, Json>, history: seq<Run>, openapi: Json, surface: seq<string>,
      key: string, status: string, c: Context, fuel: nat, v: Json)
    requires NoRelease(history) && Succeeds(After(recorded, history), Run(Check, openapi, surface))
    requires key in recorded && status in DictAt(recorded[key], "responses") && status != "" && status[0] == '2'
    requires ResponseJson(recorded[key], status) != Null
    requires c.components == DictAt(Get(openapi, "components"), "schemas") && |c.components| <= fuel
    requires PlainPath(Operation(openapi, key), status) && Has(Operation(openapi, key), "responses")
    requires var s := DocumentSchema(Operation(openapi, key), status);
      && Loosens(s, c.components, {}) && Follows(ResponseJson(recorded[key], status), Inline(s, c.components, {}))
      && Validates(c, fuel, s, v)
    ensures Readable(ResponseJson(recorded[key], status), v)
  {
    hide *;
    var s := DocumentSchema(Operation(openapi, key), status);
    InliningOnlyLoosens(c, s, fuel, fuel, v);
    EntryHoldsInlined(openapi, key, status);
    InstalledAppsKeepReading(recorded, history, openapi, surface, key, status, c, fuel, v);
  }

  // ------------------------------------------------------------------ requests

  function RequestJson(entry: Json): Json {
    JsonOf(Get(Get(entry, "requestBody"), "content"))
  }

  lemma SilentBody(key: string, before: Json, after: Json)
    requires BodyLines(before, after, key) == multiset{} && RequestJson(before) != Null
    ensures RequestJson(after) != Null
    ensures RequestLines(RequestJson(before), RequestJson(after), key + " request") == multiset{}
  {
    hide RequestLines;
    var oldBody, newBody := Get(before, "requestBody"), Get(after, "requestBody");
    assert Truthy(oldBody);
    assert Line(key + " request body", BodyNoLongerJson) !in BodyLines(before, after, key);
    assert RequestJson(after) != Null;
    assert RequestLines(RequestJson(before), RequestJson(after), key + " request") <= BodyLines(before, after, key);
  }

  /** The promise for requests: every body the recorded schema allowed, with its declared properties, is
      still accepted. */
  lemma InstalledAppsKeepSending(
      recorded: map<string, Json>, history: seq<Run>, openapi: Json, surface: seq<string>,
      key: string, c: Context, fuel: nat, v: Json)
    requires NoRelease(history) && Succeeds(After(recorded, history), Run(Check, openapi, surface))
    requires key in recorded && RequestJson(recorded[key]) != Null
    ensures key in surface && RequestJson(Entry(openapi, key)) != Null
    ensures Serves(RequestJson(recorded[key]), RequestJson(Entry(openapi, key)))
            && Validates(c, fuel, RequestJson(recorded[key]), v) && DeclaredOnly(c, fuel, RequestJson(recorded[key]), v)
            ==> Validates(c, fuel, RequestJson(Entry(openapi, key)), v)
  {
    hide OperationLines, BodyLines, Validates, Serves, DeclaredOnly, RequestJson, Entry, RequestLines;
    var current := Snapshot(openapi, surface).value;
    PassingCoversThePast(recorded, history, current);
    SilentOperation(recorded, current, key);
    SilentOperationParts(key, recorded[key], EntryOf(current, key));
    assert key in surface && EntryOf(current, key) == Entry(openapi, key);
    SilentBody(key, recorded[key], Entry(openapi, key));
    var was, now := RequestJson(recorded[key]), RequestJson(Entry(openapi, key));
    if Serves(was, now) && Validates(c, fuel, was, v) && DeclaredOnly(c, fuel, was, v) {
      SilentRequestIsAccepted(c, fuel, was, now, key + " request", v);
    }
  }

  /** The JSON schema the document gives for the request body. */
  function BodySchema(operation: Json): Json {
    JsonOf(Get(Get(operation, "requestBody"), "content"))
  }

  /** Nothing on the way to it is itself a reference. */
  predicate PlainBodyPath(operation: Json) {
    var body := Get(operation, "requestBody");
    !IsRefNode(body) && !IsRefNode(Get(body, "content")) && !IsRefNode(Get(Get(body, "content"), "application/json"))
  }

  lemma EntryHoldsBody(openapi: Json, key: string)
    requires PlainBodyPath(Operation(openapi, key))
    ensures RequestJson(Entry(openapi, key)) ==
            Inline(BodySchema(Operation(openapi, key)), DictAt(Get(openapi, "components"), "schemas"), {})
  {
    EntryBody(openapi, key);
    hide IsRefText, Inline, Entry, Operation;
    var components := DictAt(Get(openapi, "components"), "schemas");
    var body := Get(Operation(openapi, key), "requestBody");
    assert "content" !in ANNOTATIONS && "application/json" !in ANNOTATIONS && "schema" !in ANNOTATIONS;
    InlineGoesThrough(body, components, "content");
    InlineGoesThrough(Get(body, "content"), components, "application/json");
    InlineGoesThrough(Get(Get(body, "content"), "application/json"), components, "schema");
  }

  lemma EntryBody(openapi: Json, key: string)
    ensures Get(Entry(openapi, key), "requestBody") ==
            Inline(Get(Operation(openapi, key), "requestBody"), DictAt(Get(openapi, "components"), "schemas"), {})
  {
    assert "requestBody" !in ANNOTATIONS;
  }

  /** What inlining keeps of a schema, for this value: all of it, or all but the schemas of properties named
      like an annotation, of which the value has none. */
  ghost predicate KeptFor(c: Context, s: Json, v: Json) {
    exists strict: bool :: (strict || Unannotated(v)) && PlainSchema(s, strict) && Resolves(s, c.components, {}, strict)
  }

  /** A value the recorded form accepts is one the document accepts. */
  lemma BackToTheDocument(c: Context, s: Json, fuel: nat, v: Json)
    requires KeptFor(c, s, v) && |c.components| <= fuel && Validates(c, fuel, Inline(s, c.components, {}), v)
    ensures Validates(c, fuel, s, v)
  {
    hide Validates, Inline, PlainSchema, Resolves, Unannotated;
    var strict: bool :| (strict || Unannotated(v)) && PlainSchema(s, strict) && Resolves(s, c.components, {}, strict);
    InliningPreservesMeaning(c, s, fuel, fuel, v, strict);
  }

  /** The same promise against the document itself: a body the recorded schema allowed is accepted by the
      schema as the document writes it, with references resolved on demand. */
  lemma InstalledAppsSendTheDocument(
      recorded: map<string, Json>, history: seq<Run>, openapi: Json, surface: seq<string>,
      key: string, c: Context, fuel: nat, v: Json)
    requires NoRelease(history) && Succeeds(After(recorded, history), Run(Check, openapi, surface))
    requires key in recorded && RequestJson(recorded[key]) != Null
    requires c.components == DictAt(Get(openapi, "components"), "schemas") && |c.components| <= fuel
    requires PlainBodyPath(Operation(openapi, key))
    requires var s := BodySchema(Operation(openapi, key));
      KeptFor(c, s, v) && Serves(RequestJson(recorded[key]), Inline(s, c.components, {}))
    requires Validates(c, fuel, RequestJson(recorded[key]), v) && DeclaredOnly(c, fuel, RequestJson(recorded[key]), v)
    ensures Validates(c, fuel, BodySchema(Operation(openapi, key)), v)
  {
    hide *;
    EntryHoldsBody(openapi, key);
    InstalledAppsKeepSending(recorded, history, openapi, surface, key, c, fuel, v);
    BackToTheDocument(c, BodySchema(Operation(openapi, key)), fuel, v);
  }

  // ------------------------------------------------------------------ parameters

  /** The parameters of an entry, by place and name. */
  function Table(entry: Json): map<Ident, Json> {
    ParameterTable(ListAt(entry, "parameters"))
  }

  predicate Demands(part: Json) {
    Truthy(Get(part, "required"))
  }

  function PlaceOf(key: string, ident: Ident): string {
    key + " " + ident.place + " parameter '" + ident.name + "'"
  }

  lemma SilentParameter(before: Json, after: Json, key: string, ident: Ident)
    requires ParametersLines(ListAt(before, "parameters"), ListAt(after, "parameters"), key) == multiset{}
    requires ident in Table(after)
    ensures Demands(Table(after)[ident]) ==> ident in Table(before) && Demands(Table(before)[ident])
    ensures ident in Table(before) && Truthy(Table(before)[ident]) ==>
      RequestLines(SchemaOf(Table(before)[ident]), SchemaOf(Table(after)[ident]), PlaceOf(key, ident)) == multiset{}
  {
    hide RequestLines, ParameterTable, Truthy, SchemaOf;
    var parts := ParameterParts(Table(before), Table(after), key);
    GatherEmpty(parts);
    assert parts[ident] == multiset{};
    assert Line(PlaceOf(key, ident), NowRequired) !in parts[ident];
  }

  lemma SilentBodyDemand(key: string, before: Json, after: Json)
    requires BodyLines(before, after, key) == multiset{} && Demands(Get(after, "requestBody"))
    ensures Demands(Get(before, "requestBody"))
  {
    hide RequestLines;
    assert Truthy(Get(after, "requestBody"));
    assert Line(key + " request body", BodyNowRequired) !in BodyLines(before, after, key);
  }

  /** Nothing is demanded of an installed app that was not demanded when it was recorded: no parameter,
      and no body. */
  lemma NothingNewIsDemanded(
      recorded: map<string, Json>, history: seq<Run>, openapi: Json, surface: seq<string>, key: string)
    requires NoRelease(history) && Succeeds(After(recorded, history), Run(Check, openapi, surface))
    requires key in recorded
    ensures key in surface
    ensures forall ident :: ident in Table(Entry(openapi, key)) && Demands(Table(Entry(openapi, key))[ident]) ==>
              ident in Table(recorded[key]) && Demands(Table(recorded[key])[ident])
    ensures Demands(Get(Entry(openapi, key), "requestBody")) ==> Demands(Get(recorded[key], "requestBody"))
  {
    hide OperationLines, ParametersLines, BodyLines, Entry, Table, Demands;
    var current := Snapshot(openapi, surface).value;
    PassingCoversThePast(recorded, history, current);
    SilentOperation(recorded, current, key);
    SilentOperationParts(key, recorded[key], EntryOf(current, key));
    assert key in surface && EntryOf(current, key) == Entry(openapi, key);
    var now := Entry(openapi, key);
    forall ident | ident in Table(now) && Demands(Table(now)[ident])
      ensures ident in Table(recorded[key]) && Demands(Table(recorded[key])[ident])
    {
      SilentParameter(recorded[key], now, key, ident);
    }
    if Demands(Get(now, "requestBody")) {
      SilentBodyDemand(key, recorded[key], now);
    }
  }

  /** Every value a recorded parameter allowed is still accepted. */
  lemma ParametersStayAccepted(
      recorded: map<string, Json>, history: seq<Run>, openapi: Json, surface: seq<string>,
      key: string, ident: Ident, c: Context, fuel: nat, v: Json)
    requires NoRelease(history) && Succeeds(After(recorded, history), Run(Check, openapi, surface))
    requires key in recorded && ident in Table(recorded[key]) && Truthy(Table(recorded[key])[ident])
    requires ident in Table(Entry(openapi, key))
    ensures var was, now := SchemaOf(Table(recorded[key])[ident]), SchemaOf(Table(Entry(openapi, key))[ident]);
      Serves(was, now) && Validates(c, fuel, was, v) && DeclaredOnly(c, fuel, was, v) ==> Validates(c, fuel, now, v)
  {
    hide OperationLines, ParametersLines, Validates, Serves, DeclaredOnly, Entry, Table, Truthy, SchemaOf, RequestLines;
    var current := Snapshot(openapi, surface).value;
    PassingCoversThePast(recorded, history, current);
    SilentOperation(recorded, current, key);
    SilentOperationParts(key, recorded[key], EntryOf(current, key));
    assert key in surface && EntryOf(current, key) == Entry(openapi, key);
    SilentParameter(recorded[key], Entry(openapi, key), key, ident);
    var was, now := SchemaOf(Table(recorded[key])[ident]), SchemaOf(Table(Entry(openapi, key))[ident]);
    if Serves(was, now) && Validates(c, fuel, was, v) && DeclaredOnly(c, fuel, was, v) {
      SilentRequestIsAccepted(c, fuel, was, now, PlaceOf(key, ident), v);
    }
  }

  /** A parameter as documents write them: a dictionary and no reference, its place and name texts. */
  predicate PlainParameter(p: Json) {
    p.Obj? && !IsRefNode(p) && Get(p, "in").Str? && Get(p, "name").Str?
  }

  /** The parameters the document gives, each by place and name. */
  function DocumentTable(openapi: Json, key: string): map<Ident, Json> {
    ParameterTable(ListAt(Operation(openapi, key), "parameters"))
  }

  lemma ParameterInlined(p: Json, components: map<string, Json>)
    requires PlainParameter(p)
    ensures IdentOf(Inline(p, components, {})) == IdentOf(p)
    ensures SchemaOf(Inline(p, components, {})) == Inline(SchemaOf(p), components, {})
  {
    assert "in" !in ANNOTATIONS && "name" !in ANNOTATIONS && "schema" !in ANNOTATIONS;
    InlineGoesThrough(p, components, "in");
    InlineGoesThrough(p, components, "name");
    if !Has(p, "schema") {
      assert Inline(Obj(map[]), components, {}).fields == map[];
    }
  }

  lemma {:induction false} TableInlined(parameters: seq<Json>, inlined: seq<Json>, components: map<string, Json>)
    requires |inlined| == |parameters| && forall i :: 0 <= i < |parameters| ==> PlainParameter(parameters[i])
    requires forall i :: 0 <= i < |parameters| ==> inlined[i] == Inline(parameters[i], components, {})
    ensures ParameterTable(inlined).Keys == ParameterTable(parameters).Keys
    ensures forall ident :: ident in ParameterTable(parameters) ==>
              SchemaOf(ParameterTable(inlined)[ident]) == Inline(SchemaOf(ParameterTable(parameters)[ident]), components, {})
  {
    hide Inline, SchemaOf, IdentOf, PlainParameter;
    if parameters != [] {
      var k := |parameters| - 1;
      TableInlined(parameters[..k], inlined[..k], components);
      ParameterInlined(parameters[k], components);
    }
  }

  lemma EntryParameters(openapi: Json, key: string)
    ensures var parameters, inlined := ListAt(Operation(openapi, key), "parameters"), ListAt(Entry(openapi, key), "parameters");
      var components := DictAt(Get(openapi, "components"), "schemas");
      !Has(Operation(openapi, key), "parameters") || Get(Operation(openapi, key), "parameters").Arr? ==>
        |inlined| == |parameters| && forall i :: 0 <= i < |parameters| ==> inlined[i] == Inline(parameters[i], components, {})
  {
    var operation, components := Operation(openapi, key), DictAt(Get(openapi, "components"), "schemas");
    var parameters := if Has(operation, "parameters") then operation.fields["parameters"] else Arr([]);
    EntryParameterList(openapi, key);
    hide Entry, Operation;
    if parameters.Arr? {
      assert Inline(parameters, components, {}).items ==
             seq(|parameters.items|, i requires 0 <= i < |parameters.items| => Inline(parameters.items[i], components, {}));
    }
  }

  lemma EntryParameterList(openapi: Json, key: string)
    ensures var operation := Operation(openapi, key);
      Get(Entry(openapi, key), "parameters") ==
        Inline(if Has(operation, "parameters") then operation.fields["parameters"] else Arr([]),
               DictAt(Get(openapi, "components"), "schemas"), {})
  {
    assert "parameters" !in ANNOTATIONS;
  }

  /** Every value a recorded parameter allowed is accepted by the parameter's schema as the document
      writes it. */
  lemma ParametersStayAcceptedByTheDocument(
      recorded: map<string, Json>, history: seq<Run>, openapi: Json, surface: seq<string>,
      key: string, ident: Ident, c: Context, fuel: nat, v: Json)
    requires NoRelease(history) && Succeeds(After(recorded, history), Run(Check, openapi, surface))
    requires key in recorded && ident in Table(recorded[key]) && Truthy(Table(recorded[key])[ident])
    requires c.components == DictAt(Get(openapi, "components"), "schemas") && |c.components| <= fuel
    requires Get(Operation(openapi, key), "parameters").Arr? && ident in DocumentTable(openapi, key)
    requires forall p :: p in ListAt(Operation(openapi, key), "parameters") ==> PlainParameter(p)
    requires var was, s := SchemaOf(Table(recorded[key])[ident]), SchemaOf(DocumentTable(openapi, key)[ident]);
      && KeptFor(c, s, v) && Serves(was, Inline(s, c.components, {}))
      && Validates(c, fuel, was, v) && DeclaredOnly(c, fuel, was, v)
    ensures Validates(c, fuel, SchemaOf(DocumentTable(openapi, key)[ident]), v)
  {
    hide Validates, Serves, DeclaredOnly, Entry, Operation, Truthy, SchemaOf, KeptFor, Inline, Succeeds, After, NoRelease, PlainParameter;
    EntryParameters(openapi, key);
    TableInlined(ListAt(Operation(openapi, key), "parameters"), ListAt(Entry(openapi, key), "parameters"), c.components);
    assert ident in Table(Entry(openapi, key));
    ParametersStayAccepted(recorded, history, openapi, surface, key, ident, c, fuel, v);
    BackToTheDocument(c, SchemaOf(DocumentTable(openapi, key)[ident]), fuel, v);
  }

  // ------------------------------------------------------------------ up to the report

  /** Every line of the comparison of a recorded JSON response is in the report. */
  lemma ResponseReachesTheReport(was: map<string, Json>, now: map<string, Json>, key: string, status: string)
    requires key in was && EntryOf(now, key) != Null
    requires status in DictAt(was[key], "responses") && status in DictAt(EntryOf(now, key), "responses")
    requires ResponseJson(was[key], status) != Null && ResponseJson(EntryOf(now, key), status) != Null
    ensures ResponseLines(ResponseJson(was[key], status), ResponseJson(EntryOf(now, key), status), key + " -> " + status)
            <= BreakingChanges(was, now)
  {
    hide ResponseLines, OperationLines, ResponsesLines, ResponseJson;
    var before, after := was[key], EntryOf(now, key);
    StatusIsIncluded(before, after, key, status);
    OperationIncludes(before, after, key);
    GatherHolds(OperationParts(was, now), key);
    assert OperationParts(was, now)[key] == OperationLines(key, before, after);
  }

  lemma StatusIsIncluded(before: Json, after: Json, key: string, status: string)
    requires status in DictAt(before, "responses") && status in DictAt(after, "responses")
    requires ResponseJson(before, status) != Null && ResponseJson(after, status) != Null
    ensures ResponseLines(ResponseJson(before, status), ResponseJson(after, status), key + " -> " + status)
            <= ResponsesLines(before, after, key)
  {
    hide ResponseLines;
    var parts := StatusParts(DictAt(before, "responses"), DictAt(after, "responses"), key);
    GatherHolds(parts, status);
    assert parts[status] == StatusLines(DictAt(after, "responses"), status, DictAt(before, "responses")[status], key);
  }

  lemma OperationIncludes(before: Json, after: Json, key: string)
    requires after != Null
    ensures ResponsesLines(before, after, key) <= OperationLines(key, before, after)
  {
    hide ParametersLines, BodyLines, ResponsesLines;
  }

  /** A property lost at the end of a path the comparison walks, in a recorded success response, fails the
      check. */
  lemma NestedRemovalFailsTheCheck(
      was: map<string, Json>, now: map<string, Json>, key: string, status: string, path: seq<Paths.Step>, name: string)
    requires key in was && EntryOf(now, key) != Null
    requires status in DictAt(was[key], "responses") && status in DictAt(EntryOf(now, key), "responses")
    requires ResponseJson(was[key], status) != Null && ResponseJson(EntryOf(now, key), status) != Null
    requires Paths.Leads(ResponseJson(was[key], status), ResponseJson(EntryOf(now, key), status), path)
    requires Paths.OneStepNames(ResponseJson(was[key], status)) && OneStep(name)
    requires var (o, n) := Paths.EndOf(ResponseJson(was[key], status), ResponseJson(EntryOf(now, key), status), path);
      && name in DictAt(o, "properties")
      && (name !in DictAt(n, "properties") || (Requires(o, name) && !Requires(n, name)))
    ensures !Passes(was, now)
  {
    hide BreakingChanges, ResponseLines, ResponseJson, Paths.Leads, Paths.EndOf, Paths.OneStepNames, Paths.PlaceAt, OneStep, Requires;
    var where := key + " -> " + status;
    var at := Paths.PlaceAt(where, path) + "." + name;
    ResponseReachesTheReport(was, now, key, status);
    Paths.NestedLossReportedExactly(ResponseJson(was[key], status), ResponseJson(EntryOf(now, key), status), where, path, name);
    assert Line(at, Removed) in BreakingChanges(was, now) || Line(at, NotAlwaysPresent) in BreakingChanges(was, now);
  }
}
