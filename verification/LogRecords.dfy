/** What the log filter writes at each place of a record, with the names, the marker and the cap written out. */
module LogRecords {
  import opened Wrappers
  import opened Redaction

  // ------------------------------------------------------------------ which names are sensitive

  /** Codes, credentials, contact details, documents and what is derived from them. */
  predicate Sensitive(name: string) {
    || IsCode(name) || IsCredential(name) || IsContact(name) || IsDocument(name)
  }

  predicate IsCode(name: string) {
    name == "code" || name == "otp" || name == "otp_code" || name == "debug_code" || name == "verification_code"
  }

  predicate IsCredential(name: string) {
    || name == "password" || name == "secret" || name == "token" || name == "access_token" || name == "refresh_token"
    || name == "jwt" || name == "jwt_secret_key" || name == "authorization" || name == "api_key" || name == "credentials"
  }

  predicate IsContact(name: string) {
    name == "phone" || name == "mobile" || name == "msisdn" || name == "email" || name == "email_address"
  }

  predicate IsDocument(name: string) {
    || name == "aadhaar" || name == "aadhaar_number" || name == "resume" || name == "resume_text" || name == "extracted_text"
    || name == "document" || name == "assessment" || name == "assessment_result" || name == "embedding" || name == "vector"
  }

  lemma ListedExactly(name: string)
    ensures name in DENY_KEYS <==> Sensitive(name)
  {
  }

  /** A key is denied exactly when it is a name that, lower-cased, is one of these; so "PASSWORD" is whenever
      it lowers to "password", and a key that is no text never is. */
  lemma DeniedExactly(f: Filter, key: Key)
    ensures Denied(f, key) <==> key.Name? && Sensitive(f.lower(key.text))
  {
    hide DENY_KEYS, Sensitive;
    if key.Name? { ListedExactly(f.lower(key.text)); }
  }

  // ------------------------------------------------------------------ what stands at a place

  /** The step goes under a sensitive name. */
  predicate IntoSensitive(f: Filter, step: Step) {
    step.Field? && step.key.Name? && Sensitive(f.lower(step.key.text))
  }

  /** No step of the path but perhaps the last goes under a sensitive name. */
  predicate Open(f: Filter, path: seq<Step>) {
    forall i :: 0 <= i < |path| - 1 ==> !IntoSensitive(f, path[i])
  }

  lemma OpenIsClear(f: Filter, path: seq<Step>)
    requires path != [] && Open(f, path)
    ensures Clear(f, path[..|path| - 1])
  {
    hide Sensitive, Denied;
    forall i | 0 <= i < |path| - 1 && path[i].Field?
      ensures !Denied(f, path[i].key)
    {
      assert !IntoSensitive(f, path[i]);
      DeniedExactly(f, path[i].key);
    }
  }

  /** The value of one entry of a walked node. */
  lemma StepWalked(f: Filter, node: Value, depth: nat, step: Step)
    requires depth <= 6 && At(node, [step]).Some?
    ensures At(Walk(f, node, depth).0, [step]) ==
            Some(if step.Field? then WalkUnder(f, step.key, At(node, [step]).value, depth + 1).0
                 else Walk(f, At(node, [step]).value, depth + 1).0)
  {
    hide DENY_KEYS, Denied, WalkUnder;
    assert [step][1..] == [];
  }

  /** What the filter writes for a value reached by a step, that many steps into the record. */
  function Logged(f: Filter, steps: nat, step: Step, value: Value): Option<Value> {
    if steps == 7 then Some(Text("[redacted]"))
    else if IntoSensitive(f, step) then Some(if value == Nil then Nil else Text("[redacted]"))
    else if value.Text? then Some(Text(ScrubWith(f.patterns, value.text).0))
    else if value.Dict? || value.List? || value.Tuple? then None
    else Some(value)
  }

  /** Six steps into a record, and short of sensitive names, the log holds: under a sensitive name the
      marker, unless it is null; text with the patterns applied; and every scalar as it is. At the seventh
      step it holds the marker, whatever was there. */
  lemma LoggedExactly(f: Filter, record: map<Key, Value>, path: seq<Step>)
    requires 1 <= |path| <= 7 && path[0] != Field(Name("redacted")) && Open(f, path) && At(Dict(record), path).Some?
    ensures var logged := Logged(f, |path|, path[|path| - 1], At(Dict(record), path).value);
      logged.Some? ==> At(Dict(Process(f, record)), path) == logged
  {
    hide Sensitive, Process, Walk, WalkUnder, Logged, At, Clear, Open;
    var k := |path| - 1;
    var front, step := path[..k], path[k];
    assert path == front + [step];
    FrontLeads(Dict(record), front, step);
    var node := At(Dict(record), front).value;
    OpenIsClear(f, path);
    ProcessAlongPath(f, record, path);
    WalkAlongPath(f, Dict(record), 0, front);
    PathsCompose(Dict(record), front, step);
    PathsCompose(Walk(f, Dict(record), 0).0, front, step);
    StepWalked(f, node, k, step);
    StepLogged(f, k + 1, step, At(node, [step]).value);
  }

  lemma StepLogged(f: Filter, steps: nat, step: Step, value: Value)
    requires 1 <= steps <= 7
    ensures var walked := if step.Field? then WalkUnder(f, step.key, value, steps).0 else Walk(f, value, steps).0;
      Logged(f, steps, step, value).Some? ==> Logged(f, steps, step, value) == Some(walked)
  {
    hide Sensitive, Denied, ScrubWith;
    if step.Field? { DeniedExactly(f, step.key); }
  }

  lemma {:induction false} FrontLeads(node: Value, front: seq<Step>, step: Step)
    requires At(node, front + [step]).Some?
    ensures At(node, front).Some?
    decreases |front|
  {
    if front != [] {
      assert (front + [step])[1..] == front[1..] + [step];
      match (front[0], node)
      case (Field(k), Dict(entries)) => FrontLeads(entries[k], front[1..], step);
      case (Item(i), List(items)) => FrontLeads(items[i], front[1..], step);
      case (Item(i), Tuple(items)) => FrontLeads(items[i], front[1..], step);
    }
  }

  // ------------------------------------------------------------------ the flag

  /** Something is hidden at the end of the path: it is past the cap, or under a sensitive name and not null,
      or text that some pattern matches. */
  ghost predicate Hit(f: Filter, node: Value, depth: nat, path: seq<Step>)
    decreases |path|
  {
    if path == [] then depth > 6 || (node.Text? && ScrubWith(f.patterns, node.text).1)
    else
      && depth <= 6 && At(node, path[..1]).Some?
      && var next := At(node, path[..1]).value;
      if depth < 6 && IntoSensitive(f, path[0]) then |path| == 1 && next != Nil
      else Hit(f, next, depth + 1, path[1..])
  }

  lemma HitStep(f: Filter, node: Value, depth: nat, step: Step, rest: seq<Step>)
    requires depth <= 6 && At(node, [step]).Some?
    ensures Hit(f, node, depth, [step] + rest) <==>
            var next := At(node, [step]).value;
            if depth < 6 && IntoSensitive(f, step) then rest == [] && next != Nil else Hit(f, next, depth + 1, rest)
  {
    hide Sensitive, At;
    var path := [step] + rest;
    assert path[..1] == [step] && path[1..] == rest && path[0] == step;
  }

  lemma OneStepAt(node: Value, step: Step)
    ensures At(node, [step]) ==
            match (step, node)
            case (Field(k), Dict(entries)) => if k in entries then Some(entries[k]) else None
            case (Item(i), List(items)) => if i < |items| then Some(items[i]) else None
            case (Item(i), Tuple(items)) => if i < |items| then Some(items[i]) else None
            case _ => None
  {
    assert [step][1..] == [];
  }

  lemma {:induction false} TouchedBelow(f: Filter, node: Value, depth: nat)
    requires Walk(f, node, depth).1
    ensures exists path :: Hit(f, node, depth, path)
    decreases node, 0
  {
    hide Sensitive, Denied, ScrubWith, DENY_KEYS;
    if depth > 6 || node.Text? {
      assert Hit(f, node, depth, []);
    } else {
      match node
      case Dict(entries) =>
        var k :| k in entries && WalkUnder(f, k, entries[k], depth + 1).1;
        TouchedUnder(f, node, k, depth);
      case List(items) =>
        var i: nat :| i < |items| && Walk(f, items[i], depth + 1).1;
        TouchedItem(f, node, i, items[i], depth);
      case Tuple(items) =>
        var i: nat :| i < |items| && Walk(f, items[i], depth + 1).1;
        TouchedItem(f, node, i, items[i], depth);
    }
  }

  lemma {:induction false} TouchedItem(f: Filter, node: Value, i: nat, item: Value, depth: nat)
    requires depth <= 6 && (node.List? || node.Tuple?) && i < |node.items| && node.items[i] == item && Walk(f, item, depth + 1).1
    ensures exists path :: Hit(f, node, depth, path)
    decreases item, 1
  {
    hide Sensitive, Walk;
    TouchedBelow(f, item, depth + 1);
    var rest :| Hit(f, item, depth + 1, rest);
    OneStepAt(node, Item(i));
    HitStep(f, node, depth, Item(i), rest);
    assert Hit(f, node, depth, [Item(i)] + rest);
  }

  lemma {:induction false} TouchedUnder(f: Filter, node: Value, k: Key, depth: nat)
    requires depth <= 6 && node.Dict? && k in node.entries && WalkUnder(f, k, node.entries[k], depth + 1).1
    ensures exists path :: Hit(f, node, depth, path)
    decreases node.entries[k], 1
  {
    hide Sensitive, Denied, Hit;
    var next := node.entries[k];
    OneStepAt(node, Field(k));
    DeniedExactly(f, k);
    var rest: seq<Step> := [];
    if depth == 6 {
      HitHere(f, next, 7);
    } else if !Denied(f, k) {
      TouchedBelow(f, next, depth + 1);
      rest :| Hit(f, next, depth + 1, rest);
    }
    HitStep(f, node, depth, Field(k), rest);
    assert Hit(f, node, depth, [Field(k)] + rest);
  }

  lemma HitHere(f: Filter, node: Value, depth: nat)
    requires depth > 6
    ensures Hit(f, node, depth, [])
  {
  }

  lemma {:induction false} HitTouches(f: Filter, node: Value, depth: nat, path: seq<Step>)
    requires Hit(f, node, depth, path)
    ensures Walk(f, node, depth).1
    decreases |path|
  {
    hide Sensitive, Denied, ScrubWith, DENY_KEYS, WalkUnder;
    if path != [] {
      var step, rest := path[0], path[1..];
      assert path[..1] == [step] && path == [step] + rest;
      OneStepAt(node, step);
      HitStep(f, node, depth, step, rest);
      var next := At(node, [step]).value;
      if !(depth < 6 && IntoSensitive(f, step)) {
        HitTouches(f, next, depth + 1, rest);
      }
      match step
      case Field(k) =>
        UnderTouched(f, k, next, depth + 1);
      case Item(i) =>
    }
  }

  lemma UnderTouched(f: Filter, key: Key, node: Value, depth: nat)
    requires if depth <= 6 && IntoSensitive(f, Field(key)) then node != Nil else Walk(f, node, depth).1
    ensures WalkUnder(f, key, node, depth).1
  {
    hide Sensitive, Denied, Walk;
    DeniedExactly(f, key);
  }

  /** The record is flagged exactly when something in it was hidden, and the flag is `True` under
      "redacted". */
  lemma FlaggedExactly(f: Filter, record: map<Key, Value>)
    ensures var out := Process(f, record);
      if exists path :: Hit(f, Dict(record), 0, path)
      then Name("redacted") in out && out[Name("redacted")] == Truth(true) && out.Keys == record.Keys + {Name("redacted")}
      else out.Keys == record.Keys
  {
    hide Walk, Hit, DENY_KEYS;
    RecordKeepsItsKeys(f, record);
    DictStaysDict(f, record);
    if path :| Hit(f, Dict(record), 0, path) { HitTouches(f, Dict(record), 0, path); }
    if Walk(f, Dict(record), 0).1 { TouchedBelow(f, Dict(record), 0); }
  }

  // ------------------------------------------------------------------ the patterns, first to last

  /** The first pattern is applied to the text as it is, and the others to what it leaves. */
  lemma {:induction false} PatternsInTurn(first: Pattern, others: seq<Pattern>, text: string)
    ensures ScrubWith([], text) == (text, false)
    ensures ScrubWith([first] + others, text) ==
            var (after, count) := first(text);
            (ScrubWith(others, after).0, count != 0 || ScrubWith(others, after).1)
    decreases |others|
  {
    var all := [first] + others;
    if others == [] {
      assert all[..0] == [] && all == [first];
    } else {
      var k := |others| - 1;
      PatternsInTurn(first, others[..k], text);
      assert all[..|all| - 1] == [first] + others[..k] && all[|all| - 1] == others[k];
    }
  }
}
