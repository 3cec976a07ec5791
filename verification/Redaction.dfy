/** The redaction filter every log record passes through. */
module Redaction {
  import opened Wrappers

  /** A dictionary key: a name, or anything else hashable. */
  datatype Key = Name(text: string) | Other(id: int)

  /** A log value. `Opaque` is anything the filter does not look into: numbers, booleans, dates. */
  datatype Value =
    | Nil
    | Truth(flag: bool)
    | Opaque(id: int)
    | Text(text: string)
    | Dict(entries: map<Key, Value>)
    | List(items: seq<Value>)
    | Tuple(items: seq<Value>)

  /** One substitution: the text afterwards, and how many matches were replaced. */
  type Pattern = string -> (string, nat)

  /** The regular expressions, in order, and the lower-casing of key names. */
  datatype Filter = Filter(patterns: seq<Pattern>, lower: string -> string)

  const REDACTED := Text("[redacted]")

  const MAX_DEPTH := 6

  const DENY_KEYS: set<string> := {
    "code", "otp", "otp_code", "debug_code", "verification_code", "password", "secret", "token", "access_token",
    "refresh_token", "jwt", "jwt_secret_key", "authorization", "api_key", "credentials", "phone", "mobile", "msisdn",
    "email", "email_address", "aadhaar", "aadhaar_number", "resume", "resume_text", "extracted_text", "document",
    "assessment", "assessment_result", "embedding", "vector"}

  // ------------------------------------------------------------------ text

  /** Every pattern applied in turn: the text, and whether anything matched. */
  function ScrubWith(patterns: seq<Pattern>, text: string): (string, bool) {
    if patterns == [] then (text, false)
    else
      var (before, touched) := ScrubWith(patterns[..|patterns| - 1], text);
      var (after, count) := patterns[|patterns| - 1](before);
      (after, touched || count != 0)
  }

  method ScrubText(patterns: seq<Pattern>, text: string) returns (value: string, touched: bool)
    ensures (value, touched) == ScrubWith(patterns, text)
  {
    value, touched := text, false;
    for i := 0 to |patterns|
      invariant (value, touched) == ScrubWith(patterns[..i], text)
    {
      var (after, count) := patterns[i](value);
      value, touched := after, touched || count != 0;
      assert patterns[..i + 1][..i] == patterns[..i];
    }
    assert patterns[..|patterns|] == patterns;
  }

  /** A substitution that replaced nothing left the text alone, as `subn` does. */
  ghost predicate Honest(patterns: seq<Pattern>) {
    forall i, text :: 0 <= i < |patterns| && patterns[i](text).1 == 0 ==> patterns[i](text).0 == text
  }

  lemma {:induction false} UntouchedText(patterns: seq<Pattern>, text: string)
    requires Honest(patterns) && !ScrubWith(patterns, text).1
    ensures ScrubWith(patterns, text).0 == text
  {
    if patterns != [] {
      var front := patterns[..|patterns| - 1];
      assert forall i :: 0 <= i < |front| ==> front[i] == patterns[i];
      UntouchedText(front, text);
      assert patterns[|patterns| - 1](text).1 == 0;
    }
  }

  // ------------------------------------------------------------------ the walk

  /** The key's name says the value is sensitive. */
  predicate Denied(f: Filter, key: Key) {
    key.Name? && f.lower(key.text) in DENY_KEYS
  }

  /** The value and whether it was touched, at a depth, with the denied keys already looked at. */
  ghost function Walk(f: Filter, node: Value, depth: nat): (Value, bool)
    decreases node, 0
  {
    if depth > MAX_DEPTH then (REDACTED, true)
    else
      match node
      case Text(text) => (Text(ScrubWith(f.patterns, text).0), ScrubWith(f.patterns, text).1)
      case Dict(entries) =>
        (Dict(map k | k in entries :: WalkUnder(f, k, entries[k], depth + 1).0),
         exists k :: k in entries && WalkUnder(f, k, entries[k], depth + 1).1)
      case List(items) =>
        (List(seq(|items|, i requires 0 <= i < |items| => Walk(f, items[i], depth + 1).0)),
         exists i :: 0 <= i < |items| && Walk(f, items[i], depth + 1).1)
      case Tuple(items) =>
        (Tuple(seq(|items|, i requires 0 <= i < |items| => Walk(f, items[i], depth + 1).0)),
         exists i :: 0 <= i < |items| && Walk(f, items[i], depth + 1).1)
      case _ => (node, false)
  }

  /** The value under a key: past the cap the marker, under a denied key replaced whole unless null. */
  ghost function WalkUnder(f: Filter, key: Key, node: Value, depth: nat): (Value, bool)
    decreases node, 1
  {
    if depth > MAX_DEPTH then (REDACTED, true)
    else if Denied(f, key) then (if node == Nil then (Nil, false) else (REDACTED, true))
    else Walk(f, node, depth)
  }

  const FLAG := Name("redacted")

  /** The processor: the walked record, flagged when anything was touched. */
  ghost function Process(f: Filter, record: map<Key, Value>): map<Key, Value> {
    var (scrubbed, touched) := Walk(f, Dict(record), 0);
    if touched then scrubbed.entries[FLAG := Truth(true)] else scrubbed.entries
  }

  ghost function WalkAt(f: Filter, node: Value, depth: nat, key: Option<Key>): (Value, bool) {
    if key.Some? then WalkUnder(f, key.value, node, depth) else Walk(f, node, depth)
  }

  method WalkNode(f: Filter, node: Value, depth: nat, key: Option<Key>) returns (out: Value, touched: bool)
    ensures (out, touched) == WalkAt(f, node, depth, key)
    decreases node, 1
  {
    hide DENY_KEYS;
    if depth > MAX_DEPTH {
      return REDACTED, true;
    }
    if key.Some? && Denied(f, key.value) {
      if node == Nil { return node, false; } else { return REDACTED, true; }
    }
    assert WalkAt(f, node, depth, key) == Walk(f, node, depth);
    match node
    case Text(text) =>
      var value, hit := ScrubText(f.patterns, text);
      return Text(value), hit;
    case Dict(entries) =>
      var fields, hit := WalkEntries(f, entries, node, depth);
      return Dict(fields), hit;
    case List(items) =>
      var walked, hit := WalkItems(f, items, node, depth);
      return List(walked), hit;
    case Tuple(items) =>
      var walked, hit := WalkItems(f, items, node, depth);
      return Tuple(walked), hit;
    case _ =>
      return node, false;
  }

  method WalkEntries(f: Filter, entries: map<Key, Value>, ghost node: Value, depth: nat)
    returns (fields: map<Key, Value>, touched: bool)
    requires node == Dict(entries) && depth <= MAX_DEPTH
    ensures (Dict(fields), touched) == Walk(f, node, depth)
    decreases node, 0
  {
    hide DENY_KEYS, Denied, WalkUnder;
    fields, touched := map[], false;
    var todo := entries.Keys;
    while todo != {}
      invariant todo <= entries.Keys
      invariant fields.Keys == entries.Keys - todo
      invariant forall k :: k in fields ==> fields[k] == WalkUnder(f, k, entries[k], depth + 1).0
      invariant touched <==> exists k :: k in entries && k !in todo && WalkUnder(f, k, entries[k], depth + 1).1
    {
      var k :| k in todo;
      var value, hit := WalkNode(f, entries[k], depth + 1, Some(k));
      fields := fields[k := value];
      touched := touched || hit;
      todo := todo - {k};
    }
    assert fields == (map k | k in entries :: WalkUnder(f, k, entries[k], depth + 1).0);
  }

  method WalkItems(f: Filter, items: seq<Value>, ghost node: Value, depth: nat)
    returns (walked: seq<Value>, touched: bool)
    requires (node == List(items) || node == Tuple(items)) && depth <= MAX_DEPTH
    ensures (List(walked), touched) == Walk(f, List(items), depth)
    ensures (Tuple(walked), touched) == Walk(f, Tuple(items), depth)
    decreases node, 0
  {
    hide DENY_KEYS, Denied, WalkUnder, Walk;
    walked, touched := [], false;
    for j := 0 to |items|
      invariant |walked| == j
      invariant forall i :: 0 <= i < j ==> walked[i] == Walk(f, items[i], depth + 1).0
      invariant touched <==> exists i :: 0 <= i < j && Walk(f, items[i], depth + 1).1
    {
      var value, hit := WalkNode(f, items[j], depth + 1, None);
      walked := walked + [value];
      touched := touched || hit;
    }
    ItemsWalked(f, items, depth, walked, touched);
  }

  lemma ItemsWalked(f: Filter, items: seq<Value>, depth: nat, walked: seq<Value>, touched: bool)
    requires depth <= MAX_DEPTH && |walked| == |items|
    requires forall i :: 0 <= i < |items| ==> walked[i] == Walk(f, items[i], depth + 1).0
    requires touched <==> exists i :: 0 <= i < |items| && Walk(f, items[i], depth + 1).1
    ensures (List(walked), touched) == Walk(f, List(items), depth)
    ensures (Tuple(walked), touched) == Walk(f, Tuple(items), depth)
  {
    hide DENY_KEYS;
    assert Walk(f, List(items), depth).0.items == walked;
    assert Walk(f, Tuple(items), depth).0.items == walked;
  }

  method Call(f: Filter, record: map<Key, Value>) returns (out: map<Key, Value>)
    ensures out == Process(f, record)
  {
    hide DENY_KEYS, Walk;
    var scrubbed, touched := WalkNode(f, Dict(record), 0, None);
    DictStaysDict(f, record);
    out := scrubbed.entries;
    if touched {
      out := out[FLAG := Truth(true)];
    }
  }

  lemma DictStaysDict(f: Filter, record: map<Key, Value>)
    ensures Walk(f, Dict(record), 0).0.Dict?
  {
  }

  // ------------------------------------------------------------------ an untouched record is the record

  lemma {:induction false} UntouchedNode(f: Filter, node: Value, depth: nat)
    requires Honest(f.patterns) && !Walk(f, node, depth).1
    ensures Walk(f, node, depth).0 == node
    decreases node, 0
  {
    hide DENY_KEYS, Denied;
    match node
    case Text(text) => UntouchedText(f.patterns, text);
    case Dict(entries) =>
      forall k | k in entries
        ensures WalkUnder(f, k, entries[k], depth + 1).0 == entries[k]
      {
        UntouchedUnder(f, k, entries[k], depth + 1);
      }
    case List(items) =>
      forall i | 0 <= i < |items|
        ensures Walk(f, items[i], depth + 1).0 == items[i]
      {
        UntouchedNode(f, items[i], depth + 1);
      }
    case Tuple(items) =>
      forall i | 0 <= i < |items|
        ensures Walk(f, items[i], depth + 1).0 == items[i]
      {
        UntouchedNode(f, items[i], depth + 1);
      }
    case _ =>
  }

  lemma {:induction false} UntouchedUnder(f: Filter, key: Key, node: Value, depth: nat)
    requires Honest(f.patterns) && !WalkUnder(f, key, node, depth).1
    ensures WalkUnder(f, key, node, depth).0 == node
    decreases node, 1
  {
    hide DENY_KEYS, Denied;
    if !Denied(f, key) {
      UntouchedNode(f, node, depth);
    }
  }

  /** A record the filter changed carries the flag. */
  lemma ChangedMeansFlagged(f: Filter, record: map<Key, Value>)
    requires Honest(f.patterns)
    ensures Process(f, record) != record ==> FLAG in Process(f, record) && Process(f, record)[FLAG] == Truth(true)
  {
    hide DENY_KEYS, Walk;
    DictStaysDict(f, record);
    if !Walk(f, Dict(record), 0).1 {
      UntouchedNode(f, Dict(record), 0);
    }
  }

  // ------------------------------------------------------------------ applying the filter twice

  /** Scrubbing scrubbed text changes nothing more. */
  ghost predicate Idempotent(patterns: seq<Pattern>) {
    forall text :: ScrubWith(patterns, ScrubWith(patterns, text).0).0 == ScrubWith(patterns, text).0
  }

  lemma {:induction false} WalkTwice(f: Filter, node: Value, depth: nat)
    requires Idempotent(f.patterns)
    ensures Walk(f, Walk(f, node, depth).0, depth).0 == Walk(f, node, depth).0
    decreases node, 0
  {
    hide DENY_KEYS, Denied;
    if depth <= MAX_DEPTH {
      match node
      case Dict(entries) =>
        var once := Walk(f, node, depth).0.entries;
        forall k | k in entries
          ensures WalkUnder(f, k, once[k], depth + 1).0 == once[k]
        {
          WalkUnderTwice(f, k, entries[k], depth + 1);
        }
        assert Walk(f, Dict(once), depth).0.entries == once;
      case List(items) =>
        var once := Walk(f, node, depth).0.items;
        forall i | 0 <= i < |items|
          ensures Walk(f, once[i], depth + 1).0 == once[i]
        {
          WalkTwice(f, items[i], depth + 1);
        }
        assert Walk(f, List(once), depth).0.items == once;
      case Tuple(items) =>
        var once := Walk(f, node, depth).0.items;
        forall i | 0 <= i < |items|
          ensures Walk(f, once[i], depth + 1).0 == once[i]
        {
          WalkTwice(f, items[i], depth + 1);
        }
        assert Walk(f, Tuple(once), depth).0.items == once;
      case _ =>
    }
  }

  lemma {:induction false} WalkUnderTwice(f: Filter, key: Key, node: Value, depth: nat)
    requires Idempotent(f.patterns)
    ensures WalkUnder(f, key, WalkUnder(f, key, node, depth).0, depth).0 == WalkUnder(f, key, node, depth).0
    decreases node, 1
  {
    hide DENY_KEYS, Denied;
    if !Denied(f, key) {
      WalkTwice(f, node, depth);
    }
  }

  /** The flag's own name is not a denied one. */
  ghost predicate FlagAllowed(f: Filter) {
    !Denied(f, FLAG)
  }

  lemma ProcessTwice(f: Filter, record: map<Key, Value>)
    requires Honest(f.patterns) && Idempotent(f.patterns) && FlagAllowed(f)
    ensures Process(f, Process(f, record)) == Process(f, record)
  {
    hide DENY_KEYS, Denied;
    var (scrubbed, touched) := Walk(f, Dict(record), 0);
    var once := Process(f, record);
    if !touched {
      UntouchedNode(f, Dict(record), 0);
    } else {
      WalkTwice(f, Dict(record), 0);
      forall k | k in once
        ensures WalkUnder(f, k, once[k], 1).0 == once[k]
      {
        if k == FLAG {
          FlagStays(f);
        } else {
          WalkUnderTwice(f, k, record[k], 1);
        }
      }
      assert Walk(f, Dict(once), 0).0.entries == once;
    }
  }

  lemma FlagStays(f: Filter)
    requires FlagAllowed(f)
    ensures WalkUnder(f, FLAG, Truth(true), 1) == (Truth(true), false)
  {
  }

  /** One text, alone in a record. */
  lemma LoneText(f: Filter, text: string)
    ensures Other(0) in Process(f, map[Other(0) := Text(text)])
    ensures Process(f, map[Other(0) := Text(text)])[Other(0)] == Text(ScrubWith(f.patterns, text).0)
  {
    hide DENY_KEYS;
    var record := map[Other(0) := Text(text)];
    assert WalkUnder(f, Other(0), Text(text), 1) == Walk(f, Text(text), 1);
    assert Walk(f, Dict(record), 0).0.entries[Other(0)] == Text(ScrubWith(f.patterns, text).0);
  }

  lemma LoneTextTwice(f: Filter, text: string)
    ensures var once := Process(f, map[Other(0) := Text(text)]);
      && Other(0) in once && Other(0) in Process(f, once)
      && Process(f, once)[Other(0)] == Text(ScrubWith(f.patterns, ScrubWith(f.patterns, text).0).0)
  {
    hide DENY_KEYS;
    LoneText(f, text);
    var once := Process(f, map[Other(0) := Text(text)]);
    var scrubbed := ScrubWith(f.patterns, text).0;
    assert WalkUnder(f, Other(0), Text(scrubbed), 1) == Walk(f, Text(scrubbed), 1);
    assert Walk(f, Dict(once), 0).0.entries[Other(0)] == Text(ScrubWith(f.patterns, scrubbed).0);
  }

  /** The filter is stable on every record exactly when scrubbing text is idempotent. */
  lemma StableExactly(f: Filter)
    requires Honest(f.patterns) && FlagAllowed(f)
    ensures (forall record :: Process(f, Process(f, record)) == Process(f, record)) <==> Idempotent(f.patterns)
  {
    hide DENY_KEYS, Walk, ScrubWith;
    if Idempotent(f.patterns) {
      forall record {
        ProcessTwice(f, record);
      }
    } else {
      var text :| ScrubWith(f.patterns, ScrubWith(f.patterns, text).0).0 != ScrubWith(f.patterns, text).0;
      LoneText(f, text);
      LoneTextTwice(f, text);
      var record := map[Other(0) := Text(text)];
      assert Process(f, Process(f, record)) != Process(f, record);
    }
  }

  // ------------------------------------------------------------------ what the output can depend on

  /** Two values that differ only where the filter hides: under denied keys, and past the depth cap. */
  ghost predicate Alike(f: Filter, a: Value, b: Value, depth: nat)
    decreases a, 0
  {
    depth > MAX_DEPTH ||
    match a
    case Dict(entries) =>
      b.Dict? && b.entries.Keys == entries.Keys &&
      forall k :: k in entries ==> AlikeUnder(f, k, entries[k], b.entries[k], depth + 1)
    case List(items) =>
      b.List? && |b.items| == |items| && forall i :: 0 <= i < |items| ==> Alike(f, items[i], b.items[i], depth + 1)
    case Tuple(items) =>
      b.Tuple? && |b.items| == |items| && forall i :: 0 <= i < |items| ==> Alike(f, items[i], b.items[i], depth + 1)
    case _ => a == b
  }

  ghost predicate AlikeUnder(f: Filter, key: Key, a: Value, b: Value, depth: nat)
    decreases a, 1
  {
    depth > MAX_DEPTH || if Denied(f, key) then a == Nil <==> b == Nil else Alike(f, a, b, depth)
  }

  lemma {:induction false} AlikeWalks(f: Filter, a: Value, b: Value, depth: nat)
    requires Alike(f, a, b, depth)
    ensures Walk(f, a, depth) == Walk(f, b, depth)
    decreases a, 0
  {
    hide DENY_KEYS, Denied;
    if depth <= MAX_DEPTH {
      match a
      case Dict(entries) =>
        forall k | k in entries
          ensures WalkUnder(f, k, entries[k], depth + 1) == WalkUnder(f, k, b.entries[k], depth + 1)
        {
          AlikeWalksUnder(f, k, entries[k], b.entries[k], depth + 1);
        }
        assert Walk(f, a, depth).0.entries == Walk(f, b, depth).0.entries;
      case List(items) =>
        forall i | 0 <= i < |items|
          ensures Walk(f, items[i], depth + 1) == Walk(f, b.items[i], depth + 1)
        {
          AlikeWalks(f, items[i], b.items[i], depth + 1);
        }
        assert Walk(f, a, depth).0.items == Walk(f, b, depth).0.items;
      case Tuple(items) =>
        forall i | 0 <= i < |items|
          ensures Walk(f, items[i], depth + 1) == Walk(f, b.items[i], depth + 1)
        {
          AlikeWalks(f, items[i], b.items[i], depth + 1);
        }
        assert Walk(f, a, depth).0.items == Walk(f, b, depth).0.items;
      case _ =>
    }
  }

  lemma {:induction false} AlikeWalksUnder(f: Filter, key: Key, a: Value, b: Value, depth: nat)
    requires AlikeUnder(f, key, a, b, depth)
    ensures WalkUnder(f, key, a, depth) == WalkUnder(f, key, b, depth)
    decreases a, 1
  {
    hide DENY_KEYS, Denied;
    if depth <= MAX_DEPTH && !Denied(f, key) {
      AlikeWalks(f, a, b, depth);
    }
  }

  /** Nothing under a denied key or past the cap reaches the log, except whether it was null: records
      that differ only there are logged the same. */
  lemma HiddenValuesDoNotShow(f: Filter, a: map<Key, Value>, b: map<Key, Value>)
    requires Alike(f, Dict(a), Dict(b), 0)
    ensures Process(f, a) == Process(f, b)
  {
    hide DENY_KEYS, Walk;
    AlikeWalks(f, Dict(a), Dict(b), 0);
  }

  // ------------------------------------------------------------------ what the output keeps

  datatype Step = Field(key: Key) | Item(index: nat)

  /** The value at the end of a path, if the path leads somewhere. */
  function At(node: Value, path: seq<Step>): Option<Value>
    decreases |path|
  {
    if path == [] then Some(node)
    else
      match (path[0], node)
      case (Field(k), Dict(entries)) => if k in entries then At(entries[k], path[1..]) else None
      case (Item(i), List(items)) => if i < |items| then At(items[i], path[1..]) else None
      case (Item(i), Tuple(items)) => if i < |items| then At(items[i], path[1..]) else None
      case _ => None
  }

  /** No key on the path is denied. */
  ghost predicate Clear(f: Filter, path: seq<Step>) {
    forall i :: 0 <= i < |path| && path[i].Field? ==> !Denied(f, path[i].key)
  }

  /** Walking a value and then following a clear path is following the path and then walking. */
  lemma {:induction false} WalkAlongPath(f: Filter, node: Value, depth: nat, path: seq<Step>)
    requires Clear(f, path) && depth + |path| <= MAX_DEPTH + 1 && At(node, path).Some?
    ensures At(Walk(f, node, depth).0, path) == Some(Walk(f, At(node, path).value, depth + |path|).0)
    decreases |path|
  {
    hide DENY_KEYS, Denied;
    if path != [] {
      var rest := path[1..];
      assert forall i :: 0 <= i < |rest| ==> rest[i] == path[i + 1];
      match (path[0], node)
      case (Field(k), Dict(entries)) =>
        assert !Denied(f, k);
        assert WalkUnder(f, k, entries[k], depth + 1) == Walk(f, entries[k], depth + 1);
        WalkAlongPath(f, entries[k], depth + 1, rest);
      case (Item(i), List(items)) => WalkAlongPath(f, items[i], depth + 1, rest);
      case (Item(i), Tuple(items)) => WalkAlongPath(f, items[i], depth + 1, rest);
    }
  }

  /** Dictionaries keep their keys and lists their length; text is scrubbed; the rest is untouched. */
  ghost predicate SameShape(f: Filter, before: Value, after: Value) {
    match before
    case Dict(entries) => after.Dict? && after.entries.Keys == entries.Keys
    case List(items) => after.List? && |after.items| == |items|
    case Tuple(items) => after.Tuple? && |after.items| == |items|
    case Text(text) => after == Text(ScrubWith(f.patterns, text).0)
    case _ => after == before
  }

  lemma ProcessAlongPath(f: Filter, record: map<Key, Value>, path: seq<Step>)
    requires path != [] && path[0] != Field(FLAG)
    ensures At(Dict(Process(f, record)), path) == At(Walk(f, Dict(record), 0).0, path)
  {
    hide DENY_KEYS, Walk;
    DictStaysDict(f, record);
  }

  /** The record keeps its own keys; at most the flag is added, and only with something touched. */
  lemma RecordKeepsItsKeys(f: Filter, record: map<Key, Value>)
    ensures Process(f, record).Keys == record.Keys + if Walk(f, Dict(record), 0).1 then {FLAG} else {}
  {
    hide DENY_KEYS, Denied, WalkUnder;
    assert Walk(f, Dict(record), 0).0.entries.Keys == record.Keys;
  }

  /** Down to the cap, everything a clear path leads to keeps its shape. */
  lemma ShapeIsKept(f: Filter, record: map<Key, Value>, path: seq<Step>)
    requires path != [] && path[0] != Field(FLAG) && Clear(f, path) && |path| <= MAX_DEPTH
    requires At(Dict(record), path).Some?
    ensures At(Dict(Process(f, record)), path).Some?
    ensures SameShape(f, At(Dict(record), path).value, At(Dict(Process(f, record)), path).value)
  {
    hide DENY_KEYS, Denied, At, Process;
    ProcessAlongPath(f, record, path);
    WalkAlongPath(f, Dict(record), 0, path);
  }

  /** Whatever lies one step past the cap is the marker. */
  lemma PastTheCapIsMarked(f: Filter, record: map<Key, Value>, path: seq<Step>)
    requires path != [] && path[0] != Field(FLAG) && Clear(f, path) && |path| == MAX_DEPTH + 1
    requires At(Dict(record), path).Some?
    ensures At(Dict(Process(f, record)), path) == Some(REDACTED)
  {
    hide DENY_KEYS, Denied, At, Process;
    ProcessAlongPath(f, record, path);
    WalkAlongPath(f, Dict(record), 0, path);
  }

  lemma {:induction false} PathsCompose(node: Value, path: seq<Step>, step: Step)
    requires At(node, path).Some?
    ensures At(node, path + [step]) == At(At(node, path).value, [step])
    decreases |path|
  {
    if path == [] {
      assert path + [step] == [step];
    } else {
      assert (path + [step])[1..] == path[1..] + [step];
      match (path[0], node)
      case (Field(k), Dict(entries)) => PathsCompose(entries[k], path[1..], step);
      case (Item(i), List(items)) => PathsCompose(items[i], path[1..], step);
      case (Item(i), Tuple(items)) => PathsCompose(items[i], path[1..], step);
    }
  }

  /** Every value under a denied key, down to the cap, is replaced whole; only null stays. */
  lemma DeniedIsReplaced(f: Filter, record: map<Key, Value>, path: seq<Step>, key: Key)
    requires (path + [Field(key)])[0] != Field(FLAG) && Clear(f, path) && |path| < MAX_DEPTH && Denied(f, key)
    requires At(Dict(record), path).Some? && At(Dict(record), path + [Field(key)]).Some?
    ensures At(Dict(Process(f, record)), path + [Field(key)]) ==
            Some(if At(Dict(record), path + [Field(key)]).value == Nil then Nil else REDACTED)
  {
    hide DENY_KEYS, Denied, Process;
    var node := At(Dict(record), path).value;
    PathsCompose(Dict(record), path, Field(key));
    OneStep(node, key);
    ProcessAlongPath(f, record, path + [Field(key)]);
    WalkAlongPath(f, Dict(record), 0, path);
    PathsCompose(Walk(f, Dict(record), 0).0, path, Field(key));
    OneStep(Walk(f, node, |path|).0, key);
  }

  lemma OneStep(node: Value, key: Key)
    ensures At(node, [Field(key)]) == if node.Dict? && key in node.entries then Some(node.entries[key]) else None
  {
    assert [Field(key)][1..] == [];
  }
}
