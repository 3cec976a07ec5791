/** Resolving every `$ref` of an OpenAPI document, and the snapshot of the operations an app calls. */
module Inlining {
  import opened Json
  import opened Wrappers

  const REF_PREFIX := "#/components/schemas/"

  const ANNOTATIONS: set<string> := {"title", "description", "examples", "example", "default"}

  predicate IsRefText(text: Json) {
    text.Str? && REF_PREFIX <= text.s
  }

  /** A node whose `$ref` is an internal component reference. */
  predicate IsRefNode(node: Json) {
    IsRefText(Get(node, "$ref"))
  }

  function RefName(node: Json): string
    requires IsRefNode(node)
  {
    LastSegment(Get(node, "$ref").s)
  }

  /** Every `$ref` resolved; a component met again while it is being resolved is cut and marked.
      Terminates on every component graph: a reference either leaves one component name fewer off the
      stack, or is cut. A name no component has stands for the empty schema. */
  function Inline(node: Json, components: map<string, Json>, stack: set<string>): Json
    decreases components.Keys - stack, node
  {
    match node
    case Arr(items) =>
      Arr(seq(|items|, i requires 0 <= i < |items| => Inline(items[i], components, stack)))
    case Obj(fields) =>
      if IsRefNode(node) then
        var name := RefName(node);
        if name in stack then Obj(map["$cycle" := Str(name)])
        else if name in components then Inline(components[name], components, stack + {name})
        else Obj(map[])
      else
        Obj(map k | k in fields && k !in ANNOTATIONS :: Inline(fields[k], components, stack))
    case _ => node
  }

  /** No node at any depth is an internal component reference. */
  ghost predicate FreeOfRefs(node: Json) {
    && !IsRefNode(node)
    && (node.Arr? ==> forall i :: 0 <= i < |node.items| ==> FreeOfRefs(node.items[i]))
    && (node.Obj? ==> forall k :: k in node.fields ==> FreeOfRefs(node.fields[k]))
  }

  /** A reference node is replaced by text only when a component is that text. */
  lemma {:induction false} TextComesFromComponents(node: Json, components: map<string, Json>, stack: set<string>)
    requires !node.Str? && Inline(node, components, stack).Str?
    ensures exists n :: n in components && '/' !in n && components[n] == Inline(node, components, stack)
    decreases components.Keys - stack, node
  {
    var name := RefName(node);
    if !components[name].Str? {
      TextComesFromComponents(components[name], components, stack + {name});
    }
  }

  /** Components that would put a bare reference text into a node. */
  ghost predicate SomeComponentIsRefText(components: map<string, Json>) {
    exists n :: n in components && '/' !in n && IsRefText(components[n])
  }

  lemma {:induction false} InlineLeavesNoRefs(node: Json, components: map<string, Json>, stack: set<string>)
    requires !SomeComponentIsRefText(components)
    ensures FreeOfRefs(Inline(node, components, stack))
    decreases components.Keys - stack, node
  {
    match node
    case Arr(items) =>
      forall i | 0 <= i < |items| {
        InlineLeavesNoRefs(items[i], components, stack);
      }
    case Obj(fields) =>
      if IsRefNode(node) {
        var name := RefName(node);
        if name !in stack && name in components {
          InlineLeavesNoRefs(components[name], components, stack + {name});
        }
      } else {
        forall k | k in fields && k !in ANNOTATIONS
          ensures FreeOfRefs(Inline(fields[k], components, stack))
        {
          InlineLeavesNoRefs(fields[k], components, stack);
        }
        if "$ref" in fields && !fields["$ref"].Str? && Inline(fields["$ref"], components, stack).Str? {
          TextComesFromComponents(fields["$ref"], components, stack);
        }
      }
    case _ =>
  }

  /** The node that refers to a component. */
  function RefTo(name: string): Json {
    Obj(map["$ref" := Str(REF_PREFIX + name)])
  }

  lemma {:induction false} LastSegmentOfName(prefix: string, name: string)
    requires '/' !in name && prefix != "" && prefix[|prefix| - 1] == '/'
    ensures LastSegment(prefix + name) == name
  {
    var text := prefix + name;
    if name != "" {
      var short := name[..|name| - 1];
      assert text[..|text| - 1] == prefix + short;
      assert name == short + [name[|name| - 1]];
      LastSegmentOfName(prefix, short);
    }
  }

  lemma RefToNames(name: string)
    requires '/' !in name
    ensures IsRefNode(RefTo(name)) && RefName(RefTo(name)) == name
  {
    LastSegmentOfName(REF_PREFIX, name);
    assert Get(RefTo(name), "$ref") == Str(REF_PREFIX + name);
  }

  /** A component that is the bare text of a reference can be put under a `$ref` key. */
  lemma RefTextCanSurvive(components: map<string, Json>, n: string, node: Json)
    requires n in components && '/' !in n && IsRefText(components[n])
    requires node == Obj(map["$ref" := RefTo(n)])
    ensures !FreeOfRefs(Inline(node, components, {}))
  {
    RefToNames(n);
    assert Inline(RefTo(n), components, {}) == components[n];
    assert Get(node, "$ref") == RefTo(n);
    assert "$ref" !in ANNOTATIONS;
    assert Get(Inline(node, components, {}), "$ref") == components[n];
  }

  /** Inlining leaves no internal reference in any document, exactly when no component is itself the
      bare text of a reference. */
  lemma InlineLeavesNoRefsExactly(components: map<string, Json>)
    ensures (forall node :: FreeOfRefs(Inline(node, components, {}))) <==> !SomeComponentIsRefText(components)
  {
    if SomeComponentIsRefText(components) {
      var n :| n in components && '/' !in n && IsRefText(components[n]);
      RefTextCanSurvive(components, n, Obj(map["$ref" := RefTo(n)]));
    } else {
      forall node {
        InlineLeavesNoRefs(node, components, {});
      }
    }
  }

  /** No reference met while resolving `node` leads back to a component already being resolved. */
  ghost predicate NoCycle(node: Json, components: map<string, Json>, stack: set<string>)
    decreases components.Keys - stack, node
  {
    match node
    case Arr(items) => forall i :: 0 <= i < |items| ==> NoCycle(items[i], components, stack)
    case Obj(fields) =>
      if IsRefNode(node) then
        var name := RefName(node);
        && name !in stack
        && (name in components ==> NoCycle(components[name], components, stack + {name}))
      else
        forall k :: k in fields && k !in ANNOTATIONS ==> NoCycle(fields[k], components, stack)
    case _ => true
  }

  // ------------------------------------------------------------------ the snapshot

  /** The operation a key such as "POST /auth/refresh" names, or `Null`. */
  function Operation(openapi: Json, key: string): Json {
    var (method_, path) := Partition(key);
    var paths := DictAt(openapi, "paths");
    if path in paths then Get(paths[path], LowerAscii(method_)) else Null
  }

  /** What is recorded of one operation. */
  function Entry(openapi: Json, key: string): Json {
    var operation := Operation(openapi, key);
    Inline(
      Obj(map[
            "parameters" := if Has(operation, "parameters") then operation.fields["parameters"] else Arr([]),
            "requestBody" := Get(operation, "requestBody"),
            "responses" := if Has(operation, "responses") then operation.fields["responses"] else Obj(map[])]),
      DictAt(Get(openapi, "components"), "schemas"),
      {})
  }

  /** `k` is the first surface key that names no operation. */
  predicate FirstMissing(openapi: Json, surface: seq<string>, k: nat) {
    && k < |surface|
    && Operation(openapi, surface[k]) == Null
    && forall j :: 0 <= j < k ==> Operation(openapi, surface[j]) != Null
  }

  /** The surface recorded against one document, or the first key that names no operation. */
  ghost function Snapshot(openapi: Json, surface: seq<string>): Result<map<string, Json>, string> {
    if k: nat :| FirstMissing(openapi, surface, k) then Err(surface[k])
    else Ok(map key | key in surface :: Entry(openapi, key))
  }

  method TakeSnapshot(openapi: Json, surface: seq<string>) returns (r: Result<map<string, Json>, string>)
    ensures r == Snapshot(openapi, surface)
    ensures r.Ok? <==> forall key :: key in surface ==> Operation(openapi, key) != Null
  {
    hide Operation, Entry;
    var out: map<string, Json> := map[];
    for i := 0 to |surface|
      invariant forall j :: 0 <= j < i ==> Operation(openapi, surface[j]) != Null
      invariant out == map key | key in surface[..i] :: Entry(openapi, key)
    {
      if Operation(openapi, surface[i]) == Null {
        assert FirstMissing(openapi, surface, i);
        return Err(surface[i]);
      }
      out := out[surface[i] := Entry(openapi, surface[i])];
      assert surface[..i + 1] == surface[..i] + [surface[i]];
    }
    assert surface[..|surface|] == surface;
    return Ok(out);
  }
}
