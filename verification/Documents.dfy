/** How an OpenAPI document is read, with its keys written out. */
module Documents {
  import opened Json
  import opened Inlining

  // ------------------------------------------------------------------ finding an operation

  /** A method as the surface spells it, and as the document does. */
  predicate Spelled(upper: string, lower: string) {
    || (upper == "GET" && lower == "get")
    || (upper == "PUT" && lower == "put")
    || (upper == "POST" && lower == "post")
    || (upper == "DELETE" && lower == "delete")
    || (upper == "PATCH" && lower == "patch")
    || (upper == "HEAD" && lower == "head")
    || (upper == "OPTIONS" && lower == "options")
  }

  lemma ShortMethods()
    ensures LowerAscii("GET") == "get" && LowerAscii("PUT") == "put" && LowerAscii("POST") == "post" && LowerAscii("HEAD") == "head"
  {
  }

  lemma LongMethods()
    ensures LowerAscii("DELETE") == "delete" && LowerAscii("PATCH") == "patch" && LowerAscii("OPTIONS") == "options"
  {
  }

  lemma NoSpaces(upper: string, lower: string)
    requires Spelled(upper, lower)
    ensures ' ' !in upper
  {
  }

  lemma LowerSpelled(upper: string, lower: string)
    requires Spelled(upper, lower)
    ensures LowerAscii(upper) == lower
  {
    hide LowerAscii;
    ShortMethods();
    LongMethods();
  }

  /** The operation of a method and a path is what the document has under "paths", the path and the method
      in lower case; and nothing when any of them is not there. */
  lemma OperationExactly(openapi: Json, upper: string, lower: string, path: string)
    requires Spelled(upper, lower)
    ensures Operation(openapi, upper + " " + path) ==
            if openapi.Obj? && "paths" in openapi.fields && openapi.fields["paths"].Obj?
               && path in openapi.fields["paths"].fields && openapi.fields["paths"].fields[path].Obj?
               && lower in openapi.fields["paths"].fields[path].fields
            then openapi.fields["paths"].fields[path].fields[lower]
            else Null
  {
    NoSpaces(upper, lower);
    PartitionAtSpace(upper, path);
    LowerSpelled(upper, lower);
    hide Partition, LowerAscii, Spelled;
  }

  // ------------------------------------------------------------------ what is recorded of it

  /** The components a document's references name. */
  function Components(openapi: Json): map<string, Json> {
    if openapi.Obj? && "components" in openapi.fields && openapi.fields["components"].Obj?
       && "schemas" in openapi.fields["components"].fields && openapi.fields["components"].fields["schemas"].Obj?
    then openapi.fields["components"].fields["schemas"].fields
    else map[]
  }

  /** An entry is the parameters, the request body and the responses of the operation and nothing else, each
      inlined against the document's components; none of the first is an empty list, of the second null, and
      of the third an empty dictionary. */
  lemma EntryExactly(openapi: Json, key: string)
    ensures var operation, entry, components := Operation(openapi, key), Entry(openapi, key), Components(openapi);
      && entry.Obj? && entry.fields.Keys == {"parameters", "requestBody", "responses"}
      && entry.fields["parameters"] ==
           Inline(if operation.Obj? && "parameters" in operation.fields then operation.fields["parameters"] else Arr([]), components, {})
      && entry.fields["requestBody"] ==
           Inline(if operation.Obj? && "requestBody" in operation.fields then operation.fields["requestBody"] else Null, components, {})
      && entry.fields["responses"] ==
           Inline(if operation.Obj? && "responses" in operation.fields then operation.fields["responses"] else Obj(map[]), components, {})
  {
    hide Operation, Inline, Entry, Annotation, REF_PREFIX;
    var operation := Operation(openapi, key);
    var parameters := if Has(operation, "parameters") then operation.fields["parameters"] else Arr([]);
    var responses := if Has(operation, "responses") then operation.fields["responses"] else Obj(map[]);
    var fields := map["parameters" := parameters, "requestBody" := Get(operation, "requestBody"), "responses" := responses];
    EntryIs(openapi, key, fields);
    NotAnnotations();
    ThreeInlined(fields, Components(openapi));
    hide Components;
  }

  lemma NotAnnotations()
    ensures !Annotation("parameters") && !Annotation("requestBody") && !Annotation("responses")
  {
  }

  lemma ThreeInlined(fields: map<string, Json>, components: map<string, Json>)
    requires fields.Keys == {"parameters", "requestBody", "responses"}
    ensures var inlined := Inline(Obj(fields), components, {});
      && inlined.Obj? && inlined.fields.Keys == {"parameters", "requestBody", "responses"}
      && inlined.fields["parameters"] == Inline(fields["parameters"], components, {})
      && inlined.fields["requestBody"] == Inline(fields["requestBody"], components, {})
      && inlined.fields["responses"] == Inline(fields["responses"], components, {})
  {
    hide Inline, Annotation;
    NotAnnotations();
    DictionaryInlined(fields, components, {});
    var inlined := Inline(Obj(fields), components, {});
    assert forall k :: k in inlined.fields <==> k in fields;
    assert inlined.fields.Keys == fields.Keys;
  }

  lemma EntryIs(openapi: Json, key: string, fields: map<string, Json>)
    requires var operation := Operation(openapi, key);
      && fields.Keys == {"parameters", "requestBody", "responses"}
      && fields["parameters"] == (if Has(operation, "parameters") then operation.fields["parameters"] else Arr([]))
      && fields["requestBody"] == Get(operation, "requestBody")
      && fields["responses"] == if Has(operation, "responses") then operation.fields["responses"] else Obj(map[])
    ensures Entry(openapi, key) == Inline(Obj(fields), Components(openapi), {})
  {
    hide Operation, Inline;
    var operation := Operation(openapi, key);
    assert fields == map["parameters" := if Has(operation, "parameters") then operation.fields["parameters"] else Arr([]),
                         "requestBody" := Get(operation, "requestBody"),
                         "responses" := if Has(operation, "responses") then operation.fields["responses"] else Obj(map[])];
    assert DictAt(Get(openapi, "components"), "schemas") == Components(openapi);
  }

  // ------------------------------------------------------------------ how a node is inlined

  predicate Annotation(k: string) {
    k == "title" || k == "description" || k == "examples" || k == "example" || k == "default"
  }

  lemma AnnotationsListed(k: string)
    ensures k in ANNOTATIONS <==> Annotation(k)
  {
  }

  /** A dictionary that refers to nothing keeps its keys but the five annotations, each value inlined. */
  lemma DictionaryInlined(fields: map<string, Json>, components: map<string, Json>, stack: set<string>)
    requires !("$ref" in fields && fields["$ref"].Str? && "#/components/schemas/" <= fields["$ref"].s)
    ensures var inlined := Inline(Obj(fields), components, stack);
      && inlined.Obj?
      && (forall k :: k in inlined.fields <==> k in fields && !Annotation(k))
      && (forall k :: k in fields && !Annotation(k) ==> inlined.fields[k] == Inline(fields[k], components, stack))
  {
    forall k {
      AnnotationsListed(k);
    }
    hide ANNOTATIONS, Annotation;
    assert !IsRefNode(Obj(fields));
  }

  /** A reference to a component is the component inlined with its name on the stack, whatever stands beside
      it; a name already there is cut and marked, and one no component has is the empty schema. A reference
      to anything else is left as it is. */
  lemma ReferenceInlined(fields: map<string, Json>, name: string, components: map<string, Json>, stack: set<string>)
    requires '/' !in name && "$ref" in fields && fields["$ref"] == Str("#/components/schemas/" + name)
    ensures Inline(Obj(fields), components, stack) ==
            if name in stack then Obj(map["$cycle" := Str(name)])
            else if name in components then Inline(components[name], components, stack + {name})
            else Obj(map[])
  {
    var prefix := "#/components/schemas/";
    assert prefix[|prefix| - 1] == '/';
    LastSegmentOfName(prefix, name);
    assert Get(Obj(fields), "$ref") == Str(REF_PREFIX + name);
    assert REF_PREFIX <= REF_PREFIX + name;
    assert IsRefNode(Obj(fields)) && RefName(Obj(fields)) == name;
  }

  /** Text, numbers, booleans and null are kept, and lists item by item. */
  lemma OthersInlined(items: seq<Json>, scalar: Json, components: map<string, Json>, stack: set<string>)
    requires !scalar.Obj? && !scalar.Arr?
    ensures Inline(scalar, components, stack) == scalar
    ensures var inlined := Inline(Arr(items), components, stack);
      inlined.Arr? && |inlined.items| == |items| && forall i :: 0 <= i < |items| ==> inlined.items[i] == Inline(items[i], components, stack)
  {
  }
}
