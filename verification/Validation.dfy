/** What a schema means: the keywords of JSON Schema 2020-12 that the API contract compares. References
    are resolved on demand, each resolution spending one unit of `fuel`. */
module Validation {
  import opened Json
  import opened Inlining

  /** The regular-expression matcher, and the components references name. */
  datatype Context = Context(matches: (string, string) -> bool, components: map<string, Json>)

  /** Section 6.1.1 of JSON Schema Validation: an integer is a number with no fractional part. */
  predicate TypeMatches(t: string, v: Json) {
    match v
    case Null => t == "null"
    case Bool(_) => t == "boolean"
    case Num(n) => t == "number" || (t == "integer" && n.Floor as real == n)
    case Str(_) => t == "string"
    case Arr(_) => t == "array"
    case Obj(_) => t == "object"
  }

  predicate TypeOk(s: Json, v: Json) {
    match Get(s, "type")
    case Str(t) => TypeMatches(t, v)
    case Arr(ts) => exists i :: 0 <= i < |ts| && ts[i].Str? && TypeMatches(ts[i].s, v)
    case _ => true
  }

  /** Section 6.1.2. */
  predicate EnumOk(s: Json, v: Json) {
    Has(s, "enum") ==> v in ListAt(s, "enum")
  }

  /** Sections 6.2.2, 6.2.4, 6.3.1 and 6.3.2. */
  predicate BoundOk(s: Json, bound: string, v: Json) {
    Get(s, bound).Num? ==>
      var limit := Get(s, bound).n;
      && (bound == "maximum" && v.Num? ==> v.n <= limit)
      && (bound == "minimum" && v.Num? ==> v.n >= limit)
      && (bound == "maxLength" && v.Str? ==> |v.s| as real <= limit)
      && (bound == "minLength" && v.Str? ==> |v.s| as real >= limit)
  }

  /** Section 6.3.3. */
  predicate PatternOk(c: Context, s: Json, v: Json) {
    Get(s, "pattern").Str? && v.Str? ==> c.matches(Get(s, "pattern").s, v.s)
  }

  /** Section 6.5.3. */
  predicate RequiredOk(s: Json, v: Json) {
    v.Obj? ==>
      forall i :: 0 <= i < |ListAt(s, "required")| && ListAt(s, "required")[i].Str? ==>
        ListAt(s, "required")[i].s in v.fields
  }

  /** Every keyword that looks at one value and no subschema. */
  predicate Assertions(c: Context, s: Json, v: Json) {
    && TypeOk(s, v)
    && EnumOk(s, v)
    && BoundOk(s, "maximum", v)
    && BoundOk(s, "minimum", v)
    && BoundOk(s, "maxLength", v)
    && BoundOk(s, "minLength", v)
    && PatternOk(c, s, v)
    && RequiredOk(s, v)
  }

  /** The schema an internal reference names: the empty schema when no component has the name. */
  function Component(c: Context, name: string): Json {
    if name in c.components then c.components[name] else Obj(map[])
  }

  /** `v` is valid against `s`. A reference that finds no fuel left is not followed. */
  ghost predicate Validates(c: Context, fuel: nat, s: Json, v: Json)
    decreases fuel, s, 2
  {
    match s
    case Bool(b) => b
    case Obj(_) =>
      && Assertions(c, s, v)
      && (v.Obj? ==> PropertiesOk(c, fuel, s, v))
      && (v.Arr? ==> ItemsOk(c, fuel, s, v))
      && (Get(s, "anyOf").Arr? ==> AnyOk(c, fuel, s, v))
      && (Get(s, "oneOf").Arr? ==> OneOk(c, fuel, s, v))
      && (IsRefNode(s) && fuel > 0 ==> Validates(c, fuel - 1, Component(c, RefName(s)), v))
    case _ => true
  }

  /** Section 10.3.2.1 of JSON Schema Core. */
  ghost predicate PropertiesOk(c: Context, fuel: nat, s: Json, v: Json)
    requires v.Obj?
    decreases fuel, s, 0
  {
    forall name :: name in DictAt(s, "properties") && name in v.fields ==>
      Validates(c, fuel, DictAt(s, "properties")[name], v.fields[name])
  }

  /** Section 10.3.1.2 of JSON Schema Core. */
  ghost predicate ItemsOk(c: Context, fuel: nat, s: Json, v: Json)
    requires v.Arr?
    decreases fuel, s, 0
  {
    Has(s, "items") ==>
      forall i :: 0 <= i < |v.items| ==> Validates(c, fuel, s.fields["items"], v.items[i])
  }

  ghost predicate AnyOk(c: Context, fuel: nat, s: Json, v: Json)
    decreases fuel, s, 0
  {
    exists i :: 0 <= i < |ListAt(s, "anyOf")| && Validates(c, fuel, ListAt(s, "anyOf")[i], v)
  }

  ghost predicate OneOk(c: Context, fuel: nat, s: Json, v: Json)
    decreases fuel, s, 1
  {
    exists i :: 0 <= i < |ListAt(s, "oneOf")| && OnlyAt(c, fuel, s, i, v)
  }

  /** Member `i` takes the value and no other does. */
  ghost predicate OnlyAt(c: Context, fuel: nat, s: Json, i: nat, v: Json)
    requires i < |ListAt(s, "oneOf")|
    decreases fuel, s, 0
  {
    forall j :: 0 <= j < |ListAt(s, "oneOf")| ==> (Validates(c, fuel, ListAt(s, "oneOf")[j], v) <==> j == i)
  }

  /** A schema with none of the validation keywords is decided by its reference alone. */
  lemma NoKeywords(c: Context, fuel: nat, s: Json, v: Json)
    requires s.Obj?
    requires forall k :: k in s.fields ==> k !in FLAT_KEYWORDS && k !in NESTED_KEYWORDS
    ensures Validates(c, fuel, s, v) ==
            (IsRefNode(s) && fuel > 0 ==> Validates(c, fuel - 1, Component(c, RefName(s)), v))
  {
    assert forall k :: k in FLAT_KEYWORDS || k in NESTED_KEYWORDS ==> !Has(s, k);
  }

  /** The empty schema accepts everything. */
  lemma EmptyAccepts(c: Context, fuel: nat, v: Json)
    ensures Validates(c, fuel, Obj(map[]), v)
  {
    NoKeywords(c, fuel, Obj(map[]), v);
  }

  /** The keywords whose value is not a schema. */
  const FLAT_KEYWORDS: set<string> :=
    {"type", "enum", "maximum", "minimum", "maxLength", "minLength", "pattern", "required"}

  /** The keywords that hold schemas. */
  const NESTED_KEYWORDS: set<string> := {"properties", "items", "anyOf", "oneOf"}

  /** `t` says what `s` says under every flat keyword. */
  predicate SameFlat(s: Json, t: Json) {
    && Get(t, "type") == Get(s, "type")
    && Has(t, "enum") == Has(s, "enum") && Get(t, "enum") == Get(s, "enum")
    && Get(t, "maximum") == Get(s, "maximum")
    && Get(t, "minimum") == Get(s, "minimum")
    && Get(t, "maxLength") == Get(s, "maxLength")
    && Get(t, "minLength") == Get(s, "minLength")
    && Get(t, "pattern") == Get(s, "pattern")
    && Get(t, "required") == Get(s, "required")
  }

  lemma SameBound(s: Json, t: Json, bound: string, v: Json)
    requires Get(t, bound) == Get(s, bound)
    ensures BoundOk(s, bound, v) == BoundOk(t, bound, v)
  {
  }

  lemma SameAssertions(c: Context, s: Json, t: Json, v: Json)
    requires SameFlat(s, t)
    ensures Assertions(c, s, v) == Assertions(c, t, v)
  {
    hide BoundOk, RequiredOk, TypeMatches;
    SameBound(s, t, "maximum", v);
    SameBound(s, t, "minimum", v);
    SameBound(s, t, "maxLength", v);
    SameBound(s, t, "minLength", v);
    assert TypeOk(s, v) == TypeOk(t, v);
    assert EnumOk(s, v) == EnumOk(t, v);
    assert PatternOk(c, s, v) == PatternOk(c, t, v);
    SameRequired(s, t, v);
  }

  lemma SameRequired(s: Json, t: Json, v: Json)
    requires Get(t, "required") == Get(s, "required")
    ensures RequiredOk(s, v) == RequiredOk(t, v)
  {
    assert ListAt(s, "required") == ListAt(t, "required");
  }
}
