/** JSON values as the API contract code handles them: Python dictionaries, lists and scalars.

    A dictionary is a map, so two dictionaries are equal exactly when Python says so, whatever order
    their keys were inserted or written in. */
module Json {

  datatype Json =
    | Null
    | Bool(b: bool)
    | Num(n: real)
    | Str(s: string)
    | Arr(items: seq<Json>)
    | Obj(fields: map<string, Json>)

  /** `k in j` for a dictionary. */
  predicate Has(j: Json, k: string) {
    j.Obj? && k in j.fields
  }

  /** `j.get(k)`, with Python's None and JSON's null both `Null`. */
  function Get(j: Json, k: string): (r: Json)
    ensures r == Null || r < j
  {
    if Has(j, k) then j.fields[k] else Null
  }

  /** `j.get(k, {})` where a dictionary is expected. */
  function DictAt(j: Json, k: string): (r: map<string, Json>)
    ensures forall name :: name in r ==> r[name] < j
  {
    if Get(j, k).Obj? then Get(j, k).fields else map[]
  }

  /** `j.get(k, [])` where a list is expected. */
  function ListAt(j: Json, k: string): (r: seq<Json>)
    ensures forall x :: x in r ==> x < j
  {
    if Get(j, k).Arr? then Get(j, k).items else []
  }

  /** Python truth of a value: `if j`. */
  predicate Truthy(j: Json) {
    match j
    case Null => false
    case Bool(b) => b
    case Num(n) => n != 0.0
    case Str(s) => s != ""
    case Arr(items) => items != []
    case Obj(fields) => fields != map[]
  }

  /** Python equality identifies `True` with `1` and `False` with `0`, at every depth: two values are
      `==` in Python exactly when their normal forms are the same value. */
  function PyNormal(j: Json): Json {
    match j
    case Bool(b) => Num(if b then 1.0 else 0.0)
    case Arr(items) => Arr(seq(|items|, i requires 0 <= i < |items| => PyNormal(items[i])))
    case Obj(fields) => Obj(map k | k in fields :: PyNormal(fields[k]))
    case _ => j
  }

  /** `v in values` in Python. */
  predicate PyIn(v: Json, values: seq<Json>) {
    exists i :: 0 <= i < |values| && PyNormal(values[i]) == PyNormal(v)
  }

  /** Text up to the first space, and the text after it: `key.partition(" ")`. */
  function Partition(key: string): (string, string) {
    if key == "" then ("", "")
    else if key[0] == ' ' then ("", key[1..])
    else var (head, tail) := Partition(key[1..]); ([key[0]] + head, tail)
  }

  /** The key of a method and a path parts into the two. */
  lemma {:induction false} PartitionAtSpace(head: string, tail: string)
    requires ' ' !in head
    ensures Partition(head + " " + tail) == (head, tail)
  {
    var key := head + " " + tail;
    if head == "" {
      assert key[1..] == tail;
    } else {
      PartitionAtSpace(head[1..], tail);
      assert key[1..] == head[1..] + " " + tail && key[0] == head[0];
      assert head == [head[0]] + head[1..];
    }
  }

  /** The text after the last `/`: `ref.rsplit("/", 1)[1]`. */
  function LastSegment(ref: string): (r: string)
    ensures '/' !in r
  {
    if ref == "" || ref[|ref| - 1] == '/' then ""
    else LastSegment(ref[..|ref| - 1]) + [ref[|ref| - 1]]
  }

  function LowerAscii(s: string): string {
    seq(|s|, i requires 0 <= i < |s| =>
      if 'A' <= s[i] <= 'Z' then (s[i] as int + 32) as char else s[i])
  }
}
