/**
 * The values a YAML front-matter block parses to, and the ordered key/value
 * mapping (a Python `dict`, which keeps insertion order) that holds them.
 */
module FrontMatter {
  import opened Wrappers

  /**
   * A parsed YAML value: a string, a list, a nested mapping, or any other
   * scalar (number, boolean, null, date), which carries the text Python's
   * `str()` gives for it.
   */
  datatype Value =
    | Str(s: string)
    | List(items: seq<Value>)
    | Dict(entries: seq<Entry>)
    | Scalar(shown: string)

  datatype Entry = Entry(key: string, value: Value)

  /** A front-matter mapping; entries stand in insertion order. */
  type Mapping = seq<Entry>

  /** The value stored under `k`, as `dict.get(k)` finds it. */
  function Lookup(m: Mapping, k: string): (r: Option<Value>)
    ensures r.None? <==> forall i :: 0 <= i < |m| ==> m[i].key != k
    ensures r.Some? ==> exists i :: 0 <= i < |m| && m[i].key == k && m[i].value == r.value
  {
    if m == [] then None
    else if m[0].key == k then Some(m[0].value)
    else Lookup(m[1..], k)
  }

  predicate HasKey(m: Mapping, k: string) {
    Lookup(m, k).Some?
  }

  /** `dict.get(k, default)`. */
  function Get(m: Mapping, k: string, default: Value): Value {
    Lookup(m, k).GetOr(default)
  }

  /** Every key stands once, as in a Python `dict`. */
  predicate KeysUnique(m: Mapping) {
    forall i, j :: 0 <= i < j < |m| ==> m[i].key != m[j].key
  }

  /** In a mapping whose keys are unique, the entry at index `i` is what a lookup of its key finds. */
  lemma {:induction false} LookupAt(m: Mapping, i: nat)
    requires KeysUnique(m) && i < |m|
    ensures Lookup(m, m[i].key) == Some(m[i].value)
  {
    if i > 0 {
      assert m[0].key != m[i].key;
      assert m[1..][i - 1] == m[i];
      LookupAt(m[1..], i - 1);
    }
  }

  /** Python's `repr()` of a value (quoting inside strings is not escaped). */
  function Repr(v: Value): string
    decreases v
  {
    match v
    case Str(s) => "'" + s + "'"
    case List(items) =>
      "[" + JoinWith(", ", seq(|items|, i requires 0 <= i < |items| => Repr(items[i]))) + "]"
    case Dict(entries) =>
      "{" + JoinWith(", ", seq(|entries|, i requires 0 <= i < |entries| =>
                                 "'" + entries[i].key + "': " + Repr(entries[i].value))) + "}"
    case Scalar(shown) => shown
  }

  /** Python's `str()` of a value. */
  function Show(v: Value): string {
    if v.Str? then v.s else Repr(v)
  }

  /** `sep.join(parts)`. */
  function JoinWith(sep: string, parts: seq<string>): string {
    if parts == [] then ""
    else if |parts| == 1 then parts[0]
    else parts[0] + sep + JoinWith(sep, parts[1..])
  }
}
