/** Small failure-carrying datatypes shared by every module of the model. */
module Base {

  /** A value that may be missing (Python's `None`). */
  datatype Option<T> = None | Some(value: T)

  /** The outcome of an operation that raises in the source. */
  datatype Result<T, E> = Ok(value: T) | Err(error: E)

  /** An association list standing for a Python dict: keys in insertion order. */
  type Assoc = seq<(string, string)>

  function KeysOf(a: Assoc): (ks: seq<string>)
    ensures |ks| == |a|
    ensures forall i :: 0 <= i < |a| ==> ks[i] == a[i].0
  {
    seq(|a|, i requires 0 <= i < |a| => a[i].0)
  }

  predicate UniqueKeys(a: Assoc) {
    forall i, j :: 0 <= i < j < |a| ==> a[i].0 != a[j].0
  }

  /** `d.get(k)`: the value stored under `k`, searched from the front. */
  function Lookup(a: Assoc, k: string): (r: Option<string>)
    ensures r.None? <==> (forall i :: 0 <= i < |a| ==> a[i].0 != k)
    ensures r.Some? ==> exists i :: 0 <= i < |a| && a[i] == (k, r.value)
  {
    if |a| == 0 then None
    else if a[0].0 == k then Some(a[0].1)
    else Lookup(a[1..], k)
  }

  /** `m.get(k, d)` on a Dafny map. */
  function GetOr<K, V>(m: map<K, V>, k: K, d: V): V {
    if k in m then m[k] else d
  }
}
