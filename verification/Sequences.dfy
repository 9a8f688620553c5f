/** Sequences of things that stand in a list: each once, with one more, with one less. */
module Sequences {
  ghost predicate Distinct<T>(ns: seq<T>) {
    forall i, j :: 0 <= i < j < |ns| ==> ns[i] != ns[j]
  }

  ghost function Members<T>(ns: seq<T>): set<T> {
    set x | x in ns
  }

  ghost function With<T>(ns: seq<T>, k: nat, x: T): (m: seq<T>)
    requires k <= |ns|
    ensures |m| == |ns| + 1
    ensures forall i {:trigger m[i]} :: 0 <= i < |m| ==>
      m[i] == if i < k then ns[i] else if i == k then x else ns[i - 1]
    ensures Distinct(ns) && x !in ns ==> Distinct(m)
  {
    ns[..k] + [x] + ns[k..]
  }

  ghost function Without<T>(ns: seq<T>, k: nat): (m: seq<T>)
    requires k < |ns|
    ensures |m| == |ns| - 1
    ensures forall i {:trigger m[i]} :: 0 <= i < |m| ==> m[i] == ns[if i < k then i else i + 1]
    ensures Distinct(ns) ==> Distinct(m) && ns[k] !in m
  {
    ns[..k] + ns[k + 1..]
  }
}
