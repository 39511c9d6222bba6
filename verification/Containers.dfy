/** Containers the modules share: optional values, and lists that are inserted into and deleted from. */
module Containers {

  datatype Option<+T> = None | Some(value: T)

  ghost predicate Distinct<T>(s: seq<T>) {
    forall i, j :: 0 <= i < j < |s| ==> s[i] != s[j]
  }

  function Insert<T>(a: seq<T>, at: nat, x: T): (r: seq<T>)
    requires at <= |a|
    ensures |r| == |a| + 1
  {
    a[..at] + [x] + a[at..]
  }

  function Without<T>(a: seq<T>, at: nat): (r: seq<T>)
    requires at < |a|
    ensures |r| == |a| - 1
    ensures forall k :: 0 <= k < |r| ==> r[k] == if k < at then a[k] else a[k + 1]
  {
    a[..at] + a[at + 1..]
  }

  lemma AppendAssoc<T>(a: seq<T>, b: seq<T>, c: seq<T>)
    ensures (a + b) + c == a + (b + c)
  {
  }
}
