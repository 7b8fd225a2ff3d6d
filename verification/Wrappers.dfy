/** Failure-aware values shared by every component. */
module Wrappers {

  datatype Option<+T> = None | Some(value: T)

  datatype Result<+T, +E> = Ok(value: T) | Err(error: E)

  ghost predicate NoRepeats<T>(s: seq<T>) {
    forall i, j :: 0 <= i < j < |s| ==> s[i] != s[j]
  }

  ghost predicate Increasing(s: seq<nat>) {
    forall i, j :: 0 <= i < j < |s| ==> s[i] < s[j]
  }

  lemma FrontPosition(k: nat, ks: seq<nat>)
    requires Increasing(ks) && forall i :: i in ks ==> k < i
    ensures Increasing([k] + ks) && forall i :: i in [k] + ks <==> i == k || i in ks
  {
    assert forall i :: 0 <= i < |ks| ==> ks[i] in ks;
  }

  lemma LastPosition(ks: seq<nat>, k: nat)
    requires Increasing(ks) && forall i :: i in ks ==> i < k
    ensures Increasing(ks + [k]) && forall i :: i in ks + [k] <==> i == k || i in ks
  {
    assert forall i :: 0 <= i < |ks| ==> ks[i] in ks;
  }
}
