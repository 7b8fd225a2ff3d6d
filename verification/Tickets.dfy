/** Queues of numbered waiters, shared by the two locks. */
module Tickets {
  import opened Wrappers

  /** `deque.remove`: the first occurrence, or nothing when absent. */
  function Without(waiters: seq<nat>, f: nat): seq<nat> {
    if waiters == [] then [] else
    if waiters[0] == f then waiters[1..] else [waiters[0]] + Without(waiters[1..], f)
  }

  lemma IncreasingTail(waiters: seq<nat>)
    requires waiters != [] && Increasing(waiters)
    ensures Increasing(waiters[1..])
    ensures forall g :: g in waiters[1..] ==> waiters[0] < g
    ensures forall g :: g in waiters <==> g == waiters[0] || g in waiters[1..]
  {
    assert waiters == [waiters[0]] + waiters[1..];
    var tail := waiters[1..];
    forall i, j | 0 <= i < j < |tail| ensures tail[i] < tail[j] {
      assert tail[i] == waiters[i + 1] && tail[j] == waiters[j + 1];
    }
    forall g | g in tail ensures waiters[0] < g {
      var i :| 0 <= i < |tail| && tail[i] == g;
      assert waiters[0] < waiters[i + 1];
    }
  }

  lemma IncreasingConcat(a: seq<nat>, b: seq<nat>)
    ensures Increasing(a + b) <==> Increasing(a) && Increasing(b) && forall x, y :: x in a && y in b ==> x < y
  {
    var c := a + b;
    assert forall i :: 0 <= i < |a| ==> c[i] == a[i];
    assert forall i :: 0 <= i < |b| ==> c[|a| + i] == b[i];
    if Increasing(c) {
      forall i, j | 0 <= i < j < |b| ensures b[i] < b[j] {
        assert c[|a| + i] < c[|a| + j];
      }
      forall x, y | x in a && y in b ensures x < y {
        var i :| 0 <= i < |a| && a[i] == x;
        var j :| 0 <= j < |b| && b[j] == y;
        assert c[i] < c[|a| + j];
      }
    }
    if Increasing(a) && Increasing(b) && forall x, y :: x in a && y in b ==> x < y {
      forall i, j | 0 <= i < j < |c| ensures c[i] < c[j] {
        if i < |a| <= j {
          assert a[i] in a && b[j - |a|] in b;
        }
      }
    }
  }

  lemma IncreasingCons(x: nat, tail: seq<nat>)
    requires Increasing(tail) && forall g :: g in tail ==> x < g
    ensures Increasing([x] + tail)
  {
    IncreasingConcat([x], tail);
  }

  lemma {:induction false} WithoutMembers(waiters: seq<nat>, f: nat)
    requires Increasing(waiters)
    ensures Increasing(Without(waiters, f))
    ensures forall g :: g in Without(waiters, f) <==> g in waiters && g != f
  {
    if waiters != [] {
      IncreasingTail(waiters);
      if waiters[0] != f {
        WithoutMembers(waiters[1..], f);
        IncreasingCons(waiters[0], Without(waiters[1..], f));
      }
    }
  }

  /** Removing an element cuts it out at its first occurrence. */
  lemma {:induction false} WithoutAt(waiters: seq<nat>, f: nat, i: nat)
    requires i < |waiters| && waiters[i] == f && f !in waiters[..i]
    ensures Without(waiters, f) == waiters[..i] + waiters[i + 1..]
  {
    if i > 0 {
      assert waiters[0] in waiters[..i];
      assert waiters[1..][..i - 1] == waiters[..i][1..];
      WithoutAt(waiters[1..], f, i - 1);
      assert [waiters[0]] + (waiters[1..][..i - 1] + waiters[1..][i..]) == waiters[..i] + waiters[i + 1..];
    }
  }

  lemma {:induction false} WithoutAbsent(waiters: seq<nat>, f: nat)
    requires f !in waiters
    ensures Without(waiters, f) == waiters
  {
    if waiters != [] {
      WithoutAbsent(waiters[1..], f);
    }
  }
}
