/**
 The asyncio lock. Its methods are proved against functions on the lock's fields; the step system
 below interleaves acquire, resumption, release and cancellation of any number of coroutines.
 */
module AsyncFifoLock {
  import opened Wrappers
  import opened Tickets

  /** An asyncio future is done once it is no longer pending. */
  datatype Future = Pending | Resolved | Cancelled

  /** The fields of the lock, with the futures its waiters stand for. */
  datatype Fields = Fields(waiters: seq<nat>, held: bool, futures: map<nat, Future>)

  predicate IsPending(futures: map<nat, Future>, f: nat) {
    f in futures && futures[f].Pending?
  }

  /** The waiters from the first pending one on. */
  function FromFirstPending(waiters: seq<nat>, futures: map<nat, Future>): (r: seq<nat>)
    ensures r != [] ==> IsPending(futures, r[0])
    ensures r == [] ==> forall f :: f in waiters ==> !IsPending(futures, f)
  {
    if waiters == [] || IsPending(futures, waiters[0]) then waiters else FromFirstPending(waiters[1..], futures)
  }

  function Released(l: Fields): Fields {
    var queue := FromFirstPending(l.waiters, l.futures);
    if queue == [] then l.(waiters := [], held := false)
    else Fields(queue[1..], true, l.futures[queue[0] := Resolved])
  }

  function Enqueued(l: Fields, f: nat): Fields {
    l.(waiters := l.waiters + [f], futures := l.futures[f := Pending])
  }

  class AsyncFIFOLock {
    var waiters: seq<nat>
    var held: bool
    /** The event loop's futures, by number. */
    var futures: map<nat, Future>

    ghost function Contents(): Fields
      reads this
    {
      Fields(waiters, held, futures)
    }

    constructor ()
      ensures Contents() == Fields([], false, map[])
    {
      waiters, held, futures := [], false, map[];
    }

    /** `acquire` up to its await: None on the fast path, else the future to wait for. */
    method Acquire(ticket: nat) returns (future: Option<nat>)
      requires ticket !in futures
      modifies this
      ensures future == if old(held) then Some(ticket) else None
      ensures Contents() == if old(held) then Enqueued(old(Contents()), ticket) else old(Contents()).(held := true)
    {
      if !held {
        held := true;
        return None;
      }
      futures := futures[ticket := Pending];
      waiters := waiters + [ticket];
      return Some(ticket);
    }

    /** False stands for the RuntimeError of releasing an unheld lock. */
    method Release() returns (ok: bool)
      modifies this
      ensures ok == old(held)
      ensures Contents() == if old(held) then Released(old(Contents())) else old(Contents())
    {
      if !held {
        return false;
      }
      held := false;
      while waiters != []
        invariant !held && futures == old(futures)
        invariant FromFirstPending(waiters, futures) == FromFirstPending(old(waiters), old(futures))
        decreases |waiters|
      {
        var next := waiters[0];
        waiters := waiters[1..];
        if IsPending(futures, next) {
          held := true;
          futures := futures[next := Resolved];
          break;
        }
      }
      return true;
    }

    method RemoveFromQueue(future: nat)
      modifies this
      ensures Contents() == old(Contents()).(waiters := Without(old(waiters), future))
    {
      for i := 0 to |waiters|
        invariant unchanged(this) && future !in waiters[..i]
      {
        if waiters[i] == future {
          WithoutAt(waiters, future, i);
          waiters := waiters[..i] + waiters[i + 1..];
          return;
        }
      }
      WithoutAbsent(waiters, future);
    }
  }

  // ----- the coroutines -----

  /**
   Where the coroutine of a ticket is. Tickets number the calls of `acquire` in order, and a queued
   call's future has its ticket's number. `Dropped` was granted the lock but cancelled before it resumed.
   */
  datatype Phase = Waiting | Granted | Holding | Done | Cancelling | Gone | Dropped

  datatype System = System(lock: Fields, phases: seq<Phase>, grants: seq<nat>)

  datatype Step = Acquire | Resume(t: nat) | Release(t: nat) | Cancel(t: nat) | Cleanup(t: nat) | LateCancel(t: nat)

  const INIT := System(Fields([], false, map[]), [], [])

  predicate Enabled(s: System, step: Step) {
    match step
    case Acquire => true
    case Resume(t) => t < |s.phases| && s.phases[t].Granted?
    case Release(t) => t < |s.phases| && s.phases[t].Holding?
    case Cancel(t) => t < |s.phases| && s.phases[t].Waiting?
    case Cleanup(t) => t < |s.phases| && s.phases[t].Cancelling?
    case LateCancel(t) => t < |s.phases| && s.phases[t].Granted?
  }

  function Next(s: System, step: Step): System
    requires Enabled(s, step)
  {
    match step
    case Acquire =>
      var t := |s.phases|;
      if s.lock.held then System(Enqueued(s.lock, t), s.phases + [Waiting], s.grants)
      else System(s.lock.(held := true), s.phases + [Holding], s.grants + [t])
    case Resume(t) => s.(phases := s.phases[t := Holding])
    case Release(t) =>
      var queue := FromFirstPending(s.lock.waiters, s.lock.futures);
      var phases := s.phases[t := Done];
      if queue != [] && queue[0] < |phases|
        then System(Released(s.lock), phases[queue[0] := Granted], s.grants + [queue[0]])
      else System(Released(s.lock), phases, s.grants)
    case Cancel(t) =>
      s.(lock := s.lock.(futures := s.lock.futures[t := Cancelled]), phases := s.phases[t := Cancelling])
    case Cleanup(t) => s.(lock := s.lock.(waiters := Without(s.lock.waiters, t)), phases := s.phases[t := Gone])
    case LateCancel(t) => s.(phases := s.phases[t := Dropped])
  }

  ghost predicate Reaches(s: System, steps: seq<Step>, u: System)
    decreases |steps|
  {
    if steps == [] then s == u else Enabled(s, steps[0]) && Reaches(Next(s, steps[0]), steps[1..], u)
  }

  // ----- the invariant -----

  predicate Owns(p: Phase) { p.Granted? || p.Holding? }

  /** The ticket was, or may still be, granted the lock. */
  predicate InLine(p: Phase) { !p.Cancelling? && !p.Gone? }

  /** The pending tickets of the queue, in queue order. */
  function PendingOf(waiters: seq<nat>, futures: map<nat, Future>): seq<nat> {
    if waiters == [] then [] else
    (if IsPending(futures, waiters[0]) then [waiters[0]] else []) + PendingOf(waiters[1..], futures)
  }

  ghost function Queue(s: System): seq<nat> {
    PendingOf(s.lock.waiters, s.lock.futures)
  }

  ghost predicate Lost(s: System) {
    exists t :: 0 <= t < |s.phases| && s.phases[t].Dropped?
  }

  ghost predicate Owned(s: System) {
    exists t :: 0 <= t < |s.phases| && Owns(s.phases[t])
  }

  /** One owner at most; the held flag says whether there is one, or the lock was lost. */
  ghost predicate Exclusive(s: System) {
    && (forall t, u :: 0 <= t < |s.phases| && 0 <= u < |s.phases| && Owns(s.phases[t]) && Owns(s.phases[u]) ==> t == u)
    && (s.lock.held <==> Owned(s) || Lost(s))
    && !(Owned(s) && Lost(s))
  }

  /** The queue against the phase of one ticket. */
  predicate TicketOk(s: System, t: nat)
    requires t < |s.phases|
  {
    && (s.phases[t].Waiting? <==> IsPending(s.lock.futures, t))
    && (s.phases[t].Waiting? ==> t in s.lock.waiters)
  }

  predicate Queued(s: System, f: nat) {
    f < |s.phases| && (s.phases[f].Waiting? || s.phases[f].Cancelling?)
  }

  ghost predicate QueueOk(s: System) {
    && Increasing(s.lock.waiters)
    && (forall f :: f in s.lock.waiters ==> Queued(s, f))
    && (forall t: nat :: t < |s.phases| ==> TicketOk(s, t))
    && (forall f :: f in s.lock.futures ==> f < |s.phases|)
    && (Queue(s) != [] ==> s.lock.held)
  }

  /** The tickets granted so far and then the pending ones. */
  ghost function Line(s: System): seq<nat> {
    s.grants + Queue(s)
  }

  /** The line lists the uncancelled tickets in the order of their acquire calls. */
  ghost predicate Fifo(s: System) {
    && Increasing(Line(s))
    && (forall t: nat :: t in Line(s) <==> t < |s.phases| && InLine(s.phases[t]))
    && (forall t: nat :: t in s.grants ==> t < |s.phases| && !s.phases[t].Waiting?)
  }

  ghost predicate Inv(s: System) {
    Exclusive(s) && QueueOk(s) && Fifo(s)
  }

  // ----- the queue functions -----

  lemma PendingMembers(waiters: seq<nat>, futures: map<nat, Future>)
    ensures forall f :: f in PendingOf(waiters, futures) <==> f in waiters && IsPending(futures, f)
  {
  }

  lemma PendingConcat(a: seq<nat>, b: seq<nat>, futures: map<nat, Future>)
    ensures PendingOf(a + b, futures) == PendingOf(a, futures) + PendingOf(b, futures)
  {
    if a == [] {
      assert a + b == b;
    } else {
      assert (a + b)[1..] == a[1..] + b;
      PendingConcat(a[1..], b, futures);
    }
  }

  /** Dropping the done waiters at the front leaves the pending ones as they were. */
  lemma {:induction false} PendingFromFirst(waiters: seq<nat>, futures: map<nat, Future>) returns (k: nat)
    ensures PendingOf(FromFirstPending(waiters, futures), futures) == PendingOf(waiters, futures)
    ensures k <= |waiters| && FromFirstPending(waiters, futures) == waiters[k..]
  {
    if waiters == [] || IsPending(futures, waiters[0]) {
      k := 0;
    } else {
      k := PendingFromFirst(waiters[1..], futures);
      k := k + 1;
    }
  }

  /** Changing futures that are not in the queue does not change the pending ones. */
  lemma PendingFrame(waiters: seq<nat>, a: map<nat, Future>, b: map<nat, Future>)
    requires forall f :: f in waiters ==> (IsPending(a, f) <==> IsPending(b, f))
    ensures PendingOf(waiters, a) == PendingOf(waiters, b)
  {
  }

  lemma PendingWithout(waiters: seq<nat>, f: nat, futures: map<nat, Future>)
    requires !IsPending(futures, f)
    ensures PendingOf(Without(waiters, f), futures) == PendingOf(waiters, futures)
  {
  }

  lemma PendingWithoutFirst(waiters: seq<nat>, f: nat, a: map<nat, Future>, b: map<nat, Future>)
    requires Increasing(waiters)
    requires forall g :: g in waiters && g != f ==> (IsPending(a, g) <==> IsPending(b, g))
    requires !IsPending(b, f)
    ensures forall g :: g in PendingOf(waiters, b) <==> g in PendingOf(waiters, a) && g != f
  {
    PendingMembers(waiters, a);
    PendingMembers(waiters, b);
  }

  lemma {:induction false} PendingIncreasing(waiters: seq<nat>, futures: map<nat, Future>)
    requires Increasing(waiters)
    ensures Increasing(PendingOf(waiters, futures))
  {
    if waiters != [] {
      IncreasingTail(waiters);
      PendingIncreasing(waiters[1..], futures);
      PendingMembers(waiters[1..], futures);
      IncreasingCons(waiters[0], PendingOf(waiters[1..], futures));
    }
  }

  // ----- every step keeps the invariant -----

  // Ownership.

  /** Where every ticket keeps its standing, so does ownership. */
  lemma SameOwners(s: System, u: System)
    requires |u.phases| >= |s.phases| && u.lock.held == s.lock.held && Exclusive(s)
    requires forall t :: 0 <= t < |s.phases| ==>
             (Owns(s.phases[t]) <==> Owns(u.phases[t])) && (s.phases[t].Dropped? <==> u.phases[t].Dropped?)
    requires forall t :: |s.phases| <= t < |u.phases| ==> u.phases[t].Waiting?
    ensures Exclusive(u)
  {
    if t :| 0 <= t < |s.phases| && Owns(s.phases[t]) {
      assert Owns(u.phases[t]);
    }
    if t :| 0 <= t < |s.phases| && s.phases[t].Dropped? {
      assert u.phases[t].Dropped?;
    }
  }

  /** A free lock taken by a newcomer. */
  lemma TakenByNew(s: System, u: System)
    requires Exclusive(s) && !s.lock.held && u.lock.held && u.phases == s.phases + [Holding]
    ensures Exclusive(u)
  {
    assert u.phases[|s.phases|].Holding?;
  }

  lemma GrantedOwner(s: System, u: System, t: nat, f: nat)
    requires Exclusive(s) && t < |s.phases| && s.phases[t].Holding? && f < |s.phases| && s.phases[f].Waiting?
    requires u.phases == s.phases[t := Done][f := Granted] && u.lock.held
    ensures Exclusive(u)
  {
    assert Owns(s.phases[t]) && Owns(u.phases[f]);
    forall x | 0 <= x < |u.phases| ensures !u.phases[x].Dropped? {
      assert s.phases[x].Dropped? ==> Lost(s);
    }
  }

  lemma NobodyOwns(s: System, u: System, t: nat)
    requires Exclusive(s) && t < |s.phases| && s.phases[t].Holding?
    requires u.phases == s.phases[t := Done] && !u.lock.held
    ensures Exclusive(u)
  {
    assert Owns(s.phases[t]);
    forall x | 0 <= x < |u.phases| ensures !u.phases[x].Dropped? && !Owns(u.phases[x]) {
      assert s.phases[x].Dropped? ==> Lost(s);
      assert Owns(s.phases[x]) ==> x == t;
    }
  }

  lemma DroppedOwner(s: System, u: System, t: nat)
    requires Exclusive(s) && t < |s.phases| && s.phases[t].Granted?
    requires u.phases == s.phases[t := Dropped] && u.lock.held == s.lock.held
    ensures Exclusive(u)
  {
    assert Owns(s.phases[t]) && u.phases[t].Dropped?;
  }

  // The line.

  lemma SameLine(s: System, u: System)
    requires Fifo(s) && Line(u) == Line(s) && |u.phases| == |s.phases|
    requires forall t :: 0 <= t < |s.phases| ==> (InLine(s.phases[t]) <==> InLine(u.phases[t]))
    requires forall t :: t in u.grants ==> t < |u.phases| && !u.phases[t].Waiting?
    ensures Fifo(u)
  {
    forall t: nat ensures t in Line(u) <==> t < |u.phases| && InLine(u.phases[t]) {
      assert t in Line(s) <==> t < |s.phases| && InLine(s.phases[t]);
    }
  }

  lemma LongerLine(s: System, u: System, phase: Phase)
    requires Fifo(s) && Line(u) == Line(s) + [|s.phases|] && u.phases == s.phases + [phase] && InLine(phase)
    requires u.grants == s.grants || (u.grants == s.grants + [|s.phases|] && !phase.Waiting?)
    ensures Fifo(u)
  {
    IncreasingConcat(Line(s), [|s.phases|]);
    forall t: nat ensures t in Line(u) <==> t < |u.phases| && InLine(u.phases[t]) {
      assert t in Line(s) <==> t < |s.phases| && InLine(s.phases[t]);
    }
  }

  lemma ShorterLine(s: System, u: System, t: nat)
    requires Fifo(s) && t < |s.phases| && u.phases == s.phases[t := Cancelling] && u.grants == s.grants &&
             s.phases[t].Waiting?
    requires Increasing(Queue(u)) && forall f :: f in Queue(u) <==> f in Queue(s) && f != t
    ensures Fifo(u)
  {
    IncreasingConcat(s.grants, Queue(s));
    IncreasingConcat(u.grants, Queue(u));
    forall x: nat ensures x in Line(u) <==> x < |u.phases| && InLine(u.phases[x]) {
      assert x in Line(s) <==> x < |s.phases| && InLine(s.phases[x]);
    }
  }

  // The steps.

  lemma AcquireFreeInv(s: System)
    requires Inv(s) && !s.lock.held
    ensures Inv(Next(s, Acquire))
  {
    var u := Next(s, Acquire);
    TakenByNew(s, u);
    assert Queue(s) == [] && Queue(u) == [];
    assert Line(u) == Line(s) + [|s.phases|];
    LongerLine(s, u, Holding);
    forall t: nat | t < |u.phases| ensures TicketOk(u, t) {
      assert t < |s.phases| ==> TicketOk(s, t);
    }
    forall f | f in u.lock.waiters ensures Queued(u, f) {
      assert Queued(s, f);
    }
  }

  lemma EnqueueQueue(s: System)
    requires QueueOk(s) && s.lock.held
    ensures var u := Next(s, Acquire); QueueOk(u) && Queue(u) == Queue(s) + [|s.phases|]
  {
    var u, n := Next(s, Acquire), |s.phases|;
    forall f | f in s.lock.waiters ensures f < n && Queued(u, f) {
      assert Queued(s, f);
    }
    IncreasingConcat(s.lock.waiters, [n]);
    PendingConcat(s.lock.waiters, [n], u.lock.futures);
    PendingFrame(s.lock.waiters, s.lock.futures, u.lock.futures);
    forall t: nat | t < |u.phases| ensures TicketOk(u, t) {
      assert t < n ==> TicketOk(s, t);
    }
  }

  lemma AcquireBusyInv(s: System)
    requires Inv(s) && s.lock.held
    ensures Inv(Next(s, Acquire))
  {
    var u := Next(s, Acquire);
    SameOwners(s, u);
    EnqueueQueue(s);
    assert Line(u) == Line(s) + [|s.phases|];
    LongerLine(s, u, Waiting);
  }

  /** A step of a coroutine that is neither queued before nor after it. */
  lemma OtherQueue(s: System, u: System, t: nat, phase: Phase)
    requires QueueOk(s) && t < |s.phases| && u.phases == s.phases[t := phase] && u.lock == s.lock
    requires !s.phases[t].Waiting? && !s.phases[t].Cancelling? && !phase.Waiting?
    ensures QueueOk(u)
  {
    forall x: nat | x < |u.phases| ensures TicketOk(u, x) {
      assert TicketOk(s, x);
    }
    forall f | f in u.lock.waiters ensures Queued(u, f) {
      assert Queued(s, f);
    }
  }

  lemma ResumeInv(s: System, t: nat)
    requires Inv(s) && Enabled(s, Resume(t))
    ensures Inv(Next(s, Resume(t)))
  {
    var u := Next(s, Resume(t));
    SameOwners(s, u);
    OtherQueue(s, u, t, Holding);
    SameLine(s, u);
  }

  lemma LateCancelInv(s: System, t: nat)
    requires Inv(s) && Enabled(s, LateCancel(t))
    ensures Inv(Next(s, LateCancel(t)))
  {
    var u := Next(s, LateCancel(t));
    DroppedOwner(s, u, t);
    OtherQueue(s, u, t, Dropped);
    SameLine(s, u);
  }

  lemma CancelQueue(s: System, t: nat)
    requires QueueOk(s) && Enabled(s, Cancel(t))
    ensures var u := Next(s, Cancel(t));
            QueueOk(u) && Increasing(Queue(u)) && forall f :: f in Queue(u) <==> f in Queue(s) && f != t
  {
    var u := Next(s, Cancel(t));
    PendingWithoutFirst(s.lock.waiters, t, s.lock.futures, u.lock.futures);
    PendingIncreasing(s.lock.waiters, u.lock.futures);
    forall x: nat | x < |u.phases| ensures TicketOk(u, x) {
      assert TicketOk(s, x);
    }
    forall f | f in u.lock.waiters ensures Queued(u, f) {
      assert Queued(s, f);
    }
    assert TicketOk(s, t);
    if Queue(u) != [] {
      assert Queue(u)[0] in Queue(s);
    }
  }

  lemma CancelInv(s: System, t: nat)
    requires Inv(s) && Enabled(s, Cancel(t))
    ensures Inv(Next(s, Cancel(t)))
  {
    var u := Next(s, Cancel(t));
    SameOwners(s, u);
    CancelQueue(s, t);
    ShorterLine(s, u, t);
  }

  lemma CleanupQueue(s: System, t: nat)
    requires QueueOk(s) && Enabled(s, Cleanup(t))
    ensures var u := Next(s, Cleanup(t)); QueueOk(u) && Queue(u) == Queue(s)
  {
    var u := Next(s, Cleanup(t));
    assert TicketOk(s, t);
    WithoutMembers(s.lock.waiters, t);
    PendingWithout(s.lock.waiters, t, s.lock.futures);
    forall x: nat | x < |u.phases| ensures TicketOk(u, x) {
      assert TicketOk(s, x);
    }
    forall f | f in u.lock.waiters ensures Queued(u, f) {
      assert Queued(s, f);
    }
  }

  lemma CleanupInv(s: System, t: nat)
    requires Inv(s) && Enabled(s, Cleanup(t))
    ensures Inv(Next(s, Cleanup(t)))
  {
    var u := Next(s, Cleanup(t));
    SameOwners(s, u);
    CleanupQueue(s, t);
    SameLine(s, u);
  }

  /** The waiter a release grants is the head of the pending queue, which then loses it. */
  lemma ReleaseQueue(waiters: seq<nat>, futures: map<nat, Future>)
    requires Increasing(waiters)
    ensures var q := FromFirstPending(waiters, futures);
            && (q == [] <==> PendingOf(waiters, futures) == [])
            && (q != [] ==>
                  && PendingOf(waiters, futures) == [q[0]] + PendingOf(q[1..], futures[q[0] := Resolved])
                  && q[0] in waiters)
  {
    var k := PendingFromFirst(waiters, futures);
    var q := FromFirstPending(waiters, futures);
    if q != [] {
      TailIncreasing(waiters, k);
      assert q[0] == waiters[k];
      GrantFrame(q, futures);
    }
  }

  lemma TailIncreasing(waiters: seq<nat>, k: nat)
    requires Increasing(waiters) && k <= |waiters|
    ensures Increasing(waiters[k..])
  {
    assert waiters == waiters[..k] + waiters[k..];
    IncreasingConcat(waiters[..k], waiters[k..]);
  }

  /** Granting the head of the queue takes it off the pending ones. */
  lemma GrantFrame(q: seq<nat>, futures: map<nat, Future>)
    requires Increasing(q) && q != [] && IsPending(futures, q[0])
    ensures PendingOf(q, futures) == [q[0]] + PendingOf(q[1..], futures[q[0] := Resolved])
  {
    IncreasingTail(q);
    PendingFrame(q[1..], futures, futures[q[0] := Resolved]);
  }

  /** What stays queued was queued before, and every pending waiter stays, but the one granted. */
  lemma ReleaseMembers(waiters: seq<nat>, futures: map<nat, Future>)
    requires Increasing(waiters)
    ensures var q := FromFirstPending(waiters, futures);
            q != [] ==>
                  && Increasing(q[1..]) && q[0] !in q[1..]
                  && (forall f :: f in q[1..] ==> f in waiters)
                  && (forall f :: f in waiters && IsPending(futures, f) && f != q[0] ==> f in q[1..])
  {
    var k := PendingFromFirst(waiters, futures);
    var q := FromFirstPending(waiters, futures);
    PendingMembers(waiters, futures);
    PendingMembers(q, futures);
    if q != [] {
      TailIncreasing(waiters, k);
      IncreasingTail(q);
    }
  }

  /** The release finds a waiter: `rest` is the queue behind it. */
  lemma GrantedQueue(s: System, u: System, t: nat, f: nat, rest: seq<nat>)
    requires QueueOk(s) && t < |s.phases| && s.phases[t].Holding? && f < |s.phases| && s.phases[f].Waiting?
    requires u.lock == Fields(rest, true, s.lock.futures[f := Resolved]) &&
             u.phases == s.phases[t := Done][f := Granted]
    requires Increasing(rest) && f !in rest && (forall g :: g in rest ==> g in s.lock.waiters)
    requires forall g :: g in s.lock.waiters && IsPending(s.lock.futures, g) && g != f ==> g in rest
    ensures QueueOk(u)
  {
    forall x: nat | x < |u.phases| ensures TicketOk(u, x) {
      assert TicketOk(s, x);
    }
    forall g | g in rest ensures Queued(u, g) {
      assert Queued(s, g);
    }
    assert TicketOk(s, f);
  }

  lemma NoWaitersQueue(s: System, u: System, t: nat)
    requires QueueOk(s) && t < |s.phases| && s.phases[t].Holding? && Queue(s) == []
    requires u.lock == s.lock.(waiters := [], held := false) && u.phases == s.phases[t := Done]
    ensures QueueOk(u) && Queue(u) == []
  {
    PendingMembers(s.lock.waiters, s.lock.futures);
    forall x: nat | x < |u.phases| ensures TicketOk(u, x) {
      assert TicketOk(s, x);
      assert s.phases[x].Waiting? ==> x in Queue(s);
    }
  }

  lemma ReleaseInv(s: System, t: nat)
    requires Inv(s) && Enabled(s, Release(t))
    ensures Inv(Next(s, Release(t)))
    ensures Queue(s) == [] ==> Next(s, Release(t)).grants == s.grants
    ensures Queue(s) != [] ==> Next(s, Release(t)).grants == s.grants + [Queue(s)[0]]
  {
    var u, q := Next(s, Release(t)), FromFirstPending(s.lock.waiters, s.lock.futures);
    if q == [] {
      ReleaseQueue(s.lock.waiters, s.lock.futures);
      NoWaitersQueue(s, u, t);
      NobodyOwns(s, u, t);
      SameLine(s, u);
    } else {
      ReleaseQueue(s.lock.waiters, s.lock.futures);
      assert Queued(s, q[0]) && TicketOk(s, q[0]);
      ReleaseMembers(s.lock.waiters, s.lock.futures);
      GrantedQueue(s, u, t, q[0], q[1..]);
      GrantedOwner(s, u, t, q[0]);
      GrantedLine(s, u, t, q[0]);
    }
  }

  /** A grant moves the head of the queue to the end of the grants. */
  lemma GrantedLine(s: System, u: System, t: nat, f: nat)
    requires Fifo(s) && t < |s.phases| && f < |s.phases| && s.phases[t].Holding? && s.phases[f].Waiting?
    requires u.phases == s.phases[t := Done][f := Granted] && u.grants == s.grants + [f] && Queue(s) == [f] + Queue(u)
    ensures Fifo(u)
  {
    assert Line(u) == Line(s);
    SameLine(s, u);
  }

  lemma StepInv(s: System, step: Step)
    requires Inv(s) && Enabled(s, step)
    ensures Inv(Next(s, step))
  {
    match step
    case Acquire => if s.lock.held { AcquireBusyInv(s); } else { AcquireFreeInv(s); }
    case Resume(t) => ResumeInv(s, t);
    case Release(t) => ReleaseInv(s, t);
    case Cancel(t) => CancelInv(s, t);
    case Cleanup(t) => CleanupInv(s, t);
    case LateCancel(t) => LateCancelInv(s, t);
  }

  lemma {:induction false} RunInv(s: System, steps: seq<Step>, u: System)
    requires Inv(s) && Reaches(s, steps, u)
    ensures Inv(u)
    decreases |steps|
  {
    if steps != [] {
      StepInv(s, steps[0]);
      RunInv(Next(s, steps[0]), steps[1..], u);
    }
  }

  lemma InitInv()
    ensures Inv(INIT)
  {
    assert Line(INIT) == [];
  }

  lemma ReachedInv(steps: seq<Step>, s: System)
    requires Reaches(INIT, steps, s)
    ensures Inv(s)
  {
    InitInv();
    RunInv(INIT, steps, s);
  }

  // ----- what that means for every run -----

  /** In every interleaving at most one coroutine holds or has been granted the lock. */
  lemma MutualExclusion(steps: seq<Step>, s: System, t: nat, u: nat)
    requires Reaches(INIT, steps, s)
    requires t < |s.phases| && u < |s.phases| && Owns(s.phases[t]) && Owns(s.phases[u])
    ensures t == u && s.lock.held
  {
    ReachedInv(steps, s);
    OneOwner(s, t, u);
  }

  lemma OneOwner(s: System, t: nat, u: nat)
    requires Exclusive(s)
    requires t < |s.phases| && u < |s.phases| && Owns(s.phases[t]) && Owns(s.phases[u])
    ensures t == u && s.lock.held
  {
  }

  /** Of two uncancelled calls the earlier one is granted first: no later call overtakes it. */
  lemma FirstComeFirstServed(steps: seq<Step>, s: System, t: nat, u: nat)
    requires Reaches(INIT, steps, s)
    requires t < u < |s.phases| && InLine(s.phases[t]) && u in s.grants
    ensures t in s.grants
    ensures forall i, j :: 0 <= i < |s.grants| && 0 <= j < |s.grants| && s.grants[i] == t && s.grants[j] == u ==> i < j
  {
    ReachedInv(steps, s);
    GrantedInOrder(s, t, u);
  }

  lemma GrantedInOrder(s: System, t: nat, u: nat)
    requires Fifo(s) && t < u < |s.phases| && InLine(s.phases[t]) && u in s.grants
    ensures t in s.grants
    ensures forall i, j :: 0 <= i < |s.grants| && 0 <= j < |s.grants| && s.grants[i] == t && s.grants[j] == u ==> i < j
  {
    IncreasingConcat(s.grants, Queue(s));
    assert t in Line(s);
  }

  predicate NoLateCancel(steps: seq<Step>) {
    forall step :: step in steps ==> !step.LateCancel?
  }

  /** A step drops the lock only by cancelling a coroutine that was granted it, and dropped stays dropped. */
  lemma {:induction false} LostIff(s: System, steps: seq<Step>, u: System)
    requires Inv(s) && Reaches(s, steps, u)
    ensures Lost(u) <==> Lost(s) || !NoLateCancel(steps)
    decreases |steps|
  {
    if steps != [] {
      var next := Next(s, steps[0]);
      StepInv(s, steps[0]);
      LostIff(next, steps[1..], u);
      LostStep(s, steps[0]);
      assert steps == [steps[0]] + steps[1..];
    }
  }

  lemma NobodyOwnsLost(s: System)
    requires Exclusive(s) && Lost(s)
    ensures forall t: nat :: t < |s.phases| ==> !Owns(s.phases[t])
  {
  }

  lemma LostStep(s: System, step: Step)
    requires Inv(s) && Enabled(s, step)
    ensures Lost(Next(s, step)) <==> Lost(s) || step.LateCancel?
  {
    var u := Next(s, step);
    if Lost(s) {
      StaysLost(s, step);
    } else if step.LateCancel? {
      assert u.phases[step.t].Dropped?;
    } else {
      assert forall t :: 0 <= t < |u.phases| && u.phases[t].Dropped? ==> t < |s.phases| && s.phases[t].Dropped?;
    }
  }

  lemma StaysLost(s: System, step: Step)
    requires Inv(s) && Enabled(s, step) && Lost(s)
    ensures Lost(Next(s, step)) && Next(s, step).grants == s.grants
  {
    NobodyOwnsLost(s);
    var t: nat :| t < |s.phases| && s.phases[t].Dropped?;
    assert step.Release? || Next(s, step).phases[t].Dropped?;
  }

  /**
   The held flag always has an owner behind it, so every queued coroutine can still be granted the
   lock, exactly in the runs where no coroutine is cancelled between its grant and its resumption.
   */
  lemma HeldIffOwnedIff(steps: seq<Step>, s: System)
    requires Reaches(INIT, steps, s)
    ensures (s.lock.held <==> Owned(s)) <==> NoLateCancel(steps)
  {
    ReachedInv(steps, s);
    InitInv();
    LostIff(INIT, steps, s);
  }

  /** Once lost, the lock is never granted again, whatever anyone does. */
  lemma {:induction false} LostForever(s: System, steps: seq<Step>, u: System)
    requires Inv(s) && Lost(s) && Reaches(s, steps, u)
    ensures u.grants == s.grants
    decreases |steps|
  {
    if steps != [] {
      StepInv(s, steps[0]);
      StaysLost(s, steps[0]);
      LostForever(Next(s, steps[0]), steps[1..], u);
    }
  }

  /** While a coroutine waits, the owner's next release grants the longest waiting of them. */
  lemma ReleaseServesOldest(steps: seq<Step>, s: System, t: nat)
    requires Reaches(INIT, steps, s) && Enabled(s, Release(t))
    ensures forall w: nat :: w < |s.phases| && s.phases[w].Waiting? ==>
              exists g: nat :: g <= w && s.phases[g].Waiting? && Next(s, Release(t)).grants == s.grants + [g]
  {
    ReachedInv(steps, s);
    ReleaseInv(s, t);
    forall w: nat | w < |s.phases| && s.phases[w].Waiting?
      ensures exists g: nat :: g <= w && s.phases[g].Waiting? && Next(s, Release(t)).grants == s.grants + [g]
    {
      OldestFirst(s, w);
      var g := Queue(s)[0];
      assert g <= w && s.phases[g].Waiting?;
    }
  }

  lemma OldestFirst(s: System, w: nat)
    requires QueueOk(s) && w < |s.phases| && s.phases[w].Waiting?
    ensures Queue(s) != [] && Queue(s)[0] <= w && Queue(s)[0] < |s.phases| && s.phases[Queue(s)[0]].Waiting?
  {
    assert TicketOk(s, w);
    PendingMembers(s.lock.waiters, s.lock.futures);
    PendingIncreasing(s.lock.waiters, s.lock.futures);
    assert w in Queue(s);
    IncreasingTail(Queue(s));
    var g := Queue(s)[0];
    assert g in Queue(s);
    assert Queued(s, g) && TicketOk(s, g);
  }

  lemma ReachesOne(s: System, step: Step, rest: seq<Step>, u: System)
    requires Enabled(s, step) && Reaches(Next(s, step), rest, u)
    ensures Reaches(s, [step] + rest, u)
  {
    assert ([step] + rest)[1..] == rest;
  }

  /**
   Two coroutines are enough: the second is granted the lock by the first's release and cancelled
   before it resumes.
   */
  lemma LateCancelLosesLock() returns (steps: seq<Step>, s: System)
    ensures Reaches(INIT, steps, s) && s.lock.held && !Owned(s)
  {
    var s1 := Next(INIT, Acquire);
    var s2 := Next(s1, Acquire);
    var s3 := Next(s2, Release(0));
    s := Next(s3, LateCancel(1));
    assert s.phases == [Done, Dropped];
    ReachesOne(s3, LateCancel(1), [], s);
    ReachesOne(s2, Release(0), [LateCancel(1)] + [], s);
    ReachesOne(s1, Acquire, [Release(0)] + ([LateCancel(1)] + []), s);
    ReachesOne(INIT, Acquire, [Acquire] + ([Release(0)] + ([LateCancel(1)] + [])), s);
    steps := [Acquire] + ([Acquire] + ([Release(0)] + ([LateCancel(1)] + [])));
  }
}
