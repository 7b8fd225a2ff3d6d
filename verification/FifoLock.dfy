/**
 The threading lock. `acquire` is three atomic blocks around an event wait, so a release frees the
 lock before the signalled waiter takes it. The step system interleaves those blocks; it shows what
 holds in every run and exactly which step breaks mutual exclusion.
 */
module FifoLock {
  import opened Wrappers
  import opened Tickets

  datatype Fields = Fields(waiters: seq<nat>, held: bool, owner: Option<nat>, holdCount: nat, signalled: set<nat>)

  function Taken(l: Fields, thread: nat): Fields {
    l.(held := true, owner := Some(thread), holdCount := 1)
  }

  function Freed(l: Fields): Fields {
    var free := l.(held := false, owner := None, holdCount := 0);
    if l.waiters == [] then free else free.(waiters := l.waiters[1..], signalled := l.signalled + {l.waiters[0]})
  }

  class FIFOLock {
    var waiters: seq<nat>
    var held: bool
    var owner: Option<nat>
    var holdCount: nat
    /** The threading events that have been set, by number. */
    var signalled: set<nat>

    ghost function Contents(): Fields
      reads this
    {
      Fields(waiters, held, owner, holdCount, signalled)
    }

    constructor ()
      ensures Contents() == Fields([], false, None, 0, {})
    {
      waiters, held, owner, holdCount, signalled := [], false, None, 0, {};
    }

    /** The first block of `acquire`: true on the fast path, else the event is queued. */
    method TakeOrEnqueue(thread: nat, event: nat) returns (taken: bool)
      modifies this
      ensures taken == !old(held)
      ensures Contents() == if old(held) then old(Contents()).(waiters := old(waiters) + [event])
              else Taken(old(Contents()), thread)
    {
      if !held {
        held := true;
        owner := Some(thread);
        holdCount := 1;
        return true;
      }
      waiters := waiters + [event];
      return false;
    }

    /** The second block, after a wait that timed out: true when the event had already been dequeued. */
    method Withdraw(event: nat) returns (acquired: bool)
      modifies this
      ensures acquired <==> event !in old(waiters)
      ensures Contents() == old(Contents()).(waiters := Without(old(waiters), event))
    {
      for i := 0 to |waiters|
        invariant unchanged(this) && event !in waiters[..i]
      {
        if waiters[i] == event {
          WithoutAt(waiters, event, i);
          waiters := waiters[..i] + waiters[i + 1..];
          return false;
        }
      }
      WithoutAbsent(waiters, event);
      return true;
    }

    /** The last block: the signalled thread takes the lock, whoever holds it. */
    method Claim(thread: nat)
      modifies this
      ensures Contents() == Taken(old(Contents()), thread)
    {
      held := true;
      owner := Some(thread);
      holdCount := 1;
    }

    /** False stands for the RuntimeError of releasing an unheld lock. */
    method Release() returns (ok: bool)
      modifies this
      ensures ok == old(held)
      ensures Contents() == if old(held) then Freed(old(Contents())) else old(Contents())
    {
      if !held {
        return false;
      }
      held := false;
      owner := None;
      holdCount := 0;
      if waiters != [] {
        var next := waiters[0];
        waiters := waiters[1..];
        signalled := signalled + {next};
      }
      return true;
    }
  }

  // ----- the threads -----

  /** Where the thread of a call of `acquire` is; calls, their threads and their events share one number. */
  datatype Phase = Waiting | TimedOut | Claiming | Holding | Done | Refused | Raised

  datatype System = System(lock: Fields, phases: seq<Phase>, queued: seq<nat>, signals: seq<nat>)

  datatype Step = Begin | Expire(t: nat) | Wake(t: nat) | Withdraw(t: nat) | Claim(t: nat) | Release(t: nat)

  const INIT := System(Fields([], false, None, 0, {}), [], [], [])

  predicate Enabled(s: System, step: Step) {
    match step
    case Begin => true
    case Expire(t) => t < |s.phases| && s.phases[t].Waiting? && t !in s.lock.signalled
    case Wake(t) => t < |s.phases| && s.phases[t].Waiting? && t in s.lock.signalled
    case Withdraw(t) => t < |s.phases| && s.phases[t].TimedOut?
    case Claim(t) => t < |s.phases| && s.phases[t].Claiming?
    case Release(t) => t < |s.phases| && s.phases[t].Holding?
  }

  function Next(s: System, step: Step): System
    requires Enabled(s, step)
  {
    match step
    case Begin =>
      var t := |s.phases|;
      if s.lock.held
        then System(s.lock.(waiters := s.lock.waiters + [t]), s.phases + [Waiting], s.queued + [t], s.signals)
      else s.(lock := Taken(s.lock, t), phases := s.phases + [Holding])
    case Expire(t) => s.(phases := s.phases[t := TimedOut])
    case Wake(t) => s.(phases := s.phases[t := Claiming])
    case Withdraw(t) =>
      s.(lock := s.lock.(waiters := Without(s.lock.waiters, t)),
         phases := s.phases[t := if t in s.lock.waiters then Refused else Claiming])
    case Claim(t) => s.(lock := Taken(s.lock, t), phases := s.phases[t := Holding])
    case Release(t) =>
      if !s.lock.held then s.(phases := s.phases[t := Raised])
      else System(Freed(s.lock), s.phases[t := Done], s.queued,
                  if s.lock.waiters == [] then s.signals else s.signals + [s.lock.waiters[0]])
  }

  ghost predicate Reaches(s: System, steps: seq<Step>, u: System)
    decreases |steps|
  {
    if steps == [] then s == u else Enabled(s, steps[0]) && Reaches(Next(s, steps[0]), steps[1..], u)
  }

  // ----- what every run keeps -----

  /** Queued and not yet signalled. */
  predicate InQueue(s: System, t: nat)
    requires t < |s.phases|
  {
    (s.phases[t].Waiting? || s.phases[t].TimedOut?) && t !in s.lock.signalled
  }

  /** Signalled but not yet holding. */
  predicate Summoned(s: System, t: nat)
    requires t < |s.phases|
  {
    s.phases[t].Claiming? || ((s.phases[t].Waiting? || s.phases[t].TimedOut?) && t in s.lock.signalled)
  }

  predicate Owns(s: System, t: nat)
    requires t < |s.phases|
  {
    s.phases[t].Holding? || Summoned(s, t)
  }

  ghost predicate SomeHolding(s: System) {
    exists t: nat :: t < |s.phases| && s.phases[t].Holding?
  }

  ghost predicate SomeSummoned(s: System) {
    exists t: nat :: t < |s.phases| && Summoned(s, t)
  }

  /** Signals, and then the queue, list the queued calls in enqueue order, leaving out the refused ones. */
  ghost predicate Fifo(s: System) {
    && Increasing(s.signals + s.lock.waiters)
    && (forall t: nat :: t in s.signals + s.lock.waiters <==> t in s.queued && t < |s.phases| && !s.phases[t].Refused?)
    && (forall t: nat :: t in s.signals <==> t in s.lock.signalled)
    && (forall t: nat :: t in s.queued ==> t < |s.phases|)
  }

  /** The queue and the signals against the phase of one call. */
  predicate CallOk(s: System, t: nat)
    requires t < |s.phases|
  {
    && (InQueue(s, t) <==> t in s.lock.waiters)
    && (s.phases[t].Claiming? ==> t in s.lock.signalled)
    && (s.phases[t].Refused? ==> t !in s.lock.signalled)
    && (s.phases[t].Waiting? || s.phases[t].TimedOut? || s.phases[t].Refused? ==> t in s.queued)
  }

  ghost predicate PhasesOk(s: System) {
    forall t: nat :: t < |s.phases| ==> CallOk(s, t)
  }

  /** A waiting thread always has someone ahead of it who will release. */
  ghost predicate Awake(s: System) {
    && (s.lock.held ==> SomeHolding(s))
    && (s.lock.waiters != [] ==> s.lock.held || SomeSummoned(s))
  }

  ghost predicate Inv(s: System) {
    Fifo(s) && PhasesOk(s) && Awake(s)
  }

  ghost function Line(s: System): seq<nat> {
    s.signals + s.lock.waiters
  }

  lemma InLineIsCall(s: System, t: nat)
    requires Fifo(s)
    ensures t in s.lock.signalled || t in s.lock.waiters || t in s.queued ==> t < |s.phases|
  {
    assert t in Line(s) <==> t in s.queued && t < |s.phases| && !s.phases[t].Refused?;
  }

  // The line.

  lemma SameLine(s: System, u: System)
    requires Fifo(s) && Line(u) == Line(s) && |u.phases| == |s.phases| && u.queued == s.queued
    requires forall t :: t in u.signals <==> t in u.lock.signalled
    requires forall t :: 0 <= t < |s.phases| ==> (s.phases[t].Refused? <==> u.phases[t].Refused?)
    ensures Fifo(u)
  {
    forall t: nat ensures t in Line(u) <==> t in u.queued && t < |u.phases| && !u.phases[t].Refused? {
      assert t in Line(s) <==> t in s.queued && t < |s.phases| && !s.phases[t].Refused?;
    }
  }

  lemma LongerLine(s: System, u: System, phase: Phase)
    requires Fifo(s) && u.phases == s.phases + [phase] && u.signals == s.signals && u.lock.signalled == s.lock.signalled
    requires if phase.Waiting?
             then u.lock.waiters == s.lock.waiters + [|s.phases|] && u.queued == s.queued + [|s.phases|]
             else phase.Holding? && u.lock.waiters == s.lock.waiters && u.queued == s.queued
    ensures Fifo(u)
  {
    var n := |s.phases|;
    forall t: nat | t in s.queued || t in Line(s) ensures t < n {
      InLineIsCall(s, t);
    }
    if phase.Waiting? {
      IncreasingConcat(Line(s), [n]);
      assert Line(u) == Line(s) + [n];
    }
    forall t: nat ensures t in Line(u) <==> t in u.queued && t < |u.phases| && !u.phases[t].Refused? {
      assert t in Line(s) <==> t in s.queued && t < n && !s.phases[t].Refused?;
    }
  }

  lemma ShorterLine(s: System, u: System, t: nat)
    requires Fifo(s) && t < |s.phases| && t in s.lock.waiters && t in s.queued
    requires u == s.(lock := s.lock.(waiters := Without(s.lock.waiters, t)), phases := s.phases[t := Refused])
    ensures Fifo(u)
  {
    IncreasingConcat(s.signals, s.lock.waiters);
    WithoutMembers(s.lock.waiters, t);
    IncreasingConcat(u.signals, u.lock.waiters);
    forall x: nat ensures x in Line(u) <==> x in u.queued && x < |u.phases| && !u.phases[x].Refused? {
      assert x in Line(s) <==> x in s.queued && x < |s.phases| && !s.phases[x].Refused?;
    }
  }

  // Who will release.

  lemma StaysAwake(s: System, u: System)
    requires Awake(s) && |u.phases| >= |s.phases| && u.lock.held == s.lock.held
    requires u.lock.waiters != [] ==> s.lock.waiters != [] || u.lock.held
    requires forall t: nat :: t < |s.phases| && s.phases[t].Holding? ==> u.phases[t].Holding?
    requires forall t: nat :: t < |s.phases| && Summoned(s, t) ==> Summoned(u, t)
    ensures Awake(u)
  {
    if t: nat :| t < |s.phases| && s.phases[t].Holding? {
      assert u.phases[t].Holding?;
    }
    if t: nat :| t < |s.phases| && Summoned(s, t) {
      assert Summoned(u, t);
    }
  }

  // The steps.

  lemma BeginInv(s: System)
    requires Inv(s)
    ensures Inv(Next(s, Begin))
  {
    var u, n := Next(s, Begin), |s.phases|;
    InLineIsCall(s, n);
    forall t: nat | t < |u.phases| ensures CallOk(u, t) {
      assert t < n ==> CallOk(s, t);
    }
    if s.lock.held {
      LongerLine(s, u, Waiting);
      StaysAwake(s, u);
    } else {
      LongerLine(s, u, Holding);
      assert u.phases[n].Holding?;
    }
  }

  lemma WaitInv(s: System, step: Step)
    requires Inv(s) && Enabled(s, step) && (step.Expire? || step.Wake?)
    ensures Inv(Next(s, step))
  {
    var u := Next(s, step);
    SameLine(s, u);
    StaysAwake(s, u);
    forall t: nat | t < |u.phases| ensures CallOk(u, t) {
      assert CallOk(s, t);
    }
  }

  lemma WithdrawCalls(s: System, t: nat)
    requires Inv(s) && Enabled(s, Withdraw(t))
    ensures PhasesOk(Next(s, Withdraw(t)))
  {
    var u := Next(s, Withdraw(t));
    IncreasingConcat(s.signals, s.lock.waiters);
    WithoutMembers(s.lock.waiters, t);
    assert CallOk(s, t);
    forall x: nat | x < |u.phases| ensures CallOk(u, x) {
      assert CallOk(s, x);
    }
  }

  lemma WithdrawInv(s: System, t: nat)
    requires Inv(s) && Enabled(s, Withdraw(t))
    ensures Inv(Next(s, Withdraw(t)))
  {
    var u := Next(s, Withdraw(t));
    assert CallOk(s, t);
    WithdrawCalls(s, t);
    if t in s.lock.waiters {
      ShorterLine(s, u, t);
    } else {
      WithoutAbsent(s.lock.waiters, t);
      SameLine(s, u);
    }
    StaysAwake(s, u);
  }

  lemma ClaimInv(s: System, t: nat)
    requires Inv(s) && Enabled(s, Claim(t))
    ensures Inv(Next(s, Claim(t)))
  {
    var u := Next(s, Claim(t));
    assert u.phases[t].Holding?;
    SameLine(s, u);
    forall x: nat | x < |u.phases| ensures CallOk(u, x) {
      assert CallOk(s, x);
    }
  }

  /** The head of the queue is signalled. */
  lemma SignalCalls(s: System, u: System, t: nat, f: nat)
    requires Inv(s) && t < |s.phases| && s.phases[t].Holding? && s.lock.waiters != [] && f == s.lock.waiters[0]
    requires u.phases == s.phases[t := Done] && u.queued == s.queued
    requires u.lock.waiters == s.lock.waiters[1..] && u.lock.signalled == s.lock.signalled + {f}
    ensures f < |s.phases| && InQueue(s, f) && Summoned(u, f) && PhasesOk(u)
  {
    InLineIsCall(s, f);
    IncreasingConcat(s.signals, s.lock.waiters);
    IncreasingTail(s.lock.waiters);
    assert CallOk(s, f);
    forall x: nat | x < |u.phases| ensures CallOk(u, x) {
      assert CallOk(s, x);
    }
  }

  lemma ReleaseInv(s: System, t: nat)
    requires Inv(s) && Enabled(s, Release(t))
    ensures Inv(Next(s, Release(t)))
  {
    var u := Next(s, Release(t));
    if s.lock.held && s.lock.waiters != [] {
      SignalCalls(s, u, t, s.lock.waiters[0]);
      assert Line(u) == Line(s);
      SameLine(s, u);
    } else {
      SameLine(s, u);
      forall x: nat | x < |u.phases| ensures CallOk(u, x) {
        assert CallOk(s, x);
      }
      ReleaseAwake(s, u, t);
    }
  }

  lemma ReleaseAwake(s: System, u: System, t: nat)
    requires Awake(s) && t < |s.phases| && s.phases[t].Holding? && u.lock.signalled == s.lock.signalled
    requires !u.lock.held && u.lock.waiters == s.lock.waiters && (s.lock.held ==> s.lock.waiters == [])
    requires u.phases == s.phases[t := Done] || u.phases == s.phases[t := Raised]
    ensures Awake(u)
  {
    if x: nat :| x < |s.phases| && Summoned(s, x) {
      assert Summoned(u, x);
    }
  }

  lemma StepInv(s: System, step: Step)
    requires Inv(s) && Enabled(s, step)
    ensures Inv(Next(s, step))
  {
    match step
    case Begin => BeginInv(s);
    case Expire(_) => WaitInv(s, step);
    case Wake(_) => WaitInv(s, step);
    case Withdraw(t) => WithdrawInv(s, t);
    case Claim(t) => ClaimInv(s, t);
    case Release(t) => ReleaseInv(s, t);
  }

  lemma {:induction false} RunInv(s: System, steps: seq<Step>, u: System)
    requires Inv(s) && Reaches(s, steps, u)
    ensures Inv(u)
    decreases |steps|
  {
    if steps != [] {
      StepInv(s, steps[0]);
      RunInv(Next(s, steps[0]), steps[1..], u);
    }
  }

  /** Of two queued calls the earlier is signalled first, unless it has been refused. */
  lemma SignalsInOrder(steps: seq<Step>, s: System, t: nat, u: nat)
    requires Reaches(INIT, steps, s)
    requires t < u && t in s.queued && u in s.lock.signalled && t < |s.phases| && !s.phases[t].Refused?
    ensures t in s.lock.signalled
    ensures forall i, j :: 0 <= i < |s.signals| && 0 <= j < |s.signals| && s.signals[i] == t && s.signals[j] == u ==>
            i < j
  {
    RunInv(INIT, steps, s);
    IncreasingConcat(s.signals, s.lock.waiters);
    assert t in Line(s);
  }

  /** A call is refused only if it was never signalled, and a signalled call is never refused afterwards. */
  lemma {:induction false} SignalNotLost(s: System, steps: seq<Step>, u: System, t: nat)
    requires Inv(s) && Reaches(s, steps, u)
    requires t < |s.phases| && t in s.lock.signalled
    ensures t < |u.phases| && t in u.lock.signalled && !u.phases[t].Refused?
    decreases |steps|
  {
    if steps != [] {
      StepInv(s, steps[0]);
      SignalNotLost(Next(s, steps[0]), steps[1..], u, t);
    }
  }

  /** No run strands a waiter: the lock is held by a thread, or a signalled thread is about to take it. */
  lemma SomeoneWillRelease(steps: seq<Step>, s: System)
    requires Reaches(INIT, steps, s) && s.lock.waiters != []
    ensures SomeHolding(s) || SomeSummoned(s)
  {
    RunInv(INIT, steps, s);
  }

  // ----- the recorded owner -----

  /** The lock is marked held exactly while it records an owner and a count of one, and then that thread holds it. */
  predicate OwnerOk(s: System) {
    && (s.lock.owner.Some? <==> s.lock.held)
    && s.lock.holdCount == (if s.lock.held then 1 else 0)
    && (s.lock.held ==> s.lock.owner.value < |s.phases| && s.phases[s.lock.owner.value].Holding?)
  }

  lemma OwnerStep(s: System, step: Step)
    requires OwnerOk(s) && Enabled(s, step)
    ensures OwnerOk(Next(s, step))
  {
  }

  /** In every run, with or without two holders, the owner the lock records holds it. */
  lemma {:induction false} OwnerHolds(s: System, steps: seq<Step>, u: System)
    requires OwnerOk(s) && Reaches(s, steps, u)
    ensures OwnerOk(u)
    decreases |steps|
  {
    if steps != [] {
      OwnerStep(s, steps[0]);
      OwnerHolds(Next(s, steps[0]), steps[1..], u);
    }
  }

  /** A step that leaves a thread holding the lock anew records that thread. */
  lemma NewHolderIsOwner(s: System, step: Step, t: nat)
    requires Enabled(s, step) && t < |Next(s, step).phases| && Next(s, step).phases[t].Holding?
    requires t < |s.phases| ==> !s.phases[t].Holding?
    ensures Next(s, step).lock.owner == Some(t) && Next(s, step).lock.held
  {
  }

  // ----- mutual exclusion -----

  /** A new call takes the free lock although a signalled thread is on its way to it. */
  ghost predicate Barges(s: System, step: Step) {
    step.Begin? && !s.lock.held && SomeSummoned(s)
  }

  /** One owner at most, and the lock is marked held exactly while a thread holds it. */
  ghost predicate OneOwner(s: System) {
    && (forall t: nat, u: nat :: t < |s.phases| && u < |s.phases| && Owns(s, t) && Owns(s, u) ==> t == u)
    && (s.lock.held <==> SomeHolding(s))
  }

  ghost predicate NeverBarges(s: System, steps: seq<Step>)
    decreases |steps|
  {
    steps == [] || (Enabled(s, steps[0]) ==> !Barges(s, steps[0]) && NeverBarges(Next(s, steps[0]), steps[1..]))
  }

  /** Every state of the run, from `s` on, has one owner at most. */
  ghost predicate AlwaysOneOwner(s: System, steps: seq<Step>)
    decreases |steps|
  {
    OneOwner(s) && (steps == [] || (Enabled(s, steps[0]) ==> AlwaysOneOwner(Next(s, steps[0]), steps[1..])))
  }

  /** One step keeps the single owner exactly when it does not barge. */
  lemma OneOwnerStep(s: System, step: Step)
    requires Inv(s) && OneOwner(s) && Enabled(s, step)
    ensures OneOwner(Next(s, step)) <==> !Barges(s, step)
  {
    var u, n := Next(s, step), |s.phases|;
    StepInv(s, step);
    if Barges(s, step) {
      var t: nat :| t < |s.phases| && Summoned(s, t);
      assert Owns(u, t) && Owns(u, n);
    } else {
      NoBargeStep(s, step);
    }
  }

  lemma NoBargeStep(s: System, step: Step)
    requires Inv(s) && OneOwner(s) && Enabled(s, step) && !Barges(s, step)
    ensures OneOwner(Next(s, step))
  {
    match step
    case Begin => BeginOneOwner(s);
    case Release(t) => ReleaseOneOwner(s, t);
    case Claim(t) =>
      assert Owns(s, t) && Next(s, step).phases[t].Holding?;
      assert forall x: nat :: x < |s.phases| && Owns(Next(s, step), x) ==> Owns(s, x);
    case Wake(t) => SameOwner(s, step, t);
    case Expire(t) => SameOwner(s, step, t);
    case Withdraw(t) => SameOwner(s, step, t);
  }

  lemma SameOwner(s: System, step: Step, t: nat)
    requires Inv(s) && OneOwner(s) && Enabled(s, step) && (step == Wake(t) || step == Expire(t) || step == Withdraw(t))
    ensures OneOwner(Next(s, step))
  {
    assert CallOk(s, t);
    if h: nat :| h < |s.phases| && s.phases[h].Holding? {
      assert Next(s, step).phases[h].Holding?;
    }
    assert forall x: nat :: x < |s.phases| && Owns(Next(s, step), x) ==> Owns(s, x);
  }

  lemma BeginOneOwner(s: System)
    requires Inv(s) && OneOwner(s) && !Barges(s, Begin)
    ensures OneOwner(Next(s, Begin))
  {
    var u, n := Next(s, Begin), |s.phases|;
    forall t: nat | t in s.lock.signalled ensures t < n {
      InLineIsCall(s, t);
    }
    if s.lock.held {
      var h: nat :| h < |s.phases| && s.phases[h].Holding?;
      assert u.phases[h].Holding?;
      assert forall x: nat :: x < |u.phases| && Owns(u, x) ==> x < n && Owns(s, x);
    } else {
      assert u.phases[n].Holding?;
      forall x: nat | x < n ensures !Owns(u, x) {
        assert !Summoned(s, x) && !s.phases[x].Holding?;
      }
    }
  }

  lemma ReleaseOneOwner(s: System, t: nat)
    requires Inv(s) && OneOwner(s) && Enabled(s, Release(t))
    ensures OneOwner(Next(s, Release(t)))
  {
    var u := Next(s, Release(t));
    assert Owns(s, t) && SomeHolding(s);
    forall x: nat | x < |u.phases| && Owns(u, x) ensures s.lock.waiters != [] && x == s.lock.waiters[0] {
      assert x != t ==> !Owns(s, x);
    }
    if s.lock.waiters != [] {
      SignalCalls(s, u, t, s.lock.waiters[0]);
    }
    forall x: nat | x < |u.phases| ensures !u.phases[x].Holding? {
      assert u.phases[x].Holding? ==> Owns(u, x);
    }
  }

  /**
   At most one thread holds or has been promised the lock in every state of a run exactly when no
   step of it barges.
   */
  lemma {:induction false} MutualExclusionIff(s: System, steps: seq<Step>, u: System)
    requires Inv(s) && OneOwner(s) && Reaches(s, steps, u)
    ensures AlwaysOneOwner(s, steps) <==> NeverBarges(s, steps)
    decreases |steps|
  {
    if steps != [] {
      OneOwnerStep(s, steps[0]);
      StepInv(s, steps[0]);
      var next := Next(s, steps[0]);
      if OneOwner(next) {
        MutualExclusionIff(next, steps[1..], u);
      }
    }
  }

  lemma RunsFromTheStart(steps: seq<Step>, u: System)
    requires Reaches(INIT, steps, u)
    ensures AlwaysOneOwner(INIT, steps) <==> NeverBarges(INIT, steps)
  {
    MutualExclusionIff(INIT, steps, u);
  }

  /** A thread that owns the lock can go on to hold it without help from the others. */
  lemma CanHold(s: System, t: nat) returns (steps: seq<Step>, u: System)
    requires Inv(s) && t < |s.phases| && Owns(s, t)
    ensures Reaches(s, steps, u) && Inv(u) && |u.phases| == |s.phases| && u.phases[t].Holding?
    ensures forall x: nat :: x < |s.phases| && x != t ==> u.phases[x] == s.phases[x]
    ensures forall x: nat :: x < |s.phases| && x != t && Owns(s, x) ==> Owns(u, x)
  {
    if s.phases[t].Holding? {
      return [], s;
    }
    var first := if s.phases[t].Waiting? then [Wake(t)] else if s.phases[t].TimedOut? then [Withdraw(t)] else [];
    var mid := if first == [] then s else Next(s, first[0]);
    if first != [] {
      StepInv(s, first[0]);
    }
    StepInv(mid, Claim(t));
    u := Next(mid, Claim(t));
    steps := first + [Claim(t)];
    assert [Claim(t)][1..] == [];
    if first != [] {
      assert steps[1..] == [Claim(t)];
    }
  }

  /** Two owners can become two holders: the scheduler only has to let them run. */
  lemma TwoOwnersCanBothHold(s: System, t: nat, w: nat) returns (steps: seq<Step>, u: System)
    requires Inv(s) && t < |s.phases| && w < |s.phases| && t != w && Owns(s, t) && Owns(s, w)
    ensures Reaches(s, steps, u) && t < |u.phases| && w < |u.phases|
    ensures u.phases[t].Holding? && u.phases[w].Holding?
  {
    var first, mid := CanHold(s, t);
    var second;
    second, u := CanHold(mid, w);
    steps := first + second;
    ReachesConcat(s, first, mid, second, u);
  }

  lemma {:induction false} ReachesConcat(s: System, a: seq<Step>, mid: System, b: seq<Step>, u: System)
    requires Reaches(s, a, mid) && Reaches(mid, b, u)
    ensures Reaches(s, a + b, u)
    decreases |a|
  {
    if a == [] {
      assert a + b == b;
    } else {
      assert (a + b)[0] == a[0] && (a + b)[1..] == a[1..] + b;
      ReachesConcat(Next(s, a[0]), a[1..], mid, b, u);
    }
  }

  /** A run of three threads in which two of them hold the lock at once. */
  lemma BargingBreaksExclusion() returns (steps: seq<Step>, s: System)
    ensures Reaches(INIT, steps, s)
    ensures |s.phases| == 3 && s.phases[1].Holding? && s.phases[2].Holding?
  {
    var s1 := Next(INIT, Begin);
    var s2 := Next(s1, Begin);
    var s3 := Next(s2, Release(0));
    var s4 := Next(s3, Begin);
    var s5 := Next(s4, Wake(1));
    s := Next(s5, Claim(1));
    steps := [Begin] + ([Begin] + ([Release(0)] + ([Begin] + ([Wake(1)] + [Claim(1)]))));
    assert Reaches(s5, [Claim(1)], s) by { assert [Claim(1)][1..] == []; }
    ReachesOne(s4, Wake(1), [Claim(1)], s);
    ReachesOne(s3, Begin, [Wake(1)] + [Claim(1)], s);
    ReachesOne(s2, Release(0), [Begin] + ([Wake(1)] + [Claim(1)]), s);
    ReachesOne(s1, Begin, [Release(0)] + ([Begin] + ([Wake(1)] + [Claim(1)])), s);
    ReachesOne(INIT, Begin, [Begin] + ([Release(0)] + ([Begin] + ([Wake(1)] + [Claim(1)]))), s);
  }

  lemma ReachesOne(s: System, step: Step, rest: seq<Step>, u: System)
    requires Enabled(s, step) && Reaches(Next(s, step), rest, u)
    ensures Reaches(s, [step] + rest, u)
  {
    assert ([step] + rest)[1..] == rest;
  }

  /** While no step barges, releasing never raises. */
  lemma ReleaseNeverRaises(s: System, t: nat)
    requires OneOwner(s) && Enabled(s, Release(t))
    ensures !Next(s, Release(t)).phases[t].Raised?
  {
  }
}
