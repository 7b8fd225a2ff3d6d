/**
 Removing events from a valid view: when enforcement repairs every removal, which removals need
 no repair, and what the manipulation indices offer.
 */
module ViewRemoval {
  import opened Wrappers
  import opened ViewEvents
  import opened ViewProperties
  import opened ToolLoops
  import opened ViewIntegrity
  import opened SafeIndices

  /** The events whose index is not in `indices`, in order. */
  function Removed(es: seq<Event>, indices: set<int>): seq<Event> {
    if es == [] then [] else
    Removed(es[..|es| - 1], indices) + (if |es| - 1 in indices then [] else [es[|es| - 1]])
  }

  /** The indices of the events whose own id is in `ids`. */
  ghost function IndicesOfIds(es: seq<Event>, ids: set<string>): set<int> {
    set i | 0 <= i < |es| && es[i].id in ids
  }

  lemma RemovedStep(es: seq<Event>, indices: set<int>, n: nat)
    requires n < |es|
    ensures Removed(es[..n + 1], indices) == Removed(es[..n], indices) + (if n in indices then [] else [es[n]])
  {
    assert es[..n + 1][..n] == es[..n];
  }

  /** What is kept: exactly the events at the other indices. */
  lemma {:induction false} RemovedMembers(es: seq<Event>, indices: set<int>, n: nat)
    requires n <= |es|
    ensures forall e :: e in Removed(es[..n], indices) <==> exists i :: 0 <= i < n && i !in indices && es[i] == e
  {
    if n > 0 {
      RemovedMembers(es, indices, n - 1);
      RemovedStep(es, indices, n - 1);
      forall e ensures e in Removed(es[..n], indices) <==> exists i :: 0 <= i < n && i !in indices && es[i] == e {
        if e in Removed(es[..n], indices) && e !in Removed(es[..n - 1], indices) {
          assert es[n - 1] == e;
        }
      }
    }
  }

  lemma RemovedIds(es: seq<Event>, indices: set<int>, n: nat)
    requires n <= |es|
    ensures forall t :: t in Declared(Removed(es[..n], indices)) <==>
              exists i :: 0 <= i < n && i !in indices && t in es[i].Declares()
    ensures forall t :: t in Answered(Removed(es[..n], indices)) <==>
              exists i :: i < n && i !in indices && ReplyAt(es, t, i)
  {
    RemovedMembers(es, indices, n);
    var kept := Removed(es[..n], indices);
    forall t ensures t in Declared(kept) <==> exists i :: 0 <= i < n && i !in indices && t in es[i].Declares() {
      if t in Declared(kept) {
        var e :| e in kept && t in e.Declares();
        var i :| 0 <= i < n && i !in indices && es[i] == e;
        assert t in es[i].Declares();
      }
      if i :| 0 <= i < n && i !in indices && t in es[i].Declares() {
        assert es[i] in kept;
      }
    }
    forall t ensures t in Answered(kept) <==> exists i :: i < n && i !in indices && ReplyAt(es, t, i) {
      if t in Answered(kept) {
        var e :| e in kept && e.Answers() && e.toolCallId == t;
        var i :| 0 <= i < n && i !in indices && es[i] == e;
        assert ReplyAt(es, t, i);
      }
      if i :| i < n && i !in indices && ReplyAt(es, t, i) {
        assert es[i] in kept;
      }
    }
  }

  /** The kept part of a prefix is a prefix of what is kept. */
  lemma {:induction false} RemovedPrefix(es: seq<Event>, indices: set<int>, m: nat, n: nat)
    requires m <= n <= |es|
    ensures Removed(es[..m], indices) <= Removed(es[..n], indices)
    decreases n - m
  {
    if m < n {
      RemovedPrefix(es, indices, m, n - 1);
      RemovedStep(es, indices, n - 1);
    }
  }

  // ----- removal with enforcement -----

  /** No id is declared again after a reply to it. */
  ghost predicate NoCallAfterReply(es: seq<Event>) {
    forall j, k :: 0 <= j < k < |es| && es[j].Answers() ==> es[j].toolCallId !in es[k].Declares()
  }

  /** Each id is declared by one event at most. */
  ghost predicate DeclaredOnce(es: seq<Event>) {
    forall j, k, t :: 0 <= j < k < |es| && t in es[j].Declares() ==> t !in es[k].Declares()
  }

  lemma ValidHasNoBlank(es: seq<Event>)
    requires BatchOk(es) && MatchOk(es)
    ensures forall e :: e in es && e.IsTool() ==> e.Answers()
  {
    forall e | e in es && e.IsTool() ensures e.Answers() {
      var j :| 0 <= j < |es| && es[j] == e;
      IdSetsMonotone(es, j);
      assert e.toolCallId in Answered(es);
    }
  }

  /** In a valid view declared-once implies that no id is declared again after its reply. */
  lemma DeclaredOnceOrdered(es: seq<Event>)
    requires BatchOk(es) && DeclaredOnce(es)
    ensures NoCallAfterReply(es)
  {
    forall j, k | 0 <= j < k < |es| && es[j].Answers() ensures es[j].toolCallId !in es[k].Declares() {
      var t := es[j].toolCallId;
      assert t in Declared(es[..j]);
      var e :| e in es[..j] && t in e.Declares();
      var i :| 0 <= i < j && es[i] == e;
    }
  }

  /** A kept reply whose id is still declared keeps an earlier declaration. */
  lemma CallStillBefore(es: seq<Event>, indices: set<int>, j: nat)
    requires NoCallAfterReply(es) && j < |es| && es[j].Answers()
    requires es[j].toolCallId in Declared(Removed(es, indices))
    ensures es[j].toolCallId in Declared(Removed(es[..j], indices))
  {
    assert es[..|es|] == es;
    RemovedIds(es, indices, |es|);
    RemovedIds(es, indices, j);
    var i :| 0 <= i < |es| && i !in indices && es[j].toolCallId in es[i].Declares();
    assert i < j;
  }

  lemma {:induction false} RemovalOrdered(es: seq<Event>, indices: set<int>, n: nat)
    requires n <= |es| && NoCallAfterReply(es)
    ensures OrderedPrefix(Removed(es[..n], indices), Declared(Removed(es, indices)), {})
  {
    if n > 0 {
      RemovalOrdered(es, indices, n - 1);
      RemovedStep(es, indices, n - 1);
      var kept, e := Removed(es[..n - 1], indices), es[n - 1];
      if n - 1 in indices {
        assert Removed(es[..n], indices) == kept;
      } else {
        OrderedSnoc(kept, e, Declared(Removed(es, indices)), {});
        if e.Answers() && e.toolCallId in Declared(Removed(es, indices)) {
          CallStillBefore(es, indices, n - 1);
        }
      }
    }
  }

  lemma RemovalRepaired(es: seq<Event>, indices: set<int>)
    requires ViewOk(es) && NoCallAfterReply(es)
    ensures ViewOk(Enforced(Removed(es, indices)))
  {
    var kept := Removed(es, indices);
    assert es[..|es|] == es;
    RemovalOrdered(es, indices, |es|);
    ValidHasNoBlank(es);
    RemovedMembers(es, indices, |es|);
    assert forall e :: e in kept ==> e in es;
    EnforceValidIff(kept);
  }

  /** Removing the earlier declarations of an id that is declared again strands its reply. */
  lemma RedeclaredStrands(es: seq<Event>, j: nat, k: nat) returns (indices: set<int>)
    requires j < k < |es| && es[j].Answers() && es[j].toolCallId in es[k].Declares()
    ensures !RepliesFollowCalls(Removed(es, indices))
  {
    var t := es[j].toolCallId;
    indices := set i | 0 <= i < j && t in es[i].Declares();
    var kept, p := Removed(es, indices), Removed(es[..j], indices);
    assert es[..|es|] == es;
    RemovedStep(es, indices, j);
    RemovedPrefix(es, indices, j, |es|);
    RemovedPrefix(es, indices, j + 1, |es|);
    RemovedIds(es, indices, j);
    RemovedIds(es, indices, |es|);
    assert kept[|p|] == es[j] && kept[..|p|] == p;
    assert t in Declared(kept) && t !in Declared(p);
  }

  /**
   From a valid view, removal with enforcement gives a valid view for every set of indices exactly
   when no id is declared again after a reply to it.
   */
  lemma EveryRemovalValidIff(es: seq<Event>)
    requires ViewOk(es)
    ensures (forall indices :: ViewOk(Enforced(Removed(es, indices)))) <==> NoCallAfterReply(es)
  {
    if NoCallAfterReply(es) {
      forall indices ensures ViewOk(Enforced(Removed(es, indices))) {
        RemovalRepaired(es, indices);
      }
    } else {
      var j, k :| 0 <= j < k < |es| && es[j].Answers() && es[j].toolCallId in es[k].Declares();
      var indices := RedeclaredStrands(es, j, k);
      EnforceValidIff(Removed(es, indices));
    }
  }

  // ----- removal without enforcement -----

  /** Some kept event before position `j` declares `t`. */
  ghost predicate CalledBefore(es: seq<Event>, indices: set<int>, t: Id, j: int) {
    exists k :: 0 <= k < j && k < |es| && k !in indices && t in es[k].Declares()
  }

  /** With a reply every declaration of its id is removed, and a kept reply keeps an earlier one. */
  ghost predicate PairedAt(es: seq<Event>, indices: set<int>, j: int)
    requires 0 <= j < |es|
  {
    if j in indices then forall i :: 0 <= i < |es| && es[j].toolCallId in es[i].Declares() ==> i in indices
    else CalledBefore(es, indices, es[j].toolCallId, j)
  }

  ghost predicate Paired(es: seq<Event>, indices: set<int>) {
    forall j :: 0 <= j < |es| && es[j].Answers() ==> PairedAt(es, indices, j)
  }

  lemma {:induction false} PairedKeepsOrder(es: seq<Event>, indices: set<int>, n: nat)
    requires n <= |es| && BatchOk(es) && MatchOk(es) && Paired(es, indices)
    ensures BatchOk(Removed(es[..n], indices))
  {
    if n > 0 {
      PairedKeepsOrder(es, indices, n - 1);
      RemovedStep(es, indices, n - 1);
      var kept, e := Removed(es[..n - 1], indices), es[n - 1];
      BatchOkSnoc(kept, if n - 1 in indices then [] else [e]);
      if n - 1 !in indices && e.IsTool() {
        KeptHead(es, indices, n - 1);
      }
    }
  }

  /** A kept reply keeps its head. */
  lemma KeptHead(es: seq<Event>, indices: set<int>, j: nat)
    requires BatchOk(es) && MatchOk(es) && Paired(es, indices) && j < |es| && j !in indices && es[j].IsTool()
    ensures es[j].toolCallId in Declared(Removed(es[..j], indices))
  {
    ValidHasNoBlank(es);
    assert es[j] in es && PairedAt(es, indices, j);
    RemovedIds(es, indices, j);
  }

  lemma {:induction false} RemovalKeepsUnique(es: seq<Event>, indices: set<int>, n: nat)
    requires n <= |es| && UniqueOk(es)
    ensures UniqueOk(Removed(es[..n], indices))
  {
    if n > 0 {
      RemovalKeepsUnique(es, indices, n - 1);
      RemovedStep(es, indices, n - 1);
      var kept, e := Removed(es[..n - 1], indices), es[n - 1];
      if n - 1 in indices {
        assert Removed(es[..n], indices) == kept;
      } else {
        RemovedIds(es, indices, n - 1);
        forall t | t in Answered(kept) && e.Answers() ensures t != e.toolCallId {
          var i :| i < n - 1 && i !in indices && ReplyAt(es, t, i);
          assert es[i].toolCallId != e.toolCallId;
        }
        UniqueAppend(kept, e);
      }
    }
  }

  /** Every declared id of a valid list has a reply, and only one. */
  lemma ReplyTo(es: seq<Event>, t: Id) returns (j: nat)
    requires ViewOk(es) && t in Declared(es)
    ensures ReplyAt(es, t, j) && forall k :: ReplyAt(es, t, k) ==> k == j
  {
    assert t in Answered(es);
    var e :| e in es && e.Answers() && e.toolCallId == t;
    j :| 0 <= j < |es| && es[j] == e;
  }

  lemma DeclaredAt(es: seq<Event>, i: nat, t: Id)
    requires i < |es| && t in es[i].Declares()
    ensures t in Declared(es)
  {
    assert es[i] in es;
  }

  lemma PairedKeepsMatch(es: seq<Event>, indices: set<int>)
    requires ViewOk(es) && Paired(es, indices)
    ensures MatchOk(Removed(es, indices))
  {
    var kept := Removed(es, indices);
    assert es[..|es|] == es;
    RemovedIds(es, indices, |es|);
    forall t ensures t in Declared(kept) <==> t in Answered(kept) {
      if i :| 0 <= i < |es| && i !in indices && t in es[i].Declares() {
        DeclaredAt(es, i, t);
        var j := ReplyTo(es, t);
        assert PairedAt(es, indices, j);
        assert j !in indices;
      }
      if j :| j < |es| && j !in indices && ReplyAt(es, t, j) {
        assert PairedAt(es, indices, j);
      }
    }
  }

  lemma PairedRemovalValid(es: seq<Event>, indices: set<int>)
    requires ViewOk(es) && Paired(es, indices)
    ensures ViewOk(Removed(es, indices))
  {
    assert es[..|es|] == es;
    PairedKeepsOrder(es, indices, |es|);
    RemovalKeepsUnique(es, indices, |es|);
    PairedKeepsMatch(es, indices);
    LoopCheckAlwaysPasses(Removed(es, indices), DEFAULT_LOOP_LENGTH);
  }

  /** A reply kept in a list that stays ordered has a kept head before it. */
  lemma KeptReplyHasHead(es: seq<Event>, indices: set<int>, j: nat)
    requires BatchOk(Removed(es, indices)) && j < |es| && j !in indices && es[j].IsTool()
    ensures CalledBefore(es, indices, es[j].toolCallId, j)
  {
    var kept, p := Removed(es, indices), Removed(es[..j], indices);
    assert es[..|es|] == es;
    RemovedStep(es, indices, j);
    RemovedPrefix(es, indices, j + 1, |es|);
    assert kept[|p|] == es[j] && kept[..|p|] == p;
    RemovedIds(es, indices, j);
  }

  /** A reply that is removed leaves no declaration of its id. */
  lemma RemovedReplyHasNoHead(es: seq<Event>, indices: set<int>, j: nat, i: nat)
    requires UniqueOk(es) && MatchOk(Removed(es, indices)) && j < |es| && j in indices && es[j].Answers()
    requires i < |es| && es[j].toolCallId in es[i].Declares()
    ensures i in indices
  {
    var t, kept := es[j].toolCallId, Removed(es, indices);
    assert es[..|es|] == es;
    RemovedIds(es, indices, |es|);
    assert t in Declared(kept) <==> t in Answered(kept);
    assert ReplyAt(es, t, j) && forall k :: ReplyAt(es, t, k) ==> k == j;
  }

  /**
   From any valid view, a removal without enforcement leaves a valid view exactly when it takes every
   declaration of an id whose reply it takes, and leaves one before each reply it leaves.
   */
  lemma RemovalValidIff(es: seq<Event>, indices: set<int>)
    requires ViewOk(es)
    ensures ViewOk(Removed(es, indices)) <==> Paired(es, indices)
  {
    if Paired(es, indices) {
      PairedRemovalValid(es, indices);
    }
    if ViewOk(Removed(es, indices)) {
      forall j | 0 <= j < |es| && es[j].Answers() ensures PairedAt(es, indices, j) {
        if j in indices {
          forall i | 0 <= i < |es| && es[j].toolCallId in es[i].Declares() ensures i in indices {
            RemovedReplyHasNoHead(es, indices, j, i);
          }
        } else {
          KeptReplyHasHead(es, indices, j);
        }
      }
    }
  }

  /** A reply is removed exactly when the assistants that declared its call are. */
  ghost predicate BatchClosed(es: seq<Event>, indices: set<int>) {
    forall i, j :: 0 <= i < |es| && 0 <= j < |es| && es[j].Answers() && es[j].toolCallId in es[i].Declares() ==>
      (i in indices <==> j in indices)
  }

  lemma ClosedIsPaired(es: seq<Event>, indices: set<int>)
    requires BatchOk(es) && BatchClosed(es, indices)
    ensures Paired(es, indices)
  {
    forall j | 0 <= j < |es| && es[j].Answers() ensures PairedAt(es, indices, j) {
      var head := HeadBefore(es, j);
      assert j !in indices ==> head !in indices;
    }
  }

  /** An assistant before a reply that declares its id. */
  lemma HeadBefore(es: seq<Event>, j: nat) returns (i: nat)
    requires BatchOk(es) && j < |es| && es[j].IsTool()
    ensures i < j && es[j].toolCallId in es[i].Declares()
  {
    assert es[j].toolCallId in Declared(es[..j]);
    var e :| e in es[..j] && es[j].toolCallId in e.Declares();
    i :| 0 <= i < j && es[i] == e;
  }

  lemma PairedIsClosed(es: seq<Event>, indices: set<int>)
    requires DeclaredOnce(es) && Paired(es, indices)
    ensures BatchClosed(es, indices)
  {
    forall i, j | 0 <= i < |es| && 0 <= j < |es| && es[j].Answers() && es[j].toolCallId in es[i].Declares()
      ensures i in indices <==> j in indices
    {
      assert PairedAt(es, indices, j);
      if j !in indices {
        var k :| 0 <= k < j && k !in indices && es[j].toolCallId in es[k].Declares();
        assert k == i;
      }
    }
  }

  /** With each id declared once: exactly when it takes whole batches and standalone events, in any mix. */
  lemma WholeBatchesValidIff(es: seq<Event>, indices: set<int>)
    requires ViewOk(es) && DeclaredOnce(es)
    ensures ViewOk(Removed(es, indices)) <==> BatchClosed(es, indices)
  {
    RemovalValidIff(es, indices);
    if BatchClosed(es, indices) {
      ClosedIsPaired(es, indices);
    }
    if Paired(es, indices) {
      PairedIsClosed(es, indices);
    }
  }

  /** Every tool call carries an id. */
  ghost predicate CallsHaveIds(es: seq<Event>) {
    forall e, tc :: e in es && e.CallsTools() && tc in e.toolCalls.value ==> tc.id.Some?
  }

  lemma {:induction false} BatchFixed(es: seq<Event>, declared: set<Id>, answered: set<Id>)
    requires forall e :: e in es ==> BatchKeeps(e, declared, answered)
    ensures KeepBatches(es, declared, answered) == es
  {
    if es != [] {
      Snoc(es);
      BatchFixed(es[..|es| - 1], declared, answered);
    }
  }

  lemma {:induction false} UniqueFixed(es: seq<Event>)
    requires UniqueOk(es)
    ensures UniqueEnforced(es) == es
  {
    if es != [] {
      Snoc(es);
      var before, e := es[..|es| - 1], es[|es| - 1];
      assert forall i, j :: 0 <= i < j < |before| ==> before[i] == es[i] && before[j] == es[j];
      UniqueFixed(before);
      if e.Answers() {
        ValidReplyIsFirst(es, |es| - 1);
      }
    }
  }

  lemma {:induction false} MatchFixed(es: seq<Event>, declared: set<Id>, answered: set<Id>)
    requires forall e :: e in es && e.IsTool() ==> e.toolCallId in declared
    requires forall e, tc :: e in es && e.CallsTools() && tc in e.toolCalls.value ==>
             tc.id.Some? && tc.id.value in answered
    ensures MatchAll(es, declared, answered) == es
  {
    if es != [] {
      Snoc(es);
      var e := es[|es| - 1];
      MatchFixed(es[..|es| - 1], declared, answered);
      if e.CallsTools() {
        MatchedCallsAll(e.toolCalls.value, answered);
      }
    }
  }

  /** On a valid view whose calls all carry ids, each `enforce` by itself is the identity. */
  lemma EachEnforceFixed(es: seq<Event>)
    requires ViewOk(es) && CallsHaveIds(es)
    ensures BatchEnforced(es) == es && UniqueEnforced(es) == es && MatchEnforced(es) == es
  {
    ValidHasNoBlank(es);
    forall e, tc | e in es && e.CallsTools() && tc in e.toolCalls.value
      ensures tc.id.Some? && tc.id.value in Answered(es)
    {
      assert tc.id.value in e.Declares();
      assert tc.id.value in Declared(es);
    }
    forall e | e in es ensures BatchKeeps(e, Declared(es), Answered(es)) {
      if e.CallsTools() {
        assert e.toolCalls.value[0] in e.toolCalls.value;
        assert e.toolCalls.value[0].id.value in e.ToolCallIds() * Answered(es);
      } else if e.IsTool() {
        assert e.toolCallId in Answered(es);
      }
    }
    BatchFixed(es, Declared(es), Answered(es));
    UniqueFixed(es);
    MatchFixed(es, Declared(es), Answered(es));
  }

  lemma RemovalKeepsIds(es: seq<Event>, indices: set<int>)
    requires CallsHaveIds(es)
    ensures CallsHaveIds(Removed(es, indices))
  {
    assert es[..|es|] == es;
    RemovedMembers(es, indices, |es|);
  }

  /** After removing whole batches and standalone events every `enforce` has nothing to do. */
  lemma ClosedRemovalFixed(es: seq<Event>, indices: set<int>)
    requires ViewOk(es) && CallsHaveIds(es) && BatchClosed(es, indices)
    ensures var kept := Removed(es, indices);
            BatchEnforced(kept) == kept && UniqueEnforced(kept) == kept && MatchEnforced(kept) == kept &&
              Enforced(kept) == kept
  {
    ClosedIsPaired(es, indices);
    PairedRemovalValid(es, indices);
    RemovalKeepsIds(es, indices);
    EachEnforceFixed(Removed(es, indices));
  }

  // ----- manipulation indices -----

  /** The intersection of the four safe sets, past the protected prefix. */
  ghost predicate Manipulable(es: seq<Event>, keepFirst: int, i: int) {
    BatchSafe(es, i) && UniqueSafe(es, i) && MatchSafe(es, i) && LoopSafe(es, i) && i >= keepFirst
  }

  /** The last assistant to declare some id. */
  ghost predicate NewestHead(es: seq<Event>, i: int)
    requires 0 <= i < |es|
  {
    exists t :: t in es[i].Declares() && NotDeclaredAfter(es, i, t)
  }

  ghost predicate NotDeclaredAfter(es: seq<Event>, i: int, t: Id) {
    forall k :: i < k < |es| && 0 <= k ==> t !in es[k].Declares()
  }

  /**
   In a valid view the manipulation indices are the positions past the protected prefix that hold a
   standalone event or the last assistant to declare some id. They hold no reply.
   */
  lemma ManipulableIff(es: seq<Event>, keepFirst: int, i: int)
    requires ViewOk(es)
    ensures Manipulable(es, keepFirst, i) <==>
            1 <= i < |es| && keepFirst <= i && (es[i].Standalone() || (es[i].CallsTools() && NewestHead(es, i)))
  {
    if 1 <= i < |es| {
      ValidHasNoBlank(es);
      if es[i].IsTool() {
        assert es[i] in es;
        ValidReplyIsFirst(es, i);
      } else if es[i].CallsTools() {
        HeadSafeIff(es, i);
      }
    }
  }

  lemma HeadSafeIff(es: seq<Event>, i: int)
    requires ViewOk(es) && 1 <= i < |es| && es[i].CallsTools()
    ensures BatchSafe(es, i) <==> NewestHead(es, i)
    ensures MatchSafe(es, i) <==> NewestHead(es, i)
  {
    forall t | t in es[i].Declares() ensures LastHead(es, |es|, t) == i <==> NotDeclaredAfter(es, i, t) {
      LastHeadIsLast(es, |es|, t);
    }
    forall t | t in es[i].Declares() ensures LastReply(es, |es|, t) != 0 {
      DeclaredAt(es, i, t);
      var j := ReplyTo(es, t);
      var head := HeadBefore(es, j);
      LastReplyIsLast(es, |es|, t);
    }
  }

  lemma ValidReplyIsFirst(es: seq<Event>, i: int)
    requires UniqueOk(es) && 0 <= i < |es| && es[i].Answers()
    ensures es[i].toolCallId !in Answered(es[..i])
  {
    forall t | t in Answered(es[..i]) ensures t != es[i].toolCallId {
      var e :| e in es[..i] && e.Answers() && e.toolCallId == t;
      var k :| 0 <= k < i && es[k] == e;
      assert es[k].toolCallId != es[i].toolCallId;
    }
  }

  /** Every id a removed event declares is still declared by a kept event before its reply. */
  ghost predicate StillCalled(es: seq<Event>, indices: set<int>) {
    forall i, t :: i in indices && 0 <= i < |es| && t in es[i].Declares() ==> CalledBeforeReply(es, indices, t)
  }

  ghost predicate CalledBeforeReply(es: seq<Event>, indices: set<int>, t: Id) {
    exists j :: ReplyAt(es, t, j) && CalledBefore(es, indices, t, j)
  }

  lemma StillCalledIsPaired(es: seq<Event>, indices: set<int>)
    requires ViewOk(es) && forall j :: j in indices && 0 <= j < |es| ==> !es[j].IsTool()
    ensures Paired(es, indices) <==> StillCalled(es, indices)
  {
    if Paired(es, indices) {
      forall i, t | i in indices && 0 <= i < |es| && t in es[i].Declares() ensures CalledBeforeReply(es, indices, t) {
        DeclaredAt(es, i, t);
        var j := ReplyTo(es, t);
        assert PairedAt(es, indices, j);
      }
    }
    if StillCalled(es, indices) {
      forall j | 0 <= j < |es| && es[j].Answers() ensures PairedAt(es, indices, j) {
        StillCalledAt(es, indices, j);
      }
    }
  }

  lemma StillCalledAt(es: seq<Event>, indices: set<int>, j: nat)
    requires BatchOk(es) && UniqueOk(es) && StillCalled(es, indices) && j < |es| && es[j].Answers()
    ensures CalledBefore(es, indices, es[j].toolCallId, j)
  {
    var t := es[j].toolCallId;
    var i := HeadBefore(es, j);
    if i in indices {
      assert CalledBeforeReply(es, indices, t);
      var r :| ReplyAt(es, t, r) && CalledBefore(es, indices, t, r);
      assert r == j;
    }
  }

  /**
   From any valid view, removing manipulation indices without enforcing leaves a valid view exactly
   when every id of a removed assistant is still declared by a kept one before its reply: the
   indices never offer the replies that would otherwise have to go with it.
   */
  lemma ManipulationSafeIff(es: seq<Event>, keepFirst: int, indices: set<int>)
    requires ViewOk(es) && forall i :: i in indices ==> Manipulable(es, keepFirst, i)
    ensures ViewOk(Removed(es, indices)) <==> StillCalled(es, indices)
  {
    forall i | i in indices && 0 <= i < |es| ensures !es[i].IsTool() {
      ManipulableIff(es, keepFirst, i);
    }
    RemovalValidIff(es, indices);
    StillCalledIsPaired(es, indices);
  }

  /** With each id declared once: exactly when no tool-calling assistant is removed. */
  lemma ManipulationSafeOnceIff(es: seq<Event>, keepFirst: int, indices: set<int>)
    requires ViewOk(es) && DeclaredOnce(es) && forall i :: i in indices ==> Manipulable(es, keepFirst, i)
    ensures ViewOk(Removed(es, indices)) <==> forall i :: i in indices && 0 <= i < |es| ==> !es[i].CallsTools()
  {
    ManipulationSafeIff(es, keepFirst, indices);
    if i :| i in indices && 0 <= i < |es| && es[i].CallsTools() {
      ManipulableIff(es, keepFirst, i);
      var t :| t in es[i].Declares() && NotDeclaredAfter(es, i, t);
      NoLongerCalled(es, indices, i, t);
    }
  }

  /** An id declared once is no longer declared when its assistant is removed. */
  lemma NoLongerCalled(es: seq<Event>, indices: set<int>, i: int, t: Id)
    requires DeclaredOnce(es) && i in indices && 0 <= i < |es| && t in es[i].Declares()
    ensures !CalledBeforeReply(es, indices, t)
  {
    forall k | 0 <= k < |es| && t in es[k].Declares() ensures k == i {
    }
  }

  /** A valid view from which removing one offered index leaves an invalid one. */
  lemma ManipulationBreaksView()
    ensures var es := [Plain(), Request("call"), Reply("call")];
            ViewOk(es) && Manipulable(es, 0, 1) && !ViewOk(Removed(es, {1}))
  {
    var es := [Plain(), Request("call"), Reply("call")];
    OneCallView(es);
    assert NotDeclaredAfter(es, 1, Some("call"));
    ManipulableIff(es, 0, 1);
    ManipulationSafeOnceIff(es, 0, {1});
  }

  function Plain(): Event {
    Event("plain", User, Some("hello"), None, None, None)
  }

  lemma OneCallView(es: seq<Event>)
    requires es == [Plain(), Request("call"), Reply("call")]
    ensures ViewOk(es) && DeclaredOnce(es) && es[1].CallsTools() && Some("call") in es[1].Declares()
  {
    RequestDeclares("call");
    assert |"call"| == 4 && es[2].Answers() && Plain().Declares() == {} && Reply("call").Declares() == {};
    assert es[..2] == [Plain()] + [Request("call")] && es == es[..2] + [Reply("call")];
    OneCallIds(es[..2]);
    IdSetsSnoc(es[..2], Reply("call"));
    LoopCheckAlwaysPasses(es, DEFAULT_LOOP_LENGTH);
  }

  lemma OneCallIds(es: seq<Event>)
    requires es == [Plain()] + [Request("call")]
    ensures Declared(es) == {Some("call")} && Answered(es) == {}
  {
    RequestDeclares("call");
    IdSetsSnoc([], Plain());
    IdSetsSnoc([Plain()], Request("call"));
    assert [] + [Plain()] == [Plain()];
  }
}
