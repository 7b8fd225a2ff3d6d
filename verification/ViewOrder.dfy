/**
 The three filters, each alone and the enforcement they make together, position by position: which
 events they leave, in which order, and which of its calls an assistant keeps.
 */
module ViewOrder {
  import opened Wrappers
  import opened ViewEvents
  import opened ViewProperties
  import opened ViewIntegrity
  import opened ViewRemoval

  // ----- the calls of one assistant -----

  /** The list `ks` names the positions of the calls whose id is answered, in order. */
  ghost predicate AnsweredAt(calls: seq<ToolCall>, answered: set<Id>, ks: seq<nat>) {
    Increasing(ks) && forall k: nat :: k in ks <==> k < |calls| && calls[k].id.Some? && calls[k].id.value in answered
  }

  ghost predicate CallsAt(calls: seq<ToolCall>, ks: seq<nat>, kept: seq<ToolCall>) {
    |kept| == |ks| && forall i :: 0 <= i < |ks| ==> ks[i] < |calls| && kept[i] == calls[ks[i]]
  }

  lemma CallsSnoc(before: seq<ToolCall>, tc: ToolCall, ks: seq<nat>, kept: seq<ToolCall>)
    requires CallsAt(before, ks, kept)
    ensures CallsAt(before + [tc], ks, kept) && CallsAt(before + [tc], ks + [|before|], kept + [tc])
  {
  }

  /** The kept calls are the answered ones, each where it stood among the others. */
  lemma {:induction false} MatchedCallsInOrder(calls: seq<ToolCall>, answered: set<Id>) returns (ks: seq<nat>)
    ensures AnsweredAt(calls, answered, ks) && CallsAt(calls, ks, MatchedCalls(calls, answered))
  {
    ks := [];
    if calls != [] {
      var before, tc := calls[..|calls| - 1], calls[|calls| - 1];
      assert calls == before + [tc];
      ks := MatchedCallsInOrder(before, answered);
      CallsSnoc(before, tc, ks, MatchedCalls(before, answered));
      if tc.id.Some? && tc.id.value in answered {
        LastPosition(ks, |before|);
        ks := ks + [|before|];
      }
    }
  }

  /** Some call of the assistant is answered. */
  ghost predicate HasAnswer(e: Event, answered: set<Id>) {
    e.toolCalls.Some? &&
    exists tc :: tc in e.toolCalls.value && tc.id.Some? && tc.id.value in answered
  }

  /** The event `out` is the assistant `e` with its answered calls, in order, and nothing else changed. */
  ghost predicate KeepsAnswered(e: Event, answered: set<Id>, out: Event) {
    && e.toolCalls.Some? && out.toolCalls.Some? && out == e.(toolCalls := out.toolCalls)
    && exists ks :: AnsweredAt(e.toolCalls.value, answered, ks) && CallsAt(e.toolCalls.value, ks, out.toolCalls.value)
  }

  lemma AnswerIff(e: Event, answered: set<Id>)
    requires e.CallsTools()
    ensures HasAnswer(e, answered) <==> e.ToolCallIds() * answered != {}
    ensures HasAnswer(e, answered) <==> MatchedCalls(e.toolCalls.value, answered) != []
  {
    MatchedCallsMembers(e.toolCalls.value, answered);
    var matched := MatchedCalls(e.toolCalls.value, answered);
    assert matched != [] ==> matched[0] in matched;
    if tc :| tc in e.toolCalls.value && tc.id.Some? && tc.id.value in answered {
      assert tc in matched;
    }
  }

  lemma MatchedKeeps(e: Event, answered: set<Id>)
    requires e.CallsTools()
    ensures KeepsAnswered(e, answered, e.(toolCalls := Some(MatchedCalls(e.toolCalls.value, answered))))
  {
    var ks := MatchedCallsInOrder(e.toolCalls.value, answered);
  }

  // ----- each filter alone -----

  /** The events `out` are those of `es` at the positions `ks`. */
  ghost predicate EventsAt(es: seq<Event>, ks: seq<nat>, out: seq<Event>) {
    |out| == |ks| && forall i :: 0 <= i < |ks| ==> ks[i] < |es| && out[i] == es[ks[i]]
  }

  lemma EventsSnoc(before: seq<Event>, e: Event, ks: seq<nat>, out: seq<Event>)
    requires EventsAt(before, ks, out)
    ensures EventsAt(before + [e], ks, out) && EventsAt(before + [e], ks + [|before|], out + [e])
  {
  }

  /** Batch atomicity leaves the replies to declared ids, the assistants with an answered call, and the rest. */
  ghost predicate BatchLeaves(e: Event, declared: set<Id>, answered: set<Id>) {
    if e.role == Tool then e.toolCallId in declared
    else if e.role == Assistant && e.toolCalls.Some? && e.toolCalls.value != [] then HasAnswer(e, answered)
    else true
  }

  lemma {:induction false} KeepBatchesInOrder(es: seq<Event>, declared: set<Id>, answered: set<Id>)
      returns (ks: seq<nat>)
    ensures Increasing(ks) && forall k: nat :: k in ks <==> k < |es| && BatchLeaves(es[k], declared, answered)
    ensures EventsAt(es, ks, KeepBatches(es, declared, answered))
  {
    ks := [];
    if es != [] {
      var before, e := es[..|es| - 1], es[|es| - 1];
      Snoc(es);
      ks := KeepBatchesInOrder(before, declared, answered);
      EventsSnoc(before, e, ks, KeepBatches(before, declared, answered));
      if e.CallsTools() {
        AnswerIff(e, answered);
      }
      if BatchKeeps(e, declared, answered) {
        LastPosition(ks, |before|);
        ks := ks + [|before|];
      }
    }
  }

  /** What batch atomicity returns. */
  lemma BatchesInOrder(es: seq<Event>) returns (ks: seq<nat>)
    ensures Increasing(ks) && forall k: nat :: k in ks <==> k < |es| && BatchLeaves(es[k], Declared(es), Answered(es))
    ensures EventsAt(es, ks, BatchEnforced(es))
  {
    ks := KeepBatchesInOrder(es, Declared(es), Answered(es));
  }

  /** A reply that repeats an earlier one's id. */
  ghost predicate Repeats(es: seq<Event>, k: nat) {
    && k < |es| && es[k].role == Tool && es[k].toolCallId.Some? && es[k].toolCallId.value != ""
    && exists j :: 0 <= j < k && es[j].role == Tool && es[j].toolCallId == es[k].toolCallId
  }

  lemma RepeatsIff(es: seq<Event>, k: nat)
    requires k < |es|
    ensures Repeats(es, k) <==> es[k].Answers() && es[k].toolCallId in Answered(es[..k])
  {
    if Repeats(es, k) {
      var j :| 0 <= j < k && es[j].role == Tool && es[j].toolCallId == es[k].toolCallId;
      assert es[j] in es[..k] && es[j].Answers();
    }
    if es[k].Answers() && es[k].toolCallId in Answered(es[..k]) {
      var e :| e in es[..k] && e.Answers() && e.toolCallId == es[k].toolCallId;
      var j :| 0 <= j < k && es[..k][j] == e;
      assert es[j] == e;
    }
  }

  lemma RepeatsPrefix(before: seq<Event>, e: Event)
    ensures forall k :: 0 <= k < |before| ==> (Repeats(before + [e], k) <==> Repeats(before, k))
  {
    forall k: nat | k < |before| ensures Repeats(before + [e], k) <==> Repeats(before, k) {
      assert (before + [e])[..k] == before[..k];
      RepeatsIff(before, k);
      RepeatsIff(before + [e], k);
    }
  }

  /** What observation uniqueness returns: all events but the repeats. */
  lemma {:induction false} UniqueInOrder(es: seq<Event>) returns (ks: seq<nat>)
    ensures Increasing(ks) && forall k: nat :: k in ks <==> k < |es| && !Repeats(es, k)
    ensures EventsAt(es, ks, UniqueEnforced(es))
  {
    ks := [];
    if es != [] {
      var before, e := es[..|es| - 1], es[|es| - 1];
      Snoc(es);
      ks := UniqueInOrder(before);
      EventsSnoc(before, e, ks, UniqueEnforced(before));
      RepeatsPrefix(before, e);
      RepeatsIff(es, |before|);
      if !Repeats(es, |before|) {
        LastPosition(ks, |before|);
        ks := ks + [|before|];
      }
    }
  }

  /** Tool-call matching leaves something of the event. */
  ghost predicate MatchLeaves(e: Event, declared: set<Id>, answered: set<Id>) {
    if e.role == Tool then e.toolCallId in declared
    else if e.role == Assistant && e.toolCalls.Some? && e.toolCalls.value != [] then
      HasAnswer(e, answered) || (e.content.Some? && e.content.value != "")
    else true
  }

  /** An assistant keeps its answered calls or, when there are none, its content only; the rest stays as it is. */
  ghost predicate MatchMakes(e: Event, answered: set<Id>, out: Event) {
    if e.role == Assistant && e.toolCalls.Some? && e.toolCalls.value != [] then
      if HasAnswer(e, answered) then KeepsAnswered(e, answered, out) else out == e.(toolCalls := None)
    else out == e
  }

  lemma MatchStepIs(e: Event, declared: set<Id>, answered: set<Id>)
    ensures MatchLeaves(e, declared, answered) <==> MatchStep(e, declared, answered) != []
    ensures MatchLeaves(e, declared, answered) ==>
              |MatchStep(e, declared, answered)| == 1 && MatchMakes(e, answered, MatchStep(e, declared, answered)[0])
  {
    if e.CallsTools() {
      AnswerIff(e, answered);
      MatchedKeeps(e, answered);
    }
  }

  ghost predicate MatchedAt(es: seq<Event>, answered: set<Id>, ks: seq<nat>, out: seq<Event>) {
    |out| == |ks| && forall i :: 0 <= i < |ks| ==> ks[i] < |es| && MatchMakes(es[ks[i]], answered, out[i])
  }

  lemma MatchedSnoc(before: seq<Event>, e: Event, answered: set<Id>, ks: seq<nat>, out: seq<Event>)
    requires MatchedAt(before, answered, ks, out)
    ensures MatchedAt(before + [e], answered, ks, out)
    ensures forall x :: MatchMakes(e, answered, x) ==>
              MatchedAt(before + [e], answered, ks + [|before|], out + [x])
  {
  }

  lemma {:induction false} MatchAllInOrder(es: seq<Event>, declared: set<Id>, answered: set<Id>)
      returns (ks: seq<nat>)
    ensures Increasing(ks) && forall k: nat :: k in ks <==> k < |es| && MatchLeaves(es[k], declared, answered)
    ensures MatchedAt(es, answered, ks, MatchAll(es, declared, answered))
  {
    ks := [];
    if es != [] {
      var before, e := es[..|es| - 1], es[|es| - 1];
      Snoc(es);
      ks := MatchAllInOrder(before, declared, answered);
      MatchSnoc(before, e, declared, answered);
      MatchedSnoc(before, e, answered, ks, MatchAll(before, declared, answered));
      MatchStepIs(e, declared, answered);
      if MatchLeaves(e, declared, answered) {
        assert MatchStep(e, declared, answered) == [MatchStep(e, declared, answered)[0]];
        LastPosition(ks, |before|);
        ks := ks + [|before|];
      }
    }
  }

  /** What tool-call matching returns. */
  lemma MatchedInOrder(es: seq<Event>) returns (ks: seq<nat>)
    ensures Increasing(ks) && forall k: nat :: k in ks <==> k < |es| && MatchLeaves(es[k], Declared(es), Answered(es))
    ensures MatchedAt(es, Answered(es), ks, MatchEnforced(es))
  {
    ks := MatchAllInOrder(es, Declared(es), Answered(es));
  }

  // ----- the enforcement -----

  /** Enforcement leaves something of the event at `k`. */
  ghost predicate Survives(es: seq<Event>, k: nat)
    requires k < |es|
  {
    var e := es[k];
    if e.Answers() then e.toolCallId in Declared(es) && !Repeats(es, k)
    else if e.IsBlankReply() then LiveReply(e, LiveBlanks(es))
    else if e.CallsTools() then HasAnswer(e, Answered(es))
    else true
  }

  /** The event at `k` itself or, if it calls tools, that assistant with its answered calls only. */
  ghost predicate StandsFor(es: seq<Event>, k: nat, out: Event)
    requires k < |es|
  {
    if es[k].CallsTools() then KeepsAnswered(es[k], Answered(es), out) else out == es[k]
  }

  lemma CanonStepIs(es: seq<Event>, k: nat)
    requires k < |es|
    ensures var step := CanonStep(es[..k], es[k], Declared(es), Answered(es), LiveBlanks(es));
            && (Survives(es, k) <==> step != [])
            && (Survives(es, k) ==> |step| == 1 && StandsFor(es, k, step[0]))
  {
    var e := es[k];
    RepeatsIff(es, k);
    if e.CallsTools() {
      AnswerIff(e, Answered(es));
      MatchedKeeps(e, Answered(es));
    }
  }

  ghost predicate EnforcedAt(es: seq<Event>, ks: seq<nat>, out: seq<Event>) {
    |out| == |ks| && forall i :: 0 <= i < |ks| ==> ks[i] < |es| && StandsFor(es, ks[i], out[i])
  }

  lemma EnforcedSnoc(es: seq<Event>, ks: seq<nat>, out: seq<Event>, k: nat, x: Event)
    requires EnforcedAt(es, ks, out) && k < |es| && StandsFor(es, k, x)
    ensures EnforcedAt(es, ks + [k], out + [x])
  {
  }

  lemma {:induction false} CanonInOrder(es: seq<Event>, n: nat) returns (ks: seq<nat>)
    requires n <= |es|
    ensures Increasing(ks) && forall k: nat :: k in ks <==> k < n && Survives(es, k)
    ensures EnforcedAt(es, ks, Canon(es[..n], Declared(es), Answered(es), LiveBlanks(es)))
  {
    ks := [];
    if n > 0 {
      var k := n - 1;
      assert es[..n] == es[..k] + [es[k]];
      ks := CanonInOrder(es, k);
      CanonSnoc(es[..k], es[k], Declared(es), Answered(es), LiveBlanks(es));
      CanonStepIs(es, k);
      if Survives(es, k) {
        var out, step := Canon(es[..k], Declared(es), Answered(es), LiveBlanks(es)),
                         CanonStep(es[..k], es[k], Declared(es), Answered(es), LiveBlanks(es));
        assert step == [step[0]];
        EnforcedSnoc(es, ks, out, k, step[0]);
        LastPosition(ks, k);
        ks := ks + [k];
      }
    }
  }

  /**
   Enforcement leaves the surviving events in their order, each unchanged but for the unanswered
   calls of an assistant, whose other calls keep their order.
   */
  lemma EnforcedInOrder(es: seq<Event>) returns (ks: seq<nat>)
    ensures Increasing(ks) && forall k: nat :: k in ks <==> k < |es| && Survives(es, k)
    ensures EnforcedAt(es, ks, Enforced(es))
  {
    EnforcedIsCanonical(es);
    ks := CanonInOrder(es, |es|);
    assert es[..|es|] == es;
  }

  // ----- removal -----

  /** Removing indices leaves the events at all others, in order. */
  lemma {:induction false} RemovedInOrder(es: seq<Event>, indices: set<int>) returns (ks: seq<nat>)
    ensures Increasing(ks) && forall k: nat :: k in ks <==> k < |es| && k !in indices
    ensures EventsAt(es, ks, Removed(es, indices))
  {
    ks := [];
    if es != [] {
      var before, e := es[..|es| - 1], es[|es| - 1];
      Snoc(es);
      ks := RemovedInOrder(before, indices);
      EventsSnoc(before, e, ks, Removed(before, indices));
      if |before| !in indices {
        LastPosition(ks, |before|);
        ks := ks + [|before|];
      }
    }
  }
}
