/**
 What running the four properties in sequence achieves. The three filters are shown equal to
 one declarative pass (`Canon`), from which validity, idempotence and the kept content follow.
 */
module ViewIntegrity {
  import opened Wrappers
  import opened ViewEvents
  import opened ViewProperties
  import opened ToolLoops

  /** The minimum loop length of the default tool-loop property. */
  const DEFAULT_LOOP_LENGTH := 3

  /** All four default checks accept the list. */
  ghost predicate ViewOk(es: seq<Event>) {
    BatchOk(es) && UniqueOk(es) && MatchOk(es) && LoopOk(es, DEFAULT_LOOP_LENGTH)
  }

  /** The four default `enforce` steps, in order; tool-loop atomicity returns its argument. */
  ghost function Enforced(es: seq<Event>): seq<Event> {
    MatchEnforced(UniqueEnforced(BatchEnforced(es)))
  }

  // ----- the reference: one pass with the ids of the whole list at hand -----

  /** The ids that no reply is counted for: the empty one, and None. */
  ghost function Blanks(ids: set<Id>): set<Id> {
    set t | t in ids && !Truthy(t)
  }

  /** The blank ids declared together with an answered one, so that batch atomicity keeps their replies. */
  ghost function LiveBlanks(es: seq<Event>): set<Id> {
    set e, t | e in es && e.ToolCallIds() * Answered(es) != {} && t in e.Declares() && !Truthy(t) :: t
  }

  /**
   What becomes of the last event of `before + [e]`, a prefix of a list declaring `declared` and
   answering `answered`.
   */
  ghost function CanonStep(before: seq<Event>, e: Event, declared: set<Id>, answered: set<Id>,
                           live: set<Id>): seq<Event>
  {
    if e.IsTool() then
      if e.Answers() then
        if e.toolCallId in declared && e.toolCallId !in Answered(before) then [e] else []
      else if e.toolCallId in live then [e] else []
    else if e.CallsTools() then
      var matched := MatchedCalls(e.toolCalls.value, answered);
      if matched == [] then [] else [e.(toolCalls := Some(matched))]
    else [e]
  }

  ghost function Canon(es: seq<Event>, declared: set<Id>, answered: set<Id>, live: set<Id>): seq<Event> {
    if es == [] then [] else
    var before, e := es[..|es| - 1], es[|es| - 1];
    Canon(before, declared, answered, live) + CanonStep(before, e, declared, answered, live)
  }

  ghost function Canonical(es: seq<Event>): seq<Event> {
    Canon(es, Declared(es), Answered(es), LiveBlanks(es))
  }

  // ----- the three filters equal the one pass -----

  lemma Snoc(es: seq<Event>)
    requires es != []
    ensures es == es[..|es| - 1] + [es[|es| - 1]]
  {
  }

  /** A list of at most one event extends the id sets by that event's ids. */
  lemma IdSetsAppend(a: seq<Event>, out: seq<Event>)
    requires |out| <= 1
    ensures Declared(a + out) == Declared(a) + (if out == [] then {} else out[0].Declares())
    ensures Answered(a + out) == Answered(a) + (if out != [] && out[0].Answers() then {out[0].toolCallId} else {})
  {
    if out == [] {
      assert a + out == a;
    } else {
      assert out == [out[0]];
      IdSetsSnoc(a, out[0]);
    }
  }

  /** The ids left after batch atomicity. */
  lemma {:induction false} BatchIds(es: seq<Event>, declared: set<Id>, answered: set<Id>)
    requires Declared(es) <= declared && Answered(es) <= answered
    ensures Answered(KeepBatches(es, declared, answered)) == Answered(es) * declared
    ensures Declared(es) * answered <= Declared(KeepBatches(es, declared, answered)) <= Declared(es)
  {
    if es != [] {
      var before, e := es[..|es| - 1], es[|es| - 1];
      Snoc(es);
      IdSetsSnoc(before, e);
      BatchIds(before, declared, answered);
      var out := if BatchKeeps(e, declared, answered) then [e] else [];
      KeepBatchesSnoc(before, e, declared, answered);
      IdSetsAppend(KeepBatches(before, declared, answered), out);
    }
  }

  lemma {:induction false} BatchMembers(es: seq<Event>, declared: set<Id>, answered: set<Id>)
    ensures forall e :: e in KeepBatches(es, declared, answered) <==> e in es && BatchKeeps(e, declared, answered)
  {
    if es != [] {
      var before, e := es[..|es| - 1], es[|es| - 1];
      Snoc(es);
      BatchMembers(before, declared, answered);
      KeepBatchesSnoc(before, e, declared, answered);
    }
  }

  lemma UniqueIds(es: seq<Event>)
    ensures Declared(UniqueEnforced(es)) == Declared(es)
    ensures Answered(UniqueEnforced(es)) == Answered(es)
  {
    if es != [] {
      var before, e := es[..|es| - 1], es[|es| - 1];
      Snoc(es);
      IdSetsSnoc(before, e);
      UniqueIds(before);
      IdSetsSnoc(UniqueEnforced(before), e);
    }
  }

  lemma KeepBatchesSnoc(before: seq<Event>, e: Event, declared: set<Id>, answered: set<Id>)
    ensures KeepBatches(before + [e], declared, answered) ==
            KeepBatches(before, declared, answered) + (if BatchKeeps(e, declared, answered) then [e] else [])
  {
    assert (before + [e])[..|before|] == before;
  }

  lemma UniqueSnoc(before: seq<Event>, e: Event)
    ensures UniqueEnforced(before + [e]) ==
            UniqueEnforced(before) + (if e.Answers() && e.toolCallId in Answered(before) then [] else [e])
  {
    assert (before + [e])[..|before|] == before;
  }

  lemma MatchSnoc(before: seq<Event>, e: Event, declared: set<Id>, answered: set<Id>)
    ensures MatchAll(before + [e], declared, answered) ==
            MatchAll(before, declared, answered) + MatchStep(e, declared, answered)
  {
    assert (before + [e])[..|before|] == before;
  }

  /** The chain of filters on a prefix, with the id sets each filter computed from its own whole input. */
  lemma {:induction false} Fused(es: seq<Event>, declared: set<Id>, answered: set<Id>, declared1: set<Id>)
    requires Declared(es) <= declared && Answered(es) <= answered
    requires declared * answered <= declared1 <= declared
    ensures MatchAll(UniqueEnforced(KeepBatches(es, declared, answered)), declared1, answered * declared)
         == Canon(es, declared, answered, Blanks(declared1))
  {
    if es != [] {
      var before, e := es[..|es| - 1], es[|es| - 1];
      Snoc(es);
      IdSetsSnoc(before, e);
      Fused(before, declared, answered, declared1);
      var kept := KeepBatches(before, declared, answered);
      KeepBatchesSnoc(before, e, declared, answered);
      BatchIds(before, declared, answered);
      UniqueSnoc(kept, e);
      MatchSnoc(UniqueEnforced(kept), e, declared1, answered * declared);
      FusedStep(before, e, declared, answered, declared1);
    }
  }

  lemma FusedStep(before: seq<Event>, e: Event, declared: set<Id>, answered: set<Id>, declared1: set<Id>)
    requires e.Declares() <= declared
    requires e.Answers() ==> e.toolCallId in answered
    requires declared * answered <= declared1 <= declared
    ensures CanonStep(before, e, declared, answered, Blanks(declared1)) ==
            if BatchKeeps(e, declared, answered) && !(e.Answers() && e.toolCallId in Answered(before) * declared)
            then MatchStep(e, declared1, answered * declared) else []
  {
    if e.CallsTools() {
      MatchedCallsMembers(e.toolCalls.value, answered);
      MatchedCallsMembers(e.toolCalls.value, answered * declared);
      MatchedSame(e.toolCalls.value, declared, answered);
      assert e.ToolCallIds() * answered == IdsOf(e.toolCalls.value) * answered;
    }
  }

  lemma MatchedSame(calls: seq<ToolCall>, declared: set<Id>, answered: set<Id>)
    requires IdsOf(calls) <= declared
    ensures MatchedCalls(calls, answered * declared) == MatchedCalls(calls, answered)
  {
    if calls != [] {
      var before, tc := calls[..|calls| - 1], calls[|calls| - 1];
      assert calls == before + [tc];
      assert tc in calls;
      assert forall x :: x in before ==> x in calls;
      assert forall t :: t in IdsOf(before) ==> t in IdsOf(calls);
      MatchedSame(before, declared, answered);
      assert tc.id.Some? ==> tc.id.value in IdsOf(calls);
    }
  }

  /** The blank ids that batch atomicity leaves declared are the live ones. */
  lemma BlanksLeft(es: seq<Event>, b: seq<Event>)
    requires forall e :: e in b <==> e in es && BatchKeeps(e, Declared(es), Answered(es))
    ensures Blanks(Declared(b)) == LiveBlanks(es)
  {
    forall t | t in Blanks(Declared(b)) ensures t in LiveBlanks(es) {
      var e :| e in b && t in e.Declares();
      assert BatchKeeps(e, Declared(es), Answered(es));
    }
    forall t | t in LiveBlanks(es) ensures t in Blanks(Declared(b)) {
      var e :| e in es && e.ToolCallIds() * Answered(es) != {} && t in e.Declares();
      assert BatchKeeps(e, Declared(es), Answered(es)) && e in b;
    }
  }

  /** Enforcing the four properties is the one declarative pass. */
  lemma EnforcedIsCanonical(es: seq<Event>)
    ensures Enforced(es) == Canonical(es)
  {
    var declared, answered := Declared(es), Answered(es);
    var b := BatchEnforced(es);
    BatchIds(es, declared, answered);
    UniqueIds(b);
    BatchMembers(es, declared, answered);
    BlanksLeft(es, b);
    Fused(es, declared, answered, Declared(b));
  }

  // ----- validity -----

  lemma CanonSnoc(before: seq<Event>, e: Event, declared: set<Id>, answered: set<Id>, live: set<Id>)
    ensures Canon(before + [e], declared, answered, live) ==
            Canon(before, declared, answered, live) + CanonStep(before, e, declared, answered, live)
  {
    assert (before + [e])[..|before|] == before;
  }

  /** After enforcement exactly the declared-and-answered ids remain, on both sides. */
  lemma {:induction false} CanonIds(es: seq<Event>, declared: set<Id>, answered: set<Id>, live: set<Id>)
    requires Declared(es) <= declared && Answered(es) <= answered
    ensures Declared(Canon(es, declared, answered, live)) == Declared(es) * answered
    ensures Answered(Canon(es, declared, answered, live)) == Answered(es) * declared
  {
    if es != [] {
      var before, e := es[..|es| - 1], es[|es| - 1];
      Snoc(es);
      IdSetsSnoc(before, e);
      CanonIds(before, declared, answered, live);
      CanonStepIds(before, e, declared, answered, live);
      IdSetsAppend(Canon(before, declared, answered, live), CanonStep(before, e, declared, answered, live));
    }
  }

  /** The ids that survive one step: the answered ones of a call, and a reply's id if it is declared and new. */
  lemma CanonStepIds(before: seq<Event>, e: Event, declared: set<Id>, answered: set<Id>, live: set<Id>)
    ensures var out := CanonStep(before, e, declared, answered, live);
            && |out| <= 1
            && (if out == [] then {} else out[0].Declares()) == e.Declares() * answered
            && (if out != [] && out[0].Answers() then {out[0].toolCallId} else {}) ==
               (if e.Answers() && e.toolCallId in declared && e.toolCallId !in Answered(before)
                then {e.toolCallId} else {})
  {
    if e.CallsTools() {
      MatchedCallsMembers(e.toolCalls.value, answered);
      assert e.Declares() == IdsOf(e.toolCalls.value);
    }
  }

  lemma UniqueAppend(a: seq<Event>, e: Event)
    requires UniqueOk(a)
    requires e.Answers() ==> e.toolCallId !in Answered(a)
    ensures UniqueOk(a + [e])
  {
    forall i, j | 0 <= i < j < |a| + 1 && (a + [e])[i].Answers() && (a + [e])[j].Answers()
      ensures (a + [e])[i].toolCallId != (a + [e])[j].toolCallId
    {
      if j == |a| {
        assert a[i] in a;
      }
    }
  }

  lemma {:induction false} CanonUnique(es: seq<Event>, declared: set<Id>, answered: set<Id>, live: set<Id>)
    requires Declared(es) <= declared && Answered(es) <= answered
    ensures UniqueOk(Canon(es, declared, answered, live))
  {
    if es != [] {
      var before, e := es[..|es| - 1], es[|es| - 1];
      Snoc(es);
      IdSetsSnoc(before, e);
      CanonUnique(before, declared, answered, live);
      CanonIds(before, declared, answered, live);
      var out := CanonStep(before, e, declared, answered, live);
      if out != [] {
        UniqueAppend(Canon(before, declared, answered, live), out[0]);
        assert out == [out[0]];
      }
    }
  }

  /** Every reply whose id is declared anywhere comes after an assistant declaring it. */
  ghost predicate RepliesFollowCalls(es: seq<Event>) {
    forall j :: 0 <= j < |es| && es[j].Answers() && es[j].toolCallId in Declared(es) ==>
      es[j].toolCallId in Declared(es[..j])
  }

  /** No reply with a blank id meets an assistant that declares this id and an answered one. */
  ghost predicate NoBlankReply(es: seq<Event>) {
    forall e :: e in es ==> !LiveReply(e, LiveBlanks(es))
  }

  ghost predicate LiveReply(e: Event, live: set<Id>) {
    e.IsBlankReply() && e.toolCallId in live
  }

  /** The two conditions on a prefix, with the id sets of the whole list. */
  ghost predicate OrderedPrefix(es: seq<Event>, declared: set<Id>, live: set<Id>) {
    forall j :: 0 <= j < |es| ==>
      && (es[j].Answers() && es[j].toolCallId in declared ==> es[j].toolCallId in Declared(es[..j]))
      && !LiveReply(es[j], live)
  }

  lemma OrderedSnoc(before: seq<Event>, e: Event, declared: set<Id>, live: set<Id>)
    ensures OrderedPrefix(before + [e], declared, live) <==>
            && OrderedPrefix(before, declared, live)
            && (e.Answers() && e.toolCallId in declared ==> e.toolCallId in Declared(before))
            && !LiveReply(e, live)
  {
    var es := before + [e];
    assert forall j :: 0 <= j < |before| ==> es[j] == before[j] && es[..j] == before[..j];
    assert es[|before|] == e && es[..|before|] == before;
    if OrderedPrefix(es, declared, live) {
      forall j | 0 <= j < |before|
        ensures before[j].Answers() && before[j].toolCallId in declared ==>
                before[j].toolCallId in Declared(before[..j])
        ensures !LiveReply(before[j], live)
      {
        assert es[j] == before[j] && es[..j] == before[..j];
      }
    }
  }

  lemma BatchOkSnoc(a: seq<Event>, out: seq<Event>)
    requires |out| <= 1
    ensures BatchOk(a + out) <==>
            BatchOk(a) && (out != [] && out[0].IsTool() ==> out[0].toolCallId in Declared(a))
  {
    var es := a + out;
    if out == [] {
      assert es == a;
    } else {
      assert es[..|a|] == a && es[|a|] == out[0];
      assert forall j :: 0 <= j < |a| ==> es[j] == a[j] && es[..j] == a[..j];
      if BatchOk(es) {
        forall j | 0 <= j < |a| && a[j].IsTool() ensures a[j].toolCallId in Declared(a[..j]) {
          assert es[j] == a[j] && es[..j] == a[..j];
        }
      }
    }
  }

  /** A reply dropped as a repeat is no worse placed than the reply it repeats. */
  lemma RepeatFollows(es: seq<Event>, declared: set<Id>, live: set<Id>, t: Id)
    requires OrderedPrefix(es, declared, live) && t in Answered(es) && t in declared
    ensures t in Declared(es)
  {
    var e :| e in es && e.Answers() && e.toolCallId == t;
    var j :| 0 <= j < |es| && es[j] == e;
    IdSetsMonotone(es, j);
  }

  lemma {:induction false} CanonBatchOk(es: seq<Event>, declared: set<Id>, answered: set<Id>, live: set<Id>)
    requires Declared(es) <= declared && Answered(es) <= answered && forall t :: t in answered ==> Truthy(t)
    ensures BatchOk(Canon(es, declared, answered, live)) <==> OrderedPrefix(es, declared, live)
  {
    if es != [] {
      var before, e := es[..|es| - 1], es[|es| - 1];
      Snoc(es);
      IdSetsSnoc(before, e);
      CanonBatchOk(before, declared, answered, live);
      CanonIds(before, declared, answered, live);
      OrderedSnoc(before, e, declared, live);
      var out := CanonStep(before, e, declared, answered, live);
      BatchOkSnoc(Canon(before, declared, answered, live), out);
      if OrderedPrefix(before, declared, live) && e.Answers() && e.toolCallId in declared &&
         e.toolCallId in Answered(before)
      {
        RepeatFollows(before, declared, live, e.toolCallId);
      }
    }
  }

  /** Enforcement leaves a valid view exactly when every reply that has a call follows it and no blank reply is live. */
  lemma EnforceValidIff(es: seq<Event>)
    ensures ViewOk(Enforced(es)) <==> RepliesFollowCalls(es) && NoBlankReply(es)
  {
    EnforcedIsCanonical(es);
    var declared, answered, live := Declared(es), Answered(es), LiveBlanks(es);
    CanonIds(es, declared, answered, live);
    CanonUnique(es, declared, answered, live);
    LoopCheckAlwaysPasses(Enforced(es), DEFAULT_LOOP_LENGTH);
    CanonBatchOk(es, declared, answered, live);
  }

  // ----- what is kept -----

  /** System, user and plain assistant events, in order. */
  ghost function Standalones(es: seq<Event>): seq<Event> {
    if es == [] then [] else
    Standalones(es[..|es| - 1]) + (if es[|es| - 1].Standalone() then [es[|es| - 1]] else [])
  }

  lemma StandalonesAppend(a: seq<Event>, out: seq<Event>)
    requires |out| <= 1
    ensures Standalones(a + out) == Standalones(a) + (if out != [] && out[0].Standalone() then out else [])
  {
    if out == [] {
      assert a + out == a;
    } else {
      assert (a + out)[..|a|] == a;
    }
  }

  lemma {:induction false} CanonStandalones(es: seq<Event>, declared: set<Id>, answered: set<Id>, live: set<Id>)
    ensures Standalones(Canon(es, declared, answered, live)) == Standalones(es)
  {
    if es != [] {
      var before, e := es[..|es| - 1], es[|es| - 1];
      CanonStandalones(before, declared, answered, live);
      CanonStepStandalone(before, e, declared, answered, live);
      StandalonesAppend(Canon(before, declared, answered, live), CanonStep(before, e, declared, answered, live));
    }
  }

  /** A step outputs a standalone event exactly when it is given one, unchanged. */
  lemma CanonStepStandalone(before: seq<Event>, e: Event, declared: set<Id>, answered: set<Id>, live: set<Id>)
    ensures var out := CanonStep(before, e, declared, answered, live);
            |out| <= 1 && (if out != [] && out[0].Standalone() then out else []) == if e.Standalone() then [e] else []
  {
  }

  lemma {:induction false} CanonReplies(es: seq<Event>, declared: set<Id>, answered: set<Id>, live: set<Id>, e: Event)
    requires e.Answers()
    ensures e in Canon(es, declared, answered, live) <==>
            e.toolCallId in declared && exists j :: 0 <= j < |es| && es[j] == e && e.toolCallId !in Answered(es[..j])
  {
    if es != [] {
      var before, last := es[..|es| - 1], es[|es| - 1];
      CanonReplies(before, declared, answered, live, e);
      assert forall j :: 0 <= j < |before| ==> es[j] == before[j] && es[..j] == before[..j];
      if e in Canon(es, declared, answered, live) && e !in Canon(before, declared, answered, live) {
        assert es[|es| - 1] == e;
      }
    }
  }

  /**
   Enforcement keeps exactly the call ids that were both declared and answered, every standalone
   event in its original order, and of the non-empty replies exactly the first one to each such id.
   */
  lemma EnforceKeeps(es: seq<Event>)
    ensures Declared(Enforced(es)) == Answered(Enforced(es)) == Declared(es) * Answered(es)
    ensures Standalones(Enforced(es)) == Standalones(es)
    ensures forall e: Event :: e.Answers() ==>
              (e in Enforced(es) <==>
               e.toolCallId in Declared(es) &&
               exists j :: 0 <= j < |es| && es[j] == e && e.toolCallId !in Answered(es[..j]))
  {
    EnforcedIsCanonical(es);
    var declared, answered, live := Declared(es), Answered(es), LiveBlanks(es);
    CanonIds(es, declared, answered, live);
    CanonStandalones(es, declared, answered, live);
    forall e: Event | e.Answers()
      ensures e in Enforced(es) <==>
               e.toolCallId in Declared(es) &&
               exists j :: 0 <= j < |es| && es[j] == e && e.toolCallId !in Answered(es[..j])
    {
      CanonReplies(es, declared, answered, live, e);
    }
  }

  // ----- enforcing twice -----

  ghost function WithoutBlankReplies(es: seq<Event>): (r: seq<Event>)
    ensures |r| <= |es|
    ensures |r| == |es| ==> r == es && forall e :: e in es ==> !e.IsBlankReply()
    ensures (forall e :: e in es ==> !e.IsBlankReply()) ==> r == es
  {
    if es == [] then [] else
    WithoutBlankReplies(es[..|es| - 1]) + (if es[|es| - 1].IsBlankReply() then [] else [es[|es| - 1]])
  }

  lemma MatchedTwice(calls: seq<ToolCall>, answered: set<Id>, both: set<Id>)
    requires IdsOf(calls) * answered <= both
    ensures MatchedCalls(MatchedCalls(calls, answered), both) == MatchedCalls(calls, answered)
  {
    MatchedCallsMembers(calls, answered);
    var matched := MatchedCalls(calls, answered);
    forall tc | tc in matched ensures tc.id.Some? && tc.id.value in both {
      assert tc.id.value in IdsOf(calls);
    }
    MatchedCallsAll(matched, both);
  }

  /** What a second pass makes of the output of the first. */
  lemma CanonStepTwice(before: seq<Event>, prior: seq<Event>, e: Event, declared: set<Id>, answered: set<Id>,
                       live: set<Id>)
    requires e.Declares() <= declared
    requires e.Answers() ==> e.toolCallId in answered
    requires Answered(prior) == Answered(before) * declared
    ensures var out := CanonStep(before, e, declared, answered, live);
            out != [] ==>
              out == [out[0]] &&
              CanonStep(prior, out[0], declared * answered, declared * answered, {}) ==
              if out[0].IsBlankReply() then [] else out
  {
    if e.CallsTools() {
      assert e.Declares() == IdsOf(e.toolCalls.value);
      MatchedTwice(e.toolCalls.value, answered, declared * answered);
    }
  }

  /** A second pass over a canonical list only drops its blank replies. */
  lemma {:induction false} CanonTwice(es: seq<Event>, declared: set<Id>, answered: set<Id>, live: set<Id>)
    requires Declared(es) <= declared && Answered(es) <= answered && forall t :: t in answered ==> Truthy(t)
    ensures Canon(Canon(es, declared, answered, live), declared * answered, declared * answered, {}) ==
            WithoutBlankReplies(Canon(es, declared, answered, live))
  {
    if es != [] {
      var before, e := es[..|es| - 1], es[|es| - 1];
      Snoc(es);
      IdSetsSnoc(before, e);
      CanonTwice(before, declared, answered, live);
      CanonIds(before, declared, answered, live);
      var prior, out := Canon(before, declared, answered, live), CanonStep(before, e, declared, answered, live);
      if out == [] {
        assert prior + out == prior;
      } else {
        CanonStepTwice(before, prior, e, declared, answered, live);
        CanonSnoc(prior, out[0], declared * answered, declared * answered, {});
        assert (prior + out)[..|prior|] == prior;
      }
    }
  }

  /** The blank replies kept are the live ones. */
  lemma {:induction false} CanonBlank(es: seq<Event>, declared: set<Id>, answered: set<Id>, live: set<Id>, x: Event)
    ensures x in Canon(es, declared, answered, live) && x.IsBlankReply() <==> x in es && LiveReply(x, live)
  {
    if es != [] {
      var before, e := es[..|es| - 1], es[|es| - 1];
      Snoc(es);
      CanonBlank(before, declared, answered, live, x);
      assert x in es <==> x in before || x == e;
    }
  }

  /** Once every declared id is an answered one, no blank id is live. */
  lemma NoneLive(es: seq<Event>)
    requires Declared(es) == Answered(es)
    ensures LiveBlanks(es) == {}
  {
    forall e, t | e in es && t in e.Declares() ensures Truthy(t) {
      assert t in Declared(es);
    }
  }

  lemma SecondPass(es: seq<Event>)
    ensures Enforced(Enforced(es)) == WithoutBlankReplies(Enforced(es))
  {
    EnforcedIsCanonical(es);
    var once := Enforced(es);
    EnforcedIsCanonical(once);
    CanonIds(es, Declared(es), Answered(es), LiveBlanks(es));
    NoneLive(once);
    CanonTwice(es, Declared(es), Answered(es), LiveBlanks(es));
    assert Declared(es) * Answered(es) == Answered(once) == Declared(once);
  }

  /** Enforcing a second time changes nothing exactly when no blank reply is live. */
  lemma EnforceIdempotentIff(es: seq<Event>)
    ensures Enforced(Enforced(es)) == Enforced(es) <==> NoBlankReply(es)
  {
    SecondPass(es);
    EnforcedIsCanonical(es);
    forall e ensures e in Enforced(es) && e.IsBlankReply() <==> e in es && LiveReply(e, LiveBlanks(es)) {
      CanonBlank(es, Declared(es), Answered(es), LiveBlanks(es), e);
    }
    assert Enforced(Enforced(es)) == Enforced(es) <==> forall e :: e in Enforced(es) ==> !e.IsBlankReply();
  }

  // ----- inputs on which the documented promises fail -----

  function Reply(id: string): Event {
    Event("reply", Tool, Some("ok"), None, Some(id), Some("bash"))
  }

  function Request(id: string): Event {
    Event("request", Assistant, None, Some([ToolCall(Some(Some(id)), "bash", "")]), None, None)
  }

  lemma RequestDeclares(id: string)
    ensures Request(id).CallsTools() && Request(id).Declares() == {Some(id)}
  {
    var tc := ToolCall(Some(Some(id)), "bash", "");
    assert tc in [tc];
  }

  /** Index 0 can be removed: an unanswered call goes although it comes first. */
  lemma FirstEventRemoved()
    ensures Enforced([Request("call")]) == []
  {
    var es := [Request("call")];
    RequestDeclares("call");
    EnforcedIsCanonical(es);
    IdSetsSnoc([], es[0]);
    assert [] + es == es && Answered(es) == {};
    MatchedCallsMembers(es[0].toolCalls.value, {});
    assert es[..0] == [] && Canon(es[..0], Declared(es), {}, LiveBlanks(es)) == [];
  }

  /** A reply that comes before its only call survives enforcement, and the view stays invalid. */
  lemma EarlyReplySurvives()
    ensures !ViewOk(Enforced([Reply("call"), Request("call")]))
  {
    var es := [Reply("call"), Request("call")];
    var tc := ToolCall(Some(Some("call")), "bash", "");
    assert es[1] in es && es[1].CallsTools() && tc in es[1].toolCalls.value;
    assert Some("call") in es[1].Declares() && Some("call") in Declared(es);
    assert es[0].Answers() && es[..0] == [];
    assert !RepliesFollowCalls(es);
    EnforceValidIff(es);
  }

  /** A reply without an id survives next to a call whose id is None, and the view stays invalid. */
  lemma NullReplySurvives()
    ensures !ViewOk(Enforced(NullReply()))
  {
    var es := NullReply();
    var first, unnamed := ToolCall(Some(Some("call")), "bash", ""), ToolCall(Some(None), "bash", "");
    assert es[0] in es && es[1] in es && es[2] in es && es[0].CallsTools();
    var calls := es[0].toolCalls.value;
    assert calls[0] == first && calls[1] == unnamed && first in calls && unnamed in calls;
    assert Some("call") in IdsOf(calls) && None in IdsOf(calls);
    assert es[0].Declares() == IdsOf(calls);
    assert es[1] == Reply("call") && |"call"| == 4 && es[1].Answers();
    assert es[1].toolCallId in Answered(es) && es[1].toolCallId in es[0].ToolCallIds() * Answered(es);
    var both := es[0].ToolCallIds() * Answered(es);
    assert both != {} && None in es[0].Declares() && !Truthy(None);
    assert es[2].toolCallId in LiveBlanks(es) && LiveReply(es[2], LiveBlanks(es));
    EnforceValidIff(es);
  }

  function NullReply(): seq<Event> {
    var calls := [ToolCall(Some(Some("call")), "bash", ""), ToolCall(Some(None), "bash", "")];
    [Event("request", Assistant, None, Some(calls), None, None),
     Reply("call"),
     Event("stray", Tool, Some("ok"), None, None, Some("bash"))]
  }

  ghost predicate DistinctIds(es: seq<Event>) {
    forall i, j :: 0 <= i < j < |es| ==> es[i].id != es[j].id
  }

  /** Event `e` is what the pass makes of position `j`. */
  ghost predicate ComesFrom(es: seq<Event>, declared: set<Id>, answered: set<Id>, live: set<Id>, e: Event, j: int) {
    0 <= j < |es| && e.id == es[j].id && e in CanonStep(es[..j], es[j], declared, answered, live)
  }

  /** Every event that enforcement leaves comes, under its id, from one place of the list. */
  lemma {:induction false} CanonOrigin(es: seq<Event>, declared: set<Id>, answered: set<Id>, live: set<Id>, e: Event)
      returns (j: nat)
    requires e in Canon(es, declared, answered, live)
    ensures ComesFrom(es, declared, answered, live, e, j)
  {
    var before := es[..|es| - 1];
    if e in Canon(before, declared, answered, live) {
      j := CanonOrigin(before, declared, answered, live, e);
      assert before[..j] == es[..j] && before[j] == es[j];
    } else {
      j := |es| - 1;
    }
  }

  lemma {:induction false} CanonKeepsFirst(es: seq<Event>, declared: set<Id>, answered: set<Id>, live: set<Id>)
    requires es != []
    ensures CanonStep([], es[0], declared, answered, live) <= Canon(es, declared, answered, live)
  {
    var before := es[..|es| - 1];
    if before == [] {
      assert Canon(before, declared, answered, live) == [];
    } else {
      CanonKeepsFirst(before, declared, answered, live);
      assert before[0] == es[0];
    }
  }

  /**
   The first event is said never to be removed. With distinct event ids it is kept exactly when it
   is no tool message and its calls, if any, have an answer, or is the reply to a declared call.
   */
  lemma FirstEventKeptIff(es: seq<Event>)
    requires es != [] && DistinctIds(es)
    ensures (exists e :: e in Enforced(es) && e.id == es[0].id) <==>
            || es[0].Standalone()
            || (es[0].CallsTools() && es[0].ToolCallIds() * Answered(es) != {})
            || (es[0].Answers() && es[0].toolCallId in Declared(es))
            || LiveReply(es[0], LiveBlanks(es))
  {
    EnforcedIsCanonical(es);
    var declared, answered, live := Declared(es), Answered(es), LiveBlanks(es);
    var out := CanonStep([], es[0], declared, answered, live);
    CanonKeepsFirst(es, declared, answered, live);
    if es[0].CallsTools() {
      MatchedCallsMembers(es[0].toolCalls.value, answered);
    }
    if out != [] {
      assert out[0] in Enforced(es) && out[0].id == es[0].id;
    }
    if e :| e in Enforced(es) && e.id == es[0].id {
      var j := CanonOrigin(es, declared, answered, live, e);
      assert j == 0 && es[..0] == [];
    }
  }
}
