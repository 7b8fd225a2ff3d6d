/**
 The structural properties of a context view: `check` and `enforce` of batch atomicity,
 observation uniqueness and tool-call matching. Each loop of the source is a method proved
 against a specification function; module ViewIntegrity proves what those functions promise.
 */
module ViewProperties {
  import opened Wrappers
  import opened ViewEvents

  // ----- what the checks accept -----

  /** Every tool event answers a call declared earlier in the list. */
  ghost predicate BatchOk(es: seq<Event>) {
    forall j :: 0 <= j < |es| && es[j].IsTool() ==>
      es[j].toolCallId in Declared(es[..j])
  }

  /** No two replies share a non-empty id. */
  ghost predicate UniqueOk(es: seq<Event>) {
    forall i, j :: 0 <= i < j < |es| && es[i].Answers() && es[j].Answers() ==>
      es[i].toolCallId != es[j].toolCallId
  }

  /** The declared ids and the answered ids are the same set. */
  ghost predicate MatchOk(es: seq<Event>) {
    Declared(es) == Answered(es)
  }

  method BatchCheck(events: seq<Event>) returns (ok: bool)
    ensures ok <==> BatchOk(events)
  {
    var activeCallIds: set<Id> := {};
    for i := 0 to |events|
      invariant activeCallIds == Declared(events[..i])
      invariant forall j :: 0 <= j < i && events[j].IsTool() ==>
        events[j].toolCallId in Declared(events[..j])
    {
      var event := events[i];
      IdSetsPrefix(events, i);
      if event.CallsTools() {
        activeCallIds := activeCallIds + event.ToolCallIds();
      } else if event.IsAssistant() {
      } else if event.IsTool() {
        if event.toolCallId !in activeCallIds {
          return false;
        }
      }
    }
    return true;
  }

  method UniqueCheck(events: seq<Event>) returns (ok: bool)
    ensures ok <==> UniqueOk(events)
  {
    var seen: set<Id> := {};
    for i := 0 to |events|
      invariant seen == Answered(events[..i])
      invariant UniqueOk(events[..i])
    {
      var event := events[i];
      IdSetsPrefix(events, i);
      if event.Answers() {
        if event.toolCallId in seen {
          return false;
        }
        seen := seen + {event.toolCallId};
      }
    }
    assert events[..|events|] == events;
    return true;
  }

  method CollectIds(events: seq<Event>) returns (declared: set<Id>, answered: set<Id>)
    ensures declared == Declared(events)
    ensures answered == Answered(events)
  {
    declared, answered := {}, {};
    for i := 0 to |events|
      invariant declared == Declared(events[..i])
      invariant answered == Answered(events[..i])
    {
      var event := events[i];
      IdSetsPrefix(events, i);
      if event.CallsTools() {
        declared := declared + event.ToolCallIds();
      }
      if event.Answers() {
        answered := answered + {event.toolCallId};
      }
    }
    assert events[..|events|] == events;
  }

  method MatchCheck(events: seq<Event>) returns (ok: bool)
    ensures ok <==> MatchOk(events)
  {
    var declared, answered := CollectIds(events);
    return declared == answered;
  }

  // ----- what the enforcers return -----

  /** Batch atomicity keeps `e`, given the ids declared and answered anywhere in the list. */
  predicate BatchKeeps(e: Event, declared: set<Id>, answered: set<Id>) {
    if e.IsTool() then e.toolCallId in declared
    else if e.CallsTools() then e.ToolCallIds() * answered != {}
    else true
  }

  function KeepBatches(es: seq<Event>, declared: set<Id>, answered: set<Id>): seq<Event> {
    if es == [] then [] else
    var e, kept := es[|es| - 1], KeepBatches(es[..|es| - 1], declared, answered);
    if BatchKeeps(e, declared, answered) then kept + [e] else kept
  }

  ghost function BatchEnforced(es: seq<Event>): seq<Event> {
    KeepBatches(es, Declared(es), Answered(es))
  }

  /** All events but the replies that repeat an id answered earlier. */
  ghost function UniqueEnforced(es: seq<Event>): seq<Event> {
    if es == [] then [] else
    var e, before := es[|es| - 1], es[..|es| - 1];
    if e.Answers() && e.toolCallId in Answered(before) then UniqueEnforced(before)
    else UniqueEnforced(before) + [e]
  }

  /** The calls whose id was answered. */
  function MatchedCalls(calls: seq<ToolCall>, answered: set<Id>): seq<ToolCall> {
    if calls == [] then [] else
    var tc, kept := calls[|calls| - 1], MatchedCalls(calls[..|calls| - 1], answered);
    if tc.id.Some? && tc.id.value in answered then kept + [tc] else kept
  }

  /** What tool-call matching makes of one event: the event, a stripped copy, or nothing. */
  function MatchStep(e: Event, declared: set<Id>, answered: set<Id>): seq<Event> {
    if e.CallsTools() then
      var matched := MatchedCalls(e.toolCalls.value, answered);
      if matched != [] then [e.(toolCalls := Some(matched))]
      else if e.content.Some? && e.content.value != "" then [e.(toolCalls := None)]
      else []
    else if e.IsTool() then
      if e.toolCallId in declared then [e] else []
    else [e]
  }

  function MatchAll(es: seq<Event>, declared: set<Id>, answered: set<Id>): seq<Event> {
    if es == [] then [] else
    MatchAll(es[..|es| - 1], declared, answered) + MatchStep(es[|es| - 1], declared, answered)
  }

  ghost function MatchEnforced(es: seq<Event>): seq<Event> {
    MatchAll(es, Declared(es), Answered(es))
  }

  method EnforceBatches(events: seq<Event>) returns (result: seq<Event>)
    ensures result == BatchEnforced(events)
  {
    var declared, answered := CollectIds(events);
    result := [];
    for i := 0 to |events|
      invariant result == KeepBatches(events[..i], declared, answered)
    {
      var event := events[i];
      assert events[..i + 1][..i] == events[..i];
      if event.IsTool() {
        if event.toolCallId in declared {
          result := result + [event];
        }
      } else if event.CallsTools() {
        var hasResponse := exists tcId :: tcId in event.ToolCallIds() && tcId in answered;
        var both := event.ToolCallIds() * answered;
        assert hasResponse <==> both != {} by {
          if both != {} {
            var t :| t in both;
            assert t in event.ToolCallIds() && t in answered;
          }
          assert forall t :: t in event.ToolCallIds() && t in answered ==> t in both;
        }
        if hasResponse {
          result := result + [event];
        }
      } else {
        result := result + [event];
      }
    }
    assert events[..|events|] == events;
  }

  method EnforceUnique(events: seq<Event>) returns (result: seq<Event>)
    ensures result == UniqueEnforced(events)
  {
    var seen: set<Id> := {};
    result := [];
    for i := 0 to |events|
      invariant seen == Answered(events[..i])
      invariant result == UniqueEnforced(events[..i])
    {
      var event := events[i];
      IdSetsPrefix(events, i);
      assert events[..i + 1][..i] == events[..i];
      if event.Answers() {
        if event.toolCallId in seen {
          continue;
        }
        seen := seen + {event.toolCallId};
      }
      result := result + [event];
    }
    assert events[..|events|] == events;
  }

  method KeepAnsweredCalls(calls: seq<ToolCall>, answered: set<Id>) returns (matched: seq<ToolCall>)
    ensures matched == MatchedCalls(calls, answered)
  {
    matched := [];
    for i := 0 to |calls|
      invariant matched == MatchedCalls(calls[..i], answered)
    {
      assert calls[..i + 1][..i] == calls[..i];
      if calls[i].id.Some? && calls[i].id.value in answered {
        matched := matched + [calls[i]];
      }
    }
    assert calls[..|calls|] == calls;
  }

  method EnforceMatching(events: seq<Event>) returns (result: seq<Event>)
    ensures result == MatchEnforced(events)
  {
    var declared, answered := CollectIds(events);
    result := [];
    for i := 0 to |events|
      invariant result == MatchAll(events[..i], declared, answered)
    {
      var event := events[i];
      assert events[..i + 1][..i] == events[..i];
      if event.CallsTools() {
        var matched := KeepAnsweredCalls(event.toolCalls.value, answered);
        if matched != [] {
          result := result + [event.(toolCalls := Some(matched))];
        } else if event.content.Some? && event.content.value != "" {
          result := result + [event.(toolCalls := None)];
        }
      } else if event.IsTool() {
        if event.toolCallId in declared {
          result := result + [event];
        }
      } else {
        result := result + [event];
      }
    }
    assert events[..|events|] == events;
  }

  // ----- the specification functions, event by event -----

  lemma MatchedCallsMembers(calls: seq<ToolCall>, answered: set<Id>)
    ensures forall tc :: tc in MatchedCalls(calls, answered) <==>
              tc in calls && tc.id.Some? && tc.id.value in answered
    ensures IdsOf(MatchedCalls(calls, answered)) == IdsOf(calls) * answered
    ensures MatchedCalls(calls, answered) != [] <==> IdsOf(calls) * answered != {}
  {
    if calls != [] {
      MatchedCallsMembers(calls[..|calls| - 1], answered);
      assert calls == calls[..|calls| - 1] + [calls[|calls| - 1]];
    }
    var matched := MatchedCalls(calls, answered);
    assert forall tc :: tc in matched <==> tc in calls && tc.id.Some? && tc.id.value in answered;
    assert IdsOf(matched) == IdsOf(calls) * answered;
    if matched != [] {
      assert matched[0] in matched;
      assert matched[0].id.value in IdsOf(calls) * answered;
    }
  }

  /** Filtering calls that are all answered changes nothing. */
  lemma MatchedCallsAll(calls: seq<ToolCall>, answered: set<Id>)
    requires forall tc :: tc in calls ==> tc.id.Some? && tc.id.value in answered
    ensures MatchedCalls(calls, answered) == calls
  {
    if calls != [] {
      assert calls == calls[..|calls| - 1] + [calls[|calls| - 1]];
      assert calls[|calls| - 1] in calls;
      MatchedCallsAll(calls[..|calls| - 1], answered);
    }
  }
}
