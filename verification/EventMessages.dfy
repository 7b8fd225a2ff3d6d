/**
 Turning the event stream into chat messages: consecutive actions of one model response become a
 single assistant message, every other event one message of its own.
 */
module EventMessages {
  import opened Wrappers

  datatype Call = Call(id: string, name: string, arguments: string)

  datatype Event =
    | Action(responseId: Option<string>, call: Call, text: Option<string>)
    | SystemPrompt(content: string)
    | UserMessage(role: string, content: string)
    | Observation(callId: string, toolName: string, content: string)
    | Rejection(callId: string, toolName: string, reason: string)
  {
    /** A result event: it becomes a message of role tool. */
    predicate Replies() { Observation? || Rejection? }
  }

  datatype Message = Message(role: string, content: Option<string>, toolCalls: seq<Call>, toolCallId: Option<string>,
                             name: Option<string>)

  function ToMessage(e: Event): Message {
    match e
    case Action(_, call, text) => Message("assistant", text, [call], None, None)
    case SystemPrompt(content) => Message("system", Some(content), [], None, None)
    case UserMessage(role, content) => Message(role, Some(content), [], None, None)
    case Observation(callId, toolName, content) => Message("tool", Some(content), [], Some(callId), Some(toolName))
    case Rejection(callId, toolName, reason) =>
      Message("tool", Some("REJECTED: " + reason), [], Some(callId), Some(toolName))
  }

  // ----- the reference: runs of one response -----

  /** The event belongs to the response `rid`. */
  predicate OfResponse(e: Event, rid: string) {
    e.Action? && e.responseId == Some(rid)
  }

  /** Where the run of the response `rid` that reaches `i` ends. */
  function RunEnd(es: seq<Event>, i: nat, rid: string): (k: nat)
    requires i <= |es|
    ensures i <= k <= |es|
    ensures forall x :: i <= x < k ==> OfResponse(es[x], rid)
    ensures k < |es| ==> !OfResponse(es[k], rid)
    decreases |es| - i
  {
    if i < |es| && OfResponse(es[i], rid) then RunEnd(es, i + 1, rid) else i
  }

  function CallsOf(batch: seq<Event>): seq<Call> {
    if batch == [] then [] else
    CallsOf(batch[..|batch| - 1]) + (if batch[|batch| - 1].Action? then [batch[|batch| - 1].call] else [])
  }

  /** The first non-empty text of the batch. */
  function FirstText(batch: seq<Event>): Option<string> {
    if batch == [] then None else
    var before, last := FirstText(batch[..|batch| - 1]), batch[|batch| - 1];
    if before.None? && last.Action? && last.text.Some? && last.text.value != "" then last.text else before
  }

  function Merge(batch: seq<Event>): Message {
    Message("assistant", FirstText(batch), CallsOf(batch), None, None)
  }

  predicate Batched(e: Event) {
    e.Action? && e.responseId.Some?
  }

  /** Where the group that starts at `i` ends: a whole run of one response, or a single event. */
  function GroupEnd(es: seq<Event>, i: nat): (k: nat)
    requires i < |es|
    ensures i < k <= |es|
  {
    if Batched(es[i]) then RunEnd(es, i, es[i].responseId.value) else i + 1
  }

  function GroupMessage(es: seq<Event>, i: nat): Message
    requires i < |es|
  {
    if Batched(es[i]) then Merge(es[i..GroupEnd(es, i)]) else ToMessage(es[i])
  }

  /** The messages of the groups from `i` on. */
  function ConvertFrom(es: seq<Event>, i: nat): seq<Message>
    requires i <= |es|
    decreases |es| - i
  {
    if i == |es| then [] else [GroupMessage(es, i)] + ConvertFrom(es, GroupEnd(es, i))
  }

  function Convert(es: seq<Event>): seq<Message> {
    ConvertFrom(es, 0)
  }

  method MergeBatch(batch: seq<Event>) returns (merged: Message)
    requires forall i :: 0 <= i < |batch| ==> batch[i].Action?
    ensures merged == Merge(batch)
  {
    var toolCalls: seq<Call>, assistantContent: Option<string> := [], None;
    for i := 0 to |batch|
      invariant toolCalls == CallsOf(batch[..i]) && assistantContent == FirstText(batch[..i])
    {
      assert batch[..i + 1][..i] == batch[..i];
      var message := ToMessage(batch[i]);
      toolCalls := toolCalls + message.toolCalls;
      if assistantContent.None? && message.content.Some? && message.content.value != "" {
        assistantContent := message.content;
      }
    }
    assert batch[..|batch|] == batch;
    return Message("assistant", assistantContent, toolCalls, None, None);
  }

  /** The inner loop: the whole run of one response from `start`. */
  method TakeRun(events: seq<Event>, start: nat, rid: string) returns (batch: seq<Event>, i: nat)
    requires start <= |events|
    ensures i == RunEnd(events, start, rid) && batch == events[start..i]
  {
    batch, i := [], start;
    while i < |events| && OfResponse(events[i], rid)
      invariant start <= i <= |events| && batch == events[start..i]
      invariant RunEnd(events, i, rid) == RunEnd(events, start, rid)
    {
      batch := batch + [events[i]];
      i := i + 1;
    }
  }

  /** A group that starts with a batched action holds actions only. */
  lemma GroupActions(es: seq<Event>, i: nat)
    requires i < |es| && Batched(es[i])
    ensures forall x :: i <= x < GroupEnd(es, i) ==> es[x].Action?
  {
    forall x | i <= x < GroupEnd(es, i) ensures es[x].Action? {
      assert OfResponse(es[x], es[i].responseId.value);
    }
  }

  /** One pass of the outer loop: the message of the group at `start`, and where the next group begins. */
  method NextMessage(events: seq<Event>, start: nat) returns (message: Message, i: nat)
    requires start < |events|
    ensures i == GroupEnd(events, start) && message == GroupMessage(events, start)
  {
    var event := events[start];
    if event.Action? && event.responseId.Some? {
      var batch;
      batch, i := TakeRun(events, start, event.responseId.value);
      GroupActions(events, start);
      message := MergeBatch(batch);
    } else {
      message, i := ToMessage(event), start + 1;
    }
  }

  /** What is still to be converted from position `i` on. */
  ghost predicate Todo(events: seq<Event>, i: nat, messages: seq<Message>) {
    i <= |events| && messages + ConvertFrom(events, i) == Convert(events)
  }

  lemma NextGroup(events: seq<Event>, start: nat, messages: seq<Message>)
    requires start < |events| && Todo(events, start, messages)
    ensures Todo(events, GroupEnd(events, start), messages + [GroupMessage(events, start)])
  {
    Regroup(messages, GroupMessage(events, start), ConvertFrom(events, GroupEnd(events, start)));
  }

  lemma Regroup(messages: seq<Message>, m: Message, tail: seq<Message>)
    ensures messages + [m] + tail == messages + ([m] + tail)
  {
  }

  method EventsToMessages(events: seq<Event>) returns (messages: seq<Message>)
    ensures messages == Convert(events)
  {
    messages := [];
    var i := 0;
    while i < |events|
      invariant Todo(events, i, messages)
      decreases |events| - i
    {
      var message, next := NextMessage(events, i);
      NextGroup(events, i, messages);
      messages := messages + [message];
      i := next;
    }
  }

  // ----- where each event ends up -----

  /** Event `i` joins the message of event `i - 1`. */
  predicate Continues(es: seq<Event>, i: int) {
    && 0 < i < |es|
    && es[i].Action? && es[i - 1].Action? && es[i].responseId.Some? && es[i].responseId == es[i - 1].responseId
  }

  /** The number of the message event `i` goes to. */
  function Slot(es: seq<Event>, i: nat): nat {
    if i == 0 then 0 else Slot(es, i - 1) + if Continues(es, i) then 0 else 1
  }

  /** The first event of the message event `i` goes to. */
  function Head(es: seq<Event>, i: nat): (h: nat)
    ensures h <= i
  {
    if Continues(es, i) then Head(es, i - 1) else i
  }

  /** The events of a group share its slot and its head. */
  lemma {:induction false} GroupSlots(es: seq<Event>, i: nat, j: nat)
    requires i < |es| && !Continues(es, i) && i <= j < GroupEnd(es, i)
    ensures Slot(es, j) == Slot(es, i) && Head(es, j) == i
  {
    if i < j {
      assert OfResponse(es[j], es[i].responseId.value) && OfResponse(es[j - 1], es[i].responseId.value);
      GroupSlots(es, i, j - 1);
    }
  }

  /** The event after a group starts the next one. */
  lemma NextSlot(es: seq<Event>, i: nat)
    requires i < |es| && !Continues(es, i)
    ensures var k := GroupEnd(es, i); k < |es| ==> !Continues(es, k) && Slot(es, k) == Slot(es, i) + 1
  {
    var k := GroupEnd(es, i);
    if k < |es| {
      if Batched(es[i]) {
        assert OfResponse(es[k - 1], es[i].responseId.value);
      }
      GroupSlots(es, i, k - 1);
    }
  }

  /** One message per group: from a group on, the output is as long as the last slot says. */
  lemma {:induction false} LengthFrom(es: seq<Event>, i: nat)
    requires i < |es| && !Continues(es, i)
    ensures |ConvertFrom(es, i)| == Slot(es, |es| - 1) - Slot(es, i) + 1
    decreases |es| - i
  {
    var k := GroupEnd(es, i);
    NextSlot(es, i);
    if k < |es| {
      LengthFrom(es, k);
    } else {
      GroupSlots(es, i, k - 1);
    }
  }

  lemma ConvertLength(es: seq<Event>)
    requires es != []
    ensures |Convert(es)| == Slot(es, |es| - 1) + 1
  {
    LengthFrom(es, 0);
  }

  lemma {:induction false} CallsOfAt(batch: seq<Event>, i: nat)
    requires i < |batch| && forall k :: 0 <= k < |batch| ==> batch[k].Action?
    ensures |CallsOf(batch)| == |batch| && CallsOf(batch)[i] == batch[i].call
  {
    if |batch| > 1 {
      CallsOfAt(batch[..|batch| - 1], if i < |batch| - 1 then i else 0);
    }
  }

  /**
   Message `m` is where event `i` goes: an action's call stands as far from the front as the action
   is from the head of its run, and an event that is not a batched action is the whole message.
   */
  ghost predicate IsPlaced(es: seq<Event>, i: nat, m: Message)
    requires i < |es|
  {
    match es[i]
    case Action(responseId, call, text) =>
      && m.role == "assistant" && m.toolCallId == None && m.name == None
      && i - Head(es, i) < |m.toolCalls| && m.toolCalls[i - Head(es, i)] == call
      && (responseId == None ==> m.toolCalls == [call] && m.content == text)
    case SystemPrompt(content) => m == Message("system", Some(content), [], None, None)
    case UserMessage(role, content) => m == Message(role, Some(content), [], None, None)
    case Observation(callId, toolName, content) =>
      m == Message("tool", Some(content), [], Some(callId), Some(toolName))
    case Rejection(callId, toolName, reason) =>
      m == Message("tool", Some("REJECTED: " + reason), [], Some(callId), Some(toolName))
  }

  lemma PlacedInGroup(es: seq<Event>, h: nat, i: nat)
    requires h < |es| && !Continues(es, h) && h <= i < GroupEnd(es, h)
    ensures IsPlaced(es, i, GroupMessage(es, h))
  {
    GroupSlots(es, h, i);
    if Batched(es[h]) {
      assert OfResponse(es[i], es[h].responseId.value);
      GroupActions(es, h);
      CallsOfAt(es[h..GroupEnd(es, h)], i - h);
    }
  }

  /** The group of event `i` and its message. */
  lemma {:induction false} GroupFrom(es: seq<Event>, h: nat, i: nat) returns (g: nat)
    requires h < |es| && !Continues(es, h) && h <= i < |es|
    ensures g < |es| && !Continues(es, g) && g <= i < GroupEnd(es, g) && Slot(es, i) == Slot(es, g)
    ensures 0 <= Slot(es, i) - Slot(es, h) < |ConvertFrom(es, h)|
    ensures ConvertFrom(es, h)[Slot(es, i) - Slot(es, h)] == GroupMessage(es, g)
    decreases |es| - h
  {
    var k := GroupEnd(es, h);
    if i < k {
      GroupSlots(es, h, i);
      g := h;
    } else {
      NextSlot(es, h);
      g := GroupFrom(es, k, i);
    }
  }

  /** Every event is found where its slot says. */
  lemma EventPlaced(es: seq<Event>, i: nat)
    requires i < |es|
    ensures Slot(es, i) < |Convert(es)|
    ensures IsPlaced(es, i, Convert(es)[Slot(es, i)])
  {
    var g := GroupFrom(es, 0, i);
    PlacedInGroup(es, g, i);
  }

  lemma CallInGroup(es: seq<Event>, h: nat, c: nat) returns (i: nat)
    requires h < |es| && !Continues(es, h) && c < |GroupMessage(es, h).toolCalls|
    ensures h <= i < |es| && Slot(es, i) == Slot(es, h) && es[i].Action? && i == Head(es, i) + c &&
            es[i].call == GroupMessage(es, h).toolCalls[c]
  {
    i := h;
    if Batched(es[h]) {
      var batch := es[h..GroupEnd(es, h)];
      GroupActions(es, h);
      CallsOfAt(batch, 0);
      CallsOfAt(batch, c);
      i := h + c;
    }
    GroupSlots(es, h, i);
  }

  lemma {:induction false} CallTracedFrom(es: seq<Event>, h: nat, p: nat, c: nat) returns (i: nat)
    requires h < |es| && !Continues(es, h) && p < |ConvertFrom(es, h)| && c < |ConvertFrom(es, h)[p].toolCalls|
    ensures h <= i < |es| && Slot(es, i) == Slot(es, h) + p && es[i].Action? && i == Head(es, i) + c &&
            es[i].call == ConvertFrom(es, h)[p].toolCalls[c]
    decreases |es| - h
  {
    if p == 0 {
      i := CallInGroup(es, h, c);
    } else {
      NextSlot(es, h);
      i := CallTracedFrom(es, GroupEnd(es, h), p - 1, c);
    }
  }

  /** Conversely every call of every message is that of the action as far from the head of the run in that slot. */
  lemma CallTraced(es: seq<Event>, p: nat, c: nat) returns (i: nat)
    requires p < |Convert(es)| && c < |Convert(es)[p].toolCalls|
    ensures i < |es| && Slot(es, i) == p && es[i].Action? && i == Head(es, i) + c
    ensures es[i].call == Convert(es)[p].toolCalls[c]
  {
    i := CallTracedFrom(es, 0, p, c);
  }

  lemma {:induction false} ReplyTracedFrom(es: seq<Event>, h: nat, p: nat) returns (i: nat)
    requires h < |es| && !Continues(es, h) && p < |ConvertFrom(es, h)| && ConvertFrom(es, h)[p].toolCallId.Some?
    ensures h <= i < |es| && Slot(es, i) == Slot(es, h) + p && es[i].Replies() &&
            ConvertFrom(es, h)[p] == ToMessage(es[i])
    decreases |es| - h
  {
    if p == 0 {
      i := h;
    } else {
      NextSlot(es, h);
      i := ReplyTracedFrom(es, GroupEnd(es, h), p - 1);
    }
  }

  /** And every message with a reply id is the message of a result event in that slot. */
  lemma ReplyTraced(es: seq<Event>, p: nat) returns (i: nat)
    requires p < |Convert(es)| && Convert(es)[p].toolCallId.Some?
    ensures i < |es| && Slot(es, i) == p && es[i].Replies() && Convert(es)[p] == ToMessage(es[i])
  {
    i := ReplyTracedFrom(es, 0, p);
  }

  // ----- the text of a merged message -----

  /** The event is an action with a text. */
  predicate Speaks(e: Event) {
    e.Action? && e.text.Some? && e.text.value != ""
  }

  lemma {:induction false} FirstTextIs(batch: seq<Event>, i: nat)
    requires i <= |batch| && forall j :: 0 <= j < i ==> !Speaks(batch[j])
    ensures i == |batch| ==> FirstText(batch) == None
    ensures i < |batch| && Speaks(batch[i]) ==> FirstText(batch) == batch[i].text
  {
    if batch != [] {
      var before := batch[..|batch| - 1];
      FirstTextIs(before, if i < |before| then i else |before|);
    }
  }

  /** The events before `i` in its slot have no text. */
  ghost predicate SilentBefore(es: seq<Event>, i: nat)
    requires i < |es|
  {
    forall j :: 0 <= j < i && Slot(es, j) == Slot(es, i) ==> !Speaks(es[j])
  }

  ghost predicate Silent(es: seq<Event>, slot: nat) {
    forall j :: 0 <= j < |es| && Slot(es, j) == slot ==> !Speaks(es[j])
  }

  lemma FirstTextOf(es: seq<Event>, g: nat, k: nat, i: nat)
    requires g <= i <= k <= |es| && forall j :: g <= j < i ==> !Speaks(es[j])
    ensures i == k ==> FirstText(es[g..k]) == None
    ensures i < k && Speaks(es[i]) ==> FirstText(es[g..k]) == es[i].text
  {
    var batch := es[g..k];
    assert forall j :: 0 <= j < i - g ==> batch[j] == es[g + j];
    FirstTextIs(batch, i - g);
  }

  lemma SilentInGroup(es: seq<Event>, g: nat, i: nat, j: nat)
    requires g < |es| && !Continues(es, g) && g <= j < GroupEnd(es, g) && g <= i < GroupEnd(es, g)
    requires (j < i && SilentBefore(es, i)) || Silent(es, Slot(es, i))
    ensures !Speaks(es[j])
  {
    GroupSlots(es, g, i);
    GroupSlots(es, g, j);
  }

  lemma TextInGroup(es: seq<Event>, g: nat, i: nat)
    requires g < |es| && !Continues(es, g) && Batched(es[g]) && g <= i < GroupEnd(es, g)
    ensures Speaks(es[i]) && SilentBefore(es, i) ==> GroupMessage(es, g).content == es[i].text
    ensures Silent(es, Slot(es, i)) ==> GroupMessage(es, g).content == None
  {
    var k := GroupEnd(es, g);
    if Speaks(es[i]) && SilentBefore(es, i) {
      forall j | g <= j < i ensures !Speaks(es[j]) {
        SilentInGroup(es, g, i, j);
      }
      FirstTextOf(es, g, k, i);
    }
    if Silent(es, Slot(es, i)) {
      forall j | g <= j < k ensures !Speaks(es[j]) {
        SilentInGroup(es, g, i, j);
      }
      FirstTextOf(es, g, k, k);
    }
  }

  /** The message of a run has the text of the first of its actions that has one, and none if none has. */
  lemma TextPlaced(es: seq<Event>, i: nat)
    requires i < |es| && es[i].Action? && es[i].responseId.Some?
    ensures Slot(es, i) < |Convert(es)|
    ensures Speaks(es[i]) && SilentBefore(es, i) ==> Convert(es)[Slot(es, i)].content == es[i].text
    ensures Silent(es, Slot(es, i)) ==> Convert(es)[Slot(es, i)].content == None
  {
    var g := GroupFrom(es, 0, i);
    if i > g {
      assert Batched(es[g]);
    }
    TextInGroup(es, g, i);
  }

  // ----- conservation and order -----

  function AllCalls(ms: seq<Message>): seq<Call> {
    if ms == [] then [] else ms[0].toolCalls + AllCalls(ms[1..])
  }

  lemma {:induction false} CallsConcat(a: seq<Event>, b: seq<Event>)
    ensures CallsOf(a + b) == CallsOf(a) + CallsOf(b)
  {
    if b == [] {
      assert a + b == a;
    } else {
      assert (a + b)[..|a + b| - 1] == a + b[..|b| - 1];
      CallsConcat(a, b[..|b| - 1]);
    }
  }

  lemma AllCallsCons(m: Message, tail: seq<Message>)
    ensures AllCalls([m] + tail) == m.toolCalls + AllCalls(tail)
  {
    assert ([m] + tail)[1..] == tail;
  }

  lemma GroupCalls(es: seq<Event>, i: nat)
    requires i < |es|
    ensures GroupMessage(es, i).toolCalls == CallsOf(es[i..GroupEnd(es, i)])
  {
    if !Batched(es[i]) {
      assert es[i..i + 1] == [es[i]] && [es[i]][..0] == [] && CallsOf([]) == [];
    }
  }

  lemma {:induction false} CallsConservedFrom(es: seq<Event>, i: nat)
    requires i <= |es|
    ensures AllCalls(ConvertFrom(es, i)) == CallsOf(es[i..])
    decreases |es| - i
  {
    if i < |es| {
      var k := GroupEnd(es, i);
      CallsConservedFrom(es, k);
      CallsConcat(es[i..k], es[k..]);
      assert es[i..] == es[i..k] + es[k..];
      AllCallsCons(GroupMessage(es, i), ConvertFrom(es, k));
      GroupCalls(es, i);
    }
  }

  /** Reading off the tool calls of the messages gives the calls of the actions, each once and in order. */
  lemma CallsConserved(es: seq<Event>)
    ensures AllCalls(Convert(es)) == CallsOf(es)
  {
    CallsConservedFrom(es, 0);
    assert es[0..] == es;
  }

  lemma {:induction false} SlotMonotone(es: seq<Event>, i: nat, j: nat)
    requires i <= j < |es|
    ensures Slot(es, i) <= Slot(es, j)
    ensures i < j && !es[j].Action? ==> Slot(es, i) < Slot(es, j)
  {
    if i < j {
      SlotMonotone(es, i, j - 1);
    }
  }

  /** Every result event comes after an action with its call id. */
  ghost predicate ResultsFollowActions(es: seq<Event>) {
    forall j :: 0 <= j < |es| && es[j].Replies() ==> CalledBefore(es, es[j].callId, j)
  }

  ghost predicate CalledBefore(es: seq<Event>, id: string, j: int) {
    exists i :: 0 <= i < j && i < |es| && es[i].Action? && es[i].call.id == id
  }

  /** Every tool message comes after a message that declares its call. */
  ghost predicate RepliesFollowCalls(ms: seq<Message>) {
    forall q :: 0 <= q < |ms| && ms[q].toolCallId.Some? ==> DeclaredBefore(ms, ms[q].toolCallId.value, q)
  }

  ghost predicate DeclaredBefore(ms: seq<Message>, id: string, q: int) {
    exists p, c :: 0 <= p < q && p < |ms| && 0 <= c < |ms[p].toolCalls| && ms[p].toolCalls[c].id == id
  }

  /**
   The messages respect the order of calls and replies exactly when the events do: batching never
   breaks or mends it.
   */
  lemma OrderKeptIff(es: seq<Event>)
    ensures RepliesFollowCalls(Convert(es)) <==> ResultsFollowActions(es)
  {
    var ms := Convert(es);
    if ResultsFollowActions(es) {
      forall q | 0 <= q < |ms| && ms[q].toolCallId.Some? ensures DeclaredBefore(ms, ms[q].toolCallId.value, q) {
        var j := ReplyTraced(es, q);
        assert CalledBefore(es, es[j].callId, j);
        var i :| 0 <= i < j && es[i].Action? && es[i].call.id == es[j].callId;
        EventPlaced(es, i);
        SlotMonotone(es, i, j);
        assert ms[Slot(es, i)].toolCalls[i - Head(es, i)].id == es[j].callId;
      }
    }
    if RepliesFollowCalls(ms) {
      forall j | 0 <= j < |es| && es[j].Replies() ensures CalledBefore(es, es[j].callId, j) {
        EventPlaced(es, j);
        var q := Slot(es, j);
        assert DeclaredBefore(ms, es[j].callId, q);
        var p, c :| 0 <= p < q && 0 <= c < |ms[p].toolCalls| && ms[p].toolCalls[c].id == es[j].callId;
        var i := CallTraced(es, p, c);
        if j <= i {
          SlotMonotone(es, j, i);
        }
        assert i < j;
      }
    }
  }
}
