/** The items of a context view, and the id sets the structural properties talk about. */
module ViewEvents {
  import opened Wrappers

  datatype Role = System | User | Assistant | Tool | Custom(text: string)

  /** A call id as the source holds it: a string, or Python's None. */
  type Id = Option<string>

  predicate Truthy(id: Id) {
    id.Some? && id.value != ""
  }

  /** One serialised tool call; its dict may lack the `id` key, and the key may hold None. */
  datatype ToolCall = ToolCall(id: Option<Id>, name: string, arguments: string)

  function IdsOf(calls: seq<ToolCall>): set<Id> {
    set tc | tc in calls && tc.id.Some? :: tc.id.value
  }

  datatype Event = Event(id: string, role: Role, content: Option<string>, toolCalls: Option<seq<ToolCall>>,
                         toolCallId: Id, name: Option<string>)
  {
    predicate IsTool() { role == Tool }

    predicate IsAssistant() { role == Assistant }

    predicate HasToolCalls() { toolCalls.Some? && toolCalls.value != [] }

    /** An assistant message that opens a batch. */
    predicate CallsTools() { IsAssistant() && HasToolCalls() }

    /** Neither a reply nor the head of a batch. */
    predicate Standalone() { !IsTool() && !CallsTools() }

    /** A reply whose id is truthy: the ones the uniqueness and matching checks count. */
    predicate Answers() { IsTool() && Truthy(toolCallId) }

    /** A reply that carries the empty id, or none. */
    predicate IsBlankReply() { IsTool() && !Truthy(toolCallId) }

    /** A tool event whose name is truthy. */
    predicate IsNamedTool() { IsTool() && name.Some? && name.value != "" }

    function ToolCallIds(): set<Id> {
      if HasToolCalls() then IdsOf(toolCalls.value) else {}
    }

    /** The call ids this event declares as an assistant. */
    function Declares(): set<Id> {
      if CallsTools() then ToolCallIds() else {}
    }
  }

  /** Every call id some assistant in `es` declares. */
  ghost function Declared(es: seq<Event>): set<Id> {
    set e, t | e in es && t in e.Declares() :: t
  }

  /** Every truthy id some tool event in `es` answers. */
  ghost function Answered(es: seq<Event>): set<Id> {
    set e | e in es && e.Answers() :: e.toolCallId
  }

  lemma DeclaredConcat(a: seq<Event>, b: seq<Event>)
    ensures Declared(a + b) == Declared(a) + Declared(b)
  {
    assert forall e :: e in a + b <==> e in a || e in b;
  }

  lemma AnsweredConcat(a: seq<Event>, b: seq<Event>)
    ensures Answered(a + b) == Answered(a) + Answered(b)
  {
    assert forall e :: e in a + b <==> e in a || e in b;
  }

  /** Extending a list by one event extends its two id sets by that event's ids. */
  lemma IdSetsSnoc(a: seq<Event>, e: Event)
    ensures Declared(a + [e]) == Declared(a) + e.Declares()
    ensures Answered(a + [e]) == Answered(a) + (if e.Answers() then {e.toolCallId} else {})
  {
    DeclaredConcat(a, [e]);
    AnsweredConcat(a, [e]);
    assert forall t :: t in Declared([e]) <==> t in e.Declares() by {
      assert e in [e];
    }
    assert e in [e];
  }

  /** The same step on the prefixes of one list. */
  lemma IdSetsPrefix(es: seq<Event>, i: nat)
    requires i < |es|
    ensures Declared(es[..i + 1]) == Declared(es[..i]) + es[i].Declares()
    ensures Answered(es[..i + 1]) == Answered(es[..i]) + (if es[i].Answers() then {es[i].toolCallId} else {})
  {
    assert es[..i + 1] == es[..i] + [es[i]];
    IdSetsSnoc(es[..i], es[i]);
  }

  lemma IdSetsMonotone(es: seq<Event>, i: nat)
    requires i <= |es|
    ensures Declared(es[..i]) <= Declared(es)
    ensures Answered(es[..i]) <= Answered(es)
  {
    assert forall e :: e in es[..i] ==> e in es;
  }
}
