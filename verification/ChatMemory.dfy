/**
 The trimming message memory. `Trimmed` specifies the trim loop; the lemmas below follow its effect
 over whole runs of `add`, down to the exact condition under which a reply loses its assistant.
 */
module ChatMemory {
  import opened Wrappers

  datatype Role = System | User | Assistant | Tool

  datatype Message = Message(role: Role, content: Option<string>, toolCalls: seq<string>, toolCallId: Option<string>)
  {
    predicate IsSystem() { role.System? }

    predicate IsTool() { role.Tool? }

    /** An assistant message with tool calls. */
    predicate Calls() { role.Assistant? && toolCalls != [] }
  }

  function Systems(ms: seq<Message>): seq<Message> {
    if ms == [] then [] else
    Systems(ms[..|ms| - 1]) + (if ms[|ms| - 1].IsSystem() then [ms[|ms| - 1]] else [])
  }

  function Others(ms: seq<Message>): seq<Message> {
    if ms == [] then [] else
    Others(ms[..|ms| - 1]) + (if ms[|ms| - 1].IsSystem() then [] else [ms[|ms| - 1]])
  }

  function Suffix(ms: seq<Message>, keep: nat): seq<Message> {
    if |ms| <= keep then ms else ms[|ms| - keep..]
  }

  /** The list without its leading tool messages. */
  function DropTools(ms: seq<Message>): seq<Message> {
    if ms != [] && ms[0].IsTool() then DropTools(ms[1..]) else ms
  }

  /** The list without its leading assistants whose calls are not answered right after them. */
  function DropStale(ms: seq<Message>): seq<Message> {
    if ms != [] && ms[0].Calls() && (|ms| < 2 || !ms[1].IsTool()) then DropStale(ms[1..]) else ms
  }

  /** The room the system messages leave. */
  function Room(systems: nat, maxMessages: int): nat {
    if maxMessages - systems > 0 then maxMessages - systems else 0
  }

  /** What a trim keeps of the non-system messages when there is room for `room` of them. */
  function TrimRest(rest: seq<Message>, room: nat): seq<Message> {
    if |rest| <= room then rest
    else if room == 0 then []
    else DropStale(DropTools(Suffix(rest, room)))
  }

  /** What the whole trim keeps. */
  function Trimmed(ms: seq<Message>, maxMessages: int): seq<Message> {
    if |ms| <= maxMessages then ms
    else Systems(ms) + TrimRest(Others(ms), Room(|Systems(ms)|, maxMessages))
  }

  class Memory {
    var messages: seq<Message>
    var maxMessages: int

    constructor (maxMessages: int)
      ensures messages == [] && this.maxMessages == maxMessages
    {
      this.messages, this.maxMessages := [], maxMessages;
    }

    method Add(message: Message)
      modifies this
      ensures messages == Trimmed(old(messages) + [message], maxMessages) && maxMessages == old(maxMessages)
    {
      messages := messages + [message];
      Trim();
    }

    method Trim()
      modifies this
      ensures messages == Trimmed(old(messages), maxMessages) && maxMessages == old(maxMessages)
    {
      if |messages| <= maxMessages {
        return;
      }
      var system, rest := Split(messages);
      SplitLength(messages);
      var keep := if maxMessages - |system| > 0 then maxMessages - |system| else 0;
      if keep == 0 {
        messages := system;
        return;
      }
      var trimmed := if |rest| <= keep then rest else rest[|rest| - keep..];
      while trimmed != [] && trimmed[0].IsTool()
        invariant DropTools(trimmed) == DropTools(Suffix(rest, keep))
        decreases |trimmed|
      {
        trimmed := trimmed[1..];
      }
      while trimmed != [] && trimmed[0].Calls() && (|trimmed| < 2 || !trimmed[1].IsTool())
        invariant DropStale(trimmed) == DropStale(DropTools(Suffix(rest, keep)))
        decreases |trimmed|
      {
        trimmed := trimmed[1..];
      }
      messages := system + trimmed;
    }

    method Split(ms: seq<Message>) returns (system: seq<Message>, rest: seq<Message>)
      ensures system == Systems(ms) && rest == Others(ms)
    {
      system, rest := [], [];
      for i := 0 to |ms|
        invariant system == Systems(ms[..i]) && rest == Others(ms[..i])
      {
        assert ms[..i + 1][..i] == ms[..i];
        if ms[i].IsSystem() {
          system := system + [ms[i]];
        } else {
          rest := rest + [ms[i]];
        }
      }
      assert ms[..|ms|] == ms;
    }
  }

  // ----- the two halves of a message list -----

  lemma {:induction false} SplitLength(ms: seq<Message>)
    ensures |Systems(ms)| + |Others(ms)| == |ms|
    ensures forall m :: m in Systems(ms) ==> m.IsSystem()
    ensures forall m :: m in Others(ms) ==> !m.IsSystem()
  {
    if ms != [] {
      SplitLength(ms[..|ms| - 1]);
    }
  }

  lemma {:induction false} SplitConcat(a: seq<Message>, b: seq<Message>)
    ensures Systems(a + b) == Systems(a) + Systems(b) && Others(a + b) == Others(a) + Others(b)
  {
    if b == [] {
      assert a + b == a;
    } else {
      assert (a + b)[..|a + b| - 1] == a + b[..|b| - 1];
      SplitConcat(a, b[..|b| - 1]);
    }
  }

  lemma {:induction false} AllSystems(ms: seq<Message>)
    requires forall m :: m in ms ==> m.IsSystem()
    ensures Systems(ms) == ms && Others(ms) == []
  {
    if ms != [] {
      assert ms == ms[..|ms| - 1] + [ms[|ms| - 1]];
      assert ms[|ms| - 1] in ms;
      AllSystems(ms[..|ms| - 1]);
    }
  }

  lemma {:induction false} AllOthers(ms: seq<Message>)
    requires forall m :: m in ms ==> !m.IsSystem()
    ensures Systems(ms) == [] && Others(ms) == ms
  {
    if ms != [] {
      assert ms == ms[..|ms| - 1] + [ms[|ms| - 1]];
      assert ms[|ms| - 1] in ms;
      AllOthers(ms[..|ms| - 1]);
    }
  }

  /** `kept` is the end of `all`. */
  ghost predicate IsSuffix(kept: seq<Message>, all: seq<Message>) {
    |kept| <= |all| && kept == all[|all| - |kept|..]
  }

  lemma {:induction false} DropToolsShape(ms: seq<Message>) returns (k: nat)
    ensures k <= |ms| && DropTools(ms) == ms[k..]
    ensures k < |ms| ==> !ms[k].IsTool()
    ensures forall i :: 0 <= i < k ==> ms[i].IsTool()
  {
    k := 0;
    if ms != [] && ms[0].IsTool() {
      k := DropToolsShape(ms[1..]);
      forall i | 0 < i < k + 1 ensures ms[i].IsTool() {
        assert ms[1..][i - 1].IsTool();
      }
      k := k + 1;
    }
  }

  /** A tool-calling assistant whose next message is not a reply. */
  predicate Stale(ms: seq<Message>, i: int) {
    0 <= i < |ms| && ms[i].Calls() && (i + 1 < |ms| ==> !ms[i + 1].IsTool())
  }

  lemma {:induction false} DropStaleShape(ms: seq<Message>) returns (k: nat)
    requires ms != [] ==> !ms[0].IsTool()
    ensures k <= |ms| && DropStale(ms) == ms[k..]
    ensures k < |ms| ==> !ms[k].IsTool() && !Stale(ms, k)
    ensures forall i :: 0 <= i < k ==> Stale(ms, i)
  {
    k := 0;
    if ms != [] && Stale(ms, 0) {
      var tail := ms[1..];
      k := DropStaleShape(tail);
      forall i | 0 < i < k + 1 ensures Stale(ms, i) {
        assert Stale(tail, i - 1);
      }
      if k < |tail| {
        assert !Stale(tail, k) && tail[k] == ms[k + 1];
      }
      k := k + 1;
    }
  }

  lemma SuffixFrom(all: seq<Message>, k: nat)
    requires k <= |all|
    ensures IsSuffix(all[k..], all)
  {
  }

  lemma SuffixSnoc(a: seq<Message>, b: seq<Message>, more: seq<Message>)
    requires IsSuffix(a, b)
    ensures IsSuffix(a + more, b + more)
  {
    assert (b + more)[|b| - |a|..] == a + more;
  }

  lemma SuffixOfSuffix(a: seq<Message>, b: seq<Message>, c: seq<Message>)
    requires IsSuffix(a, b) && IsSuffix(b, c)
    ensures IsSuffix(a, c)
  {
    assert c[|c| - |b|..][|b| - |a|..] == c[|c| - |a|..];
  }

  lemma ToolsShift(ms: seq<Message>, window: seq<Message>, from: nat, a: nat)
    requires from <= |ms| && window == ms[from..] && a <= |window|
    requires forall i :: 0 <= i < a ==> window[i].IsTool()
    ensures forall i :: from <= i < from + a ==> ms[i].IsTool()
  {
    forall i | from <= i < from + a ensures ms[i].IsTool() {
      assert window[i - from] == ms[i];
    }
  }

  lemma StaleShift(ms: seq<Message>, tail: seq<Message>, from: nat, i: nat)
    requires from <= |ms| && tail == ms[from..] && i < |tail|
    ensures tail[i] == ms[from + i] && (Stale(tail, i) <==> Stale(ms, from + i))
  {
    assert i + 1 < |tail| ==> tail[i + 1] == ms[from + i + 1];
  }

  /** Where the kept messages start, and what was dropped of the window before them. */
  lemma WindowShape(rest: seq<Message>, room: nat) returns (t: nat, k: nat)
    requires |rest| > room
    ensures |rest| - room <= t <= k <= |rest| && DropStale(DropTools(Suffix(rest, room))) == rest[k..]
    ensures k < |rest| ==> !rest[k].IsTool() && !Stale(rest, k)
    ensures forall i :: |rest| - room <= i < t ==> rest[i].IsTool()
    ensures forall i :: t <= i < k ==> Stale(rest, i)
  {
    var from := |rest| - room;
    var window := rest[from..];
    var a := DropToolsShape(window);
    ToolsShift(rest, window, from, a);
    t := from + a;
    var b := TailShape(rest, window[a..], t);
    k := t + b;
  }

  lemma TailShape(rest: seq<Message>, tail: seq<Message>, t: nat) returns (b: nat)
    requires t <= |rest| && tail == rest[t..] && (tail != [] ==> !tail[0].IsTool())
    ensures t + b <= |rest| && DropStale(tail) == rest[t + b..]
    ensures t + b < |rest| ==> !rest[t + b].IsTool() && !Stale(rest, t + b)
    ensures forall i :: t <= i < t + b ==> Stale(rest, i)
  {
    b := DropStaleShape(tail);
    assert tail[b..] == rest[t + b..];
    forall i | t <= i < t + b ensures Stale(rest, i) {
      StaleShift(rest, tail, t, i - t);
    }
    if b < |tail| {
      StaleShift(rest, tail, t, b);
    }
  }

  /** A trim keeps an end of the non-system messages; if it cuts anything, the end does not start with a reply. */
  lemma TrimRestShape(rest: seq<Message>, room: nat)
    ensures var kept := TrimRest(rest, room);
            IsSuffix(kept, rest) && |kept| <= room && (|rest| > room && kept != [] ==> !kept[0].IsTool())
  {
    if |rest| > room && room > 0 {
      var t, k := WindowShape(rest, room);
      SuffixFrom(rest, k);
    }
  }

  lemma TrimmedSplit(ms: seq<Message>, maxMessages: int)
    ensures Systems(Trimmed(ms, maxMessages)) == Systems(ms)
    ensures Others(Trimmed(ms, maxMessages)) == TrimRest(Others(ms), Room(|Systems(ms)|, maxMessages))
  {
    SplitLength(ms);
    if |ms| > maxMessages {
      var kept := TrimRest(Others(ms), Room(|Systems(ms)|, maxMessages));
      TrimRestShape(Others(ms), Room(|Systems(ms)|, maxMessages));
      SplitConcat(Systems(ms), kept);
      AllSystems(Systems(ms));
      AllOthers(kept);
    }
  }

  /** The messages of the window that are left out: replies up to `t`, then assistants without replies up to `k`. */
  ghost predicate LeftOut(rest: seq<Message>, from: int, t: nat, k: nat) {
    && 0 <= from <= t <= k <= |rest|
    && (forall i :: from <= i < t ==> rest[i].IsTool())
    && (forall i :: t <= i < k ==> Stale(rest, i))
    && (k < |rest| ==> !rest[k].IsTool() && !Stale(rest, k))
  }

  lemma RestKept(rest: seq<Message>, room: nat) returns (t: nat, k: nat)
    requires |rest| > room || room == 0
    ensures LeftOut(rest, |rest| - room, t, k) && TrimRest(rest, room) == rest[k..]
  {
    if room == 0 {
      t, k := |rest|, |rest|;
    } else {
      t, k := WindowShape(rest, room);
    }
  }

  /**
   What a trim does to any list: nothing when it fits, and otherwise it keeps the system messages and,
   of the last others that fit, those behind the replies it starts with and the assistants whose calls
   are not answered next.
   */
  lemma TrimmedIs(ms: seq<Message>, maxMessages: int) returns (t: nat, k: nat)
    ensures |ms| <= maxMessages ==> Trimmed(ms, maxMessages) == ms
    ensures |ms| > maxMessages ==>
              var rest := Others(ms);
              && LeftOut(rest, |rest| - if maxMessages > |Systems(ms)| then maxMessages - |Systems(ms)| else 0, t, k)
              && Trimmed(ms, maxMessages) == Systems(ms) + rest[k..]
  {
    SplitLength(ms);
    t, k := 0, 0;
    if |ms| > maxMessages {
      t, k := RestKept(Others(ms), Room(|Systems(ms)|, maxMessages));
    }
  }

  // ----- runs -----

  /** The messages kept after adding `added` one by one. */
  function After(added: seq<Message>, maxMessages: int): seq<Message> {
    if added == [] then []
    else Trimmed(After(added[..|added| - 1], maxMessages) + [added[|added| - 1]], maxMessages)
  }

  /** The non-system messages kept. */
  function Kept(added: seq<Message>, maxMessages: int): seq<Message> {
    Others(After(added, maxMessages))
  }

  /** The room left beside all the system messages of a run. */
  function RoomAfter(added: seq<Message>, maxMessages: int): nat {
    Room(|Systems(added)|, maxMessages)
  }

  /** The message as a list, unless it is a system message. */
  function Piece(m: Message): seq<Message> {
    if m.IsSystem() then [] else [m]
  }

  lemma {:induction false} KeepsSystems(added: seq<Message>, maxMessages: int)
    ensures Systems(After(added, maxMessages)) == Systems(added)
  {
    if added != [] {
      var before, m := added[..|added| - 1], added[|added| - 1];
      KeepsSystems(before, maxMessages);
      SplitConcat(After(before, maxMessages), [m]);
      SplitOne(m);
      TrimmedSplit(After(before, maxMessages) + [m], maxMessages);
    }
  }

  lemma SplitOne(m: Message)
    ensures Systems([m]) == (if m.IsSystem() then [m] else []) && Others([m]) == Piece(m)
  {
    assert [m][..0] == [];
    assert Systems([m][..0]) == [] && Others([m][..0]) == [];
  }

  /** One more message is appended, unless it is a system message, and the result trimmed to the room left. */
  lemma KeptStep(before: seq<Message>, m: Message, maxMessages: int)
    ensures Others(before + [m]) == Others(before) + Piece(m)
    ensures Systems(before + [m]) == Systems(before) + if m.IsSystem() then [m] else []
    ensures Kept(before + [m], maxMessages) ==
            TrimRest(Kept(before, maxMessages) + Piece(m), RoomAfter(before + [m], maxMessages))
  {
    var added, all := before + [m], After(before, maxMessages) + [m];
    assert added[..|added| - 1] == before;
    SplitConcat(before, [m]);
    SplitConcat(After(before, maxMessages), [m]);
    SplitOne(m);
    KeepsSystems(before, maxMessages);
    TrimmedSplit(all, maxMessages);
  }

  /** One more message: what its trim keeps is an end of what was kept, extended by it. */
  lemma LatestStep(kept: seq<Message>, others: seq<Message>, more: seq<Message>, room: nat)
    requires IsSuffix(kept, others)
    ensures IsSuffix(TrimRest(kept + more, room), others + more)
  {
    TrimRestShape(kept + more, room);
    SuffixSnoc(kept, others, more);
    SuffixOfSuffix(TrimRest(kept + more, room), kept + more, others + more);
  }

  lemma {:induction false} KeepsSuffix(added: seq<Message>, maxMessages: int)
    ensures IsSuffix(Kept(added, maxMessages), Others(added)) &&
            |Kept(added, maxMessages)| <= RoomAfter(added, maxMessages)
  {
    if added != [] {
      var before, m := added[..|added| - 1], added[|added| - 1];
      assert added == before + [m];
      KeepsSuffix(before, maxMessages);
      KeptStep(before, m, maxMessages);
      LatestStep(Kept(before, maxMessages), Others(before), Piece(m), RoomAfter(added, maxMessages));
      TrimRestShape(Kept(before, maxMessages) + Piece(m), RoomAfter(added, maxMessages));
    }
  }

  /**
   In every run all system messages are kept in order, the other messages kept are the latest ones
   added, and the size is bounded by the limit or, past it, by the number of system messages.
   */
  lemma KeepsLatest(added: seq<Message>, maxMessages: int)
    ensures Systems(After(added, maxMessages)) == Systems(added)
    ensures IsSuffix(Kept(added, maxMessages), Others(added))
    ensures added != [] ==>
              |After(added, maxMessages)| <= if maxMessages > |Systems(added)| then maxMessages else |Systems(added)|
  {
    KeepsSystems(added, maxMessages);
    KeepsSuffix(added, maxMessages);
    SplitLength(After(added, maxMessages));
  }

  // ----- replies and their assistants -----

  /** If position `i` holds a reply, it stands right after an assistant with calls or another reply. */
  ghost predicate OwnedAt(ms: seq<Message>, i: int) {
    0 <= i < |ms| && ms[i].IsTool() ==> i > 0 && (ms[i - 1].IsTool() || ms[i - 1].Calls())
  }

  /** Walking back from any reply reaches its assistant. */
  ghost predicate Owned(ms: seq<Message>) {
    forall i :: OwnedAt(ms, i)
  }

  /** The assistant a reply belongs to. */
  lemma {:induction false} HeadOf(ms: seq<Message>, i: nat) returns (h: nat)
    requires Owned(ms) && i < |ms| && ms[i].IsTool()
    ensures h < i && ms[h].Calls() && forall k :: h < k <= i ==> ms[k].IsTool()
  {
    assert OwnedAt(ms, i);
    if ms[i - 1].IsTool() {
      h := HeadOf(ms, i - 1);
    } else {
      h := i - 1;
    }
  }

  lemma OwnedStart(ms: seq<Message>)
    requires Owned(ms)
    ensures ms == [] || !ms[0].IsTool()
  {
    assert OwnedAt(ms, 0);
  }

  /** The end of an owned list is owned unless it starts with a reply. */
  lemma SuffixOwned(kept: seq<Message>, all: seq<Message>)
    requires IsSuffix(kept, all) && Owned(all)
    ensures Owned(kept) <==> kept == [] || !kept[0].IsTool()
  {
    var from := |all| - |kept|;
    if kept == [] || !kept[0].IsTool() {
      forall i ensures OwnedAt(kept, i) {
        if 0 < i < |kept| {
          assert OwnedAt(all, from + i);
          assert kept[i] == all[from + i] && kept[i - 1] == all[from + i - 1];
        }
      }
    }
    if Owned(kept) {
      OwnedStart(kept);
    }
  }

  /** When appending and trimming takes an owned list to one that starts with a reply. */
  lemma TrimOrphansIff(prior: seq<Message>, m: Message, room: nat)
    requires prior == [] || !prior[0].IsTool()
    ensures var kept := TrimRest(prior + Piece(m), room);
            (kept == [] || !kept[0].IsTool()) <==> !(m.IsTool() && prior == [] && room > 0)
  {
    var rest := prior + Piece(m);
    TrimRestShape(rest, room);
    assert prior != [] ==> rest[0] == prior[0];
  }

  /**
   One `add` to an owned memory leaves a reply without its assistant exactly when it adds a reply
   while no other message is kept and there is room for it: trimming itself never orphans a reply.
   */
  lemma AddOrphansIff(before: seq<Message>, m: Message, maxMessages: int)
    requires Owned(Others(before + [m])) && Owned(Kept(before, maxMessages))
    ensures Owned(Kept(before + [m], maxMessages)) <==>
            !(m.IsTool() && Kept(before, maxMessages) == [] && |Systems(before)| < maxMessages)
  {
    KeepsSuffix(before + [m], maxMessages);
    KeptStep(before, m, maxMessages);
    SuffixOwned(Kept(before + [m], maxMessages), Others(before + [m]));
    OwnedStart(Kept(before, maxMessages));
    TrimOrphansIff(Kept(before, maxMessages), m, RoomAfter(before + [m], maxMessages));
  }

  /** After the first `k` additions every reply kept has its assistant. */
  ghost predicate OwnedAfter(added: seq<Message>, k: int, maxMessages: int) {
    0 <= k <= |added| ==> Owned(Kept(added[..k], maxMessages))
  }

  /** The addition at `k` leaves an orphan: a reply while nothing else is kept and there is room for it. */
  ghost predicate OrphansAt(added: seq<Message>, k: int, maxMessages: int) {
    && 0 <= k < |added| && added[k].IsTool()
    && Kept(added[..k], maxMessages) == [] && |Systems(added[..k])| < maxMessages
  }

  /**
   Over every run whose messages are in order: no reply is ever kept without its assistant exactly
   when no reply is added while nothing else is kept and there is room for it.
   */
  lemma RunOwnedIff(added: seq<Message>, maxMessages: int)
    requires Owned(Others(added))
    ensures (forall k :: OwnedAfter(added, k, maxMessages)) <==> (forall k :: !OrphansAt(added, k, maxMessages))
  {
    forall k | 0 <= k < |added|
      ensures OwnedAfter(added, k, maxMessages) ==>
                (OwnedAfter(added, k + 1, maxMessages) <==> !OrphansAt(added, k, maxMessages))
    {
      RunStepOwned(added, k, maxMessages);
    }
    EmptyOwned(added, maxMessages);
    var owned, orphans := k => OwnedAfter(added, k, maxMessages), k => OrphansAt(added, k, maxMessages);
    StepByStep(owned, orphans, |added|);
    assert forall k :: k < 0 || k > |added| ==> OwnedAfter(added, k, maxMessages);
    assert forall k :: k < 0 || k >= |added| ==> !OrphansAt(added, k, maxMessages);
    assert forall k :: owned(k) <==> OwnedAfter(added, k, maxMessages);
    assert forall k :: orphans(k) <==> OrphansAt(added, k, maxMessages);
  }

  /** What each step keeps unless it fails holds throughout exactly when no step fails. */
  lemma {:induction false} StepByStep(good: int -> bool, fails: int -> bool, n: nat)
    requires good(0) && forall k :: 0 <= k < n ==> good(k) ==> (good(k + 1) <==> !fails(k))
    ensures (forall k :: 0 <= k <= n ==> good(k)) <==> (forall k :: 0 <= k < n ==> !fails(k))
  {
    if n > 0 {
      StepByStep(good, fails, n - 1);
      assert good(n - 1) ==> (good(n - 1 + 1) <==> !fails(n - 1));
    }
  }

  lemma EmptyOwned(added: seq<Message>, maxMessages: int)
    ensures OwnedAfter(added, 0, maxMessages)
  {
    assert added[..0] == [];
    forall i ensures OwnedAt([], i) {
    }
  }

  lemma RunStepOwned(added: seq<Message>, k: nat, maxMessages: int)
    requires k < |added| && Owned(Others(added))
    ensures OwnedAfter(added, k, maxMessages) ==>
              (OwnedAfter(added, k + 1, maxMessages) <==> !OrphansAt(added, k, maxMessages))
  {
    PrefixInOrder(added, k + 1);
    PrefixSnoc(added, k);
    NextOwned(added[..k], added[k], added[..k + 1], maxMessages);
  }

  lemma PrefixSnoc<T>(s: seq<T>, k: nat)
    requires k < |s|
    ensures s[..k + 1] == s[..k] + [s[k]]
  {
  }

  lemma NextOwned(before: seq<Message>, m: Message, after: seq<Message>, maxMessages: int)
    requires after == before + [m] && Owned(Others(after))
    ensures Owned(Kept(before, maxMessages)) ==>
              (Owned(Kept(after, maxMessages)) <==>
               !(m.IsTool() && Kept(before, maxMessages) == [] && |Systems(before)| < maxMessages))
  {
    if Owned(Kept(before, maxMessages)) {
      AddOrphansIff(before, m, maxMessages);
    }
  }

  lemma PrefixInOrder(added: seq<Message>, n: nat)
    requires n <= |added| && Owned(Others(added))
    ensures Owned(Others(added[..n]))
  {
    assert added == added[..n] + added[n..];
    SplitConcat(added[..n], added[n..]);
    OthersPrefixOwned(Others(added[..n]), Others(added[n..]));
  }

  lemma OthersPrefixOwned(a: seq<Message>, b: seq<Message>)
    requires Owned(a + b)
    ensures Owned(a)
  {
    forall i ensures OwnedAt(a, i) {
      assert OwnedAt(a + b, i);
    }
  }

  // ----- one batch of calls -----

  ghost predicate AllTools(ms: seq<Message>) {
    forall i :: 0 <= i < |ms| ==> ms[i].IsTool()
  }

  /** The non-system messages kept after adding `more` to `rest`, with the same room throughout. */
  function RestAfter(rest: seq<Message>, more: seq<Message>, room: nat): seq<Message> {
    if more == [] then rest else
    TrimRest(RestAfter(rest, more[..|more| - 1], room) + [more[|more| - 1]], room)
  }

  lemma RestAfterSnoc(rest: seq<Message>, more: seq<Message>, m: Message, room: nat)
    ensures RestAfter(rest, more + [m], room) == TrimRest(RestAfter(rest, more, room) + [m], room)
  {
    assert (more + [m])[..|more|] == more;
  }

  /** Adding messages that are not system messages to any run is what `RestAfter` describes. */
  lemma {:induction false} RunOfAdds(added: seq<Message>, more: seq<Message>, maxMessages: int)
    requires forall i :: 0 <= i < |more| ==> !more[i].IsSystem()
    ensures Systems(added + more) == Systems(added)
    ensures Kept(added + more, maxMessages) == RestAfter(Kept(added, maxMessages), more, RoomAfter(added, maxMessages))
  {
    if more == [] {
      assert added + more == added;
    } else {
      var before, m := more[..|more| - 1], more[|more| - 1];
      RunOfAdds(added, before, maxMessages);
      RunStep(added, before, m, added + before, maxMessages);
      SnocApart(added, more, before, m);
    }
  }

  lemma SnocApart(added: seq<Message>, more: seq<Message>, before: seq<Message>, m: Message)
    requires more != [] && before == more[..|more| - 1] && m == more[|more| - 1]
    ensures before + [m] == more && added + before + [m] == added + more
  {
  }

  lemma RunStep(added: seq<Message>, before: seq<Message>, m: Message, run: seq<Message>, maxMessages: int)
    requires !m.IsSystem() && Systems(run) == Systems(added)
    requires Kept(run, maxMessages) == RestAfter(Kept(added, maxMessages), before, RoomAfter(added, maxMessages))
    ensures Systems(run + [m]) == Systems(added)
    ensures Kept(run + [m], maxMessages) ==
            RestAfter(Kept(added, maxMessages), before + [m], RoomAfter(added, maxMessages))
  {
    KeptStep(run, m, maxMessages);
    RestAfterSnoc(Kept(added, maxMessages), before, m, RoomAfter(added, maxMessages));
  }

  /** Replies only, and then tool-calling assistants only. */
  ghost predicate RepliesThenCalls(ms: seq<Message>) {
    exists t :: SplitAt(ms, t)
  }

  ghost predicate SplitAt(ms: seq<Message>, t: int) {
    && 0 <= t <= |ms|
    && (forall i :: 0 <= i < t ==> ms[i].IsTool())
    && (forall i :: t <= i < |ms| ==> ms[i].Calls())
  }

  /** The assistant is trimmed away at once: the memory is full and only replies and calls would be kept with it. */
  ghost predicate HeadLost(rest: seq<Message>, room: nat)
    requires room >= 1
  {
    |rest| == room && RepliesThenCalls(rest[1..])
  }

  /** The last message of a full window is kept with something, or everything goes. */
  lemma HeadKeptIff(rest: seq<Message>, head: Message, room: nat)
    requires head.Calls() && |rest| <= room && room >= 1
    ensures var kept := TrimRest(rest + [head], room);
            if HeadLost(rest, room) then kept == [] else kept != [] && kept[|kept| - 1] == head
  {
    if |rest| == room {
      var t, k := WindowShape(rest + [head], room);
      SweptIff(rest + [head], rest[1..], t, k);
    }
  }

  lemma SweptIff(all: seq<Message>, w: seq<Message>, t: nat, k: nat)
    requires |all| >= 2 && w == all[1..|all| - 1] && all[|all| - 1].Calls() && 1 <= t <= k <= |all|
    requires k < |all| ==> !all[k].IsTool() && !Stale(all, k)
    requires forall i :: 1 <= i < t ==> all[i].IsTool()
    requires forall i :: t <= i < k ==> Stale(all, i)
    ensures RepliesThenCalls(w) <==> k == |all|
  {
    if k == |all| {
      assert t <= |all| - 1;
      forall i | t - 1 <= i < |w| ensures w[i].Calls() {
        assert Stale(all, i + 1);
      }
      assert SplitAt(w, t - 1);
    }
    if u :| SplitAt(w, u) {
      if k < |all| {
        SweptToTheEnd(all, w, u, k);
      }
    }
  }

  /** Past the replies every call is stale: its next message is another call, or the end. */
  lemma SweptToTheEnd(all: seq<Message>, w: seq<Message>, u: nat, k: nat)
    requires |all| >= 2 && w == all[1..|all| - 1] && all[|all| - 1].Calls()
    requires SplitAt(w, u)
    requires 1 <= k < |all| && !all[k].IsTool()
    ensures Stale(all, k)
  {
    assert k <= |w| ==> w[k - 1] == all[k];
    assert k < |w| ==> w[k] == all[k + 1];
  }

  /** A window that still reaches the head of an answered batch does not cut it. */
  lemma BatchStays(all: seq<Message>, h: nat, room: nat)
    requires h + 1 < |all| && all[h].Calls() && all[h + 1].IsTool() && |all| - h <= room
    ensures IsSuffix(all[h..], TrimRest(all, room))
    ensures |all| > room ==> !TrimRest(all, room)[0].IsTool()
  {
    if |all| > room {
      var t, k := WindowShape(all, room);
      assert !Stale(all, h) && !all[h].IsTool();
      assert all[k..][h - k..] == all[h..];
    }
  }

  /** What the memory holds while a batch comes in: the batch so far at the end, and no reply in front. */
  ghost predicate Growing(kept: seq<Message>, batch: seq<Message>, room: nat) {
    IsSuffix(batch, kept) && |kept| <= room && kept != [] && !kept[0].IsTool()
  }

  lemma BatchStarts(rest: seq<Message>, head: Message, room: nat)
    requires head.Calls() && (rest == [] || !rest[0].IsTool()) && |rest| <= room && room >= 1 && !HeadLost(rest, room)
    ensures Growing(TrimRest(rest + [head], room), [head], room)
  {
    HeadKept(rest, head, room);
    FrontStays(rest, head, room);
    GrowingOne(TrimRest(rest + [head], room), head, room);
  }

  /** Neither the new call nor what stood in front before is a reply, so none stands in front now. */
  lemma FrontStays(rest: seq<Message>, head: Message, room: nat)
    requires head.Calls() && (rest == [] || !rest[0].IsTool())
    ensures var kept := TrimRest(rest + [head], room); |kept| <= room && (kept == [] || !kept[0].IsTool())
  {
    TrimRestShape(rest + [head], room);
    assert rest != [] ==> (rest + [head])[0] == rest[0];
  }

  lemma GrowingOne(kept: seq<Message>, head: Message, room: nat)
    requires kept != [] && kept[|kept| - 1] == head && |kept| <= room && !kept[0].IsTool()
    ensures Growing(kept, [head], room)
  {
  }

  lemma HeadKept(rest: seq<Message>, head: Message, room: nat)
    requires head.Calls() && |rest| <= room && room >= 1 && !HeadLost(rest, room)
    ensures var kept := TrimRest(rest + [head], room); kept != [] && kept[|kept| - 1] == head
  {
    HeadKeptIff(rest, head, room);
  }

  lemma BatchGrowsStep(kept: seq<Message>, batch: seq<Message>, m: Message, room: nat)
    requires batch != [] && batch[0].Calls() && AllTools(batch[1..]) && m.IsTool() && |batch| < room
    requires Growing(kept, batch, room)
    ensures Growing(TrimRest(kept + [m], room), batch + [m], room)
  {
    var all, h := kept + [m], |kept| - |batch|;
    SuffixSnoc(batch, kept, [m]);
    assert all[h..] == batch + [m];
    assert all[h] == (batch + [m])[0] && all[h + 1] == (batch + [m])[1];
    assert |batch| > 1 ==> batch[1..][0] == batch[1];
    BatchStays(all, h, room);
    TrimRestShape(all, room);
    assert all[0] == kept[0];
  }

  /** The memory before a batch: no reply in front, and the assistant will survive its own trim. */
  ghost predicate Ready(rest: seq<Message>, room: nat) {
    (rest == [] || !rest[0].IsTool()) && |rest| <= room && room >= 1 && !HeadLost(rest, room)
  }

  /** While at most `room - 1` replies have come, the whole batch is kept and nothing is orphaned. */
  lemma {:induction false} BatchGrows(rest: seq<Message>, head: Message, replies: seq<Message>, room: nat)
    requires head.Calls() && AllTools(replies) && Ready(rest, room) && |replies| < room
    ensures Growing(RestAfter(rest, [head] + replies, room), [head] + replies, room)
  {
    if replies == [] {
      BatchStarts(rest, head, room);
      RestAfterSnoc(rest, [], head, room);
      assert [] + [head] == [head] + replies;
    } else {
      var before, m := replies[..|replies| - 1], replies[|replies| - 1];
      var batch := [head] + before;
      BatchGrows(rest, head, before, room);
      SnocApart([head], replies, before, m);
      assert batch[1..] == before;
      RestAfterSnoc(rest, batch, m, room);
      BatchGrowsStep(RestAfter(rest, batch, room), batch, m, room);
    }
  }

  /** With one reply less than there is room, the batch is all that is kept. */
  lemma BatchFills(rest: seq<Message>, head: Message, replies: seq<Message>, room: nat)
    requires head.Calls() && AllTools(replies) && Ready(rest, room) && |replies| == room - 1
    ensures RestAfter(rest, [head] + replies, room) == [head] + replies
  {
    BatchGrows(rest, head, replies, room);
  }

  /** A window of replies is dropped whole. */
  lemma OnlyReplies(all: seq<Message>, room: nat)
    requires room >= 1 && |all| == room + 1 && AllTools(all[1..])
    ensures TrimRest(all, room) == []
  {
    var t, k := WindowShape(all, room);
    assert forall i :: 1 <= i < |all| ==> all[i] == all[1..][i - 1];
  }

  /** With as many replies as there is room, the window is all replies and everything goes. */
  lemma BatchOverflows(rest: seq<Message>, head: Message, replies: seq<Message>, room: nat)
    requires head.Calls() && AllTools(replies) && Ready(rest, room) && |replies| == room
    ensures RestAfter(rest, [head] + replies, room) == []
  {
    var before, m := replies[..|replies| - 1], replies[|replies| - 1];
    BatchFills(rest, head, before, room);
    RestAfterSnoc(rest, [head] + before, m, room);
    assert [head] + before + [m] == [head] + replies;
    assert ([head] + replies)[1..] == replies;
    OnlyReplies([head] + replies, room);
  }

  /** A reply that comes when nothing is kept, with room to stay, is an orphan. */
  lemma LoneReply(reply: Message, room: nat)
    requires reply.IsTool() && room >= 1
    ensures !Owned(TrimRest([] + [reply], room))
  {
    assert !OwnedAt([] + [reply], 0);
  }

  /** No reply is without its assistant at any moment while `more` is added. */
  ghost predicate AlwaysOwned(rest: seq<Message>, more: seq<Message>, room: nat) {
    forall j :: 0 <= j <= |more| ==> Owned(RestAfter(rest, more[..j], room))
  }

  lemma RestOwnedIff(rest: seq<Message>, head: Message, replies: seq<Message>, room: nat)
    requires head.Calls() && AllTools(replies) && Owned(rest) && |rest| <= room
    ensures AlwaysOwned(rest, [head] + replies, room) <==>
            room == 0 || replies == [] || (!HeadLost(rest, room) && |replies| <= room)
  {
    OwnedStart(rest);
    if room == 0 {
      NoRoom(rest, [head] + replies);
    } else if HeadLost(rest, room) {
      BatchWithoutHead(rest, head, replies, room);
    } else if |replies| <= room {
      forall j | 0 <= j <= |replies| + 1 ensures Owned(RestAfter(rest, ([head] + replies)[..j], room)) {
        BatchPrefixOwned(rest, head, replies, room, j);
      }
    } else {
      BatchTooLong(rest, head, replies, room);
    }
  }

  lemma BatchWithoutHead(rest: seq<Message>, head: Message, replies: seq<Message>, room: nat)
    requires head.Calls() && AllTools(replies) && Owned(rest) && |rest| <= room && room >= 1 && HeadLost(rest, room)
    ensures AlwaysOwned(rest, [head] + replies, room) <==> replies == []
  {
    var batch := [head] + replies;
    HeadKeptIff(rest, head, room);
    RestAfterSnoc(rest, [], head, room);
    assert batch[..1] == [] + [head];
    if replies == [] {
      forall j | 0 <= j <= |batch| ensures Owned(RestAfter(rest, batch[..j], room)) {
        assert j == 0 ==> batch[..j] == [];
      }
    } else {
      assert batch[..2] == batch[..1] + [replies[0]];
      RestAfterSnoc(rest, batch[..1], replies[0], room);
      LoneReply(replies[0], room);
    }
  }

  lemma BatchTooLong(rest: seq<Message>, head: Message, replies: seq<Message>, room: nat)
    requires head.Calls() && AllTools(replies) && Ready(rest, room) && |replies| > room
    ensures !AlwaysOwned(rest, [head] + replies, room)
  {
    var batch, first, next := [head] + replies, replies[..room], replies[room];
    BatchOverflows(rest, head, first, room);
    assert batch[..room + 2] == [head] + first + [next];
    RestAfterSnoc(rest, [head] + first, next, room);
    LoneReply(next, room);
  }

  lemma BatchPrefixOwned(rest: seq<Message>, head: Message, replies: seq<Message>, room: nat, j: nat)
    requires head.Calls() && AllTools(replies) && Owned(rest) && Ready(rest, room)
    requires j <= |replies| + 1 && j <= room + 1
    ensures Owned(RestAfter(rest, ([head] + replies)[..j], room))
  {
    var batch := [head] + replies;
    if j == 0 {
      assert batch[..0] == [];
    } else {
      var first := replies[..j - 1];
      assert batch[..j] == [head] + first;
      if j - 1 == room {
        BatchOverflows(rest, head, first, room);
      } else {
        BatchGrows(rest, head, first, room);
        RestOwned(rest, head, first, room);
      }
    }
  }

  /** What is kept is an end of everything added, so it is owned unless it starts with a reply. */
  lemma RestOwned(rest: seq<Message>, head: Message, replies: seq<Message>, room: nat)
    requires head.Calls() && AllTools(replies) && Owned(rest)
    requires var kept := RestAfter(rest, [head] + replies, room); kept == [] || !kept[0].IsTool()
    ensures Owned(RestAfter(rest, [head] + replies, room))
  {
    RestIsSuffix(rest, [head] + replies, room);
    BatchOwned(rest, head, replies);
    SuffixOwned(RestAfter(rest, [head] + replies, room), rest + ([head] + replies));
  }

  lemma BatchOwned(rest: seq<Message>, head: Message, replies: seq<Message>)
    requires head.Calls() && AllTools(replies) && Owned(rest)
    ensures Owned(rest + ([head] + replies))
  {
    var all, n := rest + ([head] + replies), |rest|;
    forall i ensures OwnedAt(all, i) {
      if 0 <= i < n {
        assert OwnedAt(rest, i);
      } else if n < i < |all| {
        assert i > n + 1 ==> all[i - 1] == replies[i - n - 2];
      }
    }
  }

  lemma {:induction false} RestIsSuffix(rest: seq<Message>, more: seq<Message>, room: nat)
    ensures IsSuffix(RestAfter(rest, more, room), rest + more)
  {
    if more == [] {
      assert rest + more == rest;
    } else {
      var before, m := more[..|more| - 1], more[|more| - 1];
      RestIsSuffix(rest, before, room);
      LatestStep(RestAfter(rest, before, room), rest + before, [m], room);
      assert rest + before + [m] == rest + more;
    }
  }

  lemma {:induction false} NoRoom(rest: seq<Message>, more: seq<Message>)
    requires rest == []
    ensures AlwaysOwned(rest, more, 0)
  {
    forall j | 0 <= j <= |more| ensures Owned(RestAfter(rest, more[..j], 0)) {
      assert Owned([]);
    }
  }

  /** At no moment while `more` is added to a run is a reply kept without its assistant. */
  ghost predicate NeverOrphans(added: seq<Message>, more: seq<Message>, maxMessages: int) {
    forall j :: 0 <= j <= |more| ==> Owned(Kept(added + more[..j], maxMessages))
  }

  lemma NeverOrphansIsAlwaysOwned(added: seq<Message>, more: seq<Message>, maxMessages: int)
    requires forall i :: 0 <= i < |more| ==> !more[i].IsSystem()
    ensures NeverOrphans(added, more, maxMessages) <==>
            AlwaysOwned(Kept(added, maxMessages), more, RoomAfter(added, maxMessages))
  {
    forall j | 0 <= j <= |more|
      ensures Kept(added + more[..j], maxMessages) ==
              RestAfter(Kept(added, maxMessages), more[..j], RoomAfter(added, maxMessages))
    {
      RunOfAdds(added, more[..j], maxMessages);
    }
  }

  /**
   After any run that left no orphan, adding one batch, an assistant's calls and then its replies:
   no reply is ever kept without its assistant exactly when there is no room beside the system
   messages, or no reply, or the assistant survives its own trim and the replies number at most
   the room.
   */
  lemma BatchOwnedIff(added: seq<Message>, head: Message, replies: seq<Message>, maxMessages: int)
    requires head.Calls() && AllTools(replies) && Owned(Kept(added, maxMessages))
    ensures NeverOrphans(added, [head] + replies, maxMessages) <==>
            var rest, room := Kept(added, maxMessages), RoomAfter(added, maxMessages);
            room == 0 || replies == [] || (!HeadLost(rest, room) && |replies| <= room)
  {
    KeepsSuffix(added, maxMessages);
    NeverOrphansIsAlwaysOwned(added, [head] + replies, maxMessages);
    RestOwnedIff(Kept(added, maxMessages), head, replies, RoomAfter(added, maxMessages));
  }

  /** With room for one message and none kept, two parallel replies are enough: the second stays behind alone. */
  lemma TwoRepliesOrphan(added: seq<Message>, head: Message, first: Message, second: Message, maxMessages: int)
    requires head.Calls() && first.IsTool() && second.IsTool()
    requires Kept(added, maxMessages) == [] && RoomAfter(added, maxMessages) == 1
    ensures !NeverOrphans(added, [head] + [first, second], maxMessages)
  {
    BatchOwnedIff(added, head, [first, second], maxMessages);
  }

  // ----- whole transcripts -----

  /** From `h` to `h + t`: an assistant with calls and `t` replies. */
  ghost predicate BatchAt(ms: seq<Message>, h: int, t: int) {
    && 0 <= h && 0 <= t && h + t < |ms| && ms[h].Calls()
    && (forall k :: h < k <= h + t ==> ms[k].IsTool())
  }

  /** Calls at `i` are answered by the next message, if there is one. */
  ghost predicate AnsweredAt(ms: seq<Message>, i: int) {
    0 <= i && i + 1 < |ms| && ms[i].Calls() ==> ms[i + 1].IsTool()
  }

  /** Every batch is shorter than `room`, and all calls but the newest are answered at once. */
  ghost predicate ShortBatches(ms: seq<Message>, room: nat) {
    && (forall i :: AnsweredAt(ms, i))
    && (forall h, t :: BatchAt(ms, h, t) ==> t + 1 < room)
  }

  /** No system message comes between a reply and what it follows. */
  ghost predicate UnbrokenAt(ms: seq<Message>, i: int) {
    0 <= i && i + 1 < |ms| && ms[i].IsSystem() ==> !ms[i + 1].IsTool()
  }

  /**
   A transcript whose assistants' calls are answered at once: replies follow their assistant, calls
   are followed by replies, no system message comes right before a reply, and every batch is
   shorter than `room`, which fits the limit beside all the system messages.
   */
  ghost predicate Answered(added: seq<Message>, room: nat, maxMessages: int) {
    && Owned(Others(added)) && ShortBatches(Others(added), room)
    && (forall i :: UnbrokenAt(added, i))
    && room <= RoomAfter(added, maxMessages)
  }

  lemma PrefixOwned(ms: seq<Message>, n: nat)
    requires n <= |ms| && Owned(ms)
    ensures Owned(ms[..n])
  {
    forall i ensures OwnedAt(ms[..n], i) {
      assert OwnedAt(ms, i);
    }
  }

  lemma PrefixShort(ms: seq<Message>, n: nat, room: nat)
    requires n <= |ms| && ShortBatches(ms, room)
    ensures ShortBatches(ms[..n], room)
  {
    forall i ensures AnsweredAt(ms[..n], i) {
      assert AnsweredAt(ms, i);
    }
    forall h, t | BatchAt(ms[..n], h, t) ensures t + 1 < room {
      assert BatchAt(ms, h, t);
    }
  }

  lemma PrefixUnbroken(before: seq<Message>, m: Message)
    requires forall i :: UnbrokenAt(before + [m], i)
    ensures forall i :: UnbrokenAt(before, i)
  {
    forall i ensures UnbrokenAt(before, i) {
      assert UnbrokenAt(before + [m], i);
    }
  }

  lemma PrefixAnswered(others: seq<Message>, piece: seq<Message>, room: nat)
    requires Owned(others + piece) && ShortBatches(others + piece, room)
    ensures Owned(others) && ShortBatches(others, room)
  {
    assert (others + piece)[..|others|] == others;
    PrefixOwned(others + piece, |others|);
    PrefixShort(others + piece, |others|, room);
  }

  lemma AnsweredBefore(before: seq<Message>, m: Message, room: nat, maxMessages: int)
    requires Answered(before + [m], room, maxMessages)
    ensures Answered(before, room, maxMessages)
  {
    KeptStep(before, m, maxMessages);
    PrefixAnswered(Others(before), Piece(m), room);
    PrefixUnbroken(before, m);
  }

  /** The batch in progress is kept from its assistant on: it is no longer than what is kept. */
  ghost predicate KeepsBatch(others: seq<Message>, kept: seq<Message>) {
    forall h, t :: BatchAt(others, h, t) && h + t == |others| - 1 ==> |kept| >= t + 1
  }

  lemma OneHead(others: seq<Message>, g: int, h: int, last: int)
    requires BatchAt(others, g, last - g) && BatchAt(others, h, last - h)
    ensures g == h
  {
  }

  /**
   In an owned list without unanswered calls and with short batches, a full window keeps its last
   message when that makes calls.
   */
  lemma CallerStays(kept: seq<Message>, m: Message, room: nat, window: nat)
    requires Owned(kept) && ShortBatches(kept + [m], room) && m.Calls() && 2 <= room <= window
    ensures TrimRest(kept + [m], window) != []
  {
    var all, last := kept + [m], |kept| - 1;
    if |all| > window {
      var t, k := WindowShape(all, window);
      var h := LastHead(kept, m, room);
      assert !all[h].IsTool() && !Stale(all, h);
      assert k <= h;
    }
  }

  /** Shortly before the newest call there is a message that is neither a reply nor a stale call. */
  lemma LastHead(kept: seq<Message>, m: Message, room: nat) returns (h: nat)
    requires kept != [] && Owned(kept) && ShortBatches(kept + [m], room) && m.Calls() && room >= 2
    ensures h < |kept| && |kept| - h < room && !kept[h].IsTool() && !Stale(kept + [m], h)
  {
    var all, last := kept + [m], |kept| - 1;
    if kept[last].IsTool() {
      h := HeadOf(kept, last);
      assert BatchAt(all, h, last - h);
      assert all[h] == kept[h] && all[h + 1] == kept[h + 1];
    } else {
      h := last;
      assert AnsweredAt(all, last) && all[last] == kept[last];
    }
  }

  /** What is kept of a list with short batches has short batches. */
  lemma SuffixShort(kept: seq<Message>, all: seq<Message>, room: nat)
    requires IsSuffix(kept, all) && ShortBatches(all, room)
    ensures ShortBatches(kept, room)
  {
    var from := |all| - |kept|;
    forall i ensures AnsweredAt(kept, i) {
      if 0 <= i && i + 1 < |kept| {
        assert AnsweredAt(all, from + i);
        assert kept[i] == all[from + i] && kept[i + 1] == all[from + i + 1];
      }
    }
    forall h, t | BatchAt(kept, h, t) ensures t + 1 < room {
      BatchShift(kept, all, h, t);
    }
  }

  lemma BatchShift(kept: seq<Message>, all: seq<Message>, h: int, t: int)
    requires IsSuffix(kept, all) && BatchAt(kept, h, t)
    ensures BatchAt(all, |all| - |kept| + h, t)
  {
    var from := |all| - |kept|;
    forall k | from + h < k <= from + h + t ensures all[k].IsTool() {
      assert all[k] == kept[k - from];
    }
  }

  /** The next reply leaves a batch shorter than the room whole. */
  lemma ReplyStays(kept: seq<Message>, before: seq<Message>, m: Message, h: nat, room: nat)
    requires IsSuffix(kept, before) && m.IsTool() && h < |before| && BatchAt(before, h, |before| - 1 - h)
    requires |kept| >= |before| - h && |before| - h + 1 <= room
    ensures |TrimRest(kept + [m], room)| >= |before| - h + 1
  {
    var all, p := kept + [m], |kept| - (|before| - h);
    var others := before + [m];
    SuffixSnoc(kept, before, [m]);
    assert all[p] == others[h] && all[p + 1] == others[h + 1];
    BatchStays(all, p, room);
  }

  /** One more reply of a transcript, on the non-system messages alone. */
  lemma AddReply(kept: seq<Message>, before: seq<Message>, m: Message, room: nat, window: nat)
    requires IsSuffix(kept, before) && m.IsTool() && room <= window
    requires Owned(before + [m]) && ShortBatches(before + [m], room) && KeepsBatch(before, kept)
    ensures kept != [] && KeepsBatch(before + [m], TrimRest(kept + [m], window))
  {
    var others, last := before + [m], |before|;
    var h := HeadOf(others, last);
    assert BatchAt(others, h, last - h);
    BatchPrefix(before, m, h);
    ReplyStays(kept, before, m, h, window);
    forall g, t | BatchAt(others, g, t) && g + t == last ensures t == last - h {
      OneHead(others, g, h, last);
    }
  }

  lemma BatchPrefix(before: seq<Message>, m: Message, h: nat)
    requires h < |before| && BatchAt(before + [m], h, |before| - h)
    ensures BatchAt(before, h, |before| - 1 - h)
  {
    var others := before + [m];
    assert others[h] == before[h];
    forall k | h < k < |before| ensures before[k].IsTool() {
      assert others[k] == before[k];
    }
  }

  /** One more call of a transcript, on the non-system messages alone. */
  lemma AddCaller(kept: seq<Message>, before: seq<Message>, m: Message, room: nat, window: nat)
    requires IsSuffix(kept, before) && m.Calls() && room <= window && Owned(kept)
    requires ShortBatches(before + [m], room)
    ensures KeepsBatch(before + [m], TrimRest(kept + [m], window))
  {
    var others, last := before + [m], |before|;
    assert BatchAt(others, last, 0);
    SuffixSnoc(kept, before, [m]);
    SuffixShort(kept + [m], others, room);
    CallerStays(kept, m, room, window);
    forall h, t | BatchAt(others, h, t) && h + t == last ensures t == 0 {
      OneHead(others, h, last, last);
    }
  }

  /** Any other message ends no batch. */
  lemma NoBatchEnds(others: seq<Message>, kept: seq<Message>)
    requires others != [] && !others[|others| - 1].IsTool() && !others[|others| - 1].Calls()
    ensures KeepsBatch(others, kept)
  {
    forall h, t ensures BatchAt(others, h, t) ==> h + t != |others| - 1 {
      if BatchAt(others, h, t) {
        BatchEnd(others, h, t);
      }
    }
  }

  lemma BatchEnd(others: seq<Message>, h: int, t: int)
    requires BatchAt(others, h, t)
    ensures others[h + t].IsTool() || others[h + t].Calls()
  {
  }

  /** Unless the newest message is a system message, the batch in progress is kept. */
  ghost predicate InProgress(added: seq<Message>, kept: seq<Message>) {
    added == [] || added[|added| - 1].IsSystem() || KeepsBatch(Others(added), kept)
  }

  lemma {:induction false} TranscriptOwned(added: seq<Message>, room: nat, maxMessages: int)
    requires Answered(added, room, maxMessages)
    ensures Owned(Kept(added, maxMessages)) && InProgress(added, Kept(added, maxMessages))
  {
    if added != [] {
      var before, m := added[..|added| - 1], added[|added| - 1];
      assert added == before + [m];
      AnsweredBefore(before, m, room, maxMessages);
      TranscriptOwned(before, room, maxMessages);
      TranscriptStep(before, m, room, maxMessages);
    }
  }

  lemma TranscriptStep(before: seq<Message>, m: Message, room: nat, maxMessages: int)
    requires Answered(before + [m], room, maxMessages)
    requires Owned(Kept(before, maxMessages)) && InProgress(before, Kept(before, maxMessages))
    ensures Owned(Kept(before + [m], maxMessages)) && InProgress(before + [m], Kept(before + [m], maxMessages))
  {
    TranscriptBatch(before, m, room, maxMessages);
    AddOrphansIff(before, m, maxMessages);
    InProgressSnoc(before, m, Kept(before + [m], maxMessages));
  }

  lemma TranscriptBatch(before: seq<Message>, m: Message, room: nat, maxMessages: int)
    requires Answered(before + [m], room, maxMessages)
    requires Owned(Kept(before, maxMessages)) && InProgress(before, Kept(before, maxMessages))
    ensures m.IsTool() ==> Kept(before, maxMessages) != []
    ensures m.IsSystem() || KeepsBatch(Others(before + [m]), Kept(before + [m], maxMessages))
  {
    KeepsSuffix(before, maxMessages);
    KeptStep(before, m, maxMessages);
    BatchStep(before, m, Kept(before, maxMessages), room, maxMessages);
  }

  lemma InProgressSnoc(before: seq<Message>, m: Message, kept: seq<Message>)
    requires m.IsSystem() || KeepsBatch(Others(before + [m]), kept)
    ensures InProgress(before + [m], kept)
  {
  }

  /** One more message of a transcript, on the non-system messages. */
  lemma BatchStep(before: seq<Message>, m: Message, kept: seq<Message>, room: nat, maxMessages: int)
    requires Answered(before + [m], room, maxMessages) && Others(before + [m]) == Others(before) + Piece(m)
    requires IsSuffix(kept, Others(before)) && Owned(kept) && InProgress(before, kept)
    ensures m.IsTool() ==> kept != []
    ensures m.IsSystem() ||
            KeepsBatch(Others(before + [m]), TrimRest(kept + Piece(m), RoomAfter(before + [m], maxMessages)))
  {
    var others, window := Others(before), RoomAfter(before + [m], maxMessages);
    if m.IsTool() {
      ReplyIsUnbroken(before, m, others);
      AddReply(kept, others, m, room, window);
    } else if m.Calls() {
      AddCaller(kept, others, m, room, window);
    } else if !m.IsSystem() {
      NoBatchEnds(others + [m], TrimRest(kept + [m], window));
    }
  }

  /** The message before a reply of a transcript is not a system message. */
  lemma ReplyIsUnbroken(before: seq<Message>, m: Message, others: seq<Message>)
    requires others == Others(before) && m.IsTool() && Owned(others + [m]) && forall i :: UnbrokenAt(before + [m], i)
    ensures before != [] && !before[|before| - 1].IsSystem()
  {
    assert OwnedAt(others + [m], |others|);
    assert UnbrokenAt(before + [m], |before| - 1);
  }

  /**
   Over every run in which each tool-calling assistant is followed at once by its replies and every
   such batch is shorter than the room left by the system messages, every reply kept has its
   assistant kept before it, at every moment.
   */
  lemma RepliesKeepTheirAssistants(added: seq<Message>, n: nat, maxMessages: int)
    requires n <= |added| && Answered(added, RoomAfter(added, maxMessages), maxMessages)
    ensures Owned(Kept(added[..n], maxMessages))
    decreases |added|
  {
    var room := RoomAfter(added, maxMessages);
    AnsweredPrefix(added, n, room, maxMessages);
    TranscriptOwned(added[..n], room, maxMessages);
  }

  lemma {:induction false} AnsweredPrefix(added: seq<Message>, n: nat, room: nat, maxMessages: int)
    requires n <= |added| && Answered(added, room, maxMessages)
    ensures Answered(added[..n], room, maxMessages)
    decreases |added|
  {
    if n == |added| {
      assert added[..n] == added;
    } else {
      var before, m := added[..|added| - 1], added[|added| - 1];
      assert added == before + [m] && before[..n] == added[..n];
      AnsweredBefore(before, m, room, maxMessages);
      AnsweredPrefix(before, n, room, maxMessages);
    }
  }
}
