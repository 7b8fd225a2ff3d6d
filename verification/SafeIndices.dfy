/**
 The `safe_indices` scans of the four properties, each proved against a predicate on positions.
 Module ViewRemoval says what the positions they offer are worth.
 */
module SafeIndices {
  import opened ViewEvents
  import opened ToolLoops

  predicate ReplyAt(es: seq<Event>, t: Id, j: int) {
    0 <= j < |es| && es[j].Answers() && es[j].toolCallId == t
  }

  /** The last of the indices `1..n` whose assistant declares `t`; 0 when there is none. */
  function LastHead(es: seq<Event>, n: nat, t: Id): int
    requires n <= |es|
  {
    if n <= 1 then 0 else if t in es[n - 1].Declares() then n - 1 else LastHead(es, n - 1, t)
  }

  /** The last of the indices `1..n` whose tool event answers `t`; 0 when there is none. */
  function LastReply(es: seq<Event>, n: nat, t: Id): int
    requires n <= |es|
  {
    if n <= 1 then 0 else if ReplyAt(es, t, n - 1) then n - 1 else LastReply(es, n - 1, t)
  }

  lemma LastHeadIsLast(es: seq<Event>, n: nat, t: Id)
    requires n <= |es|
    ensures var a := LastHead(es, n, t);
            && (a != 0 ==> 1 <= a < n && t in es[a].Declares())
            && (forall k :: 1 <= k < n && a < k ==> t !in es[k].Declares())
  {
  }

  lemma LastReplyIsLast(es: seq<Event>, n: nat, t: Id)
    requires n <= |es|
    ensures var r := LastReply(es, n, t);
            && (r != 0 ==> 1 <= r < n && ReplyAt(es, t, r))
            && (forall k :: 1 <= k < n && r < k ==> !ReplyAt(es, t, k))
  {
  }

  /** Past index 0: a standalone event, the last head of some id, or a reply after the last head of its id. */
  ghost predicate BatchSafe(es: seq<Event>, i: int) {
    && 1 <= i < |es|
    && (|| es[i].Standalone()
        || (exists t :: t in es[i].Declares() && LastHead(es, |es|, t) == i)
        || (es[i].Answers() && 1 <= LastHead(es, |es|, es[i].toolCallId) < i))
  }

  /** Past index 0, and not the first reply to its id. */
  ghost predicate UniqueSafe(es: seq<Event>, i: int) {
    1 <= i < |es| && !FirstReplyAt(es, i)
  }

  ghost predicate FirstReplyAt(es: seq<Event>, i: int) {
    0 <= i < |es| && es[i].Answers() && es[i].toolCallId !in Answered(es[..i])
  }

  /** Past index 0: a standalone event, the last head of an answered id, or the last reply to a declared one. */
  ghost predicate MatchSafe(es: seq<Event>, i: int) {
    && 1 <= i < |es|
    && (|| es[i].Standalone()
        || (exists t :: t in es[i].Declares() && LastHead(es, |es|, t) == i && LastReply(es, |es|, t) != 0)
        || (es[i].Answers() && LastReply(es, |es|, es[i].toolCallId) == i && LastHead(es, |es|, es[i].toolCallId) != 0))
  }

  ghost predicate LoopSafe(es: seq<Event>, i: int) {
    1 <= i < |es|
  }

  method StandaloneIndices(events: seq<Event>) returns (safe: set<int>)
    ensures forall i :: i in safe <==> 1 <= i < |events| && events[i].Standalone()
  {
    safe := {};
    for i := 0 to |events|
      invariant forall k :: k in safe <==> 1 <= k < i && events[k].Standalone()
    {
      if i == 0 {
        continue;
      }
      if !events[i].IsTool() && !events[i].CallsTools() {
        safe := safe + {i};
      }
    }
  }

  // ----- batch atomicity -----

  /** What the batch map records for `t` after `n` events: its last head and the replies since. */
  ghost predicate BatchEntry(es: seq<Event>, n: nat, t: Id, batches: map<Id, (int, set<int>)>)
    requires n <= |es|
  {
    && (t in batches <==> LastHead(es, n, t) != 0)
    && (t in batches ==>
          && batches[t].0 == LastHead(es, n, t)
          && batches[t].1 == set j | LastHead(es, n, t) < j < n && ReplyAt(es, t, j))
  }

  method BuildBatchMap(events: seq<Event>) returns (batches: map<Id, (int, set<int>)>)
    ensures forall t :: BatchEntry(events, |events|, t, batches)
  {
    batches := map[];
    for i := 0 to |events|
      invariant forall t :: BatchEntry(events, i, t, batches)
    {
      ghost var next := i + 1;
      if i == 0 {
        forall t ensures BatchEntry(events, next, t, batches) {
          assert BatchEntry(events, i, t, batches);
        }
        continue;
      }
      var event := events[i];
      ghost var before := batches;
      if event.CallsTools() {
        batches := batches + map tcId | tcId in event.ToolCallIds() :: (i, {});
      } else if event.Answers() {
        var tcId := event.toolCallId;
        if tcId in batches {
          batches := batches[tcId := (batches[tcId].0, batches[tcId].1 + {i})];
        }
      }
      forall t ensures BatchEntry(events, next, t, batches) {
        assert BatchEntry(events, i, t, before);
        LastHeadIsLast(events, i, t);
      }
    }
  }

  method GroupOf(head: Event, headIndex: int, batches: map<Id, (int, set<int>)>) returns (group: set<int>)
    requires head.CallsTools()
    ensures IsGroup(group, head.ToolCallIds(), headIndex, batches)
  {
    group := {headIndex};
    var todo := head.ToolCallIds();
    ghost var done: set<Id> := {};
    while todo != {}
      invariant done + todo == head.ToolCallIds()
      invariant IsGroup(group, done, headIndex, batches)
      decreases |todo|
    {
      var t :| t in todo;
      GroupOneMore(group, done, t, headIndex, batches);
      if t in batches {
        group := group + batches[t].1;
      }
      done, todo := done + {t}, todo - {t};
    }
    assert done == head.ToolCallIds();
  }

  ghost predicate IsGroup(group: set<int>, ids: set<Id>, headIndex: int, batches: map<Id, (int, set<int>)>) {
    forall i :: i in group <==> InGroup(ids, headIndex, batches, i)
  }

  lemma GroupOneMore(group: set<int>, ids: set<Id>, t: Id, headIndex: int, batches: map<Id, (int, set<int>)>)
    requires IsGroup(group, ids, headIndex, batches)
    ensures IsGroup(if t in batches then group + batches[t].1 else group, ids + {t}, headIndex, batches)
  {
    var after := if t in batches then group + batches[t].1 else group;
    forall i ensures i in after <==> InGroup(ids + {t}, headIndex, batches, i) {
      assert i in group <==> InGroup(ids, headIndex, batches, i);
      InGroupOneMore(ids, t, headIndex, batches, i);
    }
  }

  lemma InGroupOneMore(ids: set<Id>, t: Id, headIndex: int, batches: map<Id, (int, set<int>)>, i: int)
    ensures InGroup(ids + {t}, headIndex, batches, i) <==>
            InGroup(ids, headIndex, batches, i) || (t in batches && i in batches[t].1)
  {
    if x :| x in ids && x in batches && i in batches[x].1 {
      assert x in ids + {t};
    }
    if t in batches && i in batches[t].1 {
      assert t in ids + {t};
    }
  }

  /** Index `i` is the head, or a reply recorded for one of `ids`. */
  ghost predicate InGroup(ids: set<Id>, headIndex: int, batches: map<Id, (int, set<int>)>, i: int) {
    i == headIndex || exists t :: t in ids && t in batches && i in batches[t].1
  }

  /** Index `i` belongs to the group of one of the heads in `heads`. */
  ghost predicate Grouped(es: seq<Event>, batches: map<Id, (int, set<int>)>, heads: set<int>, i: int) {
    exists a :: a in heads && 0 <= a < |es| && InGroup(es[a].Declares(), a, batches, i)
  }

  /** The heads recorded for the ids in `ids`. */
  ghost function HeadsOf(ids: set<Id>, batches: map<Id, (int, set<int>)>): set<int>
    requires ids <= batches.Keys
  {
    set t | t in ids :: batches[t].0
  }

  /** Every recorded head is a tool-calling assistant of the list. */
  ghost predicate HeadsCall(es: seq<Event>, batches: map<Id, (int, set<int>)>) {
    forall t :: t in batches ==> 0 <= batches[t].0 < |es| && es[batches[t].0].CallsTools()
  }

  /** The loop over the batch map: each head's group is added once. */
  method CollectGroups(events: seq<Event>, batches: map<Id, (int, set<int>)>, standalone: set<int>)
      returns (safe: set<int>)
    requires HeadsCall(events, batches)
    ensures IsCollected(events, batches, standalone, HeadsOf(batches.Keys, batches), safe)
  {
    safe := standalone;
    var seenHeads: set<int> := {};
    var todo := batches.Keys;
    ghost var done: set<Id> := {};
    while todo != {}
      invariant done + todo == batches.Keys
      invariant seenHeads == HeadsOf(done, batches)
      invariant IsCollected(events, batches, standalone, seenHeads, safe)
      decreases |todo|
    {
      var tcId :| tcId in todo;
      var head := batches[tcId].0;
      assert HeadsOf(done + {tcId}, batches) == HeadsOf(done, batches) + {head};
      done, todo := done + {tcId}, todo - {tcId};
      if head in seenHeads {
        assert seenHeads == seenHeads + {head};
        continue;
      }
      var group := GroupOf(events[head], head, batches);
      CollectOneMore(events, batches, standalone, seenHeads, safe, head, group);
      seenHeads := seenHeads + {head};
      safe := safe + group;
    }
    assert done == batches.Keys;
  }

  lemma HeadsDoCall(es: seq<Event>, batches: map<Id, (int, set<int>)>)
    requires forall t :: BatchEntry(es, |es|, t, batches)
    ensures HeadsCall(es, batches)
  {
    forall t | t in batches ensures 0 <= batches[t].0 < |es| && es[batches[t].0].CallsTools() {
      assert BatchEntry(es, |es|, t, batches);
      LastHeadIsLast(es, |es|, t);
    }
  }

  method BatchSafeIndices(events: seq<Event>) returns (safe: set<int>)
    ensures forall i :: i in safe <==> BatchSafe(events, i)
  {
    var batches := BuildBatchMap(events);
    var standalone := StandaloneIndices(events);
    HeadsDoCall(events, batches);
    safe := CollectGroups(events, batches, standalone);
    forall i ensures i in safe <==> BatchSafe(events, i) {
      GroupedIsSafe(events, batches, i);
    }
  }

  /** The standalone indices and those in the groups of `heads`. */
  ghost predicate IsCollected(es: seq<Event>, batches: map<Id, (int, set<int>)>, standalone: set<int>, heads: set<int>,
                              safe: set<int>)
  {
    forall i :: i in safe <==> i in standalone || Grouped(es, batches, heads, i)
  }

  lemma CollectOneMore(es: seq<Event>, batches: map<Id, (int, set<int>)>, standalone: set<int>, heads: set<int>,
                       safe: set<int>, head: int, group: set<int>)
    requires IsCollected(es, batches, standalone, heads, safe) && 0 <= head < |es|
    requires IsGroup(group, es[head].Declares(), head, batches)
    ensures IsCollected(es, batches, standalone, heads + {head}, safe + group)
  {
    forall i ensures i in safe + group <==> i in standalone || Grouped(es, batches, heads + {head}, i) {
      assert i in safe <==> i in standalone || Grouped(es, batches, heads, i);
      GroupedOneMore(es, batches, heads, head, i);
    }
  }

  lemma GroupedOneMore(es: seq<Event>, batches: map<Id, (int, set<int>)>, heads: set<int>, head: int, i: int)
    requires 0 <= head < |es|
    ensures Grouped(es, batches, heads + {head}, i) <==>
            Grouped(es, batches, heads, i) || InGroup(es[head].Declares(), head, batches, i)
  {
    if Grouped(es, batches, heads, i) {
      var a :| a in heads && 0 <= a < |es| && InGroup(es[a].Declares(), a, batches, i);
      assert a in heads + {head};
    }
    if InGroup(es[head].Declares(), head, batches, i) {
      assert head in heads + {head};
    }
  }

  lemma GroupedIsSafe(es: seq<Event>, batches: map<Id, (int, set<int>)>, i: int)
    requires forall t :: BatchEntry(es, |es|, t, batches)
    ensures ((1 <= i < |es| && es[i].Standalone()) || Grouped(es, batches, HeadsOf(batches.Keys, batches), i)) <==>
            BatchSafe(es, i)
  {
    var heads := HeadsOf(batches.Keys, batches);
    if Grouped(es, batches, heads, i) {
      GroupedImpliesSafe(es, batches, i);
    }
    if BatchSafe(es, i) && !es[i].Standalone() {
      var t;
      if es[i].Answers() {
        t := es[i].toolCallId;
      } else {
        t :| t in es[i].Declares() && LastHead(es, |es|, t) == i;
      }
      assert BatchEntry(es, |es|, t, batches);
      LastHeadIsLast(es, |es|, t);
      assert InGroup(es[batches[t].0].Declares(), batches[t].0, batches, i);
    }
  }

  lemma GroupedImpliesSafe(es: seq<Event>, batches: map<Id, (int, set<int>)>, i: int)
    requires forall t :: BatchEntry(es, |es|, t, batches)
    requires Grouped(es, batches, HeadsOf(batches.Keys, batches), i)
    ensures BatchSafe(es, i)
  {
    var a :| a in HeadsOf(batches.Keys, batches) && 0 <= a < |es| && InGroup(es[a].Declares(), a, batches, i);
    if i == a {
      var t :| t in batches && batches[t].0 == a;
      assert BatchEntry(es, |es|, t, batches);
      LastHeadIsLast(es, |es|, t);
    } else {
      var t :| t in es[a].Declares() && t in batches && i in batches[t].1;
      assert BatchEntry(es, |es|, t, batches);
      LastHeadIsLast(es, |es|, t);
    }
  }

  // ----- observation uniqueness -----

  /** The first loop: where each id is answered first. */
  method FirstOccurrences(events: seq<Event>) returns (firstOccurrence: set<int>)
    ensures forall k :: k in firstOccurrence <==> FirstReplyAt(events, k)
  {
    firstOccurrence := {};
    var seen: set<Id> := {};
    for i := 0 to |events|
      invariant seen == Answered(events[..i])
      invariant forall k :: k in firstOccurrence <==> k < i && FirstReplyAt(events, k)
    {
      var event := events[i];
      IdSetsPrefix(events, i);
      if event.Answers() {
        if event.toolCallId !in seen {
          firstOccurrence := firstOccurrence + {i};
          seen := seen + {event.toolCallId};
        }
      }
    }
  }

  method UniqueSafeIndices(events: seq<Event>) returns (safe: set<int>)
    ensures forall i :: i in safe <==> UniqueSafe(events, i)
  {
    var firstOccurrence := FirstOccurrences(events);
    safe := {};
    for i := 0 to |events|
      invariant forall k :: k in safe <==> 1 <= k < i && k !in firstOccurrence
    {
      if i == 0 {
        continue;
      }
      if i !in firstOccurrence {
        safe := safe + {i};
      }
    }
  }

  // ----- tool-call matching -----

  ghost predicate HeadEntry(es: seq<Event>, n: nat, t: Id, heads: map<Id, int>)
    requires n <= |es|
  {
    (t in heads <==> LastHead(es, n, t) != 0) && (t in heads ==> heads[t] == LastHead(es, n, t))
  }

  ghost predicate ReplyEntry(es: seq<Event>, n: nat, t: Id, replies: map<Id, int>)
    requires n <= |es|
  {
    (t in replies <==> LastReply(es, n, t) != 0) && (t in replies ==> replies[t] == LastReply(es, n, t))
  }

  method LastPositions(events: seq<Event>) returns (heads: map<Id, int>, replies: map<Id, int>)
    ensures forall t :: HeadEntry(events, |events|, t, heads)
    ensures forall t :: ReplyEntry(events, |events|, t, replies)
  {
    heads, replies := map[], map[];
    for i := 0 to |events|
      invariant forall t :: HeadEntry(events, i, t, heads)
      invariant forall t :: ReplyEntry(events, i, t, replies)
    {
      ghost var next := i + 1;
      if i == 0 {
        forall t ensures HeadEntry(events, next, t, heads) && ReplyEntry(events, next, t, replies) {
          assert HeadEntry(events, i, t, heads) && ReplyEntry(events, i, t, replies);
        }
        continue;
      }
      var event := events[i];
      ghost var heads0, replies0 := heads, replies;
      if event.CallsTools() {
        heads := heads + map tcId | tcId in event.ToolCallIds() :: i;
      } else if event.Answers() {
        replies := replies[event.toolCallId := i];
      }
      forall t ensures HeadEntry(events, next, t, heads) && ReplyEntry(events, next, t, replies) {
        assert HeadEntry(events, i, t, heads0) && ReplyEntry(events, i, t, replies0);
      }
    }
  }

  /** Index `i` is the recorded head or the recorded reply of one of `ids`. */
  ghost predicate Paired(ids: set<Id>, heads: map<Id, int>, replies: map<Id, int>, i: int) {
    exists t :: t in ids && t in heads && t in replies && (i == heads[t] || i == replies[t])
  }

  method MatchSafeIndices(events: seq<Event>) returns (safe: set<int>)
    ensures forall i :: i in safe <==> MatchSafe(events, i)
  {
    var heads, replies := LastPositions(events);
    var matched := heads.Keys * replies.Keys;
    safe := {};
    var todo := matched;
    ghost var done: set<Id> := {};
    while todo != {}
      invariant done + todo == matched
      invariant forall i :: i in safe <==> Paired(done, heads, replies, i)
      decreases |todo|
    {
      var tcId :| tcId in todo;
      ghost var before := safe;
      safe := safe + {heads[tcId]};
      safe := safe + {replies[tcId]};
      forall i ensures i in safe <==> Paired(done + {tcId}, heads, replies, i) {
        assert i in before <==> Paired(done, heads, replies, i);
        if i in safe && i !in before {
          assert tcId in done + {tcId};
        }
      }
      done, todo := done + {tcId}, todo - {tcId};
    }
    var standalone := StandaloneIndices(events);
    ghost var paired := safe;
    safe := safe + standalone;
    assert done == matched;
    forall i ensures i in safe <==> MatchSafe(events, i) {
      assert i in paired <==> Paired(matched, heads, replies, i);
      PairedIsSafe(events, heads, replies, i);
    }
  }

  lemma PairedIsSafe(es: seq<Event>, heads: map<Id, int>, replies: map<Id, int>, i: int)
    requires forall t :: HeadEntry(es, |es|, t, heads)
    requires forall t :: ReplyEntry(es, |es|, t, replies)
    ensures ((1 <= i < |es| && es[i].Standalone()) || Paired(heads.Keys * replies.Keys, heads, replies, i)) <==>
            MatchSafe(es, i)
  {
    if Paired(heads.Keys * replies.Keys, heads, replies, i) {
      var t :| t in heads.Keys * replies.Keys && t in heads && t in replies && (i == heads[t] || i == replies[t]);
      assert HeadEntry(es, |es|, t, heads) && ReplyEntry(es, |es|, t, replies);
      LastHeadIsLast(es, |es|, t);
      LastReplyIsLast(es, |es|, t);
    }
    if MatchSafe(es, i) && !es[i].Standalone() {
      var t;
      if es[i].Answers() {
        t := es[i].toolCallId;
      } else {
        t :| t in es[i].Declares() && LastHead(es, |es|, t) == i && LastReply(es, |es|, t) != 0;
      }
      assert HeadEntry(es, |es|, t, heads) && ReplyEntry(es, |es|, t, replies);
    }
  }

  // ----- tool-loop atomicity -----

  method LoopSafeIndices(events: seq<Event>, minLength: int) returns (safe: set<int>)
    ensures forall i :: i in safe <==> LoopSafe(events, i)
  {
    var loops := DetectLoops(events, minLength);
    var loopIndices: set<int> := set l, i | 0 <= l < |loops| && i in loops[l] :: i;
    safe := {};
    for i := 0 to |events|
      invariant forall k :: k in safe <==> 1 <= k < i
    {
      if i == 0 {
        continue;
      }
      if i in loopIndices {
        safe := safe + {i};
      } else {
        safe := safe + {i};
      }
    }
  }
}
