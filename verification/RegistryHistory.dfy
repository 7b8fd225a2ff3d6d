/**
 What the registry answers, stated on the history of its calls: an agent is found exactly when its
 last use is recent enough and few enough other keys were used since.
 */
module RegistryHistory {
  import opened Wrappers
  import opened Registry

  datatype Op<V> = Get(key: string, now: real) | Put(key: string, value: V, now: real)

  ghost predicate Clocked<V>(ops: seq<Op<V>>) {
    forall i, j :: 0 <= i < j < |ops| ==> ops[i].now <= ops[j].now
  }

  // ----- the cache after a history -----

  function CacheAfter<V>(ops: seq<Op<V>>, size: nat, ttl: real): seq<Entry<V>>
    requires size >= 1
  {
    if ops == [] then [] else
    var es := Evicted(CacheAfter(ops[..|ops| - 1], size, ttl), ops[|ops| - 1].now, size, ttl);
    match ops[|ops| - 1]
    case Put(key, value, now) => Touch(es, Entry(key, value, now))
    case Get(key, now) =>
      var found := Find(es, key);
      if found.Some? then Touch(es, Entry(key, found.value, now)) else es
  }

  /** What a `get` answers after a history. */
  function Answer<V>(ops: seq<Op<V>>, key: string, now: real, size: nat, ttl: real): Option<V>
    requires size >= 1
  {
    Find(Evicted(CacheAfter(ops, size, ttl), now, size, ttl), key)
  }

  // ----- the reference: the plain history of uses -----

  function KeysOf<V>(uses: seq<Entry<V>>): set<string> {
    set i | 0 <= i < |uses| :: uses[i].key
  }

  /** The position of the last use of `key`, or -1. */
  function LastUse<V>(uses: seq<Entry<V>>, key: string): (i: int)
    ensures -1 <= i < |uses|
    ensures i >= 0 ==> uses[i].key == key
    ensures forall k :: i < k < |uses| ==> uses[k].key != key
  {
    if uses == [] then -1
    else if uses[|uses| - 1].key == key then |uses| - 1
    else LastUse(uses[..|uses| - 1], key)
  }

  /** A use at `time` with `others` keys used since is recent enough. */
  predicate Recent(time: real, others: nat, now: real, size: nat, ttl: real) {
    now - time <= ttl && others < size - 1
  }

  /** Used at most `ttl` ago, and fewer than `size - 1` other keys used since. */
  predicate Fresh<V>(uses: seq<Entry<V>>, key: string, now: real, size: nat, ttl: real) {
    var i := LastUse(uses, key);
    i >= 0 && Recent(uses[i].time, |KeysOf(uses[i + 1..])|, now, size, ttl)
  }

  /** A put is a use, and so is a get of a fresh key; each use carries the agent it stored or found. */
  function Uses<V>(ops: seq<Op<V>>, size: nat, ttl: real): seq<Entry<V>> {
    if ops == [] then [] else
    var uses := Uses(ops[..|ops| - 1], size, ttl);
    match ops[|ops| - 1]
    case Put(key, value, now) => uses + [Entry(key, value, now)]
    case Get(key, now) =>
      if Fresh(uses, key, now, size, ttl) then uses + [Entry(key, uses[LastUse(uses, key)].value, now)] else uses
  }

  /** The agent of the latest put for `key`. */
  function LatestPut<V>(ops: seq<Op<V>>, key: string): Option<V> {
    if ops == [] then None
    else if ops[|ops| - 1].Put? && ops[|ops| - 1].key == key then Some(ops[|ops| - 1].value)
    else LatestPut(ops[..|ops| - 1], key)
  }

  // ----- the recency stack: every key ever used, by last use -----

  function Stack<V>(uses: seq<Entry<V>>): seq<Entry<V>> {
    if uses == [] then [] else Touch(Stack(uses[..|uses| - 1]), uses[|uses| - 1])
  }

  lemma TouchKeys<V(!new)>(es: seq<Entry<V>>, e: Entry<V>)
    requires DistinctKeys(es)
    ensures DistinctKeys(Touch(es, e))
    ensures forall x :: x in Touch(es, e) <==> x == e || (x in es && x.key != e.key)
  {
    WithoutKeyMembers(es, e.key);
    forall i | 0 <= i < |WithoutKey(es, e.key)| ensures WithoutKey(es, e.key)[i].key != e.key {
      assert WithoutKey(es, e.key)[i] in WithoutKey(es, e.key);
    }
    DistinctSnoc(WithoutKey(es, e.key), e);
  }

  ghost predicate EntriesAreUses<V>(stack: seq<Entry<V>>, uses: seq<Entry<V>>) {
    forall p :: 0 <= p < |stack| ==> LastUse(uses, stack[p].key) >= 0 && stack[p] == uses[LastUse(uses, stack[p].key)]
  }

  ghost predicate OrderedByUse<V>(stack: seq<Entry<V>>, uses: seq<Entry<V>>) {
    forall p, q :: 0 <= p < q < |stack| ==> LastUse(uses, stack[p].key) < LastUse(uses, stack[q].key)
  }

  ghost predicate Held<V>(stack: seq<Entry<V>>, key: string) {
    exists p :: 0 <= p < |stack| && stack[p].key == key
  }

  ghost predicate CoversUses<V>(stack: seq<Entry<V>>, uses: seq<Entry<V>>) {
    forall i {:trigger Held(stack, uses[i].key)} :: 0 <= i < |uses| ==> Held(stack, uses[i].key)
  }

  /** The last uses of all keys, in the order of those uses. */
  ghost predicate IsStack<V>(stack: seq<Entry<V>>, uses: seq<Entry<V>>) {
    DistinctKeys(stack) && EntriesAreUses(stack, uses) && OrderedByUse(stack, uses) && CoversUses(stack, uses)
  }

  lemma LastUseSnoc<V>(uses: seq<Entry<V>>, e: Entry<V>, key: string)
    ensures LastUse(uses + [e], key) == if e.key == key then |uses| else LastUse(uses, key)
  {
    assert (uses + [e])[..|uses|] == uses;
  }

  lemma {:induction false} StackIsStack<V(!new)>(uses: seq<Entry<V>>)
    ensures IsStack(Stack(uses), uses)
  {
    if uses != [] {
      var before, e := uses[..|uses| - 1], uses[|uses| - 1];
      StackIsStack(before);
      assert uses == before + [e];
      StackStep(Stack(before), before, e);
    }
  }

  /** Touching removes at most one position, `p`, and appends. */
  ghost predicate Shape<V>(stack: seq<Entry<V>>, e: Entry<V>, p: nat) {
    && p <= |stack|
    && (p < |stack| ==> stack[p].key == e.key && Touch(stack, e) == stack[..p] + stack[p + 1..] + [e])
    && (p == |stack| ==> NoKey(stack, e.key) && Touch(stack, e) == stack + [e])
  }

  lemma TouchShape<V(!new)>(stack: seq<Entry<V>>, e: Entry<V>) returns (p: nat)
    requires DistinctKeys(stack)
    ensures Shape(stack, e, p)
  {
    if q :| 0 <= q < |stack| && stack[q].key == e.key {
      p := q;
      WithoutKeyAt(stack, e.key, p);
    } else {
      p := |stack|;
      WithoutKeyAbsent(stack, e.key);
    }
  }

  /** Where the entries of a touched stack come from. */
  ghost function Origin(p: nat, i: nat): nat {
    if i < p then i else i + 1
  }

  lemma TouchOrigins<V(!new)>(stack: seq<Entry<V>>, e: Entry<V>) returns (p: nat)
    requires DistinctKeys(stack)
    ensures var after := Touch(stack, e);
            && p <= |stack| && |after| == (if p < |stack| then |stack| else |stack| + 1) && after[|after| - 1] == e
            && (forall i :: 0 <= i < |after| - 1 ==>
               Origin(p, i) < |stack| && after[i] == stack[Origin(p, i)] && after[i].key != e.key)
            && Shape(stack, e, p)
  {
    p := TouchShape(stack, e);
    var after := Touch(stack, e);
    forall i | 0 <= i < |after| - 1
      ensures Origin(p, i) < |stack| && after[i] == stack[Origin(p, i)] && after[i].key != e.key
    {
      assert after[i] == stack[Origin(p, i)];
      assert stack[Origin(p, i)] in stack;
    }
  }

  lemma StackEntries<V(!new)>(stack: seq<Entry<V>>, uses: seq<Entry<V>>, e: Entry<V>, p: nat, i: nat)
    requires IsStack(stack, uses) && i < |stack| && stack[i].key != e.key
    ensures LastUse(uses + [e], stack[i].key) == LastUse(uses, stack[i].key) >= 0
    ensures stack[i] == (uses + [e])[LastUse(uses, stack[i].key)]
  {
    LastUseSnoc(uses, e, stack[i].key);
  }

  /** `after` lists the entries of `stack` but position `p`, and then `e`. */
  ghost predicate FromOrigins<V>(stack: seq<Entry<V>>, e: Entry<V>, p: nat, after: seq<Entry<V>>) {
    && after != [] && after[|after| - 1] == e
    && forall i :: 0 <= i < |after| - 1 ==>
       Origin(p, i) < |stack| && after[i] == stack[Origin(p, i)] && after[i].key != e.key
  }

  lemma StepEntries<V(!new)>(stack: seq<Entry<V>>, uses: seq<Entry<V>>, e: Entry<V>, p: nat, after: seq<Entry<V>>)
    requires IsStack(stack, uses) && FromOrigins(stack, e, p, after)
    ensures forall i :: 0 <= i < |after| - 1 ==>
              LastUse(uses + [e], after[i].key) == LastUse(uses, stack[Origin(p, i)].key) >= 0 &&
              after[i] == (uses + [e])[LastUse(uses + [e], after[i].key)]
    ensures LastUse(uses + [e], e.key) == |uses|
  {
    LastUseSnoc(uses, e, e.key);
    forall i | 0 <= i < |after| - 1
      ensures LastUse(uses + [e], after[i].key) == LastUse(uses, stack[Origin(p, i)].key) >= 0
      ensures after[i] == (uses + [e])[LastUse(uses + [e], after[i].key)]
    {
      StackEntries(stack, uses, e, p, Origin(p, i));
    }
  }

  lemma StepOrder<V(!new)>(stack: seq<Entry<V>>, uses: seq<Entry<V>>, e: Entry<V>, p: nat, after: seq<Entry<V>>,
                           i: nat, j: nat)
    requires IsStack(stack, uses) && FromOrigins(stack, e, p, after) && i < j < |after|
    ensures LastUse(uses + [e], after[i].key) < LastUse(uses + [e], after[j].key)
  {
    StepEntries(stack, uses, e, p, after);
    if j < |after| - 1 {
      assert Origin(p, i) < Origin(p, j);
    }
  }

  lemma TouchEntries<V(!new)>(stack: seq<Entry<V>>, uses: seq<Entry<V>>, e: Entry<V>)
    requires IsStack(stack, uses)
    ensures EntriesAreUses(Touch(stack, e), uses + [e])
  {
    var p := TouchOrigins(stack, e);
    StepEntries(stack, uses, e, p, Touch(stack, e));
  }

  lemma TouchOrder<V(!new)>(stack: seq<Entry<V>>, uses: seq<Entry<V>>, e: Entry<V>)
    requires IsStack(stack, uses)
    ensures OrderedByUse(Touch(stack, e), uses + [e])
  {
    var p := TouchOrigins(stack, e);
    var after, all := Touch(stack, e), uses + [e];
    forall i, j | 0 <= i < j < |after| ensures LastUse(all, after[i].key) < LastUse(all, after[j].key) {
      StepOrder(stack, uses, e, p, after, i, j);
    }
  }

  /** Touching moves one key to the end and leaves the order of the others. */
  lemma StackStep<V(!new)>(stack: seq<Entry<V>>, uses: seq<Entry<V>>, e: Entry<V>)
    requires IsStack(stack, uses)
    ensures IsStack(Touch(stack, e), uses + [e])
  {
    TouchKeys(stack, e);
    TouchEntries(stack, uses, e);
    TouchOrder(stack, uses, e);
    StackCovers(stack, uses, e);
  }

  lemma StackCovers<V(!new)>(stack: seq<Entry<V>>, uses: seq<Entry<V>>, e: Entry<V>)
    requires IsStack(stack, uses)
    ensures CoversUses(Touch(stack, e), uses + [e])
  {
    var after, all := Touch(stack, e), uses + [e];
    TouchKeys(stack, e);
    forall i | 0 <= i < |all| ensures Held(after, all[i].key) {
      if all[i].key == e.key {
        assert after[|after| - 1].key == all[i].key;
      } else {
        assert Held(stack, uses[i].key);
        var q :| 0 <= q < |stack| && stack[q].key == uses[i].key;
        assert stack[q] in after;
        var r :| 0 <= r < |after| && after[r] == stack[q];
      }
    }
  }

  lemma UsedLaterIsAbove<V(!new)>(stack: seq<Entry<V>>, uses: seq<Entry<V>>, p: nat, j: nat)
    requires IsStack(stack, uses) && p < |stack| && LastUse(uses, stack[p].key) < j < |uses|
    ensures uses[j].key in KeysOf(stack[p + 1..])
  {
    assert Held(stack, uses[j].key);
    var q :| 0 <= q < |stack| && stack[q].key == uses[j].key;
    assert LastUse(uses, stack[q].key) >= j;
    assert p < q;
    KeyAt(stack, p + 1, q);
  }

  lemma KeyAt<V(!new)>(es: seq<Entry<V>>, from: nat, q: nat)
    requires from <= q < |es|
    ensures es[q].key in KeysOf(es[from..])
  {
    assert es[from..][q - from] == es[q];
  }

  lemma AboveIsUsedLater<V(!new)>(stack: seq<Entry<V>>, uses: seq<Entry<V>>, p: nat, q: nat)
    requires IsStack(stack, uses) && p < q < |stack|
    ensures stack[q].key in KeysOf(uses[LastUse(uses, stack[p].key) + 1..])
  {
    var i, j := LastUse(uses, stack[p].key), LastUse(uses, stack[q].key);
    KeyAt(uses, i + 1, j);
  }

  lemma LaterKeysAreAbove<V(!new)>(stack: seq<Entry<V>>, uses: seq<Entry<V>>, p: nat, later: seq<Entry<V>>,
                                   above: seq<Entry<V>>)
    requires IsStack(stack, uses) && p < |stack|
    requires later == uses[LastUse(uses, stack[p].key) + 1..] && above == stack[p + 1..]
    ensures KeysOf(later) == KeysOf(above)
  {
    var i := LastUse(uses, stack[p].key);
    forall x | x in KeysOf(later) ensures x in KeysOf(above) {
      var j :| 0 <= j < |later| && later[j].key == x;
      assert later[j] == uses[i + 1 + j];
      UsedLaterIsAbove(stack, uses, p, i + 1 + j);
    }
    forall x | x in KeysOf(above) ensures x in KeysOf(later) {
      var q :| 0 <= q < |above| && above[q].key == x;
      assert above[q] == stack[p + 1 + q];
      AboveIsUsedLater(stack, uses, p, p + 1 + q);
    }
  }

  lemma DistinctAbove<V(!new)>(stack: seq<Entry<V>>, p: nat)
    requires DistinctKeys(stack) && p < |stack|
    ensures |KeysOf(stack[p + 1..])| == |stack| - 1 - p
  {
    assert DistinctKeys(stack[p + 1..]);
    DistinctCount(stack[p + 1..]);
  }

  /** The keys used after the last use of a key are the keys above it in the stack. */
  lemma KeysAbove<V(!new)>(stack: seq<Entry<V>>, uses: seq<Entry<V>>, p: nat)
    requires IsStack(stack, uses) && p < |stack|
    ensures |KeysOf(uses[LastUse(uses, stack[p].key) + 1..])| == |stack| - 1 - p
  {
    LaterKeysAreAbove(stack, uses, p, uses[LastUse(uses, stack[p].key) + 1..], stack[p + 1..]);
    DistinctAbove(stack, p);
  }

  lemma {:induction false} DistinctCount<V(!new)>(es: seq<Entry<V>>)
    requires DistinctKeys(es)
    ensures |KeysOf(es)| == |es|
  {
    if es != [] {
      var before, last := es[..|es| - 1], es[|es| - 1];
      DistinctCount(before);
      assert KeysOf(es) == KeysOf(before) + {last.key};
      assert last.key !in KeysOf(before);
    }
  }

  // ----- the cache is the fresh end of the stack -----

  /** The entry at `i` is expired, or has been pushed out. */
  ghost predicate Dead<V>(stack: seq<Entry<V>>, i: int, now: real, size: nat, ttl: real)
    requires 0 <= i < |stack|
  {
    !Recent(stack[i].time, |stack| - 1 - i, now, size, ttl)
  }

  /** The first `c` entries, and no others, are dead. */
  ghost predicate Cut<V>(stack: seq<Entry<V>>, c: nat, now: real, size: nat, ttl: real) {
    c <= |stack| && forall i :: 0 <= i < |stack| ==> (i < c <==> Dead(stack, i, now, size, ttl))
  }

  /** `m` splits the stack into the entries that are gone for good and the cached ones. */
  ghost predicate Split<V>(stack: seq<Entry<V>>, m: nat, clock: real, size: nat, ttl: real) {
    && m <= |stack|
    && ByTime(stack) && (forall i :: 0 <= i < |stack| ==> stack[i].time <= clock)
    && (forall i :: 0 <= i < m ==> Dead(stack, i, clock, size, ttl))
  }

  lemma {:induction false} LiveSuffix<V(!new)>(es: seq<Entry<V>>, now: real, ttl: real) returns (k: nat)
    requires ByTime(es)
    ensures k <= |es| && Live(es, now, ttl) == es[k..]
    ensures forall i :: 0 <= i < |es| ==> (i < k <==> now - es[i].time > ttl)
  {
    if es == [] {
      return 0;
    }
    var before, last := es[..|es| - 1], es[|es| - 1];
    if now - last.time > ttl {
      LastIsLatest(es);
      LiveNone(es, now, ttl);
      k := |es|;
    } else {
      assert ByTime(before);
      k := LiveSuffix(before, now, ttl);
      assert before[k..] + [last] == es[k..];
      assert forall i :: 0 <= i < |before| ==> before[i] == es[i];
    }
  }

  lemma LastIsLatest<V(!new)>(es: seq<Entry<V>>)
    requires ByTime(es) && es != []
    ensures forall i :: 0 <= i < |es| ==> es[i].time <= es[|es| - 1].time
  {
  }

  lemma {:induction false} LiveNone<V(!new)>(es: seq<Entry<V>>, now: real, ttl: real)
    requires forall i :: 0 <= i < |es| ==> now - es[i].time > ttl
    ensures Live(es, now, ttl) == []
  {
    if es != [] {
      LiveNone(es[..|es| - 1], now, ttl);
    }
  }

  /** Evicting cuts the stack exactly where its entries stop being dead. */
  lemma EvictCut<V(!new)>(stack: seq<Entry<V>>, m: nat, clock: real, now: real, size: nat, ttl: real) returns (c: nat)
    requires Split(stack, m, clock, size, ttl) && clock <= now && size >= 1
    ensures m <= c && Cut(stack, c, now, size, ttl) && Evicted(stack[m..], now, size, ttl) == stack[c..]
  {
    var es := stack[m..];
    assert forall i :: 0 <= i < |es| ==> es[i] == stack[m + i];
    var k := LiveSuffix(es, now, ttl);
    assert es[k..] == stack[m + k..];
    c := m + k;
    if |es[k..]| >= size {
      c := |stack| - (size - 1);
    }
    forall i | 0 <= i < |stack| ensures i < c <==> Dead(stack, i, now, size, ttl) {
      if i < m {
        assert Dead(stack, i, clock, size, ttl);
      } else {
        assert es[i - m] == stack[i];
      }
    }
  }

  lemma TouchByTime<V(!new)>(stack: seq<Entry<V>>, e: Entry<V>)
    requires DistinctKeys(stack) && ByTime(stack) && forall i :: 0 <= i < |stack| ==> stack[i].time <= e.time
    ensures ByTime(Touch(stack, e)) && forall i :: 0 <= i < |Touch(stack, e)| ==> Touch(stack, e)[i].time <= e.time
  {
    var p := TouchOrigins(stack, e);
    var after := Touch(stack, e);
    forall i, j | 0 <= i < j < |after| ensures after[i].time <= after[j].time {
      if j < |after| - 1 {
        assert Origin(p, i) < Origin(p, j);
      }
    }
  }

  lemma TouchDead<V(!new)>(stack: seq<Entry<V>>, c: nat, e: Entry<V>, p: nat, i: nat, size: nat, ttl: real)
    requires p <= |stack| && c <= |stack| && (forall k :: 0 <= k < c ==> Dead(stack, k, e.time, size, ttl))
    requires |Touch(stack, e)| == (if p < |stack| then |stack| else |stack| + 1)
    requires i < |Touch(stack, e)| - 1 && Origin(p, i) < |stack| && Touch(stack, e)[i] == stack[Origin(p, i)]
    requires i < (if p < c then c - 1 else c)
    ensures Dead(Touch(stack, e), i, e.time, size, ttl)
  {
    assert Dead(stack, Origin(p, i), e.time, size, ttl);
  }

  /** Touching keeps the split: an entry that is dead stays dead. */
  lemma TouchSplit<V(!new)>(stack: seq<Entry<V>>, c: nat, e: Entry<V>, size: nat, ttl: real) returns (m: nat)
    requires Split(stack, c, e.time, size, ttl) && DistinctKeys(stack)
    ensures Split(Touch(stack, e), m, e.time, size, ttl)
    ensures Touch(stack[c..], e) == Touch(stack, e)[m..]
  {
    var p := TouchOrigins(stack, e);
    TouchByTime(stack, e);
    m := if p < c then c - 1 else c;
    forall i | 0 <= i < m ensures Dead(Touch(stack, e), i, e.time, size, ttl) {
      TouchDead(stack, c, e, p, i, size, ttl);
    }
    TouchCached(stack, c, e, p);
  }

  /** The cached part is touched as the stack is. */
  lemma TouchCached<V(!new)>(stack: seq<Entry<V>>, c: nat, e: Entry<V>, p: nat)
    requires DistinctKeys(stack) && c <= |stack| && Shape(stack, e, p)
    ensures var m := if p < c then c - 1 else c;
            m <= |Touch(stack, e)| && Touch(stack[c..], e) == Touch(stack, e)[m..]
  {
    if p == |stack| {
      TouchCachedNew(stack, c, e);
    } else if c <= p {
      TouchCachedInside(stack, c, e, p);
    } else {
      TouchCachedOutside(stack, c, e, p);
    }
  }

  lemma TouchCachedInside<V(!new)>(stack: seq<Entry<V>>, c: nat, e: Entry<V>, p: nat)
    requires DistinctKeys(stack) && c <= p < |stack| && stack[p].key == e.key
    requires Touch(stack, e) == stack[..p] + stack[p + 1..] + [e]
    ensures Touch(stack[c..], e) == Touch(stack, e)[c..]
  {
    var cached := stack[c..];
    assert DistinctKeys(cached);
    WithoutKeyAt(cached, e.key, p - c);
    assert cached[..p - c] + cached[p - c + 1..] + [e] == (stack[..p] + stack[p + 1..] + [e])[c..];
  }

  lemma TouchCachedOutside<V(!new)>(stack: seq<Entry<V>>, c: nat, e: Entry<V>, p: nat)
    requires DistinctKeys(stack) && p < c <= |stack| && stack[p].key == e.key
    requires Touch(stack, e) == stack[..p] + stack[p + 1..] + [e]
    ensures Touch(stack[c..], e) == Touch(stack, e)[c - 1..]
  {
    KeyNotAbove(stack, c, e.key, p);
    WithoutKeyAbsent(stack[c..], e.key);
    DropAcross(stack, p, c, e);
  }

  lemma DropAcross<T>(s: seq<T>, p: nat, c: nat, x: T)
    requires p < c <= |s|
    ensures (s[..p] + s[p + 1..] + [x])[c - 1..] == s[c..] + [x]
  {
    var t := s[..p] + s[p + 1..];
    forall i | c - 1 <= i < |t| ensures t[i] == s[i + 1] {
    }
    assert t[c - 1..] == s[c..];
  }

  lemma TouchCachedNew<V(!new)>(stack: seq<Entry<V>>, c: nat, e: Entry<V>)
    requires c <= |stack| && NoKey(stack, e.key) && Touch(stack, e) == stack + [e]
    ensures Touch(stack[c..], e) == Touch(stack, e)[c..]
  {
    WithoutKeyAbsent(stack[c..], e.key);
    assert stack[c..] + [e] == (stack + [e])[c..];
  }

  lemma KeyNotAbove<V(!new)>(stack: seq<Entry<V>>, c: nat, key: string, p: nat)
    requires DistinctKeys(stack) && p < c <= |stack| && stack[p].key == key
    ensures NoKey(stack[c..], key)
  {
  }

  /** Looking a key up in the uncut part of a stack that holds it at `p`. */
  lemma FindHeld<V(!new)>(stack: seq<Entry<V>>, c: nat, key: string, p: nat)
    requires DistinctKeys(stack) && c <= |stack| && p < |stack| && stack[p].key == key
    ensures Find(stack[c..], key) == if c <= p then Some(stack[p].value) else None
  {
    var cached := stack[c..];
    FindAt(cached, key);
    if c <= p {
      assert cached[p - c] == stack[p];
    } else {
      KeyNotAbove(stack, c, key, p);
    }
  }

  lemma FindAbsent<V(!new)>(stack: seq<Entry<V>>, c: nat, key: string)
    requires DistinctKeys(stack) && c <= |stack| && NoKey(stack, key)
    ensures Find(stack[c..], key).None?
  {
    FindAt(stack[c..], key);
    assert NoKey(stack[c..], key);
  }

  /** Where the stack holds a key that was used. */
  lemma StackPosition<V(!new)>(stack: seq<Entry<V>>, uses: seq<Entry<V>>, key: string) returns (p: nat)
    requires EntriesAreUses(stack, uses) && CoversUses(stack, uses) && LastUse(uses, key) >= 0
    ensures p < |stack| && stack[p].key == key && stack[p] == uses[LastUse(uses, key)]
  {
    assert Held(stack, uses[LastUse(uses, key)].key);
    p :| 0 <= p < |stack| && stack[p].key == uses[LastUse(uses, key)].key;
  }

  lemma UnusedNotFound<V(!new)>(stack: seq<Entry<V>>, uses: seq<Entry<V>>, c: nat, key: string)
    requires DistinctKeys(stack) && EntriesAreUses(stack, uses) && c <= |stack| && LastUse(uses, key) < 0
    ensures Find(stack[c..], key).None?
  {
    forall p | 0 <= p < |stack| ensures stack[p].key != key {
      assert LastUse(uses, stack[p].key) >= 0;
    }
    FindAbsent(stack, c, key);
  }

  /** A key is in the uncut part of the stack exactly when it is fresh, with the agent of its last use. */
  lemma FindIsFresh<V(!new)>(stack: seq<Entry<V>>, uses: seq<Entry<V>>, c: nat, key: string, now: real, size: nat,
                             ttl: real)
    requires IsStack(stack, uses) && Cut(stack, c, now, size, ttl)
    ensures Find(stack[c..], key) ==
            if Fresh(uses, key, now, size, ttl) then Some(uses[LastUse(uses, key)].value) else None
  {
    if LastUse(uses, key) < 0 {
      UnusedNotFound(stack, uses, c, key);
    } else {
      var p := UsedPosition(stack, uses, key);
      CutAt(stack, c, p, now, size, ttl);
      FindUsed(stack, uses, c, key, p, now, size, ttl);
    }
  }

  /** Where a used key stands, with the keys used since above it. */
  lemma UsedPosition<V(!new)>(stack: seq<Entry<V>>, uses: seq<Entry<V>>, key: string) returns (p: nat)
    requires IsStack(stack, uses) && LastUse(uses, key) >= 0
    ensures p < |stack| && stack[p] == uses[LastUse(uses, key)]
    ensures |KeysOf(uses[LastUse(uses, key) + 1..])| == |stack| - 1 - p
  {
    p := StackPosition(stack, uses, key);
    KeysAbove(stack, uses, p);
  }

  lemma CutAt<V(!new)>(stack: seq<Entry<V>>, c: nat, p: nat, now: real, size: nat, ttl: real)
    requires Cut(stack, c, now, size, ttl) && p < |stack|
    ensures c <= |stack| && (p < c <==> Dead(stack, p, now, size, ttl))
  {
  }

  lemma FindUsed<V(!new)>(stack: seq<Entry<V>>, uses: seq<Entry<V>>, c: nat, key: string, p: nat, now: real,
                          size: nat, ttl: real)
    requires DistinctKeys(stack) && c <= |stack|
    requires p < |stack| && LastUse(uses, key) >= 0 && stack[p] == uses[LastUse(uses, key)]
    requires |KeysOf(uses[LastUse(uses, key) + 1..])| == |stack| - 1 - p
    requires p < c <==> Dead(stack, p, now, size, ttl)
    ensures Find(stack[c..], key) ==
            if Fresh(uses, key, now, size, ttl) then Some(uses[LastUse(uses, key)].value) else None
  {
    FindHeld(stack, c, key, p);
  }

  /** Where the clock stands after a history. */
  ghost predicate AtClock<V>(ops: seq<Op<V>>, clock: real) {
    forall i :: 0 <= i < |ops| ==> ops[i].now <= clock
  }

  /** The cache is a suffix of the stack of uses, and what it lacks is dead. */
  lemma {:induction false} CacheIsSuffix<V(!new)>(ops: seq<Op<V>>, clock: real, size: nat, ttl: real) returns (m: nat)
    requires size >= 1 && Clocked(ops) && AtClock(ops, clock)
    ensures Split(Stack(Uses(ops, size, ttl)), m, clock, size, ttl)
    ensures CacheAfter(ops, size, ttl) == Stack(Uses(ops, size, ttl))[m..]
  {
    if ops == [] {
      return 0;
    }
    var before, op := ops[..|ops| - 1], ops[|ops| - 1];
    var uses := Uses(before, size, ttl);
    var stack := Stack(uses);
    m := CacheIsSuffix(before, op.now, size, ttl);
    var c := EvictCut(stack, m, op.now, op.now, size, ttl);
    StackIsStack(uses);
    FindIsFresh(stack, uses, c, op.key, op.now, size, ttl);
    var all := Uses(ops, size, ttl);
    if all == uses {
      m := c;
    } else {
      var e := all[|uses|];
      assert all == uses + [e] && all[..|all| - 1] == uses;
      m := TouchSplit(stack, c, e, size, ttl);
    }
    LaterClock(Stack(all), m, op.now, clock, size, ttl);
  }

  lemma LaterClock<V(!new)>(stack: seq<Entry<V>>, m: nat, clock: real, later: real, size: nat, ttl: real)
    requires Split(stack, m, clock, size, ttl) && clock <= later
    ensures Split(stack, m, later, size, ttl)
  {
    forall i | 0 <= i < m ensures Dead(stack, i, later, size, ttl) {
      assert Dead(stack, i, clock, size, ttl);
    }
  }

  /**
   A `get` finds an agent exactly when the key's last use is at most the idle limit ago and fewer
   than `size - 1` other keys were used since; it returns the agent of that use.
   */
  lemma GetHitsIffFresh<V(!new)>(ops: seq<Op<V>>, key: string, now: real, size: nat, ttl: real)
    requires size >= 1 && Clocked(ops) && AtClock(ops, now)
    ensures var uses := Uses(ops, size, ttl);
            Answer(ops, key, now, size, ttl) ==
            if Fresh(uses, key, now, size, ttl) then Some(uses[LastUse(uses, key)].value) else None
  {
    var uses := Uses(ops, size, ttl);
    var m := CacheIsSuffix(ops, now, size, ttl);
    var c := EvictCut(Stack(uses), m, now, now, size, ttl);
    StackIsStack(uses);
    FindIsFresh(Stack(uses), uses, c, key, now, size, ttl);
  }

  /** Every use of a key carries the agent of the latest put before it. */
  lemma {:induction false} UsesCarryPuts<V(!new)>(ops: seq<Op<V>>, key: string, size: nat, ttl: real)
    ensures var uses := Uses(ops, size, ttl);
            LastUse(uses, key) >= 0 ==> LatestPut(ops, key) == Some(uses[LastUse(uses, key)].value)
  {
    if ops != [] {
      UsesCarryPuts(ops[..|ops| - 1], key, size, ttl);
      var uses, all := Uses(ops[..|ops| - 1], size, ttl), Uses(ops, size, ttl);
      if all != uses {
        var e := all[|uses|];
        assert all == uses + [e];
        LastUseSnoc(uses, e, key);
      }
    }
  }

  /** A hit returns what the latest put stored. */
  lemma HitReturnsLatestPut<V(!new)>(ops: seq<Op<V>>, key: string, now: real, size: nat, ttl: real)
    requires size >= 1 && Clocked(ops) && AtClock(ops, now)
    ensures Answer(ops, key, now, size, ttl).Some? ==> Answer(ops, key, now, size, ttl) == LatestPut(ops, key)
  {
    GetHitsIffFresh(ops, key, now, size, ttl);
    UsesCarryPuts(ops, key, size, ttl);
  }

  /** The cache never outgrows its size, holds each key once, and lists the keys by their last use. */
  lemma CacheBoundedAndOrdered<V(!new)>(ops: seq<Op<V>>, clock: real, size: nat, ttl: real)
    requires size >= 1 && Clocked(ops) && AtClock(ops, clock)
    ensures var cache, uses := CacheAfter(ops, size, ttl), Uses(ops, size, ttl);
            && |cache| <= size && DistinctKeys(cache)
            && (forall e :: e in cache ==> LastUse(uses, e.key) >= 0 && e == uses[LastUse(uses, e.key)])
            && (forall i, j :: 0 <= i < j < |cache| ==> LastUse(uses, cache[i].key) < LastUse(uses, cache[j].key))
  {
    var cache, uses := CacheAfter(ops, size, ttl), Uses(ops, size, ttl);
    var m := CacheIsSuffix(ops, clock, size, ttl);
    StackIsStack(uses);
    TopOfStack(Stack(uses), uses, m);
    CacheBounded(ops, size, ttl);
  }

  lemma TopOfStack<V(!new)>(stack: seq<Entry<V>>, uses: seq<Entry<V>>, m: nat)
    requires IsStack(stack, uses) && m <= |stack|
    ensures var top := stack[m..];
            && DistinctKeys(top)
            && (forall e :: e in top ==> LastUse(uses, e.key) >= 0 && e == uses[LastUse(uses, e.key)])
            && (forall i, j :: 0 <= i < j < |top| ==> LastUse(uses, top[i].key) < LastUse(uses, top[j].key))
  {
    var top := stack[m..];
    assert forall i :: 0 <= i < |top| ==> top[i] == stack[m + i];
    forall e | e in top ensures LastUse(uses, e.key) >= 0 && e == uses[LastUse(uses, e.key)] {
      var i :| m <= i < |stack| && stack[i] == e;
    }
  }

  lemma CacheBounded<V(!new)>(ops: seq<Op<V>>, size: nat, ttl: real)
    requires size >= 1
    ensures |CacheAfter(ops, size, ttl)| <= size
  {
    if ops != [] {
      var es := Evicted(CacheAfter(ops[..|ops| - 1], size, ttl), ops[|ops| - 1].now, size, ttl);
      assert |es| <= size - 1;
      WithoutKeyShrinks(es, ops[|ops| - 1].key);
    }
  }

  lemma WithoutKeyShrinks<V(!new)>(es: seq<Entry<V>>, key: string)
    ensures |WithoutKey(es, key)| <= |es|
  {
  }

  /** A registry of size one never finds anything: both operations trim to one entry less than the size. */
  lemma SizeOneNeverHits<V(!new)>(ops: seq<Op<V>>, key: string, now: real, ttl: real)
    requires Clocked(ops) && AtClock(ops, now)
    ensures Answer(ops, key, now, 1, ttl).None?
  {
    GetHitsIffFresh(ops, key, now, 1, ttl);
  }
}
