/**
 The agent registry: an LRU cache with an idle limit. The class is proved against functions on its
 entry list; module RegistryHistory compares every run of those with the plain history of uses.
 */
module Registry {
  import opened Wrappers

  /** One cached agent with the time of its last use; lists of entries run from least to most recent. */
  datatype Entry<V> = Entry(key: string, value: V, time: real)

  ghost predicate DistinctKeys<V>(es: seq<Entry<V>>) {
    forall i, j :: 0 <= i < j < |es| ==> es[i].key != es[j].key
  }

  ghost predicate ByTime<V>(es: seq<Entry<V>>) {
    forall i, j :: 0 <= i < j < |es| ==> es[i].time <= es[j].time
  }

  /** The entries not idle beyond `ttl`. */
  function Live<V>(es: seq<Entry<V>>, now: real, ttl: real): seq<Entry<V>> {
    if es == [] then [] else
    Live(es[..|es| - 1], now, ttl) + (if now - es[|es| - 1].time > ttl then [] else [es[|es| - 1]])
  }

  ghost predicate EntriesAt<V>(es: seq<Entry<V>>, ks: seq<nat>, out: seq<Entry<V>>) {
    |out| == |ks| && forall i :: 0 <= i < |ks| ==> ks[i] < |es| && out[i] == es[ks[i]]
  }

  lemma EntriesAtSnoc<V>(before: seq<Entry<V>>, e: Entry<V>, ks: seq<nat>, out: seq<Entry<V>>)
    requires EntriesAt(before, ks, out)
    ensures EntriesAt(before + [e], ks, out) && EntriesAt(before + [e], ks + [|before|], out + [e])
  {
  }

  /** The live entries are those used at most `ttl` ago, each once and in order, whatever the clock did. */
  lemma {:induction false} LiveInOrder<V>(es: seq<Entry<V>>, now: real, ttl: real) returns (ks: seq<nat>)
    ensures Increasing(ks) && forall k: nat :: k in ks <==> k < |es| && now - es[k].time <= ttl
    ensures EntriesAt(es, ks, Live(es, now, ttl))
  {
    ks := [];
    if es != [] {
      var before, e := es[..|es| - 1], es[|es| - 1];
      assert es == before + [e];
      ks := LiveInOrder(before, now, ttl);
      EntriesAtSnoc(before, e, ks, Live(before, now, ttl));
      if now - e.time <= ttl {
        LastPosition(ks, |before|);
        ks := ks + [|before|];
      }
    }
  }

  /** The most recent `size - 1` entries. */
  function Trim<V>(es: seq<Entry<V>>, size: nat): seq<Entry<V>>
    requires size >= 1
  {
    if |es| >= size then es[|es| - (size - 1)..] else es
  }

  /** What both `get` and `put` do first. */
  function Evicted<V>(es: seq<Entry<V>>, now: real, size: nat, ttl: real): seq<Entry<V>>
    requires size >= 1
  {
    Trim(Live(es, now, ttl), size)
  }

  function Find<V>(es: seq<Entry<V>>, key: string): Option<V> {
    if es == [] then None
    else if es[|es| - 1].key == key then Some(es[|es| - 1].value)
    else Find(es[..|es| - 1], key)
  }

  function WithoutKey<V>(es: seq<Entry<V>>, key: string): seq<Entry<V>> {
    if es == [] then [] else
    WithoutKey(es[..|es| - 1], key) + (if es[|es| - 1].key == key then [] else [es[|es| - 1]])
  }

  /** The entry becomes the most recent one for its key. */
  function Touch<V>(es: seq<Entry<V>>, e: Entry<V>): seq<Entry<V>> {
    WithoutKey(es, e.key) + [e]
  }

  ghost predicate NoKey<V>(es: seq<Entry<V>>, key: string) {
    forall i :: 0 <= i < |es| ==> es[i].key != key
  }

  /** A sublist of a list without the key. */
  lemma NoKeyWithin<V(!new)>(es: seq<Entry<V>>, more: seq<Entry<V>>, key: string)
    requires NoKey(more, key) && forall e :: e in es ==> e in more
    ensures NoKey(es, key)
  {
    forall i | 0 <= i < |es| ensures es[i].key != key {
      assert es[i] in more;
    }
  }

  lemma DistinctSnoc<V(!new)>(es: seq<Entry<V>>, e: Entry<V>)
    requires DistinctKeys(es) && NoKey(es, e.key)
    ensures DistinctKeys(es + [e])
  {
  }

  lemma DistinctFront<V(!new)>(es: seq<Entry<V>>)
    requires es != [] && DistinctKeys(es)
    ensures DistinctKeys(es[..|es| - 1]) && es == es[..|es| - 1] + [es[|es| - 1]] &&
            NoKey(es[..|es| - 1], es[|es| - 1].key)
  {
  }

  lemma {:induction false} WithoutKeyMembers<V(!new)>(es: seq<Entry<V>>, key: string)
    requires DistinctKeys(es)
    ensures forall e :: e in WithoutKey(es, key) <==> e in es && e.key != key
    ensures DistinctKeys(WithoutKey(es, key))
  {
    if es != [] {
      var before, last := es[..|es| - 1], es[|es| - 1];
      DistinctFront(es);
      WithoutKeyMembers(before, key);
      if last.key != key {
        NoKeyWithin(WithoutKey(before, key), before, last.key);
        DistinctSnoc(WithoutKey(before, key), last);
      }
    }
  }

  lemma WithoutKeySnoc<V(!new)>(es: seq<Entry<V>>, e: Entry<V>, key: string)
    ensures WithoutKey(es + [e], key) == WithoutKey(es, key) + if e.key == key then [] else [e]
  {
    assert (es + [e])[..|es|] == es;
  }

  lemma {:induction false} WithoutKeyAt<V(!new)>(es: seq<Entry<V>>, key: string, p: nat)
    requires DistinctKeys(es) && p < |es| && es[p].key == key
    ensures WithoutKey(es, key) == es[..p] + es[p + 1..]
  {
    var before, last := es[..|es| - 1], es[|es| - 1];
    DistinctFront(es);
    WithoutKeySnoc(before, last, key);
    if p == |es| - 1 {
      WithoutKeyAbsent(before, key);
    } else {
      WithoutKeyAt(before, key, p);
      CutSnoc(before, last, p);
    }
  }

  lemma CutSnoc<T>(s: seq<T>, x: T, p: nat)
    requires p < |s|
    ensures (s + [x])[..p] + (s + [x])[p + 1..] == s[..p] + s[p + 1..] + [x]
  {
  }

  lemma {:induction false} WithoutKeyAbsent<V(!new)>(es: seq<Entry<V>>, key: string)
    requires NoKey(es, key)
    ensures WithoutKey(es, key) == es
  {
    if es != [] {
      WithoutKeyAbsent(es[..|es| - 1], key);
      assert es == es[..|es| - 1] + [es[|es| - 1]];
    }
  }

  lemma {:induction false} FindAt<V(!new)>(es: seq<Entry<V>>, key: string)
    requires DistinctKeys(es)
    ensures Find(es, key).None? <==> NoKey(es, key)
    ensures forall p :: 0 <= p < |es| && es[p].key == key ==> Find(es, key) == Some(es[p].value)
  {
    if es != [] {
      var before, last := es[..|es| - 1], es[|es| - 1];
      DistinctFront(es);
      FindAt(before, key);
      assert forall p :: 0 <= p < |before| ==> before[p] == es[p];
    }
  }

  lemma {:induction false} LiveMembers<V(!new)>(es: seq<Entry<V>>, now: real, ttl: real)
    requires DistinctKeys(es)
    ensures forall e :: e in Live(es, now, ttl) <==> e in es && now - e.time <= ttl
    ensures DistinctKeys(Live(es, now, ttl))
  {
    if es != [] {
      var before, last := es[..|es| - 1], es[|es| - 1];
      DistinctFront(es);
      LiveMembers(before, now, ttl);
      if now - last.time <= ttl {
        NoKeyWithin(Live(before, now, ttl), before, last.key);
        DistinctSnoc(Live(before, now, ttl), last);
      }
    }
  }

  // ----- the two dicts as an entry list -----

  ghost predicate Synced<V>(order: seq<string>, cache: map<string, V>, lastActive: map<string, real>) {
    && NoRepeats(order)
    && (forall k :: k in order <==> k in cache)
    && (forall k :: k in order <==> k in lastActive)
  }

  ghost predicate Keyed<V>(order: seq<string>, cache: map<string, V>, lastActive: map<string, real>) {
    forall k :: k in order ==> k in cache && k in lastActive
  }

  ghost function EntriesOf<V>(order: seq<string>, cache: map<string, V>,
                              lastActive: map<string, real>): (es: seq<Entry<V>>)
    requires Keyed(order, cache, lastActive)
    ensures |es| == |order|
    ensures forall i :: 0 <= i < |es| ==> es[i] == Entry(order[i], cache[order[i]], lastActive[order[i]])
  {
    seq(|order|, i requires 0 <= i < |order| => Entry(order[i], cache[order[i]], lastActive[order[i]]))
  }

  function WithoutString(order: seq<string>, key: string): seq<string> {
    if order == [] then [] else
    WithoutString(order[..|order| - 1], key) + (if order[|order| - 1] == key then [] else [order[|order| - 1]])
  }

  lemma {:induction false} WithoutStringMembers(order: seq<string>, key: string)
    requires NoRepeats(order)
    ensures forall k :: k in WithoutString(order, key) <==> k in order && k != key
    ensures NoRepeats(WithoutString(order, key))
  {
    if order != [] {
      var before, last := order[..|order| - 1], order[|order| - 1];
      assert order == before + [last];
      WithoutStringMembers(before, key);
      var left := WithoutString(before, key);
      forall i | 0 <= i < |left| ensures left[i] != last {
        assert left[i] in left;
      }
    }
  }

  lemma EntriesSnoc<V(!new)>(order: seq<string>, key: string, cache: map<string, V>, lastActive: map<string, real>)
    requires Keyed(order, cache, lastActive) && key in cache && key in lastActive
    ensures Keyed(order + [key], cache, lastActive)
    ensures EntriesOf(order + [key], cache, lastActive) ==
            EntriesOf(order, cache, lastActive) + [Entry(key, cache[key], lastActive[key])]
  {
  }

  /** Storing a new key at the recent end adds its entry. */
  lemma PushEntry<V(!new)>(order: seq<string>, cache: map<string, V>, lastActive: map<string, real>, key: string,
                           agent: V, now: real)
    requires Synced(order, cache, lastActive) && key !in order
    ensures Synced(order + [key], cache[key := agent], lastActive[key := now])
    ensures EntriesOf(order + [key], cache[key := agent], lastActive[key := now]) ==
            EntriesOf(order, cache, lastActive) + [Entry(key, agent, now)]
  {
    EntriesSnoc(order, key, cache[key := agent], lastActive[key := now]);
    assert EntriesOf(order, cache[key := agent], lastActive[key := now]) == EntriesOf(order, cache, lastActive);
  }

  /** Dropping a key from the two dicts drops its entry. */
  lemma {:induction false} PopEntries<V(!new)>(order: seq<string>, cache: map<string, V>,
                                               lastActive: map<string, real>, key: string)
    requires Keyed(order, cache, lastActive)
    ensures Keyed(WithoutString(order, key), cache - {key}, lastActive - {key})
    ensures EntriesOf(WithoutString(order, key), cache - {key}, lastActive - {key}) ==
            WithoutKey(EntriesOf(order, cache, lastActive), key)
  {
    if order != [] {
      var before, last := order[..|order| - 1], order[|order| - 1];
      assert order == before + [last] && last in order;
      EntriesSnoc(before, last, cache, lastActive);
      PopEntries(before, cache, lastActive, key);
      WithoutKeySnoc(EntriesOf(before, cache, lastActive), Entry(last, cache[last], lastActive[last]), key);
      if last != key {
        EntriesSnoc(WithoutString(before, key), last, cache - {key}, lastActive - {key});
      }
    }
  }

  ghost function IdleKeys<V>(es: seq<Entry<V>>, now: real, ttl: real): set<string> {
    set e | e in es && now - e.time > ttl :: e.key
  }

  lemma IdleKeysOf<V(!new)>(order: seq<string>, cache: map<string, V>, lastActive: map<string, real>, now: real,
                            ttl: real)
    requires Synced(order, cache, lastActive)
    ensures (set k | k in lastActive && now - lastActive[k] > ttl) ==
            IdleKeys(EntriesOf(order, cache, lastActive), now, ttl)
  {
    var es := EntriesOf(order, cache, lastActive);
    forall k | k in lastActive && now - lastActive[k] > ttl ensures k in IdleKeys(es, now, ttl) {
      var i :| 0 <= i < |order| && order[i] == k;
      assert es[i] in es;
    }
  }

  lemma WithoutFirst<V(!new)>(es: seq<Entry<V>>)
    requires es != [] && DistinctKeys(es)
    ensures WithoutKey(es, es[0].key) == es[1..]
  {
    WithoutKeyAt(es, es[0].key, 0);
  }

  class AgentRegistry<V(!new)> {
    /** The ordered dict: its keys from least to most recently used, and their agents. */
    var order: seq<string>
    var cache: map<string, V>
    var lastActive: map<string, real>
    const cacheSize: int
    const idleTtl: real

    ghost predicate Valid()
      reads this
    {
      Synced(order, cache, lastActive)
    }

    ghost function Contents(): (es: seq<Entry<V>>)
      requires Valid()
      reads this
      ensures DistinctKeys(es)
    {
      EntriesOf(order, cache, lastActive)
    }

    constructor (cacheSize: int, idleTtl: real)
      ensures Valid() && Contents() == []
      ensures this.cacheSize == cacheSize && this.idleTtl == idleTtl
    {
      order, cache, lastActive := [], map[], map[];
      this.cacheSize, this.idleTtl := cacheSize, idleTtl;
    }

    /** Both dicts forget the key. */
    method Pop(key: string)
      requires Valid()
      modifies this
      ensures Valid() && Contents() == WithoutKey(old(Contents()), key)
      ensures lastActive == old(lastActive) - {key}
    {
      WithoutStringMembers(order, key);
      PopEntries(order, cache, lastActive, key);
      order := WithoutString(order, key);
      cache := cache - {key};
      lastActive := lastActive - {key};
    }

    /** The removal loop of idle eviction. */
    method PopAll(evict: set<string>)
      requires Valid()
      modifies this
      ensures Valid() && Contents() == WithoutKeys(old(Contents()), evict)
    {
      var todo := evict;
      ghost var gone: set<string>, es := {}, Contents();
      WithoutNone(es);
      while todo != {}
        invariant Valid() && Contents() == WithoutKeys(es, gone)
        invariant gone + todo == evict
        decreases |todo|
      {
        var k :| k in todo;
        WithoutOneMore(es, gone, k);
        Pop(k);
        todo, gone := todo - {k}, gone + {k};
      }
      assert gone == evict;
    }

    method EvictIdle(now: real)
      requires Valid()
      modifies this
      ensures Valid() && Contents() == Live(old(Contents()), now, idleTtl)
    {
      IdleKeysOf(order, cache, lastActive, now, idleTtl);
      IdleGone(Contents(), IdleKeys(Contents(), now, idleTtl), now, idleTtl);
      PopAll(set k | k in lastActive && now - lastActive[k] > idleTtl);
    }

    method PopFirst()
      requires Valid() && order != []
      modifies this
      ensures Valid() && old(Contents()) != [] && Contents() == old(Contents())[1..]
    {
      WithoutFirst(Contents());
      Pop(order[0]);
    }

    /** False stands for the KeyError of popping from an empty dict. */
    method EvictLru() returns (ok: bool)
      requires Valid()
      modifies this
      ensures Valid() && (ok <==> cacheSize >= 1)
      ensures Contents() == if cacheSize >= 1 then Trim(old(Contents()), cacheSize) else []
    {
      ghost var es := Contents();
      ghost var dropped := 0;
      while |order| >= cacheSize
        invariant Valid() && dropped <= |es| && |order| == |es| - dropped && Contents() == es[dropped..]
        invariant dropped > 0 ==> |order| + 1 >= cacheSize
        decreases |order|
      {
        if order == [] {
          return false;
        }
        PopFirst();
        dropped := dropped + 1;
        assert es[dropped - 1..][1..] == es[dropped..];
      }
      return true;
    }

    /** The key moves to the most recent end, with its agent and time. */
    method MoveToEnd(key: string, agent: V, now: real)
      requires Valid()
      modifies this
      ensures Valid() && Contents() == Touch(old(Contents()), Entry(key, agent, now))
    {
      Pop(key);
      assert key !in order;
      PushEntry(order, cache, lastActive, key, agent, now);
      order := order + [key];
      cache := cache[key := agent];
      lastActive := lastActive[key := now];
    }

    /** Err stands for the KeyError. */
    method Get(key: string, now: real) returns (agent: Result<Option<V>, ()>)
      requires Valid()
      modifies this
      ensures Valid() && (agent.Ok? <==> cacheSize >= 1)
      ensures agent.Ok? ==>
                var es := Evicted(old(Contents()), now, cacheSize, idleTtl);
                && agent.value == Find(es, key)
                && Contents() == if agent.value.Some? then Touch(es, Entry(key, agent.value.value, now)) else es
    {
      EvictIdle(now);
      var ok := EvictLru();
      if !ok {
        return Err(());
      }
      FindAt(Contents(), key);
      if key in cache {
        ghost var es := Contents();
        var i: int :| 0 <= i < |order| && order[i] == key;
        assert es[i].key == key;
        var found := cache[key];
        MoveToEnd(key, found, now);
        return Ok(Some(found));
      }
      return Ok(None);
    }

    method Put(key: string, agent: V, now: real) returns (ok: bool)
      requires Valid()
      modifies this
      ensures Valid() && (ok <==> cacheSize >= 1)
      ensures ok ==> Contents() == Touch(Evicted(old(Contents()), now, cacheSize, idleTtl), Entry(key, agent, now))
    {
      EvictIdle(now);
      ok := EvictLru();
      if ok {
        MoveToEnd(key, agent, now);
      }
    }

    method Remove(key: string) returns (agent: Option<V>)
      requires Valid()
      modifies this
      ensures Valid()
      ensures agent == Find(old(Contents()), key) && Contents() == WithoutKey(old(Contents()), key)
    {
      FindAt(Contents(), key);
      if key in cache {
        ghost var es := Contents();
        var i: int :| 0 <= i < |order| && order[i] == key;
        assert es[i].key == key;
        agent := Some(cache[key]);
      } else {
        agent := None;
      }
      Pop(key);
    }
  }

  // ----- idle eviction, one key at a time -----

  ghost function WithoutKeys<V>(es: seq<Entry<V>>, keys: set<string>): seq<Entry<V>> {
    if es == [] then [] else
    WithoutKeys(es[..|es| - 1], keys) + (if es[|es| - 1].key in keys then [] else [es[|es| - 1]])
  }

  lemma {:induction false} WithoutNone<V(!new)>(es: seq<Entry<V>>)
    ensures WithoutKeys(es, {}) == es
  {
    if es != [] {
      WithoutNone(es[..|es| - 1]);
    }
  }

  lemma {:induction false} WithoutOneMore<V(!new)>(es: seq<Entry<V>>, keys: set<string>, k: string)
    ensures WithoutKey(WithoutKeys(es, keys), k) == WithoutKeys(es, keys + {k})
  {
    if es != [] {
      var before, last := WithoutKeys(es[..|es| - 1], keys), es[|es| - 1];
      WithoutOneMore(es[..|es| - 1], keys, k);
      if last.key !in keys {
        assert WithoutKeys(es, keys) == before + [last];
        assert (before + [last])[..|before|] == before;
      } else {
        assert WithoutKeys(es, keys) == before;
      }
    }
  }

  lemma IdleGone<V(!new)>(es: seq<Entry<V>>, keys: set<string>, now: real, ttl: real)
    requires DistinctKeys(es) && keys == IdleKeys(es, now, ttl)
    ensures WithoutKeys(es, keys) == Live(es, now, ttl)
  {
    IdlePrefixGone(es, |es|, keys, now, ttl);
    assert es[..|es|] == es;
  }

  lemma {:induction false} IdlePrefixGone<V(!new)>(es: seq<Entry<V>>, n: nat, keys: set<string>, now: real, ttl: real)
    requires DistinctKeys(es) && n <= |es| && keys == IdleKeys(es, now, ttl)
    ensures WithoutKeys(es[..n], keys) == Live(es[..n], now, ttl)
  {
    if n > 0 {
      IdlePrefixGone(es, n - 1, keys, now, ttl);
      assert es[..n][..n - 1] == es[..n - 1];
      var e := es[n - 1];
      if e.key in keys {
        var e' :| e' in es && now - e'.time > ttl && e'.key == e.key;
        var i :| 0 <= i < |es| && es[i] == e';
        assert i == n - 1;
      } else {
        assert e in es;
      }
    }
  }
}
