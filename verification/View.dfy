/**
 The view itself: an event list with its registered properties, protected prefix and cached
 manipulation indices. Every method is proved against the specification functions of modules
 ViewProperties, SafeIndices and ViewRemoval, and keeps the cache equal to a fresh computation.
 */
module ContextView {
  import opened Wrappers
  import opened ViewEvents
  import opened ViewProperties
  import opened ToolLoops
  import opened SafeIndices
  import opened ViewIntegrity
  import opened ViewRemoval

  datatype Property = BatchAtomicity | ObservationUniqueness | ToolCallMatching | ToolLoopAtomicity(minLength: int)
  {
    function Name(): string {
      match this
      case BatchAtomicity => "BatchAtomicity"
      case ObservationUniqueness => "ObservationUniqueness"
      case ToolCallMatching => "ToolCallMatching"
      case ToolLoopAtomicity(_) => "ToolLoopAtomicity"
    }

    ghost predicate Holds(es: seq<Event>) {
      match this
      case BatchAtomicity => BatchOk(es)
      case ObservationUniqueness => UniqueOk(es)
      case ToolCallMatching => MatchOk(es)
      case ToolLoopAtomicity(m) => LoopOk(es, m)
    }

    ghost function Enforced(es: seq<Event>): seq<Event> {
      match this
      case BatchAtomicity => BatchEnforced(es)
      case ObservationUniqueness => UniqueEnforced(es)
      case ToolCallMatching => MatchEnforced(es)
      case ToolLoopAtomicity(_) => es
    }

    ghost predicate Safe(es: seq<Event>, i: int) {
      match this
      case BatchAtomicity => BatchSafe(es, i)
      case ObservationUniqueness => UniqueSafe(es, i)
      case ToolCallMatching => MatchSafe(es, i)
      case ToolLoopAtomicity(_) => LoopSafe(es, i)
    }

    method Check(events: seq<Event>) returns (ok: bool)
      ensures ok <==> Holds(events)
    {
      match this {
        case BatchAtomicity => ok := BatchCheck(events);
        case ObservationUniqueness => ok := UniqueCheck(events);
        case ToolCallMatching => ok := MatchCheck(events);
        case ToolLoopAtomicity(m) => ok := LoopCheck(events, m);
      }
    }

    method Enforce(events: seq<Event>) returns (result: seq<Event>)
      ensures result == Enforced(events)
    {
      match this {
        case BatchAtomicity => result := EnforceBatches(events);
        case ObservationUniqueness => result := EnforceUnique(events);
        case ToolCallMatching => result := EnforceMatching(events);
        case ToolLoopAtomicity(m) =>
          var _ := DetectLoops(events, m);
          result := events;
      }
    }

    method SafeIndices(events: seq<Event>) returns (safe: set<int>)
      ensures forall i :: i in safe <==> Safe(events, i)
    {
      match this {
        case BatchAtomicity => safe := BatchSafeIndices(events);
        case ObservationUniqueness => safe := UniqueSafeIndices(events);
        case ToolCallMatching => safe := MatchSafeIndices(events);
        case ToolLoopAtomicity(m) => safe := LoopSafeIndices(events, m);
      }
    }
  }

  const DEFAULT_PROPERTIES: seq<Property> :=
    [BatchAtomicity, ObservationUniqueness, ToolCallMatching, ToolLoopAtomicity(DEFAULT_LOOP_LENGTH)]

  /** The `enforce` steps of `properties`, first to last. */
  ghost function EnforcedBy(properties: seq<Property>, es: seq<Event>): seq<Event> {
    if properties == [] then es else
    properties[|properties| - 1].Enforced(EnforcedBy(properties[..|properties| - 1], es))
  }

  /** Every property offers index `i`, and it is past the protected prefix. */
  ghost predicate Offered(properties: seq<Property>, es: seq<Event>, keepFirst: int, i: int) {
    0 <= i < |es| && keepFirst <= i && forall p :: p in properties ==> p.Safe(es, i)
  }

  class View {
    var events: seq<Event>
    var properties: seq<Property>
    var keepFirst: int
    var indicesCache: Option<set<int>>
    var cacheValid: bool

    /** A cache marked valid holds the manipulation indices of the current events. */
    ghost predicate Valid()
      reads this
    {
      cacheValid && indicesCache.Some? ==>
        forall i :: i in indicesCache.value <==> Offered(properties, events, keepFirst, i)
    }

    constructor (events: seq<Event>, properties: seq<Property>, keepFirst: int)
      ensures Valid()
      ensures this.events == events && this.keepFirst == keepFirst
      ensures this.properties == if properties != [] then properties else DEFAULT_PROPERTIES
    {
      this.events := events;
      this.properties := if properties != [] then properties else DEFAULT_PROPERTIES;
      this.keepFirst := keepFirst;
      this.indicesCache := None;
      this.cacheValid := false;
    }

    method InvalidateCache()
      modifies this`cacheValid, this`indicesCache
      ensures Valid() && !cacheValid && indicesCache.None?
    {
      cacheValid := false;
      indicesCache := None;
    }

    method SetKeepFirst(value: int)
      modifies this
      ensures Valid()
      ensures keepFirst == (if value < 0 then 0 else value)
      ensures events == old(events) && properties == old(properties)
    {
      keepFirst := if value < 0 then 0 else value;
      InvalidateCache();
    }

    method Add(event: Event)
      modifies this
      ensures Valid()
      ensures events == old(events) + [event]
      ensures properties == old(properties) && keepFirst == old(keepFirst)
    {
      events := events + [event];
      InvalidateCache();
    }

    method AddEvents(added: seq<Event>)
      modifies this
      ensures Valid()
      ensures events == old(events) + added
      ensures properties == old(properties) && keepFirst == old(keepFirst)
    {
      events := events + added;
      InvalidateCache();
    }

    /** Whatever the cache holds, the answer is the freshly computed intersection. */
    method ManipulationIndices() returns (indices: set<int>)
      requires Valid()
      modifies this`cacheValid, this`indicesCache
      ensures Valid()
      ensures forall i :: i in indices <==> Offered(properties, events, keepFirst, i)
    {
      if cacheValid && indicesCache.Some? {
        return indicesCache.value;
      }
      if events == [] {
        indicesCache := Some({});
        cacheValid := true;
        return {};
      }
      var combined;
      if properties != [] {
        combined := properties[0].SafeIndices(events);
        for k := 1 to |properties|
          invariant forall i :: i in combined <==>
                    0 <= i < |events| && forall p :: p in properties[..k] ==> p.Safe(events, i)
          invariant unchanged(this)
        {
          var safe := properties[k].SafeIndices(events);
          assert properties[..k + 1] == properties[..k] + [properties[k]];
          combined := combined * safe;
        }
        assert properties[..|properties|] == properties;
      } else {
        combined := {};
        for k := 0 to |events|
          invariant forall i :: i in combined <==> 0 <= i < k
          invariant unchanged(this)
        {
          combined := combined + {k};
        }
      }
      combined := set i | i in combined && i >= keepFirst;
      indicesCache := Some(combined);
      cacheValid := true;
      return combined;
    }

    method EnforceProperties()
      modifies this
      ensures Valid()
      ensures events == EnforcedBy(properties, old(events))
      ensures properties == old(properties) && keepFirst == old(keepFirst)
      ensures properties == DEFAULT_PROPERTIES ==>
                (ViewOk(events) <==> RepliesFollowCalls(old(events)) && NoBlankReply(old(events)))
    {
      for k := 0 to |properties|
        invariant properties == old(properties) && keepFirst == old(keepFirst)
        invariant events == EnforcedBy(properties[..k], old(events))
      {
        assert properties[..k + 1][..k] == properties[..k];
        var enforced := properties[k].Enforce(events);
        events := enforced;
      }
      assert properties[..|properties|] == properties;
      InvalidateCache();
      if properties == DEFAULT_PROPERTIES {
        DefaultView(old(events), keepFirst);
        EnforceValidIff(old(events));
      }
    }

    method RemoveIndices(indices: set<int>) returns (view: View)
      ensures fresh(view) && view.Valid()
      ensures view.events ==
              EnforcedBy(if properties != [] then properties else DEFAULT_PROPERTIES, Removed(events, indices))
      ensures view.keepFirst == keepFirst
      ensures view.properties == if properties != [] then properties else DEFAULT_PROPERTIES
      ensures properties == DEFAULT_PROPERTIES && ViewOk(events) && NoCallAfterReply(events) ==> ViewOk(view.events)
    {
      var remaining: seq<Event> := [];
      for i := 0 to |events|
        invariant remaining == Removed(events[..i], indices)
      {
        RemovedStep(events, indices, i);
        if i !in indices {
          remaining := remaining + [events[i]];
        }
      }
      assert events[..|events|] == events;
      view := new View(remaining, properties, keepFirst);
      view.EnforceProperties();
      if properties == DEFAULT_PROPERTIES && ViewOk(events) && NoCallAfterReply(events) {
        DefaultView(remaining, keepFirst);
        RemovalRepaired(events, indices);
      }
    }

    method RemoveEventIds(eventIds: set<string>) returns (view: View)
      ensures fresh(view) && view.Valid()
      ensures view.events == EnforcedBy(if properties != [] then properties else DEFAULT_PROPERTIES,
                                        Removed(events, IndicesOfIds(events, eventIds)))
      ensures view.keepFirst == keepFirst
      ensures view.properties == if properties != [] then properties else DEFAULT_PROPERTIES
      ensures properties == DEFAULT_PROPERTIES && ViewOk(events) && NoCallAfterReply(events) ==> ViewOk(view.events)
    {
      ghost var indices := IndicesOfIds(events, eventIds);
      var remaining: seq<Event> := [];
      for i := 0 to |events|
        invariant remaining == Removed(events[..i], indices)
      {
        RemovedStep(events, indices, i);
        if events[i].id !in eventIds {
          remaining := remaining + [events[i]];
        }
      }
      assert events[..|events|] == events;
      view := new View(remaining, properties, keepFirst);
      view.EnforceProperties();
      if properties == DEFAULT_PROPERTIES && ViewOk(events) && NoCallAfterReply(events) {
        DefaultView(remaining, keepFirst);
        RemovalRepaired(events, indices);
      }
    }

    /** The source gathers the results in a dict keyed by property name before testing them all. */
    method IsValid() returns (ok: bool)
      ensures ok <==> forall p :: p in properties ==> p.Holds(events)
    {
      var results: map<string, bool> := map[];
      for k := 0 to |properties|
        invariant forall p :: p in properties[..k] ==> p.Name() in results && (results[p.Name()] <==> p.Holds(events))
        invariant forall n :: n in results ==> exists p :: p in properties[..k] && p.Name() == n
      {
        var property := properties[k];
        var holds := property.Check(events);
        ghost var before := results;
        results := results[property.Name() := holds];
        assert properties[..k + 1] == properties[..k] + [property];
        forall p | p in properties[..k + 1] ensures p.Name() in results && (results[p.Name()] <==> p.Holds(events)) {
          if p.Name() == property.Name() {
            SameNameSameVerdict(p, property, events);
          }
        }
        forall n | n in results ensures exists p :: p in properties[..k + 1] && p.Name() == n {
          if n in before {
            var p :| p in properties[..k] && p.Name() == n;
            assert p in properties[..k + 1];
          } else {
            assert property in properties[..k + 1] && property.Name() == n;
          }
        }
      }
      assert properties[..|properties|] == properties;
      return forall n :: n in results ==> results[n];
    }
  }

  /** Two properties the results dict cannot tell apart give the same verdict. */
  lemma SameNameSameVerdict(p: Property, q: Property, es: seq<Event>)
    requires p.Name() == q.Name()
    ensures p.Holds(es) <==> q.Holds(es)
  {
    assert |"BatchAtomicity"| == 14 && |"ObservationUniqueness"| == 21 && |"ToolCallMatching"| == 16 &&
           |"ToolLoopAtomicity"| == 17;
    if p.ToolLoopAtomicity? {
      LoopCheckAlwaysPasses(es, p.minLength);
      LoopCheckAlwaysPasses(es, q.minLength);
    }
  }

  /**
   A view with the default properties: its steps, checks and indices are those of modules
   ViewIntegrity and ViewRemoval.
   */
  lemma DefaultView(es: seq<Event>, keepFirst: int)
    ensures EnforcedBy(DEFAULT_PROPERTIES, es) == Enforced(es)
    ensures (forall p :: p in DEFAULT_PROPERTIES ==> p.Holds(es)) <==> ViewOk(es)
    ensures forall i :: Offered(DEFAULT_PROPERTIES, es, keepFirst, i) <==> Manipulable(es, keepFirst, i)
  {
    var batch, unique, matching := BatchAtomicity, ObservationUniqueness, ToolCallMatching;
    var loops := ToolLoopAtomicity(DEFAULT_LOOP_LENGTH);
    assert DEFAULT_PROPERTIES == [batch, unique, matching] + [loops];
    assert forall p :: p in DEFAULT_PROPERTIES <==> p == batch || p == unique || p == matching || p == loops by {
      var d := DEFAULT_PROPERTIES;
      assert d[0] == batch && d[1] == unique && d[2] == matching && d[3] == loops;
    }
    assert batch in DEFAULT_PROPERTIES && unique in DEFAULT_PROPERTIES && matching in DEFAULT_PROPERTIES &&
           loops in DEFAULT_PROPERTIES;
    assert [batch, unique, matching] == [batch, unique] + [matching];
    assert [batch, unique] == [batch] + [unique];
    assert [batch] == [] + [batch];
    EnforcedBySnoc([batch, unique, matching], loops, es);
    EnforcedBySnoc([batch, unique], matching, es);
    EnforcedBySnoc([batch], unique, es);
    EnforcedBySnoc([], batch, es);
  }

  lemma EnforcedBySnoc(properties: seq<Property>, p: Property, es: seq<Event>)
    ensures EnforcedBy(properties + [p], es) == p.Enforced(EnforcedBy(properties, es))
  {
    assert (properties + [p])[..|properties|] == properties;
  }
}
