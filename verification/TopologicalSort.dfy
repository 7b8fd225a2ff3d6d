/**
 Kahn's algorithm over the orchestrator's pipeline, with the exact condition under which it
 returns an order: the dependencies stay inside the pipeline and form no cycle.
 */
module TopologicalSort {
  import opened Wrappers

  /** The source's `dict[str, list[str]]`: a map together with its insertion order. */
  datatype Deps = Deps(keys: seq<string>, lists: map<string, seq<string>>)
  {
    ghost predicate IsDict() {
      NoRepeats(keys) && forall k :: k in keys <==> k in lists
    }

    /** `deps.get(role, [])` */
    function Of(role: string): seq<string> {
      if role in lists then lists[role] else []
    }
  }

  /** Either an order, the source's PipelineCycleError, or the KeyError of an unknown dependent. */
  datatype SortOutcome = Sorted(order: seq<string>) | CycleError | KeyError(role: string)

  /** Each role once, each after everything it depends on. */
  ghost predicate IsTopological(order: seq<string>, pipeline: seq<string>, deps: Deps) {
    && NoRepeats(order)
    && (forall r :: r in order <==> r in pipeline)
    && AfterDeps(order, deps)
  }

  ghost predicate AfterDeps(order: seq<string>, deps: Deps) {
    forall i, d :: 0 <= i < |order| && d in deps.Of(order[i]) ==> d in order[..i]
  }

  /** Each role of `walk` depends on the next. */
  ghost predicate IsWalk(walk: seq<string>, deps: Deps) {
    walk != [] && forall i :: 0 <= i < |walk| - 1 ==> walk[i + 1] in deps.Of(walk[i])
  }

  /** A walk inside the pipeline whose last role depends on the first. */
  ghost predicate IsCycle(walk: seq<string>, pipeline: seq<string>, deps: Deps) {
    && IsWalk(walk, deps)
    && (forall r :: r in walk ==> r in pipeline)
    && walk[0] in deps.Of(walk[|walk| - 1])
  }

  ghost predicate Acyclic(pipeline: seq<string>, deps: Deps) {
    forall walk :: !IsCycle(walk, pipeline, deps)
  }

  /** Pipeline roles depend on pipeline roles only. */
  ghost predicate Inward(pipeline: seq<string>, deps: Deps) {
    forall r, d :: r in pipeline && d in deps.Of(r) ==> d in pipeline
  }

  /** Moreover no key outside the pipeline depends on a pipeline role. */
  ghost predicate Closed(pipeline: seq<string>, deps: Deps) {
    && Inward(pipeline, deps)
    && (forall r, d :: r in deps.keys && d in deps.Of(r) && d in pipeline ==> r in pipeline)
  }

  /** Distinct pipeline roles, each after all it depends on. */
  ghost predicate IsPartialOrder(order: seq<string>, pipeline: seq<string>, deps: Deps) {
    NoRepeats(order) && (forall r :: r in order ==> r in pipeline) && AfterDeps(order, deps)
  }

  /** The role can be reached by doing dependencies first. */
  ghost predicate Startable(r: string, pipeline: seq<string>, deps: Deps) {
    exists order :: IsPartialOrder(order, pipeline, deps) && r in order
  }

  /** A key outside the pipeline that depends on a role which can be reached. */
  ghost predicate Unexpected(key: string, pipeline: seq<string>, deps: Deps) {
    key in deps.keys && key !in pipeline && exists r :: r in deps.Of(key) && Startable(r, pipeline, deps)
  }

  /** How the sort of a pipeline without repeats ends: with an order, a KeyError, or else a cycle error. */
  ghost predicate IsVerdict(outcome: SortOutcome, pipeline: seq<string>, deps: Deps) {
    && (outcome.Sorted? <==> Closed(pipeline, deps) && Acyclic(pipeline, deps))
    && (outcome.Sorted? ==> IsTopological(outcome.order, pipeline, deps))
    && (outcome.KeyError? <==> exists key :: Unexpected(key, pipeline, deps))
    && (outcome.KeyError? ==> Unexpected(outcome.role, pipeline, deps))
    && (outcome.CycleError? ==> !(Inward(pipeline, deps) && Acyclic(pipeline, deps)))
  }

  // ----- counting the dependencies still open -----

  ghost function Elements(s: seq<string>): set<string> {
    set x | x in s
  }

  /** How many entries of `ds` are not yet in `done`. */
  ghost function Pending(ds: seq<string>, done: set<string>): nat {
    if ds == [] then 0 else
    Pending(ds[..|ds| - 1], done) + (if ds[|ds| - 1] in done then 0 else 1)
  }

  lemma {:induction false} PendingEmpty(ds: seq<string>)
    ensures Pending(ds, {}) == |ds|
  {
    if ds != [] {
      PendingEmpty(ds[..|ds| - 1]);
    }
  }

  lemma {:induction false} PendingOneMore(ds: seq<string>, done: set<string>, x: string)
    requires x !in done
    ensures Pending(ds, done) == Pending(ds, done + {x}) + multiset(ds)[x]
  {
    if ds != [] {
      PendingOneMore(ds[..|ds| - 1], done, x);
      assert ds == ds[..|ds| - 1] + [ds[|ds| - 1]];
    }
  }

  lemma {:induction false} PendingZero(ds: seq<string>, done: set<string>)
    ensures Pending(ds, done) == 0 <==> forall d :: d in ds ==> d in done
  {
    if ds != [] {
      PendingZero(ds[..|ds| - 1], done);
      assert ds == ds[..|ds| - 1] + [ds[|ds| - 1]];
    }
  }

  lemma {:induction false} ElementsCount(s: seq<string>)
    requires NoRepeats(s)
    ensures |Elements(s)| == |s|
  {
    if s != [] {
      var before, x := s[..|s| - 1], s[|s| - 1];
      ElementsCount(before);
      assert Elements(s) == Elements(before) + {x};
      assert x !in before;
    }
  }

  /** A repeat-free list inside another of the same length holds the same elements. */
  lemma SameLengthSameElements(order: seq<string>, pipeline: seq<string>)
    requires NoRepeats(order) && NoRepeats(pipeline) && (forall r :: r in order ==> r in pipeline)
    ensures |order| == |pipeline| <==> forall r :: r in pipeline ==> r in order
  {
    ElementsCount(order);
    ElementsCount(pipeline);
    assert Elements(order) <= Elements(pipeline);
    if |order| == |pipeline| {
      SubsetSameSize(Elements(order), Elements(pipeline));
      assert forall r :: r in pipeline ==> r in Elements(pipeline);
    }
    if forall r :: r in pipeline ==> r in order {
      assert Elements(order) == Elements(pipeline);
    }
  }

  lemma SubsetSameSize(a: set<string>, b: set<string>)
    requires a <= b && |a| == |b|
    ensures a == b
  {
    assert |b - a| == |b| - |a|;
  }

  // ----- cycles -----

  ghost predicate DependsInto(roles: set<string>, role: string, deps: Deps) {
    exists d :: d in deps.Of(role) && d in roles
  }

  lemma CloseCycle(walk: seq<string>, i: nat, pipeline: seq<string>, deps: Deps)
    requires IsWalk(walk, deps) && i < |walk| && walk[i] in deps.Of(walk[|walk| - 1])
    requires forall r :: r in walk ==> r in pipeline
    ensures IsCycle(walk[i..], pipeline, deps)
  {
    var cycle := walk[i..];
    assert cycle[0] == walk[i] && cycle[|cycle| - 1] == walk[|walk| - 1];
    forall k | 0 <= k < |cycle| - 1 ensures cycle[k + 1] in deps.Of(cycle[k]) {
      assert cycle[k] == walk[i + k] && cycle[k + 1] == walk[(i + k) + 1];
    }
  }

  /** From a walk inside a set whose every role depends on a role of the set, a cycle. */
  lemma FindCycle(roles: set<string>, walk: seq<string>, pipeline: seq<string>, deps: Deps) returns (cycle: seq<string>)
    requires roles <= Elements(pipeline)
    requires forall r {:trigger DependsInto(roles, r, deps)} :: r in roles ==> DependsInto(roles, r, deps)
    requires IsWalk(walk, deps) && NoRepeats(walk) && forall r :: r in walk ==> r in roles
    ensures IsCycle(cycle, pipeline, deps)
    decreases |roles| - |walk|
  {
    ElementsCount(walk);
    SubsetSmaller(Elements(walk), roles);
    var last := walk[|walk| - 1];
    assert last in walk;
    assert DependsInto(roles, last, deps);
    var d :| d in deps.Of(last) && d in roles;
    if d in walk {
      var i :| 0 <= i < |walk| && walk[i] == d;
      CloseCycle(walk, i, pipeline, deps);
      cycle := walk[i..];
    } else {
      cycle := FindCycle(roles, walk + [d], pipeline, deps);
    }
  }

  lemma SubsetSmaller(a: set<string>, b: set<string>)
    requires a <= b
    ensures |a| <= |b|
  {
    assert |b - a| == |b| - |a|;
  }

  /** Along a walk the positions in a topological order go down. */
  lemma {:induction false} WalkDescends(order: seq<string>, deps: Deps, walk: seq<string>, i: nat)
      returns (first: int, here: int)
    requires AfterDeps(order, deps)
    requires IsWalk(walk, deps) && i < |walk| && forall r :: r in walk ==> r in order
    ensures 0 <= here <= first < |order| && order[first] == walk[0] && order[here] == walk[i]
  {
    if i == 0 {
      assert walk[0] in walk && walk[0] in order;
      first :| 0 <= first < |order| && order[first] == walk[0];
      here := first;
    } else {
      first, here := WalkDescends(order, deps, walk, i - 1);
      assert walk[(i - 1) + 1] in deps.Of(order[here]);
      assert walk[i] in order[..here];
      var k :| 0 <= k < here && order[..here][k] == walk[i];
      here := k;
    }
  }

  /** So the end of a walk never depends on its start. */
  lemma WalkDoesNotClose(order: seq<string>, deps: Deps, walk: seq<string>)
    requires NoRepeats(order) && AfterDeps(order, deps)
    requires IsWalk(walk, deps) && forall r :: r in walk ==> r in order
    ensures walk[0] !in deps.Of(walk[|walk| - 1])
  {
    var first, last := WalkDescends(order, deps, walk, |walk| - 1);
    assert order[first] !in order[..last];
  }

  lemma OrderedIsAcyclic(order: seq<string>, pipeline: seq<string>, deps: Deps)
    requires IsTopological(order, pipeline, deps)
    ensures Acyclic(pipeline, deps)
  {
    forall walk | IsWalk(walk, deps) && (forall r :: r in walk ==> r in pipeline)
      ensures walk[0] !in deps.Of(walk[|walk| - 1])
    {
      WalkDoesNotClose(order, deps, walk);
    }
    forall walk ensures !IsCycle(walk, pipeline, deps) {
      if walk != [] && walk[0] in deps.Of(walk[|walk| - 1]) && (forall r :: r in walk ==> r in pipeline) {
        assert !IsWalk(walk, deps);
      }
    }
  }

  // ----- the algorithm -----

  /** `dependents[d]` lists `r` once for each time `d` occurs among the dependencies of `r`. */
  ghost predicate IsDependents(dependents: map<string, seq<string>>, pipeline: seq<string>, deps: Deps,
                               keys: seq<string>)
  {
    && (forall r :: r in dependents <==> r in pipeline)
    && (forall d, r :: d in dependents ==>
          multiset(dependents[d])[r] == if r in keys then multiset(deps.Of(r))[d] else 0)
  }

  /** `list` is `before` with `n` more copies of `r`, in any order. */
  ghost predicate HasCopies(list: seq<string>, before: seq<string>, r: string, n: nat) {
    forall q :: multiset(list)[q] == multiset(before)[q] + if q == r then n else 0
  }

  function Appended(dependents: map<string, seq<string>>, d: string, r: string): (after: map<string, seq<string>>)
    ensures after.Keys == dependents.Keys
    ensures forall x :: x in after ==> after[x] == if x == d then dependents[x] + [r] else dependents[x]
  {
    if d in dependents then dependents[d := dependents[d] + [r]] else dependents
  }

  /** `r` has been appended once for each entry of `seen` that is in the pipeline. */
  ghost predicate Registering(dependents: map<string, seq<string>>, before: map<string, seq<string>>, r: string,
                              seen: seq<string>)
  {
    && dependents.Keys == before.Keys
    && (forall d :: d in dependents ==> HasCopies(dependents[d], before[d], r, multiset(seen)[d]))
  }

  lemma RegisterNone(dependents: map<string, seq<string>>, r: string)
    ensures Registering(dependents, dependents, r, [])
  {
  }

  lemma OneMoreCopy(list: seq<string>, before: seq<string>, r: string, n: nat)
    requires HasCopies(list, before, r, n)
    ensures HasCopies(list + [r], before, r, n + 1)
  {
    forall q ensures multiset(list + [r])[q] == multiset(before)[q] + if q == r then n + 1 else 0 {
      CountSnoc(list, r, q);
    }
  }

  lemma CountSnoc(seen: seq<string>, d: string, x: string)
    ensures multiset(seen + [d])[x] == multiset(seen)[x] + if x == d then 1 else 0
  {
    assert multiset(seen + [d]) == multiset(seen) + multiset{d};
  }

  lemma RegisterStep(dependents: map<string, seq<string>>, before: map<string, seq<string>>, r: string,
                     seen: seq<string>, d: string)
    requires Registering(dependents, before, r, seen)
    ensures Registering(Appended(dependents, d, r), before, r, seen + [d])
  {
    var after := Appended(dependents, d, r);
    forall x | x in after ensures HasCopies(after[x], before[x], r, multiset(seen + [d])[x]) {
      assert HasCopies(dependents[x], before[x], r, multiset(seen)[x]);
      RegisterAt(dependents[x], before[x], r, seen, d, x);
    }
  }

  lemma RegisterAt(list: seq<string>, before: seq<string>, r: string, seen: seq<string>, d: string, x: string)
    requires HasCopies(list, before, r, multiset(seen)[x])
    ensures HasCopies(if x == d then list + [r] else list, before, r, multiset(seen + [d])[x])
  {
    CountSnoc(seen, d, x);
    if x == d {
      OneMoreCopy(list, before, r, multiset(seen)[x]);
    }
  }

  lemma RegisterDone(dependents: map<string, seq<string>>, before: map<string, seq<string>>, pipeline: seq<string>,
                     deps: Deps, keys: seq<string>, r: string)
    requires IsDependents(before, pipeline, deps, keys) && r !in keys && Registering(dependents, before, r, deps.Of(r))
    ensures IsDependents(dependents, pipeline, deps, keys + [r])
  {
    forall d, q | d in dependents
      ensures multiset(dependents[d])[q] == if q in keys + [r] then multiset(deps.Of(q))[d] else 0
    {
      assert HasCopies(dependents[d], before[d], r, multiset(deps.Of(r))[d]);
      assert multiset(before[d])[q] == if q in keys then multiset(deps.Of(q))[d] else 0;
    }
  }

  method BuildDependents(pipeline: seq<string>, deps: Deps) returns (dependents: map<string, seq<string>>)
    requires deps.IsDict()
    ensures IsDependents(dependents, pipeline, deps, deps.keys)
  {
    dependents := map r | r in pipeline :: [];
    for i := 0 to |deps.keys|
      invariant IsDependents(dependents, pipeline, deps, deps.keys[..i])
    {
      var r := deps.keys[i];
      var list := deps.lists[r];
      ghost var before := dependents;
      assert r !in deps.keys[..i];
      RegisterNone(dependents, r);
      for k := 0 to |list|
        invariant Registering(dependents, before, r, list[..k])
      {
        assert list[..k + 1] == list[..k] + [list[k]];
        RegisterStep(dependents, before, r, list[..k], list[k]);
        if list[k] in dependents {
          dependents := dependents[list[k] := dependents[list[k]] + [r]];
        }
      }
      assert list[..|list|] == list;
      RegisterDone(dependents, before, pipeline, deps, deps.keys[..i], r);
      assert deps.keys[..i + 1] == deps.keys[..i] + [r];
    }
    assert deps.keys[..|deps.keys|] == deps.keys;
  }

  /** The roles whose remaining in-degree is positive: together with the queue they bound the work left. */
  ghost function Blocked(inDegree: map<string, int>): set<string> {
    set r | r in inDegree && inDegree[r] > 0
  }

  /** In-degrees count the dependencies not in `done`, and the zeros are those done and those queued. */
  ghost predicate Counting(pipeline: seq<string>, deps: Deps, inDegree: map<string, int>, done: set<string>,
                           queue: seq<string>)
  {
    && (forall r :: r in inDegree <==> r in pipeline)
    && (forall r :: r in inDegree ==> inDegree[r] == Pending(deps.Of(r), done))
    && Queued(inDegree, done, queue)
  }

  ghost predicate Queued(inDegree: map<string, int>, taken: set<string>, queue: seq<string>) {
    && NoRepeats(queue)
    && (forall r :: r in queue ==> r !in taken)
    && (forall r :: r in taken || r in queue <==> r in inDegree && inDegree[r] == 0)
  }

  /** While the dependents of `role` are being visited, those in `seen` so far. */
  ghost predicate Visiting(pipeline: seq<string>, deps: Deps, inDegree: map<string, int>, done: set<string>,
                           role: string, seen: multiset<string>, queue: seq<string>)
  {
    && (forall r :: r in inDegree <==> r in pipeline)
    && (forall r :: r in inDegree ==> inDegree[r] == Pending(deps.Of(r), done) - seen[r])
    && Queued(inDegree, done + {role}, queue)
  }

  /** One decrement keeps the visiting invariant, queueing the dependent when it reaches zero. */
  lemma VisitStep(pipeline: seq<string>, deps: Deps, inDegree: map<string, int>, done: set<string>, role: string,
                  seen: multiset<string>, queue: seq<string>, r: string)
    requires Visiting(pipeline, deps, inDegree, done, role, seen, queue)
    requires r in inDegree && role !in done && seen[r] < multiset(deps.Of(r))[role]
    ensures var after := inDegree[r := inDegree[r] - 1];
            after[r] >= 0 &&
            Visiting(pipeline, deps, after, done, role, seen + multiset{r},
                     if after[r] == 0 then queue + [r] else queue)
  {
    PendingOneMore(deps.Of(r), done, role);
    QueuedStep(inDegree, done + {role}, queue, r);
  }

  lemma QueuedStep(inDegree: map<string, int>, taken: set<string>, queue: seq<string>, r: string)
    requires Queued(inDegree, taken, queue) && r in inDegree && inDegree[r] > 0
    ensures var after := inDegree[r := inDegree[r] - 1];
            Queued(after, taken, if after[r] == 0 then queue + [r] else queue)
  {
    assert r !in queue && r !in taken;
  }

  lemma VisitDone(pipeline: seq<string>, deps: Deps, inDegree: map<string, int>, done: set<string>, role: string,
                  seen: multiset<string>, queue: seq<string>)
    requires Visiting(pipeline, deps, inDegree, done, role, seen, queue) && role !in done
    requires forall r :: r in inDegree ==> seen[r] == multiset(deps.Of(r))[role]
    ensures Counting(pipeline, deps, inDegree, done + {role}, queue)
  {
    forall r | r in inDegree ensures inDegree[r] == Pending(deps.Of(r), done + {role}) {
      PendingOneMore(deps.Of(r), done, role);
    }
  }

  lemma BlockedStep(inDegree: map<string, int>, r: string)
    requires r in inDegree
    ensures var after := inDegree[r := inDegree[r] - 1];
            |Blocked(after)| == |Blocked(inDegree)| - if inDegree[r] == 1 then 1 else 0
  {
    var after := inDegree[r := inDegree[r] - 1];
    if inDegree[r] == 1 {
      assert Blocked(after) == Blocked(inDegree) - {r};
    } else {
      assert Blocked(after) == Blocked(inDegree);
    }
  }

  lemma InitialQueue(pipeline: seq<string>, inDegree: map<string, int>, queue: seq<string>, n: nat)
    requires n <= |pipeline| && NoRepeats(pipeline) && (forall r :: r in inDegree <==> r in pipeline)
    requires NoRepeats(queue) && forall r :: r in queue <==> r in pipeline[..n] && inDegree[r] == 0
    requires n < |pipeline|
    ensures var after := if inDegree[pipeline[n]] == 0 then queue + [pipeline[n]] else queue;
            NoRepeats(after) && forall r :: r in after <==> r in pipeline[..n + 1] && inDegree[r] == 0
  {
    assert pipeline[..n + 1] == pipeline[..n] + [pipeline[n]];
    assert pipeline[n] !in pipeline[..n];
  }

  /** Taking a role whose dependencies are all done keeps the order topological. */
  lemma AfterDepsSnoc(order: seq<string>, deps: Deps, role: string)
    requires AfterDeps(order, deps) && forall d :: d in deps.Of(role) ==> d in order
    ensures AfterDeps(order + [role], deps)
  {
    var next := order + [role];
    forall i, d | 0 <= i < |next| && d in deps.Of(next[i]) ensures d in next[..i] {
      assert next[..i] == order[..i];
      assert order[..|order|] == order;
    }
  }

  /** A role left over when the queue runs dry still waits for another one left over. */
  lemma StalledOnAnother(pipeline: seq<string>, deps: Deps, inDegree: map<string, int>, done: set<string>, r: string)
    requires Counting(pipeline, deps, inDegree, done, [])
    requires Inward(pipeline, deps) && r in pipeline && r !in done
    ensures DependsInto(Elements(pipeline) - done, r, deps)
  {
    PendingZero(deps.Of(r), done);
    assert r in inDegree && inDegree[r] != 0;
    var d :| d in deps.Of(r) && d !in done;
    assert d in Elements(pipeline) - done;
  }

  /** When the queue runs dry early, the roles left over depend on each other in a circle. */
  lemma StalledHasCycle(pipeline: seq<string>, deps: Deps, inDegree: map<string, int>, done: set<string>, start: string)
    requires Counting(pipeline, deps, inDegree, done, [])
    requires Inward(pipeline, deps) && start in pipeline && start !in done
    ensures !Acyclic(pipeline, deps)
  {
    var left := Elements(pipeline) - done;
    forall r | r in left ensures DependsInto(left, r, deps) {
      StalledOnAnother(pipeline, deps, inDegree, done, r);
    }
    var cycle := FindCycle(left, [start], pipeline, deps);
  }

  lemma CountsBound(list: seq<string>, k: nat)
    requires k < |list|
    ensures multiset(list[..k])[list[k]] < multiset(list)[list[k]]
  {
    assert list == list[..k] + [list[k]] + list[k + 1..];
  }

  /** A dependent the in-degree map does not know is a key outside the pipeline. */
  lemma OutsideDependent(pipeline: seq<string>, deps: Deps, dependents: map<string, seq<string>>, role: string,
                         r: string)
    requires IsDependents(dependents, pipeline, deps, deps.keys)
    requires role in dependents && r in dependents[role] && r !in pipeline
    ensures role in pipeline && r in deps.keys && role in deps.Of(r)
    ensures !Closed(pipeline, deps)
  {
    assert multiset(dependents[role])[r] > 0;
    assert role in deps.Of(r) && r in deps.keys;
  }

  ghost predicate Inside(pipeline: seq<string>, dependents: map<string, seq<string>>, x: string) {
    x in dependents && forall r :: r in dependents[x] ==> r in pipeline
  }

  /** All dependents of the roles in `done` are in the pipeline. */
  ghost predicate NothingOutside(pipeline: seq<string>, dependents: map<string, seq<string>>, done: set<string>) {
    forall x :: x in done ==> Inside(pipeline, dependents, x)
  }

  lemma DependentCounts(pipeline: seq<string>, deps: Deps, dependents: map<string, seq<string>>, role: string)
    requires deps.IsDict() && IsDependents(dependents, pipeline, deps, deps.keys) && role in pipeline
    ensures forall r :: r in pipeline ==> multiset(dependents[role])[r] == multiset(deps.Of(r))[role]
  {
  }

  /** An outside dependent of a role in a partial order is what makes the sort fail with a KeyError. */
  lemma KeyErrorVerdict(pipeline: seq<string>, deps: Deps, order: seq<string>, role: string, key: string)
    requires IsPartialOrder(order, pipeline, deps) && role in order
    requires key in deps.keys && key !in pipeline && role in deps.Of(key)
    ensures IsVerdict(KeyError(key), pipeline, deps)
  {
    assert Startable(role, pipeline, deps);
    assert Unexpected(key, pipeline, deps);
  }

  /** When the queue has run dry, every role that can be reached has been taken. */
  lemma {:induction false} StartableTaken(pipeline: seq<string>, deps: Deps, inDegree: map<string, int>,
                                          done: set<string>, order: seq<string>, n: nat)
    requires Counting(pipeline, deps, inDegree, done, []) && IsPartialOrder(order, pipeline, deps) && n <= |order|
    ensures forall i :: 0 <= i < n ==> order[i] in done
  {
    if n > 0 {
      StartableTaken(pipeline, deps, inDegree, done, order, n - 1);
      var r := order[n - 1];
      assert r in order;
      forall d | d in deps.Of(r) ensures d in done {
        assert d in order[..n - 1];
      }
      PendingZero(deps.Of(r), done);
    }
  }

  lemma NothingUnexpected(pipeline: seq<string>, deps: Deps, dependents: map<string, seq<string>>,
                          inDegree: map<string, int>, done: set<string>, key: string)
    requires IsDependents(dependents, pipeline, deps, deps.keys) && Counting(pipeline, deps, inDegree, done, [])
    requires NothingOutside(pipeline, dependents, done)
    ensures !Unexpected(key, pipeline, deps)
  {
    if key in deps.keys {
      forall r | r in deps.Of(key) && Startable(r, pipeline, deps) ensures key in pipeline {
        var order :| IsPartialOrder(order, pipeline, deps) && r in order;
        StartableTaken(pipeline, deps, inDegree, done, order, |order|);
        assert r in done && Inside(pipeline, dependents, r);
        assert multiset(dependents[r])[key] > 0;
      }
    }
  }

  /** A full order is topological, and shows that the dependencies were closed and acyclic. */
  lemma SortedIsClosed(pipeline: seq<string>, deps: Deps, dependents: map<string, seq<string>>,
                       inDegree: map<string, int>, order: seq<string>)
    requires deps.IsDict() && IsDependents(dependents, pipeline, deps, deps.keys)
    requires NoRepeats(order) && (forall r :: r in order <==> r in pipeline) && AfterDeps(order, deps)
    requires NothingOutside(pipeline, dependents, Elements(order))
    ensures IsTopological(order, pipeline, deps) && Closed(pipeline, deps) && Acyclic(pipeline, deps)
  {
    OrderedIsAcyclic(order, pipeline, deps);
    forall r, d | r in pipeline && d in deps.Of(r) ensures d in pipeline {
      var i :| 0 <= i < |order| && order[i] == r;
      assert d in order[..i];
    }
    forall r, d | r in deps.keys && d in deps.Of(r) && d in pipeline ensures r in pipeline {
      assert d in Elements(order) && Inside(pipeline, dependents, d);
      assert multiset(dependents[d])[r] > 0;
      assert r in dependents[d];
    }
  }

  method InDegrees(pipeline: seq<string>, deps: Deps) returns (inDegree: map<string, int>, queue: seq<string>)
    ensures forall r :: r in inDegree <==> r in pipeline
    ensures forall r :: r in queue ==> r in pipeline
    ensures NoRepeats(pipeline) ==> Counting(pipeline, deps, inDegree, {}, queue)
  {
    inDegree := map r | r in pipeline :: |deps.Of(r)|;
    queue := [];
    for n := 0 to |pipeline|
      invariant forall r :: r in queue ==> r in pipeline
      invariant NoRepeats(pipeline) ==>
                  NoRepeats(queue) && forall r :: r in queue <==> r in pipeline[..n] && inDegree[r] == 0
    {
      if NoRepeats(pipeline) {
        InitialQueue(pipeline, inDegree, queue, n);
      }
      if inDegree[pipeline[n]] == 0 {
        queue := queue + [pipeline[n]];
      }
    }
    assert pipeline[..|pipeline|] == pipeline;
    forall r | r in inDegree ensures inDegree[r] == Pending(deps.Of(r), {}) {
      PendingEmpty(deps.Of(r));
    }
  }

  /** The inner loop: one decrement per dependent of `role`, queueing those that reach zero. */
  method VisitDependents(list: seq<string>, inDegree0: map<string, int>, queue0: seq<string>,
                         ghost pipeline: seq<string>, ghost deps: Deps, ghost done: set<string>, ghost role: string,
                           ghost plain: bool)
      returns (inDegree: map<string, int>, queue: seq<string>, unknown: Option<string>)
    requires forall r :: r in inDegree0 <==> r in pipeline
    requires forall r :: r in queue0 ==> r in pipeline
    requires plain ==> Visiting(pipeline, deps, inDegree0, done, role, multiset{}, queue0) && role !in done
    requires plain ==> forall r :: r in pipeline ==> multiset(list)[r] == multiset(deps.Of(r))[role]
    ensures unknown.Some? ==> unknown.value in list && unknown.value !in pipeline
    ensures unknown.None? ==>
              && (forall r :: r in inDegree <==> r in pipeline) && (forall r :: r in queue ==> r in pipeline)
              && (forall r :: r in list ==> r in pipeline)
              && |Blocked(inDegree)| + |queue| == |Blocked(inDegree0)| + |queue0|
              && (plain ==> Counting(pipeline, deps, inDegree, done + {role}, queue))
  {
    inDegree, queue := inDegree0, queue0;
    ghost var seen := multiset{};
    for k := 0 to |list|
      invariant forall r :: r in inDegree <==> r in pipeline
      invariant forall r :: r in queue ==> r in pipeline
      invariant seen == multiset(list[..k])
      invariant forall r :: r in list[..k] ==> r in pipeline
      invariant plain ==> Visiting(pipeline, deps, inDegree, done, role, seen, queue)
      invariant |Blocked(inDegree)| + |queue| == |Blocked(inDegree0)| + |queue0|
    {
      var dep := list[k];
      assert list[..k + 1] == list[..k] + [dep];
      if dep !in inDegree {
        return inDegree, queue, Some(dep);
      }
      if plain {
        CountsBound(list, k);
        VisitStep(pipeline, deps, inDegree, done, role, seen, queue, dep);
      }
      BlockedStep(inDegree, dep);
      inDegree := inDegree[dep := inDegree[dep] - 1];
      seen := seen + multiset{dep};
      if inDegree[dep] == 0 {
        queue := queue + [dep];
      }
    }
    assert list[..|list|] == list;
    if plain {
      VisitDone(pipeline, deps, inDegree, done, role, seen, queue);
    }
    unknown := None;
  }

  method TopologicalSort(pipeline: seq<string>, deps: Deps) returns (outcome: SortOutcome)
    requires deps.IsDict()
    ensures NoRepeats(pipeline) ==> IsVerdict(outcome, pipeline, deps)
    ensures outcome.Sorted? ==> |outcome.order| == |pipeline|
    ensures outcome.KeyError? ==>
              && outcome.role in deps.keys && outcome.role !in pipeline
              && exists d :: d in deps.Of(outcome.role) && d in pipeline
  {
    var inDegree, queue := InDegrees(pipeline, deps);
    var order: seq<string> := [];
    var dependents := BuildDependents(pipeline, deps);
    assert Elements(order) == {};
    while queue != []
      invariant forall r :: r in inDegree <==> r in pipeline
      invariant forall r :: r in queue ==> r in pipeline
      invariant NoRepeats(pipeline) ==> Counting(pipeline, deps, inDegree, Elements(order), queue)
      invariant NoRepeats(pipeline) ==> IsPartialOrder(order, pipeline, deps)
      invariant NothingOutside(pipeline, dependents, Elements(order))
      decreases |Blocked(inDegree)| + |queue|
    {
      var role := queue[0];
      if NoRepeats(pipeline) {
        QueueHead(pipeline, deps, inDegree, order, queue);
      }
      DependentCounts(pipeline, deps, dependents, role);
      ghost var done := Elements(order);
      order := order + [role];
      assert Elements(order) == done + {role};
      var unknown;
      inDegree, queue, unknown :=
        VisitDependents(dependents[role], inDegree, queue[1..], pipeline, deps, done, role, NoRepeats(pipeline));
      if unknown.Some? {
        OutsideDependent(pipeline, deps, dependents, role, unknown.value);
        if NoRepeats(pipeline) {
          KeyErrorVerdict(pipeline, deps, order, role, unknown.value);
        }
        return KeyError(unknown.value);
      }
    }
    outcome := if |order| != |pipeline| then CycleError else Sorted(order);
    if NoRepeats(pipeline) {
      SortVerdict(pipeline, deps, dependents, inDegree, order);
    }
  }

  /** The head of the queue has all its dependencies behind it and was not taken before. */
  lemma QueueHead(pipeline: seq<string>, deps: Deps, inDegree: map<string, int>, order: seq<string>, queue: seq<string>)
    requires queue != [] && IsPartialOrder(order, pipeline, deps)
    requires Counting(pipeline, deps, inDegree, Elements(order), queue)
    ensures queue[0] !in order && IsPartialOrder(order + [queue[0]], pipeline, deps)
    ensures Visiting(pipeline, deps, inDegree, Elements(order), queue[0], multiset{}, queue[1..])
  {
    var role, rest := queue[0], queue[1..];
    assert role in queue && queue == [role] + rest;
    assert role in inDegree && inDegree[role] == 0 && role !in Elements(order);
    PendingZero(deps.Of(role), Elements(order));
    AfterDepsSnoc(order, deps, role);
    assert role !in rest;
  }

  /** With the queue empty, the order is full exactly when the dependencies are closed and acyclic. */
  lemma SortVerdict(pipeline: seq<string>, deps: Deps, dependents: map<string, seq<string>>, inDegree: map<string, int>,
                    order: seq<string>)
    requires deps.IsDict() && NoRepeats(pipeline)
    requires IsDependents(dependents, pipeline, deps, deps.keys) && IsPartialOrder(order, pipeline, deps)
    requires Counting(pipeline, deps, inDegree, Elements(order), [])
    requires NothingOutside(pipeline, dependents, Elements(order))
    ensures IsVerdict(if |order| != |pipeline| then CycleError else Sorted(order), pipeline, deps)
  {
    forall key ensures !Unexpected(key, pipeline, deps) {
      NothingUnexpected(pipeline, deps, dependents, inDegree, Elements(order), key);
    }
    SameLengthSameElements(order, pipeline);
    if |order| == |pipeline| {
      SortedIsClosed(pipeline, deps, dependents, inDegree, order);
    } else if Inward(pipeline, deps) {
      var r :| r in pipeline && r !in order;
      StalledHasCycle(pipeline, deps, inDegree, Elements(order), r);
    }
  }

  /** Some role outside a partial order depends only on roles inside it, or the graph has a cycle. */
  lemma NextRole(pipeline: seq<string>, deps: Deps, order: seq<string>) returns (role: string)
    requires Closed(pipeline, deps) && Acyclic(pipeline, deps)
    requires exists r :: r in pipeline && r !in order
    ensures role in pipeline && role !in order && forall d :: d in deps.Of(role) ==> d in order
  {
    var left := set r | r in pipeline && r !in order;
    var start :| start in pipeline && start !in order;
    assert start in left;
    NotAllInside(left, start, pipeline, deps);
    role :| role in left && !DependsInto(left, role, deps);
    forall d | d in deps.Of(role) ensures d in order {
      assert d in pipeline;
    }
  }

  lemma NotAllInside(roles: set<string>, start: string, pipeline: seq<string>, deps: Deps)
    requires Acyclic(pipeline, deps) && start in roles && roles <= Elements(pipeline)
    ensures exists r :: r in roles && !DependsInto(roles, r, deps)
  {
    if forall r {:trigger DependsInto(roles, r, deps)} :: r in roles ==> DependsInto(roles, r, deps) {
      var cycle := FindCycle(roles, [start], pipeline, deps);
    }
  }

  lemma FewerLeft(pipeline: seq<string>, order: seq<string>, role: string)
    requires role in pipeline && role !in order
    ensures |Elements(pipeline) - Elements(order + [role])| < |Elements(pipeline) - Elements(order)|
  {
    assert Elements(pipeline) - Elements(order + [role]) == Elements(pipeline) - Elements(order) - {role};
    assert role in Elements(pipeline) - Elements(order);
  }

  /** Closed and acyclic dependencies have a topological order. */
  lemma OrderExists(pipeline: seq<string>, deps: Deps, order0: seq<string>) returns (order: seq<string>)
    requires Closed(pipeline, deps) && Acyclic(pipeline, deps)
    requires NoRepeats(order0) && AfterDeps(order0, deps) && forall r :: r in order0 ==> r in pipeline
    ensures IsTopological(order, pipeline, deps)
    decreases |Elements(pipeline) - Elements(order0)|
  {
    if forall r :: r in pipeline ==> r in order0 {
      return order0;
    }
    var role := NextRole(pipeline, deps, order0);
    AfterDepsSnoc(order0, deps, role);
    FewerLeft(pipeline, order0, role);
    order := OrderExists(pipeline, deps, order0 + [role]);
  }

  /** A dependency outside the pipeline is refused as a cycle although there is none. */
  lemma UnknownDependencyRefused(role: string, other: string, outcome: SortOutcome)
    requires role != other && IsVerdict(outcome, [role], Deps([role], map[role := [other]]))
    ensures Acyclic([role], Deps([role], map[role := [other]])) && outcome == CycleError
  {
    var deps := Deps([role], map[role := [other]]);
    forall walk ensures !IsCycle(walk, [role], deps) {
      if walk != [] && forall r :: r in walk ==> r in [role] {
        assert walk[0] in walk && walk[|walk| - 1] in walk;
      }
    }
    assert other in deps.Of(role) && role in [role] && other !in [role];
    assert forall key :: !Unexpected(key, [role], deps);
  }

  /** A key outside the pipeline that depends on a role without dependencies is a KeyError. */
  lemma OutsideKeyRaises(role: string, key: string, outcome: SortOutcome)
    requires role != key && IsVerdict(outcome, [role], Deps([key], map[key := [role]]))
    ensures outcome == KeyError(key)
  {
    var deps := Deps([key], map[key := [role]]);
    assert IsPartialOrder([role], [role], deps) && role in [role];
    assert Startable(role, [role], deps) && role in deps.Of(key);
    assert Unexpected(key, [role], deps);
  }

  /** Behind a cycle the same key goes unnoticed: the sort reports the cycle. */
  lemma CycleHidesOutsideKey(role: string, key: string, outcome: SortOutcome)
    requires role != key && IsVerdict(outcome, [role], Deps([role, key], map[role := [role], key := [role]]))
    ensures outcome == CycleError
  {
    var deps := Deps([role, key], map[role := [role], key := [role]]);
    assert role in deps.Of(role) && role in [role] && role in deps.Of(key) && !Closed([role], deps);
    forall order | IsPartialOrder(order, [role], deps) ensures role !in order {
      if role in order {
        WalkDoesNotClose(order, deps, [role]);
      }
    }
    assert forall r :: r in deps.Of(key) ==> !Startable(r, [role], deps);
    assert forall k :: !Unexpected(k, [role], deps);
  }
}
