/**
 Detection of tool loops. The scan of the source is a method over its three local variables;
 `LoopsAreMaximalRuns` compares what it collects with maximal runs of one tool name.
 */
module ToolLoops {
  import opened Wrappers
  import opened ViewEvents

  // ----- the scan -----

  /** The locals of the scan: finished loops, the open loop, and the open loop's tool name. */
  datatype Scan = Scan(loops: seq<seq<int>>, current: seq<int>, toolName: Option<string>)

  function Flush(s: Scan, minLength: int): seq<seq<int>> {
    if |s.current| >= minLength * 2 then s.loops + [s.current] else s.loops
  }

  function ScanStep(es: seq<Event>, i: int, s: Scan, minLength: int): Scan
    requires 0 <= i < |es|
  {
    if es[i].IsNamedTool() then
      if es[i].name == s.toolName then
        var joined := if s.current != [] && s.current[|s.current| - 1] != i - 1 then s.current + [i - 1] else s.current;
        s.(current := joined + [i])
      else
        Scan(Flush(s, minLength), if i > 0 && es[i - 1].IsAssistant() then [i - 1, i] else [i], es[i].name)
    else if es[i].IsAssistant() then s
    else Scan(Flush(s, minLength), [], None)
  }

  function ScanTo(es: seq<Event>, n: nat, minLength: int): Scan
    requires n <= |es|
  {
    if n == 0 then Scan([], [], None) else ScanStep(es, n - 1, ScanTo(es, n - 1, minLength), minLength)
  }

  function DetectedLoops(es: seq<Event>, minLength: int): seq<seq<int>> {
    Flush(ScanTo(es, |es|, minLength), minLength)
  }

  method DetectLoops(events: seq<Event>, minLength: int) returns (loops: seq<seq<int>>)
    ensures loops == DetectedLoops(events, minLength)
  {
    loops := [];
    var currentLoop: seq<int>, currentToolName: Option<string> := [], None;
    for i := 0 to |events|
      invariant Scan(loops, currentLoop, currentToolName) == ScanTo(events, i, minLength)
    {
      var event := events[i];
      if event.IsNamedTool() {
        if event.name == currentToolName {
          if currentLoop != [] && currentLoop[|currentLoop| - 1] != i - 1 {
            currentLoop := currentLoop + [i - 1];
          }
          currentLoop := currentLoop + [i];
        } else {
          if |currentLoop| >= minLength * 2 {
            loops := loops + [currentLoop];
          }
          currentLoop := if i > 0 && events[i - 1].IsAssistant() then [i - 1, i] else [i];
          currentToolName := event.name;
        }
      } else if event.IsAssistant() {
      } else {
        if |currentLoop| >= minLength * 2 {
          loops := loops + [currentLoop];
        }
        currentLoop := [];
        currentToolName := None;
      }
    }
    if |currentLoop| >= minLength * 2 {
      loops := loops + [currentLoop];
    }
  }

  // ----- the reference: maximal runs of one tool name -----

  /** From named tool `a` to named tool `b` there is only that tool's replies and assistants. */
  ghost predicate Run(es: seq<Event>, a: int, b: int) {
    && 0 <= a <= b < |es|
    && es[a].IsNamedTool() && es[b].IsNamedTool()
    && forall k :: a <= k <= b ==> es[k].IsAssistant() || (es[k].IsNamedTool() && es[k].name == es[a].name)
  }

  ghost predicate MaximalRun(es: seq<Event>, a: int, b: int) {
    && Run(es, a, b)
    && (forall x :: x < a ==> !Run(es, x, b))
    && (forall y :: b < y ==> !Run(es, a, y))
  }

  /** Index `k` is a named tool, or the assistant just before one. */
  predicate InLoop(es: seq<Event>, k: int) {
    0 <= k < |es| &&
    (es[k].IsNamedTool() || (es[k].IsAssistant() && k + 1 < |es| && es[k + 1].IsNamedTool()))
  }

  /** The loop indices of `[lo, hi)`, in order. */
  function Pick(es: seq<Event>, lo: int, hi: int): seq<int>
    decreases hi - lo
  {
    if hi <= lo then [] else Pick(es, lo, hi - 1) + (if InLoop(es, hi - 1) then [hi - 1] else [])
  }

  /** The indices of the run from `a` to `b`, with the assistant that opened it. */
  function Members(es: seq<Event>, a: int, b: int): seq<int>
    requires 0 <= a < |es|
  {
    Pick(es, if a > 0 && es[a - 1].IsAssistant() then a - 1 else a, b + 1)
  }

  lemma PickMembers(es: seq<Event>, lo: int, hi: int)
    ensures forall k :: k in Pick(es, lo, hi) <==> lo <= k < hi && InLoop(es, k)
    ensures forall p, q :: 0 <= p < q < |Pick(es, lo, hi)| ==> Pick(es, lo, hi)[p] < Pick(es, lo, hi)[q]
    decreases hi - lo
  {
    if lo < hi {
      PickMembers(es, lo, hi - 1);
      var before := Pick(es, lo, hi - 1);
      forall p | 0 <= p < |before| ensures before[p] < hi - 1 {
        assert before[p] in before;
      }
    }
  }

  /** Over assistants that precede no named tool, nothing is picked. */
  lemma PickSkips(es: seq<Event>, lo: int, mid: int, hi: int)
    requires lo <= mid <= hi
    requires forall k :: mid <= k < hi ==> !InLoop(es, k)
    ensures Pick(es, lo, hi) == Pick(es, lo, mid)
    decreases hi - mid
  {
    if mid < hi {
      PickSkips(es, lo, mid, hi - 1);
    }
  }

  /** A run has one right end: two maximal runs from the same start coincide. */
  lemma RunSplits(es: seq<Event>, a: int, b: int, k: int)
    requires Run(es, a, b) && a <= k <= b && es[k].IsNamedTool()
    ensures Run(es, a, k) && Run(es, k, b)
  {
  }

  lemma RunJoins(es: seq<Event>, a: int, k: int, b: int)
    requires Run(es, a, k) && Run(es, k, b)
    ensures Run(es, a, b)
  {
    assert es[k].name == es[a].name;
  }

  /** What the scan knows after `n` events; `a` and `b` bound the open run when there is one. */
  ghost predicate Open(es: seq<Event>, n: nat, s: Scan, a: int, b: int)
    requires n <= |es|
  {
    && Run(es, a, b) && b < n
    && s.toolName == es[a].name
    && s.current == Members(es, a, b)
    && (forall k :: b < k < n ==> es[k].IsAssistant())
    && (forall x :: x < a ==> !Run(es, x, b))
  }

  /** No run is open: since the last breaker there were only assistants. */
  ghost predicate Shut(es: seq<Event>, n: nat, s: Scan, p: int)
    requires n <= |es|
  {
    && s.toolName.None? && s.current == []
    && 0 <= p <= n
    && (forall k :: p <= k < n ==> es[k].IsAssistant())
    && (p == 0 || (!es[p - 1].IsAssistant() && !es[p - 1].IsNamedTool()))
  }

  /** The maximal runs that ended, and were seen to end, within the first `n` events. */
  ghost predicate Ended(es: seq<Event>, n: nat, a: int, b: int)
    requires n <= |es|
  {
    MaximalRun(es, a, b) && exists k :: b < k < n && !es[k].IsAssistant()
  }

  /** Every finished loop is the member list of a run that ended. */
  ghost predicate OnlyRuns(es: seq<Event>, n: nat, loops: seq<seq<int>>, minLength: int)
    requires n <= |es|
  {
    forall loop :: loop in loops && loop != [] ==> FromRun(es, n, loop, minLength)
  }

  ghost predicate FromRun(es: seq<Event>, n: nat, loop: seq<int>, minLength: int)
    requires n <= |es|
  {
    exists a, b :: Ended(es, n, a, b) && loop == Members(es, a, b) && |loop| >= minLength * 2
  }

  /** Every long enough run that ended is finished. */
  ghost predicate AllRuns(es: seq<Event>, n: nat, loops: seq<seq<int>>, minLength: int)
    requires n <= |es|
  {
    forall a, b :: Ended(es, n, a, b) && |Members(es, a, b)| >= minLength * 2 ==> Members(es, a, b) in loops
  }

  ghost predicate Collected(es: seq<Event>, n: nat, loops: seq<seq<int>>, minLength: int)
    requires n <= |es|
  {
    OnlyRuns(es, n, loops, minLength) && AllRuns(es, n, loops, minLength)
  }

  /** The open run, if it ends here, is maximal and not yet collected. */
  lemma OpenIsMaximal(es: seq<Event>, n: nat, s: Scan, a: int, b: int)
    requires n <= |es| && Open(es, n, s, a, b)
    requires n == |es| || (!es[n].IsAssistant() && !(es[n].IsNamedTool() && es[n].name == s.toolName))
    ensures MaximalRun(es, a, b)
  {
    forall y | b < y ensures !Run(es, a, y) {
      assert y < n ==> es[y].IsAssistant();
    }
  }

  lemma EndedBefore(es: seq<Event>, n: nat, m: nat, a: int, b: int)
    requires n <= m <= |es| && Ended(es, n, a, b)
    ensures Ended(es, m, a, b)
  {
  }

  lemma RunsStay(es: seq<Event>, n: nat, loops: seq<seq<int>>, minLength: int)
    requires n < |es| && OnlyRuns(es, n, loops, minLength)
    ensures OnlyRuns(es, n + 1, loops, minLength)
  {
    forall loop | loop in loops && loop != [] ensures FromRun(es, n + 1, loop, minLength) {
      assert FromRun(es, n, loop, minLength);
      var x, y :| Ended(es, n, x, y) && loop == Members(es, x, y) && |loop| >= minLength * 2;
      EndedBefore(es, n, n + 1, x, y);
    }
  }

  /** A run that ends between two prefixes is the open run of the shorter one. */
  lemma NewlyEnded(es: seq<Event>, n: nat, a: int, b: int)
    requires n < |es| && Ended(es, n + 1, a, b) && !Ended(es, n, a, b)
    ensures b < n && (forall k :: b < k < n ==> es[k].IsAssistant()) && !es[n].IsAssistant()
  {
    var k :| b < k < n + 1 && !es[k].IsAssistant();
    assert k == n;
  }

  /** The run that ends at `n` is the open one. */
  lemma NewlyEndedIsOpen(es: seq<Event>, n: nat, s: Scan, a: int, b: int, x: int, y: int)
    requires n < |es| && Open(es, n, s, a, b)
    requires Ended(es, n + 1, x, y) && !Ended(es, n, x, y)
    ensures x == a && y == b
  {
    NewlyEnded(es, n, x, y);
    assert es[y].IsNamedTool() && es[b].IsNamedTool();
    assert y == b;
  }

  lemma FlushCollects(es: seq<Event>, n: nat, s: Scan, a: int, b: int, minLength: int)
    requires n < |es| && Open(es, n, s, a, b) && Collected(es, n, s.loops, minLength)
    requires !es[n].IsAssistant() && !(es[n].IsNamedTool() && es[n].name == s.toolName)
    ensures Collected(es, n + 1, Flush(s, minLength), minLength)
  {
    OpenIsMaximal(es, n, s, a, b);
    assert Ended(es, n + 1, a, b);
    RunsStay(es, n, s.loops, minLength);
    assert OnlyRuns(es, n + 1, Flush(s, minLength), minLength);
    forall x, y | Ended(es, n + 1, x, y) && |Members(es, x, y)| >= minLength * 2
      ensures Members(es, x, y) in Flush(s, minLength)
    {
      if !Ended(es, n, x, y) {
        NewlyEndedIsOpen(es, n, s, a, b, x, y);
      }
    }
  }

  /** With nothing open, no further event ends a run. */
  lemma NothingEnds(es: seq<Event>, n: nat, m: nat, s: Scan, p: int, x: int, y: int)
    requires n <= m <= |es| && Shut(es, n, s, p) && Run(es, x, y) && y < n && MaximalRun(es, x, y)
    ensures Ended(es, n, x, y)
  {
    assert !es[y].IsAssistant();
    assert y < p - 1;
    assert !es[p - 1].IsAssistant();
  }

  lemma NothingToFlush(es: seq<Event>, n: nat, s: Scan, p: int, minLength: int)
    requires n < |es| && Shut(es, n, s, p) && Collected(es, n, s.loops, minLength)
    ensures Collected(es, n + 1, Flush(s, minLength), minLength)
  {
    forall x, y | Ended(es, n + 1, x, y) ensures Ended(es, n, x, y) {
      NothingEnds(es, n, n + 1, s, p, x, y);
    }
    RunsStay(es, n, s.loops, minLength);
  }

  /** Within the open run, the next reply of the same tool extends the member list as the scan does. */
  lemma MembersExtend(es: seq<Event>, n: nat, s: Scan, a: int, b: int)
    requires n < |es| && Open(es, n, s, a, b)
    requires es[n].IsNamedTool() && es[n].name == s.toolName
    ensures Run(es, a, n)
    ensures Members(es, a, n) == (if b != n - 1 then s.current + [n - 1] else s.current) + [n]
    ensures s.current != [] && s.current[|s.current| - 1] == b
    ensures forall x :: x < a ==> !Run(es, x, n)
  {
    var lo := if a > 0 && es[a - 1].IsAssistant() then a - 1 else a;
    assert Pick(es, lo, b + 1)[|Pick(es, lo, b + 1)| - 1] == b;
    if b != n - 1 {
      PickSkips(es, lo, b + 1, n - 1);
      assert InLoop(es, n - 1);
      assert Pick(es, lo, n) == Pick(es, lo, n - 1) + [n - 1];
    }
    forall x | x < a ensures !Run(es, x, n) {
      if Run(es, x, n) {
        RunSplits(es, x, n, b);
      }
    }
  }

  /** A different tool opens a run of its own, starting at itself. */
  lemma FreshRun(es: seq<Event>, n: nat, s: Scan, a: int, b: int, p: int)
    requires n < |es| && es[n].IsNamedTool() && es[n].name != s.toolName
    requires Open(es, n, s, a, b) || Shut(es, n, s, p)
    ensures Run(es, n, n)
    ensures forall x :: x < n ==> !Run(es, x, n)
    ensures Members(es, n, n) == if n > 0 && es[n - 1].IsAssistant() then [n - 1, n] else [n]
  {
    forall x | x < n ensures !Run(es, x, n) {
      if 0 <= x && es[x].IsNamedTool() {
        var k := if Open(es, n, s, a, b) then b else p - 1;
        assert x <= k;
        assert !es[k].IsAssistant() && !(es[k].IsNamedTool() && es[k].name == es[n].name);
      }
    }
    if n > 0 && es[n - 1].IsAssistant() {
      assert InLoop(es, n - 1) && InLoop(es, n);
      assert Pick(es, n - 1, n - 1) == [];
      assert Pick(es, n - 1, n) == [n - 1];
      assert Pick(es, n - 1, n + 1) == [n - 1, n];
    } else {
      assert Pick(es, n, n) == [];
    }
  }

  /** What is finished is collected, what is open is the run in progress. */
  ghost predicate Known(es: seq<Event>, n: nat, s: Scan, a: int, b: int, p: int, minLength: int)
    requires n <= |es|
  {
    (Open(es, n, s, a, b) || Shut(es, n, s, p)) && Collected(es, n, s.loops, minLength)
  }

  /** One more reply of the open run's tool. */
  lemma ReplyJoins(es: seq<Event>, n: nat, s: Scan, a: int, b: int, minLength: int)
    requires n < |es| && Open(es, n, s, a, b) && Collected(es, n, s.loops, minLength)
    requires es[n].IsNamedTool() && es[n].name == s.toolName
    ensures Known(es, n + 1, ScanStep(es, n, s, minLength), a, n, 0, minLength)
  {
    MembersExtend(es, n, s, a, b);
    SameCollected(es, n, s.loops, a, b, minLength);
  }

  lemma AssistantPasses(es: seq<Event>, n: nat, s: Scan, a: int, b: int, p: int, minLength: int)
    requires n < |es| && Known(es, n, s, a, b, p, minLength) && es[n].IsAssistant() && !es[n].IsNamedTool()
    ensures Known(es, n + 1, ScanStep(es, n, s, minLength), a, b, p, minLength)
  {
    SameCollected(es, n, s.loops, a, b, minLength);
  }

  /** Any other event closes what is open. */
  lemma EventCloses(es: seq<Event>, n: nat, s: Scan, a: int, b: int, p: int, minLength: int)
    requires n < |es| && Known(es, n, s, a, b, p, minLength)
    requires !es[n].IsAssistant() && !(es[n].IsNamedTool() && es[n].name == s.toolName)
    ensures Collected(es, n + 1, Flush(s, minLength), minLength)
  {
    if Open(es, n, s, a, b) {
      FlushCollects(es, n, s, a, b, minLength);
    } else {
      NothingToFlush(es, n, s, p, minLength);
    }
  }

  lemma ToolOpens(es: seq<Event>, n: nat, s: Scan, a: int, b: int, p: int, minLength: int)
    requires n < |es| && Known(es, n, s, a, b, p, minLength)
    requires es[n].IsNamedTool() && es[n].name != s.toolName
    ensures Known(es, n + 1, ScanStep(es, n, s, minLength), n, n, 0, minLength)
  {
    EventCloses(es, n, s, a, b, p, minLength);
    FreshRun(es, n, s, a, b, p);
  }

  lemma {:induction false} ScanInvariant(es: seq<Event>, n: nat, minLength: int) returns (a: int, b: int, p: int)
    requires n <= |es|
    ensures Known(es, n, ScanTo(es, n, minLength), a, b, p, minLength)
  {
    a, b, p := 0, 0, 0;
    if n == 0 {
      return;
    }
    var m := n - 1;
    a, b, p := ScanInvariant(es, m, minLength);
    a, b, p := KnownNext(es, m, ScanTo(es, m, minLength), a, b, p, minLength);
  }

  lemma KnownNext(es: seq<Event>, n: nat, s: Scan, a: int, b: int, p: int, minLength: int)
      returns (a': int, b': int, p': int)
    requires n < |es| && Known(es, n, s, a, b, p, minLength)
    ensures Known(es, n + 1, ScanStep(es, n, s, minLength), a', b', p', minLength)
  {
    a', b', p' := a, b, p;
    if es[n].IsNamedTool() {
      if es[n].name == s.toolName {
        ReplyJoins(es, n, s, a, b, minLength);
        b', p' := n, 0;
      } else {
        ToolOpens(es, n, s, a, b, p, minLength);
        a', b', p' := n, n, 0;
      }
    } else if es[n].IsAssistant() {
      AssistantPasses(es, n, s, a, b, p, minLength);
    } else {
      EventCloses(es, n, s, a, b, p, minLength);
      p' := n + 1;
    }
  }

  /** An assistant, or one more reply of the open run, ends no run. */
  lemma SameCollected(es: seq<Event>, n: nat, loops: seq<seq<int>>, a: int, b: int, minLength: int)
    requires n < |es| && Collected(es, n, loops, minLength)
    requires es[n].IsAssistant() ||
             (b < n && Run(es, a, n) && Run(es, a, b) && forall k :: b < k < n ==> es[k].IsAssistant())
    ensures Collected(es, n + 1, loops, minLength)
  {
    forall x, y | Ended(es, n + 1, x, y) ensures Ended(es, n, x, y) {
      var k :| y < k < n + 1 && !es[k].IsAssistant();
      if k == n {
        StillRunning(es, n, a, b, x, y);
        assert y < b;
      }
    }
    RunsStay(es, n, loops, minLength);
  }

  /** A maximal run cannot stop at `b` when the same tool answers again at `n`. */
  lemma StillRunning(es: seq<Event>, n: nat, a: int, b: int, x: int, y: int)
    requires b < n < |es| && Run(es, a, n) && Run(es, a, b) && (forall k :: b < k < n ==> es[k].IsAssistant())
    requires MaximalRun(es, x, y) && y < n
    ensures y < b
  {
    assert es[y].IsNamedTool();
    RunSplits(es, a, n, b);
    if Run(es, x, b) {
      RunJoins(es, x, b, n);
    }
    assert !Run(es, x, b);
  }

  /**
   The detector reports exactly the maximal runs of one tool name whose members number at least
   twice the minimum. (With a minimum of zero or less it may also report empty loops.)
   */
  lemma LoopsAreMaximalRuns(es: seq<Event>, minLength: int, loop: seq<int>)
    requires loop != []
    ensures loop in DetectedLoops(es, minLength) <==>
            exists a, b :: MaximalRun(es, a, b) && loop == Members(es, a, b) && |loop| >= minLength * 2
  {
    var n := |es|;
    var a, b, p := ScanInvariant(es, n, minLength);
    var s := ScanTo(es, n, minLength);
    if Open(es, n, s, a, b) {
      OpenIsMaximal(es, n, s, a, b);
    }
    if loop in DetectedLoops(es, minLength) && loop in s.loops {
      var x, y :| Ended(es, n, x, y) && loop == Members(es, x, y) && |loop| >= minLength * 2;
      assert MaximalRun(es, x, y);
    }
    if x, y :| MaximalRun(es, x, y) && loop == Members(es, x, y) && |loop| >= minLength * 2 {
      if Shut(es, n, s, p) {
        NothingEnds(es, n, n, s, p, x, y);
      } else if !Ended(es, n, x, y) {
        assert es[y].IsNamedTool() && es[b].IsNamedTool();
        assert forall k :: y < k < n ==> es[k].IsAssistant();
        assert y == b && x == a;
      }
    }
  }

  /** A loop of one step: one assistant and its five parallel replies count as six, twice the minimum of three. */
  lemma OneBatchIsALoop(es: seq<Event>)
    requires |es| == 6 && es[0].IsAssistant() && es[1].IsNamedTool()
    requires forall i :: 1 <= i < 6 ==> es[i].IsNamedTool() && es[i].name == es[1].name
    ensures [0, 1, 2, 3, 4, 5] in DetectedLoops(es, 3)
  {
    var loop := [0, 1, 2, 3, 4, 5];
    assert Run(es, 1, 5) && !es[0].IsNamedTool();
    assert MaximalRun(es, 1, 5);
    SixMembers(es);
    LoopsAreMaximalRuns(es, 3, loop);
  }

  lemma SixMembers(es: seq<Event>)
    requires |es| == 6 && es[0].IsAssistant() && forall i :: 1 <= i < 6 ==> es[i].IsNamedTool()
    ensures Members(es, 1, 5) == [0, 1, 2, 3, 4, 5]
  {
    assert Pick(es, 0, 1) == [0];
    assert Pick(es, 0, 2) == [0, 1];
    assert Pick(es, 0, 3) == [0, 1, 2];
    assert Pick(es, 0, 4) == [0, 1, 2, 3];
    assert Pick(es, 0, 5) == [0, 1, 2, 3, 4];
  }

  // ----- what follows for the reported loops -----

  /** The tool names a loop contains, as the check collects them. */
  ghost function LoopNames(es: seq<Event>, loop: seq<int>): set<string> {
    set i | i in loop && 0 <= i < |es| && es[i].IsNamedTool() :: es[i].name.value
  }

  /** No reported loop mixes two tool names. */
  ghost predicate LoopOk(es: seq<Event>, minLength: int) {
    forall loop :: loop in DetectedLoops(es, minLength) ==> |LoopNames(es, loop)| <= 1
  }

  method LoopCheck(events: seq<Event>, minLength: int) returns (ok: bool)
    ensures ok <==> LoopOk(events, minLength)
  {
    var loops := DetectLoops(events, minLength);
    for l := 0 to |loops|
      invariant forall k :: 0 <= k < l ==> |LoopNames(events, loops[k])| <= 1
    {
      var toolNames: set<string> := {};
      for k := 0 to |loops[l]|
        invariant toolNames == LoopNames(events, loops[l][..k])
      {
        var i := loops[l][k];
        assert loops[l][..k + 1] == loops[l][..k] + [i];
        if 0 <= i < |events| && events[i].IsNamedTool() {
          toolNames := toolNames + {events[i].name.value};
        }
      }
      assert loops[l][..|loops[l]|] == loops[l];
      if toolNames == {} {
        continue;
      }
      if |toolNames| != 1 {
        assert loops[l] in DetectedLoops(events, minLength);
        return false;
      }
    }
    return true;
  }

  lemma RunShape(es: seq<Event>, a: int, b: int)
    requires Run(es, a, b)
    ensures Shaped(es, Members(es, a, b))
  {
    var lo, loop := if a > 0 && es[a - 1].IsAssistant() then a - 1 else a, Members(es, a, b);
    PickMembers(es, lo, b + 1);
    forall i | i in loop && InLoop(es, i) && es[i].IsNamedTool() ensures es[i].name == es[a].name {
      assert a <= i <= b;
    }
  }

  /** Index `i` is in the list and holds a named tool. */
  ghost predicate NamedIn(es: seq<Event>, i: int) {
    0 <= i < |es| && es[i].IsNamedTool()
  }

  /**
   A strictly increasing list of indices, made of replies of one tool and of assistants that
   stand right before such a reply.
   */
  ghost predicate Shaped(es: seq<Event>, loop: seq<int>) {
    && (forall p, q :: 0 <= p < q < |loop| ==> loop[p] < loop[q])
    && (forall i :: i in loop ==> InLoop(es, i))
    && (forall i, j :: i in loop && j in loop && NamedIn(es, i) && NamedIn(es, j) ==> es[i].name == es[j].name)
  }

  lemma LoopShape(es: seq<Event>, minLength: int, loop: seq<int>)
    requires loop in DetectedLoops(es, minLength)
    ensures |loop| >= minLength * 2
    ensures Shaped(es, loop)
  {
    if loop != [] {
      LoopsAreMaximalRuns(es, minLength, loop);
      var a, b :| MaximalRun(es, a, b) && loop == Members(es, a, b) && |loop| >= minLength * 2;
      RunShape(es, a, b);
    } else if minLength > 0 {
      EmptyLoop(es, |es|, minLength);
    }
  }

  lemma EmptyLoop(es: seq<Event>, n: nat, minLength: int)
    requires n <= |es| && minLength > 0
    ensures [] !in Flush(ScanTo(es, n, minLength), minLength) && [] !in ScanTo(es, n, minLength).loops
  {
    if n > 0 {
      EmptyLoop(es, n - 1, minLength);
    }
  }

  /** The check of tool-loop atomicity accepts every list. */
  lemma LoopCheckAlwaysPasses(es: seq<Event>, minLength: int)
    ensures LoopOk(es, minLength)
  {
    forall loop | loop in DetectedLoops(es, minLength) ensures |LoopNames(es, loop)| <= 1 {
      LoopShape(es, minLength, loop);
      var names := LoopNames(es, loop);
      if x :| x in names {
        assert names == {x};
      }
    }
  }

  /** The indices seen so far: each within the prefix, an assistant only with its reply. */
  ghost predicate Within(es: seq<Event>, n: nat, loop: seq<int>)
    requires n <= |es|
  {
    forall i :: i in loop ==> 0 <= i < n && (es[i].IsAssistant() ==> i + 1 < n)
  }

  ghost predicate Before(a: seq<int>, b: seq<int>) {
    forall i, j :: i in a && j in b ==> i < j
  }

  ghost predicate Ordered(es: seq<Event>, n: nat, s: Scan)
    requires n <= |es|
  {
    && Within(es, n, s.current)
    && (forall l :: 0 <= l < |s.loops| ==> Within(es, n, s.loops[l]) && Before(s.loops[l], s.current))
    && (forall l, m :: 0 <= l < m < |s.loops| ==> Before(s.loops[l], s.loops[m]))
    && (s.toolName.Some? ==> s.current != [])
  }

  lemma FlushOrdered(es: seq<Event>, n: nat, s: Scan, minLength: int)
    requires n <= |es| && Ordered(es, n, s)
    ensures Ordered(es, n, Scan(Flush(s, minLength), [], None))
  {
  }

  /** The open loop may grow by indices past everything finished. */
  lemma GrowOrdered(es: seq<Event>, n: nat, s: Scan, current: seq<int>, name: Option<string>)
    requires n < |es| && Ordered(es, n, s) && current != []
    requires Within(es, n + 1, current) && forall i :: i in current ==> i in s.current || Late(es, n, i)
    ensures Ordered(es, n + 1, Scan(s.loops, current, name))
  {
    forall l | 0 <= l < |s.loops| ensures Within(es, n + 1, s.loops[l]) && Before(s.loops[l], current) {
      assert Within(es, n, s.loops[l]) && Before(s.loops[l], s.current);
      forall i, j | i in s.loops[l] && j in current ensures i < j {
        assert 0 <= i < n && (es[i].IsAssistant() ==> i + 1 < n);
      }
    }
  }

  /** Index `n` itself, or the assistant right before it. */
  ghost predicate Late(es: seq<Event>, n: nat, i: int) {
    i == n || (i == n - 1 && 0 <= i < |es| && es[i].IsAssistant())
  }

  /** A gap before the next reply of the open run is an assistant. */
  lemma GapIsAssistant(es: seq<Event>, n: nat, minLength: int)
    requires n < |es| && ScanTo(es, n, minLength).current != []
    ensures var current := ScanTo(es, n, minLength).current;
            current[|current| - 1] != n - 1 ==> n > 0 && es[n - 1].IsAssistant()
  {
  }

  lemma {:induction false} ScanOrdered(es: seq<Event>, n: nat, minLength: int)
    requires n <= |es|
    ensures Ordered(es, n, ScanTo(es, n, minLength))
  {
    if n > 0 {
      var m, s := n - 1, ScanTo(es, n - 1, minLength);
      ScanOrdered(es, m, minLength);
      if s.current != [] {
        GapIsAssistant(es, m, minLength);
      }
      if es[m].IsNamedTool() {
        ToolOrdered(es, m, s, minLength);
      } else {
        FlushOrdered(es, m, s, minLength);
      }
    }
  }

  lemma ToolOrdered(es: seq<Event>, n: nat, s: Scan, minLength: int)
    requires n < |es| && es[n].IsNamedTool() && Ordered(es, n, s)
    requires s.current != [] && s.current[|s.current| - 1] != n - 1 ==> n > 0 && es[n - 1].IsAssistant()
    ensures Ordered(es, n + 1, ScanStep(es, n, s, minLength))
  {
    var next := ScanStep(es, n, s, minLength);
    if es[n].name == s.toolName {
      GrowOrdered(es, n, s, next.current, next.toolName);
    } else {
      FlushOrdered(es, n, s, minLength);
      GrowOrdered(es, n, Scan(Flush(s, minLength), [], None), next.current, next.toolName);
    }
  }

  /** Reported loops come in order: every index of one precedes every index of the next, so no two share an index. */
  lemma LoopsDisjoint(es: seq<Event>, minLength: int, l: nat, m: nat)
    requires l < m < |DetectedLoops(es, minLength)|
    ensures Before(DetectedLoops(es, minLength)[l], DetectedLoops(es, minLength)[m])
  {
    ScanOrdered(es, |es|, minLength);
    FlushOrdered(es, |es|, ScanTo(es, |es|, minLength), minLength);
  }
}
