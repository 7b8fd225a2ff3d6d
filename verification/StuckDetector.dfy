/**
 The stuck detector: its five scans over the recent events, each proved against a declarative
 pattern, and the exact condition under which the pair-building scans ever end.
 */
module StuckDetector {
  import opened Wrappers

  datatype Event =
    | Action(tool: string, arguments: string)
    | Observation(tool: string, content: string, success: bool)
    | ChatMessage(source: string, role: string)
    | ErrorEvent(errorType: string, error: string)
    | CondensationRequest
    | Other(kind: string)
  {
    predicate IsUserMessage() { ChatMessage? && (source == "user" || role == "user") }

    /** The kinds a monologue counts. */
    predicate Counts() { Action? || Observation? || ChatMessage? }
  }

  /** The digests and the case folding the detector uses, left uninterpreted. */
  datatype Digests = Digests(action: Event -> string, observation: Event -> string, lower: string -> string)

  datatype Pattern =
    | RepeatingActionObservation
    | RepeatingActionError
    | AgentMonologue
    | AlternatingActions
    | ContextWindowErrorLoop

  /** `Diverges` stands for a scan that repeats one pass for ever. */
  datatype Verdict = NotStuck | Stuck(pattern: Pattern) | Diverges

  /** Python's `xs[-n:]`. */
  function PySuffix<T>(xs: seq<T>, n: int): seq<T> {
    if n == 0 then xs
    else if n > 0 then (if |xs| <= n then xs else xs[|xs| - n..])
    else if |xs| <= -n then [] else xs[-n..]
  }

  // ----- passes of the pair-building scans -----

  /** The first position from `j` on that holds an observation or an action, or the end. */
  function NextStop(es: seq<Event>, j: nat): (k: nat)
    requires j <= |es|
    ensures j <= k <= |es|
    ensures forall i :: j <= i < k ==> !es[i].Observation? && !es[i].Action?
    ensures k < |es| ==> es[k].Observation? || es[k].Action?
    decreases |es| - j
  {
    if j == |es| || es[j].Observation? || es[j].Action? then j else NextStop(es, j + 1)
  }

  /** The position after one pass of the outer loop: unchanged when the next stop after an action is an action. */
  function Advance(es: seq<Event>, i: nat): nat
    requires i < |es|
  {
    if !es[i].Action? then i + 1 else
    var j := NextStop(es, i + 1);
    if j == |es| then i + 1 else if es[j].Observation? then j + 1 else i
  }

  /** The position after `n` passes. */
  function Passes(es: seq<Event>, i: nat, n: nat): nat
    decreases n
  {
    if n == 0 || i >= |es| then i else Passes(es, Advance(es, i), n - 1)
  }

  /** Any two actions have an observation between them. */
  ghost predicate Separated(es: seq<Event>) {
    forall a, b :: 0 <= a < b < |es| && es[a].Action? && es[b].Action? ==> ObservedBetween(es, a, b)
  }

  ghost predicate ObservedBetween(es: seq<Event>, a: int, b: int) {
    exists k :: a < k < b && 0 <= k < |es| && es[k].Observation?
  }

  ghost predicate SeparatedFrom(es: seq<Event>, i: nat) {
    forall a, b :: i <= a < b < |es| && es[a].Action? && es[b].Action? ==> ObservedBetween(es, a, b)
  }

  /** A pass that does not move never moves again. */
  lemma {:induction false} StandsStill(es: seq<Event>, i: nat, n: nat)
    requires i < |es| && Advance(es, i) == i
    ensures Passes(es, i, n) == i
    decreases n
  {
    if n > 0 {
      StandsStill(es, i, n - 1);
    }
  }

  /** A pass moves on exactly when the action it stands at has an observation before the next action. */
  lemma PassMoves(es: seq<Event>, i: nat)
    requires i < |es|
    ensures Advance(es, i) >= i
    ensures SeparatedFrom(es, i) <==> Advance(es, i) > i && SeparatedFrom(es, Advance(es, i))
  {
    var next := Advance(es, i);
    if es[i].Action? {
      var j := NextStop(es, i + 1);
      if j < |es| && es[j].Action? {
        assert !ObservedBetween(es, i, j);
      } else if SeparatedFrom(es, next) {
        forall a, b | i <= a < b < |es| && es[a].Action? && es[b].Action? ensures ObservedBetween(es, a, b) {
          if a == i {
            assert b >= j;
            assert j < |es|;
            assert es[j].Observation? && i < j < b;
          } else {
            assert a >= next;
          }
        }
      }
    } else if SeparatedFrom(es, next) {
      assert forall a :: i <= a < |es| && es[a].Action? ==> a >= next;
    }
  }

  /** From `i`, the scan has reached the end after `n` passes. */
  predicate EndsIn(es: seq<Event>, i: nat, n: nat) {
    Passes(es, i, n) >= |es|
  }

  ghost predicate Ends(es: seq<Event>, i: nat) {
    exists n: nat :: EndsIn(es, i, n)
  }

  /** A pass that moves leaves open whether the scan ends. */
  lemma EndsAfterPass(es: seq<Event>, i: nat)
    requires i < |es|
    ensures Ends(es, i) <==> Ends(es, Advance(es, i))
  {
    var next := Advance(es, i);
    if n: nat :| EndsIn(es, next, n) {
      assert EndsIn(es, i, n + 1);
    }
    if n: nat :| EndsIn(es, i, n) {
      assert n > 0 && EndsIn(es, next, n - 1);
    }
  }

  lemma NeverEnds(es: seq<Event>, i: nat)
    requires i < |es| && Advance(es, i) == i
    ensures !Ends(es, i)
  {
    forall n: nat ensures !EndsIn(es, i, n) {
      StandsStill(es, i, n);
    }
  }

  /** The scan reaches the end of the window exactly when any two actions have an observation between them. */
  lemma {:induction false} ScanEndsFromIff(es: seq<Event>, i: nat)
    requires i <= |es|
    ensures Ends(es, i) <==> SeparatedFrom(es, i)
    decreases |es| - i
  {
    if i == |es| {
      assert EndsIn(es, i, 0);
    } else {
      PassMoves(es, i);
      if Advance(es, i) == i {
        NeverEnds(es, i);
      } else {
        EndsAfterPass(es, i);
        ScanEndsFromIff(es, Advance(es, i));
      }
    }
  }

  lemma ScanEndsIff(es: seq<Event>)
    ensures Ends(es, 0) <==> Separated(es)
  {
    ScanEndsFromIff(es, 0);
    assert SeparatedFrom(es, 0) <==> Separated(es);
  }

  // ----- action-observation pairs -----

  /** The first observation from `j` on, or the end. */
  function FirstObservation(es: seq<Event>, j: nat): (k: nat)
    requires j <= |es|
    ensures j <= k <= |es| && (forall i :: j <= i < k ==> !es[i].Observation?) && (k < |es| ==> es[k].Observation?)
    decreases |es| - j
  {
    if j == |es| || es[j].Observation? then j else FirstObservation(es, j + 1)
  }

  /** The pair of the action at `i`: its digest and that of the first observation after it. */
  function PairOf(d: Digests, es: seq<Event>, i: nat): string
    requires i < |es|
  {
    var k := FirstObservation(es, i + 1);
    d.action(es[i]) + ":" + if k < |es| then d.observation(es[k]) else ""
  }

  /** The pairs of all actions from `i` on, in order. */
  function PairsFrom(d: Digests, es: seq<Event>, i: nat): seq<string>
    decreases |es| - i
  {
    if i >= |es| then [] else (if es[i].Action? then [PairOf(d, es, i)] else []) + PairsFrom(d, es, i + 1)
  }

  /** The pair of the action at `i` if its first observation failed and has a digest. */
  function ErrorOf(d: Digests, es: seq<Event>, i: nat): seq<string>
    requires i < |es|
  {
    var k := FirstObservation(es, i + 1);
    if es[i].Action? && k < |es| && !es[k].success && d.observation(es[k]) != ""
    then [d.action(es[i]) + ":ERR:" + d.observation(es[k])] else []
  }

  function ErrorsFrom(d: Digests, es: seq<Event>, i: nat): seq<string>
    decreases |es| - i
  {
    if i >= |es| then [] else ErrorOf(d, es, i) + ErrorsFrom(d, es, i + 1)
  }

  /** Between an action and its first stop there is nothing to collect. */
  lemma {:induction false} NothingBetween(d: Digests, es: seq<Event>, i: nat, j: nat)
    requires i <= j <= |es| && forall k :: i <= k < j ==> !es[k].Action?
    ensures PairsFrom(d, es, i) == PairsFrom(d, es, j) && ErrorsFrom(d, es, i) == ErrorsFrom(d, es, j)
    decreases j - i
  {
    if i < j {
      NothingBetween(d, es, i + 1, j);
    }
  }

  lemma StopIsObservation(es: seq<Event>, i: nat)
    requires i <= |es| && (NextStop(es, i) == |es| || es[NextStop(es, i)].Observation?)
    ensures FirstObservation(es, i) == NextStop(es, i)
    decreases |es| - i
  {
    if i < |es| && !es[i].Observation? && !es[i].Action? {
      StopIsObservation(es, i + 1);
    }
  }

  /** One pass that moves collects the pair, or the error, of its action and skips no other action. */
  lemma PassCollects(d: Digests, es: seq<Event>, i: nat)
    requires i < |es| && Advance(es, i) > i
    ensures PairsFrom(d, es, i) == (if es[i].Action? then [PairOf(d, es, i)] else []) + PairsFrom(d, es, Advance(es, i))
    ensures ErrorsFrom(d, es, i) == ErrorOf(d, es, i) + ErrorsFrom(d, es, Advance(es, i))
    ensures es[i].Action? ==> FirstObservation(es, i + 1) == NextStop(es, i + 1)
  {
    if es[i].Action? {
      StopIsObservation(es, i + 1);
    }
    NothingBetween(d, es, i + 1, Advance(es, i));
  }

  /** The inner loop: where the search for the action's observation stops. */
  method FindStop(events: seq<Event>, i: nat) returns (j: nat)
    requires i < |events|
    ensures j == NextStop(events, i + 1)
  {
    j := i + 1;
    while j < |events| && !events[j].Observation? && !events[j].Action?
      invariant i + 1 <= j <= |events| && NextStop(events, j) == NextStop(events, i + 1)
    {
      j := j + 1;
    }
  }

  /** The pair, if any, that the pass at `i` contributes. */
  function PairPiece(d: Digests, es: seq<Event>, i: nat): seq<string>
    requires i < |es|
  {
    if es[i].Action? then [PairOf(d, es, i)] else []
  }

  /** One pass of the pair scan: what it appends, and where the next pass starts. */
  method PairPass(d: Digests, events: seq<Event>, i: nat) returns (piece: seq<string>, next: nat)
    requires i < |events|
    ensures next == Advance(events, i)
    ensures next > i ==> piece == PairPiece(d, events, i)
  {
    if !events[i].Action? {
      return [], i + 1;
    }
    var obs := "";
    var j := FindStop(events, i);
    if j < |events| && events[j].Action? {
      return [d.action(events[i]) + ":" + obs], i;
    }
    StopIsObservation(events, i + 1);
    if j < |events| {
      obs := d.observation(events[j]);
    }
    return [d.action(events[i]) + ":" + obs], if j < |events| then j + 1 else i + 1;
  }

  /** One pass of the error scan. */
  method ErrorPass(d: Digests, events: seq<Event>, i: nat) returns (piece: seq<string>, next: nat)
    requires i < |events|
    ensures next == Advance(events, i)
    ensures next > i ==> piece == ErrorOf(d, events, i)
  {
    if !events[i].Action? {
      return [], i + 1;
    }
    var obs := "";
    var j := FindStop(events, i);
    if j < |events| && events[j].Action? {
      return [], i;
    }
    StopIsObservation(events, i + 1);
    if j < |events| && !events[j].success {
      obs := d.observation(events[j]);
    }
    piece := if obs != "" then [d.action(events[i]) + ":ERR:" + obs] else [];
    next := if j < |events| then j + 1 else i + 1;
  }

  /** The scan stands at `i`, everything before it collected, and its fate still open. */
  ghost predicate Scanning(es: seq<Event>, i: nat, collected: seq<string>, rest: seq<string>, all: seq<string>) {
    i <= |es| && (Separated(es) <==> SeparatedFrom(es, i)) && collected + rest == all
  }

  lemma ScanStep(es: seq<Event>, i: nat, collected: seq<string>, piece: seq<string>, rest: seq<string>, next: nat,
                 all: seq<string>)
    requires i < |es| && Scanning(es, i, collected, piece + rest, all) && next == Advance(es, i) > i
    ensures Scanning(es, next, collected + piece, rest, all)
  {
    PassMoves(es, i);
    assert collected + piece + rest == collected + (piece + rest);
  }

  lemma ScanStart(es: seq<Event>, all: seq<string>)
    ensures Scanning(es, 0, [], all, all)
  {
    assert SeparatedFrom(es, 0) <==> Separated(es);
  }

  lemma ScanDone(es: seq<Event>, collected: seq<string>, all: seq<string>)
    requires Scanning(es, |es|, collected, [], all)
    ensures Separated(es) && collected == all
  {
  }

  /** None when a pass does not move: the source's loop then never ends. */
  method CollectPairs(d: Digests, events: seq<Event>) returns (pairs: Option<seq<string>>)
    ensures pairs == if Separated(events) then Some(PairsFrom(d, events, 0)) else None
  {
    var collected: seq<string>, i := [], 0;
    ghost var all := PairsFrom(d, events, 0);
    ScanStart(events, all);
    while i < |events|
      invariant i <= |events| && Scanning(events, i, collected, PairsFrom(d, events, i), all)
      decreases |events| - i
    {
      var piece, next := PairPass(d, events, i);
      PassMoves(events, i);
      if next == i {
        return None;
      }
      PassCollects(d, events, i);
      ScanStep(events, i, collected, PairPiece(d, events, i), PairsFrom(d, events, next), next, all);
      collected := collected + piece;
      i := next;
    }
    ScanDone(events, collected, all);
    return Some(collected);
  }

  method CollectErrors(d: Digests, events: seq<Event>) returns (pairs: Option<seq<string>>)
    ensures pairs == if Separated(events) then Some(ErrorsFrom(d, events, 0)) else None
  {
    var collected: seq<string>, i := [], 0;
    ghost var all := ErrorsFrom(d, events, 0);
    ScanStart(events, all);
    while i < |events|
      invariant i <= |events| && Scanning(events, i, collected, ErrorsFrom(d, events, i), all)
      decreases |events| - i
    {
      var piece, next := ErrorPass(d, events, i);
      PassMoves(events, i);
      if next == i {
        return None;
      }
      PassCollects(d, events, i);
      ScanStep(events, i, collected, ErrorOf(d, events, i), ErrorsFrom(d, events, next), next, all);
      collected := collected + piece;
      i := next;
    }
    ScanDone(events, collected, all);
    return Some(collected);
  }

  // ----- the five patterns -----

  /** One value only, and at least one. */
  predicate AllSame(xs: seq<string>) {
    xs != [] && forall i :: 0 <= i < |xs| ==> xs[i] == xs[0]
  }

  ghost predicate RepeatsActionObservation(d: Digests, es: seq<Event>, threshold: int) {
    var pairs := PairsFrom(d, es, 0);
    |pairs| >= threshold && AllSame(PySuffix(pairs, threshold)) && PySuffix(pairs, threshold)[0] != ":"
  }

  ghost predicate RepeatsActionError(d: Digests, es: seq<Event>, threshold: int) {
    var errors := ErrorsFrom(d, es, 0);
    |errors| >= threshold && AllSame(PySuffix(errors, threshold))
  }

  /** How many countable events `[a, b)` holds. */
  function CountIn(es: seq<Event>, a: int, b: int): nat
    requires 0 <= a && b <= |es|
    decreases b - a
  {
    if b <= a then 0 else CountIn(es, a, b - 1) + if es[b - 1].Counts() then 1 else 0
  }

  /** Some stretch without a user message holds `threshold` countable events. */
  ghost predicate HasMonologue(es: seq<Event>, threshold: int) {
    exists a, b :: Quiet(es, a, b) && CountIn(es, a, b) >= threshold
  }

  ghost predicate Quiet(es: seq<Event>, a: int, b: int) {
    0 <= a <= b <= |es| && forall i :: a <= i < b ==> !es[i].IsUserMessage()
  }

  function ActionDigests(d: Digests, es: seq<Event>): seq<string> {
    if es == [] then [] else
    ActionDigests(d, es[..|es| - 1]) + (if es[|es| - 1].Action? then [d.action(es[|es| - 1])] else [])
  }

  /** The last actions go back and forth between two different ones. */
  ghost predicate Alternates(d: Digests, es: seq<Event>, threshold: int) {
    var digests := ActionDigests(d, es);
    && |digests| >= threshold * 2
    && var last := PySuffix(digests, threshold * 2);
       |last| >= 4 && last[0] != last[1] && forall i :: 0 <= i < |last| ==> last[i] == last[i % 2]
  }

  const CONTEXT_KEYWORDS: seq<string> :=
    ["token", "context", "window", "maximum", "too many", "exceed", "length", "context_length"]

  /** `word` occurs somewhere in `text`. */
  predicate Contains(text: string, word: string) {
    word <= text || (text != "" && Contains(text[1..], word))
  }

  predicate IsContextWindowError(d: Digests, e: Event) {
    e.CondensationRequest? || (e.ErrorEvent? && HasKeyword(d.lower(e.errorType + " " + e.error)))
  }

  predicate HasKeyword(text: string) {
    exists k :: 0 <= k < |CONTEXT_KEYWORDS| && Contains(text, CONTEXT_KEYWORDS[k])
  }

  function ContextErrors(d: Digests, es: seq<Event>): nat {
    if es == [] then 0 else ContextErrors(d, es[..|es| - 1]) + if IsContextWindowError(d, es[|es| - 1]) then 1 else 0
  }

  /** What the detector should say of its window: the first pattern that holds, unless its scans never end. */
  ghost function VerdictOn(d: Digests, window: seq<Event>, repeat: int, monologue: int, contextErrors: int): Verdict {
    if !Separated(window) then Diverges
    else if RepeatsActionObservation(d, window, repeat) then Stuck(RepeatingActionObservation)
    else if RepeatsActionError(d, window, repeat) then Stuck(RepeatingActionError)
    else if HasMonologue(window, monologue) then Stuck(AgentMonologue)
    else if Alternates(d, window, repeat) then Stuck(AlternatingActions)
    else if ContextErrors(d, window) >= contextErrors then Stuck(ContextWindowErrorLoop)
    else NotStuck
  }

  /** The longest quiet stretch seen so far, and the one still running. */
  ghost predicate MonologueState(es: seq<Event>, n: nat, start: nat, consecutive: int, most: int)
    requires n <= |es|
  {
    && start <= n && Quiet(es, start, n) && (start > 0 ==> es[start - 1].IsUserMessage())
    && consecutive == CountIn(es, start, n) && consecutive <= most
    && (forall a, b :: Quiet(es, a, b) && b <= n ==> CountIn(es, a, b) <= most)
    && (exists a, b :: Quiet(es, a, b) && b <= n && CountIn(es, a, b) == most)
  }

  lemma CountMonotone(es: seq<Event>, a: int, c: int, b: int)
    requires 0 <= a <= c <= b <= |es|
    ensures CountIn(es, c, b) <= CountIn(es, a, b)
    decreases b - c
  {
    if c < b {
      CountMonotone(es, a, c, b - 1);
    }
  }

  lemma MonologueStep(es: seq<Event>, n: nat, start: nat, consecutive: int, most: int)
    requires n < |es| && MonologueState(es, n, start, consecutive, most)
    ensures es[n].IsUserMessage() ==> MonologueState(es, n + 1, n + 1, 0, most)
    ensures !es[n].IsUserMessage() ==>
              var c := consecutive + if es[n].Counts() then 1 else 0;
              MonologueState(es, n + 1, start, c, if c > most then c else most)
  {
    var x, y :| Quiet(es, x, y) && y <= n && CountIn(es, x, y) == most;
    if es[n].IsUserMessage() {
      assert Quiet(es, n + 1, n + 1);
      forall a, b | Quiet(es, a, b) && b <= n + 1 ensures CountIn(es, a, b) <= most {
        if b == n + 1 {
          assert a == n + 1;
        }
      }
    } else {
      var c := consecutive + if es[n].Counts() then 1 else 0;
      assert Quiet(es, start, n + 1) && CountIn(es, start, n + 1) == c;
      forall a, b | Quiet(es, a, b) && b <= n + 1 ensures CountIn(es, a, b) <= if c > most then c else most {
        if b == n + 1 {
          assert a >= start;
          CountMonotone(es, start, a, b);
        }
      }
    }
  }

  method CheckMonologue(events: seq<Event>, threshold: int) returns (stuck: bool)
    ensures stuck <==> HasMonologue(events, threshold)
  {
    var consecutive, most := 0, 0;
    ghost var start := 0;
    assert Quiet(events, 0, 0) && CountIn(events, 0, 0) == 0;
    for n := 0 to |events|
      invariant MonologueState(events, n, start, consecutive, most)
    {
      MonologueStep(events, n, start, consecutive, most);
      if events[n].IsUserMessage() {
        consecutive := 0;
        start := n + 1;
      } else if events[n].Counts() {
        consecutive := consecutive + 1;
        most := if consecutive > most then consecutive else most;
      }
    }
    return most >= threshold;
  }

  method CheckAlternating(d: Digests, events: seq<Event>, threshold: int) returns (stuck: bool)
    ensures stuck <==> Alternates(d, events, threshold)
  {
    var digests: seq<string> := [];
    for n := 0 to |events|
      invariant digests == ActionDigests(d, events[..n])
    {
      assert events[..n + 1][..n] == events[..n];
      if events[n].Action? {
        digests := digests + [d.action(events[n])];
      }
    }
    assert events[..|events|] == events;
    if |digests| < threshold * 2 {
      return false;
    }
    var last := PySuffix(digests, threshold * 2);
    if |last| < 4 || last[0] == last[1] {
      return false;
    }
    for i := 0 to |last|
      invariant forall k :: 0 <= k < i ==> last[k] == last[k % 2]
    {
      var expected := if i % 2 == 0 then last[0] else last[1];
      if last[i] != expected {
        return false;
      }
    }
    return true;
  }

  method CheckContextErrors(d: Digests, events: seq<Event>, threshold: int) returns (stuck: bool)
    ensures stuck <==> ContextErrors(d, events) >= threshold
  {
    var errors := 0;
    for n := 0 to |events|
      invariant errors == ContextErrors(d, events[..n])
    {
      assert events[..n + 1][..n] == events[..n];
      if IsContextWindowError(d, events[n]) {
        errors := errors + 1;
      }
    }
    assert events[..|events|] == events;
    return errors >= threshold;
  }

  /** The events `analyze` looks at. */
  function Window(events: seq<Event>, size: int): seq<Event> {
    if |events| > size then PySuffix(events, size) else events
  }

  /** What the detector should say of all the events. */
  ghost function Analysis(d: Digests, events: seq<Event>, windowSize: int, repeat: int, monologue: int,
                          contextErrors: int): Verdict
  {
    if events == [] then NotStuck else VerdictOn(d, Window(events, windowSize), repeat, monologue, contextErrors)
  }

  /**
   The detector reports the first pattern, in its order of priority, that holds of the window; with
   two actions and no observation between them in the window it does not return.
   */
  method Analyze(d: Digests, events: seq<Event>, windowSize: int, repeat: int, monologue: int, contextErrors: int)
      returns (verdict: Verdict)
    ensures verdict == Analysis(d, events, windowSize, repeat, monologue, contextErrors)
  {
    if events == [] {
      return NotStuck;
    }
    var window := Window(events, windowSize);
    var pairs := CollectPairs(d, window);
    if pairs.None? {
      return Diverges;
    }
    if |pairs.value| >= repeat {
      var last := PySuffix(pairs.value, repeat);
      if AllSame(last) && last[0] != ":" {
        return Stuck(RepeatingActionObservation);
      }
    }
    var errors := CollectErrors(d, window);
    if |errors.value| >= repeat {
      if AllSame(PySuffix(errors.value, repeat)) {
        return Stuck(RepeatingActionError);
      }
    }
    var alone := CheckMonologue(window, monologue);
    if alone {
      return Stuck(AgentMonologue);
    }
    var alternates := CheckAlternating(d, window, repeat);
    if alternates {
      return Stuck(AlternatingActions);
    }
    var overflows := CheckContextErrors(d, window, contextErrors);
    return if overflows then Stuck(ContextWindowErrorLoop) else NotStuck;
  }

  /** Two parallel actions, as one model response can produce, are enough for the scan never to end. */
  lemma ParallelActionsDiverge(d: Digests, a: Event, b: Event, repeat: int, monologue: int, contextErrors: int)
    requires a.Action? && b.Action?
    ensures VerdictOn(d, [a, b], repeat, monologue, contextErrors) == Diverges
    ensures forall n: nat :: Passes([a, b], 0, n) == 0
  {
    var es := [a, b];
    assert es[0].Action? && es[1].Action?;
    assert !ObservedBetween(es, 0, 1);
    assert NextStop(es, 1) == 1;
    forall n: nat ensures Passes(es, 0, n) == 0 {
      StandsStill(es, 0, n);
    }
  }

  // ----- what the collected texts are -----

  /** The observation at `j` is the first one after position `i`. */
  ghost predicate FirstAfter(es: seq<Event>, i: int, j: int) {
    0 <= i < j < |es| && es[j].Observation? && forall k :: i < k < j ==> !es[k].Observation?
  }

  lemma FirstAfterIs(es: seq<Event>, i: nat, j: int)
    requires i < |es|
    ensures FirstAfter(es, i, j) <==> j == FirstObservation(es, i + 1) && j < |es|
  {
    var k := FirstObservation(es, i + 1);
    assert k < |es| ==> es[k].Observation?;
  }

  /** `text` pairs the action at `i` with the first observation after it, or with nothing when there is none. */
  ghost predicate PairsAction(d: Digests, es: seq<Event>, i: nat, text: string) {
    && i < |es| && es[i].Action?
    && (forall j :: FirstAfter(es, i, j) ==> text == d.action(es[i]) + ":" + d.observation(es[j]))
    && ((forall j :: !FirstAfter(es, i, j)) ==> text == d.action(es[i]) + ":")
  }

  /** The observation at `j` says that the action at `i` failed. */
  ghost predicate FailsWith(d: Digests, es: seq<Event>, i: nat, j: int) {
    FirstAfter(es, i, j) && es[i].Action? && !es[j].success && d.observation(es[j]) != ""
  }

  ghost predicate Fails(d: Digests, es: seq<Event>, i: nat) {
    exists j :: FailsWith(d, es, i, j)
  }

  lemma PairIs(d: Digests, es: seq<Event>, i: nat)
    requires i < |es| && es[i].Action?
    ensures PairsAction(d, es, i, PairOf(d, es, i))
  {
    var k := FirstObservation(es, i + 1);
    forall j ensures FirstAfter(es, i, j) <==> j == k && j < |es| {
      FirstAfterIs(es, i, j);
    }
    assert k < |es| ==> FirstAfter(es, i, k);
    assert d.action(es[i]) + ":" + "" == d.action(es[i]) + ":";
  }

  ghost predicate ArePairs(d: Digests, es: seq<Event>, ks: seq<nat>, texts: seq<string>) {
    |texts| == |ks| && forall x :: 0 <= x < |ks| ==> PairsAction(d, es, ks[x], texts[x])
  }

  lemma PairsCons(d: Digests, es: seq<Event>, ks: seq<nat>, texts: seq<string>, k: nat, text: string)
    requires ArePairs(d, es, ks, texts) && PairsAction(d, es, k, text)
    ensures ArePairs(d, es, [k] + ks, [text] + texts)
  {
  }

  /** The pairs are those of all actions, each once and in order. */
  lemma {:induction false} PairsAre(d: Digests, es: seq<Event>, i: nat) returns (ks: seq<nat>)
    requires i <= |es|
    ensures Increasing(ks) && forall k: nat :: k in ks <==> i <= k < |es| && es[k].Action?
    ensures ArePairs(d, es, ks, PairsFrom(d, es, i))
    decreases |es| - i
  {
    if i == |es| {
      return [];
    }
    ks := PairsAre(d, es, i + 1);
    if es[i].Action? {
      PairIs(d, es, i);
      PairsCons(d, es, ks, PairsFrom(d, es, i + 1), i, PairOf(d, es, i));
      FrontPosition(i, ks);
      ks := [i] + ks;
    }
  }

  ghost predicate NamesFailure(d: Digests, es: seq<Event>, i: nat, text: string) {
    exists j :: FailsWith(d, es, i, j) && text == d.action(es[i]) + ":ERR:" + d.observation(es[j])
  }

  lemma ErrorIs(d: Digests, es: seq<Event>, i: nat)
    requires i < |es|
    ensures Fails(d, es, i) <==> ErrorOf(d, es, i) != []
    ensures ErrorOf(d, es, i) != [] ==>
              |ErrorOf(d, es, i)| == 1 && NamesFailure(d, es, i, ErrorOf(d, es, i)[0])
  {
    var k := FirstObservation(es, i + 1);
    forall j ensures FirstAfter(es, i, j) <==> j == k && j < |es| {
      FirstAfterIs(es, i, j);
    }
    if ErrorOf(d, es, i) != [] {
      assert FailsWith(d, es, i, k);
    }
  }

  ghost predicate AreErrors(d: Digests, es: seq<Event>, ks: seq<nat>, texts: seq<string>) {
    |texts| == |ks| && forall x :: 0 <= x < |ks| ==> NamesFailure(d, es, ks[x], texts[x])
  }

  lemma ErrorsCons(d: Digests, es: seq<Event>, ks: seq<nat>, texts: seq<string>, k: nat, text: string)
    requires AreErrors(d, es, ks, texts) && NamesFailure(d, es, k, text)
    ensures AreErrors(d, es, [k] + ks, [text] + texts)
  {
  }

  /** The errors are those of all actions whose first observation failed, each once and in order. */
  lemma {:induction false} ErrorsAre(d: Digests, es: seq<Event>, i: nat) returns (ks: seq<nat>)
    requires i <= |es|
    ensures Increasing(ks) && forall k: nat :: k in ks <==> i <= k < |es| && Fails(d, es, k)
    ensures AreErrors(d, es, ks, ErrorsFrom(d, es, i))
    decreases |es| - i
  {
    if i == |es| {
      return [];
    }
    ks := ErrorsAre(d, es, i + 1);
    ErrorIs(d, es, i);
    if Fails(d, es, i) {
      ErrorsCons(d, es, ks, ErrorsFrom(d, es, i + 1), i, ErrorOf(d, es, i)[0]);
      FrontPosition(i, ks);
      ks := [i] + ks;
    }
  }

  /** The digests are those of all actions, each once and in order. */
  lemma {:induction false} DigestsAre(d: Digests, es: seq<Event>) returns (ks: seq<nat>)
    ensures Increasing(ks) && forall k: nat :: k in ks <==> k < |es| && es[k].Action?
    ensures |ActionDigests(d, es)| == |ks|
    ensures forall x :: 0 <= x < |ks| ==> ks[x] < |es| && ActionDigests(d, es)[x] == d.action(es[ks[x]])
  {
    ks := [];
    if es != [] {
      var last := |es| - 1;
      ks := DigestsAre(d, es[..last]);
      assert forall x :: 0 <= x < |ks| ==> ks[x] in ks;
      if es[last].Action? {
        LastPosition(ks, last);
        ks := ks + [last];
      }
    }
  }

  // ----- what the patterns say of positions -----

  /**
   The last `threshold` texts exist and are equal; a threshold of zero looks at all texts, of which
   there must be one, a negative one passes over that many at the front.
   */
  ghost predicate EndsRepeating(texts: seq<string>, threshold: int) {
    var from := if threshold > 0 then |texts| - threshold else -threshold;
    0 <= from < |texts| && forall i :: from <= i < |texts| ==> texts[i] == texts[|texts| - 1]
  }

  lemma SameIff(texts: seq<string>, threshold: int)
    ensures |texts| >= threshold && AllSame(PySuffix(texts, threshold)) <==> EndsRepeating(texts, threshold)
    ensures EndsRepeating(texts, threshold) ==> PySuffix(texts, threshold)[0] == texts[|texts| - 1]
  {
    var last, from := PySuffix(texts, threshold), if threshold > 0 then |texts| - threshold else -threshold;
    if |texts| >= threshold && from < |texts| {
      assert last == texts[from..];
      if AllSame(last) {
        forall i | from <= i < |texts| ensures texts[i] == texts[|texts| - 1] {
          assert last[i - from] == last[0] && last[|texts| - 1 - from] == last[0];
        }
      }
      if EndsRepeating(texts, threshold) {
        forall i | 0 <= i < |last| ensures last[i] == last[0] {
          assert texts[from + i] == texts[|texts| - 1] && texts[from] == texts[|texts| - 1];
        }
      }
    }
  }

  /**
   The repeat patterns by position: the last `threshold` pairs, or errors, exist and are equal, and
   the pairs are not empty ones.
   */
  lemma RepeatsIff(d: Digests, es: seq<Event>, threshold: int)
    ensures RepeatsActionObservation(d, es, threshold) <==>
            var pairs := PairsFrom(d, es, 0);
            EndsRepeating(pairs, threshold) && pairs[|pairs| - 1] != ":"
    ensures RepeatsActionError(d, es, threshold) <==> EndsRepeating(ErrorsFrom(d, es, 0), threshold)
  {
    SameIff(PairsFrom(d, es, 0), threshold);
    SameIff(ErrorsFrom(d, es, 0), threshold);
  }

  /** Two values in turn: from the front, or each two places on from itself, is the same. */
  lemma {:induction false} InTurn(xs: seq<string>, i: nat)
    requires i < |xs| && forall k :: 0 <= k < |xs| - 2 ==> xs[k] == xs[k + 2]
    ensures xs[i] == xs[i % 2]
  {
    if i >= 2 {
      InTurn(xs, i - 2);
      assert xs[i - 2] == xs[i - 2 + 2];
    }
  }

  lemma InTurnIff(xs: seq<string>)
    requires |xs| >= 2
    ensures xs[0] != xs[1] && (forall i :: 0 <= i < |xs| ==> xs[i] == xs[i % 2]) <==>
            xs[|xs| - 1] != xs[|xs| - 2] && forall i :: 0 <= i < |xs| - 2 ==> xs[i] == xs[i + 2]
  {
    var n := |xs|;
    if forall i :: 0 <= i < n - 2 ==> xs[i] == xs[i + 2] {
      forall i | 0 <= i < n ensures xs[i] == xs[i % 2] {
        InTurn(xs, i);
      }
    }
    if forall i :: 0 <= i < n ==> xs[i] == xs[i % 2] {
      forall i | 0 <= i < n - 2 ensures xs[i] == xs[i + 2] {
        assert xs[i] == xs[i % 2] && xs[i + 2] == xs[(i + 2) % 2] && (i + 2) % 2 == i % 2;
      }
      assert xs[n - 1] == xs[(n - 1) % 2] && xs[n - 2] == xs[(n - 2) % 2];
    }
  }

  /**
   The alternation by position: of the last twice `threshold` digests, which number at least four,
   the last two differ and every other one equals the digest two places on.
   */
  lemma AlternatesIff(d: Digests, es: seq<Event>, threshold: int)
    ensures var digests := ActionDigests(d, es);
            var from := if threshold * 2 > 0 then |digests| - threshold * 2 else -threshold * 2;
            Alternates(d, es, threshold) <==>
            && 0 <= from <= |digests| - 4
            && digests[|digests| - 1] != digests[|digests| - 2]
            && forall i :: from <= i < |digests| - 2 ==> digests[i] == digests[i + 2]
  {
    var digests := ActionDigests(d, es);
    TurnsIff(digests, PySuffix(digests, threshold * 2), threshold * 2);
  }

  lemma TurnsIff(digests: seq<string>, last: seq<string>, n: int)
    requires last == PySuffix(digests, n)
    ensures var from := if n > 0 then |digests| - n else -n;
            (&& |digests| >= n && |last| >= 4 && last[0] != last[1]
             && forall i :: 0 <= i < |last| ==> last[i] == last[i % 2])
            <==>
            && 0 <= from <= |digests| - 4
            && digests[|digests| - 1] != digests[|digests| - 2]
            && forall i :: from <= i < |digests| - 2 ==> digests[i] == digests[i + 2]
  {
    var from := if n > 0 then |digests| - n else -n;
    if 0 <= from <= |digests| - 4 {
      assert last == digests[from..];
      InTurnIff(last);
      if forall i :: 0 <= i < |last| - 2 ==> last[i] == last[i + 2] {
        forall i | from <= i < |digests| - 2 ensures digests[i] == digests[i + 2] {
          assert last[i - from] == last[i - from + 2];
        }
      }
      if forall i :: from <= i < |digests| - 2 ==> digests[i] == digests[i + 2] {
        forall i | 0 <= i < |last| - 2 ensures last[i] == last[i + 2] {
          assert digests[from + i] == digests[from + i + 2];
        }
      }
    }
  }

  /** The positions of actions, observations and messages in `[a, b)`. */
  ghost function Counted(es: seq<Event>, a: int, b: int): set<int>
    requires 0 <= a && b <= |es|
  {
    set i | a <= i < b && (es[i].Action? || es[i].Observation? || es[i].ChatMessage?)
  }

  lemma {:induction false} CountIs(es: seq<Event>, a: int, b: int)
    requires 0 <= a && b <= |es|
    ensures CountIn(es, a, b) == |Counted(es, a, b)|
    decreases b - a
  {
    if b <= a {
      assert Counted(es, a, b) == {};
    } else {
      CountIs(es, a, b - 1);
      var before := Counted(es, a, b - 1);
      assert Counted(es, a, b) == if es[b - 1].Counts() then before + {b - 1} else before;
    }
  }

  /** No event of `[a, b)` is a message whose source or role is the user's. */
  ghost predicate Undisturbed(es: seq<Event>, a: int, b: int) {
    && 0 <= a <= b <= |es|
    && forall i :: a <= i < b && es[i].ChatMessage? ==> es[i].source != "user" && es[i].role != "user"
  }

  /** A monologue by position: a stretch without a user message that holds `threshold` countable events. */
  lemma MonologueIff(es: seq<Event>, threshold: int)
    ensures HasMonologue(es, threshold) <==> exists a, b :: Undisturbed(es, a, b) && |Counted(es, a, b)| >= threshold
  {
    forall a, b ensures Quiet(es, a, b) <==> Undisturbed(es, a, b) {
    }
    forall a, b | Quiet(es, a, b) ensures CountIn(es, a, b) == |Counted(es, a, b)| {
      CountIs(es, a, b);
    }
  }

  ghost predicate Within(text: string, word: string) {
    exists a, b :: text == a + word + b
  }

  lemma WithinStep(text: string, word: string)
    ensures word <= text ==> Within(text, word)
    ensures text != "" && Within(text[1..], word) ==> Within(text, word)
    ensures Within(text, word) ==> word <= text || (text != "" && Within(text[1..], word))
  {
    if word <= text {
      assert text == "" + word + text[|word|..];
    }
    if text != "" && Within(text[1..], word) {
      var a, b :| text[1..] == a + word + b;
      assert text == [text[0]] + a + word + b;
    }
    if Within(text, word) && !(word <= text) {
      var a, b :| text == a + word + b;
      assert a != [];
      assert text[1..] == a[1..] + word + b;
    }
  }

  lemma {:induction false} ContainsIff(text: string, word: string)
    ensures Contains(text, word) <==> Within(text, word)
  {
    WithinStep(text, word);
    if text != "" {
      ContainsIff(text[1..], word);
    }
  }

  /** The text holds one of the eight keywords somewhere. */
  lemma KeywordIff(text: string)
    ensures HasKeyword(text) <==>
            exists word :: Within(text, word) &&
              word in {"token", "context", "window", "maximum", "too many", "exceed", "length", "context_length"}
  {
    var keywords := CONTEXT_KEYWORDS;
    assert keywords[0] == "token" && keywords[1] == "context" && keywords[2] == "window" && keywords[3] == "maximum";
    assert keywords[4] == "too many" && keywords[5] == "exceed" && keywords[6] == "length";
    assert keywords[7] == "context_length";
    if k :| 0 <= k < |keywords| && Contains(text, keywords[k]) {
      ContainsIff(text, keywords[k]);
    }
    if word :| word in keywords && Within(text, word) {
      ContainsIff(text, word);
      var k :| 0 <= k < |keywords| && keywords[k] == word;
    }
  }

  /** The condensation requests and the errors whose text holds a keyword. */
  ghost function ContextPositions(d: Digests, es: seq<Event>): set<int> {
    set i | 0 <= i < |es| &&
      (es[i].CondensationRequest? || (es[i].ErrorEvent? && HasKeyword(d.lower(es[i].errorType + " " + es[i].error))))
  }

  lemma {:induction false} ContextErrorsAre(d: Digests, es: seq<Event>)
    ensures ContextErrors(d, es) == |ContextPositions(d, es)|
  {
    if es == [] {
      assert ContextPositions(d, es) == {};
    } else {
      var last := |es| - 1;
      ContextErrorsAre(d, es[..last]);
      var before := ContextPositions(d, es[..last]);
      assert ContextPositions(d, es) == if IsContextWindowError(d, es[last]) then before + {last} else before;
    }
  }

  // ----- what the verdict depends on -----

  /**
   The verdict looks at the last `windowSize` events and no others; a window size of zero looks at
   all of them, a negative one passes over that many at the front.
   */
  lemma OnlyTheTailCounts(d: Digests, before: seq<Event>, w: seq<Event>, windowSize: int, repeat: int, monologue: int,
                          contextErrors: int)
    requires w != [] && (|w| == windowSize || (windowSize <= 0 && |before| == -windowSize))
    ensures Analysis(d, before + w, windowSize, repeat, monologue, contextErrors) ==
            VerdictOn(d, w, repeat, monologue, contextErrors)
  {
    assert (before + w)[|before|..] == w;
  }

  /** A window that is not full looks at all there is. */
  lemma SmallWindow(d: Digests, w: seq<Event>, windowSize: int, repeat: int, monologue: int, contextErrors: int)
    requires w != [] && |w| <= windowSize
    ensures Analysis(d, w, windowSize, repeat, monologue, contextErrors) ==
            VerdictOn(d, w, repeat, monologue, contextErrors)
  {
  }

  /** The patterns in the order in which they are looked for. */
  const PRIORITY: seq<Pattern> :=
    [RepeatingActionObservation, RepeatingActionError, AgentMonologue, AlternatingActions, ContextWindowErrorLoop]

  ghost predicate Shows(d: Digests, w: seq<Event>, p: Pattern, repeat: int, monologue: int, contextErrors: int) {
    match p
    case RepeatingActionObservation => RepeatsActionObservation(d, w, repeat)
    case RepeatingActionError => RepeatsActionError(d, w, repeat)
    case AgentMonologue => HasMonologue(w, monologue)
    case AlternatingActions => Alternates(d, w, repeat)
    case ContextWindowErrorLoop => ContextErrors(d, w) >= contextErrors
  }

  /**
   A pattern is reported exactly when the scans end, it shows, and none before it does; nothing is
   reported exactly when the scans end and none shows.
   */
  lemma ReportedIff(d: Digests, w: seq<Event>, i: nat, repeat: int, monologue: int, contextErrors: int)
    requires i < |PRIORITY|
    ensures VerdictOn(d, w, repeat, monologue, contextErrors) == Stuck(PRIORITY[i]) <==>
            && Separated(w) && Shows(d, w, PRIORITY[i], repeat, monologue, contextErrors)
            && forall k :: 0 <= k < i ==> !Shows(d, w, PRIORITY[k], repeat, monologue, contextErrors)
    ensures VerdictOn(d, w, repeat, monologue, contextErrors) == NotStuck <==>
            && Separated(w)
            && forall k :: 0 <= k < |PRIORITY| ==> !Shows(d, w, PRIORITY[k], repeat, monologue, contextErrors)
  {
    assert PRIORITY[0].RepeatingActionObservation? && PRIORITY[1].RepeatingActionError? && PRIORITY[2].AgentMonologue?;
    assert PRIORITY[3].AlternatingActions? && PRIORITY[4].ContextWindowErrorLoop?;
  }
}
