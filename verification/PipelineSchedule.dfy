/**
 The concurrent stages of the orchestrator as a step system. Every role is a task that waits for
 the events of its dependencies, builds its input, runs, stores its result, logs, appends its stage
 record and finally sets its own event; any task that can move may move next.
 */
module PipelineSchedule {
  import opened Wrappers
  import opened TopologicalSort

  /** How a role body ends: its output, or the text of the exception it raised. */
  datatype Outcome = Completed(output: string) | Failed(message: string)
  {
    /** What is stored in `results` and in the stage record. */
    function Text(): string {
      match this
      case Completed(output) => output
      case Failed(message) => "ERROR: " + message
    }
  }

  datatype Stage = Stage(role: string, completed: bool, output: string)

  /**
   Where the task of a role is. A role that cannot be built raises before its event is set; one whose
   body failed raises after it, because the error hook looked up there was never stored.
   */
  datatype Phase = Waiting(next: nat) | Broken | Running | Logging(outcome: Outcome) | Finished(returned: bool)
  {
    predicate Started() { Running? || Logging? || Finished? }

    /** The task has ended with an exception. */
    predicate Raised() { Broken? || (Finished? && !returned) }
  }

  /** `title` renders a role name as the heading of its section. */
  datatype Config = Config(pipeline: seq<string>, deps: Deps, goal: string, buildable: set<string>,
                           title: string -> string)

  datatype State = State(phase: map<string, Phase>, events: set<string>, results: map<string, string>,
                         inputs: map<string, string>, stages: seq<Stage>)

  // ----- the input of a role -----

  const OUTPUT_LIMIT := 3000

  function Truncated(text: string): string {
    if |text| <= OUTPUT_LIMIT then text else text[..OUTPUT_LIMIT]
  }

  function Section(c: Config, up: string, output: string): string {
    "\n" + c.title(up) + " OUTPUT:\n" + Truncated(output)
  }

  function Parts(c: Config, upstream: seq<string>, results: map<string, string>): seq<string> {
    if upstream == [] then ["ORIGINAL GOAL:\n" + c.goal] else
    var before, up := Parts(c, upstream[..|upstream| - 1], results), upstream[|upstream| - 1];
    if up in results then before + [Section(c, up, results[up])] else before
  }

  function Join(parts: seq<string>): string {
    if parts == [] then "" else
    if |parts| == 1 then parts[0] else Join(parts[..|parts| - 1]) + "\n\n" + parts[|parts| - 1]
  }

  function RoleInput(c: Config, role: string, results: map<string, string>): string {
    if c.deps.Of(role) == [] then c.goal else Join(Parts(c, c.deps.Of(role), results))
  }

  method BuildRoleInput(c: Config, role: string, results: map<string, string>) returns (input: string)
    ensures input == RoleInput(c, role, results)
  {
    var upstream := c.deps.Of(role);
    if upstream == [] {
      return c.goal;
    }
    var parts := ["ORIGINAL GOAL:\n" + c.goal];
    for i := 0 to |upstream|
      invariant parts == Parts(c, upstream[..i], results)
    {
      assert upstream[..i + 1][..i] == upstream[..i];
      if upstream[i] in results {
        parts := parts + [Section(c, upstream[i], results[upstream[i]])];
      }
    }
    assert upstream[..|upstream|] == upstream;
    return Join(parts);
  }

  // ----- what a role reads -----

  /** What the input says of one upstream role: a heading, and at most 3000 characters of its result. */
  function Quoted(c: Config, up: string, t: string): string {
    "\n\n\n" + c.title(up) + " OUTPUT:\n" + if |t| <= 3000 then t else t[..3000]
  }

  function Quotes(c: Config, upstream: seq<string>, results: map<string, string>): string {
    if upstream == [] then "" else
    (if upstream[0] in results then Quoted(c, upstream[0], results[upstream[0]]) else "") +
    Quotes(c, upstream[1..], results)
  }

  lemma {:induction false} QuotesConcat(c: Config, a: seq<string>, b: seq<string>, results: map<string, string>)
    ensures Quotes(c, a + b, results) == Quotes(c, a, results) + Quotes(c, b, results)
  {
    if a == [] {
      assert a + b == b;
    } else {
      assert (a + b)[1..] == a[1..] + b;
      QuotesConcat(c, a[1..], b, results);
    }
  }

  lemma JoinSnoc(parts: seq<string>, part: string)
    requires parts != []
    ensures Join(parts + [part]) == Join(parts) + "\n\n" + part
  {
    assert (parts + [part])[..|parts|] == parts;
  }

  lemma Rejoin(a: string, b: string, c: string)
    ensures a + (b + c) == a + b + c
  {
  }

  lemma SectionIsQuoted(c: Config, up: string, output: string)
    ensures "\n\n" + Section(c, up, output) == Quoted(c, up, output)
  {
  }

  lemma QuotesOne(c: Config, up: string, results: map<string, string>)
    ensures Quotes(c, [up], results) == if up in results then Quoted(c, up, results[up]) else ""
  {
    assert Quotes(c, [], results) == "";
  }

  lemma {:induction false} PartsRead(c: Config, upstream: seq<string>, results: map<string, string>)
    ensures Parts(c, upstream, results) != []
    ensures Join(Parts(c, upstream, results)) == "ORIGINAL GOAL:\n" + c.goal + Quotes(c, upstream, results)
  {
    if upstream != [] {
      var before, up := upstream[..|upstream| - 1], upstream[|upstream| - 1];
      assert upstream == before + [up];
      PartsRead(c, before, results);
      QuotesConcat(c, before, [up], results);
      QuotesOne(c, up, results);
      if up in results {
        var parts := Parts(c, before, results);
        JoinSnoc(parts, Section(c, up, results[up]));
        SectionIsQuoted(c, up, results[up]);
        Rejoin("ORIGINAL GOAL:\n" + c.goal, Quotes(c, before, results), Quoted(c, up, results[up]));
        Rejoin(Join(parts), "\n\n", Section(c, up, results[up]));
      }
    }
  }

  /**
   The whole input: the goal alone without upstream roles, and otherwise the goal followed by the
   quotation of each upstream role that has a result, in order, and nothing else.
   */
  lemma RoleInputReads(c: Config, role: string, results: map<string, string>)
    ensures RoleInput(c, role, results) ==
            if c.deps.Of(role) == [] then c.goal
            else "ORIGINAL GOAL:\n" + c.goal + Quotes(c, c.deps.Of(role), results)
  {
    PartsRead(c, c.deps.Of(role), results);
  }

  /**
   The text holds `piece`, followed by nothing or by the next section: a heading starts behind two
   line breaks and one of its own.
   */
  ghost predicate HasSection(text: string, piece: string) {
    exists a, b :: text == a + piece + b && (b == "" || "\n\n\n" <= b)
  }

  lemma {:induction false} QuotesShape(c: Config, upstream: seq<string>, results: map<string, string>)
    ensures Quotes(c, upstream, results) == "" || "\n\n\n" <= Quotes(c, upstream, results)
  {
    if upstream != [] {
      QuotesShape(c, upstream[1..], results);
    }
  }

  lemma {:induction false} QuotesHave(c: Config, upstream: seq<string>, results: map<string, string>, up: string)
      returns (a: string, b: string)
    requires up in upstream && up in results
    ensures Quotes(c, upstream, results) == a + Quoted(c, up, results[up]) + b && (b == "" || "\n\n\n" <= b)
  {
    if upstream[0] == up {
      QuotesShape(c, upstream[1..], results);
      a, b := "", Quotes(c, upstream[1..], results);
    } else {
      var first := if upstream[0] in results then Quoted(c, upstream[0], results[upstream[0]]) else "";
      a, b := QuotesHave(c, upstream[1..], results, up);
      Rejoin(first, a + Quoted(c, up, results[up]), b);
      Rejoin(first, a, Quoted(c, up, results[up]));
      a := first + a;
    }
  }

  /** The input of a role quotes the result of every upstream role that has one, whole up to 3000 characters. */
  lemma InputQuotes(c: Config, role: string, results: map<string, string>, up: string)
    requires up in c.deps.Of(role) && up in results
    ensures var t := results[up];
            HasSection(RoleInput(c, role, results),
                       "\n\n\n" + c.title(up) + " OUTPUT:\n" + if |t| <= 3000 then t else t[..3000])
  {
    RoleInputReads(c, role, results);
    var a, b := QuotesHave(c, c.deps.Of(role), results, up);
    SectionBehind(RoleInput(c, role, results), "ORIGINAL GOAL:\n" + c.goal, a, Quoted(c, up, results[up]), b);
  }

  lemma SectionBehind(text: string, front: string, a: string, piece: string, b: string)
    requires text == front + (a + piece + b) && (b == "" || "\n\n\n" <= b)
    ensures HasSection(text, piece)
  {
    assert text == (front + a) + piece + b;
  }

  /** The input depends on the results of the upstream roles only. */
  lemma {:induction false} PartsFrame(c: Config, upstream: seq<string>, a: map<string, string>, b: map<string, string>)
    requires forall up :: up in upstream ==> (up in a <==> up in b) && (up in a ==> a[up] == b[up])
    ensures Parts(c, upstream, a) == Parts(c, upstream, b)
  {
    if upstream != [] {
      assert upstream == upstream[..|upstream| - 1] + [upstream[|upstream| - 1]];
      PartsFrame(c, upstream[..|upstream| - 1], a, b);
    }
  }

  // ----- steps -----

  datatype Step =
    | Await(role: string)
    | Start(role: string)
    | Finish(role: string, outcome: Outcome)
    | Record(role: string)

  function Init(c: Config): State {
    State(map r | r in c.pipeline :: Waiting(0), {}, map[], map[], [])
  }

  /** Task `step.role` can make this move. */
  predicate Enabled(c: Config, s: State, step: Step) {
    step.role in s.phase &&
    var phase, upstream := s.phase[step.role], c.deps.Of(step.role);
    match step
    case Await(_) =>
      phase.Waiting? && phase.next < |upstream| &&
      (upstream[phase.next] in c.pipeline ==> upstream[phase.next] in s.events)
    case Start(_) => phase.Waiting? && phase.next >= |upstream|
    case Finish(_, _) => phase.Running?
    case Record(_) => phase.Logging?
  }

  function Next(c: Config, s: State, step: Step): State
    requires Enabled(c, s, step)
  {
    var r := step.role;
    match step
    case Await(_) => s.(phase := s.phase[r := Waiting(s.phase[r].next + 1)])
    case Start(_) =>
      if r in c.buildable then
        s.(phase := s.phase[r := Running], inputs := s.inputs[r := RoleInput(c, r, s.results)])
      else
        s.(phase := s.phase[r := Broken])
    case Finish(_, outcome) =>
      s.(phase := s.phase[r := Logging(outcome)], results := s.results[r := outcome.Text()])
    case Record(_) =>
      var outcome := s.phase[r].outcome;
      s.(phase := s.phase[r := Finished(outcome.Completed?)], events := s.events + {r},
         stages := s.stages + [Stage(r, outcome.Completed?, outcome.Text())])
  }

  /** The states of the run that takes `steps` in order. */
  ghost predicate Reaches(c: Config, s: State, steps: seq<Step>, t: State)
    decreases |steps|
  {
    if steps == [] then s == t else
    Enabled(c, s, steps[0]) && Reaches(c, Next(c, s, steps[0]), steps[1..], t)
  }

  ghost predicate Reachable(c: Config, s: State) {
    exists steps :: Reaches(c, Init(c), steps, s)
  }

  // ----- what every schedule keeps -----

  ghost function Roles(stages: seq<Stage>): (roles: seq<string>)
    ensures |roles| == |stages|
    ensures forall i :: 0 <= i < |stages| ==> roles[i] == stages[i].role
  {
    seq(|stages|, i requires 0 <= i < |stages| => stages[i].role)
  }

  /** Every pipeline role among the first `n` dependencies has set its event. */
  ghost predicate UpstreamDone(c: Config, s: State, role: string, n: nat) {
    forall i :: 0 <= i < n && i < |c.deps.Of(role)| && c.deps.Of(role)[i] in c.pipeline ==>
      c.deps.Of(role)[i] in s.events
  }

  /** The stage list names each finished role once, after the pipeline roles it depends on. */
  ghost predicate StagesOk(c: Config, s: State) {
    var roles := Roles(s.stages);
    && NoRepeats(roles)
    && (forall r :: r in roles <==> r in s.events)
    && (forall i, d :: 0 <= i < |roles| && d in c.deps.Of(roles[i]) && d in c.pipeline ==> d in roles[..i])
  }

  /** One role's share of the invariant. */
  ghost predicate RoleOk(c: Config, s: State, r: string)
    requires r in s.phase
  {
    var phase := s.phase[r];
    && (r in s.events <==> phase.Finished?)
    && (r in s.results <==> phase.Logging? || phase.Finished?)
    && (phase.Logging? ==> s.results[r] == phase.outcome.Text())
    && (phase.Waiting? ==> phase.next <= |c.deps.Of(r)| && UpstreamDone(c, s, r, phase.next))
    && (phase.Started() ==>
       UpstreamDone(c, s, r, |c.deps.Of(r)|) && r in s.inputs && s.inputs[r] == RoleInput(c, r, s.results))
    && (phase.Broken? ==> r !in c.buildable)
  }

  ghost predicate RolesOk(c: Config, s: State) {
    forall r :: r in s.phase ==> RoleOk(c, s, r)
  }

  /** Only pipeline roles have a task, an event or a result. */
  ghost predicate OnlyRoles(c: Config, s: State) {
    && (forall r :: r in s.phase <==> r in c.pipeline)
    && (forall r :: r in s.events || r in s.results ==> r in c.pipeline)
  }

  /** A stage records the stored result of its role. */
  ghost predicate OutputOk(s: State, stage: Stage) {
    stage.role in s.results && stage.output == s.results[stage.role]
  }

  ghost predicate OutputsOk(s: State) {
    forall i :: 0 <= i < |s.stages| ==> OutputOk(s, s.stages[i])
  }

  ghost predicate Inv(c: Config, s: State) {
    OnlyRoles(c, s) && RolesOk(c, s) && StagesOk(c, s) && OutputsOk(s)
  }

  lemma InitInv(c: Config)
    ensures Inv(c, Init(c))
  {
    var s := Init(c);
    forall r | r in s.phase ensures RoleOk(c, s, r) {
    }
  }

  /** A stored result of an upstream role is final once the role that reads it has started. */
  lemma InputFrame(c: Config, s: State, r: string, x: string, text: string)
    requires r in s.phase && RoleOk(c, s, r) && s.phase[r].Started() && x in c.pipeline && x !in s.events
    ensures RoleInput(c, r, s.results[x := text]) == RoleInput(c, r, s.results)
  {
    forall d | d in c.deps.Of(r) && d in c.pipeline ensures d in s.events {
      StartedSees(c, s, r, d);
    }
    PartsFrame(c, c.deps.Of(r), s.results, s.results[x := text]);
  }

  lemma UpstreamStays(c: Config, s: State, t: State, r: string, n: nat)
    requires UpstreamDone(c, s, r, n) && s.events <= t.events
    ensures UpstreamDone(c, t, r, n)
  {
  }

  /** A role whose own entries are untouched, and whose input is the same, is still in order. */
  lemma RoleStays(c: Config, s: State, t: State, r: string)
    requires r in s.phase && RoleOk(c, s, r) && r in t.phase && t.phase[r] == s.phase[r]
    requires s.events <= t.events && (r in t.events <==> r in s.events)
    requires r in t.results <==> r in s.results
    requires r in s.results ==> t.results[r] == s.results[r]
    requires r in s.inputs ==> r in t.inputs && t.inputs[r] == s.inputs[r]
    requires s.phase[r].Started() ==> RoleInput(c, r, t.results) == RoleInput(c, r, s.results)
    ensures RoleOk(c, t, r)
  {
    if s.phase[r].Waiting? {
      UpstreamStays(c, s, t, r, s.phase[r].next);
    } else if s.phase[r].Started() {
      UpstreamStays(c, s, t, r, |c.deps.Of(r)|);
    }
  }

  lemma AwaitInv(c: Config, s: State, r: string)
    requires Inv(c, s) && Enabled(c, s, Await(r))
    ensures Inv(c, Next(c, s, Await(r)))
  {
    var t := Next(c, s, Await(r));
    AwaitRole(c, s, r);
    forall q | q in t.phase ensures RoleOk(c, t, q) {
      if q != r {
        RoleStays(c, s, t, q);
      }
    }
  }

  lemma AwaitRole(c: Config, s: State, r: string)
    requires Enabled(c, s, Await(r)) && RoleOk(c, s, r)
    ensures RoleOk(c, Next(c, s, Await(r)), r)
  {
  }

  lemma StartInv(c: Config, s: State, r: string)
    requires Inv(c, s) && Enabled(c, s, Start(r))
    ensures Inv(c, Next(c, s, Start(r)))
  {
    var t := Next(c, s, Start(r));
    StartRole(c, s, r);
    forall q | q in t.phase ensures RoleOk(c, t, q) {
      if q != r {
        RoleStays(c, s, t, q);
      }
    }
  }

  lemma StartRole(c: Config, s: State, r: string)
    requires Enabled(c, s, Start(r)) && RoleOk(c, s, r)
    ensures RoleOk(c, Next(c, s, Start(r)), r)
  {
  }

  lemma FinishInv(c: Config, s: State, r: string, outcome: Outcome)
    requires Inv(c, s) && Enabled(c, s, Finish(r, outcome))
    ensures Inv(c, Next(c, s, Finish(r, outcome)))
  {
    var t := Next(c, s, Finish(r, outcome));
    FinishRole(c, s, r, outcome);
    assert RoleOk(c, s, r);
    forall q | q in t.phase ensures RoleOk(c, t, q) {
      if q != r {
        FinishOther(c, s, r, outcome, q);
      }
    }
    forall i | 0 <= i < |s.stages| ensures OutputOk(t, s.stages[i]) {
      assert OutputOk(s, s.stages[i]) && Roles(s.stages)[i] in Roles(s.stages);
    }
  }

  lemma FinishRole(c: Config, s: State, r: string, outcome: Outcome)
    requires Enabled(c, s, Finish(r, outcome)) && RoleOk(c, s, r) && r in c.pipeline
    ensures RoleOk(c, Next(c, s, Finish(r, outcome)), r)
  {
    InputFrame(c, s, r, r, outcome.Text());
  }

  lemma FinishOther(c: Config, s: State, r: string, outcome: Outcome, q: string)
    requires Enabled(c, s, Finish(r, outcome)) && RoleOk(c, s, r) && r in c.pipeline
    requires q in s.phase && RoleOk(c, s, q) && q != r
    ensures RoleOk(c, Next(c, s, Finish(r, outcome)), q)
  {
    if s.phase[q].Started() {
      InputFrame(c, s, q, r, outcome.Text());
    }
    RoleStays(c, s, Next(c, s, Finish(r, outcome)), q);
  }

  lemma RecordStages(c: Config, s: State, r: string)
    requires StagesOk(c, s) && Enabled(c, s, Record(r)) && RoleOk(c, s, r)
    ensures StagesOk(c, Next(c, s, Record(r)))
  {
    var t := Next(c, s, Record(r));
    var before, after := Roles(s.stages), Roles(t.stages);
    assert after == before + [r];
    forall i, d | 0 <= i < |after| && d in c.deps.Of(after[i]) && d in c.pipeline ensures d in after[..i] {
      assert after[..i] == before[..i];
      if i == |before| {
        StartedSees(c, s, r, d);
        assert before[..i] == before;
      }
    }
  }

  /** The pipeline roles a started role depends on have finished. */
  lemma StartedSees(c: Config, s: State, r: string, d: string)
    requires r in s.phase && RoleOk(c, s, r) && s.phase[r].Started() && d in c.deps.Of(r) && d in c.pipeline
    ensures d in s.events
  {
    var k :| 0 <= k < |c.deps.Of(r)| && c.deps.Of(r)[k] == d;
  }

  lemma RecordInv(c: Config, s: State, r: string)
    requires Inv(c, s) && Enabled(c, s, Record(r))
    ensures Inv(c, Next(c, s, Record(r)))
  {
    var t := Next(c, s, Record(r));
    RecordRole(c, s, r);
    forall q | q in t.phase ensures RoleOk(c, t, q) {
      if q != r {
        RoleStays(c, s, t, q);
      }
    }
    RecordStages(c, s, r);
    RecordOutputs(c, s, r);
  }

  lemma RecordOutputs(c: Config, s: State, r: string)
    requires OutputsOk(s) && Enabled(c, s, Record(r)) && RoleOk(c, s, r)
    ensures OutputsOk(Next(c, s, Record(r)))
  {
    var t := Next(c, s, Record(r));
    forall i | 0 <= i < |t.stages| ensures OutputOk(t, t.stages[i]) {
      assert i < |s.stages| ==> OutputOk(s, s.stages[i]);
    }
  }

  lemma RecordRole(c: Config, s: State, r: string)
    requires Enabled(c, s, Record(r)) && RoleOk(c, s, r)
    ensures RoleOk(c, Next(c, s, Record(r)), r)
  {
    UpstreamStays(c, s, Next(c, s, Record(r)), r, |c.deps.Of(r)|);
  }

  lemma StepInv(c: Config, s: State, step: Step)
    requires Inv(c, s) && Enabled(c, s, step)
    ensures Inv(c, Next(c, s, step))
  {
    match step
    case Await(r) => AwaitInv(c, s, r);
    case Start(r) => StartInv(c, s, r);
    case Finish(r, outcome) => FinishInv(c, s, r, outcome);
    case Record(r) => RecordInv(c, s, r);
  }

  lemma {:induction false} RunInv(c: Config, s: State, steps: seq<Step>, t: State)
    requires Inv(c, s) && Reaches(c, s, steps, t)
    ensures Inv(c, t)
    decreases |steps|
  {
    if steps != [] {
      StepInv(c, s, steps[0]);
      RunInv(c, Next(c, s, steps[0]), steps[1..], t);
    }
  }

  lemma ReachableInv(c: Config, s: State)
    requires Reachable(c, s)
    ensures Inv(c, s)
  {
    var steps :| Reaches(c, Init(c), steps, s);
    InitInv(c);
    RunInv(c, Init(c), steps, s);
  }

  // ----- safety -----

  /**
   Whatever the schedule, a role starts only once each pipeline role it depends on has set its
   event and stored its result, and its input quotes each of those results.
   */
  lemma StartSeesUpstreams(c: Config, s: State, r: string, up: string)
    requires Reachable(c, s) && Enabled(c, s, Start(r))
    requires up in c.deps.Of(r) && up in c.pipeline
    ensures up in s.events && up in s.results
    ensures var t := s.results[up];
            HasSection(RoleInput(c, r, s.results),
                       "\n\n\n" + c.title(up) + " OUTPUT:\n" + if |t| <= 3000 then t else t[..3000])
  {
    ReachableInv(c, s);
    assert RoleOk(c, s, r) && RoleOk(c, s, up);
    var k :| 0 <= k < |c.deps.Of(r)| && c.deps.Of(r)[k] == up;
    InputQuotes(c, r, s.results, up);
  }

  /** The input a role was given is still the one its upstream results determine, however long ago it started. */
  lemma InputStaysCurrent(c: Config, s: State, r: string)
    requires Reachable(c, s) && r in s.phase && s.phase[r].Started()
    ensures r in s.inputs && s.inputs[r] == RoleInput(c, r, s.results)
    ensures forall up :: up in c.deps.Of(r) && up in c.pipeline ==> up in s.results
  {
    ReachableInv(c, s);
    assert RoleOk(c, s, r);
    forall up | up in c.deps.Of(r) && up in c.pipeline ensures up in s.results {
      var k :| 0 <= k < |c.deps.Of(r)| && c.deps.Of(r)[k] == up;
      assert RoleOk(c, s, up);
    }
  }

  /** The role's body has ended with `outcome`, and that is what is stored and, once it finished, recorded. */
  ghost predicate EndedWith(s: State, r: string, outcome: Outcome) {
    && r in s.phase && r in s.results && s.results[r] == outcome.Text()
    && (s.phase[r] == Logging(outcome) ||
        (s.phase[r] == Finished(outcome.Completed?) && Stage(r, outcome.Completed?, outcome.Text()) in s.stages))
  }

  lemma {:induction false} ResultStays(c: Config, s: State, steps: seq<Step>, t: State, r: string, outcome: Outcome)
    requires Reaches(c, s, steps, t) && EndedWith(s, r, outcome)
    ensures EndedWith(t, r, outcome)
    decreases |steps|
  {
    if steps != [] {
      EndedStep(c, s, steps[0], r, outcome);
      ResultStays(c, Next(c, s, steps[0]), steps[1..], t, r, outcome);
    }
  }

  lemma EndedStep(c: Config, s: State, step: Step, r: string, outcome: Outcome)
    requires Enabled(c, s, step) && EndedWith(s, r, outcome)
    ensures EndedWith(Next(c, s, step), r, outcome)
  {
  }

  /**
   In every run the result of a role whose body has ended is, from then on, its output or the text of
   its exception behind "ERROR: ", and its stage says the same and whether it completed.
   */
  lemma {:induction false} ResultIsOutcome(c: Config, s: State, steps: seq<Step>, t: State, i: nat)
    requires Reaches(c, s, steps, t) && i < |steps| && steps[i].Finish?
    ensures var r := steps[i].role;
            var text := match steps[i].outcome case Completed(output) => output case Failed(m) => "ERROR: " + m;
            && r in t.results && t.results[r] == text && r in t.phase
            && (t.phase[r].Finished? ==> Stage(r, steps[i].outcome.Completed?, text) in t.stages)
    decreases |steps|
  {
    if i == 0 {
      ResultStays(c, Next(c, s, steps[0]), steps[1..], t, steps[0].role, steps[0].outcome);
    } else {
      ResultIsOutcome(c, Next(c, s, steps[0]), steps[1..], t, i - 1);
    }
  }

  ghost predicate AllFinished(s: State) {
    forall r :: r in s.phase ==> s.phase[r].Finished?
  }

  lemma RoleFacts(c: Config, s: State, r: string)
    requires Inv(c, s)
    ensures r in s.phase <==> r in c.pipeline
    ensures r in s.events <==> r in s.phase && s.phase[r].Finished?
    ensures r in s.results <==> r in s.phase && (s.phase[r].Logging? || s.phase[r].Finished?)
  {
    if r in s.phase {
      assert RoleOk(c, s, r);
    }
  }

  lemma StageOrder(c: Config, s: State)
    requires StagesOk(c, s) && Closed(c.pipeline, c.deps) && forall r :: r in s.events <==> r in c.pipeline
    ensures IsTopological(Roles(s.stages), c.pipeline, c.deps)
  {
    var roles := Roles(s.stages);
    forall i, d | 0 <= i < |roles| && d in c.deps.Of(roles[i]) ensures d in roles[..i] {
      assert roles[i] in roles && roles[i] in c.pipeline;
      assert d in c.pipeline;
    }
  }

  /** When every role has finished, the stage list is itself a topological order of the pipeline. */
  lemma StagesAreTopological(c: Config, s: State)
    requires Reachable(c, s) && AllFinished(s) && Closed(c.pipeline, c.deps)
    ensures IsTopological(Roles(s.stages), c.pipeline, c.deps)
  {
    ReachableInv(c, s);
    forall r ensures r in s.events <==> r in c.pipeline {
      RoleFacts(c, s, r);
      assert r in s.phase ==> s.phase[r].Finished?;
    }
    StageOrder(c, s);
  }

  // ----- how the run ends -----

  /** This step ends its task with an exception. */
  predicate Escapes(c: Config, s: State, step: Step)
    requires Enabled(c, s, step)
  {
    match step
    case Start(r) => r !in c.buildable
    case Record(r) => s.phase[r].outcome.Failed?
    case _ => false
  }

  /** What awaiting all the tasks raises in a run: the exception of the first task that ends with one, if any does. */
  ghost function Gathered(c: Config, s: State, steps: seq<Step>): Option<string>
    decreases |steps|
  {
    if steps == [] || !Enabled(c, s, steps[0]) then None
    else if Escapes(c, s, steps[0]) then Some(steps[0].role)
    else Gathered(c, Next(c, s, steps[0]), steps[1..])
  }

  /** The role of the first stage that did not complete. */
  function FirstError(stages: seq<Stage>): Option<string> {
    if stages == [] then None else
    var before, last := FirstError(stages[..|stages| - 1]), stages[|stages| - 1];
    if before.Some? || last.completed then before else Some(last.role)
  }

  lemma {:induction false} FirstErrorIff(stages: seq<Stage>)
    ensures FirstError(stages).None? <==> forall i :: 0 <= i < |stages| ==> stages[i].completed
  {
    if stages != [] {
      FirstErrorIff(stages[..|stages| - 1]);
    }
  }

  lemma FirstErrorSnoc(stages: seq<Stage>, stage: Stage)
    ensures FirstError(stages + [stage]) ==
            if FirstError(stages).Some? || stage.completed then FirstError(stages) else Some(stage.role)
  {
    assert (stages + [stage])[..|stages|] == stages;
  }

  ghost predicate NoneRaised(s: State) {
    forall r :: r in s.phase ==> !s.phase[r].Raised()
  }

  lemma StepRaises(c: Config, s: State, step: Step)
    requires Enabled(c, s, step)
    ensures Escapes(c, s, step) ==> Next(c, s, step).phase[step.role].Raised()
    ensures !Escapes(c, s, step) && NoneRaised(s) ==> NoneRaised(Next(c, s, step))
    ensures !Next(c, s, step).phase[step.role].Broken? ==>
              FirstError(Next(c, s, step).stages) ==
              if FirstError(s.stages).Some? || !Escapes(c, s, step) then FirstError(s.stages) else Some(step.role)
  {
    if step.Record? {
      var outcome := s.phase[step.role].outcome;
      FirstErrorSnoc(s.stages, Stage(step.role, outcome.Completed?, outcome.Text()));
    }
  }

  /** A task that has ended stays as it ended. */
  lemma {:induction false} EndedStays(c: Config, s: State, steps: seq<Step>, t: State, r: string)
    requires Reaches(c, s, steps, t) && r in s.phase && (s.phase[r].Broken? || s.phase[r].Finished?)
    ensures r in t.phase && t.phase[r] == s.phase[r]
    decreases |steps|
  {
    if steps != [] {
      EndedStays(c, Next(c, s, steps[0]), steps[1..], t, r);
    }
  }

  lemma {:induction false} ErrorStays(c: Config, s: State, steps: seq<Step>, t: State)
    requires Reaches(c, s, steps, t) && FirstError(s.stages).Some?
    ensures FirstError(t.stages) == FirstError(s.stages)
    decreases |steps|
  {
    if steps != [] {
      var next := Next(c, s, steps[0]);
      if steps[0].Record? {
        FirstErrorSnoc(s.stages, next.stages[|s.stages|]);
      }
      ErrorStays(c, next, steps[1..], t);
    }
  }

  /** The run is left with an exception exactly when some task has ended with one, and with that of such a task. */
  lemma {:induction false} RaisesIffTaskRaised(c: Config, s: State, steps: seq<Step>, t: State)
    requires Reaches(c, s, steps, t) && NoneRaised(s)
    ensures Gathered(c, s, steps).None? <==> NoneRaised(t)
    ensures Gathered(c, s, steps).Some? ==>
              Gathered(c, s, steps).value in t.phase && t.phase[Gathered(c, s, steps).value].Raised()
    decreases |steps|
  {
    if steps != [] {
      var next := Next(c, s, steps[0]);
      StepRaises(c, s, steps[0]);
      if Escapes(c, s, steps[0]) {
        EndedStays(c, next, steps[1..], t, steps[0].role);
      } else {
        RaisesIffTaskRaised(c, next, steps[1..], t);
      }
    }
  }

  /** When no role broke, the exception is that of the first stage that failed. */
  lemma {:induction false} RaisesFirstError(c: Config, s: State, steps: seq<Step>, t: State)
    requires Reaches(c, s, steps, t) && FirstError(s.stages).None?
    requires forall r :: r in t.phase ==> !t.phase[r].Broken?
    ensures Gathered(c, s, steps) == FirstError(t.stages)
    decreases |steps|
  {
    if steps != [] {
      var next := Next(c, s, steps[0]);
      StepRaises(c, s, steps[0]);
      if next.phase[steps[0].role].Broken? {
        EndedStays(c, next, steps[1..], t, steps[0].role);
      }
      if Escapes(c, s, steps[0]) {
        ErrorStays(c, next, steps[1..], t);
      } else {
        RaisesFirstError(c, next, steps[1..], t);
      }
    }
  }

  /**
   A run in which every role has finished returns normally exactly when every stage completed, and
   otherwise raises the exception of the first stage in the list that did not.
   */
  lemma ReturnsIffAllCompleted(c: Config, steps: seq<Step>, t: State)
    requires Reaches(c, Init(c), steps, t) && AllFinished(t)
    ensures Gathered(c, Init(c), steps) == FirstError(t.stages)
    ensures Gathered(c, Init(c), steps).None? <==> forall i :: 0 <= i < |t.stages| ==> t.stages[i].completed
    ensures Gathered(c, Init(c), steps).None? <==> forall r :: r in t.phase ==> t.phase[r] == Finished(true)
  {
    forall r | r in t.phase ensures !t.phase[r].Broken? {
      assert t.phase[r].Finished?;
    }
    RaisesFirstError(c, Init(c), steps, t);
    FirstErrorIff(t.stages);
    RaisesIffTaskRaised(c, Init(c), steps, t);
    assert NoneRaised(t) <==> forall r :: r in t.phase ==> t.phase[r] == Finished(true);
  }

  // ----- progress -----

  /** While a role is unfinished and none is broken, the first unfinished one in any topological order can move. */
  lemma SomeRoleCanStep(c: Config, s: State, order: seq<string>) returns (step: Step)
    requires Inv(c, s) && IsTopological(order, c.pipeline, c.deps)
    requires !AllFinished(s) && forall r :: r in s.phase ==> !s.phase[r].Broken?
    ensures Enabled(c, s, step)
  {
    var i := FirstUnfinished(c, s, order);
    var r := order[i];
    assert r in order;
    var upstream := c.deps.Of(r);
    match s.phase[r]
    case Waiting(k) =>
      if k < |upstream| {
        assert upstream[k] in order[..i];
        assert RoleOk(c, s, upstream[k]);
        step := Await(r);
      } else {
        step := Start(r);
      }
    case Running => step := Finish(r, Completed(""));
    case Logging(_) => step := Record(r);
  }

  lemma FirstUnfinished(c: Config, s: State, order: seq<string>) returns (i: nat)
    requires (forall r :: r in s.phase <==> r in order) && !AllFinished(s)
    ensures i < |order| && !s.phase[order[i]].Finished?
    ensures forall r :: r in order[..i] ==> r in s.phase && s.phase[r].Finished?
  {
    i := 0;
    while i < |order| && s.phase[order[i]].Finished?
      invariant i <= |order| && forall r :: r in order[..i] ==> r in s.phase && s.phase[r].Finished?
    {
      assert order[..i + 1] == order[..i] + [order[i]];
      i := i + 1;
    }
    assert order[..|order|] == order;
  }

  /**
   After a successful sort no schedule deadlocks: while some role is unfinished some role can step,
   unless a role that cannot be built has been reached.
   */
  lemma NoDeadlock(c: Config, s: State, order: seq<string>)
    requires Reachable(c, s) && IsTopological(order, c.pipeline, c.deps) && !AllFinished(s)
    ensures (exists step :: Enabled(c, s, step)) || exists r :: r in s.phase && s.phase[r].Broken? && r !in c.buildable
  {
    ReachableInv(c, s);
    if r :| r in s.phase && s.phase[r].Broken? {
      assert RoleOk(c, s, r);
    } else {
      var step := SomeRoleCanStep(c, s, order);
    }
  }

  // ----- every schedule ends -----

  function Left(c: Config, r: string, phase: Phase): nat {
    match phase
    case Waiting(k) => (if k < |c.deps.Of(r)| then |c.deps.Of(r)| - k else 0) + 3
    case Running => 2
    case Logging(_) => 1
    case Finished(_) => 0
    case Broken => 0
  }

  function Work(c: Config, roles: seq<string>, s: State): nat {
    if roles == [] then 0 else
    var r := roles[|roles| - 1];
    Work(c, roles[..|roles| - 1], s) + if r in s.phase then Left(c, r, s.phase[r]) else 0
  }

  lemma {:induction false} WorkStep(c: Config, roles: seq<string>, s: State, step: Step)
    requires Enabled(c, s, step)
    ensures Work(c, roles, Next(c, s, step)) <= Work(c, roles, s)
    ensures step.role in roles ==> Work(c, roles, Next(c, s, step)) < Work(c, roles, s)
  {
    if roles != [] {
      WorkStep(c, roles[..|roles| - 1], s, step);
      assert roles == roles[..|roles| - 1] + [roles[|roles| - 1]];
    }
  }

  /** No schedule takes more steps than the work its first state holds. */
  lemma {:induction false} SchedulesAreBounded(c: Config, s: State, steps: seq<Step>, t: State)
    requires Inv(c, s) && Reaches(c, s, steps, t)
    ensures |steps| + Work(c, c.pipeline, t) <= Work(c, c.pipeline, s)
    decreases |steps|
  {
    if steps != [] {
      StepInv(c, s, steps[0]);
      WorkStep(c, c.pipeline, s, steps[0]);
      SchedulesAreBounded(c, Next(c, s, steps[0]), steps[1..], t);
    }
  }

  lemma {:induction false} NeverBroken(c: Config, s: State)
    requires Inv(c, s) && forall r :: r in c.pipeline ==> r in c.buildable
    ensures forall r :: r in s.phase ==> !s.phase[r].Broken?
  {
    forall r | r in s.phase ensures !s.phase[r].Broken? {
      assert RoleOk(c, s, r);
    }
  }

  /** From any state of any schedule, the pipeline can be run to the end. */
  lemma {:induction false} CanFinish(c: Config, s: State, order: seq<string>) returns (steps: seq<Step>, t: State)
    requires Inv(c, s) && IsTopological(order, c.pipeline, c.deps)
    requires forall r :: r in c.pipeline ==> r in c.buildable
    ensures Reaches(c, s, steps, t) && AllFinished(t)
    decreases Work(c, c.pipeline, s)
  {
    if AllFinished(s) {
      return [], s;
    }
    NeverBroken(c, s);
    var step := SomeRoleCanStep(c, s, order);
    StepInv(c, s, step);
    WorkStep(c, c.pipeline, s, step);
    var rest;
    rest, t := CanFinish(c, Next(c, s, step), order);
    steps := [step] + rest;
    assert steps[1..] == rest;
  }

  /** No role on a dependency cycle ever starts. */
  lemma CycleNeverStarts(c: Config, s: State, walk: seq<string>, i: nat)
    requires Reachable(c, s) && IsCycle(walk, c.pipeline, c.deps) && i < |walk|
    requires forall r, d :: r in c.pipeline && d in c.deps.Of(r) ==> d in c.pipeline
    ensures walk[i] in s.phase && !s.phase[walk[i]].Started()
  {
    ReachableInv(c, s);
    assert walk[i] in walk;
    if s.phase[walk[i]].Started() {
      forall k | 0 <= k < |walk| ensures walk[k] in s.events {
        FinishedAhead(c, s, walk, i, k);
      }
      FinishedWalkIsOpen(c, s, walk);
    }
  }

  /** On a walk whose roles have all finished, the last does not wait for the first. */
  lemma FinishedWalkIsOpen(c: Config, s: State, walk: seq<string>)
    requires Inv(c, s) && IsWalk(walk, c.deps)
    requires forall k :: 0 <= k < |walk| ==> walk[k] in s.events
    requires forall r, d :: r in c.pipeline && d in c.deps.Of(r) ==> d in c.pipeline
    ensures walk[0] !in c.deps.Of(walk[|walk| - 1])
  {
    var roles := Roles(s.stages);
    assert AfterDeps(roles, c.deps) by {
      forall p, d | 0 <= p < |roles| && d in c.deps.Of(roles[p]) ensures d in roles[..p] {
        assert roles[p] in roles && roles[p] in c.pipeline;
      }
    }
    WalkDoesNotClose(roles, c.deps, walk);
  }

  lemma NextFinished(c: Config, s: State, r: string, d: string)
    requires Inv(c, s) && r in s.phase && s.phase[r].Started() && d in c.deps.Of(r) && d in c.pipeline
    ensures d in s.events && d in s.phase && s.phase[d].Started()
  {
    assert RoleOk(c, s, r) && RoleOk(c, s, d);
    var k :| 0 <= k < |c.deps.Of(r)| && c.deps.Of(r)[k] == d;
  }

  /** Walking on from `i`, and once around, every role met has finished. */
  lemma FinishedAhead(c: Config, s: State, walk: seq<string>, i: nat, k: nat)
    requires Inv(c, s) && IsCycle(walk, c.pipeline, c.deps) && i < |walk| && k < |walk|
    requires walk[i] in s.phase && s.phase[walk[i]].Started()
    ensures walk[k] in s.events && walk[k] in s.phase && s.phase[walk[k]].Started()
    decreases if k > i then k - i else k + |walk| - i
  {
    var prev := if k == 0 then |walk| - 1 else k - 1;
    assert walk[k] in walk && walk[prev] in walk;
    if prev != i {
      FinishedAhead(c, s, walk, i, prev);
    }
    if k > 0 {
      assert walk[(k - 1) + 1] in c.deps.Of(walk[k - 1]);
    }
    NextFinished(c, s, walk[prev], walk[k]);
  }

  lemma CycleBlocks(c: Config, s: State, walk: seq<string>)
    requires Reachable(c, s) && IsCycle(walk, c.pipeline, c.deps)
    requires forall r, d :: r in c.pipeline && d in c.deps.Of(r) ==> d in c.pipeline
    ensures !AllFinished(s)
  {
    CycleNeverStarts(c, s, walk, 0);
  }

  /** With closed dependencies and buildable roles, some schedule finishes exactly when the graph has no cycle. */
  lemma FinishesIffAcyclic(c: Config)
    requires Closed(c.pipeline, c.deps) && forall r :: r in c.pipeline ==> r in c.buildable
    ensures (exists s :: Reachable(c, s) && AllFinished(s)) <==> Acyclic(c.pipeline, c.deps)
  {
    if Acyclic(c.pipeline, c.deps) {
      var order := OrderExists(c.pipeline, c.deps, []);
      InitInv(c);
      var steps, t := CanFinish(c, Init(c), order);
      assert Reachable(c, t);
    } else {
      var walk :| IsCycle(walk, c.pipeline, c.deps);
      forall s | Reachable(c, s) ensures !AllFinished(s) {
        CycleBlocks(c, s, walk);
      }
    }
  }

  // ----- the results do not depend on the schedule -----

  /** Each role body is a function of its input: every finish step in the run agrees with `body`. */
  ghost predicate Follows(c: Config, s: State, steps: seq<Step>, body: (string, string) -> Outcome)
    decreases |steps|
  {
    steps == [] ||
    (&& Enabled(c, s, steps[0])
     && (steps[0].Finish? ==>
        steps[0].role in s.inputs && steps[0].outcome == body(steps[0].role, s.inputs[steps[0].role]))
     && Follows(c, Next(c, s, steps[0]), steps[1..], body))
  }

  /** Every stored result is what the role body makes of the input the results determine. */
  ghost predicate ResultsFollow(c: Config, s: State, body: (string, string) -> Outcome) {
    forall r :: r in s.results ==> s.results[r] == body(r, RoleInput(c, r, s.results)).Text()
  }

  lemma StepResults(c: Config, s: State, step: Step, body: (string, string) -> Outcome)
    requires Inv(c, s) && Enabled(c, s, step) && ResultsFollow(c, s, body)
    requires step.Finish? ==> step.role in s.inputs && step.outcome == body(step.role, s.inputs[step.role])
    ensures ResultsFollow(c, Next(c, s, step), body)
  {
    if step.Finish? {
      var q, text := step.role, step.outcome.Text();
      assert RoleOk(c, s, q);
      forall r | r in s.results || r == q ensures RoleInput(c, r, s.results[q := text]) == RoleInput(c, r, s.results) {
        assert RoleOk(c, s, r);
        InputFrame(c, s, r, q, text);
      }
    }
  }

  lemma {:induction false} RunResults(c: Config, s: State, steps: seq<Step>, t: State,
                                      body: (string, string) -> Outcome)
    requires Inv(c, s) && Reaches(c, s, steps, t) && Follows(c, s, steps, body) && ResultsFollow(c, s, body)
    ensures ResultsFollow(c, t, body)
    decreases |steps|
  {
    if steps != [] {
      var step := steps[0];
      var u := Next(c, s, step);
      StepInv(c, s, step);
      StepResults(c, s, step, body);
      RunResults(c, u, steps[1..], t, body);
    }
  }

  /** Where the upstream results agree, so does the result of the role. */
  lemma SameResult(c: Config, s: State, t: State, r: string, body: (string, string) -> Outcome)
    requires ResultsFollow(c, s, body) && ResultsFollow(c, t, body) && r in s.results && r in t.results
    requires forall up :: up in c.deps.Of(r) ==> up in s.results && up in t.results && s.results[up] == t.results[up]
    ensures s.results[r] == t.results[r]
  {
    PartsFrame(c, c.deps.Of(r), s.results, t.results);
  }

  /** Two sets of results that follow the same role bodies agree, role by role along the order. */
  lemma {:induction false} SameResults(c: Config, s: State, t: State, order: seq<string>, n: nat,
                                       body: (string, string) -> Outcome)
    requires AfterDeps(order, c.deps) && n <= |order|
    requires (forall r :: r in order ==> r in s.results && r in t.results)
    requires ResultsFollow(c, s, body) && ResultsFollow(c, t, body)
    ensures forall r :: r in order[..n] ==> r in s.results && r in t.results && s.results[r] == t.results[r]
  {
    if n > 0 {
      SameResults(c, s, t, order, n - 1, body);
      var r := order[n - 1];
      assert order[..n] == order[..n - 1] + [r];
      assert r in order;
      forall up | up in c.deps.Of(r) ensures up in s.results && up in t.results && s.results[up] == t.results[up] {
        assert up in order[..n - 1];
      }
      SameResult(c, s, t, r, body);
    }
  }

  lemma SameMaps(c: Config, s: State, t: State, order: seq<string>, body: (string, string) -> Outcome)
    requires IsTopological(order, c.pipeline, c.deps) && ResultsFollow(c, s, body) && ResultsFollow(c, t, body)
    requires (forall r :: r in s.results <==> r in c.pipeline) && (forall r :: r in t.results <==> r in c.pipeline)
    ensures s.results == t.results
  {
    SameResults(c, s, t, order, |order|, body);
    assert order[..|order|] == order;
    assert s.results.Keys == t.results.Keys;
  }

  lemma FinishedResults(c: Config, steps: seq<Step>, s: State, body: (string, string) -> Outcome)
    requires Reaches(c, Init(c), steps, s) && Follows(c, Init(c), steps, body) && AllFinished(s)
    ensures ResultsFollow(c, s, body)
    ensures forall r :: r in s.results <==> r in c.pipeline
  {
    InitInv(c);
    RunInv(c, Init(c), steps, s);
    RunResults(c, Init(c), steps, s, body);
    forall r ensures r in s.results <==> r in c.pipeline {
      RoleFacts(c, s, r);
    }
  }

  /** If the role bodies are functions of their inputs, all schedules that finish give the same results. */
  lemma ScheduleIndependent(c: Config, steps: seq<Step>, s: State, steps': seq<Step>, t: State,
                            body: (string, string) -> Outcome)
    requires Closed(c.pipeline, c.deps) && Acyclic(c.pipeline, c.deps)
    requires Reaches(c, Init(c), steps, s) && Follows(c, Init(c), steps, body) && AllFinished(s)
    requires Reaches(c, Init(c), steps', t) && Follows(c, Init(c), steps', body) && AllFinished(t)
    ensures s.results == t.results
  {
    FinishedResults(c, steps, s, body);
    FinishedResults(c, steps', t, body);
    var order := OrderExists(c.pipeline, c.deps, []);
    SameMaps(c, s, t, order, body);
  }
}
