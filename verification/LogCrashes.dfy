/**
 The event log under crashes. An append replaces the log file in one atomic step and writes the
 count file in another; the process may die before, between or after them and be started again.
 Uninterrupted, the steps do to the files what the methods of the log do.
 */
module LogCrashes {
  import opened Wrappers
  import opened Ndjson
  import opened EventLogs

  /** The process: not running, at rest with its count, or between the two writes of an append. */
  datatype Process = Down | Idle(count: int) | Writing(count: int, added: nat)

  /** `lost` adds up the events whose append was cut off after the first write, since the last reindex. */
  datatype System = System(log: Option<string>, countFile: Option<int>, process: Process, lost: nat)

  datatype Step<E> = Replace(events: seq<E>) | WriteCount | Crash | Open | Reindex

  const INIT := System(None, None, Down, 0)

  /** The files of a process at rest, with its count. */
  function FilesOf(s: System): Files
    requires s.process.Idle?
  {
    Files(s.log, s.countFile, s.process.count)
  }

  ghost predicate Enabled<E>(enc: E -> Option<string>, s: System, step: Step<E>) {
    match step
    case Replace(events) => s.process.Idle? && Encodable(enc, events)
    case WriteCount => s.process.Writing?
    case Crash => !s.process.Down?
    case Open => s.process.Down?
    case Reindex => s.process.Idle?
  }

  ghost function Next<E>(enc: E -> Option<string>, s: System, step: Step<E>): System
    requires Enabled(enc, s, step)
  {
    match step
    case Replace(events) =>
      s.(log := Appended(enc, FilesOf(s), events).log, process := Writing(s.process.count, |events|))
    case WriteCount =>
      var n := s.process.count + s.process.added;
      s.(countFile := Some(n), process := Idle(n))
    case Crash =>
      s.(process := Down, lost := s.lost + if s.process.Writing? then s.process.added else 0)
    case Open => s.(process := Idle(CountOf(s.countFile)))
    case Reindex =>
      var n := |LogLines(s.log)|;
      s.(countFile := Some(n), process := Idle(n), lost := 0)
  }

  /** Both writes of an append, a reindexing and an opening leave the files that the log's methods leave. */
  lemma StepsAreOperations<E(!new)>(enc: E -> Option<string>, s: System, events: seq<E>)
    requires Encodable(enc, events)
    ensures s.process.Idle? ==>
              var replaced := Next(enc, s, Replace(events));
              && replaced.process.Writing?
              && FilesOf(Next(enc, replaced, Step<E>.WriteCount)) == Appended(enc, FilesOf(s), events)
    ensures s.process.Idle? ==> FilesOf(Next(enc, s, Step<E>.Reindex)) == Reindexed(FilesOf(s))
    ensures s.process.Down? ==>
              FilesOf(Next(enc, s, Step<E>.Open)) == Files(s.log, s.countFile, CountOf(s.countFile))
  {
  }

  ghost predicate Reaches<E(!new)>(enc: E -> Option<string>, s: System, steps: seq<Step<E>>, u: System)
    decreases |steps|
  {
    if steps == [] then s == u else
    Enabled(enc, s, steps[0]) && Reaches(enc, Next(enc, s, steps[0]), steps[1..], u)
  }

  /** The events committed by a run: those of its log replacements, in order. */
  ghost function Committed<E>(steps: seq<Step<E>>): seq<E>
    decreases |steps|
  {
    if steps == [] then [] else
    (if steps[0].Replace? then steps[0].events else []) + Committed(steps[1..])
  }

  /** The log holds exactly `events`, and the counts fall short by what was lost or is in flight. */
  ghost predicate Inv<E(!new)>(enc: E -> Option<string>, s: System, events: seq<E>) {
    && Encodable(enc, events)
    && TextOf(s.log) == Unlines(Lines(enc, events))
    && CountOf(s.countFile) + s.lost + (if s.process.Writing? then s.process.added else 0) == |events|
    && (!s.process.Down? ==> s.process.count == CountOf(s.countFile))
  }

  lemma CommittedLines<E(!new)>(enc: E -> Option<string>, dec: string -> Option<E>, s: System, events: seq<E>)
    requires CodecOk(enc, dec) && Inv(enc, s, events)
    ensures |LogLines(s.log)| == |events|
    ensures Decode(dec, LogLines(s.log)) == events
  {
    BatchRoundTrip(enc, dec, events);
  }

  lemma StepInv<E(!new)>(enc: E -> Option<string>, dec: string -> Option<E>, s: System, events: seq<E>, step: Step<E>)
    requires CodecOk(enc, dec) && Inv(enc, s, events) && Enabled(enc, s, step)
    ensures Inv(enc, Next(enc, s, step), events + if step.Replace? then step.events else [])
  {
    match step
    case Replace(added) =>
      BatchConcat(enc, events, added);
    case Reindex =>
      CommittedLines(enc, dec, s, events);
      assert events + [] == events;
    case _ =>
      assert events + [] == events;
  }

  lemma {:induction false} RunInv<E(!new)>(enc: E -> Option<string>, dec: string -> Option<E>, s: System,
                                           events: seq<E>, steps: seq<Step<E>>, u: System)
    requires CodecOk(enc, dec) && Inv(enc, s, events) && Reaches(enc, s, steps, u)
    ensures Inv(enc, u, events + Committed(steps))
    decreases |steps|
  {
    if steps == [] {
      assert events + Committed(steps) == events;
    } else {
      var added := if steps[0].Replace? then steps[0].events else [];
      StepInv(enc, dec, s, events, steps[0]);
      RunInv(enc, dec, Next(enc, s, steps[0]), events + added, steps[1..], u);
      Reassociate(events, added, Committed(steps[1..]));
    }
  }

  /** What every run from an empty log ends in. */
  lemma RunFromStart<E(!new)>(enc: E -> Option<string>, dec: string -> Option<E>, steps: seq<Step<E>>, s: System)
    requires CodecOk(enc, dec) && Reaches(enc, INIT, steps, s)
    ensures Inv(enc, s, Committed(steps))
    ensures |LogLines(s.log)| == |Committed(steps)|
    ensures Decode(dec, LogLines(s.log)) == Committed(steps)
  {
    assert Lines(enc, []) == [] && Inv(enc, INIT, []);
    RunInv(enc, dec, INIT, [], steps, s);
    assert [] + Committed(steps) == Committed(steps);
    CommittedLines(enc, dec, s, Committed(steps));
  }

  /**
   In every run of appends, batches, reindexing, crashes and restarts the log file is exactly the
   committed events in order, each batch whole, and reading it gives them back.
   */
  lemma LogIsCommitted<E(!new)>(enc: E -> Option<string>, dec: string -> Option<E>, steps: seq<Step<E>>, s: System)
    requires CodecOk(enc, dec) && Reaches(enc, INIT, steps, s)
    ensures Encodable(enc, Committed(steps))
    ensures TextOf(s.log) == Unlines(Lines(enc, Committed(steps)))
    ensures Decode(dec, LogLines(s.log)) == Committed(steps)
  {
    RunFromStart(enc, dec, steps, s);
  }

  /**
   The stored count never exceeds the number of lines. It falls short by exactly the events whose
   append was cut off between its two writes since the last reindex, or is still between them.
   */
  lemma CountBehindLog<E(!new)>(enc: E -> Option<string>, dec: string -> Option<E>, steps: seq<Step<E>>, s: System)
    requires CodecOk(enc, dec) && Reaches(enc, INIT, steps, s)
    ensures |LogLines(s.log)| - CountOf(s.countFile) == s.lost + (if s.process.Writing? then s.process.added else 0)
    ensures CountOf(s.countFile) <= |LogLines(s.log)|
    ensures s.process.Idle? ==> (s.process.count == |LogLines(s.log)| <==> s.lost == 0)
  {
    RunFromStart(enc, dec, steps, s);
  }

  /** The last step of a run, as the system sees it. */
  lemma {:induction false} LastStep<E(!new)>(enc: E -> Option<string>, s: System, steps: seq<Step<E>>, step: Step<E>,
                                             u: System) returns (mid: System)
    requires Reaches(enc, s, steps + [step], u)
    ensures Reaches(enc, s, steps, mid) && Enabled(enc, mid, step) && u == Next(enc, mid, step)
    decreases |steps|
  {
    var all := steps + [step];
    if steps == [] {
      assert all[0] == step && all[1..] == [];
      mid := s;
    } else {
      assert all[0] == steps[0] && all[1..] == steps[1..] + [step];
      mid := LastStep(enc, Next(enc, s, steps[0]), steps[1..], step, u);
    }
  }

  /** Reindexing repairs the count, whatever crashes came before. */
  lemma ReindexRepairs<E(!new)>(enc: E -> Option<string>, dec: string -> Option<E>, steps: seq<Step<E>>, s: System)
    requires CodecOk(enc, dec) && Reaches(enc, INIT, steps + [Reindex], s)
    ensures s.process.Idle? && s.process.count == CountOf(s.countFile) == |LogLines(s.log)| == |Committed(steps)|
  {
    var mid := LastStep(enc, INIT, steps, Reindex, s);
    RunFromStart(enc, dec, steps, mid);
  }

  /**
   A process at rest always has a log that holds the committed events, so every read is a slice of
   those it counts.
   */
  lemma RestingLogHolds<E(!new)>(enc: E -> Option<string>, dec: string -> Option<E>, steps: seq<Step<E>>, s: System)
    requires CodecOk(enc, dec) && Reaches(enc, INIT, steps, s) && s.process.Idle?
    ensures Holds(enc, dec, FilesOf(s), Committed(steps))
    ensures FilesOf(s).count == |Committed(steps)| - s.lost
  {
    RunFromStart(enc, dec, steps, s);
    CountNotNegative(enc, INIT, steps, s);
  }

  lemma {:induction false} CountNotNegative<E(!new)>(enc: E -> Option<string>, s: System, steps: seq<Step<E>>,
                                                     u: System)
    requires Reaches(enc, s, steps, u) && CountOf(s.countFile) >= 0 && (!s.process.Down? ==> s.process.count >= 0)
    ensures CountOf(u.countFile) >= 0 && (!u.process.Down? ==> u.process.count >= 0)
    decreases |steps|
  {
    if steps != [] {
      CountNotNegative(enc, Next(enc, s, steps[0]), steps[1..], u);
    }
  }

  /**
   A crash between the two writes of an append, and then keeping the last event: what is kept is not
   the last event, and the number returned is not the number that left.
   */
  lemma CrashThenTruncate<E(!new)>(enc: E -> Option<string>, dec: string -> Option<E>, a: E, b: E, c: E)
      returns (steps: seq<Step<E>>, s: System)
    requires CodecOk(enc, dec) && Encodable(enc, [a, b, c])
    ensures Reaches(enc, INIT, steps, s) && s.process.Idle? && Committed(steps) == [a, b, c]
    ensures Encodable(enc, Events(LastEntries(dec, FilesOf(s), 1)))
    ensures Holds(enc, dec, Truncated(enc, dec, FilesOf(s), 1), [b]) && TruncateResult(FilesOf(s).count, 1) == 1
  {
    assert enc([a, b, c][0]).Some? && enc([a, b, c][1]).Some? && enc([a, b, c][2]).Some?;
    var start := System(None, None, Idle(0), 0);
    var files := Appended(enc, FilesOf(start), [a, b]);
    var rest;
    rest, s := CutOff(enc, System(files.log, files.countFile, Idle(2), 0), c);
    steps := WholeAppend(enc, start, [a, b], rest, s);
    steps := Before(enc, INIT, Open, steps, s);
    assert Committed(steps) == [a, b] + [c] == [a, b, c];
    RestingLogHolds(enc, dec, steps, s);
    LaggingTruncateLosesNewest(enc, dec, FilesOf(s), a, b, c);
  }

  /** Both writes of an append in front of a run. */
  lemma WholeAppend<E(!new)>(enc: E -> Option<string>, s: System, events: seq<E>, rest: seq<Step<E>>, u: System)
      returns (steps: seq<Step<E>>)
    requires s.process.Idle? && Encodable(enc, events)
    requires var f := Appended(enc, FilesOf(s), events);
             Reaches(enc, System(f.log, f.countFile, Idle(f.count), s.lost), rest, u)
    ensures Reaches(enc, s, steps, u) && Committed(steps) == events + Committed(rest)
  {
    var replaced := Next(enc, s, Replace(events));
    WholeAppendState(enc, s, events);
    steps := Before(enc, replaced, WriteCount, rest, u);
    steps := Before(enc, s, Replace(events), steps, u);
  }

  lemma WholeAppendState<E(!new)>(enc: E -> Option<string>, s: System, events: seq<E>)
    requires s.process.Idle? && Encodable(enc, events)
    ensures var f := Appended(enc, FilesOf(s), events);
            Next(enc, Next(enc, s, Replace(events)), Step<E>.WriteCount) ==
            System(f.log, f.countFile, Idle(f.count), s.lost)
  {
  }

  /** An append cut off after its first write, and a restart. */
  lemma CutOff<E(!new)>(enc: E -> Option<string>, s: System, e: E) returns (steps: seq<Step<E>>, u: System)
    requires s.process.Idle? && Encodable(enc, [e])
    ensures Reaches(enc, s, steps, u) && u.process == Idle(CountOf(s.countFile)) && Committed(steps) == [e]
  {
    var replaced := Next(enc, s, Replace([e]));
    var down := Next(enc, replaced, Step<E>.Crash);
    u := Next(enc, down, Step<E>.Open);
    steps := Before(enc, down, Open, [], u);
    steps := Before(enc, replaced, Crash, steps, u);
    steps := Before(enc, s, Replace([e]), steps, u);
  }

  /** A run with one more step in front. */
  lemma Before<E(!new)>(enc: E -> Option<string>, s: System, step: Step<E>, rest: seq<Step<E>>, u: System)
      returns (steps: seq<Step<E>>)
    requires Enabled(enc, s, step) && Reaches(enc, Next(enc, s, step), rest, u)
    ensures Reaches(enc, s, steps, u)
    ensures Committed(steps) == if step.Replace? then step.events + Committed(rest) else Committed(rest)
  {
    steps := [step] + rest;
    assert steps[1..] == rest;
    assert [] + Committed(rest) == Committed(rest);
  }
}
