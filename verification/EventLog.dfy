/**
 The file-backed event log: a class over the two files and the in-memory count, whatever those hold.
 What it reads is stated on the entries the count covers, each of them missing, corrupt or an event.
 */
module EventLogs {
  import opened Wrappers
  import opened Ndjson

  /** Python's `s[start:end]`. */
  function PySlice<T>(s: seq<T>, start: int, end: Option<int>): seq<T> {
    var lo, hi := Clamp(start, |s|), if end.None? then |s| else Clamp(end.value, |s|);
    if lo < hi then s[lo..hi] else []
  }

  /** Where a slice bound falls: negative bounds count from the end, and all are cut to the length. */
  function Clamp(i: int, n: nat): (k: nat)
    ensures k <= n
  {
    if i < 0 then (if n + i < 0 then 0 else n + i) else if i < n then i else n
  }

  /** The bound `i` falls at position `k` of a list of `n`. */
  predicate FallsAt(i: int, k: nat, n: nat) {
    i == k || (i < 0 && n + i == k) || (n + i < 0 && k == 0) || (i >= n && k == n)
  }

  /** A slice is what lies between the positions its bounds fall at, and nothing when they cross. */
  lemma SliceIs<T>(s: seq<T>, start: int, end: Option<int>, lo: nat, hi: nat)
    requires lo <= |s| && hi <= |s| && FallsAt(start, lo, |s|)
    requires if end.None? then hi == |s| else FallsAt(end.value, hi, |s|)
    ensures PySlice(s, start, end) == if lo < hi then s[lo..hi] else []
  {
  }

  // ----- the files and what they stand for -----

  /** The two files, None for a missing one, and the count the process believes in. */
  datatype Files = Files(log: Option<string>, countFile: Option<int>, count: int)

  function TextOf(log: Option<string>): string {
    if log.Some? then log.value else ""
  }

  function CountOf(countFile: Option<int>): int {
    if countFile.Some? then countFile.value else 0
  }

  function LogLines(log: Option<string>): seq<string> {
    NonBlank(SplitLines(TextOf(log)))
  }

  /** What stands at a counted position: no line, a line that does not decode, or an event. */
  datatype Entry<+E> = Missing | Corrupt | Stored(event: E)

  function LineEntry<E>(dec: string -> Option<E>, line: string): Entry<E> {
    match dec(Strip(line))
    case None => Corrupt
    case Some(e) => Stored(e)
  }

  ghost function LineEntries<E>(dec: string -> Option<E>, lines: seq<string>): (known: seq<Entry<E>>)
    ensures |known| == |lines|
  {
    seq(|lines|, i requires 0 <= i < |lines| => LineEntry(dec, lines[i]))
  }

  lemma LineEntryAt<E>(dec: string -> Option<E>, lines: seq<string>, i: nat)
    requires i < |lines|
    ensures LineEntries(dec, lines)[i] == LineEntry(dec, lines[i]) && !LineEntries(dec, lines)[i].Missing?
  {
  }

  /** The entries that have a line in the log. */
  ghost function Known<E>(dec: string -> Option<E>, log: Option<string>): seq<Entry<E>> {
    LineEntries(dec, LogLines(log))
  }

  function EntryAt<E>(known: seq<Entry<E>>, k: nat): Entry<E> {
    if k < |known| then known[k] else Missing
  }

  /** The entries at positions `lo` to `hi`. */
  ghost function Span<E>(known: seq<Entry<E>>, lo: nat, hi: int): (entries: seq<Entry<E>>)
    ensures |entries| == if lo < hi then hi - lo else 0
    ensures forall i :: 0 <= i < |entries| ==> entries[i] == EntryAt(known, lo + i)
  {
    seq(if lo < hi then hi - lo else 0, i requires 0 <= i => EntryAt(known, lo + i))
  }

  /** The entries the count covers. */
  ghost function Entries<E>(dec: string -> Option<E>, f: Files): seq<Entry<E>> {
    Span(Known(dec, f.log), 0, f.count)
  }

  function EventOf<E>(entry: Entry<E>): seq<E> {
    if entry.Stored? then [entry.event] else []
  }

  function Events<E>(entries: seq<Entry<E>>): seq<E> {
    if entries == [] then [] else
    Events(entries[..|entries| - 1]) + EventOf(entries[|entries| - 1])
  }

  function Corrupted<E>(entries: seq<Entry<E>>): nat {
    if entries == [] then 0 else
    Corrupted(entries[..|entries| - 1]) + if entries[|entries| - 1].Corrupt? then 1 else 0
  }

  /** The events are those of the stored entries, each once and in order. */
  lemma {:induction false} EventsInOrder<E>(entries: seq<Entry<E>>) returns (ks: seq<nat>)
    ensures Increasing(ks) && forall k: nat :: k in ks <==> k < |entries| && entries[k].Stored?
    ensures StoredAt(entries, ks, Events(entries))
  {
    ks := [];
    if entries != [] {
      var before, entry := entries[..|entries| - 1], entries[|entries| - 1];
      assert entries == before + [entry];
      ks := EventsInOrder(before);
      StoredSnoc(before, entry, ks, Events(before));
      if entry.Stored? {
        LastPosition(ks, |before|);
        ks := ks + [|before|];
      }
    }
  }

  ghost predicate StoredAt<E>(entries: seq<Entry<E>>, ks: seq<nat>, events: seq<E>) {
    |events| == |ks| && forall i :: 0 <= i < |ks| ==> ks[i] < |entries| && entries[ks[i]] == Stored(events[i])
  }

  lemma StoredSnoc<E>(before: seq<Entry<E>>, entry: Entry<E>, ks: seq<nat>, events: seq<E>)
    requires StoredAt(before, ks, events)
    ensures StoredAt(before + [entry], ks, events)
    ensures entry.Stored? ==> StoredAt(before + [entry], ks + [|before|], events + [entry.event])
  {
  }

  lemma EntrySnoc<E>(entries: seq<Entry<E>>, entry: Entry<E>)
    ensures Events(entries + [entry]) == Events(entries) + EventOf(entry)
    ensures Corrupted(entries + [entry]) == Corrupted(entries) + if entry.Corrupt? then 1 else 0
  {
    assert (entries + [entry])[..|entries|] == entries;
  }

  /** What one more line adds to the events, and to the count of corrupt lines. */
  lemma LineStep<E>(dec: string -> Option<E>, lines: seq<string>, i: nat)
    requires i < |lines|
    ensures var before, after := LineEntries(dec, lines[..i]), LineEntries(dec, lines[..i + 1]);
            var e := dec(Strip(lines[i]));
            && Events(after) == (if e.Some? then Events(before) + [e.value] else Events(before))
            && Corrupted(after) == Corrupted(before) + if e.Some? then 0 else 1
  {
    KnownConcat(dec, lines[..i], [lines[i]]);
    assert lines[..i] + [lines[i]] == lines[..i + 1];
    LineEntryAt(dec, [lines[i]], 0);
    assert LineEntries(dec, [lines[i]]) == [LineEntry(dec, lines[i])];
    EntrySnoc(LineEntries(dec, lines[..i]), LineEntry(dec, lines[i]));
  }

  /** The entries of a part of the lines are that part of the entries. */
  lemma LinesPart<E>(dec: string -> Option<E>, lines: seq<string>, lo: nat, hi: nat)
    requires lo <= hi <= |lines|
    ensures LineEntries(dec, lines[lo..hi]) == LineEntries(dec, lines)[lo..hi]
  {
    forall i | lo <= i < hi ensures LineEntries(dec, lines[lo..hi])[i - lo] == LineEntries(dec, lines)[i] {
      LineEntryAt(dec, lines[lo..hi], i - lo);
      LineEntryAt(dec, lines, i);
    }
  }

  lemma NoLineMissing<E>(dec: string -> Option<E>, lines: seq<string>)
    ensures forall i :: 0 <= i < |lines| ==> !LineEntries(dec, lines)[i].Missing?
  {
    forall i | 0 <= i < |lines| ensures !LineEntries(dec, lines)[i].Missing? {
      LineEntryAt(dec, lines, i);
    }
  }

  /** Every line is an event or corrupt. */
  lemma {:induction false} Accounted<E>(known: seq<Entry<E>>)
    requires forall i :: 0 <= i < |known| ==> !known[i].Missing?
    ensures |Events(known)| + Corrupted(known) == |known|
  {
    if known != [] {
      Accounted(known[..|known| - 1]);
    }
  }

  /** The part of a range that has lines. */
  function Part<E>(known: seq<Entry<E>>, lo: nat, hi: nat): seq<Entry<E>> {
    var last := if hi < |known| then hi else |known|;
    if lo < last then known[lo..last] else []
  }

  /** Reading a range reads the part that has lines. */
  lemma {:induction false} SpanReads<E>(known: seq<Entry<E>>, lo: nat, hi: nat)
    requires lo <= hi
    ensures Events(Span(known, lo, hi)) == Events(Part(known, lo, hi))
    ensures Corrupted(Span(known, lo, hi)) == Corrupted(Part(known, lo, hi))
    decreases hi
  {
    if lo == hi || hi <= |known| {
      assert Span(known, lo, hi) == Part(known, lo, hi);
    } else {
      SpanReads(known, lo, hi - 1);
      SpanGrows(known, lo, hi);
    }
  }

  lemma SpanGrows<E>(known: seq<Entry<E>>, lo: nat, hi: nat)
    requires lo < hi && |known| < hi
    ensures Events(Span(known, lo, hi)) == Events(Span(known, lo, hi - 1))
    ensures Corrupted(Span(known, lo, hi)) == Corrupted(Span(known, lo, hi - 1))
    ensures Part(known, lo, hi) == Part(known, lo, hi - 1)
  {
    EntrySnoc(Span(known, lo, hi - 1), Missing);
    assert Span(known, lo, hi) == Span(known, lo, hi - 1) + [Missing];
  }

  lemma OneEntry<E>(known: seq<Entry<E>>, k: nat)
    ensures Events(Span(known, k, k + 1)) == EventOf(EntryAt(known, k))
    ensures Corrupted(Span(known, k, k + 1)) == if EntryAt(known, k).Corrupt? then 1 else 0
  {
    EntrySnoc([], EntryAt(known, k));
    assert Span(known, k, k + 1) == [] + [EntryAt(known, k)];
  }

  /** A slice of the counted entries is a span. */
  lemma SliceIsSpan<E>(known: seq<Entry<E>>, count: int, start: int, end: Option<int>)
    ensures var n := if count < 0 then 0 else count;
            PySlice(Span(known, 0, count), start, end) ==
            Span(known, Clamp(start, n), if end.None? then n else Clamp(end.value, n))
  {
    var n := if count < 0 then 0 else count;
    var lo, hi := Clamp(start, n), if end.None? then n else Clamp(end.value, n);
    assert |Span(known, 0, count)| == n;
    if lo < hi {
      SubSpan(known, count, lo, hi);
    } else {
      assert Span(known, lo, hi) == [];
    }
  }

  /** A bound as `get_range` resolves it, before it is cut to the count. */
  function Resolved(i: int, count: int): int {
    if i >= 0 then i else if count + i < 0 then 0 else count + i
  }

  /** Resolving the bounds against the count, giving up on empty ranges and cutting the end reads the slice. */
  lemma RangeIsSlice<E>(known: seq<Entry<E>>, count: int, start: int, end: Option<int>)
    ensures var lo, hi := Resolved(start, count), Resolved(if end.None? then count else end.value, count);
            PySlice(Span(known, 0, count), start, end) ==
            if lo > hi || lo >= count then [] else Span(known, lo, if hi < count then hi else count)
  {
    SliceIsSpan(known, count, start, end);
  }

  lemma LastIsSlice<E>(known: seq<Entry<E>>, count: int, n: int)
    requires n > 0
    ensures PySlice(Span(known, 0, count), -n, None) == Span(known, if count - n < 0 then 0 else count - n, count)
  {
    SliceIsSpan(known, count, -n, None);
  }

  lemma WholeSlice<E>(known: seq<Entry<E>>, count: int)
    ensures PySlice(Span(known, 0, count), 0, Some(count)) == Span(known, 0, count)
  {
  }

  lemma NothingKnown<E>(dec: string -> Option<E>, start: nat, end: int)
    ensures var span := Span(Known(dec, None), start, end); Events(span) == [] && Corrupted(span) == 0
  {
    assert LogLines(None) == [];
    if start <= end {
      SpanReads(Known(dec, None), start, end);
    }
  }

  lemma SubSpan<E>(known: seq<Entry<E>>, n: int, lo: nat, hi: nat)
    requires lo <= hi <= n
    ensures Span(known, 0, n)[lo..hi] == Span(known, lo, hi)
  {
  }

  // ----- what the operations do to the files -----

  /** Appending events: their lines, each with its newline, behind whatever the log holds. */
  ghost function Appended<E>(enc: E -> Option<string>, f: Files, events: seq<E>): Files
    requires Encodable(enc, events)
  {
    var n := f.count + |events|;
    Files(Some(TextOf(f.log) + Unlines(Lines(enc, events))), Some(n), n)
  }

  function Reindexed(f: Files): Files {
    var n := |LogLines(f.log)|;
    Files(f.log, Some(n), n)
  }

  /** The events `truncate` reads to keep them. */
  ghost function LastEntries<E>(dec: string -> Option<E>, f: Files, keepLast: int): seq<Entry<E>> {
    if 0 < keepLast < f.count then Span(Known(dec, f.log), f.count - keepLast, f.count) else []
  }

  lemma LastIsSpan<E>(dec: string -> Option<E>, f: Files, keepLast: int)
    requires 0 < keepLast < f.count
    ensures LastEntries(dec, f, keepLast) == Span(Known(dec, f.log), f.count - keepLast, f.count)
  {
  }

  /** The files after `truncate`. */
  ghost function Truncated<E>(enc: E -> Option<string>, dec: string -> Option<E>, f: Files, keepLast: int): Files
    requires Encodable(enc, Events(LastEntries(dec, f, keepLast)))
  {
    if keepLast >= f.count then f
    else if keepLast <= 0 then Files(Some(""), Some(0), 0)
    else Files(Some(Unlines(Lines(enc, Events(LastEntries(dec, f, keepLast))))), Some(keepLast), keepLast)
  }

  /** What `truncate` returns. */
  function TruncateResult(count: int, keepLast: int): int {
    if keepLast >= count || keepLast <= 0 then 0 else count - keepLast
  }

  // ----- appending -----

  /** Behind ended text, the lines of the events follow those there, whatever they are. */
  lemma AppendedLines<E(!new)>(enc: E -> Option<string>, dec: string -> Option<E>, f: Files, events: seq<E>)
    requires CodecOk(enc, dec) && Encodable(enc, events) && Ended(TextOf(f.log))
    ensures var g := Appended(enc, f, events);
            LogLines(g.log) == LogLines(f.log) + Lines(enc, events) && Ended(TextOf(g.log))
  {
    var more := Unlines(Lines(enc, events));
    SplitConcat(TextOf(f.log), more);
    NonBlankConcat(SplitLines(TextOf(f.log)), SplitLines(more));
    BatchRoundTrip(enc, dec, events);
    UnlinesEnds(Lines(enc, events));
  }

  lemma {:induction false} UnlinesEnds(lines: seq<string>)
    ensures Ended(Unlines(lines))
  {
    if lines != [] {
      UnlinesEnds(lines[1..]);
      assert Unlines(lines) == lines[0] + "\n" + Unlines(lines[1..]);
    }
  }

  /** Lines printed behind others add one entry for each event. */
  lemma AppendedKnown<E(!new)>(enc: E -> Option<string>, dec: string -> Option<E>, lines: seq<string>, events: seq<E>)
    requires CodecOk(enc, dec) && Encodable(enc, events)
    ensures var known := LineEntries(dec, lines + Lines(enc, events));
            && known[..|lines|] == LineEntries(dec, lines)
            && forall i :: 0 <= i < |events| ==> known[|lines| + i] == Stored(events[i])
  {
    KnownConcat(dec, lines, Lines(enc, events));
    PrintedEntries(enc, dec, events);
  }

  lemma KnownConcat<E>(dec: string -> Option<E>, a: seq<string>, b: seq<string>)
    ensures LineEntries(dec, a + b) == LineEntries(dec, a) + LineEntries(dec, b)
  {
    LinesPart(dec, a + b, 0, |a|);
    LinesPart(dec, a + b, |a|, |a + b|);
    assert (a + b)[0..|a|] == a && (a + b)[|a|..|a + b|] == b;
  }

  lemma PrintedEntries<E(!new)>(enc: E -> Option<string>, dec: string -> Option<E>, events: seq<E>)
    requires CodecOk(enc, dec) && Encodable(enc, events)
    ensures forall i :: 0 <= i < |events| ==> LineEntries(dec, Lines(enc, events))[i] == Stored(events[i])
  {
    forall i | 0 <= i < |events| ensures LineEntries(dec, Lines(enc, events))[i] == Stored(events[i]) {
      LineEntryAt(dec, Lines(enc, events), i);
      assert enc(events[i]).Some?;
      StripGood(enc(events[i]).value);
    }
  }

  /**
   What stands at the newest counted position after an append: the event itself when the count agreed
   with the file, and otherwise what stood at that position before, nothing or an older line.
   */
  lemma AppendedEntry<E(!new)>(enc: E -> Option<string>, dec: string -> Option<E>, f: Files, event: E)
    requires CodecOk(enc, dec) && enc(event).Some? && Ended(TextOf(f.log)) && f.count >= 0
    ensures var known := Known(dec, f.log);
            Entries(dec, Appended(enc, f, [event]))[f.count] ==
            if f.count == |known| then Stored(event) else EntryAt(known, f.count)
  {
    AppendedLines(enc, dec, f, [event]);
    NewestOf(enc, dec, LogLines(f.log), event, f.count);
  }

  lemma NewestOf<E(!new)>(enc: E -> Option<string>, dec: string -> Option<E>, lines: seq<string>, event: E, k: nat)
    requires CodecOk(enc, dec) && enc(event).Some?
    ensures var known := LineEntries(dec, lines);
            Span(LineEntries(dec, lines + Lines(enc, [event])), 0, k + 1)[k] ==
            if k == |known| then Stored(event) else EntryAt(known, k)
  {
    AppendedKnown(enc, dec, lines, [event]);
    NewestEntry(LineEntries(dec, lines), LineEntries(dec, lines + Lines(enc, [event])), k);
  }

  lemma NewestEntry<E>(before: seq<Entry<E>>, after: seq<Entry<E>>, k: nat)
    requires |after| == |before| + 1 && after[..|before|] == before
    ensures Span(after, 0, k + 1)[k] == if k == |before| then after[k] else EntryAt(before, k)
  {
    assert k < |before| ==> after[k] == after[..|before|][k];
  }

  lemma OneLine<E>(enc: E -> Option<string>, event: E)
    requires enc(event).Some?
    ensures Encodable(enc, [event]) && Unlines(Lines(enc, [event])) == enc(event).value + "\n"
  {
    assert Lines(enc, [event]) == [enc(event).value];
    assert Unlines([enc(event).value]) == enc(event).value + "\n";
  }

  /** The joined lines end in no newline, and closing them with one gives each line its newline. */
  lemma NoTrailingBreak<E(!new)>(enc: E -> Option<string>, dec: string -> Option<E>, events: seq<E>)
    requires CodecOk(enc, dec) && Encodable(enc, events) && events != []
    ensures var text := JoinLines(Lines(enc, events));
            text != "" && text[|text| - 1] != '\n' && text + "\n" == Unlines(Lines(enc, events))
  {
    var lines := Lines(enc, events);
    GoodEncoding(enc, dec, events);
    JoinIsUnlines(lines);
    EndsGood(lines);
  }

  lemma EndsGood(lines: seq<string>)
    requires GoodLines(lines) && lines != []
    ensures var text := JoinLines(lines); text != "" && text[|text| - 1] != '\n'
  {
    var last := lines[|lines| - 1];
    assert last in lines && GoodLine(last);
    assert !IsBreak(last[|last| - 1]);
  }

  /** The text with a newline at its end, unless it is empty or has one. */
  function Closed(text: string): string {
    if text != "" && text[|text| - 1] != '\n' then text + "\n" else text
  }

  /** The text a batch adds, whether or not it had to be closed with a newline. */
  lemma BatchText<E(!new)>(enc: E -> Option<string>, dec: string -> Option<E>, events: seq<E>)
    requires CodecOk(enc, dec) && Encodable(enc, events)
    ensures Closed(JoinLines(Lines(enc, events))) == Unlines(Lines(enc, events))
  {
    if events != [] {
      NoTrailingBreak(enc, dec, events);
    }
  }

  // ----- logs that hold exactly some printed events -----

  /** The log is the printed text of `stored`, of which the count covers a beginning. */
  ghost predicate Holds<E(!new)>(enc: E -> Option<string>, dec: string -> Option<E>, f: Files, stored: seq<E>) {
    && CodecOk(enc, dec) && Encodable(enc, stored)
    && TextOf(f.log) == Unlines(Lines(enc, stored))
    && 0 <= f.count <= |stored|
  }

  lemma HeldLines<E(!new)>(enc: E -> Option<string>, dec: string -> Option<E>, f: Files, stored: seq<E>)
    requires Holds(enc, dec, f, stored)
    ensures LogLines(f.log) == Lines(enc, stored) && |LogLines(f.log)| == |stored|
    ensures forall k :: 0 <= k < |stored| ==> Known(dec, f.log)[k] == Stored(stored[k])
  {
    BatchRoundTrip(enc, dec, stored);
    PrintedEntries(enc, dec, stored);
  }

  lemma {:induction false} EventsOf<E>(entries: seq<Entry<E>>, events: seq<E>)
    requires |entries| == |events| && forall i :: 0 <= i < |events| ==> entries[i] == Stored(events[i])
    ensures Events(entries) == events && Corrupted(entries) == 0
  {
    if events != [] {
      EventsOf(entries[..|entries| - 1], events[..|events| - 1]);
      assert events == events[..|events| - 1] + [events[|events| - 1]];
    }
  }

  /** Of such a log every slice of the entries reads as the Python slice of the counted events, with no line skipped. */
  lemma HeldSlice<E(!new)>(enc: E -> Option<string>, dec: string -> Option<E>, f: Files, stored: seq<E>, start: int,
                           end: Option<int>)
    requires Holds(enc, dec, f, stored)
    ensures Events(PySlice(Entries(dec, f), start, end)) == PySlice(stored[..f.count], start, end)
    ensures Corrupted(PySlice(Entries(dec, f), start, end)) == 0
  {
    HeldLines(enc, dec, f, stored);
    StoredSlice(Entries(dec, f), stored[..f.count], start, end);
  }

  lemma StoredSlice<E>(entries: seq<Entry<E>>, events: seq<E>, start: int, end: Option<int>)
    requires |entries| == |events| && forall i :: 0 <= i < |events| ==> entries[i] == Stored(events[i])
    ensures Events(PySlice(entries, start, end)) == PySlice(events, start, end)
    ensures Corrupted(PySlice(entries, start, end)) == 0
  {
    EventsOf(PySlice(entries, start, end), PySlice(events, start, end));
  }

  /** Appending to such a log with its count in step leaves such a log, one event longer per event. */
  lemma HeldAppend<E(!new)>(enc: E -> Option<string>, dec: string -> Option<E>, f: Files, stored: seq<E>,
                            events: seq<E>)
    requires Holds(enc, dec, f, stored) && Encodable(enc, events)
    ensures Holds(enc, dec, Appended(enc, f, events), stored + events)
  {
    BatchConcat(enc, stored, events);
  }

  /** Reindexing such a log brings the count in step, however far behind it was. */
  lemma HeldReindex<E(!new)>(enc: E -> Option<string>, dec: string -> Option<E>, f: Files, stored: seq<E>)
    requires Holds(enc, dec, f.(count := 0), stored)
    ensures Holds(enc, dec, Reindexed(f), stored) && Reindexed(f).count == |stored|
  {
    HeldLines(enc, dec, f.(count := 0), stored);
  }

  /** On any files: reindexing counts the lines that are not all space, and changes nothing else. */
  lemma ReindexCounts(f: Files) returns (ks: seq<nat>)
    ensures var lines := SplitLines(TextOf(f.log));
            Increasing(ks) && forall k: nat :: k in ks <==> k < |lines| && !AllSpace(lines[k])
    ensures Reindexed(f) == Files(f.log, Some(|ks|), |ks|)
  {
    ks := NonBlankInOrder(SplitLines(TextOf(f.log)));
  }

  /** On any log: a line is read without the space around it, and is corrupt if the rest does not decode. */
  lemma KnownLine<E>(dec: string -> Option<E>, log: Option<string>, i: nat, a: string, core: string, b: string)
    requires i < |LogLines(log)| && LogLines(log)[i] == a + core + b && AllSpace(a) && AllSpace(b)
    requires core != "" && !IsSpace(core[0]) && !IsSpace(core[|core| - 1])
    ensures Known(dec, log)[i] == if dec(core).Some? then Stored(dec(core).value) else Corrupt
  {
    LineEntryAt(dec, LogLines(log), i);
    StripOf(a, core, b);
  }

  // ----- truncation -----

  /** They are the last entries the count covers. */
  lemma LastAreSlice<E>(dec: string -> Option<E>, f: Files, keepLast: int)
    requires 0 < keepLast < f.count
    ensures LastEntries(dec, f, keepLast) == PySlice(Entries(dec, f), -keepLast, None)
  {
    LastIsSlice(Known(dec, f.log), f.count, keepLast);
  }

  /**
   On any files: the number returned is the number of lines that left exactly when nothing was to be
   done, there was nothing, or the count was not behind the file and every kept entry with a line
   was an event, the missing ones all being among the kept.
   */
  lemma TruncateReportsRemovedIff<E(!new)>(enc: E -> Option<string>, dec: string -> Option<E>, f: Files, keepLast: int)
    requires CodecOk(enc, dec) && Encodable(enc, Events(LastEntries(dec, f, keepLast)))
    ensures var lines, last := LogLines(f.log), LastEntries(dec, f, keepLast);
            TruncateResult(f.count, keepLast) == |lines| - |LogLines(Truncated(enc, dec, f, keepLast).log)| <==>
            || keepLast >= f.count
            || (keepLast <= 0 && lines == [])
            || (0 < keepLast && Corrupted(last) == 0 && f.count - keepLast <= |lines| <= f.count)
  {
    if 0 < keepLast < f.count {
      LastSize(dec, f, keepLast);
      KeptLines(enc, dec, f, keepLast);
    } else {
      assert LogLines(Some("")) == [];
    }
  }

  lemma KeptLines<E(!new)>(enc: E -> Option<string>, dec: string -> Option<E>, f: Files, keepLast: int)
    requires CodecOk(enc, dec) && 0 < keepLast < f.count && Encodable(enc, Events(LastEntries(dec, f, keepLast)))
    ensures |LogLines(Truncated(enc, dec, f, keepLast).log)| == |Events(LastEntries(dec, f, keepLast))|
  {
    PrintedLines(enc, dec, Events(LastEntries(dec, f, keepLast)));
  }

  /** Of the last entries, all but the corrupt ones and those without a line are events. */
  lemma LastSize<E>(dec: string -> Option<E>, f: Files, keepLast: int)
    requires 0 < keepLast < f.count
    ensures var n, first, last := |LogLines(f.log)|, f.count - keepLast, LastEntries(dec, f, keepLast);
            |Events(last)| + Corrupted(last) == if n >= f.count then keepLast else if n >= first then n - first else 0
  {
    NoLineMissing(dec, LogLines(f.log));
    SpanSize(Known(dec, f.log), f.count - keepLast, f.count);
  }

  /** A span holds as many events and corrupt lines as it has lines. */
  lemma SpanSize<E>(known: seq<Entry<E>>, lo: nat, hi: nat)
    requires lo <= hi && forall i :: 0 <= i < |known| ==> !known[i].Missing?
    ensures |Events(Span(known, lo, hi))| + Corrupted(Span(known, lo, hi)) ==
            if |known| >= hi then hi - lo else if |known| >= lo then |known| - lo else 0
  {
    SpanReads(known, lo, hi);
    Accounted(Part(known, lo, hi));
  }

  lemma PrintedLines<E(!new)>(enc: E -> Option<string>, dec: string -> Option<E>, events: seq<E>)
    requires CodecOk(enc, dec) && Encodable(enc, events)
    ensures LogLines(Some(Unlines(Lines(enc, events)))) == Lines(enc, events)
  {
    BatchRoundTrip(enc, dec, events);
  }

  /**
   On a log of printed events: exactly when nothing is to be done, there is nothing, or some are
   kept and the count is in step.
   */
  lemma HeldTruncateReportsIff<E(!new)>(enc: E -> Option<string>, dec: string -> Option<E>, f: Files, stored: seq<E>,
                                        keepLast: int)
    requires Holds(enc, dec, f, stored)
    ensures Encodable(enc, Events(LastEntries(dec, f, keepLast)))
    ensures TruncateResult(f.count, keepLast) == |stored| - |LogLines(Truncated(enc, dec, f, keepLast).log)| <==>
            keepLast >= f.count || stored == [] || (keepLast > 0 && f.count == |stored|)
  {
    TruncateKeepsLast(enc, dec, f, stored, keepLast);
    HeldLines(enc, dec, f, stored);
    TruncateReportsRemovedIff(enc, dec, f, keepLast);
  }

  /**
   Keeping some events of such a log leaves the last ones the count covers: the last of all when the
   count is in step, and otherwise the events past the count are lost.
   */
  lemma TruncateKeepsLast<E(!new)>(enc: E -> Option<string>, dec: string -> Option<E>, f: Files, stored: seq<E>,
                                   keepLast: int)
    requires Holds(enc, dec, f, stored)
    ensures Encodable(enc, Events(LastEntries(dec, f, keepLast))) && Corrupted(LastEntries(dec, f, keepLast)) == 0
    ensures 0 < keepLast < f.count ==>
              && Holds(enc, dec, Truncated(enc, dec, f, keepLast), stored[f.count - keepLast..f.count])
              && Truncated(enc, dec, f, keepLast).countFile == Some(keepLast)
              && Truncated(enc, dec, f, keepLast).count == keepLast
              && (f.count == |stored| ==> stored[f.count - keepLast..f.count] == PySlice(stored, -keepLast, None))
  {
    if 0 < keepLast < f.count {
      LastHeld(enc, dec, f, stored, keepLast);
    }
  }

  lemma LastHeld<E(!new)>(enc: E -> Option<string>, dec: string -> Option<E>, f: Files, stored: seq<E>, keepLast: int)
    requires Holds(enc, dec, f, stored) && 0 < keepLast < f.count
    ensures Events(LastEntries(dec, f, keepLast)) == stored[f.count - keepLast..f.count]
    ensures Corrupted(LastEntries(dec, f, keepLast)) == 0
  {
    HeldLines(enc, dec, f, stored);
    EventsOf(LastEntries(dec, f, keepLast), stored[f.count - keepLast..f.count]);
  }

  /** With a count one behind, keeping one of three events leaves the middle one, and reports one event removed. */
  lemma LaggingTruncateLosesNewest<E(!new)>(enc: E -> Option<string>, dec: string -> Option<E>, f: Files, a: E, b: E,
                                            c: E)
    requires Holds(enc, dec, f, [a, b, c]) && f.count == 2
    ensures Holds(enc, dec, f, [a, b, c]) && Encodable(enc, Events(LastEntries(dec, f, 1)))
    ensures Holds(enc, dec, Truncated(enc, dec, f, 1), [b]) && TruncateResult(f.count, 1) == 1
  {
    TruncateKeepsLast(enc, dec, f, [a, b, c], 1);
    assert [a, b, c][1..2] == [b];
  }

  /**
   On any files: either nothing is to be done, or the number in the count file and the one the process
   believes in become the number to keep, which is 0 for none.
   */
  lemma TruncateCounts<E(!new)>(enc: E -> Option<string>, dec: string -> Option<E>, f: Files, keepLast: int)
    requires Encodable(enc, Events(LastEntries(dec, f, keepLast)))
    ensures var g := Truncated(enc, dec, f, keepLast);
            if keepLast >= f.count then g == f
            else g.countFile == Some(g.count) && g.count == if keepLast > 0 then keepLast else 0
  {
  }

  /**
   Emptying any log leaves the log of no event with its count in step, so that an event appended next
   is the only counted entry, and the one that indices 0 and -1 give.
   */
  lemma EmptiedStartsAfresh<E(!new)>(enc: E -> Option<string>, dec: string -> Option<E>, f: Files, keepLast: int,
                                     event: E)
    requires CodecOk(enc, dec) && enc(event).Some? && keepLast <= 0 && keepLast < f.count
    ensures Encodable(enc, Events(LastEntries(dec, f, keepLast)))
    ensures var g := Truncated(enc, dec, f, keepLast);
            && Holds(enc, dec, g, []) && g.countFile == Some(0) && g.count == 0
            && var h := Appended(enc, g, [event]);
               && h.countFile == Some(1) && h.count == 1
               && EntryAt(Known(dec, h.log), 0) == Stored(event) && Entries(dec, h) == [Stored(event)]
  {
    EmptiedHolds(enc, dec, f, keepLast);
    var g := Truncated(enc, dec, f, keepLast);
    HeldAppend(enc, dec, g, [], [event]);
    assert [] + [event] == [event];
    OneHeld(enc, dec, Appended(enc, g, [event]), event);
  }

  lemma EmptiedHolds<E(!new)>(enc: E -> Option<string>, dec: string -> Option<E>, f: Files, keepLast: int)
    requires CodecOk(enc, dec) && keepLast <= 0 && keepLast < f.count
    ensures Encodable(enc, Events(LastEntries(dec, f, keepLast)))
    ensures Holds(enc, dec, Truncated(enc, dec, f, keepLast), [])
  {
    assert Encodable(enc, []) && Lines(enc, []) == [];
  }

  lemma OneHeld<E(!new)>(enc: E -> Option<string>, dec: string -> Option<E>, f: Files, event: E)
    requires Holds(enc, dec, f, [event]) && f.count == 1
    ensures EntryAt(Known(dec, f.log), 0) == Stored(event) && Entries(dec, f) == [Stored(event)]
  {
    HeldLines(enc, dec, f, [event]);
    assert Known(dec, f.log)[0] == Stored([event][0]);
  }

  /** Emptying a log of any lines removes them all and reports none. */
  lemma EmptyingReportsNothing<E(!new)>(enc: E -> Option<string>, dec: string -> Option<E>, f: Files, keepLast: int)
    requires keepLast <= 0 && keepLast < f.count
    ensures Encodable(enc, Events(LastEntries(dec, f, keepLast)))
    ensures LogLines(Truncated(enc, dec, f, keepLast).log) == [] && TruncateResult(f.count, keepLast) == 0
  {
    assert SplitLines("") == [];
  }

  class EventLog<E(!new)> {
    const enc: E -> Option<string>
    const dec: string -> Option<E>
    const ident: E -> string
    /** The two files; None stands for a missing file. */
    var logFile: Option<string>
    var countFile: Option<int>
    /** The number of events the process believes in, and its counters. */
    var count: int
    var appended: nat
    var readErrors: nat

    /** The law of the codec; of the files and the count nothing is assumed. */
    ghost predicate Valid() {
      CodecOk(enc, dec)
    }

    ghost function Contents(): Files
      reads this
    {
      Files(logFile, countFile, count)
    }

    /** Opening any files: the count comes from the count file, or is 0 without one. */
    constructor (enc: E -> Option<string>, dec: string -> Option<E>, ident: E -> string,
                 logFile: Option<string>, countFile: Option<int>)
      requires CodecOk(enc, dec)
      ensures Valid() && Contents() == Files(logFile, countFile, CountOf(countFile))
      ensures this.enc == enc && this.dec == dec && this.ident == ident
    {
      this.enc, this.dec, this.ident := enc, dec, ident;
      this.logFile, this.countFile := logFile, countFile;
      this.count := if countFile.Some? then countFile.value else 0;
      this.appended, this.readErrors := 0, 0;
    }

    // ----- appending -----

    method AppendLine(line: string)
      modifies this`logFile
      ensures logFile == Some(TextOf(old(logFile)) + (line + "\n"))
    {
      var existing := if logFile.Some? then logFile.value else "";
      logFile := Some(existing + (line + "\n"));
    }

    method WriteCount(n: int)
      modifies this`countFile
      ensures countFile == Some(n)
    {
      countFile := Some(n);
    }

    /** The log file is replaced, then the count is set and written. */
    method Commit(text: string, n: int)
      modifies this
      ensures Contents() == Files(Some(text), Some(n), n)
      ensures appended == old(appended) && readErrors == old(readErrors)
    {
      logFile := Some(text);
      count := n;
      WriteCount(n);
    }

    /** Err stands for the SerializationError: nothing is written. */
    method Append(event: E) returns (id: Result<string, ()>)
      requires Valid()
      modifies this
      ensures id == if enc(event).Some? then Ok(ident(event)) else Err(())
      ensures enc(event).None? ==> Contents() == old(Contents()) && appended == old(appended)
      ensures enc(event).Some? ==>
                Contents() == Appended(enc, old(Contents()), [event]) && appended == old(appended) + 1
      ensures readErrors == old(readErrors)
    {
      var line := enc(event);
      if line.None? {
        return Err(());
      }
      OneLine(enc, event);
      AppendLine(line.value);
      count := count + 1;
      WriteCount(count);
      appended := appended + 1;
      return Ok(ident(event));
    }

    /** The ids and the lines of the events, unless one of them cannot be printed. */
    method PrintEach(events: seq<E>) returns (printed: Result<(seq<string>, seq<string>), ()>)
      ensures printed.Ok? <==> Encodable(enc, events)
      ensures printed.Ok? ==> |printed.value.0| == |events|
      ensures printed.Ok? ==> forall i :: 0 <= i < |events| ==> printed.value.0[i] == ident(events[i])
      ensures printed.Ok? ==> printed.value.1 == Lines(enc, events)
    {
      var idList: seq<string>, lines: seq<string> := [], [];
      for i := 0 to |events|
        invariant |idList| == i && forall k :: 0 <= k < i ==> idList[k] == ident(events[k])
        invariant Encodable(enc, events[..i]) && lines == Lines(enc, events[..i])
      {
        var line := enc(events[i]);
        if line.None? {
          return Err(());
        }
        idList := idList + [ident(events[i])];
        lines := lines + [line.value];
      }
      assert events[..|events|] == events;
      return Ok((idList, lines));
    }

    /** All the events are written or, when one cannot be printed, none. */
    method AppendBatch(events: seq<E>) returns (ids: Result<seq<string>, ()>)
      requires Valid()
      modifies this
      ensures ids.Ok? <==> Encodable(enc, events)
      ensures ids.Ok? ==> |ids.value| == |events| && forall i :: 0 <= i < |events| ==> ids.value[i] == ident(events[i])
      ensures ids.Err? ==> Contents() == old(Contents()) && appended == old(appended)
      ensures ids.Ok? ==>
                Contents() == Appended(enc, old(Contents()), events) && appended == old(appended) + |events|
      ensures readErrors == old(readErrors)
    {
      var printed := PrintEach(events);
      if printed.Err? {
        return Err(());
      }
      WriteLines(printed.value.1, events);
      appended := appended + |events|;
      return Ok(printed.value.0);
    }

    /** The lines are joined, closed and put behind the existing text. */
    method WriteLines(lines: seq<string>, ghost events: seq<E>)
      requires Valid() && Encodable(enc, events) && lines == Lines(enc, events)
      modifies this
      ensures Contents() == Appended(enc, old(Contents()), events)
      ensures appended == old(appended) && readErrors == old(readErrors)
    {
      var content := JoinLines(lines);
      BatchText(enc, dec, events);
      if content != "" && content[|content| - 1] != '\n' {
        content := content + "\n";
      }
      var existing := if logFile.Some? then logFile.value else "";
      Commit(existing + content, count + |lines|);
    }

    // ----- reading -----

    method KeepNonBlank(lines: seq<string>) returns (kept: seq<string>)
      ensures kept == NonBlank(lines)
    {
      kept := [];
      for i := 0 to |lines|
        invariant kept == NonBlank(lines[..i])
      {
        assert lines[..i + 1][..i] == lines[..i];
        if Strip(lines[i]) != "" {
          kept := kept + [lines[i]];
        }
      }
      assert lines[..|lines|] == lines;
    }

    /** Lines that do not decode are skipped and counted. */
    method DecodeEach(lines: seq<string>) returns (events: seq<E>)
      modifies this`readErrors
      ensures events == Events(LineEntries(dec, lines))
      ensures readErrors == old(readErrors) + Corrupted(LineEntries(dec, lines))
    {
      events := [];
      for i := 0 to |lines|
        invariant events == Events(LineEntries(dec, lines[..i]))
        invariant readErrors == old(readErrors) + Corrupted(LineEntries(dec, lines[..i]))
      {
        LineStep(dec, lines, i);
        var event := dec(Strip(lines[i]));
        if event.Some? {
          events := events + [event.value];
        } else {
          readErrors := readErrors + 1;
        }
      }
      assert lines[..|lines|] == lines;
    }

    /** The events of the range of lines, every corrupt line in it counted. */
    method ReadLines(nonEmpty: seq<string>, start: nat, end: int) returns (events: seq<E>)
      modifies this`readErrors
      ensures events == Events(Span(LineEntries(dec, nonEmpty), start, end))
      ensures readErrors == old(readErrors) + Corrupted(Span(LineEntries(dec, nonEmpty), start, end))
    {
      if start <= end {
        SpanReads(LineEntries(dec, nonEmpty), start, end);
      }
      var total := |nonEmpty|;
      if start >= total {
        return [];
      }
      var last := if end < total then end else total;
      if start >= last {
        return [];
      }
      LinesPart(dec, nonEmpty, start, last);
      events := DecodeEach(nonEmpty[start..last]);
    }

    method ReadRange(start: nat, end: int) returns (events: seq<E>)
      modifies this`readErrors
      ensures events == Events(Span(Known(dec, logFile), start, end))
      ensures readErrors == old(readErrors) + Corrupted(Span(Known(dec, logFile), start, end))
    {
      if logFile.None? {
        NothingKnown(dec, start, end);
        return [];
      }
      var nonEmpty := KeepNonBlank(SplitLines(logFile.value));
      events := ReadLines(nonEmpty, start, end);
    }

    /** The event at a counted position; Err stands for the IndexError, also of an entry that is no event. */
    method Get(index: int) returns (event: Result<E, ()>)
      modifies this`readErrors
      ensures var known, k := Known(dec, logFile), if index < 0 then count + index else index;
              var entry := if -count <= index < count then EntryAt(known, k) else Missing;
              && event == (if entry.Stored? then Ok(entry.event) else Err(()))
              && readErrors == old(readErrors) + if entry.Corrupt? then 1 else 0
    {
      var i := if index < 0 then count + index else index;
      if i < 0 || i >= count {
        return Err(());
      }
      var events := ReadOne(i);
      if events == [] {
        return Err(());
      }
      return Ok(events[0]);
    }

    method ReadOne(i: nat) returns (events: seq<E>)
      modifies this`readErrors
      ensures events == EventOf(EntryAt(Known(dec, logFile), i))
      ensures readErrors == old(readErrors) + if EntryAt(Known(dec, logFile), i).Corrupt? then 1 else 0
    {
      events := ReadRange(i, i + 1);
      OneEntry(Known(dec, logFile), i);
    }

    /** The events of the Python slice of the counted entries. */
    method GetRange(start: int, end: Option<int>) returns (events: seq<E>)
      modifies this`readErrors
      ensures var slice := PySlice(Entries(dec, Contents()), start, end);
              events == Events(slice) && readErrors == old(readErrors) + Corrupted(slice)
    {
      RangeIsSlice(Known(dec, logFile), count, start, end);
      var hi := if end.None? then count else end.value;
      var lo := start;
      if lo < 0 {
        lo := if count + lo < 0 then 0 else count + lo;
      }
      if hi < 0 {
        hi := if count + hi < 0 then 0 else count + hi;
      }
      if lo > hi {
        return [];
      }
      hi := if hi < count then hi else count;
      if lo >= count {
        return [];
      }
      events := ReadRange(lo, hi);
    }

    method GetAll() returns (events: seq<E>)
      modifies this`readErrors
      ensures var entries := Entries(dec, Contents());
              events == Events(entries) && readErrors == old(readErrors) + Corrupted(entries)
    {
      events := GetRange(0, Some(count));
      WholeSlice(Known(dec, logFile), count);
    }

    method GetLast(n: int) returns (events: seq<E>)
      modifies this`readErrors
      ensures var last := if n <= 0 then [] else PySlice(Entries(dec, Contents()), -n, None);
              events == Events(last) && readErrors == old(readErrors) + Corrupted(last)
    {
      if n <= 0 {
        return [];
      }
      var start := if count - n < 0 then 0 else count - n;
      ghost var last := PySlice(Entries(dec, Contents()), -n, None);
      LastIsSlice(Known(dec, logFile), count, n);
      assert last == Span(Known(dec, logFile), start, count);
      events := ReadRange(start, count);
      assert PySlice(Entries(dec, Contents()), -n, None) == last;
    }

    // ----- maintenance -----

    /** The count becomes the number of non-blank lines. */
    method Reindex() returns (n: int)
      modifies this
      ensures Contents() == Reindexed(old(Contents())) && n == count
      ensures appended == old(appended) && readErrors == old(readErrors)
    {
      n := 0;
      if logFile.Some? {
        var nonEmpty := KeepNonBlank(SplitLines(logFile.value));
        n := |nonEmpty|;
      }
      count := n;
      WriteCount(n);
    }

    /** Err stands for the SerializationError of a kept event that cannot be printed again; nothing is written then. */
    method Truncate(keepLast: int) returns (removed: Result<int, ()>)
      modifies this
      ensures removed.Ok? <==> Encodable(enc, Events(LastEntries(dec, old(Contents()), keepLast)))
      ensures removed.Ok? ==>
                && Contents() == Truncated(enc, dec, old(Contents()), keepLast)
                && removed.value == TruncateResult(old(count), keepLast)
      ensures removed.Err? ==> Contents() == old(Contents())
      ensures readErrors == old(readErrors) + Corrupted(LastEntries(dec, old(Contents()), keepLast))
      ensures appended == old(appended)
    {
      if keepLast >= count {
        return Ok(0);
      }
      if keepLast <= 0 {
        logFile := Some("");
        count := 0;
        WriteCount(0);
        return Ok(count);
      }
      var oldCount := count;
      var ok := RewriteLast(keepLast);
      return if ok then Ok(oldCount - keepLast) else Err(());
    }

    method ReadEntries(start: nat, end: int, ghost entries: seq<Entry<E>>) returns (events: seq<E>)
      requires entries == Span(Known(dec, logFile), start, end)
      modifies this`readErrors
      ensures events == Events(entries) && readErrors == old(readErrors) + Corrupted(entries)
    {
      events := ReadRange(start, end);
    }

    /** Rewrites the log with the events among the last counted entries. */
    method RewriteLast(keepLast: nat) returns (ok: bool)
      requires 0 < keepLast < count
      modifies this
      ensures ok <==> Encodable(enc, Events(LastEntries(dec, old(Contents()), keepLast)))
      ensures ok ==> Contents() == Truncated(enc, dec, old(Contents()), keepLast)
      ensures !ok ==> Contents() == old(Contents())
      ensures readErrors == old(readErrors) + Corrupted(LastEntries(dec, old(Contents()), keepLast))
      ensures appended == old(appended)
    {
      LastIsSpan(dec, Contents(), keepLast);
      var kept := ReadEntries(count - keepLast, count, LastEntries(dec, Contents(), keepLast));
      var text := SerializeBatch(enc, kept);
      if text.Err? {
        return false;
      }
      Commit(text.value, keepLast);
      return true;
    }
  }
}
