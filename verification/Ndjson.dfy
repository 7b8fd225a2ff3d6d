/**
 Newline-delimited event text: how Python splits and strips lines, and the batch printer and
 parser. The codec of a single event is a parameter.
 */
module Ndjson {
  import opened Wrappers

  // ----- Python's line and whitespace rules -----

  /** The line boundaries of `str.splitlines`. */
  predicate IsBreak(c: char) {
    var n := c as int;
    0x0a <= n <= 0x0d || 0x1c <= n <= 0x1e || n == 0x85 || n == 0x2028 || n == 0x2029
  }

  /** The characters `str.strip` removes. */
  predicate IsSpace(c: char) {
    var n := c as int;
    0x09 <= n <= 0x0d || 0x1c <= n <= 0x20 || n == 0x85 || n == 0xa0 || n == 0x1680 || 0x2000 <= n <= 0x200a ||
    n == 0x2028 || n == 0x2029 || n == 0x202f || n == 0x205f || n == 0x3000
  }

  /** The length of the first line of `text`, without its break. */
  function LineLength(text: string): (k: nat)
    ensures k <= |text|
    ensures forall i :: 0 <= i < k ==> !IsBreak(text[i])
    ensures k < |text| ==> IsBreak(text[k])
  {
    if text == "" || IsBreak(text[0]) then 0 else 1 + LineLength(text[1..])
  }

  /** Where the line after the break at `k` starts: a carriage return and a line feed together are one break. */
  function AfterBreak(text: string, k: nat): (next: nat)
    requires k < |text|
    ensures k < next <= |text|
  {
    if text[k] == '\r' && k + 1 < |text| && text[k + 1] == '\n' then k + 2 else k + 1
  }

  /** `str.splitlines` */
  function SplitLines(text: string): seq<string>
    decreases |text|
  {
    if text == "" then [] else
    var k := LineLength(text);
    if k == |text| then [text] else [text[..k]] + SplitLines(text[AfterBreak(text, k)..])
  }

  function StripLeft(s: string): string {
    if s != "" && IsSpace(s[0]) then StripLeft(s[1..]) else s
  }

  function StripRight(s: string): string {
    if s != "" && IsSpace(s[|s| - 1]) then StripRight(s[..|s| - 1]) else s
  }

  function Strip(s: string): string {
    StripRight(StripLeft(s))
  }

  /** A line that survives splitting and stripping unchanged. */
  ghost predicate GoodLine(line: string) {
    && line != ""
    && (forall i :: 0 <= i < |line| ==> !IsBreak(line[i]))
    && !IsSpace(line[0]) && !IsSpace(line[|line| - 1])
  }

  ghost predicate GoodLines(lines: seq<string>) {
    forall line :: line in lines ==> GoodLine(line)
  }

  /** Each line followed by a newline. */
  function Unlines(lines: seq<string>): string {
    if lines == [] then "" else lines[0] + "\n" + Unlines(lines[1..])
  }

  lemma {:induction false} UnlinesConcat(a: seq<string>, b: seq<string>)
    ensures Unlines(a + b) == Unlines(a) + Unlines(b)
  {
    if a == [] {
      assert a + b == b;
    } else {
      assert (a + b)[1..] == a[1..] + b;
      UnlinesConcat(a[1..], b);
    }
  }

  lemma {:induction false} LineLengthOf(line: string, rest: string)
    requires forall i :: 0 <= i < |line| ==> !IsBreak(line[i])
    requires rest == "" || IsBreak(rest[0])
    ensures LineLength(line + rest) == |line|
  {
    if line == "" {
      assert line + rest == rest;
    } else {
      assert (line + rest)[0] == line[0] && (line + rest)[1..] == line[1..] + rest;
      LineLengthOf(line[1..], rest);
    }
  }

  /** Splitting undoes printing. */
  lemma {:induction false} SplitUnlines(lines: seq<string>)
    requires forall line :: line in lines ==> forall i :: 0 <= i < |line| ==> !IsBreak(line[i])
    ensures SplitLines(Unlines(lines)) == lines
  {
    if lines != [] {
      var line, rest := lines[0], Unlines(lines[1..]);
      var text := line + ("\n" + rest);
      assert text == Unlines(lines);
      assert line in lines;
      LineLengthOf(line, "\n" + rest);
      assert text[|line|] == '\n' && text[..|line|] == line && text[|line| + 1..] == rest;
      SplitUnlines(lines[1..]);
    }
  }

  /** Text that is empty or ends its last line. */
  predicate Ended(text: string) {
    text == "" || text[|text| - 1] == '\n'
  }

  /** Ended text has a first break, and what follows it is ended text. */
  lemma EndedTail(a: string)
    requires Ended(a) && a != ""
    ensures LineLength(a) < |a| && Ended(a[AfterBreak(a, LineLength(a))..])
  {
    var k := LineLength(a);
    assert IsBreak(a[|a| - 1]);
    var tail := a[AfterBreak(a, k)..];
    assert tail != "" ==> tail[|tail| - 1] == a[|a| - 1];
  }

  /** More text behind it does not change the first line, nor its break. */
  lemma SameFirstLine(a: string, b: string)
    requires Ended(a) && a != "" && LineLength(a) < |a|
    ensures var k := LineLength(a);
            LineLength(a + b) == k && AfterBreak(a + b, k) == AfterBreak(a, k) && (a + b)[..k] == a[..k]
  {
    var k := LineLength(a);
    assert (a + b)[k] == a[k] && (a + b)[..k] == a[..k];
    FirstBreak(a + b, k);
    assert k + 1 == |a| ==> a[k] == '\n';
  }

  lemma FirstBreak(text: string, k: nat)
    requires k < |text| && IsBreak(text[k]) && forall i :: 0 <= i < k ==> !IsBreak(text[i])
    ensures LineLength(text) == k
  {
  }

  lemma SplitStep(text: string)
    requires text != "" && LineLength(text) < |text|
    ensures SplitLines(text) == [text[..LineLength(text)]] + SplitLines(text[AfterBreak(text, LineLength(text))..])
  {
  }

  /** Behind ended text, splitting starts afresh. */
  lemma {:induction false} SplitConcat(a: string, b: string)
    requires Ended(a)
    ensures SplitLines(a + b) == SplitLines(a) + SplitLines(b)
    decreases |a|
  {
    if a == "" {
      assert a + b == b;
    } else {
      EndedTail(a);
      SplitConcat(a[AfterBreak(a, LineLength(a))..], b);
      SplitConcatStep(a, b);
    }
  }

  lemma SplitConcatStep(a: string, b: string)
    requires Ended(a) && a != "" && LineLength(a) < |a|
    requires var tail := a[AfterBreak(a, LineLength(a))..]; SplitLines(tail + b) == SplitLines(tail) + SplitLines(b)
    ensures SplitLines(a + b) == SplitLines(a) + SplitLines(b)
  {
    var next := AfterBreak(a, LineLength(a));
    SameFirstLine(a, b);
    SplitStep(a);
    SplitStep(a + b);
    DropConcat(a, b, next);
    Reassociate([a[..LineLength(a)]], SplitLines(a[next..]), SplitLines(b));
  }

  lemma DropConcat<T>(a: seq<T>, b: seq<T>, n: nat)
    requires n <= |a|
    ensures (a + b)[n..] == a[n..] + b
  {
  }

  lemma Reassociate<T>(a: seq<T>, b: seq<T>, c: seq<T>)
    ensures a + (b + c) == (a + b) + c
  {
  }

  lemma StripGood(line: string)
    requires GoodLine(line)
    ensures Strip(line) == line
  {
  }

  function UnlessBlank(line: string): seq<string> {
    if Strip(line) != "" then [line] else []
  }

  /** The lines that are not blank. */
  function NonBlank(lines: seq<string>): seq<string> {
    if lines == [] then [] else
    NonBlank(lines[..|lines| - 1]) + UnlessBlank(lines[|lines| - 1])
  }

  lemma NonBlankSnoc(before: seq<string>, line: string)
    ensures NonBlank(before + [line]) == NonBlank(before) + UnlessBlank(line)
  {
    assert (before + [line])[..|before|] == before;
  }

  lemma {:induction false} NonBlankConcat(a: seq<string>, b: seq<string>)
    ensures NonBlank(a + b) == NonBlank(a) + NonBlank(b)
  {
    if b == [] {
      assert a + b == a;
    } else {
      var before, last := b[..|b| - 1], b[|b| - 1];
      assert before + [last] == b;
      NonBlankConcat(a, before);
      NonBlankConcatStep(a, before, last);
    }
  }

  lemma NonBlankConcatStep(a: seq<string>, before: seq<string>, last: string)
    requires NonBlank(a + before) == NonBlank(a) + NonBlank(before)
    ensures NonBlank(a + (before + [last])) == NonBlank(a) + NonBlank(before + [last])
  {
    NonBlankSnoc(a + before, last);
    NonBlankSnoc(before, last);
    Reassociate(a, before, [last]);
    Reassociate(NonBlank(a), NonBlank(before), UnlessBlank(last));
  }

  lemma {:induction false} NonBlankGood(lines: seq<string>)
    requires GoodLines(lines)
    ensures NonBlank(lines) == lines
  {
    if lines != [] {
      assert lines == lines[..|lines| - 1] + [lines[|lines| - 1]];
      assert lines[|lines| - 1] in lines;
      StripGood(lines[|lines| - 1]);
      NonBlankGood(lines[..|lines| - 1]);
    }
  }

  // ----- what splitting and stripping leave -----

  ghost predicate AllSpace(s: string) {
    forall i :: 0 <= i < |s| ==> IsSpace(s[i])
  }

  lemma {:induction false} StripLeftIs(s: string) returns (a: string)
    ensures s == a + StripLeft(s) && AllSpace(a) && (StripLeft(s) != "" ==> !IsSpace(StripLeft(s)[0]))
  {
    a := "";
    if s != "" && IsSpace(s[0]) {
      assert s == [s[0]] + s[1..];
      a := StripLeftIs(s[1..]);
      a := [s[0]] + a;
    }
  }

  lemma {:induction false} StripRightIs(s: string) returns (b: string)
    ensures s == StripRight(s) + b && AllSpace(b)
    ensures StripRight(s) != "" ==> !IsSpace(StripRight(s)[|StripRight(s)| - 1]) && StripRight(s)[0] == s[0]
  {
    b := "";
    if s != "" && IsSpace(s[|s| - 1]) {
      b := StripRightIs(s[..|s| - 1]);
      b := b + [s[|s| - 1]];
    }
  }

  /** Stripping takes the space in front and behind, and all of it. */
  lemma StripIs(s: string) returns (a: string, b: string)
    ensures s == a + Strip(s) + b && AllSpace(a) && AllSpace(b)
    ensures Strip(s) != "" ==> !IsSpace(Strip(s)[0]) && !IsSpace(Strip(s)[|Strip(s)| - 1])
  {
    a := StripLeftIs(s);
    b := StripRightIs(StripLeft(s));
    Reassociate(a, Strip(s), b);
  }

  lemma {:induction false} StripLeftSkips(a: string, core: string)
    requires AllSpace(a) && (core != "" ==> !IsSpace(core[0]))
    ensures StripLeft(a + core) == core
  {
    if a == "" {
      assert a + core == core;
    } else {
      assert (a + core)[1..] == a[1..] + core && (a + core)[0] == a[0];
      StripLeftSkips(a[1..], core);
    }
  }

  lemma {:induction false} StripRightSkips(core: string, b: string)
    requires AllSpace(b) && (core != "" ==> !IsSpace(core[|core| - 1]))
    ensures StripRight(core + b) == core
  {
    if b == "" {
      assert core + b == core;
    } else {
      var s := core + b;
      assert s[..|s| - 1] == core + b[..|b| - 1] && s[|s| - 1] == b[|b| - 1];
      StripRightSkips(core, b[..|b| - 1]);
    }
  }

  /** Space around a text that neither starts nor ends with any is stripped, whatever it is. */
  lemma StripOf(a: string, core: string, b: string)
    requires AllSpace(a) && AllSpace(b) && core != "" && !IsSpace(core[0]) && !IsSpace(core[|core| - 1])
    ensures Strip(a + core + b) == core
  {
    Reassociate(a, core, b);
    assert (core + b)[0] == core[0];
    StripLeftSkips(a, core + b);
    StripRightSkips(core, b);
  }

  lemma BlankIff(s: string)
    ensures Strip(s) == "" <==> AllSpace(s)
  {
    var a, b := StripIs(s);
    if Strip(s) != "" {
      assert s[|a|] == Strip(s)[0];
    }
  }

  /** One break: a single character, or a carriage return and a line feed together. */
  ghost predicate OneBreak(s: string) {
    s == "\r\n" || (|s| == 1 && IsBreak(s[0]))
  }

  /** The text is a line without breaks, a break and the rest; a line feed never follows a return that broke alone. */
  ghost predicate FirstLine(text: string, line: string, b: string, rest: string) {
    && text == line + b + rest && OneBreak(b) && !(b == "\r" && rest != "" && rest[0] == '\n')
    && forall i :: 0 <= i < |line| ==> !IsBreak(line[i])
  }

  /** The text is the lines, each followed by one break, the last one perhaps by none. */
  ghost predicate SplitsInto(text: string, lines: seq<string>)
    decreases |lines|
  {
    if lines == [] then text == "" else
    || (lines == [text] && text != "" && forall i :: 0 <= i < |text| ==> !IsBreak(text[i]))
    || exists b, rest :: FirstLine(text, lines[0], b, rest) && SplitsInto(rest, lines[1..])
  }

  lemma Cut(text: string, k: nat, next: nat)
    requires k <= next <= |text|
    ensures text == text[..k] + text[k..next] + text[next..]
  {
  }

  lemma BreakIs(text: string, k: nat)
    requires k < |text| && IsBreak(text[k])
    ensures var next := AfterBreak(text, k);
            OneBreak(text[k..next]) && !(text[k..next] == "\r" && text[next..] != "" && text[next..][0] == '\n')
  {
    var next := AfterBreak(text, k);
    assert next == k + 1 ==> text[k..next] == [text[k]];
    assert next == k + 2 ==> text[k..next] == [text[k], text[k + 1]];
  }

  lemma FirstLineIs(text: string, k: nat)
    requires k == LineLength(text) < |text|
    ensures var next := AfterBreak(text, k); FirstLine(text, text[..k], text[k..next], text[next..])
  {
    BreakIs(text, k);
    Cut(text, k, AfterBreak(text, k));
  }

  lemma SplitsCons(text: string, line: string, b: string, rest: string, lines: seq<string>)
    requires FirstLine(text, line, b, rest) && SplitsInto(rest, lines)
    ensures SplitsInto(text, [line] + lines)
  {
    var all := [line] + lines;
    assert all[1..] == lines;
    assert FirstLine(text, all[0], b, rest) && SplitsInto(rest, all[1..]);
  }

  lemma {:induction false} SplitLinesIs(text: string)
    ensures SplitsInto(text, SplitLines(text))
    decreases |text|
  {
    var k := LineLength(text);
    if text == "" {
      assert SplitLines(text) == [];
    } else if k == |text| {
      assert SplitLines(text) == [text];
    } else {
      var next := AfterBreak(text, k);
      SplitStep(text);
      FirstLineIs(text, k);
      SplitLinesIs(text[next..]);
      SplitsCons(text, text[..k], text[k..next], text[next..], SplitLines(text[next..]));
    }
  }

  /** The kept lines are those that are not all space, each once and in order. */
  lemma {:induction false} NonBlankInOrder(lines: seq<string>) returns (ks: seq<nat>)
    ensures Increasing(ks) && forall k: nat :: k in ks <==> k < |lines| && !AllSpace(lines[k])
    ensures LinesAt(lines, ks, NonBlank(lines))
  {
    ks := [];
    if lines != [] {
      var before, line := lines[..|lines| - 1], lines[|lines| - 1];
      assert lines == before + [line];
      ks := NonBlankInOrder(before);
      LinesSnoc(before, line, ks, NonBlank(before));
      NonBlankSnoc(before, line);
      BlankIff(line);
      if !AllSpace(line) {
        LastPosition(ks, |before|);
        ks := ks + [|before|];
      }
    }
  }

  ghost predicate LinesAt(lines: seq<string>, ks: seq<nat>, kept: seq<string>) {
    |kept| == |ks| && forall i :: 0 <= i < |ks| ==> ks[i] < |lines| && kept[i] == lines[ks[i]]
  }

  lemma LinesSnoc(before: seq<string>, line: string, ks: seq<nat>, kept: seq<string>)
    requires LinesAt(before, ks, kept)
    ensures LinesAt(before + [line], ks, kept) && LinesAt(before + [line], ks + [|before|], kept + [line])
  {
  }

  // ----- the codec of single events -----

  /** `enc` may fail (SerializationError); what it prints is a good line that `dec` reads back. */
  ghost predicate CodecOk<E(!new)>(enc: E -> Option<string>, dec: string -> Option<E>) {
    forall e {:trigger enc(e)} :: enc(e).Some? ==> GoodLine(enc(e).value) && dec(enc(e).value) == Some(e)
  }

  ghost predicate Encodable<E>(enc: E -> Option<string>, events: seq<E>) {
    forall i :: 0 <= i < |events| ==> enc(events[i]).Some?
  }

  ghost function Lines<E>(enc: E -> Option<string>, events: seq<E>): (lines: seq<string>)
    requires Encodable(enc, events)
    ensures |lines| == |events|
    ensures forall i :: 0 <= i < |events| ==> lines[i] == enc(events[i]).value
  {
    seq(|events|, i requires 0 <= i < |events| => enc(events[i]).value)
  }

  /** What the lines decode to, skipping those that do not. */
  function Decode<E>(dec: string -> Option<E>, lines: seq<string>): seq<E> {
    if lines == [] then [] else
    Decode(dec, lines[..|lines| - 1]) + DecodeLine(dec, lines[|lines| - 1])
  }

  function DecodeLine<E>(dec: string -> Option<E>, line: string): seq<E> {
    var e := dec(Strip(line));
    if e.Some? then [e.value] else []
  }

  lemma DecodeSnoc<E>(dec: string -> Option<E>, before: seq<string>, line: string)
    ensures Decode(dec, before + [line]) == Decode(dec, before) + DecodeLine(dec, line)
  {
    assert (before + [line])[..|before|] == before;
  }

  /** What one more line adds: nothing when it is blank or does not decode. */
  lemma DecodeNonBlank<E>(dec: string -> Option<E>, lines: seq<string>, i: nat)
    requires i < |lines|
    ensures Decode(dec, NonBlank(lines[..i + 1])) ==
            Decode(dec, NonBlank(lines[..i])) + if Strip(lines[i]) != "" then DecodeLine(dec, lines[i]) else []
  {
    assert lines[..i + 1] == lines[..i] + [lines[i]];
    NonBlankSnoc(lines[..i], lines[i]);
    if Strip(lines[i]) != "" {
      DecodeSnoc(dec, NonBlank(lines[..i]), lines[i]);
    } else {
      assert NonBlank(lines[..i]) + [] == NonBlank(lines[..i]);
    }
  }

  ghost predicate DecodedAt<E>(dec: string -> Option<E>, lines: seq<string>, ks: seq<nat>, events: seq<E>) {
    |events| == |ks| && forall i :: 0 <= i < |ks| ==> ks[i] < |lines| && dec(Strip(lines[ks[i]])) == Some(events[i])
  }

  lemma DecodedSnoc<E>(dec: string -> Option<E>, before: seq<string>, line: string, ks: seq<nat>, events: seq<E>)
    requires DecodedAt(dec, before, ks, events)
    ensures DecodedAt(dec, before + [line], ks, events)
    ensures forall e :: dec(Strip(line)) == Some(e) ==>
              DecodedAt(dec, before + [line], ks + [|before|], events + [e])
  {
  }

  /** The lines are read as those that decode, each once and in order. */
  lemma {:induction false} DecodeInOrder<E>(dec: string -> Option<E>, lines: seq<string>) returns (ks: seq<nat>)
    ensures Increasing(ks) && forall k: nat :: k in ks <==> k < |lines| && dec(Strip(lines[k])).Some?
    ensures DecodedAt(dec, lines, ks, Decode(dec, lines))
  {
    ks := [];
    if lines != [] {
      var before, line := lines[..|lines| - 1], lines[|lines| - 1];
      assert lines == before + [line];
      ks := DecodeInOrder(dec, before);
      DecodedSnoc(dec, before, line, ks, Decode(dec, before));
      DecodeSnoc(dec, before, line);
      if dec(Strip(line)).Some? {
        LastPosition(ks, |before|);
        ks := ks + [|before|];
      }
    }
  }

  lemma GoodEncoding<E(!new)>(enc: E -> Option<string>, dec: string -> Option<E>, events: seq<E>)
    requires CodecOk(enc, dec) && Encodable(enc, events)
    ensures GoodLines(Lines(enc, events))
  {
    var lines := Lines(enc, events);
    forall line | line in lines ensures GoodLine(line) {
      var i :| 0 <= i < |lines| && lines[i] == line;
      assert enc(events[i]).Some?;
    }
  }

  lemma {:induction false} DecodeLines<E(!new)>(enc: E -> Option<string>, dec: string -> Option<E>, events: seq<E>)
    requires CodecOk(enc, dec) && Encodable(enc, events)
    ensures Decode(dec, Lines(enc, events)) == events
  {
    if events != [] {
      var before, e, lines := events[..|events| - 1], events[|events| - 1], Lines(enc, events);
      assert lines[..|lines| - 1] == Lines(enc, before);
      assert enc(e).Some?;
      StripGood(enc(e).value);
      DecodeLines(enc, dec, before);
      assert events == before + [e];
    }
  }

  // ----- batches -----

  function JoinLines(lines: seq<string>): string {
    if lines == [] then "" else
    if |lines| == 1 then lines[0] else JoinLines(lines[..|lines| - 1]) + "\n" + lines[|lines| - 1]
  }

  /** Joining with newlines and closing with one gives each line its newline. */
  lemma {:induction false} JoinIsUnlines(lines: seq<string>)
    requires lines != []
    ensures JoinLines(lines) + "\n" == Unlines(lines)
  {
    var before, last := lines[..|lines| - 1], lines[|lines| - 1];
    assert lines == before + [last];
    UnlinesConcat(before, [last]);
    assert Unlines([last]) == last + "\n";
    if before != [] {
      JoinIsUnlines(before);
    } else {
      assert lines == [last];
    }
  }

  /** Err stands for the SerializationError of the first event that cannot be printed. */
  method SerializeBatch<E>(enc: E -> Option<string>, events: seq<E>) returns (text: Result<string, nat>)
    ensures text.Ok? <==> Encodable(enc, events)
    ensures text.Ok? ==> text.value == Unlines(Lines(enc, events))
    ensures text.Err? ==> text.error < |events| && enc(events[text.error]).None? && Encodable(enc, events[..text.error])
  {
    var lines: seq<string> := [];
    for i := 0 to |events|
      invariant Encodable(enc, events[..i])
      invariant lines == Lines(enc, events[..i])
    {
      var line := enc(events[i]);
      if line.None? {
        return Err(i);
      }
      lines := lines + [line.value];
    }
    assert events[..|events|] == events;
    if lines == [] {
      return Ok("");
    }
    JoinIsUnlines(lines);
    return Ok(JoinLines(lines) + "\n");
  }

  /** Blank lines are skipped, and so are the lines that fail to decode. */
  method DeserializeBatch<E>(dec: string -> Option<E>, raw: string) returns (events: seq<E>)
    ensures events == Decode(dec, NonBlank(SplitLines(raw)))
  {
    var lines := SplitLines(raw);
    events := [];
    for i := 0 to |lines|
      invariant events == Decode(dec, NonBlank(lines[..i]))
    {
      var line := Strip(lines[i]);
      DecodeNonBlank(dec, lines, i);
      if line == "" {
        continue;
      }
      var event := dec(line);
      if event.Some? {
        events := events + [event.value];
      }
    }
    assert lines[..|lines|] == lines;
  }

  /** Reading a printed batch gives the batch back. */
  lemma BatchRoundTrip<E(!new)>(enc: E -> Option<string>, dec: string -> Option<E>, events: seq<E>)
    requires CodecOk(enc, dec) && Encodable(enc, events)
    ensures SplitLines(Unlines(Lines(enc, events))) == NonBlank(SplitLines(Unlines(Lines(enc, events)))) ==
            Lines(enc, events)
    ensures Decode(dec, NonBlank(SplitLines(Unlines(Lines(enc, events))))) == events
  {
    GoodEncoding(enc, dec, events);
    SplitUnlines(Lines(enc, events));
    NonBlankGood(Lines(enc, events));
    DecodeLines(enc, dec, events);
  }

  /** The text of a concatenation is the concatenation of the texts, so logs can grow by appending. */
  lemma BatchConcat<E>(enc: E -> Option<string>, a: seq<E>, b: seq<E>)
    requires Encodable(enc, a) && Encodable(enc, b)
    ensures Encodable(enc, a + b)
    ensures Unlines(Lines(enc, a + b)) == Unlines(Lines(enc, a)) + Unlines(Lines(enc, b))
  {
    assert Lines(enc, a + b) == Lines(enc, a) + Lines(enc, b);
    UnlinesConcat(Lines(enc, a), Lines(enc, b));
  }
}
