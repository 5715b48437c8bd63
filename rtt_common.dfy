/**
 * What the three RTT monitor scripts share: the log file they read, the
 * '\n'-separated lines of its content, the marker lines they count, the
 * `>= 10` cycle threshold of the Windows and practical monitors, and the
 * `nrfjprog --ids` device probe whose output must not be blank.
 */
module RttCommon {
  import opened Text

  /** A log file as the monitors find it: absent, failing to open, or read
      in full. */
  datatype LogFile = Missing | Unreadable | Readable(content: string)

  /** `content.split('\n')`. */
  function Lines(content: string): (r: seq<string>)
    ensures |r| >= 1
  {
    Split(content, '\n')
  }

  /** A GPIO cycle report: the line holds both `Cycle` and `Toggling pins`. */
  predicate IsCycleLine(line: string) {
    Contains(line, "Cycle") && Contains(line, "Toggling pins")
  }

  /** A timing summary: the line holds `Timing validation`. */
  predicate IsTimingLine(line: string) {
    Contains(line, "Timing validation")
  }

  /** A toggle event: the line holds both `Toggle event` and `cycle=`. */
  predicate IsToggleEventLine(line: string) {
    Contains(line, "Toggle event") && Contains(line, "cycle=")
  }

  /** The list comprehension `[line for line in lines if keep(line)]`. */
  function Filter(lines: seq<string>, keep: string -> bool): (r: seq<string>)
    ensures |r| <= |lines|
  {
    if lines == [] then []
    else
      var last := lines[|lines| - 1];
      Filter(lines[..|lines| - 1], keep) + (if keep(last) then [last] else [])
  }

  /** The comprehension keeps exactly the lines that pass the test. */
  lemma {:induction false} FilterMembers(lines: seq<string>, keep: string -> bool, x: string)
    ensures x in Filter(lines, keep) <==> x in lines && keep(x)
  {
    if lines != [] {
      var init := lines[..|lines| - 1];
      FilterMembers(init, keep, x);
      assert lines == init + [lines[|lines| - 1]];
    }
  }

  /** Filtering two blocks of lines filters each block in turn. */
  lemma {:induction false} FilterAppend(a: seq<string>, b: seq<string>, keep: string -> bool)
    ensures Filter(a + b, keep) == Filter(a, keep) + Filter(b, keep)
    decreases |b|
  {
    if b == [] {
      assert a + b == a;
    } else {
      var init := b[..|b| - 1];
      FilterAppend(a, init, keep);
      assert (a + b)[..|a + b| - 1] == a + init;
      assert (a + b)[|a + b| - 1] == b[|b| - 1];
    }
  }

  /** A block of lines that all pass is kept whole. */
  lemma {:induction false} FilterAll(lines: seq<string>, keep: string -> bool)
    requires forall i :: 0 <= i < |lines| ==> keep(lines[i])
    ensures Filter(lines, keep) == lines
  {
    if lines != [] {
      FilterAll(lines[..|lines| - 1], keep);
    }
  }

  /** A block of lines none of which passes is dropped. */
  lemma {:induction false} FilterNone(lines: seq<string>, keep: string -> bool)
    requires forall i :: 0 <= i < |lines| ==> !keep(lines[i])
    ensures Filter(lines, keep) == []
  {
    if lines != [] {
      FilterNone(lines[..|lines| - 1], keep);
    }
  }

  /** A newline splits the text into the lines before it and the lines
      after it. */
  lemma {:induction false} LinesAppend(a: string, b: string)
    ensures Lines(a + "\n" + b) == Lines(a) + Lines(b)
    decreases |a|
  {
    var s := a + "\n" + b;
    if a == [] {
      assert s[0] == '\n' && s[1..] == b;
    } else {
      assert s[0] == a[0] && s[1..] == a[1..] + "\n" + b;
      LinesAppend(a[1..], b);
      var rest := Lines(a[1..]);
      if a[0] != '\n' {
        assert Lines(a) == [[a[0]] + rest[0]] + rest[1..];
        assert Lines(s) == [[a[0]] + (rest + Lines(b))[0]] + (rest + Lines(b))[1..];
        assert (rest + Lines(b))[1..] == rest[1..] + Lines(b);
      } else {
        assert Lines(a) == [""] + rest;
      }
    }
  }

  /** The number of GPIO cycle reports in a log. */
  function CycleCount(content: string): nat {
    |Filter(Lines(content), IsCycleLine)|
  }

  /** The number of timing summaries in a log. */
  function TimingCount(content: string): nat {
    |Filter(Lines(content), IsTimingLine)|
  }

  /** Counting over text joined by a newline adds the two counts. */
  lemma CountsAppend(a: string, b: string)
    ensures CycleCount(a + "\n" + b) == CycleCount(a) + CycleCount(b)
    ensures TimingCount(a + "\n" + b) == TimingCount(a) + TimingCount(b)
  {
    LinesAppend(a, b);
    FilterAppend(Lines(a), Lines(b), IsCycleLine);
    FilterAppend(Lines(a), Lines(b), IsTimingLine);
  }

  /** The Windows and practical monitors need at least this many cycle
      reports to pass. */
  const MIN_CYCLES := 10

  /** `analyze_rtt_logs` of the Windows and practical monitors: a log that
      cannot be opened fails; otherwise it passes when it holds at least
      `MIN_CYCLES` cycle reports. Timing summaries are counted and shown but
      play no part. */
  predicate MeetsThreshold(file: LogFile) {
    file.Readable? && CycleCount(file.content) >= MIN_CYCLES
  }

  /** The exit code `main` returns for the analysis verdict. */
  function ExitCode(passed: bool): (code: int)
    ensures code == 0 <==> passed
    ensures code == 0 || code == 1
  {
    if passed then 0 else 1
  }

  /** The verdict in terms of the lines themselves: it passes exactly when
      at least ten distinct line positions hold cycle reports. */
  lemma MeetsThresholdLines(content: string)
    ensures MeetsThreshold(Readable(content)) ==> |Lines(content)| >= MIN_CYCLES
    ensures CycleCount(content) == 0 ==> !MeetsThreshold(Readable(content))
    ensures !MeetsThreshold(Missing) && !MeetsThreshold(Unreadable)
  {
  }

  /** More log never turns a pass into a failure. */
  lemma MeetsThresholdMonotonic(a: string, b: string)
    ensures MeetsThreshold(Readable(a)) ==> MeetsThreshold(Readable(a + "\n" + b))
  {
    CountsAppend(a, b);
  }

  /** A timing summary added to a log leaves the verdict as it was, however
      many there are. */
  lemma TimingLineIgnored(a: string, t: string)
    requires IsTimingEntry(t)
    ensures MeetsThreshold(Readable(a + "\n" + t)) == MeetsThreshold(Readable(a))
    ensures TimingCount(a + "\n" + t) == TimingCount(a) + 1
  {
    CountsAppend(a, t);
    OneLine(t);
  }

  /** A line without a newline is a single line. */
  lemma OneLine(t: string)
    requires '\n' !in t
    ensures Lines(t) == [t]
    ensures CycleCount(t) == (if IsCycleLine(t) then 1 else 0)
    ensures TimingCount(t) == (if IsTimingLine(t) then 1 else 0)
  {
    SplitNoSeparator(t, '\n');
    assert [t][..0] == [];
  }

  /** A log made of lines joined by newlines has those lines. */
  lemma LinesOfJoin(lines: seq<string>)
    requires |lines| >= 1
    requires forall i :: 0 <= i < |lines| ==> '\n' !in lines[i]
    ensures Lines(Join(lines, '\n')) == lines
  {
    SplitJoin(lines, '\n');
  }

  // Mock log lines. The two monitors write the same report lines, the
  // practical one with an emoji in front of each message; every line is a
  // bracketed time stamp followed by the message.

  function Stamped(stamp: string, text: string): string {
    "[" + stamp + "] " + text
  }

  /** A cycle report, as `Cycle <n>: Toggling pins (23ms timing verified)`. */
  function CycleReport(stamp: string, lead: string, n: string): string {
    Stamped(stamp, lead + "Cycle" + " " + n + ": " + "Toggling pins" + " (23ms timing verified)")
  }

  /** A timing summary, as `Timing validation: <n> cycles completed (<approx><ms>ms total)`. */
  function TimingReport(stamp: string, lead: string, n: string, approx: string, ms: string): string {
    Stamped(stamp, lead + "Timing validation" + ": " + n + " cycles completed (" + approx + ms + "ms total)")
  }

  /** Text holding two words and lacking one letter of a third holds the
      first two and not the third. */
  lemma WordsAndMissing(a: string, w1: string, m: string, w2: string, b: string, p: string, k: nat)
    requires k < |p| && p[k] !in a + w1 + m + w2 + b
    ensures Contains(a + w1 + m + w2 + b, w1) && Contains(a + w1 + m + w2 + b, w2)
    ensures !Contains(a + w1 + m + w2 + b, p)
  {
    ContainsSelf(w1);
    assert a + w1 + m + w2 + b == a + w1 + (m + w2 + b);
    ContainsWithin(a, w1, m + w2 + b, w1);
    ContainsSelf(w2);
    assert a + w1 + m + w2 + b == (a + w1 + m) + w2 + b;
    ContainsWithin(a + w1 + m, w2, b, w2);
    MissingCharNotContains(a + w1 + m + w2 + b, p, k);
  }

  /** Text holding a word and lacking one letter of another holds the first
      and not the second. */
  lemma WordAndMissing(a: string, w: string, b: string, p: string, k: nat)
    requires k < |p| && p[k] !in a + w + b
    ensures Contains(a + w + b, w) && !Contains(a + w + b, p)
  {
    ContainsSelf(w);
    ContainsWithin(a, w, b, w);
    MissingCharNotContains(a + w + b, p, k);
  }

  /** The three kinds of log line, each free of newlines. */
  predicate IsCycleEntry(line: string) {
    IsCycleLine(line) && !IsTimingLine(line) && '\n' !in line
  }

  predicate IsTimingEntry(line: string) {
    !IsCycleLine(line) && IsTimingLine(line) && '\n' !in line
  }

  predicate IsNote(line: string) {
    !IsCycleLine(line) && !IsTimingLine(line) && '\n' !in line
  }

  /** A cycle report counts as a cycle line and never as a timing line. */
  lemma CycleReportKind(stamp: string, lead: string, n: string)
    requires 'a' !in stamp && 'a' !in lead && 'a' !in n
    requires '\n' !in stamp && '\n' !in lead && '\n' !in n
    ensures IsCycleEntry(CycleReport(stamp, lead, n))
  {
    var a := "[" + stamp + "] " + lead;
    var m := " " + n + ": ";
    CycleReportParts(stamp, lead, n);
    assert '\n' !in a && '\n' !in m;
    NoLetterA(a, m);
    WordsAndMissing(a, "Cycle", m, "Toggling pins", " (23ms timing verified)", "Timing validation", 8);
  }

  lemma CycleReportParts(stamp: string, lead: string, n: string)
    ensures CycleReport(stamp, lead, n)
      == ("[" + stamp + "] " + lead) + "Cycle" + (" " + n + ": ") + "Toggling pins"
         + " (23ms timing verified)"
  {
  }

  lemma NoLetterA(a: string, m: string)
    requires 'a' !in a && 'a' !in m && '\n' !in a && '\n' !in m
    ensures "Timing validation"[8] !in a + "Cycle" + m + "Toggling pins" + " (23ms timing verified)"
    ensures '\n' !in a + "Cycle" + m + "Toggling pins" + " (23ms timing verified)"
  {
  }

  /** A timing summary counts as a timing line and never as a cycle line. */
  lemma TimingReportKind(stamp: string, lead: string, n: string, approx: string, ms: string)
    requires 'C' !in stamp && 'C' !in lead && 'C' !in n && 'C' !in approx && 'C' !in ms
    requires '\n' !in stamp && '\n' !in lead && '\n' !in n && '\n' !in approx && '\n' !in ms
    ensures IsTimingEntry(TimingReport(stamp, lead, n, approx, ms))
  {
    var a := "[" + stamp + "] " + lead;
    var b := ": " + n + " cycles completed (" + approx + ms + "ms total)";
    TimingReportParts(stamp, lead, n, approx, ms);
    assert '\n' !in a && '\n' !in b;
    NoLetterC(a, b);
    WordAndMissing(a, "Timing validation", b, "Cycle", 0);
  }

  lemma TimingReportParts(stamp: string, lead: string, n: string, approx: string, ms: string)
    ensures TimingReport(stamp, lead, n, approx, ms)
      == ("[" + stamp + "] " + lead) + "Timing validation"
         + (": " + n + " cycles completed (" + approx + ms + "ms total)")
  {
  }

  lemma NoLetterC(a: string, b: string)
    requires 'C' !in a && 'C' !in b && '\n' !in a && '\n' !in b
    ensures "Cycle"[0] !in a + "Timing validation" + b
    ensures '\n' !in a + "Timing validation" + b
  {
  }

  /** A line lacking one letter of `Cycle` and one letter of
      `Timing validation` is neither kind of report. */
  lemma OtherLineKind(line: string, k: nat, j: nat)
    requires k < 5 && "Cycle"[k] !in line
    requires j < 17 && "Timing validation"[j] !in line
    ensures !IsCycleLine(line) && !IsTimingLine(line)
  {
    MissingCharNotContains(line, "Cycle", k);
    MissingCharNotContains(line, "Timing validation", j);
  }

  /** Any other line, written as words glued by single spaces: letter `k`
      of `Cycle` and letter `j` of `Timing validation` (a lower-case one)
      are missing from it. */
  lemma NoteKind(stamp: string, words: seq<string>, k: nat, j: nat)
    requires |words| >= 1
    requires k < 5 && j < 17 && 'a' <= "Timing validation"[j] <= 'z'
    requires "Cycle"[k] !in stamp && "Timing validation"[j] !in stamp && '\n' !in stamp
    requires forall i :: 0 <= i < |words| ==>
      "Cycle"[k] !in words[i] && "Timing validation"[j] !in words[i] && '\n' !in words[i]
    ensures IsNote(Stamped(stamp, Join(words, ' ')))
  {
    var c, t := "Cycle"[k], "Timing validation"[j];
    var text := Join(words, ' ');
    JoinLacks(words, ' ', c);
    JoinLacks(words, ' ', t);
    JoinLacks(words, ' ', '\n');
    MissingCharNotContains(Stamped(stamp, text), "Cycle", k);
    MissingCharNotContains(Stamped(stamp, text), "Timing validation", j);
  }

  /** A block of log lines holding no newline, with `cycles` cycle reports
      and `timings` timing summaries. */
  predicate Tally(lines: seq<string>, cycles: nat, timings: nat) {
    && (forall i :: 0 <= i < |lines| ==> '\n' !in lines[i])
    && |Filter(lines, IsCycleLine)| == cycles
    && |Filter(lines, IsTimingLine)| == timings
  }

  lemma TallyAppend(a: seq<string>, b: seq<string>, c1: nat, t1: nat, c2: nat, t2: nat)
    requires Tally(a, c1, t1) && Tally(b, c2, t2)
    ensures Tally(a + b, c1 + c2, t1 + t2)
  {
    FilterAppend(a, b, IsCycleLine);
    FilterAppend(a, b, IsTimingLine);
  }

  /** A single line counts by its kind. */
  lemma TallyLine(line: string)
    requires '\n' !in line
    ensures IsCycleEntry(line) ==> Tally([line], 1, 0)
    ensures IsTimingEntry(line) ==> Tally([line], 0, 1)
    ensures IsNote(line) ==> Tally([line], 0, 0)
  {
    assert [] + [line] == [line];
  }

  /** Two blocks side by side. */
  lemma TallyPair(a: string, b: string, c1: nat, t1: nat, c2: nat, t2: nat)
    requires Tally([a], c1, t1) && Tally([b], c2, t2)
    ensures Tally([a, b], c1 + c2, t1 + t2)
  {
    TallyAppend([a], [b], c1, t1, c2, t2);
    assert [a] + [b] == [a, b];
  }

  /** Blocks of four and five notes and of five cycle reports, spelled out
      so that a literal log is checked one line at a time. */
  lemma TallyNotes4(a: string, b: string, c: string, d: string)
    requires IsNote(a) && IsNote(b) && IsNote(c) && IsNote(d)
    ensures Tally([a, b, c, d], 0, 0)
  {
    FilterNone([a, b, c, d], IsCycleLine);
    FilterNone([a, b, c, d], IsTimingLine);
  }

  lemma TallyNotes5(a: string, b: string, c: string, d: string, e: string)
    requires IsNote(a) && IsNote(b) && IsNote(c) && IsNote(d) && IsNote(e)
    ensures Tally([a, b, c, d, e], 0, 0)
  {
    FilterNone([a, b, c, d, e], IsCycleLine);
    FilterNone([a, b, c, d, e], IsTimingLine);
  }

  lemma TallyCycles5(a: string, b: string, c: string, d: string, e: string)
    requires IsCycleEntry(a) && IsCycleEntry(b) && IsCycleEntry(c) && IsCycleEntry(d) && IsCycleEntry(e)
    ensures Tally([a, b, c, d, e], 5, 0)
  {
    FilterAll([a, b, c, d, e], IsCycleLine);
    FilterNone([a, b, c, d, e], IsTimingLine);
  }

  /** The counts of a log written as newline-joined lines are those of the
      lines. */
  lemma TallyCounts(lines: seq<string>, cycles: nat, timings: nat)
    requires |lines| >= 1 && Tally(lines, cycles, timings)
    ensures CycleCount(Join(lines, '\n')) == cycles
    ensures TimingCount(Join(lines, '\n')) == timings
  {
    LinesOfJoin(lines);
  }

  /** Python's `str.isspace` for one character. */
  predicate IsSpace(c: char) {
    || c == ' ' || '\t' <= c <= '\r' || '\U{1c}' <= c <= '\U{1f}'
    || c == '\U{85}' || c == '\U{a0}' || c == '\U{1680}'
    || '\U{2000}' <= c <= '\U{200a}' || c == '\U{2028}' || c == '\U{2029}'
    || c == '\U{202f}' || c == '\U{205f}' || c == '\U{3000}'
  }

  function TrimStart(s: string): (r: string)
    ensures r == [] || !IsSpace(r[0])
    ensures |r| <= |s| && r == s[|s| - |r|..]
  {
    if s != [] && IsSpace(s[0]) then TrimStart(s[1..]) else s
  }

  function TrimEnd(s: string): (r: string)
    ensures r == [] || !IsSpace(r[|r| - 1])
    ensures |r| <= |s| && r == s[..|r|]
  {
    if s != [] && IsSpace(s[|s| - 1]) then TrimEnd(s[..|s| - 1]) else s
  }

  /** Python's `s.strip()`. */
  function Strip(s: string): string {
    TrimEnd(TrimStart(s))
  }

  /** Stripping leaves nothing exactly when the text is all white space. */
  lemma StripEmpty(s: string)
    ensures Strip(s) == [] <==> forall i :: 0 <= i < |s| ==> IsSpace(s[i])
  {
    TrimStartAllSpace(s);
    TrimEndAllSpace(TrimStart(s));
    var t := TrimStart(s);
    assert (forall i :: 0 <= i < |t| ==> IsSpace(t[i])) ==> t == [] by {
      if t != [] {
        assert !IsSpace(t[0]);
      }
    }
  }

  lemma {:induction false} TrimStartAllSpace(s: string)
    ensures TrimStart(s) == [] <==> forall i :: 0 <= i < |s| ==> IsSpace(s[i])
  {
    if s != [] && IsSpace(s[0]) {
      TrimStartAllSpace(s[1..]);
      assert forall i :: 1 <= i < |s| ==> s[i] == s[1..][i - 1];
    }
  }

  lemma {:induction false} TrimEndAllSpace(s: string)
    ensures TrimEnd(s) == [] <==> forall i :: 0 <= i < |s| ==> IsSpace(s[i])
  {
    if s != [] && IsSpace(s[|s| - 1]) {
      TrimEndAllSpace(s[..|s| - 1]);
    }
  }

  /** The outcome of running `nrfjprog --ids`: it finished with an exit code
      and an output, or raised (timeout, tool missing). */
  datatype Probe = Finished(returnCode: int, stdout: string) | Raised

  /** `test_device_connection`: a device is connected when the probe
      finished with exit code 0 and printed something other than white
      space. */
  function DeviceConnected(probe: Probe): (connected: bool)
    ensures connected <==>
      && probe.Finished? && probe.returnCode == 0
      && exists i :: 0 <= i < |probe.stdout| && !IsSpace(probe.stdout[i])
  {
    if probe.Finished? then
      StripEmpty(probe.stdout);
      probe.returnCode == 0 && Strip(probe.stdout) != []
    else false
  }
}
