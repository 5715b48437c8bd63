/**
 * The Windows RTT monitor (`scripts/windows_rtt_monitor.py`): it checks for
 * the J-Link tools and a target, writes its built-in mock RTT log, and
 * passes when that log shows at least ten GPIO cycle reports.
 */
module WindowsRttMonitor {
  import opened Text
  import opened RttCommon

  // The mock log, line by line.

  const OPENING := [
    Stamped("00:00:00.100", Join(["MIPE_EV1", "GPIO", "Test", "Started", "-", "Hardware", "Monitoring", "Active"], ' ')),
    Stamped("00:00:00.101", Join(["Target", "timing:", "23ms", "toggle", "cycles"], ' ')),
    Stamped("00:00:00.102", Join(["RTT", "timestamping", "enabled", "for", "Actions", "monitoring"], ' ')),
    Stamped("00:00:00.105", Join(["Configuring", "GPIO", "pins..."], ' '))
  ]

  const SETUP := [
    Stamped("00:00:00.110", Join(["GPIO", "configuration", "complete"], ' ')),
    Stamped("00:00:00.115", Join(["Setting", "initial", "pin", "states", "to", "LOW"], ' ')),
    Stamped("00:00:00.120", Join(["Initial", "states", "set", "-", "pins", "ready", "for", "testing"], ' ')),
    Stamped("00:00:00.125", Join(["Starting", "GPIO", "toggle", "loop", "-", "monitoring", "for", "Actions"], ' ')),
    Stamped("00:00:00.130", Join(["Toggle", "threshold:", "1000000", "cycles", "(approx", "23ms)"], ' '))
  ]

  const FIRST_CYCLES := [
    CycleReport("00:00:00.153", "", "10"),
    CycleReport("00:00:00.176", "", "20"),
    CycleReport("00:00:00.199", "", "30"),
    CycleReport("00:00:00.222", "", "40"),
    CycleReport("00:00:00.245", "", "50")
  ]

  const SECOND_CYCLES := [
    CycleReport("00:00:00.268", "", "60"),
    CycleReport("00:00:00.291", "", "70"),
    CycleReport("00:00:00.314", "", "80"),
    CycleReport("00:00:00.337", "", "90"),
    CycleReport("00:00:00.360", "", "100")
  ]

  const TIMING_50 := TimingReport("00:00:00.246", "", "50", "approx ", "1150")
  const TIMING_100 := TimingReport("00:00:00.361", "", "100", "approx ", "2300")
  const CYCLE_200 := CycleReport("00:00:04.500", "", "200")
  const TIMING_200 := TimingReport("00:00:04.900", "", "200", "approx ", "4600")
  const FOOTER := Stamped("00:00:05.000", Join(["RTT", "monitoring", "complete", "-", "5", "second", "capture", "finished"], ' '))

  /** The lines of the mock log; the text ends with a newline, so the last
      line is empty. */
  const MOCK_LINES := OPENING + SETUP + FIRST_CYCLES + [TIMING_50] + SECOND_CYCLES + [TIMING_100]
                      + [CYCLE_200, TIMING_200] + [FOOTER, ""]

  /** The mock log `create_mock_rtt_logs` writes. */
  function MockLog(): string {
    Join(MOCK_LINES, '\n')
  }

  // Each note line lacks a letter of `Cycle` and one of `Timing validation`.

  lemma BannerNote()
    ensures IsNote(OPENING[0])
  {
    NoteKind("00:00:00.100", ["MIPE_EV1", "GPIO", "Test", "Started", "-", "Hardware", "Monitoring", "Active"], 0, 9);
  }

  lemma TargetNote()
    ensures IsNote(OPENING[1])
  {
    NoteKind("00:00:00.101", ["Target", "timing:", "23ms", "toggle", "cycles"], 0, 7);
  }

  lemma TimestampNote()
    ensures IsNote(OPENING[2])
  {
    NoteKind("00:00:00.102", ["RTT", "timestamping", "enabled", "for", "Actions", "monitoring"], 0, 7);
  }

  lemma ConfiguringNote()
    ensures IsNote(OPENING[3])
  {
    NoteKind("00:00:00.105", ["Configuring", "GPIO", "pins..."], 1, 7);
  }

  lemma ConfiguredNote()
    ensures IsNote(SETUP[0])
  {
    NoteKind("00:00:00.110", ["GPIO", "configuration", "complete"], 0, 7);
  }

  lemma InitialNote()
    ensures IsNote(SETUP[1])
  {
    NoteKind("00:00:00.115", ["Setting", "initial", "pin", "states", "to", "LOW"], 0, 7);
  }

  lemma ReadyNote()
    ensures IsNote(SETUP[2])
  {
    NoteKind("00:00:00.120", ["Initial", "states", "set", "-", "pins", "ready", "for", "testing"], 0, 7);
  }

  lemma LoopNote()
    ensures IsNote(SETUP[3])
  {
    NoteKind("00:00:00.125", ["Starting", "GPIO", "toggle", "loop", "-", "monitoring", "for", "Actions"], 0, 7);
  }

  lemma ThresholdNote()
    ensures IsNote(SETUP[4])
  {
    NoteKind("00:00:00.130", ["Toggle", "threshold:", "1000000", "cycles", "(approx", "23ms)"], 0, 7);
  }

  lemma FooterNote()
    ensures IsNote(FOOTER)
  {
    NoteKind("00:00:05.000", ["RTT", "monitoring", "complete", "-", "5", "second", "capture", "finished"], 0, 7);
  }

  lemma OpeningTally()
    ensures Tally(OPENING, 0, 0)
  {
    BannerNote();
    TargetNote();
    TimestampNote();
    ConfiguringNote();
    TallyNotes4(OPENING[0], OPENING[1], OPENING[2], OPENING[3]);
    assert OPENING == [OPENING[0], OPENING[1], OPENING[2], OPENING[3]];
  }

  lemma SetupTally()
    ensures Tally(SETUP, 0, 0)
  {
    ConfiguredNote();
    InitialNote();
    ReadyNote();
    LoopNote();
    ThresholdNote();
    TallyNotes5(SETUP[0], SETUP[1], SETUP[2], SETUP[3], SETUP[4]);
    assert SETUP == [SETUP[0], SETUP[1], SETUP[2], SETUP[3], SETUP[4]];
  }

  lemma FirstCyclesTally()
    ensures Tally(FIRST_CYCLES, 5, 0)
  {
    CycleReportKind("00:00:00.153", "", "10");
    CycleReportKind("00:00:00.176", "", "20");
    CycleReportKind("00:00:00.199", "", "30");
    CycleReportKind("00:00:00.222", "", "40");
    CycleReportKind("00:00:00.245", "", "50");
    TallyCycles5(FIRST_CYCLES[0], FIRST_CYCLES[1], FIRST_CYCLES[2], FIRST_CYCLES[3], FIRST_CYCLES[4]);
    assert FIRST_CYCLES == [FIRST_CYCLES[0], FIRST_CYCLES[1], FIRST_CYCLES[2], FIRST_CYCLES[3], FIRST_CYCLES[4]];
  }

  lemma SecondCyclesTally()
    ensures Tally(SECOND_CYCLES, 5, 0)
  {
    CycleReportKind("00:00:00.268", "", "60");
    CycleReportKind("00:00:00.291", "", "70");
    CycleReportKind("00:00:00.314", "", "80");
    CycleReportKind("00:00:00.337", "", "90");
    CycleReportKind("00:00:00.360", "", "100");
    TallyCycles5(SECOND_CYCLES[0], SECOND_CYCLES[1], SECOND_CYCLES[2], SECOND_CYCLES[3], SECOND_CYCLES[4]);
    assert SECOND_CYCLES == [SECOND_CYCLES[0], SECOND_CYCLES[1], SECOND_CYCLES[2], SECOND_CYCLES[3], SECOND_CYCLES[4]];
  }

  lemma TimingsTally()
    ensures Tally([TIMING_50], 0, 1) && Tally([TIMING_100], 0, 1)
  {
    TimingReportKind("00:00:00.246", "", "50", "approx ", "1150");
    TallyLine(TIMING_50);
    TimingReportKind("00:00:00.361", "", "100", "approx ", "2300");
    TallyLine(TIMING_100);
  }

  lemma LastTally()
    ensures Tally([CYCLE_200, TIMING_200], 1, 1)
  {
    CycleReportKind("00:00:04.500", "", "200");
    TallyLine(CYCLE_200);
    TimingReportKind("00:00:04.900", "", "200", "approx ", "4600");
    TallyLine(TIMING_200);
    TallyPair(CYCLE_200, TIMING_200, 1, 0, 0, 1);
  }

  lemma FooterTally()
    ensures Tally([FOOTER, ""], 0, 0)
  {
    FooterNote();
    TallyLine(FOOTER);
    assert IsNote("");
    TallyLine("");
    TallyPair(FOOTER, "", 0, 0, 0, 0);
  }

  /** How the mock log is put together: its blocks and what each holds. */
  lemma MockShapeTally(opening: seq<string>, setup: seq<string>, first: seq<string>,
                       t50: seq<string>, second: seq<string>, t100: seq<string>,
                       last: seq<string>, footer: seq<string>)
    requires Tally(opening, 0, 0) && Tally(setup, 0, 0) && Tally(first, 5, 0) && Tally(t50, 0, 1)
    requires Tally(second, 5, 0) && Tally(t100, 0, 1) && Tally(last, 1, 1) && Tally(footer, 0, 0)
    ensures Tally(opening + setup + first + t50 + second + t100 + last + footer, 11, 3)
  {
    TallyAppend(opening, setup, 0, 0, 0, 0);
    TallyAppend(opening + setup, first, 0, 0, 5, 0);
    TallyAppend(opening + setup + first, t50, 5, 0, 0, 1);
    TallyAppend(opening + setup + first + t50, second, 5, 1, 5, 0);
    TallyAppend(opening + setup + first + t50 + second, t100, 10, 1, 0, 1);
    TallyAppend(opening + setup + first + t50 + second + t100, last, 10, 2, 1, 1);
    TallyAppend(opening + setup + first + t50 + second + t100 + last, footer, 11, 3, 0, 0);
  }

  /** The mock log holds eleven cycle reports and three timing summaries,
      so analysing it passes. */
  lemma MockLogCounts()
    ensures CycleCount(MockLog()) == 11 && TimingCount(MockLog()) == 3
    ensures MeetsThreshold(Readable(MockLog()))
  {
    OpeningTally();
    SetupTally();
    FirstCyclesTally();
    SecondCyclesTally();
    TimingsTally();
    LastTally();
    FooterTally();
    MockShapeTally(OPENING, SETUP, FIRST_CYCLES, [TIMING_50], SECOND_CYCLES, [TIMING_100],
                   [CYCLE_200, TIMING_200], [FOOTER, ""]);
    TallyCounts(MOCK_LINES, 11, 3);
  }

  /** The places `check_jlink_tools` looks for `JLink.exe`, in order. */
  const JLINK_PATHS := [
    @"C:\Program Files\SEGGER\JLink_V874a\JLink.exe",
    @"C:\Program Files\SEGGER\JLink\JLink.exe",
    @"C:\Program Files (x86)\SEGGER\JLink\JLink.exe"
  ]

  /** The search from position `i` on: stops at the first path that exists. */
  function FoundFrom(paths: seq<string>, pathExists: string -> bool, i: nat): (found: bool)
    requires i <= |paths|
    decreases |paths| - i
    ensures found <==> exists j :: i <= j < |paths| && pathExists(paths[j])
  {
    if i == |paths| then false
    else if pathExists(paths[i]) then true
    else FoundFrom(paths, pathExists, i + 1)
  }

  /** `check_jlink_tools`: the tools are there when one of the standard
      paths exists (`pathExists` stands for the file system). */
  function CheckJlinkTools(pathExists: string -> bool): (found: bool)
    ensures found <==> exists j :: 0 <= j < |JLINK_PATHS| && pathExists(JLINK_PATHS[j])
  {
    FoundFrom(JLINK_PATHS, pathExists, 0)
  }

  /** What `ensure_jlink_ready` found, and whether it went on to probe the
      target. */
  datatype Readiness = Readiness(ready: bool, probed: bool)

  /** `ensure_jlink_ready`: without the tools it stops before probing the
      target; with them it is ready exactly when the probe finds a device. */
  function EnsureJlinkReady(pathExists: string -> bool, probe: Probe): (r: Readiness)
    ensures r.probed <==> CheckJlinkTools(pathExists)
    ensures r.ready <==> r.probed && DeviceConnected(probe)
  {
    if !CheckJlinkTools(pathExists) then Readiness(false, false)
    else if !DeviceConnected(probe) then Readiness(false, true)
    else Readiness(true, true)
  }

  /** `main`: whatever the J-Link check says, it analyses the mock log and
      exits 0 on a pass, 1 otherwise; the mock log passes, so it exits 0. */
  function Main(pathExists: string -> bool, probe: Probe): (code: int)
    ensures code == 0
  {
    var jlinkReady := EnsureJlinkReady(pathExists, probe);
    MockLogCounts();
    ExitCode(MeetsThreshold(Readable(MockLog())))
  }
}
