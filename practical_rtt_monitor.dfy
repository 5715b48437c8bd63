/**
 * The practical RTT monitor (`scripts/practical_rtt_monitor.py`): it probes
 * for a target, writes its built-in mock RTT log whatever the probe says, and
 * passes when that log shows at least ten GPIO cycle reports.
 */
module PracticalRttMonitor {
  import opened Text
  import opened RttCommon

  // The mock log, line by line; each line opens with an emoji.

  const OPENING := [
    Stamped("00:00:00.100", Join(["\U{1F680}", "MIPE_EV1", "GPIO", "Test", "Started", "-", "Hardware", "Monitoring", "Active"], ' ')),
    Stamped("00:00:00.101", Join(["\U{23F1}\U{FE0F}", "", "Target", "timing:", "23ms", "toggle", "cycles"], ' ')),
    Stamped("00:00:00.102", Join(["\U{1F4CA}", "RTT", "timestamping", "enabled", "for", "Actions", "monitoring"], ' ')),
    Stamped("00:00:00.105", Join(["\U{1F527}", "Configuring", "GPIO", "pins..."], ' '))
  ]

  const SETUP := [
    Stamped("00:00:00.110", Join(["\U{2705}", "GPIO", "configuration", "complete"], ' ')),
    Stamped("00:00:00.115", Join(["\U{1F53D}", "Setting", "initial", "pin", "states", "to", "LOW"], ' ')),
    Stamped("00:00:00.120", Join(["\U{2705}", "Initial", "states", "set", "-", "pins", "ready", "for", "testing"], ' ')),
    Stamped("00:00:00.125", Join(["\U{1F504}", "Starting", "GPIO", "toggle", "loop", "-", "monitoring", "for", "Actions"], ' ')),
    Stamped("00:00:00.130", Join(["\U{1F4C8}", "Toggle", "threshold:", "1000000", "cycles", "(\U{2248}23ms)"], ' '))
  ]

  const FIRST_CYCLES := [
    CycleReport("00:00:00.153", "\U{1F504} ", "10"),
    CycleReport("00:00:00.176", "\U{1F504} ", "20"),
    CycleReport("00:00:00.199", "\U{1F504} ", "30"),
    CycleReport("00:00:00.222", "\U{1F504} ", "40"),
    CycleReport("00:00:00.245", "\U{1F504} ", "50")
  ]

  const SECOND_CYCLES := [
    CycleReport("00:00:00.268", "\U{1F504} ", "60"),
    CycleReport("00:00:00.291", "\U{1F504} ", "70"),
    CycleReport("00:00:00.314", "\U{1F504} ", "80"),
    CycleReport("00:00:00.337", "\U{1F504} ", "90"),
    CycleReport("00:00:00.360", "\U{1F504} ", "100")
  ]

  const TIMING_50 := TimingReport("00:00:00.246", "\U{23F1}\U{FE0F}  ", "50", "\U{2248}", "1150")
  const TIMING_100 := TimingReport("00:00:00.361", "\U{23F1}\U{FE0F}  ", "100", "\U{2248}", "2300")

  /** The lines of the mock log; the text ends with a newline, so the last
      line is empty. */
  const MOCK_LINES := OPENING + SETUP + FIRST_CYCLES + [TIMING_50] + SECOND_CYCLES + [TIMING_100] + [""]

  /** The mock log `create_mock_rtt_logs` writes. */
  function MockLog(): string {
    Join(MOCK_LINES, '\n')
  }

  // Each note line lacks a letter of `Cycle` and one of `Timing validation`.

  lemma BannerNote()
    ensures IsNote(OPENING[0])
  {
    NoteKind("00:00:00.100", ["\U{1F680}", "MIPE_EV1", "GPIO", "Test", "Started", "-", "Hardware", "Monitoring", "Active"], 0, 9);
  }

  lemma TargetNote()
    ensures IsNote(OPENING[1])
  {
    NoteKind("00:00:00.101", ["\U{23F1}\U{FE0F}", "", "Target", "timing:", "23ms", "toggle", "cycles"], 0, 7);
  }

  lemma TimestampNote()
    ensures IsNote(OPENING[2])
  {
    NoteKind("00:00:00.102", ["\U{1F4CA}", "RTT", "timestamping", "enabled", "for", "Actions", "monitoring"], 0, 7);
  }

  lemma ConfiguringNote()
    ensures IsNote(OPENING[3])
  {
    NoteKind("00:00:00.105", ["\U{1F527}", "Configuring", "GPIO", "pins..."], 1, 7);
  }

  lemma ConfiguredNote()
    ensures IsNote(SETUP[0])
  {
    NoteKind("00:00:00.110", ["\U{2705}", "GPIO", "configuration", "complete"], 0, 7);
  }

  lemma InitialNote()
    ensures IsNote(SETUP[1])
  {
    NoteKind("00:00:00.115", ["\U{1F53D}", "Setting", "initial", "pin", "states", "to", "LOW"], 0, 7);
  }

  lemma ReadyNote()
    ensures IsNote(SETUP[2])
  {
    NoteKind("00:00:00.120", ["\U{2705}", "Initial", "states", "set", "-", "pins", "ready", "for", "testing"], 0, 7);
  }

  lemma LoopNote()
    ensures IsNote(SETUP[3])
  {
    NoteKind("00:00:00.125", ["\U{1F504}", "Starting", "GPIO", "toggle", "loop", "-", "monitoring", "for", "Actions"], 0, 7);
  }

  lemma ThresholdNote()
    ensures IsNote(SETUP[4])
  {
    NoteKind("00:00:00.130", ["\U{1F4C8}", "Toggle", "threshold:", "1000000", "cycles", "(\U{2248}23ms)"], 0, 7);
  }

  lemma OpeningTally()
    ensures Tally(OPENING, 0, 0)
  {
    BannerNote();
    TargetNote();
    TimestampNote();
    ConfiguringNote();
    TallyNotes4(OPENING[0], OPENING[1], OPENING[2], OPENING[3]);
    assert OPENING == [OPENING[0], OPENING[1], OPENING[2], OPENING[3]];
  }

  lemma SetupTally()
    ensures Tally(SETUP, 0, 0)
  {
    ConfiguredNote();
    InitialNote();
    ReadyNote();
    LoopNote();
    ThresholdNote();
    TallyNotes5(SETUP[0], SETUP[1], SETUP[2], SETUP[3], SETUP[4]);
    assert SETUP == [SETUP[0], SETUP[1], SETUP[2], SETUP[3], SETUP[4]];
  }

  lemma FirstCyclesTally()
    ensures Tally(FIRST_CYCLES, 5, 0)
  {
    CycleReportKind("00:00:00.153", "\U{1F504} ", "10");
    CycleReportKind("00:00:00.176", "\U{1F504} ", "20");
    CycleReportKind("00:00:00.199", "\U{1F504} ", "30");
    CycleReportKind("00:00:00.222", "\U{1F504} ", "40");
    CycleReportKind("00:00:00.245", "\U{1F504} ", "50");
    TallyCycles5(FIRST_CYCLES[0], FIRST_CYCLES[1], FIRST_CYCLES[2], FIRST_CYCLES[3], FIRST_CYCLES[4]);
    assert FIRST_CYCLES == [FIRST_CYCLES[0], FIRST_CYCLES[1], FIRST_CYCLES[2], FIRST_CYCLES[3], FIRST_CYCLES[4]];
  }

  lemma SecondCyclesTally()
    ensures Tally(SECOND_CYCLES, 5, 0)
  {
    CycleReportKind("00:00:00.268", "\U{1F504} ", "60");
    CycleReportKind("00:00:00.291", "\U{1F504} ", "70");
    CycleReportKind("00:00:00.314", "\U{1F504} ", "80");
    CycleReportKind("00:00:00.337", "\U{1F504} ", "90");
    CycleReportKind("00:00:00.360", "\U{1F504} ", "100");
    TallyCycles5(SECOND_CYCLES[0], SECOND_CYCLES[1], SECOND_CYCLES[2], SECOND_CYCLES[3], SECOND_CYCLES[4]);
    assert SECOND_CYCLES == [SECOND_CYCLES[0], SECOND_CYCLES[1], SECOND_CYCLES[2], SECOND_CYCLES[3], SECOND_CYCLES[4]];
  }

  lemma TimingsTally()
    ensures Tally([TIMING_50], 0, 1) && Tally([TIMING_100], 0, 1)
  {
    TimingReportKind("00:00:00.246", "\U{23F1}\U{FE0F}  ", "50", "\U{2248}", "1150");
    TallyLine(TIMING_50);
    TimingReportKind("00:00:00.361", "\U{23F1}\U{FE0F}  ", "100", "\U{2248}", "2300");
    TallyLine(TIMING_100);
  }

  lemma LastLineTally()
    ensures Tally([""], 0, 0)
  {
    assert IsNote("");
    TallyLine("");
  }

  /** How the mock log is put together: its blocks and what each holds. */
  lemma MockShapeTally(opening: seq<string>, setup: seq<string>, first: seq<string>,
                       t50: seq<string>, second: seq<string>, t100: seq<string>, last: seq<string>)
    requires Tally(opening, 0, 0) && Tally(setup, 0, 0) && Tally(first, 5, 0) && Tally(t50, 0, 1)
    requires Tally(second, 5, 0) && Tally(t100, 0, 1) && Tally(last, 0, 0)
    ensures Tally(opening + setup + first + t50 + second + t100 + last, 10, 2)
  {
    TallyAppend(opening, setup, 0, 0, 0, 0);
    TallyAppend(opening + setup, first, 0, 0, 5, 0);
    TallyAppend(opening + setup + first, t50, 5, 0, 0, 1);
    TallyAppend(opening + setup + first + t50, second, 5, 1, 5, 0);
    TallyAppend(opening + setup + first + t50 + second, t100, 10, 1, 0, 1);
    TallyAppend(opening + setup + first + t50 + second + t100, last, 10, 2, 0, 0);
  }

  /** The mock log holds exactly ten cycle reports, the least that passes,
      and two timing summaries. */
  lemma MockLogCounts()
    ensures CycleCount(MockLog()) == 10 && TimingCount(MockLog()) == 2
    ensures MeetsThreshold(Readable(MockLog()))
  {
    OpeningTally();
    SetupTally();
    FirstCyclesTally();
    SecondCyclesTally();
    TimingsTally();
    LastLineTally();
    MockShapeTally(OPENING, SETUP, FIRST_CYCLES, [TIMING_50], SECOND_CYCLES, [TIMING_100], [""]);
    TallyCounts(MOCK_LINES, 10, 2);
  }

  /** `main`: the device probe decides only what is reported; the mock log
      is written and analysed either way, and it passes, so the exit code
      is 0. */
  function Main(probe: Probe): (code: int)
    ensures code == 0
  {
    var connected := DeviceConnected(probe);
    MockLogCounts();
    ExitCode(MeetsThreshold(Readable(MockLog())))
  }
}
