/**
 * The RTT log analysis of `scripts/rtt_monitor.py`: it counts GPIO cycle
 * reports and timing summaries in a captured log, classifies the hardware
 * status from the counts, and counts toggle events for timing checks.
 */
module RttMonitor {
  import opened Wrappers
  import opened Text
  import opened RttCommon

  datatype HardwareStatus = StatusUnknown | Active | NoActivity

  datatype TimingValidation = ValidationUnknown | Verified | Partial | Failed

  /** The analysis record `analyze_rtt_logs` builds (its file name and time
      stamp are left out). */
  datatype Analysis = Analysis(
    captureDuration: int,
    gpioCyclesDetected: nat,
    timingEvents: nat,
    hardwareStatus: HardwareStatus,
    timingValidation: TimingValidation,
    logsCaptured: bool)

  /** The analysis of a log's text: the counts and what they mean. */
  function Analyze(content: string, duration: int): (a: Analysis)
    ensures a.captureDuration == duration && (a.logsCaptured <==> |content| > 0)
    ensures a.gpioCyclesDetected == CycleCount(content) && a.timingEvents == TimingCount(content)
    ensures a.hardwareStatus == Active <==> a.gpioCyclesDetected > 0
    ensures a.hardwareStatus == NoActivity <==> a.gpioCyclesDetected == 0
    ensures a.timingValidation == Verified <==> a.gpioCyclesDetected > 0 && a.timingEvents > 0
    ensures a.timingValidation == Partial <==> a.gpioCyclesDetected > 0 && a.timingEvents == 0
    ensures a.timingValidation == Failed <==> a.gpioCyclesDetected == 0
  {
    var cycles := CycleCount(content);
    var timings := TimingCount(content);
    if cycles > 0 then
      Analysis(duration, cycles, timings, Active, if timings > 0 then Verified else Partial, |content| > 0)
    else
      Analysis(duration, cycles, timings, NoActivity, Failed, |content| > 0)
  }

  /** The verdict `analyze_rtt_logs` returns for an analysis. */
  predicate Passed(a: Analysis) {
    a.hardwareStatus == Active && a.gpioCyclesDetected > 0
  }

  /** `analyze_rtt_logs`: a missing or unreadable log fails with no analysis;
      otherwise the record is filled in field by field and the log passes
      exactly when it holds a cycle report. */
  method AnalyzeRttLogs(file: LogFile, duration: int) returns (passed: bool, analysis: Option<Analysis>)
    ensures analysis.Some? <==> file.Readable?
    ensures file.Readable? ==> analysis == Some(Analyze(file.content, duration))
    ensures passed <==> file.Readable? && CycleCount(file.content) > 0
  {
    if !file.Readable? {
      return false, None;
    }
    var content := file.content;
    var a := Analysis(duration, 0, 0, StatusUnknown, ValidationUnknown, |content| > 0);
    a := a.(gpioCyclesDetected := CycleCount(content));
    a := a.(timingEvents := TimingCount(content));
    if a.gpioCyclesDetected > 0 {
      a := a.(hardwareStatus := Active);
      a := a.(timingValidation := if a.timingEvents > 0 then Verified else Partial);
    } else {
      a := a.(hardwareStatus := NoActivity);
      a := a.(timingValidation := Failed);
    }
    passed := Passed(a);
    analysis := Some(a);
  }

  /** Timing summaries never decide the status: a log without cycle reports
      reports no activity and a failed validation whatever else it holds. */
  lemma TimingAloneFails(content: string, t: string, duration: int)
    requires CycleCount(content) == 0 && IsTimingEntry(t)
    ensures var a := Analyze(content + "\n" + t, duration);
      a.hardwareStatus == NoActivity && a.timingValidation == Failed && !Passed(a)
      && a.timingEvents == TimingCount(content) + 1
  {
    CountsAppend(content, t);
    OneLine(t);
  }

  /** More log never loses activity, and a verified validation stays
      verified. */
  lemma ActivityPersists(a: string, b: string, duration: int)
    ensures Passed(Analyze(a, duration)) ==> Passed(Analyze(a + "\n" + b, duration))
    ensures Analyze(a, duration).timingValidation == Verified
      ==> Analyze(a + "\n" + b, duration).timingValidation == Verified
  {
    CountsAppend(a, b);
  }

  /** `validate_timing`: collects the lines reporting a toggle event with its
      cycle number, and returns how many there are. */
  method ValidateTiming(logContent: string) returns (count: nat)
    ensures count == |Filter(Lines(logContent), IsToggleEventLine)|
    ensures count <= |Lines(logContent)|
  {
    var lines := Lines(logContent);
    var timingLines: seq<string> := [];
    for i := 0 to |lines|
      invariant timingLines == Filter(lines[..i], IsToggleEventLine)
    {
      assert lines[..i + 1][..i] == lines[..i];
      if IsToggleEventLine(lines[i]) {
        timingLines := timingLines + [lines[i]];
      }
    }
    assert lines[..|lines|] == lines;
    count := |timingLines|;
  }
}
