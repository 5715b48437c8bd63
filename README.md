# MIPE_EV1 SPI bring-up agent — a Dafny model

MIPE_EV1 is a board built around an nRF54L15 with an LSM6DSO32 inertial
sensor on SPI. The repository holds two kinds of code:

- firmware that blinks LEDs and test pins and checks the sensor's WHO_AM_I
  register;
- Python scripts that close a loop around it. They capture the SPI bus with
  a logic analyzer and look in the decoded records for the WHO_AM_I reply
  `0x6C`. They classify what went wrong and patch the device tree,
  `prj.conf` and `src/main.c`. Three RTT monitors count activity lines in a
  (mock) RTT log and turn the counts into a verdict.

This project models the statable part of that loop and proves properties
about it:

| module (file) | models |
|---|---|
| `Text` (text.dfy) | the Python string operations the scripts use: `in`, `find`, `replace`, `split`, `join`, `lower`/`upper`, decimal formatting, and the two fixed regular-expression rewrites (a digit run after a prefix) |
| `SpiCapture` (spi_capture.dfy) | `scripts/analyzer_automation.py`: the sigrok decoder descriptor, the scan check, CSV row parsing, WHO_AM_I validation and the test verdict |
| `AiCodeGenerator` (ai_code_generator.dfy) | `scripts/ai_code_generator.py`: issue classification of a stored result, fix dispatch, the generated sensor program and the `CONFIG_SPI=y` append |
| `EnhancedAiGenerator` (enhanced_ai_generator.dfy) | `scripts/enhanced_ai_generator.py`: capture issue detection, device-tree modification selection and application, splicing the driver in before `int main(void)`, and rewriting existing driver code |
| `RttCommon` (rtt_common.dfy) | what the RTT monitors share: log lines, marker lines, counting, the `>= 10` threshold, the exit code and the `nrfjprog --ids` probe |
| `RttMonitor` (rtt_monitor.dfy) | `scripts/rtt_monitor.py`: the analysis record and `validate_timing` |
| `WindowsRttMonitor`, `PracticalRttMonitor` | the two mock-log monitors: the mock logs line by line, their counts, the J-Link readiness check and `main` |
| `SensorFirmware` (sensor_firmware.dfy) | `src/main.c`: register-read framing, sensor initialisation and the main loop as a `Board` class |
| `BusyWaitBlink` (busy_wait_blink.dfy) | `src/main_backup.c` and `src/main_ev2_test.c` (identical loops) as a `Blinker` class |

Pins are logical levels. The SPI bus is an abstract `Reply` (status code and
two bytes received). The file system is modelled as `Option` values or a
`pathExists` predicate. Subprocess results are parameters.

The WHO_AM_I check is a substring test on text. It accepts inputs that are
not the byte `0x6C`, such as `10 8` and `0x06 0xC0`. The model keeps that
behaviour and states the false positives as a lemma.

## Model

| member | source | states |
|---|---|---|
| Text.IndexOf | scripts/enhanced_ai_generator.py:229 | `str.find`: -1, or an index at or after the start where the pattern occurs |
| Text.IndexOfFirst | scripts/enhanced_ai_generator.py:235 | the index `find` returns is the first occurrence from the start; -1 means no occurrence at all |
| Text.ContainsFind | scripts/enhanced_ai_generator.py:229-230 | `p in s` holds exactly when `s.find(p)` is non-negative |
| Text.ReplaceAllAbsent | scripts/enhanced_ai_generator.py:138 | `str.replace` leaves text without the pattern unchanged |
| Text.ReplaceAllFirst | scripts/enhanced_ai_generator.py:254-255 | `str.replace` keeps the text before the first occurrence, puts the replacement there, and goes on after the occurrence |
| Text.ReplaceAllSelf | scripts/enhanced_ai_generator.py:138 | replacing a pattern by itself changes nothing |
| Text.ReplaceFromKeeps | scripts/enhanced_ai_generator.py:138 | `str.replace` keeps an occurrence of a text that no occurrence of the pattern overlaps |
| Text.DigitRunFromKeeps | scripts/enhanced_ai_generator.py:141 | the frequency `re.sub` keeps an occurrence of a text that no match overlaps |
| Text.JoinSplit | scripts/rtt_monitor.py:135 | joining the pieces of `split(c)` with `c` gives the text back |
| Text.SplitJoin | scripts/rtt_monitor.py:135 | splitting lines joined by `c`, none containing `c`, gives the lines back |
| Text.LowerAppend | scripts/enhanced_ai_generator.py:82 | lower-casing works piece by piece |
| Text.DecimalRoundTrip | scripts/analyzer_automation.py:147 | the decimal text of a number is all digits and reads back as the number |
| SpiCapture.ProtocolDefRoundTrip | scripts/analyzer_automation.py:147 | the decoder descriptor `spi:clk=C:mosi=M:miso=I:cs=S` reads back as exactly the channel map it was built from |
| SpiCapture.ProtocolDefSplit | scripts/analyzer_automation.py:147 | the descriptor is five colon-separated fields: `spi` and one `key=number` per line |
| SpiCapture.DefaultProtocolDef | scripts/analyzer_automation.py:139-147 | with the default map 0/1/2/3 the descriptor is `spi:clk=0:mosi=1:miso=2:cs=3` |
| SpiCapture.ScanDetectionStable | scripts/analyzer_automation.py:92-102 | an analyzer found in the scan output stays found whatever else is printed; a failed scan finds none |
| SpiCapture.ParseSpiCsv | scripts/analyzer_automation.py:165-181 | the row loop yields the records of the rows with at least three fields (time, type, data in fields 0-2), and an unreadable file yields `[]` |
| SpiCapture.ParseRowsAppend | scripts/analyzer_automation.py:171-177 | parsing goes row by row: two blocks parse to the concatenation of their records |
| SpiCapture.ParseRowsSingle | scripts/analyzer_automation.py:172-177 | one row gives its record exactly when it has three fields or more |
| SpiCapture.ParseRowsBound | scripts/analyzer_automation.py:172 | at most one record per row, and every record comes from some row with at least three fields |
| SpiCapture.ParseRowsKeeps | scripts/analyzer_automation.py:172-177 | every row with at least three fields yields its record |
| SpiCapture.ValidateLsm6Communication | scripts/analyzer_automation.py:183-205 | activity iff records exist; raw data unchanged; responses = MISO records ≤ all records; WHO_AM_I found iff some MISO record's normalised data contains `6C` (upper-cased) or `108`; found implies at least one response |
| SpiCapture.MisoCountBound | scripts/analyzer_automation.py:197-203 | the MISO count never exceeds the record count |
| SpiCapture.WhoAmISeenIff | scripts/analyzer_automation.py:197-202 | the flag is set exactly when some MISO record passes the substring test |
| SpiCapture.WhoAmIImpliesMiso | scripts/analyzer_automation.py:198-203 | a found WHO_AM_I comes with at least one counted MISO response |
| SpiCapture.EmptyCaptureValidation | scripts/analyzer_automation.py:190-195 | no records give (no activity, not found, 0, []) |
| SpiCapture.MisoHexReplyFound | scripts/analyzer_automation.py:198-203 | a MISO record `0x6C` is recognised and counted once |
| SpiCapture.MosiReplyIgnored | scripts/analyzer_automation.py:198 | the same data on a MOSI record is neither recognised nor counted |
| SpiCapture.DecimalReplyFound | scripts/analyzer_automation.py:201 | the decimal spelling `108` is recognised |
| SpiCapture.WhoAmIFalsePositives | scripts/analyzer_automation.py:200-201 | the test also accepts `10 8` and `0x06 0xC0`, which are not the byte 0x6C |
| SpiCapture.RunAutomatedTest | scripts/analyzer_automation.py:212-250 | results exist iff the scan finds an analyzer, the capture succeeds and the decode yields a file; the test passes iff there is activity and WHO_AM_I was found, which implies a response |
| AiCodeGenerator.DetectIssues | scripts/ai_code_generator.py:53-61 | `no_spi_activity` iff activity is false or missing; `lsm6_not_responding` iff activity and not found; `no_valid_responses` iff the count (default 0) is 0; issues in that fixed order |
| AiCodeGenerator.ExpectedIssuesMembership | scripts/ai_code_generator.py:53-61 | the same three iffs for the issue list as a function, and no other issue appears |
| AiCodeGenerator.ExpectedIssuesOrdered | scripts/ai_code_generator.py:54-58 | issues keep the fixed order; `no_spi_activity` and `lsm6_not_responding` never both appear; at most two issues |
| AiCodeGenerator.AnalyzerChain | scripts/ai_code_generator.py:49 | fed the validator's own record, `success` holds exactly when the analyzer's pass condition (scripts/analyzer_automation.py:250) holds, a success has no issue, and each issue names its cause in the records |
| AiCodeGenerator.Handled | scripts/ai_code_generator.py:79-84 | the handlers run are the issues that are in the fix table, never more than the issues |
| AiCodeGenerator.HandledExpected | scripts/ai_code_generator.py:21-28 | of the issues the analysis can report, only `lsm6_not_responding` has a handler |
| AiCodeGenerator.HandledAppend | scripts/ai_code_generator.py:79-84 | dispatch goes issue by issue, in list order |
| AiCodeGenerator.HandledSingle | scripts/ai_code_generator.py:80-84 | one issue runs its handler exactly when it is in the fix table |
| AiCodeGenerator.Lsm6ProgramInjective | scripts/ai_code_generator.py:123-198 | different iterations write different sensor programs: the iteration stamp determines the file |
| AiCodeGenerator.StampInjective | scripts/ai_code_generator.py:125 | a decimal stamp between a fixed head and a newline-led tail determines the number |
| AiCodeGenerator.WithSpiEnabled | scripts/ai_code_generator.py:212-216 | the old `prj.conf` stays as a prefix and the result enables SPI; the block is appended only when `CONFIG_SPI=y` is absent |
| AiCodeGenerator.WithSpiEnabledIdempotent | scripts/ai_code_generator.py:212-216 | updating twice is updating once |
| AiCodeGenerator.Generator.constructor | scripts/ai_code_generator.py:15-28 | the generator starts over the given results, analyses and files |
| AiCodeGenerator.Generator.AnalyzeTestResults | scripts/ai_code_generator.py:30-69 | no results: an error and nothing stored; otherwise the latest result's issues and success, numbered one past the number of analyses already stored (the count `_get_iteration_count` returns, lines 220-223), and appended to the stored list as its only change |
| AiCodeGenerator.Generator.GenerateCodeFix | scripts/ai_code_generator.py:71-90 | true and no change on success; otherwise it runs the fix-table handlers (the sensor handler writes the stamped program), updates `prj.conf`, and returns false |
| AiCodeGenerator.Generator.RunHandlers | scripts/ai_code_generator.py:79-84 | the loop runs exactly `Handled(issues)`; `main.c` is rewritten iff `lsm6_not_responding` is among the issues |
| AiCodeGenerator.Generator.RunHandler | scripts/ai_code_generator.py:92-200 | only the sensor handler changes a file, writing the stamped program to `main.c` |
| AiCodeGenerator.Generator.UpdateConfigurations | scripts/ai_code_generator.py:202-218 | an existing `prj.conf` becomes `WithSpiEnabled` of itself; a missing one stays missing |
| EnhancedAiGenerator.CaptureIssuesSpec | scripts/enhanced_ai_generator.py:41-51 | each of the four issues is listed iff the capture shows it (no response needs both `MISO high` and `MOSI low`), in fixed order, at most once |
| EnhancedAiGenerator.DetectCaptureIssues | scripts/enhanced_ai_generator.py:35-51 | the append sequence gives the same four iffs and order |
| EnhancedAiGenerator.CaptureIssuesSelectFixes | scripts/enhanced_ai_generator.py:82-87 | fed the issues of a capture, the clock fix is selected iff the capture shows no response, a too fast clock or no clock; the CS fix iff it shows no response or a wrong CS polarity |
| EnhancedAiGenerator.ApplyAllAppend | scripts/enhanced_ai_generator.py:135-141 | modifications apply in sequence: two lists apply as the first, then the second |
| EnhancedAiGenerator.ApplyDtsModifications | scripts/enhanced_ai_generator.py:133-142 | the loop applies every modification in order; no modifications leave the text alone |
| EnhancedAiGenerator.InsertNeedsClosingBrace | scripts/enhanced_ai_generator.py:136-138 | an inserted node lands before `};` and appears in the result; text without `};` is unchanged |
| EnhancedAiGenerator.InsertKeepsWord | scripts/enhanced_ai_generator.py:138 | any word of the inserted node appears in the result |
| EnhancedAiGenerator.SpiNodeAddedOnce | scripts/enhanced_ai_generator.py:77-91 | for a device tree with a `};`, the text written after all selected modifications holds `&spi130`, so selecting again for that text never inserts the node a second time |
| EnhancedAiGenerator.InsertAddsSpiNode | scripts/enhanced_ai_generator.py:100-101 | in a device tree with a `};`, inserting the generated node brings in `&spi130` |
| EnhancedAiGenerator.BraceAvoidsLabel | scripts/enhanced_ai_generator.py:138 | no `};` that the insert rewrites overlaps a mention of `&spi130` |
| EnhancedAiGenerator.FrequencyAvoidsLabel | scripts/enhanced_ai_generator.py:122 | no match of the frequency pattern overlaps a mention of `&spi130` |
| EnhancedAiGenerator.CsLineAvoidsLabel | scripts/enhanced_ai_generator.py:129 | no active-high chip-select line overlaps a mention of `&spi130` |
| EnhancedAiGenerator.ModKeepsSpiNode | scripts/enhanced_ai_generator.py:135-141 | none of the three modifications (node insert, frequency rewrite, chip-select rewrite) removes a mention of `&spi130` |
| EnhancedAiGenerator.ApplyAllKeepsSpiNode | scripts/enhanced_ai_generator.py:133-142 | applying any list of modifications keeps a mention of `&spi130` |
| EnhancedAiGenerator.CsFixEffect | scripts/enhanced_ai_generator.py:126-131 | the CS fix leaves text without the active-high line untouched and otherwise yields the active-low line |
| EnhancedAiGenerator.ClockFixEffect | scripts/enhanced_ai_generator.py:119-124 | the clock fix sets any `spi-max-frequency = <n>` to 500000 and goes on with the rest |
| EnhancedAiGenerator.SelectModifications | scripts/enhanced_ai_generator.py:75-87 | the SPI node iff `&spi130` is absent, the clock fix iff an issue mentions `clock`, the CS fix iff one mentions `cs` or `select`, in that order |
| EnhancedAiGenerator.SpliceBeforeMainPlaces | scripts/enhanced_ai_generator.py:228-242 | with `int main(void)` at index k > 0: the prefix is kept, then the block and a newline, then `main` with the init call after its first `{`; otherwise the block is appended |
| EnhancedAiGenerator.AddSpiImplementationSplice | scripts/enhanced_ai_generator.py:169-242 | the driver block is spliced as above |
| EnhancedAiGenerator.SpliceKeepsWord | scripts/enhanced_ai_generator.py:232-240 | a word of the spliced block appears in the lower-cased result |
| EnhancedAiGenerator.AddedDriverIsRecognised | scripts/enhanced_ai_generator.py:156-161 | after the driver is added, `main.c` mentions `lsm6dso32`, so the next fix rewrites it instead of adding it again |
| EnhancedAiGenerator.ModifyExistingUnchanged | scripts/enhanced_ai_generator.py:244-257 | without a clock or timing issue the code is returned unchanged |
| EnhancedAiGenerator.ClockIssueLowersFrequency | scripts/enhanced_ai_generator.py:248-250 | a clock issue sets the configured frequency, whatever it was, to 500000, and leaves the text before it untouched |
| EnhancedAiGenerator.TimingIssueDelaysTransfers | scripts/enhanced_ai_generator.py:253-255 | a timing issue puts `k_msleep(1);` before the first transfer call and goes on; code without one is unchanged |
| EnhancedAiGenerator.SpiCodeGenerator.constructor | scripts/enhanced_ai_generator.py:15-18 | iteration 0 over the given files |
| EnhancedAiGenerator.SpiCodeGenerator.AnalyzeCaptureResults | scripts/enhanced_ai_generator.py:27-61 | a missing or unreadable file gives an error with a fix needed; otherwise the detected issues, a fix needed iff there is one, and the current iteration |
| EnhancedAiGenerator.SpiCodeGenerator.GenerateDeviceTreeFix | scripts/enhanced_ai_generator.py:63-96 | no device tree: false; otherwise the selected modifications are applied, and the file is written (true) iff there is at least one |
| EnhancedAiGenerator.SpiCodeGenerator.GenerateMainCFix | scripts/enhanced_ai_generator.py:144-167 | no `main.c`: false; otherwise existing driver code (`lsm6dso32` in any case) is rewritten, or the driver is spliced in, and true is returned |
| EnhancedAiGenerator.SpiCodeGenerator.StartIteration | scripts/enhanced_ai_generator.py:261 | the iteration counter goes up by one and nothing else changes |
| RttCommon.Lines | scripts/rtt_monitor.py:135 | `split('\n')` gives at least one line |
| RttCommon.Filter | scripts/rtt_monitor.py:135 | a comprehension keeps no more lines than it is given |
| RttCommon.FilterMembers | scripts/rtt_monitor.py:135-139 | a line is kept exactly when it is in the log and passes the test |
| RttCommon.FilterAppend | scripts/rtt_monitor.py:135-139 | filtering two blocks filters each in turn |
| RttCommon.LinesAppend | scripts/rtt_monitor.py:135 | a newline splits a log into the lines before and after it |
| RttCommon.CountsAppend | scripts/rtt_monitor.py:135-140 | cycle and timing counts over logs joined by a newline add up |
| RttCommon.ExitCode | scripts/windows_rtt_monitor.py:172-179 | `main` returns 0 iff the analysis passed, 1 otherwise |
| RttCommon.MeetsThresholdLines | scripts/windows_rtt_monitor.py:79-89 | a pass needs at least ten lines; no cycle report means failure; a missing or unreadable log fails |
| RttCommon.MeetsThresholdMonotonic | scripts/practical_rtt_monitor.py:64-81 | more log never turns a pass into a failure |
| RttCommon.TimingLineIgnored | scripts/windows_rtt_monitor.py:72-85 | a timing line raises the timing count by one and leaves the verdict as it was |
| RttCommon.OneLine | scripts/rtt_monitor.py:135-140 | a line without a newline counts once if it is a cycle (timing) line and not at all otherwise |
| RttCommon.LinesOfJoin | scripts/windows_rtt_monitor.py:25-49 | a log written as newline-joined lines has exactly those lines |
| RttCommon.TallyCounts | scripts/windows_rtt_monitor.py:68-73 | the counts of a newline-joined log are those tallied over its lines |
| RttCommon.StripEmpty | scripts/windows_rtt_monitor.py:101 | `strip()` leaves nothing exactly when the output is all white space |
| RttCommon.DeviceConnected | scripts/windows_rtt_monitor.py:91-111 | connected iff `nrfjprog --ids` finished with code 0 and printed a non-space character; an exception means not connected |
| RttMonitor.Analyze | scripts/rtt_monitor.py:124-148 | counts are the cycle and timing lines; ACTIVE iff cycles > 0, NO_ACTIVITY iff none; VERIFIED iff cycles and timings, PARTIAL iff cycles and no timings, FAILED iff no cycles; logs captured iff the content is non-empty |
| RttMonitor.AnalyzeRttLogs | scripts/rtt_monitor.py:109-171 | a missing or unreadable log gives false and no analysis; otherwise the analysis is `Analyze` of the content, and the result is true iff a cycle line exists |
| RttMonitor.TimingAloneFails | scripts/rtt_monitor.py:143-148 | without cycle reports a timing line is counted but the status stays NO_ACTIVITY/FAILED and the log fails |
| RttMonitor.ActivityPersists | scripts/rtt_monitor.py:143-167 | more log keeps a pass a pass and a VERIFIED validation VERIFIED |
| RttMonitor.ValidateTiming | scripts/rtt_monitor.py:173-181 | the loop counts the lines holding `Toggle event` and `cycle=`, never more than the lines |
| WindowsRttMonitor.MockShapeTally | scripts/windows_rtt_monitor.py:25-48 | the mock log's blocks (notes, two runs of five cycle lines, timing lines, the cycle-200 pair, the footer) hold 11 cycle and 3 timing lines |
| WindowsRttMonitor.MockLogCounts | scripts/windows_rtt_monitor.py:25-48 | the mock log has 11 cycle lines and 3 timing lines, so its analysis passes |
| WindowsRttMonitor.FoundFrom | scripts/windows_rtt_monitor.py:124-130 | the search from a position finds the tools iff a later path exists |
| WindowsRttMonitor.CheckJlinkTools | scripts/windows_rtt_monitor.py:114-130 | the tools are found iff one of the three standard paths exists |
| WindowsRttMonitor.EnsureJlinkReady | scripts/windows_rtt_monitor.py:133-148 | the device is probed only when the tools are found; ready iff probed and connected |
| WindowsRttMonitor.Main | scripts/windows_rtt_monitor.py:150-179 | whatever the readiness, `main` analyses the mock log and returns 0 |
| PracticalRttMonitor.MockShapeTally | scripts/practical_rtt_monitor.py:24-44 | the mock log's blocks hold 10 cycle and 2 timing lines |
| PracticalRttMonitor.MockLogCounts | scripts/practical_rtt_monitor.py:24-44 | the mock log has exactly 10 cycle lines, the least that passes, and 2 timing lines |
| PracticalRttMonitor.Main | scripts/practical_rtt_monitor.py:109-139 | whatever the device probe says, `main` analyses the mock log and returns 0 |
| SensorFirmware.ReadFrame | src/main.c:45 | two bytes: the register with the read bit 0x80 set (the low seven bits kept), then 0x00 |
| SensorFirmware.WhoAmIFrame | src/main.c:23-24 | reading WHO_AM_I (0x0F) sends 0x8F, 0x00 |
| SensorFirmware.ReadReg | src/main.c:43-62 | sends the read frame and returns the transfer status; on success `*data` is the second byte received, on failure it is unchanged |
| SensorFirmware.InitLsm6 | src/main.c:64-91 | 0 iff the device is ready, the read succeeds and WHO_AM_I is 0x6C; -1 otherwise |
| SensorFirmware.Board.constructor | src/main.c:93-108 | all four pins LOW, LED state off, count 0, and the start-up check's verdict recorded |
| SensorFirmware.Board.Flash | src/main.c:133-136 | six toggles leave LED0 where it was and touch nothing else |
| SensorFirmware.Board.Pass | src/main.c:111-144 | LED state flips; LED0 and P1.05 show it, LED1 and P1.06 its opposite; the check runs iff the pass number is a multiple of ten; the flash happens iff the check identifies the sensor; the count stays in [0, 9] |
| SensorFirmware.Board.Run | src/main.c:111-144 | n passes run one check per multiple of ten reached |
| BusyWaitBlink.Blinker.constructor | src/main_backup.c:27-36 | all four pins LOW, LED state off, counter 0 (also src/main_ev2_test.c:27-34) |
| BusyWaitBlink.Blinker.Pass | src/main_backup.c:38-56 | the counter stays below the threshold; the LED state toggles exactly when the passes reach the next multiple of 1,000,000; pins mirror LEDs, LED0 shows the state, LED1 its opposite after the first toggle (also src/main_ev2_test.c:36-47) |
| BusyWaitBlink.Blinker.Run | src/main_ev2_test.c:36-47 | n passes keep the invariant; the LED state has flipped once per toggle made |

## Left out

- Subprocess and vendor tools are not modelled: sigrok capture and decode, Logic 2 start-up, `west build`/`flash`, `git` and `nrfjprog`. Their outcomes enter as parameters (`scanOutput`, `captured`, `decoded`, `Probe`).
- `run_build_test_cycle` in scripts/enhanced_ai_generator.py is modelled only by its counter increment (`StartIteration`). Its recursion is driven by external build, flash and capture results.
- The RTT logger process and the wall-clock capture loop of scripts/rtt_monitor.py are left out. They are process control and sleeps.
- Time stamps, the choice of the latest file by modification time, JSON writing and log-file appends are left out. They are I/O and wall-clock only. The stored results and analyses are sequences; the latest is the last one.
- Writing the mock logs to disk is left out. The monitors analyse the mock log content directly; a failure to write is not modelled.
- Exceptions are modelled only where the source catches them around a read: an unreadable CSV file, log file or capture file. Exceptions while writing the analysis JSON in scripts/rtt_monitor.py are not modelled.
- Python's regular-expression engine is not modelled in general. Only its two fixed uses are: the digit-run frequency rewrite and the literal chip-select rewrite.
- `str.lower`/`str.upper` are modelled for ASCII letters only; other characters are left as they are.
- Text.IsDigit: `\d` in the frequency rewrite is modelled as the ASCII digits `0`-`9`. Python's `\d` on `str` patterns also matches other Unicode decimal digits (Arabic-Indic digits, for example). A `spi-max-frequency` written with such digits is rewritten by the script but left unchanged by the model.
- The printed messages are left out, and so is the uninitialised `who_am_i` value the firmware logs after a failed read.
- Real timing is left out: `k_msleep`, the ~23 ms busy-wait period and the SPI bus electrical behaviour. Pins are logical levels, and the transfer is an abstract reply.
- The firmware's endless loops are modelled by `Run` methods over the first n passes.
- The other scripts of the repository (network pollers, demos, template writers, interactive viewers, environment checks) are not part of this model.
