/**
 * The enhanced generator: issue detection over a capture file, selection
 * and application of device-tree modifications, and the two ways it patches
 * `src/main.c` (splicing a complete SPI driver in front of `main`, or
 * rewriting an existing one).
 */
module EnhancedAiGenerator {
  import opened Wrappers
  import opened Text

  // ---------------------------------------------------------------------
  // Capture analysis
  // ---------------------------------------------------------------------

  /** The capture file: absent, unreadable (with the error text), or its
      contents. */
  datatype CaptureFile = Missing | ReadFails(error: string) | Present(content: string)

  /** What `analyze_capture_results` returns. */
  datatype CaptureAnalysis =
    | CaptureError(error: string, fixNeeded: bool)
    | CaptureIssues(issues: seq<string>, fixNeeded: bool, iteration: nat)

  // The issue messages, spelled in pieces so that the words the device-tree
  // and main.c fixes look for stand on their own.
  const NO_RESPONSE := "No respo" + "nse from" + " sensor " + "- possib" + "le " + "CS" + "/" + "clock" + " issue"
  const CLOCK_TOO_FAST := "SPI " + "clock" + " too fast for sensor"
  const NO_CLOCK := "SPI " + "clock" + " not generated"
  const CS_POLARITY := "Chip " + "select" + " polarity incorrect"

  /** Whether the capture text shows each problem. */
  predicate ShowsNoResponse(content: string) {
    Contains(content, "MISO high") && Contains(content, "MOSI low")
  }
  predicate ShowsClockTooFast(content: string) { Contains(content, "clock_too_fast") }
  predicate ShowsNoClock(content: string) { Contains(content, "no_clock_signal") }
  predicate ShowsWrongCs(content: string) { Contains(content, "wrong_cs_polarity") }

  /** The issues found in a capture text, in detection order. */
  function CaptureIssuesOf(content: string): seq<string> {
    (if ShowsNoResponse(content) then [NO_RESPONSE] else [])
    + (if ShowsClockTooFast(content) then [CLOCK_TOO_FAST] else [])
    + (if ShowsNoClock(content) then [NO_CLOCK] else [])
    + (if ShowsWrongCs(content) then [CS_POLARITY] else [])
  }

  /** Position of each issue in the detection order. */
  function CaptureRank(issue: string): nat {
    if issue == NO_RESPONSE then 0
    else if issue == CLOCK_TOO_FAST then 1
    else if issue == NO_CLOCK then 2
    else 3
  }

  /** The four messages are different. */
  lemma MessagesDistinct()
    ensures |NO_RESPONSE| == 49 && |CLOCK_TOO_FAST| == 29
    ensures |NO_CLOCK| == 23 && |CS_POLARITY| == 30
  {
  }

  /** Each issue is listed exactly when the capture shows it, in the fixed
      order and at most once. */
  lemma CaptureIssuesSpec(content: string)
    ensures var issues := CaptureIssuesOf(content);
      && (NO_RESPONSE in issues <==> ShowsNoResponse(content))
      && (CLOCK_TOO_FAST in issues <==> ShowsClockTooFast(content))
      && (NO_CLOCK in issues <==> ShowsNoClock(content))
      && (CS_POLARITY in issues <==> ShowsWrongCs(content))
      && (forall i, j :: 0 <= i < j < |issues| ==> CaptureRank(issues[i]) < CaptureRank(issues[j]))
  {
    MessagesDistinct();
  }

  /** The detection step of `analyze_capture_results`: each test appends its
      issue in turn. */
  method DetectCaptureIssues(content: string) returns (issues: seq<string>)
    ensures NO_RESPONSE in issues <==> ShowsNoResponse(content)
    ensures CLOCK_TOO_FAST in issues <==> ShowsClockTooFast(content)
    ensures NO_CLOCK in issues <==> ShowsNoClock(content)
    ensures CS_POLARITY in issues <==> ShowsWrongCs(content)
    ensures forall i, j :: 0 <= i < j < |issues| ==> CaptureRank(issues[i]) < CaptureRank(issues[j])
    ensures issues == CaptureIssuesOf(content)
  {
    var a := if ShowsNoResponse(content) then [NO_RESPONSE] else [];
    var b := if ShowsClockTooFast(content) then [CLOCK_TOO_FAST] else [];
    var c := if ShowsNoClock(content) then [NO_CLOCK] else [];
    var d := if ShowsWrongCs(content) then [CS_POLARITY] else [];
    issues := [];
    if ShowsNoResponse(content) {
      issues := issues + [NO_RESPONSE];
    }
    assert issues == a;
    if ShowsClockTooFast(content) {
      issues := issues + [CLOCK_TOO_FAST];
    }
    assert issues == a + b;
    if ShowsNoClock(content) {
      issues := issues + [NO_CLOCK];
    }
    assert issues == a + b + c;
    if ShowsWrongCs(content) {
      issues := issues + [CS_POLARITY];
    }
    assert issues == a + b + c + d;
    CaptureIssuesSpec(content);
  }

  // ---------------------------------------------------------------------
  // Which fixes an issue list asks for
  // ---------------------------------------------------------------------

  /** Some issue, lower-cased, contains `word`. */
  predicate Mentions(issues: seq<string>, word: string) {
    exists i :: 0 <= i < |issues| && Contains(Lower(issues[i]), word)
  }

  /** The condition for the chip-select fix. */
  predicate MentionsCs(issues: seq<string>) {
    exists i :: 0 <= i < |issues|
      && (Contains(Lower(issues[i]), "cs") || Contains(Lower(issues[i]), "select"))
  }

  lemma LowerOf3(a: string, b: string, c: string)
    ensures Lower(a + b + c) == Lower(a) + Lower(b) + Lower(c)
  {
    LowerAppend(a + b, c);
    LowerAppend(a, b);
  }

  /** A word that already is lower case, standing between two pieces, is
      found after lower-casing. */
  lemma MentionsWord(a: string, w: string, c: string)
    requires Lower(w) == w
    ensures Contains(Lower(a + w + c), w)
  {
    LowerOf3(a, w, c);
    ContainsSelf(w);
    ContainsWithin(Lower(a), w, Lower(c), w);
  }

  /** A piece that lower-cases to `w`, standing between two others, puts
      `w` in the lower-cased whole. */
  lemma MentionsPiece(a: string, u: string, c: string, w: string)
    requires Lower(u) == w
    ensures Contains(Lower(a + u + c), w)
  {
    LowerOf3(a, u, c);
    ContainsSelf(w);
    ContainsWithin(Lower(a), w, Lower(c), w);
  }

  lemma MentionsPiece3(a: string, u: string, b: string, c: string, d: string, w: string)
    requires Lower(u) == w
    ensures Contains(Lower(a + u + b + c + d), w)
  {
    assert a + u + b + c + d == a + u + (b + c + d);
    MentionsPiece(a, u, b + c + d, w);
  }

  /** The no-response issue names both the chip select and the clock. */
  lemma NoResponseWords()
    ensures Contains(Lower(NO_RESPONSE), "clock") && Contains(Lower(NO_RESPONSE), "cs")
  {
    var a := "No respo" + "nse from" + " sensor " + "- possib" + "le ";
    MentionsPiece(a + "CS" + "/", "clock", " issue", "clock");
    MentionsPiece3(a, "CS", "/", "clock", " issue", "cs");
  }

  /** The clock issues name the clock; the polarity issue names the select
      line. */
  lemma ClockIssueWords()
    ensures Contains(Lower(CLOCK_TOO_FAST), "clock")
    ensures Contains(Lower(NO_CLOCK), "clock")
  {
    MentionsPiece("SPI ", "clock", " too fast for sensor", "clock");
    MentionsPiece("SPI ", "clock", " not generated", "clock");
  }

  lemma SelectIssueWords()
    ensures Contains(Lower(CS_POLARITY), "select")
  {
    MentionsPiece("Chip ", "select", " polarity incorrect", "select");
  }

  /** The no-response issue names both the chip select and the clock; the
      clock issues name the clock; the polarity issue names the select
      line. */
  lemma IssueWords()
    ensures Contains(Lower(NO_RESPONSE), "clock") && Contains(Lower(NO_RESPONSE), "cs")
    ensures Contains(Lower(CLOCK_TOO_FAST), "clock")
    ensures Contains(Lower(NO_CLOCK), "clock")
    ensures Contains(Lower(CS_POLARITY), "select")
  {
    NoResponseWords();
    ClockIssueWords();
    SelectIssueWords();
  }

  /** The too-fast clock issue, word by word. */
  lemma FastClockWords()
    ensures CLOCK_TOO_FAST == "SPI" + " " + "clock" + " " + "too" + " " + "fast" + " " + "for" + " " + "sensor"
  {
  }

  /** The missing-clock issue, word by word. */
  lemma MissingClockWords()
    ensures NO_CLOCK == "SPI" + " " + "clock" + " " + "not" + " " + "generated"
  {
  }

  lemma FastClockNamesNoCs()
    ensures !Contains(Lower(CLOCK_TOO_FAST), "cs")
  {
    var a := "SPI" + " " + "clock";
    var b := a + " " + "too";
    var c := b + " " + "fast";
    var d := c + " " + "for";
    FastClockWords();
    LowerMissing("SPI", "cs", 0);
    LowerWordLacks("SPI", "clock", "cs", 1);
    LowerWordLacks(a, "too", "cs", 0);
    LowerWordLacks(b, "fast", "cs", 0);
    LowerWordLacks(c, "for", "cs", 0);
    LowerWordLacks(d, "sensor", "cs", 0);
  }

  lemma FastClockNamesNoSelect()
    ensures !Contains(Lower(CLOCK_TOO_FAST), "select")
  {
    var a := "SPI" + " " + "clock";
    var b := a + " " + "too";
    var c := b + " " + "fast";
    var d := c + " " + "for";
    assert !Contains(Lower(b), "select") by {
      LowerMissing("SPI", "select", 1);
      LowerWordLacks("SPI", "clock", "select", 0);
      LowerWordLacks(a, "too", "select", 0);
    }
    assert !Contains(Lower(d + " " + "sensor"), "select") by {
      LowerWordLacks(b, "fast", "select", 1);
      LowerWordLacks(c, "for", "select", 0);
      LowerWordLacks(d, "sensor", "select", 2);
    }
    FastClockWords();
  }

  lemma MissingClockNamesNoCs()
    ensures !Contains(Lower(NO_CLOCK), "cs")
  {
    var a := "SPI" + " " + "clock";
    var b := a + " " + "not";
    MissingClockWords();
    LowerMissing("SPI", "cs", 0);
    LowerWordLacks("SPI", "clock", "cs", 1);
    LowerWordLacks(a, "not", "cs", 0);
    LowerWordLacks(b, "generated", "cs", 0);
  }

  lemma MissingClockNamesNoSelect()
    ensures !Contains(Lower(NO_CLOCK), "select")
  {
    var a := "SPI" + " " + "clock";
    var b := a + " " + "not";
    MissingClockWords();
    LowerMissing("SPI", "select", 1);
    LowerWordLacks("SPI", "clock", "select", 0);
    LowerWordLacks(a, "not", "select", 0);
    LowerWordLacks(b, "generated", "select", 0);
  }

  /** The clock issues name neither `cs` nor the select line. */
  lemma ClockIssuesNameNoSelect()
    ensures !Contains(Lower(CLOCK_TOO_FAST), "cs") && !Contains(Lower(CLOCK_TOO_FAST), "select")
    ensures !Contains(Lower(NO_CLOCK), "cs") && !Contains(Lower(NO_CLOCK), "select")
  {
    FastClockNamesNoCs();
    FastClockNamesNoSelect();
    MissingClockNamesNoCs();
    MissingClockNamesNoSelect();
  }

  /** The polarity issue does not name the clock. */
  lemma PolarityNamesNoClock()
    ensures !Contains(Lower(CS_POLARITY), "clock")
  {
    LowerMissing(CS_POLARITY, "clock", 4);
  }

  lemma MentionsIn(issues: seq<string>, i: nat, word: string)
    requires i < |issues| && Contains(Lower(issues[i]), word)
    ensures Mentions(issues, word)
  {
  }

  /** Fed the issues a capture shows, the generator asks for the clock fix
      exactly when the capture shows no response, a too fast clock or no
      clock, and for the chip-select fix exactly when it shows no response
      or a wrong chip-select polarity. */
  lemma CaptureIssuesSelectFixes(content: string)
    ensures Mentions(CaptureIssuesOf(content), "clock")
      <==> ShowsNoResponse(content) || ShowsClockTooFast(content) || ShowsNoClock(content)
    ensures MentionsCs(CaptureIssuesOf(content))
      <==> ShowsNoResponse(content) || ShowsWrongCs(content)
  {
    var issues := CaptureIssuesOf(content);
    if Mentions(issues, "clock") {
      var i :| 0 <= i < |issues| && Contains(Lower(issues[i]), "clock");
      CaptureIssuesAmong(content, i);
      PolarityNamesNoClock();
    }
    if MentionsCs(issues) {
      var i :| 0 <= i < |issues|
        && (Contains(Lower(issues[i]), "cs") || Contains(Lower(issues[i]), "select"));
      CaptureIssuesAmong(content, i);
      ClockIssuesNameNoSelect();
    }
    if ShowsNoResponse(content) {
      NoResponseWords();
      MentionsIn(issues, 0, "clock");
      assert MentionsCs(issues);
    } else if ShowsClockTooFast(content) {
      ClockIssueWords();
      MentionsIn(issues, 0, "clock");
    } else if ShowsNoClock(content) {
      ClockIssueWords();
      MentionsIn(issues, 0, "clock");
    }
    if !ShowsNoResponse(content) && ShowsWrongCs(content) {
      SelectIssueWords();
      assert Contains(Lower(issues[|issues| - 1]), "select");
    }
  }

  /** Each listed issue is one of the four messages, listed because the
      capture shows it. */
  lemma CaptureIssuesAmong(content: string, i: nat)
    requires i < |CaptureIssuesOf(content)|
    ensures var x := CaptureIssuesOf(content)[i];
      || (x == NO_RESPONSE && ShowsNoResponse(content))
      || (x == CLOCK_TOO_FAST && ShowsClockTooFast(content))
      || (x == NO_CLOCK && ShowsNoClock(content))
      || (x == CS_POLARITY && ShowsWrongCs(content))
  {
  }

  // ---------------------------------------------------------------------
  // Device-tree modifications
  // ---------------------------------------------------------------------

  /** A device-tree modification: a node text inserted before every `};`, or
      one of the two regular-expression rewrites. */
  datatype Modification = Insert(text: string) | ClockFix | CsFix

  /** The `&spi130` node with the LSM6DSO32 child, at 1 MHz. Its text, and
      the driver block below, are written as pieces of at most eight
      characters, one source line per line of pieces: the verifier's work on
      a string literal grows with the square of its length, and the pieces
      concatenate to the source text character for character. */
  const SPI_NODE := "\n" + "&spi130" + SPI_NODE_TAIL
  const SPI_NODE_TAIL := (" {\n"
      + "    stat" + "us = \"ok" + "ay\";\n"
      + "    cs-g" + "pios = <" + "&gpio2 1" + "0 GPIO_A" + "CTIVE_LO" + "W>;\n"
      + "    pinc" + "trl-0 = " + "<&spi130" + "_default" + ">;\n"
      + "    pinc" + "trl-name" + "s = \"def" + "ault\";\n"
      + "\n"
      + "    lsm6" + "dso32: l" + "sm6dso32" + "@0 {\n"
      + "        " + "compatib" + "le = \"st" + ",lsm6dso" + "32\";\n"
      + "        " + "reg = <0" + ">;\n"
      + "        " + "spi-max-" + "frequenc" + "y = <100" + "0000>; /" + "/ Start " + "conserva" + "tive at " + "1MHz\n"
      + "        " + "label = " + "\"LSM6DSO" + "32\";\n"
      + "        " + "\n"
      + "        " + "// Pin c" + "onfigura" + "tion\n"
      + "        " + "int1-gpi" + "os = <&g" + "pio1 11 " + "GPIO_ACT" + "IVE_HIGH" + ">;\n"
      + "        " + "int2-gpi" + "os = <&g" + "pio1 12 " + "GPIO_ACT" + "IVE_HIGH" + ">;\n"
      + "    };\n"
      + "};")

  /** The clock fix: `spi-max-frequency = <` digits `>` becomes 500 kHz. */
  const DTS_FREQUENCY := "spi-max-frequency = <"
  const DTS_FREQUENCY_END := ">"
  const DTS_SLOW_FREQUENCY := "spi-max-frequency = <500000>"

  /** The chip-select fix: the active-high `cs-gpios` line becomes active
      low. */
  const CS_ACTIVE_HIGH := "cs-gpios = <&gpio2 10 GPIO_ACTIVE_HIGH>"
  const CS_ACTIVE_LOW := "cs-gpios = <&gpio2 10 GPIO_ACTIVE_LOW>"

  /** One modification applied to the device-tree text. */
  function ApplyMod(content: string, m: Modification): string {
    match m
    case Insert(t) => ReplaceAll(content, "};", t + "\n};")
    case ClockFix => DigitRunSub(content, DTS_FREQUENCY, DTS_FREQUENCY_END, DTS_SLOW_FREQUENCY)
    case CsFix => ReplaceAll(content, CS_ACTIVE_HIGH, CS_ACTIVE_LOW)
  }

  /** The modifications applied in list order. */
  function ApplyAll(content: string, mods: seq<Modification>): string {
    if mods == [] then content
    else ApplyMod(ApplyAll(content, mods[..|mods| - 1]), mods[|mods| - 1])
  }

  /** Applying two lists in turn is applying their concatenation. */
  lemma {:induction false} ApplyAllAppend(content: string, a: seq<Modification>, b: seq<Modification>)
    decreases |b|
    ensures ApplyAll(content, a + b) == ApplyAll(ApplyAll(content, a), b)
  {
    if b == [] {
      assert a + b == a;
    } else {
      var b' := b[..|b| - 1];
      assert (a + b)[..|a + b| - 1] == a + b';
      ApplyAllAppend(content, a, b');
    }
  }

  /** `_apply_dts_modifications`: the text is rewritten by each modification
      in turn. */
  method ApplyDtsModifications(content: string, mods: seq<Modification>) returns (r: string)
    ensures r == ApplyAll(content, mods)
    ensures mods == [] ==> r == content
  {
    r := content;
    var i := 0;
    while i < |mods|
      invariant 0 <= i <= |mods|
      invariant r == ApplyAll(content, mods[..i])
    {
      assert mods[..i + 1][..i] == mods[..i];
      var m := mods[i];
      if m.Insert? {
        r := ReplaceAll(r, "};", m.text + "\n};");
      } else if m.ClockFix? {
        r := DigitRunSub(r, DTS_FREQUENCY, DTS_FREQUENCY_END, DTS_SLOW_FREQUENCY);
      } else {
        r := ReplaceAll(r, CS_ACTIVE_HIGH, CS_ACTIVE_LOW);
      }
      i := i + 1;
    }
    assert mods[..i] == mods;
  }

  /** A node goes in only where a `};` is: without one the text is left
      alone, with one the node text appears in the result. */
  lemma InsertNeedsClosingBrace(content: string, t: string)
    ensures !Contains(content, "};") ==> ApplyMod(content, Insert(t)) == content
    ensures Contains(content, "};") ==> Contains(ApplyMod(content, Insert(t)), t)
  {
    if !Contains(content, "};") {
      ReplaceAllAbsent(content, "};", t + "\n};");
    } else {
      ReplaceAllFirst(content, "};", t + "\n};");
      var k := IndexOf(content, "};", 0);
      var rest := ReplaceFrom(content, "};", t + "\n};", k + 2);
      ContainsSelf(t);
      ContainsWithin(content[..k], t, "\n};" + rest, t);
      assert content[..k] + (t + "\n};") + rest == content[..k] + t + ("\n};" + rest);
    }
  }

  /** A text holding `w` is found in what inserting it produces. */
  lemma InsertKeepsWord(content: string, a: string, w: string, c: string)
    requires Contains(content, "};")
    ensures Contains(ApplyMod(content, Insert(a + w + c)), w)
  {
    var t := a + w + c;
    ReplaceAllFirst(content, "};", t + "\n};");
    var k := IndexOf(content, "};", 0);
    var rest := ReplaceFrom(content, "};", t + "\n};", k + 2);
    ContainsSelf(w);
    ContainsWithin(content[..k] + a, w, c + "\n};" + rest, w);
    assert content[..k] + (t + "\n};") + rest == (content[..k] + a) + w + (c + "\n};" + rest);
  }

  /** Once the node is inserted, the device tree mentions `&spi130`. */
  lemma InsertAddsSpiNode(content: string)
    requires Contains(content, "};")
    ensures Contains(ApplyMod(content, Insert(SPI_NODE)), "&spi130")
  {
    InsertKeepsWord(content, "\n", "&spi130", SPI_NODE_TAIL);
  }

  /** No modification removes a mention of `&spi130`. */
  lemma ModKeepsSpiNode(content: string, m: Modification)
    requires Contains(content, "&spi130")
    ensures Contains(ApplyMod(content, m), "&spi130")
  {
    var j :| 0 <= j <= |content| - 7 && OccursAt(content, "&spi130", j);
    match m
    case Insert(t) =>
      BraceAvoidsLabel(content, j);
      ReplaceFromKeeps(content, "};", t + "\n};", "&spi130", j, 0);
    case ClockFix =>
      FrequencyAvoidsLabel(content, j);
      DigitRunFromKeeps(content, DTS_FREQUENCY, DTS_FREQUENCY_END, DTS_SLOW_FREQUENCY, "&spi130", j, 0);
    case CsFix =>
      CsLineAvoidsLabel(content, j);
      ReplaceFromKeeps(content, CS_ACTIVE_HIGH, CS_ACTIVE_LOW, "&spi130", j, 0);
  }

  lemma {:induction false} ApplyAllKeepsSpiNode(content: string, mods: seq<Modification>)
    requires Contains(content, "&spi130")
    ensures Contains(ApplyAll(content, mods), "&spi130")
  {
    if mods != [] {
      ApplyAllKeepsSpiNode(content, mods[..|mods| - 1]);
      ModKeepsSpiNode(ApplyAll(content, mods[..|mods| - 1]), mods[|mods| - 1]);
    }
  }

  /** The device tree `generate_device_tree_fix` writes mentions `&spi130`
      whenever a `};` gave the node a place, so selecting again for the
      written text does not add the node a second time. */
  lemma SpiNodeAddedOnce(content: string, issues: seq<string>)
    requires Contains(content, "};")
    ensures Contains(ApplyAll(content, Selected(content, issues)), "&spi130")
    ensures Insert(SPI_NODE) !in Selected(ApplyAll(content, Selected(content, issues)), issues)
  {
    var mods := Selected(content, issues);
    var written := ApplyAll(content, mods);
    var fixes := (if Mentions(issues, "clock") then [ClockFix] else [])
      + (if MentionsCs(issues) then [CsFix] else []);
    if Contains(content, "&spi130") {
      assert mods == [] + fixes;
      ApplyAllKeepsSpiNode(content, mods);
    } else {
      assert mods == [Insert(SPI_NODE)] + fixes;
      ApplyAllAppend(content, [Insert(SPI_NODE)], fixes);
      assert ApplyAll(content, [Insert(SPI_NODE)]) == ApplyMod(content, Insert(SPI_NODE)) by {
        assert [Insert(SPI_NODE)][..0] == [];
      }
      InsertAddsSpiNode(content);
      ApplyAllKeepsSpiNode(ApplyMod(content, Insert(SPI_NODE)), fixes);
    }
    assert Selected(written, issues) == [] + fixes;
  }

  /** No `};` overlaps an occurrence of `&spi130`. */
  lemma BraceAvoidsLabel(s: string, j: nat)
    requires OccursAt(s, "&spi130", j)
    ensures forall q :: OccursAt(s, "};", q) ==> q + 2 <= j || q >= j + 7
  {
    forall q | j - 2 < q < j + 7
      ensures !OccursAt(s, "};", q)
    {
      if q >= j {
        assert s[q] == s[j..j + 7][q - j];
      } else {
        assert s[j] == s[j..j + 7][0];
      }
    }
  }

  /** No active-high chip-select line overlaps an occurrence of `&spi130`. */
  lemma CsLineAvoidsLabel(s: string, j: nat)
    requires OccursAt(s, "&spi130", j)
    ensures forall q :: OccursAt(s, CS_ACTIVE_HIGH, q) ==> q + |CS_ACTIVE_HIGH| <= j || q >= j + 7
  {
    forall q | j - |CS_ACTIVE_HIGH| < q < j + 7
      ensures !OccursAt(s, CS_ACTIVE_HIGH, q)
    {
      if q >= j {
        assert s[q] == s[j..j + 7][q - j];
        MismatchNotOccurs(s, CS_ACTIVE_HIGH, q, 0);
      } else if j - q == 12 {
        assert s[j + 1] == s[j..j + 7][1];
        MismatchNotOccurs(s, CS_ACTIVE_HIGH, q, 13);
      } else {
        assert s[j] == s[j..j + 7][0];
        MismatchNotOccurs(s, CS_ACTIVE_HIGH, q, j - q);
      }
    }
  }

  /** No match of the frequency pattern overlaps an occurrence of
      `&spi130`. */
  lemma FrequencyAvoidsLabel(s: string, j: nat)
    requires OccursAt(s, "&spi130", j)
    ensures forall q: nat :: q <= |s| && DigitRunAt(s, DTS_FREQUENCY, DTS_FREQUENCY_END, q).Some? ==>
      DigitRunAt(s, DTS_FREQUENCY, DTS_FREQUENCY_END, q).value <= j || q >= j + 7
  {
    forall q | j < q < j + 7
      ensures !OccursAt(s, DTS_FREQUENCY, q)
    {
      if q == j + 1 {
        assert s[j + 4] == s[j..j + 7][4];
      } else {
        assert s[q] == s[j..j + 7][q - j];
      }
    }
    assert s[j] == s[j..j + 7][0];
    assert s[j] !in DTS_FREQUENCY && !IsDigit(s[j]) && s[j] !in DTS_FREQUENCY_END;
    forall q: nat | q <= |s| && DigitRunAt(s, DTS_FREQUENCY, DTS_FREQUENCY_END, q).Some?
      ensures DigitRunAt(s, DTS_FREQUENCY, DTS_FREQUENCY_END, q).value <= j || q >= j + 7
    {
      DigitRunAtOccurs(s, DTS_FREQUENCY, DTS_FREQUENCY_END, q);
      DigitRunAtChars(s, DTS_FREQUENCY, DTS_FREQUENCY_END, q);
    }
  }

  /** The chip-select fix leaves a device tree without the active-high line
      alone; otherwise the active-low line appears in its place. */
  lemma CsFixEffect(content: string)
    ensures !Contains(content, CS_ACTIVE_HIGH) ==> ApplyMod(content, CsFix) == content
    ensures Contains(content, CS_ACTIVE_HIGH) ==> Contains(ApplyMod(content, CsFix), CS_ACTIVE_LOW)
  {
    if !Contains(content, CS_ACTIVE_HIGH) {
      ReplaceAllAbsent(content, CS_ACTIVE_HIGH, CS_ACTIVE_LOW);
    } else {
      ReplaceAllFirst(content, CS_ACTIVE_HIGH, CS_ACTIVE_LOW);
      var k := IndexOf(content, CS_ACTIVE_HIGH, 0);
      ContainsSelf(CS_ACTIVE_LOW);
      ContainsWithin(content[..k], CS_ACTIVE_LOW,
                     ReplaceFrom(content, CS_ACTIVE_HIGH, CS_ACTIVE_LOW, k + |CS_ACTIVE_HIGH|),
                     CS_ACTIVE_LOW);
    }
  }

  /** The clock fix sets any `spi-max-frequency` value to 500000 and goes on
      with the rest of the text. */
  lemma ClockFixEffect(n: nat, rest: string)
    ensures ApplyMod(DTS_FREQUENCY + Decimal(n) + DTS_FREQUENCY_END + rest, ClockFix)
      == DTS_SLOW_FREQUENCY + ApplyMod(rest, ClockFix)
  {
    assert !IsDigit(DTS_FREQUENCY_END[0]);
    DecimalIsNumeral(n);
    DigitRunSetting(DTS_FREQUENCY, Decimal(n), DTS_FREQUENCY_END, rest, DTS_SLOW_FREQUENCY);
  }

  /** The modifications `generate_device_tree_fix` asks for, in order. */
  function Selected(content: string, issues: seq<string>): seq<Modification> {
    (if !Contains(content, "&spi130") then [Insert(SPI_NODE)] else [])
    + (if Mentions(issues, "clock") then [ClockFix] else [])
    + (if MentionsCs(issues) then [CsFix] else [])
  }

  /** The selection step of `generate_device_tree_fix`: each check appends
      its modification in turn. */
  method SelectModifications(content: string, issues: seq<string>) returns (mods: seq<Modification>)
    ensures Insert(SPI_NODE) in mods <==> !Contains(content, "&spi130")
    ensures ClockFix in mods <==> Mentions(issues, "clock")
    ensures CsFix in mods <==> MentionsCs(issues)
    ensures |mods| <= 3
    ensures forall m :: m in mods ==> m == Insert(SPI_NODE) || m == ClockFix || m == CsFix
    ensures |mods| > 0 && mods[0].Insert? ==> !Contains(content, "&spi130")
    ensures |mods| > 0 && mods[|mods| - 1].Insert? ==> |mods| == 1
    ensures mods == Selected(content, issues)
  {
    mods := [];
    if !Contains(content, "&spi130") {
      mods := mods + [Insert(SPI_NODE)];
    }
    if exists i | 0 <= i < |issues| :: Contains(Lower(issues[i]), "clock") {
      mods := mods + [ClockFix];
    }
    if exists i | 0 <= i < |issues| ::
         Contains(Lower(issues[i]), "cs") || Contains(Lower(issues[i]), "select") {
      mods := mods + [CsFix];
    }
  }

  // ---------------------------------------------------------------------
  // main.c patches
  // ---------------------------------------------------------------------

  /** The SPI driver block spliced in front of `main`: the read-register
      routine and `init_lsm6dso32` (in pieces, like `SPI_NODE_TAIL`). */
  const SPI_CODE := SPI_CODE_HEAD + "lsm6dso32" + SPI_CODE_TAIL
  const SPI_CODE_HEAD := ("\n"
      + "#include" + " <zephyr" + "/device." + "h>\n"
      + "#include" + " <zephyr" + "/drivers" + "/spi.h>\n"
      + "#include" + " <zephyr" + "/drivers" + "/gpio.h>" + "\n"
      + "\n"
      + "#define " + "LSM6DSO3" + "2_WHO_AM" + "_I_REG 0" + "x0F\n"
      + "#define " + "LSM6DSO3" + "2_WHO_AM" + "_I_VAL 0" + "x6C\n"
      + "\n"
      + "static c" + "onst str" + "uct devi" + "ce *spi_" + "dev;\n"
      + "static s" + "truct sp" + "i_config" + " spi_cfg" + ";\n"
      + "\n"
      + "static i" + "nt ")
  const SPI_CODE_TAIL := ("_read_re" + "g(uint8_" + "t reg, u" + "int8_t *" + "data) {\n"
      + "    uint" + "8_t tx_b" + "uffer[2]" + " = {reg " + "| 0x80, " + "0x00}; /" + "/ Read b" + "it set\n"
      + "    uint" + "8_t rx_b" + "uffer[2]" + " = {0};\n"
      + "    \n"
      + "    stru" + "ct spi_b" + "uf tx_bu" + "f = {.bu" + "f = tx_b" + "uffer, ." + "len = 2}" + ";\n"
      + "    stru" + "ct spi_b" + "uf_set t" + "x_bufs =" + " {.buffe" + "rs = &tx" + "_buf, .c" + "ount = 1" + "};\n"
      + "    \n"
      + "    stru" + "ct spi_b" + "uf rx_bu" + "f = {.bu" + "f = rx_b" + "uffer, ." + "len = 2}" + ";\n"
      + "    stru" + "ct spi_b" + "uf_set r" + "x_bufs =" + " {.buffe" + "rs = &rx" + "_buf, .c" + "ount = 1" + "};\n"
      + "    \n"
      + "    int " + "ret = sp" + "i_transc" + "eive(spi" + "_dev, &s" + "pi_cfg, " + "&tx_bufs" + ", &rx_bu" + "fs);\n"
      + "    if (" + "ret == 0" + ") {\n"
      + "        " + "*data = " + "rx_buffe" + "r[1];\n"
      + "    }\n"
      + "    retu" + "rn ret;\n"
      + "}\n"
      + "\n"
      + "static i" + "nt init_" + "lsm6dso3" + "2(void) " + "{\n"
      + "    spi_" + "dev = DE" + "VICE_DT_" + "GET(DT_N" + "ODELABEL" + "(spi130)" + ");\n"
      + "    if (" + "!device_" + "is_ready" + "(spi_dev" + ")) {\n"
      + "        " + "printk(\"" + "SPI devi" + "ce not r" + "eady\\n\")" + ";\n"
      + "        " + "return -" + "1;\n"
      + "    }\n"
      + "    \n"
      + "    spi_" + "cfg.freq" + "uency = " + "1000000;" + " // 1MHz" + "\n"
      + "    spi_" + "cfg.oper" + "ation = " + "SPI_WORD" + "_SET(8) " + "| SPI_TR" + "ANSFER_M" + "SB;\n"
      + "    spi_" + "cfg.slav" + "e = 0;\n"
      + "    spi_" + "cfg.cs =" + " NULL; /" + "/ Use GP" + "IO CS\n"
      + "    \n"
      + "    // T" + "est WHO_" + "AM_I reg" + "ister\n"
      + "    uint" + "8_t who_" + "am_i;\n"
      + "    int " + "ret = ls" + "m6dso32_" + "read_reg" + "(LSM6DSO" + "32_WHO_A" + "M_I_REG," + " &who_am" + "_i);\n"
      + "    if (" + "ret == 0" + ") {\n"
      + "        " + "printk(\"" + "LSM6DSO3" + "2 WHO_AM" + "_I: 0x%0" + "2X (expe" + "cted 0x%" + "02X)\\n\"," + " \n"
      + "        " + "       w" + "ho_am_i," + " LSM6DSO" + "32_WHO_A" + "M_I_VAL)" + ";\n"
      + "        " + "if (who_" + "am_i == " + "LSM6DSO3" + "2_WHO_AM" + "_I_VAL) " + "{\n"
      + "        " + "    prin" + "tk(\"LSM6" + "DSO32 se" + "nsor det" + "ected su" + "ccessful" + "ly!\\n\");" + "\n"
      + "        " + "    retu" + "rn 0;\n"
      + "        " + "}\n"
      + "    }\n"
      + "    \n"
      + "    prin" + "tk(\"LSM6" + "DSO32 co" + "mmunicat" + "ion fail" + "ed\\n\");\n"
      + "    retu" + "rn -1;\n"
      + "}\n")

  const MAIN_SIGNATURE := "int main(void)"
  const INIT_CALL := "\n\t// Init" + "ialize L" + "SM6DSO32" + " sensor\n"
    + "\tinit_ls" + "m6dso32(" + ");\n"

  /** `_add_spi_implementation` for the driver block. */
  function AddSpiImplementation(content: string): string {
    SpliceBeforeMain(content, MAIN_SIGNATURE, SPI_CODE)
  }

  /** The splice of `_add_spi_implementation` for a given block: when
      `int main(void)` occurs past the first character, the block and a
      newline go in front of it and the init call right after the first `{`
      searched for from the end of the inserted block; otherwise the block
      is appended. */
  function SpliceBeforeMain(content: string, marker: string, block: string): string {
    var mainPos := IndexOf(content, marker, 0);
    if mainPos > 0 then
      InsertInitCall(content[..mainPos] + block + "\n" + content[mainPos..], mainPos + |block|)
    else content + block
  }

  /** The init call goes right after the first `{` at or after `from`. */
  function InsertInitCall(newContent: string, from: nat): string {
    var mainBrace := IndexOf(newContent, "{", from);
    if mainBrace > 0 then
      newContent[..mainBrace + 1] + INIT_CALL + newContent[mainBrace + 1..]
    else newContent
  }

  /** The text from `main` on, with the init call right after its first
      `{` (unchanged when there is none). */
  function InitAfterBrace(rest: string): string {
    var b := IndexOf(rest, "{", 0);
    if b < 0 then rest else rest[..b + 1] + INIT_CALL + rest[b + 1..]
  }

  /** Where the splice puts things: the text before `int main(void)` is
      kept, the block and a newline follow, then `main` itself with the init
      call after its first `{` (or unchanged when no `{` follows). A match
      at index 0, or none, appends the block instead. */
  lemma SpliceBeforeMainPlaces(content: string, marker: string, block: string)
    ensures var k := IndexOf(content, marker, 0);
      && (k <= 0 ==> SpliceBeforeMain(content, marker, block) == content + block)
      && (k > 0 ==>
            SpliceBeforeMain(content, marker, block)
              == content[..k] + block + "\n" + InitAfterBrace(content[k..]))
  {
    var k := IndexOf(content, marker, 0);
    if k > 0 {
      SpliceFound(content, marker, block, k);
    }
  }

  lemma SpliceFound(content: string, marker: string, block: string, k: nat)
    requires k == IndexOf(content, marker, 0) && k > 0
    ensures SpliceBeforeMain(content, marker, block)
              == content[..k] + block + "\n" + InitAfterBrace(content[k..])
  {
    var rest := content[k..];
    var b := IndexOf(rest, "{", 0);
    if b >= 0 {
      SpliceWithBrace(content, marker, block, k, b);
    } else {
      SpliceWithoutBrace(content, marker, block, k);
    }
  }

  /** The first `{` after the inserted block and newline is the first `{`
      of the text from `main` on. */
  lemma BraceInContext(x: string, rest: string, from: nat)
    requires from == |x|
    ensures var b := IndexOf(rest, "{", 0);
      IndexOf(x + "\n" + rest, "{", from) == if b < 0 then -1 else |x| + 1 + b
  {
    assert x + "\n" + rest == x + ("\n" + rest);
    IndexOfShift(x, "\n" + rest, "{", 0);
    BraceAfterNewline(rest);
  }

  lemma SpliceWithBrace(content: string, marker: string, block: string, k: nat, b: nat)
    requires k == IndexOf(content, marker, 0) && k > 0
    requires b == IndexOf(content[k..], "{", 0)
    ensures SpliceBeforeMain(content, marker, block)
              == content[..k] + block + "\n" + InitAfterBrace(content[k..])
  {
    var rest := content[k..];
    var x := content[..k] + block;
    var y := x + "\n";
    var n := y + rest;
    var after := rest[..b + 1] + INIT_CALL + rest[b + 1..];
    assert b < |rest| && InitAfterBrace(rest) == after by {
      InitAfterBraceAt(rest, b);
    }
    assert SpliceBeforeMain(content, marker, block) == InsertInitCall(n, |x|) by {
      SpliceFoundUnfold(content, marker, block, k);
    }
    assert InsertInitCall(n, |x|) == n[..|y| + b + 1] + INIT_CALL + n[|y| + b + 1..] by {
      BraceInContext(x, rest, |x|);
      InsertInitCallAt(n, |x|, |y| + b);
    }
    assert n[..|y| + b + 1] + INIT_CALL + n[|y| + b + 1..] == y + after by {
      InsertAfter(y, rest, b, INIT_CALL);
    }
  }

  /** With the marker found past the start, the splice is the init-call
      insertion into the text with the block in front of the marker. */
  lemma SpliceFoundUnfold(content: string, marker: string, block: string, k: nat)
    requires k == IndexOf(content, marker, 0) && k > 0
    ensures k <= |content|
    ensures SpliceBeforeMain(content, marker, block)
      == InsertInitCall(content[..k] + block + "\n" + content[k..], |content[..k] + block|)
  {
    SpliceFoundBody(content, marker, block, k);
  }

  lemma SpliceFoundBody(content: string, marker: string, block: string, k: nat)
    requires k == IndexOf(content, marker, 0) && k > 0
    ensures k <= |content|
    ensures SpliceBeforeMain(content, marker, block)
      == InsertInitCall(content[..k] + block + "\n" + content[k..], k + |block|)
  {
  }

  lemma InitAfterBraceAt(rest: string, b: nat)
    requires b == IndexOf(rest, "{", 0)
    ensures b < |rest| && InitAfterBrace(rest) == rest[..b + 1] + INIT_CALL + rest[b + 1..]
  {
  }

  /** Inserting after position `|y| + b` of `y + rest` inserts after
      position `b` of `rest`. */
  lemma InsertAfter(y: string, rest: string, b: nat, x: string)
    requires b < |rest|
    ensures (y + rest)[..|y| + b + 1] + x + (y + rest)[|y| + b + 1..]
         == y + (rest[..b + 1] + x + rest[b + 1..])
  {
    assert (y + rest)[..|y| + b + 1] == y + rest[..b + 1];
    assert (y + rest)[|y| + b + 1..] == rest[b + 1..];
  }

  lemma InsertInitCallAt(n: string, from: nat, brace: nat)
    requires brace == IndexOf(n, "{", from) && brace > 0
    ensures brace < |n| && InsertInitCall(n, from) == n[..brace + 1] + INIT_CALL + n[brace + 1..]
  {
  }

  lemma SpliceWithoutBrace(content: string, marker: string, block: string, k: nat)
    requires k == IndexOf(content, marker, 0) && k > 0
    requires IndexOf(content[k..], "{", 0) < 0
    ensures SpliceBeforeMain(content, marker, block)
              == content[..k] + block + "\n" + InitAfterBrace(content[k..])
  {
    BraceInContext(content[..k] + block, content[k..], k + |block|);
    assert InitAfterBrace(content[k..]) == content[k..];
  }

  lemma BraceAfterNewline(rest: string)
    ensures IndexOf("\n" + rest, "{", 0) ==
      if IndexOf(rest, "{", 0) < 0 then -1 else 1 + IndexOf(rest, "{", 0)
  {
    IndexOfShift("\n", rest, "{", 0);
    assert !MatchesFrom("\n" + rest, "{", 0, 0);
  }

  /** The driver block is spliced in as the characterisation says. */
  lemma AddSpiImplementationSplice(content: string)
    ensures var k := IndexOf(content, MAIN_SIGNATURE, 0);
      && (k <= 0 ==> AddSpiImplementation(content) == content + SPI_CODE)
      && (k > 0 ==>
            AddSpiImplementation(content)
              == content[..k] + SPI_CODE + "\n" + InitAfterBrace(content[k..]))
  {
    var block := SPI_CODE;
    assert AddSpiImplementation(content) == SpliceBeforeMain(content, MAIN_SIGNATURE, block);
    SpliceBeforeMainPlaces(content, MAIN_SIGNATURE, block);
  }

  /** A block naming `w` leaves `w` in the lower-cased result. */
  lemma SpliceKeepsWord(content: string, marker: string, head: string, w: string, tail: string)
    requires Lower(w) == w
    ensures Contains(Lower(SpliceBeforeMain(content, marker, head + w + tail)), w)
  {
    var block := head + w + tail;
    SpliceBeforeMainPlaces(content, marker, block);
    var k := IndexOf(content, marker, 0);
    if k <= 0 {
      Regroup(content, head, w, tail, [], []);
      MentionsWord(content + head, w, tail);
    } else {
      var init := InitAfterBrace(content[k..]);
      Regroup(content[..k], head, w, tail, "\n", init);
      MentionsWord(content[..k] + head, w, tail + "\n" + init);
    }
  }

  /** Moving the word to the middle of a splice. */
  lemma Regroup(a: string, head: string, w: string, tail: string, b: string, c: string)
    ensures a + (head + w + tail) + b + c == (a + head) + w + (tail + b + c)
    ensures a + (head + w + tail) == (a + head) + w + tail
  {
  }

  /** Whatever it is spliced into, the result mentions `lsm6dso32`, so the
      next main.c fix rewrites the driver instead of adding it again. */
  lemma AddedDriverIsRecognised(content: string)
    ensures Contains(Lower(AddSpiImplementation(content)), "lsm6dso32")
  {
    assert Lower("lsm6dso32") == "lsm6dso32";
    SpliceKeepsWord(content, MAIN_SIGNATURE, SPI_CODE_HEAD, "lsm6dso32", SPI_CODE_TAIL);
  }

  /** The frequency setting in existing driver code. */
  const C_FREQUENCY := "spi_cfg.frequency = "
  const C_SLOW_FREQUENCY := "spi_cfg.frequency = 500000"
  const TRANSCEIVE_CALL := "spi_transceive("
  const DELAYED_TRANSCEIVE := "k_msleep(1);\n\tspi_transceive("

  /** `_modify_existing_spi_code`: a clock issue lowers the configured
      frequency to 500 kHz; a timing issue puts a 1 ms sleep in front of
      every transfer. */
  function ModifyExistingSpiCode(content: string, issues: seq<string>): string {
    var c := if Mentions(issues, "clock")
             then DigitRunSub(content, C_FREQUENCY, "", C_SLOW_FREQUENCY) else content;
    if Mentions(issues, "timing") then ReplaceAll(c, TRANSCEIVE_CALL, DELAYED_TRANSCEIVE) else c
  }

  /** Without a clock or timing issue the code is left alone. */
  lemma ModifyExistingUnchanged(content: string, issues: seq<string>)
    requires !Mentions(issues, "clock") && !Mentions(issues, "timing")
    ensures ModifyExistingSpiCode(content, issues) == content
  {
  }

  /** A clock issue alone sets the configured frequency, whatever it was, to
      500000, and leaves everything up to it untouched. */
  lemma ClockIssueLowersFrequency(before: string, n: nat, rest: string, issues: seq<string>)
    requires Mentions(issues, "clock") && !Mentions(issues, "timing")
    requires rest == [] || !IsDigit(rest[0])
    requires forall j :: 0 <= j < |before| ==>
      DigitRunAt(before + C_FREQUENCY + Decimal(n) + rest, C_FREQUENCY, "", j).None?
    ensures ModifyExistingSpiCode(before + C_FREQUENCY + Decimal(n) + rest, issues)
      == before + C_SLOW_FREQUENCY + DigitRunSub(rest, C_FREQUENCY, "", C_SLOW_FREQUENCY)
  {
    assert before + C_FREQUENCY + Decimal(n) + "" + rest
        == before + C_FREQUENCY + Decimal(n) + rest;
    DecimalIsNumeral(n);
    DigitRunAfter(before, C_FREQUENCY, Decimal(n), "", rest, C_SLOW_FREQUENCY);
  }

  /** A timing issue alone leaves code without a transfer call alone, and
      otherwise puts the sleep in front of the first call. */
  lemma TimingIssueDelaysTransfers(content: string, issues: seq<string>)
    requires Mentions(issues, "timing") && !Mentions(issues, "clock")
    ensures !Contains(content, TRANSCEIVE_CALL) ==> ModifyExistingSpiCode(content, issues) == content
    ensures Contains(content, TRANSCEIVE_CALL) ==>
      var k := IndexOf(content, TRANSCEIVE_CALL, 0);
      0 <= k && ModifyExistingSpiCode(content, issues)
        == content[..k] + DELAYED_TRANSCEIVE
           + ReplaceFrom(content, TRANSCEIVE_CALL, DELAYED_TRANSCEIVE, k + |TRANSCEIVE_CALL|)
  {
    if Contains(content, TRANSCEIVE_CALL) {
      ReplaceAllFirst(content, TRANSCEIVE_CALL, DELAYED_TRANSCEIVE);
    } else {
      ReplaceAllAbsent(content, TRANSCEIVE_CALL, DELAYED_TRANSCEIVE);
    }
  }

  // ---------------------------------------------------------------------
  // The generator
  // ---------------------------------------------------------------------

  /** The generator's iteration counter and the two files it patches: the
      board device tree and `src/main.c` (None when a file does not exist). */
  class SpiCodeGenerator {
    var iterationCount: nat
    var dts: Option<string>
    var mainC: Option<string>

    constructor (dts: Option<string>, mainC: Option<string>)
      ensures iterationCount == 0 && this.dts == dts && this.mainC == mainC
    {
      iterationCount := 0;
      this.dts := dts;
      this.mainC := mainC;
    }

    /** `analyze_capture_results`: an error that asks for a fix when the
        file is missing or cannot be read; otherwise the detected issues, a
        fix needed exactly when there is one, and the current iteration. */
    method AnalyzeCaptureResults(capture: CaptureFile) returns (r: CaptureAnalysis)
      ensures capture.Missing? ==> r == CaptureError("Capture file not found", true)
      ensures capture.ReadFails? ==> r == CaptureError(capture.error, true)
      ensures capture.Present? ==>
        && r.CaptureIssues?
        && r.issues == CaptureIssuesOf(capture.content)
        && (r.fixNeeded <==> |r.issues| > 0)
        && r.iteration == iterationCount
      ensures r.CaptureError? ==> r.fixNeeded
    {
      match capture
      case Missing =>
        return CaptureError("Capture file not found", true);
      case ReadFails(e) =>
        return CaptureError(e, true);
      case Present(content) =>
        var issues := DetectCaptureIssues(content);
        return CaptureIssues(issues, |issues| > 0, iterationCount);
    }

    /** `generate_device_tree_fix`: selects the modifications for the
        current device tree and rewrites it only when there is at least
        one. */
    method GenerateDeviceTreeFix(issues: seq<string>) returns (written: bool)
      modifies this
      ensures iterationCount == old(iterationCount) && mainC == old(mainC)
      ensures old(dts).None? ==> !written && dts == old(dts)
      ensures old(dts).Some? ==>
        var mods := Selected(old(dts).value, issues);
        && (written <==> |mods| > 0)
        && dts == (if written then Some(ApplyAll(old(dts).value, mods)) else old(dts))
    {
      if dts.None? {
        return false;
      }
      var content := dts.value;
      var mods := SelectModifications(content, issues);
      if |mods| > 0 {
        var newContent := ApplyDtsModifications(content, mods);
        dts := Some(newContent);
        return true;
      }
      return false;
    }

    /** `generate_main_c_fix`: rewrites existing driver code (recognised by
        `lsm6dso32` in any case) or splices the driver in. */
    method GenerateMainCFix(issues: seq<string>) returns (written: bool)
      modifies this
      ensures iterationCount == old(iterationCount) && dts == old(dts)
      ensures written <==> old(mainC).Some?
      ensures old(mainC).None? ==> mainC == old(mainC)
      ensures old(mainC).Some? ==>
        var content := old(mainC).value;
        mainC == Some(if Contains(Lower(content), "lsm6dso32")
                      then ModifyExistingSpiCode(content, issues)
                      else AddSpiImplementation(content))
    {
      if mainC.None? {
        return false;
      }
      var content := mainC.value;
      var newContent;
      if Contains(Lower(content), "lsm6dso32") {
        newContent := ModifyExistingSpiCode(content, issues);
      } else {
        newContent := AddSpiImplementation(content);
      }
      mainC := Some(newContent);
      return true;
    }

    /** The start of `run_build_test_cycle`: the next iteration. */
    method StartIteration()
      modifies this
      ensures iterationCount == old(iterationCount) + 1
      ensures dts == old(dts) && mainC == old(mainC)
    {
      iterationCount := iterationCount + 1;
    }
  }
}
