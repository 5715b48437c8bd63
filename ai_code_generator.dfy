/**
 * The first "AI" code generator: classification of a stored test result
 * into a fixed-order list of issues, dispatch of the fix handlers, the
 * LSM6DSO32 test program it writes to `src/main.c`, and the idempotent
 * `CONFIG_SPI=y` append to `prj.conf`.
 */
module AiCodeGenerator {
  import opened Wrappers
  import opened Text
  import SpiCapture

  // ---------------------------------------------------------------------
  // Stored test results and their classification
  // ---------------------------------------------------------------------

  /** A `test_results_*.json` file as loaded; a key the file lacks is None. */
  datatype StoredResults = StoredResults(
    spiActivity: Option<bool>, whoAmIFound: Option<bool>, validResponses: Option<int>)

  /** The file the analyzer writes for a validation result. */
  function Stored(v: SpiCapture.ValidationResult): StoredResults {
    StoredResults(Some(v.spiActivity), Some(v.whoAmIFound), Some(v.validResponses))
  }

  /** `results.get(key, False)` / `results.get('valid_responses', 0)`. */
  predicate SpiActivity(r: StoredResults) { r.spiActivity.GetOr(false) }
  predicate WhoAmIFound(r: StoredResults) { r.whoAmIFound.GetOr(false) }
  function ValidResponses(r: StoredResults): int { r.validResponses.GetOr(0) }

  /** The analysis' `success` flag. */
  predicate Succeeds(r: StoredResults) {
    SpiActivity(r) && WhoAmIFound(r)
  }

  const NO_SPI_ACTIVITY := "no_spi_activity"
  const LSM6_NOT_RESPONDING := "lsm6_not_responding"
  const NO_VALID_RESPONSES := "no_valid_responses"

  /** The issues detected for a stored result, in detection order. */
  function ExpectedIssues(r: StoredResults): seq<string> {
    (if !SpiActivity(r) then [NO_SPI_ACTIVITY] else [])
    + (if SpiActivity(r) && !WhoAmIFound(r) then [LSM6_NOT_RESPONDING] else [])
    + (if ValidResponses(r) == 0 then [NO_VALID_RESPONSES] else [])
  }

  /** Position of each issue in the detection order. */
  function Rank(issue: string): nat {
    if issue == NO_SPI_ACTIVITY then 0
    else if issue == LSM6_NOT_RESPONDING then 1
    else 2
  }

  /** Issue detection of `analyze_test_results`: each check appends its
      issue to the list in turn. */
  method DetectIssues(r: StoredResults) returns (issues: seq<string>)
    ensures NO_SPI_ACTIVITY in issues <==> !SpiActivity(r)
    ensures LSM6_NOT_RESPONDING in issues <==> SpiActivity(r) && !WhoAmIFound(r)
    ensures NO_VALID_RESPONSES in issues <==> ValidResponses(r) == 0
    ensures forall i, j :: 0 <= i < j < |issues| ==> Rank(issues[i]) < Rank(issues[j])
    ensures issues == ExpectedIssues(r)
  {
    issues := [];
    if !r.spiActivity.GetOr(false) {
      issues := issues + [NO_SPI_ACTIVITY];
    }
    if r.spiActivity.GetOr(false) && !r.whoAmIFound.GetOr(false) {
      issues := issues + [LSM6_NOT_RESPONDING];
    }
    if r.validResponses.GetOr(0) == 0 {
      issues := issues + [NO_VALID_RESPONSES];
    }
    ExpectedIssuesMembership(r);
    ExpectedIssuesOrdered(r);
  }

  /** Each issue is reported exactly under its own condition, and nothing
      else is reported. */
  lemma ExpectedIssuesMembership(r: StoredResults)
    ensures NO_SPI_ACTIVITY in ExpectedIssues(r) <==> !SpiActivity(r)
    ensures LSM6_NOT_RESPONDING in ExpectedIssues(r) <==> SpiActivity(r) && !WhoAmIFound(r)
    ensures NO_VALID_RESPONSES in ExpectedIssues(r) <==> ValidResponses(r) == 0
    ensures forall x :: x in ExpectedIssues(r) ==>
      x == NO_SPI_ACTIVITY || x == LSM6_NOT_RESPONDING || x == NO_VALID_RESPONSES
  {
  }

  /** Issues appear in the fixed order, each at most once, and the first two
      never occur together. */
  lemma ExpectedIssuesOrdered(r: StoredResults)
    ensures forall i, j :: 0 <= i < j < |ExpectedIssues(r)| ==>
      Rank(ExpectedIssues(r)[i]) < Rank(ExpectedIssues(r)[j])
    ensures !(NO_SPI_ACTIVITY in ExpectedIssues(r) && LSM6_NOT_RESPONDING in ExpectedIssues(r))
    ensures |ExpectedIssues(r)| <= 2
  {
  }

  // ---------------------------------------------------------------------
  // The chain from the analyzer to the analysis
  // ---------------------------------------------------------------------

  /** Read from the analyzer's own result file, the analysis succeeds exactly
      when the analyzer's test passed, a success comes with no issue at all,
      and each issue names its cause in the decoded records. */
  lemma {:induction false} AnalyzerChain(d: seq<SpiCapture.Record>)
    ensures var s := Stored(SpiCapture.Validation(d));
      && (Succeeds(s) <==> SpiCapture.TestPasses(SpiCapture.Validation(d)))
      && (Succeeds(s) ==> ExpectedIssues(s) == [])
      && (NO_SPI_ACTIVITY in ExpectedIssues(s) <==> d == [])
      && (LSM6_NOT_RESPONDING in ExpectedIssues(s) <==> d != [] && !SpiCapture.WhoAmISeen(d))
      && (NO_VALID_RESPONSES in ExpectedIssues(s) <==> SpiCapture.MisoCount(d) == 0)
  {
    SpiCapture.WhoAmIImpliesMiso(d);
    ExpectedIssuesMembership(Stored(SpiCapture.Validation(d)));
  }

  // ---------------------------------------------------------------------
  // The generator's files
  // ---------------------------------------------------------------------

  /** One `ai_analysis_*.json`. */
  datatype Analysis = Analysis(
    iteration: nat, issues: seq<string>, success: bool, raw: StoredResults)

  /** What `analyze_test_results` returns: an error when there is no result
      file, otherwise the analysis. */
  datatype AnalysisOutcome = NoResults | Analyzed(analysis: Analysis)

  /** Keys of the fix table; every other issue is reported as unknown. */
  const FIX_TABLE: set<string> := {"no_clock", "no_cs", "no_data", "wrong_polarity",
                                   "timing_issues", "lsm6_not_responding"}

  /** `issue in self.spi_fixes`. */
  predicate HasFixHandler(issue: string) {
    issue in FIX_TABLE
  }

  /** The issues whose handler runs, in order, one entry per run. */
  function Handled(issues: seq<string>): (h: seq<string>)
    ensures |h| <= |issues|
    ensures forall x :: x in h <==> x in issues && x in FIX_TABLE
  {
    if issues == [] then []
    else
      var init := Handled(issues[..|issues| - 1]);
      var last := issues[|issues| - 1];
      assert issues == issues[..|issues| - 1] + [last];
      init + (if HasFixHandler(last) then [last] else [])
  }

  /** Of the issues the analysis can report, only the sensor fix has a
      handler. */
  lemma HandledExpected(r: StoredResults)
    ensures Handled(ExpectedIssues(r)) ==
      if SpiActivity(r) && !WhoAmIFound(r) then [LSM6_NOT_RESPONDING] else []
  {
    var a := if !SpiActivity(r) then [NO_SPI_ACTIVITY] else [];
    var b := if SpiActivity(r) && !WhoAmIFound(r) then [LSM6_NOT_RESPONDING] else [];
    var c := if ValidResponses(r) == 0 then [NO_VALID_RESPONSES] else [];
    assert NO_SPI_ACTIVITY !in FIX_TABLE;
    assert NO_VALID_RESPONSES !in FIX_TABLE;
    assert LSM6_NOT_RESPONDING in FIX_TABLE;
    HandledSingle(NO_SPI_ACTIVITY);
    HandledSingle(LSM6_NOT_RESPONDING);
    HandledSingle(NO_VALID_RESPONSES);
    HandledAppend(a, b);
    HandledAppend(a + b, c);
  }

  /** Handlers run issue by issue: the handlers of two lists are those of
      each list, in order. */
  lemma {:induction false} HandledAppend(a: seq<string>, b: seq<string>)
    ensures Handled(a + b) == Handled(a) + Handled(b)
    decreases |b|
  {
    if b == [] {
      assert a + b == a;
    } else {
      var b' := b[..|b| - 1];
      assert (a + b)[..|a + b| - 1] == a + b';
      HandledAppend(a, b');
    }
  }

  /** One more issue adds its handler, if it has one. */
  lemma HandledStep(issues: seq<string>, i: nat)
    requires i < |issues|
    ensures Handled(issues[..i + 1])
      == Handled(issues[..i]) + (if HasFixHandler(issues[i]) then [issues[i]] else [])
  {
    assert issues[..i + 1] == issues[..i] + [issues[i]];
    HandledAppend(issues[..i], [issues[i]]);
    HandledSingle(issues[i]);
  }

  /** One more issue is in the prefix read so far exactly when it was
      already there or is the next one. */
  lemma MemberStep(issues: seq<string>, i: nat, x: string)
    requires i < |issues|
    ensures (x in issues[..i + 1]) == (x in issues[..i] || issues[i] == x)
  {
    assert issues[..i + 1] == issues[..i] + [issues[i]];
  }

  lemma HandledSingle(x: string)
    ensures Handled([x]) == if HasFixHandler(x) then [x] else []
  {
    assert [x][..0] == [];
  }

  /** The test program `_generate_lsm6_init_fix` writes, around its iteration
      stamp. Long texts in this model are written as pieces of at most eight
      characters: the verifier's work on a string literal grows with the
      square of its length. */
  const LSM6_PROGRAM_HEAD := "/**\n * MIPE_EV1 - SPI + LSM6DSO32 Test\n * AI Generated Code - Iteration "
  const LSM6_PROGRAM_TAIL := "\n" + (" */\n"
      + "\n"
      + "#include" + " <zephyr" + "/kernel." + "h>\n"
      + "#include" + " <zephyr" + "/device." + "h>\n"
      + "#include" + " <zephyr" + "/drivers" + "/gpio.h>" + "\n"
      + "#include" + " <zephyr" + "/drivers" + "/spi.h>\n"
      + "\n"
      + "/* LSM6D" + "SO32 Reg" + "isters *" + "/\n"
      + "#define " + "LSM6_WHO" + "_AM_I_RE" + "G    0x0" + "F\n"
      + "#define " + "LSM6_WHO" + "_AM_I_VA" + "LUE  0x6" + "C\n"
      + "\n"
      + "/* SPI C" + "onfigura" + "tion */\n"
      + "static c" + "onst str" + "uct devi" + "ce *spi_" + "dev = DE" + "VICE_DT_" + "GET(DT_N" + "ODELABEL" + "(spi0));" + "\n"
      + "\n"
      + "static s" + "truct sp" + "i_config" + " spi_cfg" + " = {\n"
      + "    .fre" + "quency =" + " 1000000" + ",  /* 1M" + "Hz */\n"
      + "    .ope" + "ration =" + " SPI_WOR" + "D_SET(8)" + " | SPI_T" + "RANSFER_" + "MSB,\n"
      + "    .sla" + "ve = 0,\n"
      + "    .cs " + "= NULL,\n"
      + "};\n"
      + "\n"
      + "/* GPIO " + "for manu" + "al CS co" + "ntrol */" + "\n"
      + "static c" + "onst str" + "uct gpio" + "_dt_spec" + " cs_pin " + "= GPIO_D" + "T_SPEC_G" + "ET(DT_AL" + "IAS(spi_" + "cs), gpi" + "os);\n"
      + "\n"
      + "int lsm6" + "_read_wh" + "o_am_i(v" + "oid)\n"
      + "{\n"
      + "    uint" + "8_t tx_b" + "uf[2] = " + "{LSM6_WH" + "O_AM_I_R" + "EG | 0x8" + "0, 0x00}" + ";  /* Re" + "ad bit s" + "et */\n"
      + "    uint" + "8_t rx_b" + "uf[2] = " + "{0};\n"
      + "    \n"
      + "    stru" + "ct spi_b" + "uf tx_sp" + "i_buf = " + "{.buf = " + "tx_buf, " + ".len = 2" + "};\n"
      + "    stru" + "ct spi_b" + "uf rx_sp" + "i_buf = " + "{.buf = " + "rx_buf, " + ".len = 2" + "};\n"
      + "    \n"
      + "    stru" + "ct spi_b" + "uf_set t" + "x_set = " + "{.buffer" + "s = &tx_" + "spi_buf," + " .count " + "= 1};\n"
      + "    stru" + "ct spi_b" + "uf_set r" + "x_set = " + "{.buffer" + "s = &rx_" + "spi_buf," + " .count " + "= 1};\n"
      + "    \n"
      + "    /* M" + "anual CS" + " control" + " */\n"
      + "    gpio" + "_pin_set" + "_dt(&cs_" + "pin, 0);" + "  /* CS " + "active l" + "ow */\n"
      + "    \n"
      + "    int " + "ret = sp" + "i_transc" + "eive(spi" + "_dev, &s" + "pi_cfg, " + "&tx_set," + " &rx_set" + ");\n"
      + "    \n"
      + "    gpio" + "_pin_set" + "_dt(&cs_" + "pin, 1);" + "  /* CS " + "inactive" + " */\n"
      + "    \n"
      + "    if (" + "ret == 0" + ") {\n"
      + "        " + "return r" + "x_buf[1]" + ";  /* WH" + "O_AM_I v" + "alue */\n"
      + "    }\n"
      + "    \n"
      + "    retu" + "rn -1;\n"
      + "}\n"
      + "\n"
      + "int main" + "(void)\n"
      + "{\n"
      + "    /* C" + "onfigure" + " CS pin " + "*/\n"
      + "    gpio" + "_pin_con" + "figure_d" + "t(&cs_pi" + "n, GPIO_" + "OUTPUT_H" + "IGH);\n"
      + "    \n"
      + "    /* T" + "est SPI " + "communic" + "ation */" + "\n"
      + "    whil" + "e (1) {\n"
      + "        " + "int who_" + "am_i = l" + "sm6_read" + "_who_am_" + "i();\n"
      + "        " + "\n"
      + "        " + "if (who_" + "am_i == " + "LSM6_WHO" + "_AM_I_VA" + "LUE) {\n"
      + "        " + "    /* S" + "uccess -" + " toggle " + "LED */\n"
      + "        " + "    // L" + "ED indic" + "ation co" + "de here\n"
      + "        " + "}\n"
      + "        " + "\n"
      + "        " + "k_msleep" + "(1000); " + " /* Test" + " every s" + "econd */" + "\n"
      + "    }\n"
      + "    \n"
      + "    retu" + "rn 0;\n"
      + "}")

  /** The LSM6DSO32 test program written to `src/main.c`, stamped with the
      iteration that generated it. */
  function Lsm6Program(iteration: nat): string {
    LSM6_PROGRAM_HEAD + Decimal(iteration) + LSM6_PROGRAM_TAIL
  }

  /** Different iterations write different programs: the iteration stamp can
      be read back from the file. */
  lemma Lsm6ProgramInjective(i: nat, j: nat)
    ensures Lsm6Program(i) == Lsm6Program(j) ==> i == j
  {
    if Lsm6Program(i) == Lsm6Program(j) {
      StampInjective(LSM6_PROGRAM_HEAD, LSM6_PROGRAM_TAIL, i, j);
    }
  }

  /** A decimal stamp between a fixed head and a tail starting with a
      newline determines the number. */
  lemma StampInjective(h: string, t: string, i: nat, j: nat)
    requires |t| > 0 && t[0] == '\n'
    requires h + Decimal(i) + t == h + Decimal(j) + t
    ensures i == j
  {
      var di, dj := Decimal(i), Decimal(j);
      assert (h + di + t)[|h|..] == di + t;
      assert (h + dj + t)[|h|..] == dj + t;
      DecimalRoundTrip(i);
      DecimalRoundTrip(j);
      assert di == (di + t)[..|di|] == (dj + t)[..|dj|] == dj;
  }

  const SPI_ENABLED := "CONFIG_SPI=y"
  const SPI_BLOCK := "\n# AI Added: Enable SPI\n" + SPI_ENABLED + "\n"

  /** `prj.conf` after the configuration update: the SPI block is appended
      unless SPI is already enabled. */
  function WithSpiEnabled(content: string): (r: string)
    ensures |r| >= |content| && r[..|content|] == content
    ensures Contains(r, SPI_ENABLED)
    ensures Contains(content, SPI_ENABLED) ==> r == content
    ensures !Contains(content, SPI_ENABLED) ==> r == content + SPI_BLOCK
  {
    if Contains(content, SPI_ENABLED) then content
    else
      ContainsSelf(SPI_ENABLED);
      ContainsWithin(content + "\n# AI Added: Enable SPI\n", SPI_ENABLED, "\n", SPI_ENABLED);
      assert content + SPI_BLOCK == content + "\n# AI Added: Enable SPI\n" + SPI_ENABLED + "\n";
      content + SPI_BLOCK
  }

  /** Running the update twice is the same as running it once. */
  lemma WithSpiEnabledIdempotent(content: string)
    ensures WithSpiEnabled(WithSpiEnabled(content)) == WithSpiEnabled(content)
  {
  }

  /** The generator's view of the project: the stored test results and
      analyses (oldest first, the latest last), `src/main.c`, and
      `prj.conf` (None when the file does not exist). */
  class Generator {
    var testResults: seq<StoredResults>
    var analyses: seq<Analysis>
    var mainC: string
    var prjConf: Option<string>

    constructor (testResults: seq<StoredResults>, analyses: seq<Analysis>,
                 mainC: string, prjConf: Option<string>)
      ensures this.testResults == testResults && this.analyses == analyses
      ensures this.mainC == mainC && this.prjConf == prjConf
    {
      this.testResults := testResults;
      this.analyses := analyses;
      this.mainC := mainC;
      this.prjConf := prjConf;
    }

    /** `_get_iteration_count`: one per stored analysis. What the count
        means is stated by `AnalyzeTestResults`, which numbers each new
        analysis one past it. */
    function IterationCount(): nat
      reads this
    {
      |analyses|
    }

    /** `analyze_test_results`: classifies the latest test result and stores
        the analysis, numbered one past the analyses already stored. */
    method AnalyzeTestResults() returns (outcome: AnalysisOutcome)
      modifies this
      ensures testResults == old(testResults) && mainC == old(mainC) && prjConf == old(prjConf)
      ensures old(testResults) == [] ==> outcome == NoResults && analyses == old(analyses)
      ensures old(testResults) != [] ==>
        var latest := old(testResults)[|old(testResults)| - 1];
        && outcome == Analyzed(Analysis(|old(analyses)| + 1, ExpectedIssues(latest),
                                         Succeeds(latest), latest))
        && analyses == old(analyses) + [outcome.analysis]
    {
      if testResults == [] {
        return NoResults;
      }
      var results := testResults[|testResults| - 1];
      var issues := DetectIssues(results);
      var analysis := Analysis(IterationCount() + 1, issues,
                               results.spiActivity.GetOr(false) && results.whoAmIFound.GetOr(false),
                               results);
      analyses := analyses + [analysis];
      outcome := Analyzed(analysis);
    }

    /** `generate_code_fix`: nothing to do after a success; otherwise runs the
        handler of every issue in the fix table (only the sensor handler
        changes a file, rewriting `src/main.c`), updates `prj.conf`, and
        asks for another iteration. `handled` lists the handlers run. */
    method GenerateCodeFix(analysis: Analysis) returns (done: bool, handled: seq<string>)
      modifies this
      ensures done <==> analysis.success
      ensures testResults == old(testResults) && analyses == old(analyses)
      ensures analysis.success ==> handled == [] && mainC == old(mainC) && prjConf == old(prjConf)
      ensures !analysis.success ==>
        && handled == Handled(analysis.issues)
        && mainC == (if LSM6_NOT_RESPONDING in analysis.issues
                     then Lsm6Program(analysis.iteration) else old(mainC))
        && prjConf == (if old(prjConf).Some? then Some(WithSpiEnabled(old(prjConf).value)) else None)
    {
      if analysis.success {
        return true, [];
      }
      handled := RunHandlers(analysis.issues, analysis.iteration);
      UpdateConfigurations();
      done := false;
    }

    /** The dispatch loop: each issue of the fix table runs its handler, in
        list order; every other issue is reported as unknown. */
    method RunHandlers(issues: seq<string>, iteration: nat) returns (handled: seq<string>)
      modifies this
      ensures testResults == old(testResults) && analyses == old(analyses) && prjConf == old(prjConf)
      ensures handled == Handled(issues)
      ensures mainC == if LSM6_NOT_RESPONDING in issues then Lsm6Program(iteration) else old(mainC)
    {
      handled := [];
      ghost var sensorFixed := false;
      var i := 0;
      while i < |issues|
        invariant 0 <= i <= |issues|
        invariant handled == Handled(issues[..i])
        invariant sensorFixed == (LSM6_NOT_RESPONDING in issues[..i])
        invariant mainC == if sensorFixed then Lsm6Program(iteration) else old(mainC)
        invariant testResults == old(testResults) && analyses == old(analyses)
        invariant prjConf == old(prjConf)
      {
        var issue := issues[i];
        assert Handled(issues[..i + 1]) == handled + (if HasFixHandler(issue) then [issue] else []) by {
          HandledStep(issues, i);
        }
        assert (LSM6_NOT_RESPONDING in issues[..i + 1]) == (sensorFixed || issue == LSM6_NOT_RESPONDING) by {
          MemberStep(issues, i, LSM6_NOT_RESPONDING);
        }
        if HasFixHandler(issue) {
          handled := handled + [issue];
          RunHandler(issue, iteration);
        }
        sensorFixed := sensorFixed || issue == LSM6_NOT_RESPONDING;
        i := i + 1;
      }
      assert issues[..i] == issues;
    }

    /** The handler of one issue of the fix table. The clock, chip-select,
        data, polarity and timing handlers only report; the sensor handler
        writes the LSM6DSO32 test program to `src/main.c`. */
    method RunHandler(issue: string, iteration: nat)
      requires HasFixHandler(issue)
      modifies this
      ensures testResults == old(testResults) && analyses == old(analyses) && prjConf == old(prjConf)
      ensures mainC == if issue == LSM6_NOT_RESPONDING then Lsm6Program(iteration) else old(mainC)
    {
      if issue == LSM6_NOT_RESPONDING {
        mainC := Lsm6Program(iteration);
      }
    }

    /** `_update_configurations`: enables SPI in an existing `prj.conf`. */
    method UpdateConfigurations()
      modifies this
      ensures testResults == old(testResults) && analyses == old(analyses) && mainC == old(mainC)
      ensures prjConf == (if old(prjConf).Some? then Some(WithSpiEnabled(old(prjConf).value)) else None)
    {
      if prjConf.Some? {
        var content := prjConf.value;
        if !Contains(content, SPI_ENABLED) {
          content := content + SPI_BLOCK;
          prjConf := Some(content);
        }
      }
    }
  }
}
