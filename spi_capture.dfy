/**
 * The logic-analyzer automation's own logic: the sigrok SPI decoder
 * descriptor, the device-scan test, parsing of the decoded CSV into
 * {time, type, data} records, the LSM6DSO32 WHO_AM_I validator and the pass
 * condition of the automated test run.
 */
module SpiCapture {
  import opened Wrappers
  import opened Text

  // ---------------------------------------------------------------------
  // Decoder descriptor
  // ---------------------------------------------------------------------

  /** Logic-analyzer channel of each SPI line. */
  datatype ChannelMap = ChannelMap(clk: nat, mosi: nat, miso: nat, cs: nat)

  /** CH0 clock, CH1 MOSI, CH2 MISO, CH3 chip select. */
  const DEFAULT_CHANNELS := ChannelMap(0, 1, 2, 3)

  /** The `-P` argument handed to sigrok: `spi:clk=C:mosi=M:miso=I:cs=S`. */
  function ProtocolDef(m: ChannelMap): string {
    "spi:clk=" + Decimal(m.clk) + ":mosi=" + Decimal(m.mosi)
      + ":miso=" + Decimal(m.miso) + ":cs=" + Decimal(m.cs)
  }

  /** Reads one `key=digits` field of a descriptor. */
  function ParseField(field: string, key: string): Option<nat> {
    var n := |key| + 1;
    if |field| > n && field[..n] == key + "="
       && forall i :: n <= i < |field| ==> IsDigit(field[i])
    then
      assert forall i :: 0 <= i < |field[n..]| ==> IsDigit(field[n..][i]) by {
        forall i | 0 <= i < |field[n..]| ensures IsDigit(field[n..][i]) {
          assert field[n..][i] == field[n + i];
        }
      }
      Some(ParseDecimal(field[n..]))
    else None
  }

  /** Reads a descriptor back into a channel map, the way the decoder
      interprets its `-P` option. */
  function ParseProtocolDef(s: string): Option<ChannelMap> {
    var f := Split(s, ':');
    if |f| != 5 || f[0] != "spi" then None
    else
      match (ParseField(f[1], "clk"), ParseField(f[2], "mosi"),
             ParseField(f[3], "miso"), ParseField(f[4], "cs"))
      case (Some(c), Some(o), Some(i), Some(s)) => Some(ChannelMap(c, o, i, s))
      case _ => None
  }

  lemma FieldRoundTrip(key: string, n: nat)
    ensures ParseField(key + "=" + Decimal(n), key) == Some(n)
  {
    DecimalRoundTrip(n);
    var field := key + "=" + Decimal(n);
    assert field[..|key| + 1] == key + "=";
    assert field[|key| + 1..] == Decimal(n);
  }

  lemma DecimalHasNoColon(n: nat)
    ensures ':' !in Decimal(n)
  {
    DecimalDigits(n);
    forall i | 0 <= i < |Decimal(n)|
      ensures Decimal(n)[i] != ':'
    {
      assert IsDigit(Decimal(n)[i]);
    }
  }

  /** The descriptor is unambiguous: the decoder reads back exactly the
      channel assignment it was built from. */
  lemma ProtocolDefRoundTrip(m: ChannelMap)
    ensures ParseProtocolDef(ProtocolDef(m)) == Some(m)
  {
    var parts := ProtocolFields(m);
    ProtocolDefSplit(m);
    assert parts[1] == "clk" + "=" + Decimal(m.clk);
    assert parts[2] == "mosi" + "=" + Decimal(m.mosi);
    assert parts[3] == "miso" + "=" + Decimal(m.miso);
    assert parts[4] == "cs" + "=" + Decimal(m.cs);
    FieldRoundTrip("clk", m.clk);
    FieldRoundTrip("mosi", m.mosi);
    FieldRoundTrip("miso", m.miso);
    FieldRoundTrip("cs", m.cs);
  }

  /** The five colon-free pieces of a descriptor. */
  function ProtocolFields(m: ChannelMap): seq<string> {
    ["spi", "clk=" + Decimal(m.clk), "mosi=" + Decimal(m.mosi),
     "miso=" + Decimal(m.miso), "cs=" + Decimal(m.cs)]
  }

  lemma JoinFive(a: string, b: string, c: string, d: string, e: string)
    ensures Join([a, b, c, d, e], ':') == a + ":" + b + ":" + c + ":" + d + ":" + e
  {
    var parts := [a, b, c, d, e];
    assert parts[4..] == [e];
    assert parts[3..] == [d, e] && parts[3..][1..] == [e];
    assert parts[2..] == [c, d, e] && parts[2..][1..] == [d, e];
    assert parts[1..] == [b, c, d, e] && parts[1..][1..] == [c, d, e];
    assert Join([e], ':') == e;
    assert Join([d, e], ':') == d + ":" + e;
    assert Join([c, d, e], ':') == c + ":" + (d + ":" + e);
    assert Join([b, c, d, e], ':') == b + ":" + (c + ":" + (d + ":" + e));
  }

  lemma ProtocolDefSplit(m: ChannelMap)
    ensures Split(ProtocolDef(m), ':') == ProtocolFields(m)
  {
    var parts := ProtocolFields(m);
    assert forall i :: 0 <= i < |parts| ==> ':' !in parts[i] by {
      DecimalHasNoColon(m.clk);
      DecimalHasNoColon(m.mosi);
      DecimalHasNoColon(m.miso);
      DecimalHasNoColon(m.cs);
      assert ':' !in "spi" && ':' !in "clk=" && ':' !in "mosi=" && ':' !in "miso=" && ':' !in "cs=";
    }
    assert ProtocolDef(m) == Join(parts, ':') by {
      JoinFive(parts[0], parts[1], parts[2], parts[3], parts[4]);
      assert [parts[0], parts[1], parts[2], parts[3], parts[4]] == parts;
      ProtocolDefPieces(Decimal(m.clk), Decimal(m.mosi), Decimal(m.miso), Decimal(m.cs));
    }
    SplitJoin(parts, ':');
  }

  /** The descriptor regrouped field by field. */
  lemma ProtocolDefPieces(a: string, b: string, c: string, d: string)
    ensures "spi:clk=" + a + ":mosi=" + b + ":miso=" + c + ":cs=" + d
      == "spi" + ":" + ("clk=" + a) + ":" + ("mosi=" + b) + ":" + ("miso=" + c) + ":" + ("cs=" + d)
  {
    assert "spi:clk=" == "spi" + ":" + "clk=";
    assert ":mosi=" == ":" + "mosi=";
    assert ":miso=" == ":" + "miso=";
    assert ":cs=" == ":" + "cs=";
  }

  /** With the default wiring the descriptor is `spi:clk=0:mosi=1:miso=2:cs=3`. */
  lemma DefaultProtocolDef()
    ensures ProtocolDef(DEFAULT_CHANNELS) == "spi:clk=0:mosi=1:miso=2:cs=3"
  {
  }

  // ---------------------------------------------------------------------
  // Device scan
  // ---------------------------------------------------------------------

  /** `scan_devices`: the output of `sigrok-cli --scan`, or None when the
      command failed; a supported analyzer is an fx2lafw or a Saleae Logic. */
  predicate ScanFindsAnalyzer(scanOutput: Option<string>) {
    scanOutput.Some?
    && (Contains(scanOutput.value, "fx2lafw") || Contains(scanOutput.value, "Saleae Logic"))
  }

  /** A detected analyzer stays detected whatever else the scan prints, and a
      failed scan never detects one. */
  lemma ScanDetectionStable(before: string, out: string, after: string)
    ensures ScanFindsAnalyzer(Some(out)) ==> ScanFindsAnalyzer(Some(before + out + after))
    ensures !ScanFindsAnalyzer(None)
  {
    if Contains(out, "fx2lafw") {
      ContainsWithin(before, out, after, "fx2lafw");
    }
    if Contains(out, "Saleae Logic") {
      ContainsWithin(before, out, after, "Saleae Logic");
    }
  }

  // ---------------------------------------------------------------------
  // CSV parsing
  // ---------------------------------------------------------------------

  /** One decoded SPI event; `kind` is the CSV's second (`type`) column. */
  datatype Record = Record(time: string, kind: string, data: string)

  type Row = seq<string>

  /** The decoded CSV file as the csv reader yields it, or Unreadable when
      opening or reading it raised. */
  datatype CsvFile = Rows(rows: seq<Row>) | Unreadable

  function ToRecord(row: Row): Record
    requires |row| >= 3
  {
    Record(row[0], row[1], row[2])
  }

  /** The records kept from `rows`: each row with at least three fields, in
      order, fields beyond the third ignored. */
  function ParseRows(rows: seq<Row>): seq<Record> {
    if rows == [] then []
    else
      var last := rows[|rows| - 1];
      ParseRows(rows[..|rows| - 1]) + (if |last| >= 3 then [ToRecord(last)] else [])
  }

  /** What `_parse_spi_csv` returns for a file. */
  function CsvRecords(file: CsvFile): seq<Record> {
    match file
    case Unreadable => []
    case Rows(rows) => ParseRows(rows)
  }

  /** `_parse_spi_csv`: appends one record per row of at least three fields;
      a file that cannot be read gives no records. */
  method ParseSpiCsv(file: CsvFile) returns (spiData: seq<Record>)
    ensures file.Unreadable? ==> spiData == []
    ensures file.Rows? ==> spiData == ParseRows(file.rows)
  {
    spiData := [];
    if file.Rows? {
      var rows := file.rows;
      var i := 0;
      while i < |rows|
        invariant 0 <= i <= |rows|
        invariant spiData == ParseRows(rows[..i])
      {
        assert rows[..i + 1][..i] == rows[..i];
        var row := rows[i];
        if |row| >= 3 {
          spiData := spiData + [Record(row[0], row[1], row[2])];
        }
        i := i + 1;
      }
      assert rows[..i] == rows;
    }
  }

  /** Parsing is row by row: the records of two row blocks are the records
      of each block, in order. */
  lemma {:induction false} ParseRowsAppend(a: seq<Row>, b: seq<Row>)
    ensures ParseRows(a + b) == ParseRows(a) + ParseRows(b)
    decreases |b|
  {
    if b == [] {
      assert a + b == a;
    } else {
      var b' := b[..|b| - 1];
      assert (a + b)[..|a + b| - 1] == a + b';
      ParseRowsAppend(a, b');
    }
  }

  /** A single row gives one record exactly when it has three fields or more. */
  lemma ParseRowsSingle(row: Row)
    ensures ParseRows([row]) == if |row| >= 3 then [ToRecord(row)] else []
  {
    assert [row][..0] == [];
  }

  /** Rows are only dropped, never invented: there are at most as many
      records as rows, and every record is some kept row's first three
      fields. */
  lemma {:induction false} ParseRowsBound(rows: seq<Row>)
    ensures |ParseRows(rows)| <= |rows|
    ensures forall r :: r in ParseRows(rows) ==>
      exists j :: 0 <= j < |rows| && |rows[j]| >= 3 && r == ToRecord(rows[j])
  {
    if rows != [] {
      var init := rows[..|rows| - 1];
      ParseRowsBound(init);
      forall r | r in ParseRows(rows)
        ensures exists j :: 0 <= j < |rows| && |rows[j]| >= 3 && r == ToRecord(rows[j])
      {
        if r in ParseRows(init) {
          var j :| 0 <= j < |init| && |init[j]| >= 3 && r == ToRecord(init[j]);
          assert rows[j] == init[j];
        } else {
          assert r == ToRecord(rows[|rows| - 1]);
        }
      }
    }
  }

  /** Every row of three fields or more yields its record. */
  lemma {:induction false} ParseRowsKeeps(rows: seq<Row>, j: nat)
    requires j < |rows| && |rows[j]| >= 3
    ensures ToRecord(rows[j]) in ParseRows(rows)
  {
    if j < |rows| - 1 {
      var init := rows[..|rows| - 1];
      assert init[j] == rows[j];
      ParseRowsKeeps(init, j);
    }
  }

  // ---------------------------------------------------------------------
  // WHO_AM_I validation
  // ---------------------------------------------------------------------

  /** The result record written to `test_results_<timestamp>.json`. */
  datatype ValidationResult = ValidationResult(
    spiActivity: bool, whoAmIFound: bool, validResponses: nat, rawData: seq<Record>)

  /** The record's type column names the MISO line, in any case. */
  predicate IsMiso(r: Record) {
    Contains(Lower(r.kind), "miso")
  }

  /** Every lower-case `0x`, then every space, deleted. */
  function Normalize(data: string): string {
    ReplaceAll(ReplaceAll(data, "0x", ""), " ", "")
  }

  /** The substring test for the WHO_AM_I value 0x6C (108 in decimal). */
  predicate MatchesWhoAmI(data: string) {
    var d := Normalize(data);
    Contains(Upper(d), "6C") || Contains(d, "108")
  }

  /** Number of MISO records. */
  function MisoCount(records: seq<Record>): nat {
    if records == [] then 0
    else MisoCount(records[..|records| - 1]) + (if IsMiso(records[|records| - 1]) then 1 else 0)
  }

  /** A MISO record whose data passes the WHO_AM_I test. */
  predicate Recognised(r: Record) {
    IsMiso(r) && MatchesWhoAmI(r.data)
  }

  /** Some record is recognised. */
  predicate WhoAmISeen(records: seq<Record>) {
    records != []
    && (WhoAmISeen(records[..|records| - 1]) || Recognised(records[|records| - 1]))
  }

  /** The validator's result as a function of the decoded records. */
  function Validation(spiData: seq<Record>): ValidationResult {
    ValidationResult(|spiData| > 0, WhoAmISeen(spiData), MisoCount(spiData), spiData)
  }

  /** `validate_lsm6_communication`: one pass over the records, counting MISO
      records and raising the WHO_AM_I flag on the first one that passes the
      substring test. */
  method ValidateLsm6Communication(spiData: seq<Record>) returns (results: ValidationResult)
    ensures results.spiActivity <==> |spiData| > 0
    ensures results.rawData == spiData
    ensures results.validResponses <= |spiData|
    ensures results.whoAmIFound <==>
      exists i :: 0 <= i < |spiData| && IsMiso(spiData[i]) && MatchesWhoAmI(spiData[i].data)
    ensures results.whoAmIFound ==> results.validResponses >= 1
    ensures results == Validation(spiData)
  {
    results := ValidationResult(|spiData| > 0, false, 0, spiData);
    var i := 0;
    while i < |spiData|
      invariant 0 <= i <= |spiData|
      invariant results == ValidationResult(|spiData| > 0, WhoAmISeen(spiData[..i]),
                                            MisoCount(spiData[..i]), spiData)
    {
      assert spiData[..i + 1][..i] == spiData[..i];
      var entry := spiData[i];
      if Contains(Lower(entry.kind), "miso") {
        var data := ReplaceAll(ReplaceAll(entry.data, "0x", ""), " ", "");
        if Contains(Upper(data), "6C") || Contains(data, "108") {
          results := results.(whoAmIFound := true);
        }
        results := results.(validResponses := results.validResponses + 1);
      }
      i := i + 1;
    }
    assert spiData[..i] == spiData;
    MisoCountBound(spiData);
    WhoAmISeenIff(spiData);
    WhoAmIImpliesMiso(spiData);
  }

  /** The MISO count never exceeds the number of records. */
  lemma {:induction false} MisoCountBound(records: seq<Record>)
    ensures MisoCount(records) <= |records|
  {
    if records != [] {
      MisoCountBound(records[..|records| - 1]);
    }
  }

  /** The WHO_AM_I flag is set exactly when some MISO record's data passes
      the substring test; records of any other type never set it. */
  lemma {:induction false} WhoAmISeenIff(records: seq<Record>)
    ensures WhoAmISeen(records) <==> exists i :: 0 <= i < |records| && Recognised(records[i])
  {
    if records != [] {
      var init := records[..|records| - 1];
      WhoAmISeenIff(init);
      if WhoAmISeen(init) {
        var i :| 0 <= i < |init| && Recognised(init[i]);
        assert records[i] == init[i];
      }
      if exists i :: 0 <= i < |records| && Recognised(records[i]) {
        var i :| 0 <= i < |records| && Recognised(records[i]);
        if i < |init| {
          assert init[i] == records[i];
        }
      }
    }
  }

  /** A found WHO_AM_I implies at least one counted MISO response. */
  lemma {:induction false} WhoAmIImpliesMiso(records: seq<Record>)
    ensures WhoAmISeen(records) ==> MisoCount(records) >= 1
  {
    if records != [] {
      WhoAmIImpliesMiso(records[..|records| - 1]);
    }
  }

  /** An empty capture: no activity, no WHO_AM_I, no responses. */
  lemma EmptyCaptureValidation()
    ensures Validation([]) == ValidationResult(false, false, 0, [])
  {
  }

  /** A MISO record carrying `0x6C` is recognised and counted. */
  lemma MisoHexReplyFound(t: string)
    ensures Validation([Record(t, "MISO", "0x6C")]).whoAmIFound
    ensures Validation([Record(t, "MISO", "0x6C")]).validResponses == 1
  {
    var rs := [Record(t, "MISO", "0x6C")];
    assert rs[..0] == [];
    assert Lower("MISO") == "miso";
    ContainsSelf("miso");
    assert IsMiso(rs[0]);
    assert MisoCount(rs) == MisoCount(rs[..0]) + 1;
    assert Normalize("0x6C") == "6C";
    assert Upper("6C") == "6C";
    ContainsSelf("6C");
  }

  /** The same bytes seen on MOSI are neither counted nor recognised. */
  lemma MosiReplyIgnored(t: string)
    ensures !Validation([Record(t, "MOSI", "0x6C")]).whoAmIFound
    ensures Validation([Record(t, "MOSI", "0x6C")]).validResponses == 0
  {
    var rs := [Record(t, "MOSI", "0x6C")];
    assert rs[..0] == [];
    assert Lower("MOSI") == "mosi";
    assert "mosi"[1] != "miso"[1];
    assert !MatchesFrom("mosi", "miso", 0, 0);
    assert !IsMiso(rs[0]);
    assert !WhoAmISeen(rs[..0]);
    assert MisoCount(rs) == MisoCount(rs[..0]);
  }

  /** The decimal spelling `108` is recognised. */
  lemma DecimalReplyFound()
    ensures MatchesWhoAmI("108")
  {
    assert Normalize("108") == "108";
    ContainsSelf("108");
  }

  /** The test works on characters, not bytes: `10 8` (two bytes 0x10 and
      0x08, or digits split by a space) and `0x06 0xC0` (bytes 0x06 and 0xC0)
      both pass although neither holds the byte 0x6C. */
  lemma WhoAmIFalsePositives()
    ensures MatchesWhoAmI("10 8")
    ensures MatchesWhoAmI("0x06 0xC0")
  {
    SpacedDigitsNormalized();
    ContainsSelf("108");
    SpacedBytesNormalized();
    assert Upper("06C0") == "06C0";
    assert OccursAt("06C0", "6C", 1);
    ContainsAt("06C0", "6C", 1);
  }

  /** Deleting the space from `10 8` leaves `108`. */
  lemma SpacedDigitsNormalized()
    ensures Normalize("10 8") == "108"
  {
    var s := "10 8";
    ReplaceFromMismatch(s, "0x", "", 0, 0);
    ReplaceFromMismatch(s, "0x", "", 1, 1);
    ReplaceFromMismatch(s, "0x", "", 2, 0);
    assert ReplaceAll(s, "0x", "") == s;
    ReplaceFromMismatch(s, " ", "", 0, 0);
    ReplaceFromMismatch(s, " ", "", 1, 0);
    ReplaceFromMatch(s, " ", "", 2);
    ReplaceFromMismatch(s, " ", "", 3, 0);
  }

  /** Deleting `0x` and then the space from `0x06 0xC0` leaves `06C0`. */
  lemma SpacedBytesNormalized()
    ensures Normalize("0x06 0xC0") == "06C0"
  {
    HexPrefixesDeleted();
    SpaceDeleted();
  }

  lemma HexPrefixesDeleted()
    ensures ReplaceAll("0x06 0xC0", "0x", "") == "06 C0"
  {
    var s := "0x06 0xC0";
    ReplaceFromMatch(s, "0x", "", 0);
    ReplaceFromMismatch(s, "0x", "", 2, 1);
    ReplaceFromMismatch(s, "0x", "", 3, 0);
    ReplaceFromMismatch(s, "0x", "", 4, 0);
    ReplaceFromMatch(s, "0x", "", 5);
    ReplaceFromMismatch(s, "0x", "", 7, 0);
  }

  lemma SpaceDeleted()
    ensures ReplaceAll("06 C0", " ", "") == "06C0"
  {
    var t := "06 C0";
    ReplaceFromMismatch(t, " ", "", 0, 0);
    ReplaceFromMismatch(t, " ", "", 1, 0);
    ReplaceFromMatch(t, " ", "", 2);
    ReplaceFromMismatch(t, " ", "", 3, 0);
    ReplaceFromMismatch(t, " ", "", 4, 0);
  }

  // ---------------------------------------------------------------------
  // The automated test run
  // ---------------------------------------------------------------------

  /** The run's verdict on a validation result. */
  predicate TestPasses(r: ValidationResult) {
    r.spiActivity && r.whoAmIFound
  }

  /** `run_automated_test`: scan, capture, decode, validate. `scanOutput` is
      the scan's output (None when the command failed), `captured` whether
      the capture produced a file, `decoded` the decoder's CSV (None when the
      decode command failed). The validation result exists once all three
      steps succeeded, and the run passes iff it shows SPI activity and the
      WHO_AM_I reply. */
  method RunAutomatedTest(scanOutput: Option<string>, captured: bool, decoded: Option<CsvFile>)
    returns (passed: bool, results: Option<ValidationResult>)
    ensures results.Some? <==> ScanFindsAnalyzer(scanOutput) && captured && decoded.Some?
    ensures results.Some? ==> results.value == Validation(CsvRecords(decoded.value))
    ensures passed <==> results.Some? && results.value.spiActivity && results.value.whoAmIFound
    ensures passed ==> results.value.validResponses >= 1
  {
    var found := scanOutput.Some?
      && (Contains(scanOutput.value, "fx2lafw") || Contains(scanOutput.value, "Saleae Logic"));
    if !found || !captured || decoded.None? {
      return false, None;
    }
    var spiData := ParseSpiCsv(decoded.value);
    var r := ValidateLsm6Communication(spiData);
    results := Some(r);
    passed := r.spiActivity && r.whoAmIFound;
  }
}
