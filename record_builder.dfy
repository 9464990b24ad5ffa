/** readCSV after the csv reader has split the file into rows of fields: the
    header row becomes a map from trimmed column name to column index, and each
    later row either becomes a Vulnerability or is skipped with a log line. */
module RecordBuilder {
  import opened Results
  import opened Text
  import opened Calendar
  import opened DateNormalizer
  import opened Vulnerabilities
  import opened Permutations

  /** One record from encoding/csv: the reader skips empty lines, so every
      record it yields has at least one field. */
  type CsvRecord = fields: seq<string> | |fields| >= 1 witness [""]

  /** Why readCSV returns an error: the file has no header row. */
  datatype ReadError = MissingHeader

  /** Why a data row was skipped (each case is one of readCSV's log lines). */
  datatype SkipReason =
    | ShortRow
    | BadCVSS
    | BadDueDate(failure: DateFailure)
    | BadFirstDetectedDate(failure: DateFailure)

  // ---------------------------------------------------------------------------
  // The header map
  // ---------------------------------------------------------------------------

  /** Every column index the map hands out lies inside the header. */
  predicate ColumnsBelow(headerMap: map<string, nat>, headerLen: nat) {
    forall name :: name in headerMap ==> headerMap[name] < headerLen
  }

  /** The header fields with strings.TrimSpace applied to each. */
  function Names(header: seq<string>): (names: seq<string>)
    ensures |names| == |header|
  {
    seq(|header|, i requires 0 <= i < |header| => TrimSpace(header[i]))
  }

  /** The map built by storing, for each name in turn, its index: a name
      seen twice keeps the later index. */
  function LastIndex(names: seq<string>): (m: map<string, nat>)
    ensures ColumnsBelow(m, |names|)
  {
    if names == [] then map[]
    else LastIndex(names[..|names| - 1])[names[|names| - 1] := |names| - 1]
  }

  /** headerMap once readCSV has read the header row. */
  function HeaderIndex(header: seq<string>): (headerMap: map<string, nat>)
    ensures ColumnsBelow(headerMap, |header|)
  {
    LastIndex(Names(header))
  }

  /** The loop at the top of readCSV that fills headerMap. */
  method BuildHeaderMap(header: seq<string>) returns (headerMap: map<string, nat>)
    ensures headerMap == HeaderIndex(header)
  {
    ghost var names := Names(header);
    headerMap := map[];
    for i := 0 to |header|
      invariant headerMap == LastIndex(names[..i])
    {
      assert names[..i + 1][..i] == names[..i];
      headerMap := headerMap[TrimSpace(header[i]) := i];
    }
    assert names[..|header|] == names;
  }

  /** A name is in the map exactly when it occurs in `names`, and it then
      maps to its last occurrence. */
  lemma {:induction false} LastIndexLast(names: seq<string>, name: string)
    ensures name in LastIndex(names) <==> name in names
    ensures name in LastIndex(names) ==>
              var i := LastIndex(names)[name];
              names[i] == name && forall j :: i < j < |names| ==> names[j] != name
  {
    if names != [] {
      var init := names[..|names| - 1];
      LastIndexLast(init, name);
      assert names == init + [names[|names| - 1]];
    }
  }

  /** A column the header does not name is read from column 0. */
  lemma MissingColumnReadsFirst(header: seq<string>, name: string)
    requires name !in Names(header)
    ensures Lookup(HeaderIndex(header), name) == 0
  {
    LastIndexLast(Names(header), name);
  }

  /** A column the header does name is read from its last occurrence: a
      duplicate column overrides the earlier one. */
  lemma PresentColumnReadsLast(header: seq<string>, name: string, i: nat)
    requires i < |header| && Names(header)[i] == name
    requires forall j :: i < j < |header| ==> Names(header)[j] != name
    ensures Lookup(HeaderIndex(header), name) == i
  {
    var names := Names(header);
    LastIndexLast(names, name);
    var k := LastIndex(names)[name];
    assert !(k < i) && !(i < k);
  }

  /** headerMap[name]: a Go map yields 0 for a key it does not hold. */
  function Lookup(headerMap: map<string, nat>, name: string): nat {
    if name in headerMap then headerMap[name] else 0
  }

  // ---------------------------------------------------------------------------
  // One data row
  // ---------------------------------------------------------------------------

  /** strings.TrimSpace(record[headerMap[name]]). */
  function Field(headerMap: map<string, nat>, row: CsvRecord, name: string): string
    requires ColumnsBelow(headerMap, |row|)
  {
    TrimSpace(row[Lookup(headerMap, name)])
  }

  /** The text fields of a record are all free of surrounding spaces. */
  predicate TextTrimmed(v: Vulnerability) {
    && IsTrimmed(v.uniqueId) && IsTrimmed(v.assetName) && IsTrimmed(v.assetId)
    && IsTrimmed(v.organizationAccount) && IsTrimmed(v.identifier) && IsTrimmed(v.source)
    && IsTrimmed(v.title) && IsTrimmed(v.description) && IsTrimmed(v.packageName)
    && IsTrimmed(v.installedVersion) && IsTrimmed(v.fixedVersion) && IsTrimmed(v.remediation)
    && IsTrimmed(v.severity) && IsTrimmed(v.fixability)
  }

  /** Every text field of `v` is the trimmed cell of its own named column. */
  predicate FromColumns(v: Vulnerability, headerMap: map<string, nat>, row: CsvRecord)
    requires ColumnsBelow(headerMap, |row|)
  {
    && v.uniqueId == Field(headerMap, row, "Unique ID")
    && v.assetName == Field(headerMap, row, "Asset name")
    && v.assetId == Field(headerMap, row, "Asset id")
    && v.organizationAccount == Field(headerMap, row, "Organization/Account")
    && v.identifier == Field(headerMap, row, "Identifier")
    && v.source == Field(headerMap, row, "Source")
    && v.title == Field(headerMap, row, "Title")
    && v.description == Field(headerMap, row, "Description")
    && v.packageName == Field(headerMap, row, "Package Name")
    && v.installedVersion == Field(headerMap, row, "Installed Version")
    && v.fixedVersion == Field(headerMap, row, "Fixed Version")
    && v.remediation == Field(headerMap, row, "Remediation")
    && v.severity == Field(headerMap, row, "Severity")
    && v.fixability == Field(headerMap, row, "Fixability")
  }

  /** The body of readCSV's row loop. The csv reader never yields a row
      without fields, so `row` has at least one. */
  function BuildRow(headerMap: map<string, nat>, headerLen: nat, row: CsvRecord): (r: Result<Vulnerability, SkipReason>)
    requires ColumnsBelow(headerMap, headerLen)
    ensures |row| < headerLen ==> r == Err(ShortRow)
  {
    if |row| < headerLen then Err(ShortRow)
    else
      Assemble(headerMap, row,
               ParseFloat(TrimSpace(row[Lookup(headerMap, "CVSS")])),
               NormalizeDate(row[Lookup(headerMap, "Due date")]),
               NormalizeDate(row[Lookup(headerMap, "First detected date")]))
  }

  /** A row with all its columns is kept exactly when its trimmed CVSS field
      parses as a number and both date fields normalise to calendar dates;
      the record then carries those values, trimmed text, and the zero score
      and empty timeframe the scorer later fills in. */
  lemma RowKept(headerMap: map<string, nat>, headerLen: nat, row: CsvRecord)
    requires ColumnsBelow(headerMap, headerLen) && |row| >= headerLen
    ensures var r := BuildRow(headerMap, headerLen, row);
            var cvss := ParseFloat(TrimSpace(row[Lookup(headerMap, "CVSS")]));
            var due := NormalizeDate(row[Lookup(headerMap, "Due date")]);
            var first := NormalizeDate(row[Lookup(headerMap, "First detected date")]);
            && (r.Ok? <==> cvss.Some? && due.Ok? && first.Ok?)
            && (r.Ok? ==> && r.value.cvss == cvss.value && r.value.dueDate == due.value
                          && r.value.firstDetectedDate == first.value && TextTrimmed(r.value)
                          && FromColumns(r.value, headerMap, row)
                          && r.value.priorityScore == 0.0 && r.value.recommendedActionTimeframe == "")
  {
  }

  /** The rest of the row loop once the three parsers have run: the first
      failure, in the order CVSS, due date, first detected date, skips the
      row; otherwise the trimmed text fields and the parsed values make the
      record. */
  function Assemble(headerMap: map<string, nat>, row: CsvRecord, cvss: Option<real>,
                    due: Result<CalendarDate, DateFailure>, first: Result<CalendarDate, DateFailure>): (r: Result<Vulnerability, SkipReason>)
    requires ColumnsBelow(headerMap, |row|)
    ensures r.Ok? <==> cvss.Some? && due.Ok? && first.Ok?
    ensures r.Ok? ==> && TextTrimmed(r.value) && FromColumns(r.value, headerMap, row) && r.value.cvss == cvss.value
                      && r.value.dueDate == due.value && r.value.firstDetectedDate == first.value
                      && r.value.priorityScore == 0.0 && r.value.recommendedActionTimeframe == ""
    ensures cvss.None? ==> r == Err(BadCVSS)
    ensures cvss.Some? && due.Err? ==> r == Err(BadDueDate(due.error))
    ensures cvss.Some? && due.Ok? && first.Err? ==> r == Err(BadFirstDetectedDate(first.error))
  {
    match cvss
    case None => Err(BadCVSS)
    case Some(score) =>
      match due
      case Err(e) => Err(BadDueDate(e))
      case Ok(dueDate) =>
        match first
        case Err(e) => Err(BadFirstDetectedDate(e))
        case Ok(firstDate) =>
          Ok(Vulnerability(
            uniqueId := Field(headerMap, row, "Unique ID"),
            assetName := Field(headerMap, row, "Asset name"),
            assetId := Field(headerMap, row, "Asset id"),
            organizationAccount := Field(headerMap, row, "Organization/Account"),
            identifier := Field(headerMap, row, "Identifier"),
            source := Field(headerMap, row, "Source"),
            cvss := score,
            title := Field(headerMap, row, "Title"),
            description := Field(headerMap, row, "Description"),
            packageName := Field(headerMap, row, "Package Name"),
            installedVersion := Field(headerMap, row, "Installed Version"),
            fixedVersion := Field(headerMap, row, "Fixed Version"),
            remediation := Field(headerMap, row, "Remediation"),
            severity := Field(headerMap, row, "Severity"),
            dueDate := dueDate,
            firstDetectedDate := firstDate,
            fixability := Field(headerMap, row, "Fixability"),
            priorityScore := 0.0,
            recommendedActionTimeframe := ""))
  }

  /** Under a header that names the column, the cell read for it is the
      trimmed cell at the column's last occurrence in the header. */
  lemma FieldReadsNamedColumn(header: seq<string>, row: CsvRecord, name: string, i: nat)
    requires |row| >= |header| && i < |header| && Names(header)[i] == name
    requires forall j :: i < j < |header| ==> Names(header)[j] != name
    ensures Field(HeaderIndex(header), row, name) == TrimSpace(row[i])
  {
    PresentColumnReadsLast(header, name, i);
  }

  /** Under a header that does not name the column, the cell read for it is
      the trimmed first cell of the row. */
  lemma FieldReadsFirstColumn(header: seq<string>, row: CsvRecord, name: string)
    requires |row| >= |header| && name !in Names(header)
    ensures Field(HeaderIndex(header), row, name) == TrimSpace(row[0])
  {
    MissingColumnReadsFirst(header, name);
  }

  /** A kept record carries the trimmed cells under "Unique ID" and "Fixed
      Version" in its identifier and fixed-version fields, whatever the
      order of the header's columns. */
  lemma KeptRecordColumns(header: seq<string>, row: CsvRecord, i: nat, j: nat)
    requires |row| >= |header| && i < |header| && j < |header|
    requires Names(header)[i] == "Unique ID" && forall k :: i < k < |header| ==> Names(header)[k] != "Unique ID"
    requires Names(header)[j] == "Fixed Version" && forall k :: j < k < |header| ==> Names(header)[k] != "Fixed Version"
    ensures var r := BuildRow(HeaderIndex(header), |header|, row);
            r.Ok? ==> r.value.uniqueId == TrimSpace(row[i]) && r.value.fixedVersion == TrimSpace(row[j])
  {
    RowKept(HeaderIndex(header), |header|, row);
    FieldReadsNamedColumn(header, row, "Unique ID", i);
    FieldReadsNamedColumn(header, row, "Fixed Version", j);
  }

  // ---------------------------------------------------------------------------
  // All data rows
  // ---------------------------------------------------------------------------

  /** What the row loop does with each row, in row order. */
  function Outcomes(headerMap: map<string, nat>, headerLen: nat, rows: seq<CsvRecord>): (outcomes: seq<Result<Vulnerability, SkipReason>>)
    requires ColumnsBelow(headerMap, headerLen)
    ensures |outcomes| == |rows|
  {
    MapSeq(row => BuildRow(headerMap, headerLen, row), rows)
  }

  /** The records among `outcomes`, in order. */
  function Kept(outcomes: seq<Result<Vulnerability, SkipReason>>): seq<Vulnerability> {
    if outcomes == [] then []
    else
      var before := Kept(outcomes[..|outcomes| - 1]);
      match outcomes[|outcomes| - 1]
      case Ok(v) => before + [v]
      case Err(_) => before
  }

  /** The skip reasons among `outcomes`, in order. */
  function Logged(outcomes: seq<Result<Vulnerability, SkipReason>>): seq<SkipReason> {
    if outcomes == [] then []
    else
      var before := Logged(outcomes[..|outcomes| - 1]);
      match outcomes[|outcomes| - 1]
      case Ok(_) => before
      case Err(e) => before + [e]
  }

  /** The records readCSV returns for the data rows `rows`. */
  function Records(headerMap: map<string, nat>, headerLen: nat, rows: seq<CsvRecord>): seq<Vulnerability>
    requires ColumnsBelow(headerMap, headerLen)
  {
    Kept(Outcomes(headerMap, headerLen, rows))
  }

  /** The log lines readCSV writes for the data rows `rows`. */
  function Skips(headerMap: map<string, nat>, headerLen: nat, rows: seq<CsvRecord>): seq<SkipReason>
    requires ColumnsBelow(headerMap, headerLen)
  {
    Logged(Outcomes(headerMap, headerLen, rows))
  }

  /** readCSV on the rows the csv reader produced: the first row is the
      header, every later row is kept or skipped on its own, and a file with
      no rows at all is an error. */
  method ReadCSV(table: seq<CsvRecord>) returns (r: Result<seq<Vulnerability>, ReadError>, log: seq<SkipReason>)
    ensures table == [] ==> r == Err(MissingHeader) && log == []
    ensures table != [] ==>
              && r == Ok(Records(HeaderIndex(table[0]), |table[0]|, table[1..]))
              && log == Skips(HeaderIndex(table[0]), |table[0]|, table[1..])
  {
    if |table| == 0 {
      return Err(MissingHeader), [];
    }
    var headerMap := BuildHeaderMap(table[0]);
    var vulns;
    vulns, log := ReadRows(headerMap, |table[0]|, table[1..]);
    r := Ok(vulns);
  }

  /** The row loop of readCSV over the data rows. */
  method ReadRows(headerMap: map<string, nat>, headerLen: nat, rows: seq<CsvRecord>)
    returns (vulns: seq<Vulnerability>, log: seq<SkipReason>)
    requires ColumnsBelow(headerMap, headerLen)
    ensures vulns == Records(headerMap, headerLen, rows)
    ensures log == Skips(headerMap, headerLen, rows)
  {
    vulns, log := [], [];
    ghost var outcomes := [];
    for i := 0 to |rows|
      invariant outcomes == Outcomes(headerMap, headerLen, rows[..i])
      invariant vulns == Kept(outcomes) && log == Logged(outcomes)
    {
      var outcome := BuildRow(headerMap, headerLen, rows[i]);
      OutcomesSnoc(headerMap, headerLen, rows, i);
      vulns, log := Tally(vulns, log, outcomes, outcome);
      outcomes := outcomes + [outcome];
    }
    assert rows[..|rows|] == rows;
  }

  /** Files one row's outcome: a record is appended to the result, a skip
      reason to the log. */
  method Tally(vulns: seq<Vulnerability>, log: seq<SkipReason>, ghost outcomes: seq<Result<Vulnerability, SkipReason>>,
               outcome: Result<Vulnerability, SkipReason>)
    returns (vulns': seq<Vulnerability>, log': seq<SkipReason>)
    requires vulns == Kept(outcomes) && log == Logged(outcomes)
    ensures vulns' == Kept(outcomes + [outcome]) && log' == Logged(outcomes + [outcome])
  {
    KeptSnoc(outcomes, outcome);
    match outcome
    case Ok(v) =>
      vulns', log' := vulns + [v], log;
    case Err(reason) =>
      vulns', log' := vulns, log + [reason];
  }

  lemma OutcomesSnoc(headerMap: map<string, nat>, headerLen: nat, rows: seq<CsvRecord>, i: nat)
    requires ColumnsBelow(headerMap, headerLen) && i < |rows|
    ensures Outcomes(headerMap, headerLen, rows[..i + 1])
            == Outcomes(headerMap, headerLen, rows[..i]) + [BuildRow(headerMap, headerLen, rows[i])]
  {
    assert rows[..i + 1] == rows[..i] + [rows[i]];
    MapSeqConcat(row => BuildRow(headerMap, headerLen, row), rows[..i], [rows[i]]);
  }

  lemma KeptSnoc(outcomes: seq<Result<Vulnerability, SkipReason>>, outcome: Result<Vulnerability, SkipReason>)
    ensures Kept(outcomes + [outcome]) == Kept(outcomes) + (if outcome.Ok? then [outcome.value] else [])
    ensures Logged(outcomes + [outcome]) == Logged(outcomes) + (if outcome.Err? then [outcome.error] else [])
  {
    assert (outcomes + [outcome])[..|outcomes|] == outcomes;
  }

  /** Rows are processed independently and in order: the records of two runs
      of rows are the records of each, one after the other, and likewise the
      log lines. */
  lemma RecordsConcat(headerMap: map<string, nat>, headerLen: nat, a: seq<CsvRecord>, b: seq<CsvRecord>)
    requires ColumnsBelow(headerMap, headerLen)
    ensures Records(headerMap, headerLen, a + b) == Records(headerMap, headerLen, a) + Records(headerMap, headerLen, b)
    ensures Skips(headerMap, headerLen, a + b) == Skips(headerMap, headerLen, a) + Skips(headerMap, headerLen, b)
  {
    MapSeqConcat(row => BuildRow(headerMap, headerLen, row), a, b);
    KeptConcat(Outcomes(headerMap, headerLen, a), Outcomes(headerMap, headerLen, b));
  }

  lemma {:induction false} KeptConcat(a: seq<Result<Vulnerability, SkipReason>>, b: seq<Result<Vulnerability, SkipReason>>)
    ensures Kept(a + b) == Kept(a) + Kept(b)
    ensures Logged(a + b) == Logged(a) + Logged(b)
  {
    if b != [] {
      var b' := b[..|b| - 1];
      KeptConcat(a, b');
      assert (a + b)[..|a + b| - 1] == a + b';
      assert (a + b)[|a + b| - 1] == b[|b| - 1];
    } else {
      assert a + b == a;
    }
  }

  /** Each row yields exactly one of a record or a log line. */
  lemma RowsAccounted(headerMap: map<string, nat>, headerLen: nat, rows: seq<CsvRecord>)
    requires ColumnsBelow(headerMap, headerLen)
    ensures |Records(headerMap, headerLen, rows)| + |Skips(headerMap, headerLen, rows)| == |rows|
  {
    KeptAccounted(Outcomes(headerMap, headerLen, rows));
  }

  lemma {:induction false} KeptAccounted(outcomes: seq<Result<Vulnerability, SkipReason>>)
    ensures |Kept(outcomes)| + |Logged(outcomes)| == |outcomes|
  {
    if outcomes != [] {
      KeptAccounted(outcomes[..|outcomes| - 1]);
    }
  }

  /** Row `i` contributes its own record, if any, between those of the rows
      before it and those of the rows after it. */
  lemma RowContribution(headerMap: map<string, nat>, headerLen: nat, rows: seq<CsvRecord>, i: nat)
    requires ColumnsBelow(headerMap, headerLen) && i < |rows|
    ensures var outcome := BuildRow(headerMap, headerLen, rows[i]);
            Records(headerMap, headerLen, rows)
            == Records(headerMap, headerLen, rows[..i])
               + (if outcome.Ok? then [outcome.value] else [])
               + Records(headerMap, headerLen, rows[i + 1..])
  {
    var row, post := rows[i], rows[i + 1..];
    assert rows == rows[..i] + ([row] + post);
    RecordsConcat(headerMap, headerLen, rows[..i], [row] + post);
    RecordsConcat(headerMap, headerLen, [row], post);
    RecordsOfRow(headerMap, headerLen, row);
  }

  lemma RecordsOfRow(headerMap: map<string, nat>, headerLen: nat, row: CsvRecord)
    requires ColumnsBelow(headerMap, headerLen)
    ensures var outcome := BuildRow(headerMap, headerLen, row);
            Records(headerMap, headerLen, [row]) == if outcome.Ok? then [outcome.value] else []
  {
    MapSeqOne(row => BuildRow(headerMap, headerLen, row), row);
    KeptOne(BuildRow(headerMap, headerLen, row));
  }

  lemma KeptOne(outcome: Result<Vulnerability, SkipReason>)
    ensures Kept([outcome]) == if outcome.Ok? then [outcome.value] else []
  {
    assert [outcome][..0] == [];
  }
}
