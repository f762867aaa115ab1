/**
 * The validation report of `validate_csv`: row counts, the issue list and a
 * JSON-safe sample of the first sanitised rows. Reading the upload,
 * choosing the timestamp and writing the files happen outside the model;
 * the timestamp and file name arrive as parameters.
 */
module ValidationReport {
  import opened Wrappers
  import opened Cells
  import opened Sanitizer
  import opened Diagnostics
  import opened JsonSafe

  /** How many sanitised rows the sample shows. */
  const SampleSize: nat := 5

  datatype Report = Report(
    timestamp: string,
    filename: string,
    originalRows: nat,
    sanitizedRows: nat,
    droppedRows: int,
    issues: seq<Issue>,
    sample: Json)

  function Min(a: nat, b: nat): nat { if a <= b then a else b }

  /** `to_dict(orient="records")` of one sanitised row. */
  function HoldingRecord(h: Holding): (r: Json)
    ensures NoNaN(r)
  {
    var entries := [("symbol", Str(h.symbol)), ("shares", Float(Finite(h.shares))), ("price", Float(Finite(h.price)))];
    assert forall i :: 0 <= i < |entries| ==> NoNaN(entries[i].1);
    Dict(entries)
  }

  function Records(hs: seq<Holding>): (r: Json)
    ensures NoNaN(r)
  {
    var items := seq(|hs|, k requires 0 <= k < |hs| => HoldingRecord(hs[k]));
    assert forall i :: 0 <= i < |items| ==> NoNaN(items[i]);
    List(items)
  }

  /**
   * `_json_safe(sanitized.head(5).to_dict(orient="records"))`: the records of
   * the first min(5, n) sanitised rows, which the scrubber leaves unchanged
   * because sanitised numbers are never NaN.
   */
  function SanitizedSample(hs: seq<Holding>): (r: Json)
    ensures r == Records(hs[..Min(SampleSize, |hs|)])
    ensures r.List? && |r.items| == Min(SampleSize, |hs|)
    ensures NoNaN(r)
  {
    var sample := Records(hs[..Min(SampleSize, |hs|)]);
    ScrubKeepsNaNFree(sample);
    Scrub(sample)
  }

  /**
   * The report built from a parsed upload: every row is counted, the dropped
   * count is the difference and never negative nor above the number of issue
   * entries, and the issue list is the diagnostics pass over the same table.
   */
  method Validate(timestamp: string, filename: string, t: Table) returns (report: Report)
    ensures report.timestamp == timestamp && report.filename == filename
    ensures report.originalRows == |t.rows|
    ensures report.sanitizedRows == |Sanitize(t)| <= report.originalRows
    ensures report.droppedRows == report.originalRows - report.sanitizedRows
    ensures 0 <= report.droppedRows <= |report.issues|
    ensures report.issues == Issues(t)
    ensures report.sample == Records(Sanitize(t)[..Min(SampleSize, |Sanitize(t)|)])
    ensures NoNaN(report.sample)
  {
    var originalRows := |t.rows|;
    var sanitized := Sanitize(t);
    var sanitizedRows := |sanitized|;
    var droppedRows := originalRows - sanitizedRows;
    var issues := CollectIssues(t);
    var sample := SanitizedSample(sanitized);
    DroppedRowsAtMostIssues(t);
    report := Report(timestamp, filename, originalRows, sanitizedRows, droppedRows, issues, sample);
  }

  /** The two clean rows of the good upload in the project's tests. */
  const GoodRows: seq<RawRow> := [
    RawRow(Text("AAPL"), Num(10.0, "10"), Num(150.0, "150")),
    RawRow(Text("JNJ"), Num(5.0, "5"), Num(140.0, "140"))]

  /** The clean upload from the project's tests: both rows survive and nothing is reported. */
  lemma GoodUploadExample(t: Table)
    requires t.hasSymbol && t.hasShares && t.hasPrice
    requires t.rows == GoodRows
    ensures Sanitize(t) == [Holding("AAPL", 10.0, 150.0), Holding("JNJ", 5.0, 140.0)]
    ensures Issues(t) == []
  {
    GoodUploadSanitized(t);
    GoodUploadUnreported(t);
  }

  lemma GoodUploadSanitized(t: Table)
    requires t.hasSymbol && t.hasShares && t.hasPrice
    requires t.rows == GoodRows
    ensures Sanitize(t) == [Holding("AAPL", 10.0, 150.0), Holding("JNJ", 5.0, 140.0)]
  {
    var a, j := Holding("AAPL", 10.0, 150.0), Holding("JNJ", 5.0, 140.0);
    assert IsClean(a) && IsClean(j);
    CleanHoldingRow(t, a, "10", "150");
    CleanHoldingRow(t, j, "5", "140");
    SanitizePrefixStep(t, 1);
    SanitizePrefixStep(t, 2);
  }

  lemma GoodUploadUnreported(t: Table)
    requires t.hasSymbol && t.hasShares && t.hasPrice
    requires t.rows == GoodRows
    ensures Issues(t) == []
  {
    assert t.rows[0] == RawRow(Text("AAPL"), Num(10.0, "10"), Num(150.0, "150"));
    assert t.rows[1] == RawRow(Text("JNJ"), Num(5.0, "5"), Num(140.0, "140"));
    StrippedIsFixed("AAPL");
    StrippedIsFixed("JNJ");
    assert !SymbolFails(t, t.rows[0]) && !SharesFail(t, t.rows[0]) && !PriceFails(t, t.rows[0]);
    assert !SymbolFails(t, t.rows[1]) && !SharesFail(t, t.rows[1]) && !PriceFails(t, t.rows[1]);
    IssuesPrefixStep(t, 1);
    IssuesPrefixStep(t, 2);
  }
}
