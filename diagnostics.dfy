/**
 * The per-row diagnostics pass of `validate_csv`: an independent loop over
 * the raw rows that reports, for every row failing a check, its index, its
 * best-effort symbol and the failing checks in a fixed order.
 */
module Diagnostics {
  import opened Wrappers
  import opened Cells
  import opened Sanitizer

  /** The three checks, in the order their tags are emitted. */
  datatype Tag = MissingSymbol | InvalidShares | InvalidPrice

  /** The text a tag carries in the report. */
  function TagText(tag: Tag): string
  {
    match tag
    case MissingSymbol => "missing symbol"
    case InvalidShares => "invalid shares"
    case InvalidPrice => "invalid price"
  }

  /** The report's strings tell the three checks apart. */
  lemma TagTextIdentifiesTag(a: Tag, b: Tag)
    ensures TagText(a) == TagText(b) <==> a == b
  {
    assert "missing symbol"[0] != "invalid shares"[0];
    assert "invalid shares"[8] != "invalid price"[8];
  }

  function Rank(tag: Tag): nat
  {
    match tag
    case MissingSymbol => 0
    case InvalidShares => 1
    case InvalidPrice => 2
  }

  /** One entry of the report's issue list; `symbol` is None for JSON null. */
  datatype Issue = Issue(rowIndex: nat, symbol: Option<string>, tags: seq<Tag>)

  /** `row.get(column)`: an absent column reads as None. */
  function LookupCell(present: bool, c: Cell): Cell
  {
    if present then c else Missing
  }

  /** None when the symbol is missing, its stripped text otherwise. */
  function ReportedSymbol(t: Table, row: RawRow): (r: Option<string>)
    ensures r.None? <==> !t.hasSymbol || row.symbol.Missing?
    ensures r.Some? ==> IsStripped(r.value) && r.value == Strip(Stringify(row.symbol))
    ensures Keeps(t, row) ==> r == Some(CleanRow(t, row).value.symbol)
  {
    var raw := LookupCell(t.hasSymbol, row.symbol);
    if raw.Missing? then None else Some(Strip(Stringify(raw)))
  }

  predicate SymbolFails(t: Table, row: RawRow)
  {
    ReportedSymbol(t, row) == None || ReportedSymbol(t, row) == Some("")
  }

  predicate SharesFail(t: Table, row: RawRow)
  {
    var v := Coerce(LookupCell(t.hasShares, row.shares));
    v.None? || v.value <= 0.0
  }

  predicate PriceFails(t: Table, row: RawRow)
  {
    Coerce(LookupCell(t.hasPrice, row.price)).None?
  }

  /**
   * The failing checks of one row: each tag is present exactly when its check
   * fails, and the tags come in the fixed order without repetition.
   */
  function RowTags(t: Table, row: RawRow): (r: seq<Tag>)
    ensures r == [] <==> !SymbolFails(t, row) && !SharesFail(t, row) && !PriceFails(t, row)
  {
    (if SymbolFails(t, row) then [MissingSymbol] else []) +
    (if SharesFail(t, row) then [InvalidShares] else []) +
    (if PriceFails(t, row) then [InvalidPrice] else [])
  }

  /** Each tag is present exactly when its check fails. */
  lemma RowTagsMeaning(t: Table, row: RawRow)
    ensures MissingSymbol in RowTags(t, row) <==> SymbolFails(t, row)
    ensures InvalidShares in RowTags(t, row) <==> SharesFail(t, row)
    ensures InvalidPrice in RowTags(t, row) <==> PriceFails(t, row)
  {
  }

  /** Tags come in the fixed order missing symbol, invalid shares, invalid price, without repetition. */
  lemma RowTagsInFixedOrder(t: Table, row: RawRow)
    ensures var r := RowTags(t, row); forall k, l :: 0 <= k < l < |r| ==> Rank(r[k]) < Rank(r[l])
  {
  }

  /** The issue list over the first `n` rows. */
  function IssuesPrefix(t: Table, n: nat): seq<Issue>
    requires n <= |t.rows|
  {
    if n == 0 then []
    else
      var tags := RowTags(t, t.rows[n - 1]);
      IssuesPrefix(t, n - 1) +
      (if tags != [] then [Issue(n - 1, ReportedSymbol(t, t.rows[n - 1]), tags)] else [])
  }

  /** The issue list of a whole table. */
  function Issues(t: Table): seq<Issue>
  {
    IssuesPrefix(t, |t.rows|)
  }

  /** The body of the diagnostics loop for one row: its best-effort symbol and its failing checks. */
  method DiagnoseRow(t: Table, row: RawRow) returns (symbol: Option<string>, rowIssues: seq<Tag>)
    ensures symbol == ReportedSymbol(t, row)
    ensures rowIssues == RowTags(t, row)
  {
    rowIssues := [];
    var rawSymbol := LookupCell(t.hasSymbol, row.symbol);
    symbol := if rawSymbol.Missing? then None else Some(Strip(Stringify(rawSymbol)));
    if symbol.None? || symbol.value == "" {
      rowIssues := rowIssues + [MissingSymbol];
    }
    ghost var first := if SymbolFails(t, row) then [MissingSymbol] else [];
    assert rowIssues == first;
    var shares := Coerce(LookupCell(t.hasShares, row.shares));
    if shares.None? || shares.value <= 0.0 {
      rowIssues := rowIssues + [InvalidShares];
    }
    ghost var second := if SharesFail(t, row) then [InvalidShares] else [];
    assert rowIssues == first + second;
    var price := Coerce(LookupCell(t.hasPrice, row.price));
    if price.None? {
      rowIssues := rowIssues + [InvalidPrice];
    }
  }

  /** The diagnostics loop: one pass over the rows, appending an entry per failing row. */
  method CollectIssues(t: Table) returns (issues: seq<Issue>)
    ensures issues == Issues(t)
  {
    issues := [];
    var i := 0;
    while i < |t.rows|
      invariant 0 <= i <= |t.rows|
      invariant issues == IssuesPrefix(t, i)
    {
      var symbol, rowIssues := DiagnoseRow(t, t.rows[i]);
      if rowIssues != [] {
        issues := issues + [Issue(i, symbol, rowIssues)];
      }
      i := i + 1;
    }
  }

  /** Row `i` has an entry in `issues`. */
  predicate Reported(issues: seq<Issue>, i: nat)
  {
    exists k :: 0 <= k < |issues| && issues[k].rowIndex == i
  }

  /**
   * `issues` lists, in ascending row order, exactly the rows of `t` that fail
   * a check, each with its reported symbol and tags.
   */
  predicate DiagnosesRows(t: Table, issues: seq<Issue>)
  {
    (forall k :: 0 <= k < |issues| ==>
       issues[k].rowIndex < |t.rows| &&
       issues[k].tags == RowTags(t, t.rows[issues[k].rowIndex]) && issues[k].tags != [] &&
       issues[k].symbol == ReportedSymbol(t, t.rows[issues[k].rowIndex])) &&
    (forall k, l :: 0 <= k < l < |issues| ==> issues[k].rowIndex < issues[l].rowIndex) &&
    (forall i :: 0 <= i < |t.rows| ==> (Reported(issues, i) <==> RowTags(t, t.rows[i]) != []))
  }

  lemma IssuesPrefixStep(t: Table, n: nat)
    requires 0 < n <= |t.rows|
    ensures var tags := RowTags(t, t.rows[n - 1]);
      IssuesPrefix(t, n) ==
      IssuesPrefix(t, n - 1) + (if tags != [] then [Issue(n - 1, ReportedSymbol(t, t.rows[n - 1]), tags)] else [])
  {
  }

  /** The entry each of the first `n` rows would get, whether it fails a check or not. */
  function Entries(t: Table, n: nat): (r: seq<Issue>)
    requires n <= |t.rows|
    ensures |r| == n
  {
    if n == 0 then []
    else Entries(t, n - 1) + [Issue(n - 1, ReportedSymbol(t, t.rows[n - 1]), RowTags(t, t.rows[n - 1]))]
  }

  lemma {:induction false} EntryAt(t: Table, n: nat, i: nat)
    requires i < n <= |t.rows|
    ensures Entries(t, n)[i] == Issue(i, ReportedSymbol(t, t.rows[i]), RowTags(t, t.rows[i]))
  {
    if i < n - 1 {
      EntryAt(t, n - 1, i);
      assert Entries(t, n)[i] == Entries(t, n - 1)[i];
    }
  }

  /** Each listed entry is the entry of its own row, and that row failed a check. */
  predicate ListsOwnEntries(entries: seq<Issue>, issues: seq<Issue>)
  {
    forall k :: 0 <= k < |issues| ==>
      issues[k].rowIndex < |entries| && issues[k] == entries[issues[k].rowIndex] && issues[k].tags != []
  }

  predicate AscendingRows(issues: seq<Issue>)
  {
    forall k, l :: 0 <= k < l < |issues| ==> issues[k].rowIndex < issues[l].rowIndex
  }

  predicate ListsExactlyFailing(entries: seq<Issue>, issues: seq<Issue>)
  {
    forall i :: 0 <= i < |entries| ==> (Reported(issues, i) <==> entries[i].tags != [])
  }

  predicate ListsFailing(entries: seq<Issue>, issues: seq<Issue>)
  {
    ListsOwnEntries(entries, issues) && AscendingRows(issues) && ListsExactlyFailing(entries, issues)
  }

  lemma ListsSkip(entries: seq<Issue>, issues: seq<Issue>, e: Issue)
    requires ListsFailing(entries, issues)
    requires e.tags == []
    ensures ListsFailing(entries + [e], issues)
  {
    var after := entries + [e];
    forall k | 0 <= k < |issues|
      ensures issues[k] == after[issues[k].rowIndex]
    {
      assert after[issues[k].rowIndex] == entries[issues[k].rowIndex];
    }
    assert !Reported(issues, |entries|);
  }

  lemma ListsAppendOwnEntries(entries: seq<Issue>, issues: seq<Issue>, e: Issue)
    requires ListsOwnEntries(entries, issues)
    requires e.rowIndex == |entries| && e.tags != []
    ensures ListsOwnEntries(entries + [e], issues + [e])
  {
    var es := entries + [e];
    var out := issues + [e];
    forall k | 0 <= k < |out|
      ensures out[k].rowIndex < |es| && out[k] == es[out[k].rowIndex] && out[k].tags != []
    {
      if k < |issues| {
        assert out[k] == issues[k];
        assert es[issues[k].rowIndex] == entries[issues[k].rowIndex];
      } else {
        assert out[k] == e && es[|entries|] == e;
      }
    }
  }

  lemma ListsAppendAscending(entries: seq<Issue>, issues: seq<Issue>, e: Issue)
    requires ListsOwnEntries(entries, issues) && AscendingRows(issues)
    requires e.rowIndex == |entries|
    ensures AscendingRows(issues + [e])
  {
    var out := issues + [e];
    forall k, l | 0 <= k < l < |out|
      ensures out[k].rowIndex < out[l].rowIndex
    {
      assert out[k] == issues[k];
      if l < |issues| {
        assert out[l] == issues[l];
      } else {
        assert out[l] == e;
      }
    }
  }

  lemma ListsAppendExactly(entries: seq<Issue>, issues: seq<Issue>, e: Issue)
    requires ListsExactlyFailing(entries, issues)
    requires e.rowIndex == |entries| && e.tags != []
    ensures ListsExactlyFailing(entries + [e], issues + [e])
  {
    var es := entries + [e];
    var out := issues + [e];
    forall i | 0 <= i < |es|
      ensures Reported(out, i) <==> es[i].tags != []
    {
      if i == |entries| {
        assert out[|issues|].rowIndex == i;
      } else {
        assert es[i] == entries[i];
        if Reported(out, i) {
          var k :| 0 <= k < |out| && out[k].rowIndex == i;
          assert k < |issues| && issues[k].rowIndex == i;
        }
        if Reported(issues, i) {
          var k :| 0 <= k < |issues| && issues[k].rowIndex == i;
          assert out[k].rowIndex == i;
        }
      }
    }
  }

  lemma ListsAppend(entries: seq<Issue>, issues: seq<Issue>, e: Issue)
    requires ListsFailing(entries, issues)
    requires e.rowIndex == |entries| && e.tags != []
    ensures ListsFailing(entries + [e], issues + [e])
  {
    ListsAppendOwnEntries(entries, issues, e);
    ListsAppendAscending(entries, issues, e);
    ListsAppendExactly(entries, issues, e);
  }

  lemma {:induction false} IssuesPrefixLists(t: Table, n: nat)
    requires n <= |t.rows|
    ensures ListsFailing(Entries(t, n), IssuesPrefix(t, n))
  {
    if n > 0 {
      IssuesPrefixLists(t, n - 1);
      var entries := Entries(t, n - 1);
      var issues := IssuesPrefix(t, n - 1);
      var e := Issue(n - 1, ReportedSymbol(t, t.rows[n - 1]), RowTags(t, t.rows[n - 1]));
      assert Entries(t, n) == entries + [e];
      IssuesPrefixStep(t, n);
      if e.tags != [] {
        assert IssuesPrefix(t, n) == issues + [e];
        ListsAppend(entries, issues, e);
      } else {
        assert IssuesPrefix(t, n) == issues;
        ListsSkip(entries, issues, e);
      }
    }
  }

  /**
   * The diagnostics pass reports a row, in input order and with its index,
   * exactly when at least one of the three checks fails on it.
   */
  lemma IssuesDiagnoseTable(t: Table)
    ensures DiagnosesRows(t, Issues(t))
  {
    var n := |t.rows|;
    IssuesPrefixLists(t, n);
    forall i | 0 <= i < n
      ensures Entries(t, n)[i] == Issue(i, ReportedSymbol(t, t.rows[i]), RowTags(t, t.rows[i]))
    {
      EntryAt(t, n, i);
    }
  }

  // ---------------------------------------------------------------------
  // Consistency with the sanitiser
  // ---------------------------------------------------------------------

  /** A row the sanitiser drops fails at least one diagnostic check. */
  lemma DroppedRowFailsACheck(t: Table, row: RawRow)
    requires !Keeps(t, row)
    ensures RowTags(t, row) != []
  {
    if !SymbolFails(t, row) && !SharesFail(t, row) {
      assert t.hasSymbol && !row.symbol.Missing?;
      assert t.hasShares;
      assert t.hasPrice;
      assert PriceFails(t, row);
    }
  }

  /** Every row the sanitiser drops appears in the issue list. */
  lemma DroppedRowIsReported(t: Table, i: nat)
    requires i < |t.rows| && !Keeps(t, t.rows[i])
    ensures Reported(Issues(t), i)
  {
    DroppedRowFailsACheck(t, t.rows[i]);
    IssuesDiagnoseTable(t);
  }

  /**
   * A kept row is never tagged "invalid shares"; it is tagged "invalid price"
   * only when the table has no price column (the sanitiser then reads price 0,
   * the diagnostics read None), and "missing symbol" exactly when its
   * sanitised symbol is empty.
   */
  lemma KeptRowTags(t: Table, row: RawRow)
    requires Keeps(t, row)
    ensures InvalidShares !in RowTags(t, row)
    ensures InvalidPrice in RowTags(t, row) <==> !t.hasPrice
    ensures MissingSymbol in RowTags(t, row) <==> CleanRow(t, row).value.symbol == ""
  {
  }

  /**
   * With a price column, a sanitised row appears in the issue list exactly
   * when its symbol stripped to the empty string.
   */
  lemma SanitizedRowReportedIffBlankSymbol(t: Table, k: nat)
    requires t.hasPrice && k < |Sanitize(t)|
    ensures k < |KeptIndices(t, |t.rows|)|
    ensures Reported(Issues(t), KeptIndices(t, |t.rows|)[k]) <==> Sanitize(t)[k].symbol == ""
  {
    SanitizeIsOrderPreservingFilter(t);
    IssuesDiagnoseTable(t);
    var i := KeptIndices(t, |t.rows|)[k];
    KeptRowTags(t, t.rows[i]);
    var tags := RowTags(t, t.rows[i]);
    if tags != [] {
      assert tags[0] in tags;
    }
  }

  lemma {:induction false} DroppedBoundPrefix(t: Table, n: nat)
    requires t.hasSymbol && n <= |t.rows|
    ensures n - |SanitizePrefix(t, n)| <= |IssuesPrefix(t, n)|
  {
    if n == 0 {
      assert SanitizePrefix(t, 0) == [];
    } else {
      DroppedBoundPrefix(t, n - 1);
      var row := t.rows[n - 1];
      SanitizePrefixStep(t, n);
      IssuesPrefixStep(t, n);
      if Keeps(t, row) {
        assert |SanitizePrefix(t, n)| == |SanitizePrefix(t, n - 1)| + 1;
      } else {
        DroppedRowFailsACheck(t, row);
        assert |IssuesPrefix(t, n)| == |IssuesPrefix(t, n - 1)| + 1;
      }
    }
  }

  /** The number of dropped rows never exceeds the number of issue entries. */
  lemma DroppedRowsAtMostIssues(t: Table)
    ensures |t.rows| - |Sanitize(t)| <= |Issues(t)|
  {
    if t.hasSymbol {
      DroppedBoundPrefix(t, |t.rows|);
    } else {
      NoSymbolColumnFlagsEveryRow(t, |t.rows|);
    }
  }

  lemma {:induction false} NoSymbolColumnFlagsEveryRow(t: Table, n: nat)
    requires !t.hasSymbol && n <= |t.rows|
    ensures |IssuesPrefix(t, n)| == n
  {
    if n > 0 {
      NoSymbolColumnFlagsEveryRow(t, n - 1);
    }
  }

  /**
   * The whole-number text `s` coerces to `n`. Kept apart from the row
   * examples so that their proofs see only this one fact about the parser.
   */
  lemma NumberText(n: nat, s: string)
    requires s == ShowNat(n)
    ensures Coerce(Text(s)) == Some(n as real)
  {
    ParseShowNat(n);
  }

  lemma BlankSymbolRow(t: Table)
    requires t.hasSymbol && t.hasShares && t.hasPrice
    ensures var row := RawRow(Missing, Text("5"), Text("100"));
      RowTags(t, row) == [MissingSymbol] && !Keeps(t, row)
  {
    var row := RawRow(Missing, Text("5"), Text("100"));
    NumberText(5, "5");
    NumberText(100, "100");
    assert SymbolFails(t, row) && !SharesFail(t, row) && !PriceFails(t, row);
  }

  lemma BadSharesRow(t: Table)
    requires t.hasSymbol && t.hasShares && t.hasPrice
    ensures var row := RawRow(Text("BAD"), Text("notnum"), Text("10"));
      RowTags(t, row) == [InvalidShares] && !Keeps(t, row) && ReportedSymbol(t, row) == Some("BAD")
  {
    var row := RawRow(Text("BAD"), Text("notnum"), Text("10"));
    NoDigitNoNumber("notnum");
    NumberText(10, "10");
    StrippedIsFixed("BAD");
    assert ReportedSymbol(t, row) == Some("BAD");
    assert !SymbolFails(t, row) && SharesFail(t, row) && !PriceFails(t, row);
  }

  lemma BadPriceRow(t: Table)
    requires t.hasSymbol && t.hasShares && t.hasPrice
    ensures var row := RawRow(Text("BADPRICE"), Text("2"), Text("foo"));
      RowTags(t, row) == [InvalidPrice] && !Keeps(t, row) && ReportedSymbol(t, row) == Some("BADPRICE")
  {
    var row := RawRow(Text("BADPRICE"), Text("2"), Text("foo"));
    NumberText(2, "2");
    NoDigitNoNumber("foo");
    StrippedIsFixed("BADPRICE");
    assert ReportedSymbol(t, row) == Some("BADPRICE");
    assert !SymbolFails(t, row) && !SharesFail(t, row) && PriceFails(t, row);
  }

  /**
   * The bad upload from the project's tests: a blank symbol, non-numeric
   * shares, non-numeric price. Nothing survives and each row gets exactly
   * its one tag.
   */
  lemma BadUploadExample(t: Table)
    requires t.hasSymbol && t.hasShares && t.hasPrice
    requires t.rows == [
      RawRow(Missing, Text("5"), Text("100")),
      RawRow(Text("BAD"), Text("notnum"), Text("10")),
      RawRow(Text("BADPRICE"), Text("2"), Text("foo"))]
    ensures Sanitize(t) == []
    ensures Issues(t) == [
      Issue(0, None, [MissingSymbol]),
      Issue(1, Some("BAD"), [InvalidShares]),
      Issue(2, Some("BADPRICE"), [InvalidPrice])]
  {
    BlankSymbolRow(t);
    BadSharesRow(t);
    BadPriceRow(t);
    assert CleanRow(t, t.rows[0]) == None;
    assert CleanRow(t, t.rows[1]) == None;
    assert CleanRow(t, t.rows[2]) == None;
    assert SanitizePrefix(t, 1) == [];
    assert SanitizePrefix(t, 2) == [];
    IssuesPrefixStep(t, 1);
    assert IssuesPrefix(t, 1) == [Issue(0, None, [MissingSymbol])];
    IssuesPrefixStep(t, 2);
    assert IssuesPrefix(t, 2) == [Issue(0, None, [MissingSymbol]), Issue(1, Some("BAD"), [InvalidShares])];
    IssuesPrefixStep(t, 3);
  }
}
