/**
 * The row sanitiser `sanitize_portfolio`: an order-preserving filter that
 * turns the raw rows of a holdings table into clean (symbol, shares, price)
 * holdings.
 */
module Sanitizer {
  import opened Wrappers
  import opened Cells

  /** The three columns the core reads; other columns are not modelled. */
  datatype RawRow = RawRow(symbol: Cell, shares: Cell, price: Cell)

  /**
   * A table as the reader produces it: which of the three columns exist, and
   * the rows in file order (a row's zero-based position is its index). The
   * cells of an absent column are never read.
   */
  datatype Table = Table(hasSymbol: bool, hasShares: bool, hasPrice: bool, rows: seq<RawRow>)

  /** One sanitised purchase lot. */
  datatype Holding = Holding(symbol: string, shares: real, price: real)

  /** What every sanitised row satisfies: a stripped symbol and a positive share count. */
  predicate IsClean(h: Holding)
  {
    IsStripped(h.symbol) && h.shares > 0.0
  }

  /** `df.get(column, 0)`: an absent column reads as the number 0. */
  function ColumnOrZero(present: bool, c: Cell): Cell
  {
    if present then c else Num(0.0, "0")
  }

  function SharesValue(t: Table, row: RawRow): Option<real>
  {
    Coerce(ColumnOrZero(t.hasShares, row.shares))
  }

  function PriceValue(t: Table, row: RawRow): Option<real>
  {
    Coerce(ColumnOrZero(t.hasPrice, row.price))
  }

  /**
   * The keep rule: a symbol column exists, the symbol is present, shares
   * coerce to a number above zero and price coerces to any number.
   */
  predicate Keeps(t: Table, row: RawRow)
  {
    t.hasSymbol && !row.symbol.Missing? &&
    SharesValue(t, row).Some? && SharesValue(t, row).value > 0.0 &&
    PriceValue(t, row).Some?
  }

  /** The sanitised form of one row, or None when the row is dropped. */
  function CleanRow(t: Table, row: RawRow): (r: Option<Holding>)
    ensures r.Some? <==> Keeps(t, row)
    ensures r.Some? ==> IsClean(r.value)
    ensures r.Some? ==> r.value.symbol == Strip(Stringify(row.symbol))
    ensures r.Some? ==> SharesValue(t, row) == Some(r.value.shares) && PriceValue(t, row) == Some(r.value.price)
  {
    if Keeps(t, row) then
      Some(Holding(Strip(Stringify(row.symbol)), SharesValue(t, row).value, PriceValue(t, row).value))
    else
      None
  }

  /** The sanitised rows among the first `n` rows, in order. */
  function SanitizePrefix(t: Table, n: nat): (r: seq<Holding>)
    requires n <= |t.rows|
    ensures |r| <= n
    ensures forall k :: 0 <= k < |r| ==> IsClean(r[k])
  {
    if n == 0 then []
    else
      var before := SanitizePrefix(t, n - 1);
      match CleanRow(t, t.rows[n - 1])
      case Some(h) => before + [h]
      case None => before
  }

  /**
   * `sanitize_portfolio`: no symbol column gives the empty table; otherwise
   * every row is either cleaned and kept or dropped, order preserved.
   */
  function Sanitize(t: Table): (r: seq<Holding>)
    ensures |r| <= |t.rows|
    ensures forall k :: 0 <= k < |r| ==> IsClean(r[k])
    ensures !t.hasSymbol ==> r == []
  {
    if !t.hasSymbol then [] else SanitizePrefix(t, |t.rows|)
  }

  /** Positions of the kept rows among the first `n`, ascending. */
  function KeptIndices(t: Table, n: nat): seq<nat>
    requires n <= |t.rows|
  {
    if n == 0 then []
    else KeptIndices(t, n - 1) + (if Keeps(t, t.rows[n - 1]) then [n - 1] else [])
  }

  predicate StrictlyIncreasing(ix: seq<nat>)
  {
    forall k, l :: 0 <= k < l < |ix| ==> ix[k] < ix[l]
  }

  /** `ix` lists exactly the kept rows of the first `n`, and `r` holds their cleaned forms. */
  predicate FilterOf(t: Table, n: nat, ix: seq<nat>, r: seq<Holding>)
    requires n <= |t.rows|
  {
    |ix| == |r| &&
    StrictlyIncreasing(ix) &&
    (forall k :: 0 <= k < |ix| ==> ix[k] < n && CleanRow(t, t.rows[ix[k]]) == Some(r[k])) &&
    (forall i :: 0 <= i < n ==> (i in ix <==> Keeps(t, t.rows[i])))
  }

  /** The outcome of cleaning each of the first `n` rows. */
  function Outcomes(t: Table, n: nat): (r: seq<Option<Holding>>)
    requires n <= |t.rows|
    ensures |r| == n
  {
    if n == 0 then [] else Outcomes(t, n - 1) + [CleanRow(t, t.rows[n - 1])]
  }

  lemma {:induction false} OutcomeAt(t: Table, n: nat, i: nat)
    requires i < n <= |t.rows|
    ensures Outcomes(t, n)[i] == CleanRow(t, t.rows[i])
  {
    if i < n - 1 {
      OutcomeAt(t, n - 1, i);
      assert Outcomes(t, n)[i] == Outcomes(t, n - 1)[i];
    }
  }

  /** `ix` lists the positions of the present outcomes, ascending, and `r` their values. */
  predicate Selects(outcomes: seq<Option<Holding>>, ix: seq<nat>, r: seq<Holding>)
  {
    |ix| == |r| &&
    StrictlyIncreasing(ix) &&
    (forall k :: 0 <= k < |ix| ==> ix[k] < |outcomes| && outcomes[ix[k]] == Some(r[k])) &&
    (forall i :: 0 <= i < |outcomes| ==> (i in ix <==> outcomes[i].Some?))
  }

  lemma SelectsSkip(outcomes: seq<Option<Holding>>, ix: seq<nat>, r: seq<Holding>)
    requires Selects(outcomes, ix, r)
    ensures Selects(outcomes + [None], ix, r)
  {
    var after := outcomes + [None];
    forall k | 0 <= k < |ix|
      ensures after[ix[k]] == Some(r[k])
    {
      assert after[ix[k]] == outcomes[ix[k]];
    }
    forall i | 0 <= i < |after|
      ensures i in ix <==> after[i].Some?
    {
      if i < |outcomes| {
        assert after[i] == outcomes[i];
      } else {
        assert |outcomes| !in ix;
      }
    }
  }

  lemma SelectsTake(outcomes: seq<Option<Holding>>, ix: seq<nat>, r: seq<Holding>, h: Holding)
    requires Selects(outcomes, ix, r)
    ensures Selects(outcomes + [Some(h)], ix + [|outcomes|], r + [h])
  {
    var after, ix1, r1 := outcomes + [Some(h)], ix + [|outcomes|], r + [h];
    forall k | 0 <= k < |ix1|
      ensures ix1[k] < |after| && after[ix1[k]] == Some(r1[k])
    {
      if k < |ix| {
        assert ix1[k] == ix[k] && r1[k] == r[k] && after[ix[k]] == outcomes[ix[k]];
      } else {
        assert ix1[k] == |outcomes| && r1[k] == h;
      }
    }
    forall k, l | 0 <= k < l < |ix1|
      ensures ix1[k] < ix1[l]
    {
      assert ix1[k] == ix[k];
      if l < |ix| {
        assert ix1[l] == ix[l];
      }
    }
    forall i | 0 <= i < |after|
      ensures i in ix1 <==> after[i].Some?
    {
      assert i in ix1 <==> i in ix || i == |outcomes|;
      if i < |outcomes| {
        assert after[i] == outcomes[i];
      }
    }
  }

  lemma {:induction false} SanitizePrefixSelects(t: Table, n: nat)
    requires n <= |t.rows|
    ensures Selects(Outcomes(t, n), KeptIndices(t, n), SanitizePrefix(t, n))
  {
    if n > 0 {
      SanitizePrefixSelects(t, n - 1);
      var outcomes, ix, r := Outcomes(t, n - 1), KeptIndices(t, n - 1), SanitizePrefix(t, n - 1);
      var e := CleanRow(t, t.rows[n - 1]);
      assert Outcomes(t, n) == outcomes + [e];
      SanitizePrefixStep(t, n);
      if e.Some? {
        assert KeptIndices(t, n) == ix + [|outcomes|];
        assert SanitizePrefix(t, n) == r + [e.value];
        SelectsTake(outcomes, ix, r, e.value);
      } else {
        assert KeptIndices(t, n) == ix;
        assert SanitizePrefix(t, n) == r;
        SelectsSkip(outcomes, ix, r);
      }
    }
  }

  lemma SanitizePrefixIsFilter(t: Table, n: nat)
    requires n <= |t.rows|
    ensures FilterOf(t, n, KeptIndices(t, n), SanitizePrefix(t, n))
  {
    SanitizePrefixSelects(t, n);
    forall i | 0 <= i < n
      ensures Outcomes(t, n)[i] == CleanRow(t, t.rows[i])
    {
      OutcomeAt(t, n, i);
    }
  }

  lemma {:induction false} NothingKeptWithoutSymbolColumn(t: Table, n: nat)
    requires !t.hasSymbol && n <= |t.rows|
    ensures KeptIndices(t, n) == []
  {
    if n > 0 {
      NothingKeptWithoutSymbolColumn(t, n - 1);
    }
  }

  /**
   * The sanitiser is an order-preserving filter: its output is the cleaned
   * form of exactly the rows satisfying the keep rule, in their input order.
   */
  lemma SanitizeIsOrderPreservingFilter(t: Table)
    ensures FilterOf(t, |t.rows|, KeptIndices(t, |t.rows|), Sanitize(t))
  {
    SanitizePrefixIsFilter(t, |t.rows|);
    if !t.hasSymbol {
      NothingKeptWithoutSymbolColumn(t, |t.rows|);
    }
  }

  /** The table a list of holdings makes when fed back to the sanitiser. */
  function AsTable(hs: seq<Holding>): Table
  {
    Table(true, true, true,
          seq(|hs|, k requires 0 <= k < |hs| => RawRow(Text(hs[k].symbol), Num(hs[k].shares, ""), Num(hs[k].price, ""))))
  }

  lemma {:induction false} SanitizePrefixOfClean(hs: seq<Holding>, n: nat)
    requires forall k :: 0 <= k < |hs| ==> IsClean(hs[k])
    requires n <= |hs|
    ensures SanitizePrefix(AsTable(hs), n) == hs[..n]
  {
    if n > 0 {
      SanitizePrefixOfClean(hs, n - 1);
      var t, h := AsTable(hs), hs[n - 1];
      assert t.rows[n - 1] == RawRow(Text(h.symbol), Num(h.shares, ""), Num(h.price, ""));
      CleanHoldingRow(t, h, "", "");
      SanitizePrefixStep(t, n);
      TakeOneMore(hs, n);
    }
  }

  lemma TakeOneMore(hs: seq<Holding>, n: nat)
    requires 0 < n <= |hs|
    ensures hs[..n] == hs[..n - 1] + [hs[n - 1]]
  {
  }

  /** The row a clean holding is written as is cleaned back into that holding. */
  lemma CleanHoldingRow(t: Table, h: Holding, sharesText: string, priceText: string)
    requires t.hasSymbol && t.hasShares && t.hasPrice && IsClean(h)
    ensures CleanRow(t, RawRow(Text(h.symbol), Num(h.shares, sharesText), Num(h.price, priceText))) == Some(h)
  {
    StrippedIsFixed(h.symbol);
  }

  /** Holdings that are already clean pass the sanitiser unchanged. */
  lemma SanitizeFixesCleanHoldings(hs: seq<Holding>)
    requires forall k :: 0 <= k < |hs| ==> IsClean(hs[k])
    ensures Sanitize(AsTable(hs)) == hs
  {
    SanitizePrefixOfClean(hs, |hs|);
  }

  /** Sanitising an already sanitised table changes nothing. */
  lemma SanitizeIdempotent(t: Table)
    ensures Sanitize(AsTable(Sanitize(t))) == Sanitize(t)
  {
    SanitizeFixesCleanHoldings(Sanitize(t));
  }

  /**
   * A row whose symbol is only whitespace is kept, with the empty symbol,
   * whenever its shares and price are valid: `dropna` only sees missing cells.
   */
  lemma BlankSymbolIsKept(t: Table, row: RawRow, s: string)
    requires row.symbol == Text(s) && forall k :: 0 <= k < |s| ==> IsSpace(s[k])
    requires t.hasSymbol && SharesValue(t, row).Some? && SharesValue(t, row).value > 0.0
    requires PriceValue(t, row).Some?
    ensures CleanRow(t, row) == Some(Holding("", SharesValue(t, row).value, PriceValue(t, row).value))
  {
    BlankStripsToEmpty(s);
  }

  /** A two-space symbol with 3 shares at 1 survives as the empty symbol. */
  lemma BlankSymbolExample(t: Table)
    requires t.hasSymbol && t.hasShares && t.hasPrice
    requires t.rows == [RawRow(Text("  "), Num(3.0, "3"), Num(1.0, "1"))]
    ensures Sanitize(t) == [Holding("", 3.0, 1.0)]
  {
    BlankSymbolIsKept(t, t.rows[0], "  ");
    SanitizePrefixStep(t, 1);
  }

  /** Five mixed rows from the project's tests: exactly A and D survive. */
  lemma MixedRowsExample(t: Table)
    requires t.hasSymbol && t.hasShares && t.hasPrice
    requires t.rows == [
      RawRow(Text("A"), Num(10.0, "10"), Num(100.0, "100")),
      RawRow(Missing, Num(5.0, "5"), Num(200.0, "200")),
      RawRow(Text("B"), Text("NaN"), Num(300.0, "300")),
      RawRow(Text("C"), Num(0.0, "0"), Text("NaN")),
      RawRow(Text("D"), Text("2"), Num(5.0, "5"))]
    ensures Sanitize(t) == [Holding("A", 10.0, 100.0), Holding("D", 2.0, 5.0)]
  {
    var a, d := Holding("A", 10.0, 100.0), Holding("D", 2.0, 5.0);
    assert IsClean(a);
    CleanHoldingRow(t, a, "10", "100");
    assert CleanRow(t, t.rows[1]) == None;
    NoDigitNoNumber("NaN");
    assert CleanRow(t, t.rows[2]) == None;
    assert CleanRow(t, t.rows[3]) == None;
    TextSharesRow(t);
    SanitizePrefixStep(t, 1);
    SanitizePrefixStep(t, 2);
    SanitizePrefixStep(t, 3);
    SanitizePrefixStep(t, 4);
    SanitizePrefixStep(t, 5);
  }

  /** Shares given as the text "2" coerce to 2. */
  lemma TextSharesRow(t: Table)
    requires t.hasSymbol && t.hasShares && t.hasPrice
    ensures CleanRow(t, RawRow(Text("D"), Text("2"), Num(5.0, "5"))) == Some(Holding("D", 2.0, 5.0))
  {
    ParseShowNat(2);
    assert ShowNat(2) == "2";
    StrippedIsFixed("D");
  }

  lemma SanitizePrefixStep(t: Table, n: nat)
    requires 0 < n <= |t.rows|
    ensures SanitizePrefix(t, n) ==
      SanitizePrefix(t, n - 1) + (if CleanRow(t, t.rows[n - 1]).Some? then [CleanRow(t, t.rows[n - 1]).value] else [])
  {
  }
}
