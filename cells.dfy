/**
 * Raw cell values of an uploaded holdings table and the two per-cell
 * conversions the sanitiser and the diagnostics apply to them:
 * numeric coercion (`pd.to_numeric(..., errors="coerce")`) and the
 * symbol clean-up `str(x).strip()`.
 */
module Cells {
  import opened Wrappers

  /**
   * One cell as the table reader hands it over. `Missing` is pandas' NaN/None
   * marker; a numeric cell carries its value and the text Python's `str()`
   * gives for it (only read when the cell sits in the symbol column).
   */
  datatype Cell = Missing | Num(value: real, shown: string) | Text(s: string)

  // ---------------------------------------------------------------------
  // Numeric coercion
  // ---------------------------------------------------------------------

  predicate IsDigit(c: char) { '0' <= c <= '9' }

  predicate AllDigits(s: string)
  {
    s == [] || (AllDigits(s[..|s| - 1]) && IsDigit(s[|s| - 1]))
  }

  function DigitValue(c: char): nat
    requires IsDigit(c)
  {
    c as int - '0' as int
  }

  function DigitChar(d: nat): (c: char)
    requires d < 10
    ensures IsDigit(c) && DigitValue(c) == d
  {
    ('0' as int + d) as char
  }

  /** The value of a string of decimal digits, read most significant first. */
  function DigitsValue(s: string): nat
    requires AllDigits(s)
  {
    if s == [] then 0 else 10 * DigitsValue(s[..|s| - 1]) + DigitValue(s[|s| - 1])
  }

  /**
   * The value of the digits after a decimal point: ".25" is 2/10 + 5/100.
   * Only called on digit strings; a non-digit would count as 0.
   */
  function FractionValue(s: string): (r: real)
    ensures 0.0 <= r <= 1.0
  {
    if s == [] then 0.0
    else ((if IsDigit(s[0]) then DigitValue(s[0]) else 0) as real + FractionValue(s[1..])) / 10.0
  }

  /** Position of the first '.', or |s| when there is none. */
  function DotIndex(s: string): (r: nat)
    ensures r <= |s|
    ensures r < |s| ==> s[r] == '.'
    ensures forall k :: 0 <= k < r ==> s[k] != '.'
  {
    if s == [] then 0 else if s[0] == '.' then 0 else 1 + DotIndex(s[1..])
  }

  /**
   * An unsigned decimal: digits, optionally a '.' and more digits, with at
   * least one digit in all ("7", "2.50", ".5", "5.").
   */
  function ParseUnsigned(s: string): (r: Option<real>)
    ensures r.Some? ==> r.value >= 0.0
  {
    var p := DotIndex(s);
    var whole := s[..p];
    var frac := if p < |s| then s[p + 1..] else [];
    if AllDigits(whole) && AllDigits(frac) && |whole| + |frac| > 0 then
      Some(DigitsValue(whole) as real + FractionValue(frac))
    else
      None
  }

  /**
   * `pd.to_numeric` on one string with `errors="coerce"`: an optionally signed
   * decimal gives its value, anything else (including "NaN" and "") gives None.
   */
  function ParseNumber(s: string): Option<real>
  {
    if |s| > 0 && (s[0] == '-' || s[0] == '+') then
      match ParseUnsigned(s[1..])
      case None => None
      case Some(v) => Some(if s[0] == '-' then -v else v)
    else
      ParseUnsigned(s)
  }

  /** Numeric coercion of a cell; None is pandas' NaN. */
  function Coerce(c: Cell): (r: Option<real>)
    ensures c.Missing? ==> r.None?
    ensures c.Num? ==> r == Some(c.value)
  {
    match c
    case Missing => None
    case Num(v, _) => Some(v)
    case Text(s) => ParseNumber(s)
  }

  /** Decimal text of a natural number, the inverse the coercion is checked against. */
  function ShowNat(n: nat): (s: string)
    ensures |s| > 0 && IsDigit(s[0])
  {
    if n < 10 then [DigitChar(n)] else ShowNat(n / 10) + [DigitChar(n % 10)]
  }

  lemma {:induction false} ShowNatDigits(n: nat)
    ensures AllDigits(ShowNat(n)) && DigitsValue(ShowNat(n)) == n
  {
    if n >= 10 {
      ShowNatDigits(n / 10);
      var s := ShowNat(n);
      assert s[..|s| - 1] == ShowNat(n / 10);
    }
  }

  lemma {:induction false} AllDigitsAt(s: string, k: nat)
    requires AllDigits(s) && k < |s|
    ensures IsDigit(s[k])
  {
    if k < |s| - 1 {
      AllDigitsAt(s[..|s| - 1], k);
    }
  }

  lemma ParseUnsignedShowNat(n: nat)
    ensures ParseUnsigned(ShowNat(n)) == Some(n as real)
  {
    var s := ShowNat(n);
    ShowNatDigits(n);
    forall k | 0 <= k < |s| ensures s[k] != '.' {
      AllDigitsAt(s, k);
    }
    assert DotIndex(s) == |s|;
    assert s[..|s|] == s;
    assert DigitsValue([]) == 0;
  }

  /** A text that starts with a digit coerces as its unsigned reading, and negated after a '-'. */
  lemma ParseSigned(s: string, v: real)
    requires |s| > 0 && IsDigit(s[0]) && ParseUnsigned(s) == Some(v)
    ensures ParseNumber(s) == Some(v)
    ensures ParseNumber("-" + s) == Some(-v)
  {
    var t := "-" + s;
    assert t[0] == '-' && t[1..] == s;
  }

  /** Coercing the decimal text of a whole number gives that number back, with either sign. */
  lemma ParseShowNat(n: nat)
    ensures ParseNumber(ShowNat(n)) == Some(n as real)
    ensures ParseNumber("-" + ShowNat(n)) == Some(-(n as real))
  {
    var s := ShowNat(n);
    ParseUnsignedShowNat(n);
    ParseSigned(s, n as real);
  }

  /** Strings without a digit (such as "NaN", "foo" or "") never coerce. */
  lemma NoDigitNoNumber(s: string)
    requires forall k :: 0 <= k < |s| ==> !IsDigit(s[k])
    ensures Coerce(Text(s)) == None
  {
    var u := if |s| > 0 && (s[0] == '-' || s[0] == '+') then s[1..] else s;
    assert forall k :: 0 <= k < |u| ==> !IsDigit(u[k]) by {
      if u != s {
        forall k | 0 <= k < |u| ensures !IsDigit(u[k]) {
          assert u[k] == s[k + 1];
        }
      }
    }
    var p := DotIndex(u);
    if p > 0 {
      assert u[..p][p - 1] == u[p - 1];
    }
    if p + 1 < |u| {
      assert u[p + 1..][|u| - p - 2] == u[|u| - 1];
    }
  }

  // ---------------------------------------------------------------------
  // str(x).strip()
  // ---------------------------------------------------------------------

  /** The characters Python's `str.isspace` accepts, so the ones `strip()` removes. */
  predicate IsSpace(c: char)
  {
    c == ' ' || ('\t' <= c <= '\r') || ('\U{1c}' <= c <= '\U{1f}') ||
    c == '\U{85}' || c == '\U{a0}' || c == '\U{1680}' ||
    ('\U{2000}' <= c <= '\U{200a}') || c == '\U{2028}' || c == '\U{2029}' ||
    c == '\U{202f}' || c == '\U{205f}' || c == '\U{3000}'
  }

  /** A string with no whitespace at either end, such as every result of `strip()`. */
  predicate IsStripped(s: string)
  {
    s == [] || (!IsSpace(s[0]) && !IsSpace(s[|s| - 1]))
  }

  /** `s.lstrip()`. */
  function TrimLeft(s: string): (r: string)
    ensures |r| <= |s|
    ensures r != [] ==> !IsSpace(r[0])
  {
    if s != [] && IsSpace(s[0]) then TrimLeft(s[1..]) else s
  }

  /** `s.rstrip()`. */
  function TrimRight(s: string): (r: string)
    ensures |r| <= |s|
    ensures r != [] ==> !IsSpace(r[|r| - 1])
  {
    if s != [] && IsSpace(s[|s| - 1]) then TrimRight(s[..|s| - 1]) else s
  }

  /** `lstrip()` cuts a prefix made only of whitespace. */
  lemma {:induction false} TrimLeftCutsSpace(s: string)
    ensures TrimLeft(s) == s[|s| - |TrimLeft(s)|..]
    ensures forall k :: 0 <= k < |s| - |TrimLeft(s)| ==> IsSpace(s[k])
  {
    if s != [] && IsSpace(s[0]) {
      TrimLeftCutsSpace(s[1..]);
    }
  }

  /** `rstrip()` cuts a suffix made only of whitespace. */
  lemma {:induction false} TrimRightCutsSpace(s: string)
    ensures TrimRight(s) == s[..|TrimRight(s)|]
    ensures forall k :: |TrimRight(s)| <= k < |s| ==> IsSpace(s[k])
  {
    if s != [] && IsSpace(s[|s| - 1]) {
      TrimRightCutsSpace(s[..|s| - 1]);
    }
  }

  /** `s.strip()`. */
  function Strip(s: string): (r: string)
    ensures IsStripped(r) && |r| <= |s|
  {
    var l := TrimLeft(s);
    TrimRightCutsSpace(l);
    TrimRight(l)
  }

  /** How many characters `strip()` cuts from the front. */
  function StripStart(s: string): nat
  {
    |s| - |TrimLeft(s)|
  }

  /** What `strip()` keeps is a contiguous slice of `s`. */
  lemma StripIsSlice(s: string)
    ensures StripStart(s) + |Strip(s)| <= |s|
    ensures Strip(s) == s[StripStart(s)..StripStart(s) + |Strip(s)|]
  {
    var l := TrimLeft(s);
    TrimLeftCutsSpace(s);
    TrimRightCutsSpace(l);
    assert l == s[StripStart(s)..];
  }

  /** Everything `strip()` cuts from the front is whitespace. */
  lemma StripCutsFrontSpace(s: string)
    ensures forall k :: 0 <= k < StripStart(s) ==> IsSpace(s[k])
  {
    TrimLeftCutsSpace(s);
  }

  /** Everything `strip()` cuts from the back is whitespace. */
  lemma StripCutsBackSpace(s: string)
    ensures forall k :: StripStart(s) + |Strip(s)| <= k < |s| ==> IsSpace(s[k])
  {
    var l := TrimLeft(s);
    var i := StripStart(s);
    TrimLeftCutsSpace(s);
    TrimRightCutsSpace(l);
    forall k | i + |Strip(s)| <= k < |s|
      ensures IsSpace(s[k])
    {
      assert s[k] == l[k - i];
    }
  }

  /**
   * What `strip()` keeps is the slice of `s` left once only whitespace has
   * been cut from both ends.
   */
  lemma StripCutsOnlySpace(s: string)
    ensures StripStart(s) + |Strip(s)| <= |s|
    ensures Strip(s) == s[StripStart(s)..StripStart(s) + |Strip(s)|]
    ensures forall k :: 0 <= k < StripStart(s) ==> IsSpace(s[k])
    ensures forall k :: StripStart(s) + |Strip(s)| <= k < |s| ==> IsSpace(s[k])
  {
    StripIsSlice(s);
    StripCutsFrontSpace(s);
    StripCutsBackSpace(s);
  }

  /** `lstrip()` of a whitespace-only string is empty. */
  lemma {:induction false} TrimLeftAllSpace(s: string)
    requires forall k :: 0 <= k < |s| ==> IsSpace(s[k])
    ensures TrimLeft(s) == []
  {
    if s != [] {
      assert forall k :: 0 <= k < |s| - 1 ==> s[1..][k] == s[k + 1];
      TrimLeftAllSpace(s[1..]);
    }
  }

  /** `strip()` of a whitespace-only string (the empty one included) is empty. */
  lemma BlankStripsToEmpty(s: string)
    requires forall k :: 0 <= k < |s| ==> IsSpace(s[k])
    ensures Strip(s) == []
  {
    TrimLeftAllSpace(s);
  }

  /** `strip()` leaves an already stripped string alone. */
  lemma StrippedIsFixed(s: string)
    requires IsStripped(s)
    ensures Strip(s) == s
  {
  }

  /** `strip()` is idempotent. */
  lemma StripIdempotent(s: string)
    ensures Strip(Strip(s)) == Strip(s)
  {
    StrippedIsFixed(Strip(s));
  }

  /** `str(x)` of a present cell. */
  function Stringify(c: Cell): (r: string)
    requires !c.Missing?
    ensures c.Text? ==> r == c.s
  {
    match c
    case Num(_, shown) => shown
    case Text(s) => s
  }
}
