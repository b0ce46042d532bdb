/**
 * The raw spreadsheet as the extractors see it after `pd.read_excel`: a
 * rectangular grid of cells, each a number, a string, a date or empty
 * (NaN), together with the two cell-level conversions the code applies
 * everywhere: `str(cell)` and `pd.to_numeric(cell, errors="coerce")`.
 */
module Sheet {
  import opened Wrappers
  import opened Strings

  /** A cell value as pandas hands it over; `Date` keeps only the year, so month and day are lost wherever a date is rendered with `str()`. */
  datatype Cell = Empty | Num(num: real) | Text(text: string) | Date(year: int)

  /** A DataFrame's body: `width` columns and a list of rows. */
  datatype Grid = Grid(width: nat, rows: seq<seq<Cell>>)

  /** A DataFrame is rectangular: every row has one cell per column. */
  predicate WellFormed(g: Grid) {
    forall i :: 0 <= i < |g.rows| ==> |g.rows[i]| == g.width
  }

  /** The exceptions that abort a run. */
  datatype EtlError =
    | IndexOutOfRange     // an `iloc` position past the end of the frame (IndexError)
    | LabelRowNotFound    // T1: no "E-payments" row, so `.index[0]` fails (IndexError)
    | MetricRowNotFound   // T2: "Could not detect metric header row in T2." (RuntimeError)
    | NoInstruments       // T2: `pd.concat([])` (ValueError)
    | MissingYearColumn   // T5: a section with no rows has no 'year' column (KeyError)

  /** Python's `int(x)` on a float: truncation toward zero. */
  function Trunc(r: real): (n: int)
    ensures r >= 0.0 ==> n as real <= r < n as real + 1.0
    ensures r < 0.0 ==> n as real - 1.0 < r <= n as real
  {
    if r >= 0.0 then r.Floor else -((-r).Floor)
  }

  /** Up to `k` decimal digits of the fraction `f`, most significant first. */
  function FracText(f: real, k: nat): string
    requires 0.0 <= f < 1.0
    decreases k
  {
    if k == 0 || f == 0.0 then ""
    else
      var d := (f * 10.0).Floor;
      [DigitChar(d)] + FracText(f * 10.0 - d as real, k - 1)
  }

  function UnsignedNumText(r: real): string
    requires r >= 0.0
  {
    var whole := r.Floor;
    var frac := r - whole as real;
    if frac == 0.0 then NatText(whole) else NatText(whole) + "." + FracText(frac, 17)
  }

  /** `str()` of a numeric cell: integral values as Python ints, others with their decimals. */
  function NumText(r: real): string {
    if r < 0.0 then "-" + UnsignedNumText(-r) else UnsignedNumText(r)
  }

  /** `str(cell)` (and `.astype(str)`): NaN renders as "nan", a date as its timestamp. */
  function CellText(c: Cell): string {
    match c
    case Empty => "nan"
    case Num(r) => NumText(r)
    case Text(s) => s
    case Date(y) => IntText(y) + "-01-01 00:00:00"
  }

  predicate AllDigits(s: string) {
    forall i :: 0 <= i < |s| ==> IsAsciiDigit(s[i])
  }

  /** The value of a string of decimal digits. */
  function DigitsValue(ds: string): nat
    requires AllDigits(ds)
  {
    if |ds| == 0 then 0 else DigitsValue(ds[..|ds| - 1]) * 10 + DigitValue(ds[|ds| - 1])
  }

  /** The value of the digits after a decimal point. */
  function FracValue(ds: string): real
    requires AllDigits(ds)
  {
    if |ds| == 0 then 0.0 else (DigitValue(ds[0]) as real + FracValue(ds[1..])) / 10.0
  }

  /** The first offset of `ch` in `s`. */
  function IndexOf(s: string, ch: char): (r: Option<nat>)
    ensures r.Some? ==> r.value < |s| && s[r.value] == ch && forall i :: 0 <= i < r.value ==> s[i] != ch
    ensures r.None? ==> forall i :: 0 <= i < |s| ==> s[i] != ch
  {
    if |s| == 0 then None
    else if s[0] == ch then Some(0)
    else match IndexOf(s[1..], ch)
      case None => None
      case Some(i) => Some(i + 1)
  }

  /** Digits with an optional decimal point and at least one digit. */
  function ParseUnsigned(t: string): Option<real> {
    match IndexOf(t, '.')
    case None =>
      if |t| > 0 && AllDigits(t) then Some(DigitsValue(t) as real) else None
    case Some(k) =>
      var whole, frac := t[..k], t[k + 1..];
      if (|whole| > 0 || |frac| > 0) && AllDigits(whole) && AllDigits(frac)
      then Some(DigitsValue(whole) as real + FracValue(frac))
      else None
  }

  /** A text cell's number under `to_numeric`: surrounding blanks, a sign, digits and a point. */
  function ParseNumber(s: string): Option<real> {
    var t := Strip(s);
    if |t| > 0 && (t[0] == '-' || t[0] == '+') then
      match ParseUnsigned(t[1..])
      case None => None
      case Some(v) => Some(if t[0] == '-' then -v else v)
    else ParseUnsigned(t)
  }

  /** `pd.to_numeric(cell, errors="coerce")`, with NaN as None. */
  function ToNumeric(c: Cell): Option<real> {
    match c
    case Num(r) => Some(r)
    case Text(s) => ParseNumber(s)
    case _ => None
  }

  /**
   * `n / d` on float columns, defined only for two present numbers and a
   * divisor other than zero (pandas gives inf or NaN otherwise).
   */
  function Quotient(n: Option<real>, d: Option<real>): (q: Option<real>)
    ensures q.Some? <==> n.Some? && d.Some? && d.value != 0.0
    ensures q.Some? ==> q.value * d.value == n.value
  {
    if n.Some? && d.Some? && d.value != 0.0 then Some(n.value / d.value) else None
  }

  // ---------------------------------------------------------------------
  // str() and to_numeric() agree on integers
  // ---------------------------------------------------------------------

  lemma {:induction false} DigitsValueOfNatText(n: nat)
    ensures AllDigits(NatText(n)) && DigitsValue(NatText(n)) == n
  {
    if n >= 10 {
      DigitsValueOfNatText(n / 10);
      var t := NatText(n);
      assert t[..|t| - 1] == NatText(n / 10);
    }
  }

  lemma StripOfUnpadded(s: string)
    requires |s| > 0 && !IsSpace(s[0]) && !IsSpace(s[|s| - 1])
    ensures Strip(s) == s
  {
  }

  /** Parsing the text of an integer gives the integer back. */
  lemma ParseIntText(n: int)
    ensures ParseNumber(IntText(n)) == Some(n as real)
  {
    var t := IntText(n);
    var m: nat := if n < 0 then -n else n;
    DigitsValueOfNatText(m);
    StripOfUnpadded(t);
    if n < 0 {
      assert t[1..] == NatText(m);
    }
    assert IndexOf(NatText(m), '.') == None;
  }

  /** A whole number renders as `str` of its int value. */
  lemma IntegralNumText(r: real)
    requires r == r.Floor as real
    ensures CellText(Num(r)) == IntText(r.Floor)
  {
    if r < 0.0 {
      assert (-r).Floor == -r.Floor;
    }
  }

  /** Round trip: a whole-number cell written out by `str` reads back as the same number. */
  lemma IntegralCellRoundTrip(r: real)
    requires r == r.Floor as real
    ensures ToNumeric(Text(CellText(Num(r)))) == Some(r)
  {
    IntegralNumText(r);
    ParseIntText(r.Floor);
  }
}
