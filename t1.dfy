/**
 * Extractor T1, `clean_t1`: the e-payments-per-capita series. Row 1 of the
 * sheet body holds the years from column 3 on; the first row whose
 * stripped column-1 text starts with "E-payments" holds the values, read
 * positionally from column 3.
 */
module T1 {
  import opened Wrappers
  import opened Strings
  import opened Sheet

  const YearRow: nat := 1
  const LabelColumn: nat := 1
  const FirstValueColumn: nat := 3
  const LabelPrefix: string := "E-payments"

  /** One row of `clean_t1.csv`: [year, e_payments_per_capita]. */
  datatype PerCapitaRecord = PerCapitaRecord(year: int, ePaymentsPerCapita: Option<real>)

  /** `row[k:]` as Python slices it: empty when `k` is past the end. */
  function Tail(row: seq<Cell>, k: nat): seq<Cell> {
    if k <= |row| then row[k..] else []
  }

  /** `pd.to_numeric(cells, errors="coerce").dropna().astype(int)`. */
  function NumericYears(cells: seq<Cell>): (years: seq<int>)
    ensures |years| <= |cells|
  {
    if |cells| == 0 then []
    else
      var init := NumericYears(cells[..|cells| - 1]);
      match ToNumeric(cells[|cells| - 1])
      case None => init
      case Some(r) => init + [Trunc(r)]
  }

  /** The row `df.iloc[:,1].astype(str).str.strip().str.startswith("E-payments")` selects. */
  predicate IsLabelRow(row: seq<Cell>) {
    |row| > LabelColumn && StartsWith(Strip(CellText(row[LabelColumn])), LabelPrefix)
  }

  /** The first label row at or after `i` (`.index[0]` of the selection). */
  function LabelRowFrom(rows: seq<seq<Cell>>, i: nat): (r: Option<nat>)
    decreases |rows| - i
    ensures r.Some? ==> i <= r.value < |rows| && IsLabelRow(rows[r.value])
    ensures r.Some? ==> forall j :: i <= j < r.value ==> !IsLabelRow(rows[j])
    ensures r.None? ==> forall j :: i <= j < |rows| ==> !IsLabelRow(rows[j])
  {
    if i >= |rows| then None
    else if IsLabelRow(rows[i]) then Some(i)
    else LabelRowFrom(rows, i + 1)
  }

  /** `clean_t1` on the sheet body `g`. */
  function CleanT1(g: Grid): Result<seq<PerCapitaRecord>, EtlError>
    requires WellFormed(g)
  {
    if |g.rows| <= YearRow then Failure(IndexOutOfRange)
    else
      var years := NumericYears(Tail(g.rows[YearRow], FirstValueColumn));
      if g.width <= LabelColumn then Failure(IndexOutOfRange)
      else
        match LabelRowFrom(g.rows, 0)
        case None => Failure(LabelRowNotFound)
        case Some(r) =>
          var values := Tail(g.rows[r], FirstValueColumn)[..|years|];
          Success(seq(|years|, k requires 0 <= k < |years| =>
                        PerCapitaRecord(years[k], ToNumeric(values[k]))))
  }

  // ---------------------------------------------------------------------
  // Properties
  // ---------------------------------------------------------------------

  /** Coercing and dropping works cell by cell: it distributes over concatenation. */
  lemma {:induction false} NumericYearsAppend(a: seq<Cell>, b: seq<Cell>)
    ensures NumericYears(a + b) == NumericYears(a) + NumericYears(b)
    decreases |b|
  {
    if |b| > 0 {
      var b' := b[..|b| - 1];
      assert (a + b)[..|a + b| - 1] == a + b';
      assert (a + b)[|a + b| - 1] == b[|b| - 1];
      NumericYearsAppend(a, b');
    } else {
      assert a + b == a;
    }
  }

  /** A non-numeric cell in the year row contributes no year; the others close up. */
  lemma NonNumericCellDropped(a: seq<Cell>, x: Cell, b: seq<Cell>)
    requires ToNumeric(x).None?
    ensures NumericYears(a + [x] + b) == NumericYears(a + b)
  {
    NumericYearsAppend(a + [x], b);
    NumericYearsAppend(a, [x]);
    NumericYearsAppend(a, b);
    assert [x][..0] == [];
  }

  /** When every cell is numeric, year `k` is the truncated number in cell `k`. */
  lemma {:induction false} AllNumericYears(cells: seq<Cell>)
    requires forall j :: 0 <= j < |cells| ==> ToNumeric(cells[j]).Some?
    ensures |NumericYears(cells)| == |cells|
    ensures forall k :: 0 <= k < |cells| ==> NumericYears(cells)[k] == Trunc(ToNumeric(cells[k]).value)
  {
    if |cells| > 0 {
      AllNumericYears(cells[..|cells| - 1]);
    }
  }

  /**
   * `clean_t1` fails exactly when row 1 or column 1 is missing or no label
   * row exists; otherwise it yields one record per numeric year cell, the
   * k-th year paired with the label row's cell in column 3 + k, where the
   * label row is the first one whose stripped column-1 text starts with
   * "E-payments".
   */
  lemma CleanT1Spec(g: Grid)
    requires WellFormed(g)
    ensures CleanT1(g).Failure? <==>
              || |g.rows| <= YearRow || g.width <= LabelColumn
              || forall i :: 0 <= i < |g.rows| ==> !IsLabelRow(g.rows[i])
    ensures CleanT1(g).Success? ==>
              var out := CleanT1(g).value;
              var years := NumericYears(Tail(g.rows[YearRow], FirstValueColumn));
              && |out| == |years|
              && exists r ::
                   && 0 <= r < |g.rows| && IsLabelRow(g.rows[r])
                   && (forall j :: 0 <= j < r ==> !IsLabelRow(g.rows[j]))
                   && forall k :: 0 <= k < |out| ==>
                        && out[k].year == years[k]
                        && FirstValueColumn + k < g.width
                        && out[k].ePaymentsPerCapita == ToNumeric(g.rows[r][FirstValueColumn + k])
  {
    if |g.rows| > YearRow && g.width > LabelColumn {
      var years := NumericYears(Tail(g.rows[YearRow], FirstValueColumn));
      match LabelRowFrom(g.rows, 0)
      case None =>
      case Some(r) =>
        var out := CleanT1(g).value;
        forall k | 0 <= k < |out|
          ensures FirstValueColumn + k < g.width
          ensures out[k].ePaymentsPerCapita == ToNumeric(g.rows[r][FirstValueColumn + k])
        {
          assert Tail(g.rows[r], FirstValueColumn)[k] == g.rows[r][FirstValueColumn + k];
        }
    }
  }
}
