/**
 * Extractor T2, `clean_t2`: the payment-instrument volume/value table,
 * located by a chain of detectors (metric row, instrument-label row,
 * period column, data span, year recovery, column pairing) and reshaped
 * from wide to long.
 */
module T2 {
  import opened Wrappers
  import opened Strings
  import opened Ordering
  import opened Sheet

  const ScanRows: nat := 12
  const DefaultPeriodColumn: nat := 1
  const PeriodHeading: string := "payment instruments"
  const VolumeWord: string := "volume"
  const ValueWord: string := "value"
  const Separator: string := "__"
  /** Values are reported in RM million; the table stores RM. */
  const ValueScale: real := 1000000.0

  /** One row of `clean_t2.csv`: [period, year, instrument, volume, value, avg_txn_value]. */
  datatype InstrumentRecord = InstrumentRecord(
    period: string, year: int, instrument: string,
    volume: Option<real>, value: Option<real>, avgTxnValue: Option<real>)

  /** A data row that survived year recovery: its stripped period text, its year, its cells. */
  datatype PeriodRow = PeriodRow(period: string, year: int, cells: seq<Cell>)

  /** What the column loop works on: forward-filled labels, the metric row, the period column, the surviving rows. */
  datatype Layout = Layout(
    labels: seq<Option<string>>, metrics: seq<Cell>, periodColumn: nat,
    rows: seq<PeriodRow>, width: nat)

  ghost predicate ValidLayout(l: Layout) {
    && |l.labels| == l.width
    && |l.metrics| == l.width
    && forall k :: 0 <= k < |l.rows| ==> |l.rows[k].cells| == l.width
  }

  // ---------------------------------------------------------------------
  // Detector 1: the metric row (lines 14-21)
  // ---------------------------------------------------------------------

  /** How many of `texts` contain `p` (`texts.str.contains(p).sum()`). */
  function CountContaining(texts: seq<string>, p: string): (n: nat)
    ensures n <= |texts|
  {
    if |texts| == 0 then 0
    else CountContaining(texts[..|texts| - 1], p) + (if Contains(texts[|texts| - 1], p) then 1 else 0)
  }

  /** `df.iloc[i].astype(str).str.lower()`. */
  function RowTexts(row: seq<Cell>): seq<string> {
    seq(|row|, c requires 0 <= c < |row| => Lower(CellText(row[c])))
  }

  predicate IsMetricRow(row: seq<Cell>) {
    CountContaining(RowTexts(row), VolumeWord) >= 2 && CountContaining(RowTexts(row), ValueWord) >= 2
  }

  /**
   * The scan `for i in range(0, 12)` from row `i` on: the first metric row,
   * an IndexError when the frame ends first, or the RuntimeError after row 11.
   */
  function MetricRowFrom(rows: seq<seq<Cell>>, i: nat): (r: Result<nat, EtlError>)
    requires i <= ScanRows
    decreases ScanRows - i
    ensures r.Success? ==> i <= r.value < ScanRows && r.value < |rows| && IsMetricRow(rows[r.value])
    ensures r.Success? ==> forall j :: i <= j < r.value ==> !IsMetricRow(rows[j])
    ensures r.Failure? ==> forall j :: i <= j < ScanRows && j < |rows| ==> !IsMetricRow(rows[j])
    ensures r.Failure? ==> r.error == if i < ScanRows && |rows| < ScanRows then IndexOutOfRange else MetricRowNotFound
  {
    if i == ScanRows then Failure(MetricRowNotFound)
    else if i >= |rows| then Failure(IndexOutOfRange)
    else if IsMetricRow(rows[i]) then Success(i)
    else MetricRowFrom(rows, i + 1)
  }

  function MetricRow(rows: seq<seq<Cell>>): Result<nat, EtlError> {
    MetricRowFrom(rows, 0)
  }

  /** A metric row has at least two cells, so column 1 always exists. */
  lemma MetricRowIsWide(row: seq<Cell>)
    requires IsMetricRow(row)
    ensures |row| >= 2
  {
  }

  /** The header scan as the source writes it: a loop with an early `break`. */
  method FindMetricRow(rows: seq<seq<Cell>>) returns (r: Result<nat, EtlError>)
    ensures r == MetricRow(rows)
  {
    var metricRow: Option<nat> := None;
    var i := 0;
    while i < ScanRows
      invariant 0 <= i <= ScanRows && i <= |rows|
      invariant metricRow.None? ==> MetricRowFrom(rows, i) == MetricRow(rows)
      invariant metricRow.Some? ==> Success(metricRow.value) == MetricRow(rows)
    {
      if i >= |rows| {
        return Failure(IndexOutOfRange);
      }
      if IsMetricRow(rows[i]) {
        metricRow := Some(i);
        break;
      }
      i := i + 1;
    }
    if metricRow.None? {
      return Failure(MetricRowNotFound);
    }
    r := Success(metricRow.value);
  }

  // ---------------------------------------------------------------------
  // Detector 2: the instrument-label row, forward-filled (lines 22-23)
  // ---------------------------------------------------------------------

  /** `.astype(str).replace({"nan": None})` on one cell. */
  function LabelOf(c: Cell): Option<string> {
    var t := CellText(c);
    if t == "nan" then None else Some(t)
  }

  /** `.ffill()`: each missing entry takes the nearest present entry on its left. */
  function FFill(xs: seq<Option<string>>): (r: seq<Option<string>>)
    ensures |r| == |xs|
  {
    if |xs| == 0 then []
    else
      var init := FFill(xs[..|xs| - 1]);
      var last := xs[|xs| - 1];
      init + [if last.Some? then last else if |init| > 0 then init[|init| - 1] else None]
  }

  function InstrumentLabels(row: seq<Cell>): seq<Option<string>> {
    FFill(seq(|row|, c requires 0 <= c < |row| => LabelOf(row[c])))
  }

  /** `str()` of a forward-filled label: a leading gap that nothing fills prints as "None". */
  function LabelText(l: Option<string>): string {
    match l
    case None => "None"
    case Some(s) => s
  }

  lemma {:induction false} FFillNearest(xs: seq<Option<string>>, j: nat, c: nat)
    requires j <= c < |xs| && xs[j].Some?
    requires forall k :: j < k <= c ==> xs[k].None?
    ensures FFill(xs)[c] == xs[j]
  {
    var init := xs[..|xs| - 1];
    if c < |xs| - 1 {
      FFillNearest(init, j, c);
    } else if j < c {
      FFillNearest(init, j, c - 1);
    }
  }

  lemma {:induction false} FFillLeading(xs: seq<Option<string>>, c: nat)
    requires c < |xs|
    requires forall k :: 0 <= k <= c ==> xs[k].None?
    ensures FFill(xs)[c].None?
  {
    var init := xs[..|xs| - 1];
    if c < |xs| - 1 {
      FFillLeading(init, c);
    } else if c > 0 {
      FFillLeading(init, c - 1);
    }
  }

  /**
   * After forward-fill, a column carries the nearest present label at or to
   * its left, and stays empty when there is none.
   */
  lemma ForwardFillSpec(xs: seq<Option<string>>)
    ensures |FFill(xs)| == |xs|
    ensures forall j, c :: 0 <= j <= c < |xs| && xs[j].Some? && (forall k :: j < k <= c ==> xs[k].None?)
                           ==> FFill(xs)[c] == xs[j]
    ensures forall c :: 0 <= c < |xs| && (forall k :: 0 <= k <= c ==> xs[k].None?) ==> FFill(xs)[c].None?
  {
    forall j, c | 0 <= j <= c < |xs| && xs[j].Some? && (forall k :: j < k <= c ==> xs[k].None?)
      ensures FFill(xs)[c] == xs[j]
    {
      FFillNearest(xs, j, c);
    }
    forall c | 0 <= c < |xs| && (forall k :: 0 <= k <= c ==> xs[k].None?)
      ensures FFill(xs)[c].None?
    {
      FFillLeading(xs, c);
    }
  }

  // ---------------------------------------------------------------------
  // Detector 3: the period column (line 26)
  // ---------------------------------------------------------------------

  /** `str(df.columns[c])`: an empty header cell is named "Unnamed: c" by pandas. */
  function HeaderText(c: nat, cell: Cell): string {
    if cell.Empty? then "Unnamed: " + IntText(c) else CellText(cell)
  }

  predicate IsPeriodHeader(header: seq<Cell>, c: nat)
    requires c < |header|
  {
    Contains(Lower(HeaderText(c, header[c])), PeriodHeading)
  }

  function PeriodHeaderFrom(header: seq<Cell>, c: nat): (r: Option<nat>)
    decreases |header| - c
    ensures r.Some? ==> c <= r.value < |header| && IsPeriodHeader(header, r.value)
    ensures r.Some? ==> forall j :: c <= j < r.value ==> !IsPeriodHeader(header, j)
    ensures r.None? ==> forall j :: c <= j < |header| ==> !IsPeriodHeader(header, j)
  {
    if c >= |header| then None
    else if IsPeriodHeader(header, c) then Some(c)
    else PeriodHeaderFrom(header, c + 1)
  }

  /** The first column headed "payment instruments" (any case), else column 1. */
  function PeriodColumn(header: seq<Cell>): nat {
    match PeriodHeaderFrom(header, 0)
    case Some(c) => c
    case None => DefaultPeriodColumn
  }

  // ---------------------------------------------------------------------
  // Detector 4: the data span (lines 27-31)
  // ---------------------------------------------------------------------

  /** `df.iloc[r].isna().all()`. */
  predicate AllEmpty(row: seq<Cell>) {
    forall c :: 0 <= c < |row| ==> row[c].Empty?
  }

  /** The end of the data block: the first fully-empty row at or after `start`, or the end of the frame. */
  function DataEnd(rows: seq<seq<Cell>>, start: nat): (e: nat)
    decreases |rows| - start
    ensures start <= e && (start < e ==> e <= |rows|)
    ensures e < |rows| ==> AllEmpty(rows[e])
    ensures forall k :: start <= k < e ==> !AllEmpty(rows[k])
  {
    if start >= |rows| || AllEmpty(rows[start]) then start else DataEnd(rows, start + 1)
  }

  method FindDataEnd(rows: seq<seq<Cell>>, start: nat) returns (e: nat)
    ensures e == DataEnd(rows, start)
  {
    e := start;
    while e < |rows| && !AllEmpty(rows[e])
      invariant start <= e
      invariant DataEnd(rows, e) == DataEnd(rows, start)
      decreases |rows| - e
    {
      e := e + 1;
    }
  }

  // ---------------------------------------------------------------------
  // Detector 5: year recovery and the drop (lines 32-36)
  // ---------------------------------------------------------------------

  /** `data.iloc[:, year_col].astype(str).str.strip()` for one row. */
  function PeriodText(row: seq<Cell>, yc: nat): string
    requires yc < |row|
  {
    Strip(CellText(row[yc]))
  }

  predicate HasYear(row: seq<Cell>, yc: nat)
    requires yc < |row|
  {
    YearToken(PeriodText(row, yc)).Some?
  }

  /** The data rows whose period text holds a `20\d{2}` token, paired with that year, in order. */
  function Survivors(data: seq<seq<Cell>>, yc: nat): (r: seq<PeriodRow>)
    requires forall i :: 0 <= i < |data| ==> yc < |data[i]|
    ensures |r| <= |data|
    ensures forall k :: 0 <= k < |r| ==> r[k].cells in data && yc < |r[k].cells|
    ensures forall k :: 0 <= k < |r| ==> r[k].period == PeriodText(r[k].cells, yc)
    ensures forall k :: 0 <= k < |r| ==> YearToken(r[k].period) == Some(r[k].year)
    ensures forall k :: 0 <= k < |r| ==> 2000 <= r[k].year <= 2099
  {
    if |data| == 0 then []
    else
      var init := Survivors(data[..|data| - 1], yc);
      var row := data[|data| - 1];
      var p := PeriodText(row, yc);
      match YearToken(p)
      case None => init
      case Some(y) => init + [PeriodRow(p, y, row)]
  }

  /** Dropping works row by row: it distributes over concatenation, so order is kept. */
  lemma {:induction false} SurvivorsAppend(a: seq<seq<Cell>>, b: seq<seq<Cell>>, yc: nat)
    requires forall i :: 0 <= i < |a| ==> yc < |a[i]|
    requires forall i :: 0 <= i < |b| ==> yc < |b[i]|
    ensures Survivors(a + b, yc) == Survivors(a, yc) + Survivors(b, yc)
    decreases |b|
  {
    if |b| == 0 {
      assert a + b == a;
    } else {
      var b', x := b[..|b| - 1], b[|b| - 1];
      assert b == b' + [x];
      assert a + b == (a + b') + [x];
      SurvivorsAppend(a, b', yc);
      SurvivorsSnoc(a + b', x, yc);
      SurvivorsSnoc(b', x, yc);
    }
  }

  /** One more data row at the end adds its survivor, if any, at the end. */
  lemma SurvivorsSnoc(data: seq<seq<Cell>>, x: seq<Cell>, yc: nat)
    requires forall i :: 0 <= i < |data| ==> yc < |data[i]|
    requires yc < |x|
    ensures Survivors(data + [x], yc) == Survivors(data, yc) + Survivors([x], yc)
  {
    assert (data + [x])[..|data|] == data;
    assert [x][..0] == [];
  }

  /** A data row without a year token vanishes (one row fewer); a row with one stays, in place. */
  lemma RowDropped(a: seq<seq<Cell>>, x: seq<Cell>, b: seq<seq<Cell>>, yc: nat)
    requires forall i :: 0 <= i < |a| ==> yc < |a[i]|
    requires forall i :: 0 <= i < |b| ==> yc < |b[i]|
    requires yc < |x|
    ensures !HasYear(x, yc) ==> Survivors(a + [x] + b, yc) == Survivors(a + b, yc)
    ensures HasYear(x, yc) ==>
              Survivors(a + [x] + b, yc)
                == Survivors(a, yc) + [PeriodRow(PeriodText(x, yc), YearToken(PeriodText(x, yc)).value, x)]
                   + Survivors(b, yc)
  {
    SurvivorsAppend(a + [x], b, yc);
    SurvivorsAppend(a, [x], yc);
    SurvivorsAppend(a, b, yc);
    assert [x][..0] == [];
  }

  // ---------------------------------------------------------------------
  // Detector 6: pairing labels with metrics, column by column (lines 38-47)
  // ---------------------------------------------------------------------

  /** `metric_vals[c].strip().lower()`. */
  function MetricText(c: Cell): string {
    Lower(Strip(CellText(c)))
  }

  /** Footnote digits removed, then trimmed. */
  function CleanLabel(s: string): string {
    Strip(StripDigits(s))
  }

  /** A trailing footnote digit, in any script `IsDigitChar` knows, does not change the instrument name. */
  lemma CleanLabelTrailingDigit(s: string, d: char)
    requires IsDigitChar(d)
    ensures CleanLabel(s + [d]) == CleanLabel(s)
  {
    StripDigitsAppend(s, [d]);
    StripDigitsChar(d);
    assert StripDigits(s) + "" == StripDigits(s);
  }

  /** The `wide` column name column `c` contributes, if any: "<instrument>__<metric>". */
  function ColumnKey(l: Layout, c: nat): Option<string>
    requires ValidLayout(l) && c < l.width
  {
    if c == l.periodColumn then None
    else
      var inst := LabelText(l.labels[c]);
      var met := MetricText(l.metrics[c]);
      if inst == "" || (met != VolumeWord && met != ValueWord) then None
      else Some(CleanLabel(inst) + Separator + met)
  }

  /** `pd.to_numeric(data.iloc[:, c], errors="coerce")` on the surviving rows. */
  function ColumnValues(rows: seq<PeriodRow>, c: nat): (col: seq<Option<real>>)
    requires forall k :: 0 <= k < |rows| ==> c < |rows[k].cells|
    ensures |col| == |rows|
  {
    seq(|rows|, k requires 0 <= k < |rows| => ToNumeric(rows[k].cells[c]))
  }

  /** The column names the columns contribute, left to right. */
  function ColumnKeys(l: Layout): (keys: seq<Option<string>>)
    requires ValidLayout(l)
    ensures |keys| == l.width
  {
    seq(l.width, c requires 0 <= c < l.width => ColumnKey(l, c))
  }

  /** Inserting the named columns into a map one at a time: a later column overwrites an earlier one. */
  function Fold<V>(keys: seq<Option<string>>, vals: seq<V>): map<string, V>
    requires |keys| == |vals|
  {
    if |keys| == 0 then map[]
    else
      var w := Fold(keys[..|keys| - 1], vals[..|vals| - 1]);
      match keys[|keys| - 1]
      case None => w
      case Some(key) => w[key := vals[|vals| - 1]]
  }

  /** One more column extends the fold by that column's entry, if it has a name. */
  lemma FoldStep<V>(keys: seq<Option<string>>, vals: seq<V>, c: nat)
    requires |keys| == |vals| && c < |keys|
    ensures Fold(keys[..c + 1], vals[..c + 1]) ==
              match keys[c]
              case None => Fold(keys[..c], vals[..c])
              case Some(key) => Fold(keys[..c], vals[..c])[key := vals[c]]
  {
    assert keys[..c + 1][..c] == keys[..c] && vals[..c + 1][..c] == vals[..c];
  }

  lemma {:induction false} FoldKeys<V>(keys: seq<Option<string>>, vals: seq<V>, key: string)
    requires |keys| == |vals|
    ensures key in Fold(keys, vals) <==> Some(key) in keys
  {
    if |keys| > 0 {
      var init := keys[..|keys| - 1];
      FoldKeys(init, vals[..|vals| - 1], key);
      assert keys == init + [keys[|keys| - 1]];
    }
  }

  lemma {:induction false} FoldLastWins<V>(keys: seq<Option<string>>, vals: seq<V>, c: nat)
    requires |keys| == |vals| && c < |keys| && keys[c].Some?
    requires forall d :: c < d < |keys| ==> keys[d] != keys[c]
    ensures keys[c].value in Fold(keys, vals) && Fold(keys, vals)[keys[c].value] == vals[c]
  {
    if c < |keys| - 1 {
      FoldLastWins(keys[..|keys| - 1], vals[..|vals| - 1], c);
    }
  }

  /** The `wide` frame after the column loop. */
  function Wide(l: Layout): (w: map<string, seq<Option<real>>>)
    requires ValidLayout(l)
  {
    Fold(ColumnKeys(l), seq(l.width, c requires 0 <= c < l.width => ColumnValues(l.rows, c)))
  }

  /** The column loop of `clean_t2`. */
  method BuildWide(l: Layout) returns (wide: map<string, seq<Option<real>>>)
    requires ValidLayout(l)
    ensures wide == Wide(l)
  {
    ghost var keys := ColumnKeys(l);
    ghost var cols := seq(l.width, c requires 0 <= c < l.width => ColumnValues(l.rows, c));
    wide := map[];
    for c := 0 to l.width
      invariant wide == Fold(keys[..c], cols[..c])
    {
      FoldStep(keys, cols, c);
      assert keys[c] == ColumnKey(l, c) && cols[c] == ColumnValues(l.rows, c);
      if c == l.periodColumn {
        continue;
      }
      var inst := LabelText(l.labels[c]);
      var met := MetricText(l.metrics[c]);
      if inst == "" || (met != VolumeWord && met != ValueWord) {
        continue;
      }
      var cleanInst := CleanLabel(inst);
      wide := wide[cleanInst + Separator + met := ColumnValues(l.rows, c)];
    }
    assert keys[..l.width] == keys && cols[..l.width] == cols;
  }

  /** `wide` has a column for exactly the names some column produced. */
  lemma WideKeys(l: Layout, key: string)
    requires ValidLayout(l)
    ensures key in Wide(l) <==> Some(key) in ColumnKeys(l)
  {
    FoldKeys(ColumnKeys(l), seq(l.width, c requires 0 <= c < l.width => ColumnValues(l.rows, c)), key);
  }

  /** The column stored under a name is that of the last column producing the name. */
  lemma WideLastWins(l: Layout, c: nat)
    requires ValidLayout(l) && c < l.width && ColumnKeys(l)[c].Some?
    requires forall d :: c < d < l.width ==> ColumnKeys(l)[d] != ColumnKeys(l)[c]
    ensures ColumnKeys(l)[c].value in Wide(l) && Wide(l)[ColumnKeys(l)[c].value] == ColumnValues(l.rows, c)
  {
    FoldLastWins(ColumnKeys(l), seq(l.width, c requires 0 <= c < l.width => ColumnValues(l.rows, c)), c);
  }

  // ---------------------------------------------------------------------
  // The instruments (line 48)
  // ---------------------------------------------------------------------

  /** `key.split("__")[0]`. */
  function KeyPrefix(key: string): string {
    match FindFrom(key, Separator, 0)
    case None => key
    case Some(i) => key[..i]
  }

  /** The prefixes of the names containing "__", in column order (repeats kept). */
  function Prefixes(keys: seq<Option<string>>): seq<string> {
    if |keys| == 0 then []
    else
      Prefixes(keys[..|keys| - 1]) +
      match keys[|keys| - 1]
      case Some(key) => if Contains(key, Separator) then [KeyPrefix(key)] else []
      case None => []
  }

  lemma {:induction false} PrefixesMembers(keys: seq<Option<string>>, s: string)
    ensures s in Prefixes(keys) <==>
              exists c :: 0 <= c < |keys| && keys[c].Some? && Contains(keys[c].value, Separator) && KeyPrefix(keys[c].value) == s
  {
    if |keys| > 0 {
      PrefixesMembers(keys[..|keys| - 1], s);
      assert forall c :: 0 <= c < |keys| - 1 ==> keys[..|keys| - 1][c] == keys[c];
    }
  }

  /** `sorted(set(c.split("__")[0] for c in wide.columns if "__" in c))`. */
  function InstrumentNames(l: Layout): seq<string>
    requires ValidLayout(l)
  {
    SortedDistinct(Prefixes(ColumnKeys(l)), StrLt)
  }

  /**
   * The instruments are ascending and duplicate-free, and are exactly the
   * prefixes before "__" of the `wide` column names holding "__".
   */
  lemma InstrumentNamesSpec(l: Layout)
    requires ValidLayout(l)
    ensures StrictlySorted(InstrumentNames(l), StrLt)
    ensures forall i, j :: 0 <= i < j < |InstrumentNames(l)| ==> InstrumentNames(l)[i] != InstrumentNames(l)[j]
    ensures forall s :: s in InstrumentNames(l) <==> exists key :: key in Wide(l) && Contains(key, Separator) && KeyPrefix(key) == s
  {
    var keys := ColumnKeys(l);
    var cols := seq(l.width, c requires 0 <= c < l.width => ColumnValues(l.rows, c));
    StrLtIsStrictTotalOrder();
    SortedDistinctSpec(Prefixes(keys), StrLt);
    SortedIsDistinct(InstrumentNames(l), StrLt);
    forall s ensures s in InstrumentNames(l) <==> exists key :: key in Wide(l) && Contains(key, Separator) && KeyPrefix(key) == s {
      PrefixesMembers(keys, s);
      if s in InstrumentNames(l) {
        var c :| 0 <= c < |keys| && keys[c].Some? && Contains(keys[c].value, Separator) && KeyPrefix(keys[c].value) == s;
        FoldKeys(keys, cols, keys[c].value);
      }
      if exists key :: key in Wide(l) && Contains(key, Separator) && KeyPrefix(key) == s {
        var key :| key in Wide(l) && Contains(key, Separator) && KeyPrefix(key) == s;
        FoldKeys(keys, cols, key);
      }
    }
  }

  /** For an ordinary label (no "__" inside, not ending in "_") the instrument is the cleaned label itself. */
  lemma KeyPrefixOfKey(clean: string, met: string)
    requires forall j: nat :: !OccursAt(clean, Separator, j)
    requires |clean| == 0 || clean[|clean| - 1] != '_'
    ensures KeyPrefix(clean + Separator + met) == clean
  {
    var key := clean + Separator + met;
    assert key[|clean|..|clean| + 2] == Separator;
    assert OccursAt(key, Separator, |clean|);
    forall j: nat | j < |clean| ensures !OccursAt(key, Separator, j) {
      if j + 2 <= |clean| {
        assert key[j..j + 2] == clean[j..j + 2];
        assert !OccursAt(clean, Separator, j);
      } else {
        assert key[j] == clean[j] != '_';
        assert key[j..j + 2][0] == key[j];
      }
    }
    var r := FindFrom(key, Separator, 0);
    assert r.Some?;
    assert r.value == |clean|;
    assert key[..|clean|] == clean;
  }

  /** Every produced column name holds the separator. */
  lemma ColumnKeyHasSeparator(l: Layout, c: nat)
    requires ValidLayout(l) && c < l.width && ColumnKey(l, c).Some?
    ensures Contains(ColumnKey(l, c).value, Separator)
  {
    var clean := CleanLabel(LabelText(l.labels[c]));
    var key := ColumnKey(l, c).value;
    assert key[|clean|..|clean| + 2] == Separator;
    OccursImpliesContains(key, Separator, |clean|);
  }

  /**
   * Column `c` yields instrument `s`: it is not the period column, has a
   * non-empty label and a metric text of exactly "volume" or "value", and
   * `s` is the part before the first "__" of
   * "<digit-stripped, trimmed label>__<metric>".
   */
  ghost predicate Yields(l: Layout, c: nat, s: string)
    requires ValidLayout(l)
  {
    && c < l.width && c != l.periodColumn && LabelText(l.labels[c]) != ""
    && MetricText(l.metrics[c]) in [VolumeWord, ValueWord]
    && KeyPrefix(CleanLabel(LabelText(l.labels[c])) + Separator + MetricText(l.metrics[c])) == s
  }

  lemma YieldsKey(l: Layout, c: nat, s: string)
    requires ValidLayout(l) && c < l.width
    ensures Yields(l, c, s) <==> ColumnKey(l, c).Some? && Contains(ColumnKey(l, c).value, Separator) && KeyPrefix(ColumnKey(l, c).value) == s
  {
    if ColumnKey(l, c).Some? {
      ColumnKeyHasSeparator(l, c);
    }
  }

  /** The instruments are exactly what the qualifying columns yield. */
  lemma InstrumentsFromColumns(l: Layout, s: string)
    requires ValidLayout(l)
    ensures s in InstrumentNames(l) <==> exists c :: 0 <= c < l.width && Yields(l, c, s)
  {
    var keys := ColumnKeys(l);
    StrLtIsStrictTotalOrder();
    SortedDistinctSpec(Prefixes(keys), StrLt);
    PrefixesMembers(keys, s);
    if s in InstrumentNames(l) {
      var c :| 0 <= c < |keys| && keys[c].Some? && Contains(keys[c].value, Separator) && KeyPrefix(keys[c].value) == s;
      YieldsKey(l, c, s);
    }
    if exists c :: 0 <= c < l.width && Yields(l, c, s) {
      var c :| 0 <= c < l.width && Yields(l, c, s);
      YieldsKey(l, c, s);
      assert keys[c] == ColumnKey(l, c);
    }
  }

  /** An ordinary label (no "__" inside, no trailing "_") names its instrument exactly. */
  lemma OrdinaryLabelIsInstrument(l: Layout, c: nat)
    requires ValidLayout(l) && c < l.width && ColumnKey(l, c).Some?
    requires forall j: nat :: !OccursAt(CleanLabel(LabelText(l.labels[c])), Separator, j)
    requires var s := CleanLabel(LabelText(l.labels[c])); |s| == 0 || s[|s| - 1] != '_'
    ensures CleanLabel(LabelText(l.labels[c])) in InstrumentNames(l)
  {
    var s := CleanLabel(LabelText(l.labels[c]));
    KeyPrefixOfKey(s, MetricText(l.metrics[c]));
    assert Yields(l, c, s);
    InstrumentsFromColumns(l, s);
  }

  // ---------------------------------------------------------------------
  // Reshape, wide to long (lines 49-60)
  // ---------------------------------------------------------------------

  /** `wide.get(key)` read at row `k`: null when the column is absent or the cell is. */
  function WideAt(wide: map<string, seq<Option<real>>>, key: string, k: nat): Option<real> {
    if key in wide && k < |wide[key]| then wide[key][k] else None
  }

  function Scaled(v: Option<real>): Option<real> {
    match v
    case None => None
    case Some(x) => Some(x * ValueScale)
  }

  /** The frame `out` for one instrument: one record per surviving row, in row order. */
  function Block(rows: seq<PeriodRow>, wide: map<string, seq<Option<real>>>, inst: string): (b: seq<InstrumentRecord>)
    ensures |b| == |rows|
  {
    seq(|rows|, k requires 0 <= k < |rows| =>
      var volume := WideAt(wide, inst + Separator + VolumeWord, k);
      var value := Scaled(WideAt(wide, inst + Separator + ValueWord, k));
      InstrumentRecord(rows[k].period, rows[k].year, inst, volume, value, Quotient(value, volume)))
  }

  function Parts(rows: seq<PeriodRow>, wide: map<string, seq<Option<real>>>, insts: seq<string>): seq<seq<InstrumentRecord>> {
    seq(|insts|, i requires 0 <= i < |insts| => Block(rows, wide, insts[i]))
  }

  /** The `parts` loop of `clean_t2`. */
  method BuildParts(rows: seq<PeriodRow>, wide: map<string, seq<Option<real>>>, insts: seq<string>)
    returns (parts: seq<seq<InstrumentRecord>>)
    ensures parts == Parts(rows, wide, insts)
  {
    parts := [];
    for i := 0 to |insts|
      invariant |parts| == i
      invariant forall j :: 0 <= j < i ==> parts[j] == Block(rows, wide, insts[j])
    {
      var out := Block(rows, wide, insts[i]);
      parts := parts + [out];
    }
  }

  /** `pd.concat(parts, ignore_index=True)` of the frames. */
  function Flatten<T>(xss: seq<seq<T>>): seq<T> {
    if |xss| == 0 then [] else Flatten(xss[..|xss| - 1]) + xss[|xss| - 1]
  }

  lemma MulMono(a: nat, b: nat, n: nat)
    requires a <= b
    ensures a * n <= b * n
  {
  }

  /** Concatenating `m` frames of `n` rows each gives `m * n` rows. */
  lemma {:induction false} FlattenLength<T>(xss: seq<seq<T>>, n: nat)
    requires forall i :: 0 <= i < |xss| ==> |xss[i]| == n
    ensures |Flatten(xss)| == |xss| * n
  {
    if |xss| > 0 {
      var m := |xss|;
      FlattenLength(xss[..m - 1], n);
      assert (m - 1) * n + n == m * n;
    }
  }

  /** In such a concatenation, row `k` of frame `i` sits at position `i * n + k`. */
  lemma {:induction false} FlattenAt<T>(xss: seq<seq<T>>, n: nat, i: nat, k: nat)
    requires forall i :: 0 <= i < |xss| ==> |xss[i]| == n
    requires i < |xss| && k < n
    ensures i * n + k < |Flatten(xss)| && Flatten(xss)[i * n + k] == xss[i][k]
  {
    var m := |xss|;
    var init := xss[..m - 1];
    FlattenLength(init, n);
    assert Flatten(xss) == Flatten(init) + xss[m - 1];
    if i < m - 1 {
      FlattenAt(init, n, i, k);
      assert init[i] == xss[i];
    } else {
      assert i * n == (m - 1) * n;
    }
  }

  /** A property every frame's every row has holds of every row of the concatenation. */
  lemma {:induction false} FlattenAll<T>(xss: seq<seq<T>>, p: T -> bool)
    requires forall i, k :: 0 <= i < |xss| && 0 <= k < |xss[i]| ==> p(xss[i][k])
    ensures forall j :: 0 <= j < |Flatten(xss)| ==> p(Flatten(xss)[j])
  {
    if |xss| > 0 {
      var m := |xss|;
      var init := xss[..m - 1];
      FlattenAll(init, p);
      var flat := Flatten(xss);
      assert flat == Flatten(init) + xss[m - 1];
      forall j | 0 <= j < |flat| ensures p(flat[j]) {
        if j >= |Flatten(init)| {
          assert flat[j] == xss[m - 1][j - |Flatten(init)|];
        }
      }
    }
  }

  // ---------------------------------------------------------------------
  // The whole extractor
  // ---------------------------------------------------------------------

  predicate WellFormedT2(header: seq<Cell>, g: Grid) {
    WellFormed(g) && |header| == g.width
  }

  /** Surviving rows are as wide as the data rows they come from. */
  lemma SurvivorsWidth(data: seq<seq<Cell>>, yc: nat, w: nat)
    requires yc < w && forall i :: 0 <= i < |data| ==> |data[i]| == w
    ensures forall k :: 0 <= k < |Survivors(data, yc)| ==> |Survivors(data, yc)[k].cells| == w
  {
    var r := Survivors(data, yc);
    forall k | 0 <= k < |r| ensures |r[k].cells| == w {
      assert r[k].cells in data;
    }
  }

  /** The rows of a data span are as wide as the sheet. */
  lemma DataRowsWide(g: Grid, lo: nat, hi: nat)
    requires WellFormed(g) && lo <= hi <= |g.rows|
    ensures forall i :: 0 <= i < hi - lo ==> |g.rows[lo..hi][i]| == g.width
  {
  }

  /** Everything the detectors find once the metric row `m` is known. */
  function LayoutOf(header: seq<Cell>, g: Grid, m: nat): (l: Layout)
    requires WellFormedT2(header, g) && m < |g.rows| && IsMetricRow(g.rows[m])
    ensures ValidLayout(l) && l.width == g.width
  {
    LayoutUpTo(header, g, m, DataEnd(g.rows, m + 1))
  }

  /** The layout when the data span ends before row `end`. */
  function LayoutUpTo(header: seq<Cell>, g: Grid, m: nat, end: nat): (l: Layout)
    requires WellFormedT2(header, g) && m < |g.rows| && IsMetricRow(g.rows[m]) && m + 1 <= end <= |g.rows|
    ensures ValidLayout(l) && l.width == g.width
  {
    MetricRowIsWide(g.rows[m]);
    var labels := InstrumentLabels(g.rows[if m >= 2 then m - 2 else 0]);
    var yc := PeriodColumn(header);
    DataRowsWide(g, m + 1, end);
    var rows := Survivors(g.rows[m + 1..end], yc);
    SurvivorsWidth(g.rows[m + 1..end], yc, g.width);
    Layout(labels, g.rows[m], yc, rows, g.width)
  }

  /** `clean_t2` on the header row `header` and the sheet body `g`. */
  function CleanT2Spec(header: seq<Cell>, g: Grid): Result<seq<InstrumentRecord>, EtlError>
    requires WellFormedT2(header, g)
  {
    match MetricRow(g.rows)
    case Failure(e) => Failure(e)
    case Success(m) => Reshaped(header, g, m)
  }

  /** Everything after the metric row is found: the long table, or `pd.concat([])` failing. */
  function Reshaped(header: seq<Cell>, g: Grid, m: nat): Result<seq<InstrumentRecord>, EtlError>
    requires WellFormedT2(header, g) && m < |g.rows| && IsMetricRow(g.rows[m])
  {
    var l := LayoutOf(header, g, m);
    var parts := Parts(l.rows, Wide(l), InstrumentNames(l));
    if |parts| == 0 then Failure(NoInstruments) else Success(Flatten(parts))
  }

  method CleanT2(header: seq<Cell>, g: Grid) returns (r: Result<seq<InstrumentRecord>, EtlError>)
    requires WellFormedT2(header, g)
    ensures r == CleanT2Spec(header, g)
  {
    var found := FindMetricRow(g.rows);
    if found.Failure? {
      return Failure(found.error);
    }
    r := Reshape(header, g, found.value);
  }

  /** Lines 22-60 of `clean_t2`, once the metric row `m` is known. */
  method Reshape(header: seq<Cell>, g: Grid, m: nat) returns (r: Result<seq<InstrumentRecord>, EtlError>)
    requires WellFormedT2(header, g) && m < |g.rows| && IsMetricRow(g.rows[m])
    ensures r == Reshaped(header, g, m)
  {
    var l := ReadLayout(header, g, m);
    var wide := BuildWide(l);
    var insts := InstrumentNames(l);
    var parts := BuildParts(l.rows, wide, insts);
    if |parts| == 0 {
      return Failure(NoInstruments);
    }
    r := Success(Flatten(parts));
  }

  /** Lines 22-36 of `clean_t2`: labels, metrics, the period column and the surviving rows. */
  method ReadLayout(header: seq<Cell>, g: Grid, m: nat) returns (l: Layout)
    requires WellFormedT2(header, g) && m < |g.rows| && IsMetricRow(g.rows[m])
    ensures l == LayoutOf(header, g, m)
  {
    var dataEnd := FindDataEnd(g.rows, m + 1);
    l := LayoutUpTo(header, g, m, dataEnd);
  }

  /** `out` holds record `j` for instrument `j / n` and surviving row `j % n`, for every `j`. */
  ghost predicate IsLongTable(out: seq<InstrumentRecord>, rows: seq<PeriodRow>, wide: map<string, seq<Option<real>>>, insts: seq<string>) {
    && |out| == |insts| * |rows|
    && forall j :: 0 <= j < |out| ==>
         |rows| > 0 && j / |rows| < |insts| && RecordOf(out[j], rows[j % |rows|], wide, insts[j / |rows|], j % |rows|)
  }

  /**
   * The shape of a successful `clean_t2` result: one record per instrument
   * and surviving row, record `j` for instrument `j / n` and row `j % n`,
   * with that row's period and year and the instrument's volume, scaled
   * value and average transaction value.
   */
  lemma CleanT2Shape(header: seq<Cell>, g: Grid)
    requires WellFormedT2(header, g) && CleanT2Spec(header, g).Success?
    ensures MetricRow(g.rows).Success?
    ensures var l := LayoutOf(header, g, MetricRow(g.rows).value);
            IsLongTable(CleanT2Spec(header, g).value, l.rows, Wide(l), InstrumentNames(l))
  {
    var l := LayoutOf(header, g, MetricRow(g.rows).value);
    assert CleanT2Spec(header, g).value == Flatten(Parts(l.rows, Wide(l), InstrumentNames(l)));
    LongTable(l.rows, Wide(l), InstrumentNames(l));
  }

  /** The metric-row scan decides failure; past it, only an empty instrument list fails. */
  lemma CleanT2Errors(header: seq<Cell>, g: Grid)
    requires WellFormedT2(header, g)
    ensures MetricRow(g.rows).Failure? ==> CleanT2Spec(header, g) == Failure(MetricRow(g.rows).error)
    ensures MetricRow(g.rows).Success? ==>
              (CleanT2Spec(header, g).Failure? <==> |InstrumentNames(LayoutOf(header, g, MetricRow(g.rows).value))| == 0)
    ensures CleanT2Spec(header, g).Failure? ==> CleanT2Spec(header, g).error in {IndexOutOfRange, MetricRowNotFound, NoInstruments}
  {
  }

  /**
   * What record `k` of instrument `inst`'s frame holds: the period and year
   * of surviving row `row`, the instrument's volume, its value times
   * 1,000,000, and their quotient.
   */
  ghost predicate RecordOf(r: InstrumentRecord, row: PeriodRow, wide: map<string, seq<Option<real>>>, inst: string, k: nat) {
    && r.instrument == inst
    && r.period == row.period
    && r.year == row.year
    && r.volume == WideAt(wide, inst + Separator + VolumeWord, k)
    && r.value == Scaled(WideAt(wide, inst + Separator + ValueWord, k))
    && r.avgTxnValue == Quotient(r.value, r.volume)
  }

  /**
   * The concatenated frames: `|insts| * n` records, record `j` belonging to
   * instrument `j / n` and surviving row `j % n`, so instruments come in
   * their sorted order and periods in row order within each.
   */
  lemma {:induction false} LongTable(rows: seq<PeriodRow>, wide: map<string, seq<Option<real>>>, insts: seq<string>)
    ensures |Flatten(Parts(rows, wide, insts))| == |insts| * |rows|
    ensures forall j :: 0 <= j < |Flatten(Parts(rows, wide, insts))| ==>
              && j / |rows| < |insts|
              && RecordOf(Flatten(Parts(rows, wide, insts))[j], rows[j % |rows|], wide, insts[j / |rows|], j % |rows|)
  {
    FlattenLength(Parts(rows, wide, insts), |rows|);
    forall j | 0 <= j < |Flatten(Parts(rows, wide, insts))|
      ensures j / |rows| < |insts| && RecordOf(Flatten(Parts(rows, wide, insts))[j], rows[j % |rows|], wide, insts[j / |rows|], j % |rows|)
    {
      LongTableAt(rows, wide, insts, j);
    }
  }

  /** Record `j` of the concatenation, one position at a time. */
  lemma LongTableAt(rows: seq<PeriodRow>, wide: map<string, seq<Option<real>>>, insts: seq<string>, j: nat)
    requires j < |insts| * |rows|
    ensures |rows| > 0 && j / |rows| < |insts| && j < |Flatten(Parts(rows, wide, insts))|
    ensures RecordOf(Flatten(Parts(rows, wide, insts))[j], rows[j % |rows|], wide, insts[j / |rows|], j % |rows|)
  {
    var parts := Parts(rows, wide, insts);
    var n := |rows|;
    DivBound(j, |insts|, n);
    var i, k := j / n, j % n;
    FlattenAt(parts, n, i, k);
    assert parts[i] == Block(rows, wide, insts[i]);
  }

  /** Every record takes its period and year from a surviving row. */
  lemma LongTableYears(rows: seq<PeriodRow>, wide: map<string, seq<Option<real>>>, insts: seq<string>)
    requires forall k :: 0 <= k < |rows| ==> YearToken(rows[k].period) == Some(rows[k].year)
    ensures forall j :: 0 <= j < |Flatten(Parts(rows, wide, insts))| ==>
              YearToken(Flatten(Parts(rows, wide, insts))[j].period) == Some(Flatten(Parts(rows, wide, insts))[j].year)
  {
    var parts := Parts(rows, wide, insts);
    var p := (r: InstrumentRecord) => YearToken(r.period) == Some(r.year);
    forall i, k | 0 <= i < |parts| && 0 <= k < |parts[i]| ensures p(parts[i][k]) {
      assert parts[i][k].period == rows[k].period && parts[i][k].year == rows[k].year;
    }
    FlattenAll(parts, p);
  }

  /** The records of `clean_t2`: years in 2000..2099, each the token found in its period text. */
  lemma CleanT2Years(header: seq<Cell>, g: Grid)
    requires WellFormedT2(header, g) && CleanT2Spec(header, g).Success?
    ensures var out := CleanT2Spec(header, g).value;
            forall j :: 0 <= j < |out| ==> YearToken(out[j].period) == Some(out[j].year) && 2000 <= out[j].year <= 2099
  {
    var l := LayoutOf(header, g, MetricRow(g.rows).value);
    LongTableYears(l.rows, Wide(l), InstrumentNames(l));
  }

  lemma DivBound(j: nat, m: nat, n: nat)
    requires j < m * n
    ensures n > 0 && j / n < m && j == (j / n) * n + j % n
  {
    if n > 0 && j / n >= m {
      MulMono(m, j / n, n);
    }
  }
}
