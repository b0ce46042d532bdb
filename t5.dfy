/**
 * Extractor T5, `clean_t5`: EFTPOS terminals and ATMs per 1,000 people.
 * The sheet is read without a header, so rows are addressed directly: row 2
 * holds the section labels, row 3 the years, row 5 the totals and row 7 the
 * per-thousand figures. Each section runs from the column after its label
 * to the column before the next label (or the last column); the two
 * sections are collapsed to one value per year and outer-joined on year.
 */
module T5 {
  import opened Wrappers
  import opened Strings
  import opened Ordering
  import opened Sheet

  const LabelRow: nat := 2
  const YearRow: nat := 3
  const TotalRow: nat := 5
  const PerThousandRow: nat := 7
  const EftposWord: string := "eftpos"
  const AtmWord: string := "atm"

  /** The `labels` dict: the label column of each section, when found. */
  datatype Labels = Labels(eftpos: Option<nat>, atm: Option<nat>)

  /** One entry of `pos_rows` / `atm_rows`. */
  datatype SectionCell = SectionCell(year: Option<int>, total: Cell, perThousand: Cell)

  /** One row of a section after `groupby('year').last()`. */
  datatype YearValue = YearValue(year: int, value: Option<real>)

  /** One row of `clean_t5.csv`: [year, pos_per_1000, atm_per_1000]. */
  datatype InfraRecord = InfraRecord(year: int, posPerThousand: Option<real>, atmPerThousand: Option<real>)

  // ---------------------------------------------------------------------
  // Label columns: the exact pass and the fallback pass (lines 65-81)
  // ---------------------------------------------------------------------

  /** The first pass's test: stripped text that is not blank, "nan" or "none", and contains `word` once lowercased. */
  predicate IsLabelCell(c: Cell, word: string) {
    var t := Strip(CellText(c));
    t != "" && Lower(t) != "nan" && Lower(t) != "none" && Contains(Lower(t), word)
  }

  /** The fallback pass's test: the unstripped lowercased text contains `word`. */
  predicate MentionsWord(c: Cell, word: string) {
    Contains(Lower(CellText(c)), word)
  }

  /** The first pass's `labels[word]` after columns 0 .. n-1: a later match overwrites an earlier one. */
  function LastLabel(row: seq<Cell>, n: nat, word: string): (r: Option<nat>)
    requires n <= |row|
    ensures r.Some? ==> r.value < n && IsLabelCell(row[r.value], word)
    ensures r.Some? ==> forall d :: r.value < d < n ==> !IsLabelCell(row[d], word)
    ensures r.None? ==> forall d :: 0 <= d < n ==> !IsLabelCell(row[d], word)
  {
    if n == 0 then None
    else if IsLabelCell(row[n - 1], word) then Some(n - 1)
    else LastLabel(row, n - 1, word)
  }

  function FirstPass(row: seq<Cell>, n: nat): Labels
    requires n <= |row|
  {
    Labels(LastLabel(row, n, EftposWord), LastLabel(row, n, AtmWord))
  }

  /** The fallback pass's `labels[word]` after columns 0 .. n-1: set by the first mention only when still missing. */
  function FirstMention(row: seq<Cell>, n: nat, word: string, found: Option<nat>): (r: Option<nat>)
    requires n <= |row|
    ensures found.Some? ==> r == found
    ensures found.None? && r.Some? ==> r.value < n && MentionsWord(row[r.value], word)
    ensures found.None? && r.Some? ==> forall d :: 0 <= d < r.value ==> !MentionsWord(row[d], word)
    ensures found.None? && r.None? ==> forall d :: 0 <= d < n ==> !MentionsWord(row[d], word)
  {
    if n == 0 then found
    else
      var f := FirstMention(row, n - 1, word, found);
      if MentionsWord(row[n - 1], word) && f.None? then Some(n - 1) else f
  }

  function Fallback(row: seq<Cell>, n: nat, l: Labels): Labels
    requires n <= |row|
  {
    Labels(FirstMention(row, n, EftposWord, l.eftpos), FirstMention(row, n, AtmWord, l.atm))
  }

  /** The word a lowercased mention contains survives stripping, so a mentioning cell passes the first test. */
  lemma MentionIsLabel(c: Cell, word: string)
    requires word == EftposWord || word == AtmWord
    requires MentionsWord(c, word)
    ensures IsLabelCell(c, word)
  {
    var s := CellText(c);
    StripKeepsContains(Lower(s), word);
    LowerStripCommute(s);
    var t := Lower(Strip(s));
    ContainsImpliesOccurs(t, word);
    var i: nat :| OccursAt(t, word, i);
    assert |t| >= |word|;
    assert |Strip(s)| == |t|;
  }

  /** The fallback pass never changes the outcome of the first pass. */
  lemma FallbackAddsNothing(row: seq<Cell>)
    ensures Fallback(row, |row|, FirstPass(row, |row|)) == FirstPass(row, |row|)
  {
    var l := FirstPass(row, |row|);
    forall d | 0 <= d < |row| && MentionsWord(row[d], EftposWord) ensures l.eftpos.Some? {
      MentionIsLabel(row[d], EftposWord);
    }
    forall d | 0 <= d < |row| && MentionsWord(row[d], AtmWord) ensures l.atm.Some? {
      MentionIsLabel(row[d], AtmWord);
    }
  }

  /** The two label loops of `clean_t5`, updating `labels` in place. */
  method FindLabels(row: seq<Cell>) returns (labels: Labels)
    ensures labels == Fallback(row, |row|, FirstPass(row, |row|))
  {
    labels := Labels(None, None);
    for c := 0 to |row|
      invariant labels == FirstPass(row, c)
    {
      var cell := Strip(CellText(row[c]));
      if cell == "" || Lower(cell) == "nan" || Lower(cell) == "none" {
        continue;
      }
      if Contains(Lower(cell), EftposWord) {
        labels := labels.(eftpos := Some(c));
      }
      if Contains(Lower(cell), AtmWord) {
        labels := labels.(atm := Some(c));
      }
    }
    ghost var first := labels;
    for c := 0 to |row|
      invariant labels == Fallback(row, c, first)
    {
      var cell := Lower(CellText(row[c]));
      if Contains(cell, AtmWord) && labels.atm.None? {
        labels := labels.(atm := Some(c));
      }
      if Contains(cell, EftposWord) && labels.eftpos.None? {
        labels := labels.(eftpos := Some(c));
      }
    }
  }

  // ---------------------------------------------------------------------
  // Section spans (lines 83-86)
  // ---------------------------------------------------------------------

  /** The label columns as `labels.values()`. */
  function LabelColumns(l: Labels): seq<nat> {
    (if l.eftpos.Some? then [l.eftpos.value] else []) + (if l.atm.Some? then [l.atm.value] else [])
  }

  /** `min(c for c in cols if c > start)`, if any. */
  function MinAbove(cols: seq<nat>, start: nat): (m: Option<nat>)
    ensures m.Some? ==> m.value in cols && m.value > start
    ensures m.Some? ==> forall c :: c in cols && c > start ==> m.value <= c
    ensures m.None? ==> forall c :: c in cols ==> c <= start
  {
    if |cols| == 0 then None
    else
      var rest := MinAbove(cols[1..], start);
      assert forall c :: c in cols ==> c == cols[0] || c in cols[1..];
      if cols[0] <= start then rest
      else if rest.Some? && rest.value < cols[0] then rest
      else Some(cols[0])
  }

  /**
   * `min(following) - 1 if following else ncols - 1`: a section ends just
   * before the nearest label column to its right, or at the last column.
   */
  function SectionEnd(l: Labels, start: nat, ncols: nat): (e: int)
    ensures forall c :: c in LabelColumns(l) && c > start ==> e < c
    ensures (exists c :: c in LabelColumns(l) && c > start) ==> e + 1 in LabelColumns(l) && e >= start
    ensures (forall c :: c in LabelColumns(l) ==> c <= start) ==> e == ncols - 1
  {
    match MinAbove(LabelColumns(l), start)
    case Some(m) => m - 1
    case None => ncols - 1
  }

  /** Both label columns lie inside the sheet. */
  predicate LabelsWithin(l: Labels, ncols: nat) {
    (l.eftpos.Some? ==> l.eftpos.value < ncols) && (l.atm.Some? ==> l.atm.value < ncols)
  }

  /** The two sections of `labels.items()`. */
  datatype Kind = Eftpos | Atm

  function Items(l: Labels): seq<(Kind, nat)> {
    (if l.eftpos.Some? then [(Eftpos, l.eftpos.value)] else []) + (if l.atm.Some? then [(Atm, l.atm.value)] else [])
  }

  /** `range(start_col + 1, end_col + 1)` as a half-open interval `[lo, hi)`. */
  function SpanLo(start: nat): nat {
    start + 1
  }

  function SpanHi(l: Labels, start: nat, ncols: nat): (hi: nat)
    requires LabelsWithin(l, ncols) && start < ncols
    ensures SpanLo(start) <= hi <= ncols
  {
    var e := SectionEnd(l, start, ncols);
    if e + 1 > start + 1 then e + 1 else start + 1
  }

  /**
   * A section reads exactly the columns right of its label up to the column
   * before the next label column to the right, or to the last column when
   * there is none; in particular it never reads a label column.
   */
  lemma SpanSpec(l: Labels, start: nat, ncols: nat)
    requires LabelsWithin(l, ncols) && start < ncols
    ensures forall c :: SpanLo(start) <= c < SpanHi(l, start, ncols) ==> c !in LabelColumns(l) && start < c < ncols
    ensures (exists c :: c in LabelColumns(l) && c > start) ==> SpanHi(l, start, ncols) in LabelColumns(l)
    ensures (forall c :: c in LabelColumns(l) ==> c <= start) ==> SpanHi(l, start, ncols) == ncols
  {
    forall c | SpanLo(start) <= c < SpanHi(l, start, ncols) ensures c !in LabelColumns(l) {
      if c in LabelColumns(l) {
        assert false;
      }
    }
  }

  // ---------------------------------------------------------------------
  // Reading the sections (lines 86-102)
  // ---------------------------------------------------------------------

  /** The year of a row-3 cell: a date gives its year (whatever it is), other non-null cells a `20\d{2}` token. */
  function ColumnYear(c: Cell): (y: Option<int>)
    ensures c.Date? ==> y == Some(c.year)
    ensures !c.Date? && y.Some? ==> 2000 <= y.value <= 2099
  {
    match c
    case Empty => None
    case Date(year) => Some(year)
    case _ => YearToken(CellText(c))
  }

  /** The sheet has the rows a section read touches. */
  predicate HasDataRows(g: Grid) {
    |g.rows| > PerThousandRow
  }

  function ColumnEntry(g: Grid, c: nat): SectionCell
    requires WellFormed(g) && HasDataRows(g) && c < g.width
  {
    SectionCell(ColumnYear(g.rows[YearRow][c]), g.rows[TotalRow][c], g.rows[PerThousandRow][c])
  }

  /** The entries of columns `lo .. hi-1`, left to right. */
  function SpanCells(g: Grid, lo: nat, hi: nat): (cs: seq<SectionCell>)
    requires WellFormed(g) && lo <= hi <= g.width && (lo < hi ==> HasDataRows(g))
    ensures |cs| == hi - lo
  {
    if lo == hi then [] else SpanCells(g, lo, hi - 1) + [ColumnEntry(g, hi - 1)]
  }

  /** Entry `i` of a span is read from column `lo + i`. */
  lemma {:induction false} SpanCellsAt(g: Grid, lo: nat, hi: nat, i: nat)
    requires WellFormed(g) && lo <= hi <= g.width && (lo < hi ==> HasDataRows(g)) && i < hi - lo
    ensures SpanCells(g, lo, hi)[i] == ColumnEntry(g, lo + i)
    decreases hi
  {
    if i < hi - 1 - lo {
      SpanCellsAt(g, lo, hi - 1, i);
    }
  }

  /** Some section reads at least one column. */
  predicate ReadsColumns(l: Labels, ncols: nat)
    requires LabelsWithin(l, ncols)
  {
    || (l.eftpos.Some? && SpanLo(l.eftpos.value) < SpanHi(l, l.eftpos.value, ncols))
    || (l.atm.Some? && SpanLo(l.atm.value) < SpanHi(l, l.atm.value, ncols))
  }

  /** Reading the sections stays inside the sheet. */
  predicate Readable(g: Grid, l: Labels)
    requires LabelsWithin(l, g.width)
  {
    HasDataRows(g) || !ReadsColumns(l, g.width)
  }

  predicate IsLabel(l: Labels, start: nat) {
    l.eftpos == Some(start) || l.atm == Some(start)
  }

  /** The entries of the section labelled at `start`. */
  function Section(g: Grid, l: Labels, start: nat): seq<SectionCell>
    requires WellFormed(g) && LabelsWithin(l, g.width) && Readable(g, l) && IsLabel(l, start)
  {
    SpanCells(g, SpanLo(start), SpanHi(l, start, g.width))
  }

  /**
   * A section's entries come from the columns right of its label, in order:
   * entry `i` holds the year recovered from row 3 and the cells of rows 5
   * and 7 of column `start + 1 + i`; the label column itself is never read.
   */
  lemma SectionColumns(g: Grid, l: Labels, start: nat)
    requires WellFormed(g) && LabelsWithin(l, g.width) && Readable(g, l) && IsLabel(l, start)
    ensures |Section(g, l, start)| == SpanHi(l, start, g.width) - (start + 1)
    ensures forall i :: 0 <= i < |Section(g, l, start)| ==>
              start + 1 + i < g.width && Section(g, l, start)[i] == ColumnEntry(g, start + 1 + i)
  {
    forall i | 0 <= i < |Section(g, l, start)| ensures Section(g, l, start)[i] == ColumnEntry(g, start + 1 + i) {
      SpanCellsAt(g, SpanLo(start), SpanHi(l, start, g.width), i);
    }
  }

  /** `pos_rows` once every section is read. */
  function PosEntries(g: Grid, l: Labels): seq<SectionCell>
    requires WellFormed(g) && LabelsWithin(l, g.width) && Readable(g, l)
  {
    if l.eftpos.Some? then Section(g, l, l.eftpos.value) else []
  }

  /** `atm_rows` once every section is read. */
  function AtmEntries(g: Grid, l: Labels): seq<SectionCell>
    requires WellFormed(g) && LabelsWithin(l, g.width) && Readable(g, l)
  {
    if l.atm.Some? then Section(g, l, l.atm.value) else []
  }

  lemma ItemsAreLabels(l: Labels)
    ensures forall k :: 0 <= k < |Items(l)| ==> IsLabel(l, Items(l)[k].1)
    ensures forall k :: 0 <= k < |Items(l)| ==> (Items(l)[k].0 == Eftpos <==> l.eftpos == Some(Items(l)[k].1) && k == 0)
    ensures forall k :: 0 <= k < |Items(l)| ==> (Items(l)[k].0 == Atm <==> l.atm == Some(Items(l)[k].1) && k == |Items(l)| - 1)
    ensures l.eftpos.Some? ==> |Items(l)| > 0 && Items(l)[0] == (Eftpos, l.eftpos.value)
    ensures l.atm.Some? ==> |Items(l)| > 0 && Items(l)[|Items(l)| - 1] == (Atm, l.atm.value)
  {
  }

  /** A list of the items read so far, for one kind. */
  function Collected(g: Grid, l: Labels, k: nat, kind: Kind): seq<SectionCell>
    requires WellFormed(g) && LabelsWithin(l, g.width) && Readable(g, l) && k <= |Items(l)|
  {
    if k == 0 then []
    else
      ItemsAreLabels(l);
      Collected(g, l, k - 1, kind) + (if Items(l)[k - 1].0 == kind then Section(g, l, Items(l)[k - 1].1) else [])
  }

  lemma CollectedAll(g: Grid, l: Labels)
    requires WellFormed(g) && LabelsWithin(l, g.width) && Readable(g, l)
    ensures Collected(g, l, |Items(l)|, Eftpos) == PosEntries(g, l)
    ensures Collected(g, l, |Items(l)|, Atm) == AtmEntries(g, l)
  {
    var items := Items(l);
    if l.eftpos.Some? && l.atm.Some? {
      assert items == [(Eftpos, l.eftpos.value), (Atm, l.atm.value)];
      assert Collected(g, l, 1, Eftpos) == Section(g, l, l.eftpos.value);
      assert Collected(g, l, 1, Atm) == [];
    } else if l.eftpos.Some? {
      assert items == [(Eftpos, l.eftpos.value)];
      assert Collected(g, l, 1, Eftpos) == Section(g, l, l.eftpos.value);
    } else if l.atm.Some? {
      assert items == [(Atm, l.atm.value)];
      assert Collected(g, l, 1, Atm) == Section(g, l, l.atm.value);
    }
  }

  /** The inner loop of `clean_t5` for one section: appends the entries of columns `lo .. hi-1` to `rows`. */
  method AppendSpan(g: Grid, rows: seq<SectionCell>, lo: nat, hi: nat) returns (r: Result<seq<SectionCell>, EtlError>)
    requires WellFormed(g) && lo <= hi <= g.width
    ensures lo < hi && !HasDataRows(g) ==> r == Failure(IndexOutOfRange)
    ensures lo == hi || HasDataRows(g) ==> r == Success(rows + SpanCells(g, lo, hi))
  {
    var out := rows;
    for c := lo to hi
      invariant c > lo ==> HasDataRows(g)
      invariant out == rows + SpanCells(g, lo, c)
    {
      if |g.rows| <= PerThousandRow {
        return Failure(IndexOutOfRange);
      }
      var entry := SectionCell(ColumnYear(g.rows[YearRow][c]), g.rows[TotalRow][c], g.rows[PerThousandRow][c]);
      out := out + [entry];
    }
    r := Success(out);
  }

  /** A section reads a column exactly when one of the `labels.items()` has a non-empty span. */
  lemma ReadsSomeItem(l: Labels, ncols: nat)
    requires LabelsWithin(l, ncols)
    ensures ReadsColumns(l, ncols) <==>
              exists k :: 0 <= k < |Items(l)| && Items(l)[k].1 < ncols && SpanLo(Items(l)[k].1) < SpanHi(l, Items(l)[k].1, ncols)
  {
    ItemsAreLabels(l);
    if ReadsColumns(l, ncols) {
      if l.eftpos.Some? && SpanLo(l.eftpos.value) < SpanHi(l, l.eftpos.value, ncols) {
        assert Items(l)[0] == (Eftpos, l.eftpos.value);
      } else {
        assert Items(l)[|Items(l)| - 1] == (Atm, l.atm.value);
      }
    }
  }

  /** The section loop of `clean_t5`, filling `pos_rows` and `atm_rows`. */
  method ReadSections(g: Grid, l: Labels) returns (r: Result<(seq<SectionCell>, seq<SectionCell>), EtlError>)
    requires WellFormed(g) && LabelsWithin(l, g.width)
    ensures !Readable(g, l) ==> r == Failure(IndexOutOfRange)
    ensures Readable(g, l) ==> r == Success((PosEntries(g, l), AtmEntries(g, l)))
  {
    var items := Items(l);
    ItemsAreLabels(l);
    ReadsSomeItem(l, g.width);
    var posRows, atmRows := [], [];
    for k := 0 to |items|
      invariant HasDataRows(g) || forall j :: 0 <= j < k ==> SpanLo(items[j].1) >= SpanHi(l, items[j].1, g.width)
      invariant Readable(g, l) ==> posRows == Collected(g, l, k, Eftpos) && atmRows == Collected(g, l, k, Atm)
    {
      var (name, startCol) := items[k];
      var lo, hi := SpanLo(startCol), SpanHi(l, startCol, g.width);
      var res := AppendSpan(g, if name == Eftpos then posRows else atmRows, lo, hi);
      if res.Failure? {
        return Failure(res.error);
      }
      if name == Eftpos {
        posRows := res.value;
      } else {
        atmRows := res.value;
      }
    }
    CollectedAll(g, l);
    r := Success((posRows, atmRows));
  }

  // ---------------------------------------------------------------------
  // One value per year, and the outer join (lines 103-109)
  // ---------------------------------------------------------------------

  /** The recovered years of the entries, in order (`dropna(subset=['year'])`). */
  function KnownYears(cs: seq<SectionCell>): seq<int> {
    if |cs| == 0 then []
    else KnownYears(cs[..|cs| - 1]) + (if cs[|cs| - 1].year.Some? then [cs[|cs| - 1].year.value] else [])
  }

  lemma {:induction false} KnownYearsMembers(cs: seq<SectionCell>, y: int)
    ensures y in KnownYears(cs) <==> exists k :: 0 <= k < |cs| && cs[k].year == Some(y)
  {
    if |cs| > 0 {
      KnownYearsMembers(cs[..|cs| - 1], y);
      assert forall k :: 0 <= k < |cs| - 1 ==> cs[..|cs| - 1][k] == cs[k];
    }
  }

  /** The position of the last entry for year `y` with a non-null per-thousand cell. */
  function LastPresent(cs: seq<SectionCell>, y: int): (k: Option<nat>)
    ensures k.Some? ==> k.value < |cs| && cs[k.value].year == Some(y) && !cs[k.value].perThousand.Empty?
    ensures k.Some? ==> forall j :: k.value < j < |cs| ==> cs[j].year != Some(y) || cs[j].perThousand.Empty?
    ensures k.None? ==> forall j :: 0 <= j < |cs| ==> cs[j].year != Some(y) || cs[j].perThousand.Empty?
  {
    if |cs| == 0 then None
    else if cs[|cs| - 1].year == Some(y) && !cs[|cs| - 1].perThousand.Empty? then Some(|cs| - 1)
    else LastPresent(cs[..|cs| - 1], y)
  }

  /** `groupby('year').agg('last')` then `to_numeric`: the last non-null cell of the year, as a number. */
  function LastValue(cs: seq<SectionCell>, y: int): Option<real> {
    match LastPresent(cs, y)
    case None => None
    case Some(k) => ToNumeric(cs[k].perThousand)
  }

  /** A section collapsed to one row per year, years ascending. */
  function GroupLast(cs: seq<SectionCell>): seq<YearValue> {
    var years := SortedDistinct(KnownYears(cs), IntLt);
    seq(|years|, i requires 0 <= i < |years| => YearValue(years[i], LastValue(cs, years[i])))
  }

  function YearsOf(vs: seq<YearValue>): (ys: seq<int>)
    ensures |ys| == |vs| && forall k :: 0 <= k < |vs| ==> ys[k] == vs[k].year
  {
    seq(|vs|, k requires 0 <= k < |vs| => vs[k].year)
  }

  /** The value a frame holds for year `y`, or null when it has no such row. */
  function Lookup(vs: seq<YearValue>, y: int): (v: Option<real>)
    ensures (forall k :: 0 <= k < |vs| ==> vs[k].year != y) ==> v.None?
  {
    if |vs| == 0 then None
    else if vs[0].year == y then vs[0].value
    else Lookup(vs[1..], y)
  }

  lemma {:induction false} LookupUnique(vs: seq<YearValue>, k: nat)
    requires k < |vs| && forall j :: 0 <= j < |vs| && j != k ==> vs[j].year != vs[k].year
    ensures Lookup(vs, vs[k].year) == vs[k].value
  {
    if k > 0 {
      LookupUnique(vs[1..], k - 1);
    }
  }

  /** `pd.merge(pos, atm, on='year', how='outer').sort_values('year')`. */
  function MergeOuter(pos: seq<YearValue>, atm: seq<YearValue>): seq<InfraRecord> {
    var years := SortedDistinct(YearsOf(pos) + YearsOf(atm), IntLt);
    seq(|years|, i requires 0 <= i < |years| => InfraRecord(years[i], Lookup(pos, years[i]), Lookup(atm, years[i])))
  }

  predicate Ascending(ys: seq<int>) {
    forall i, j :: 0 <= i < j < |ys| ==> ys[i] < ys[j]
  }

  /**
   * A collapsed section: years ascending, exactly the recovered years of its
   * entries, each paired with the last non-null value of that year.
   */
  lemma GroupLastSpec(cs: seq<SectionCell>)
    ensures Ascending(YearsOf(GroupLast(cs)))
    ensures forall y :: y in YearsOf(GroupLast(cs)) <==> exists k :: 0 <= k < |cs| && cs[k].year == Some(y)
    ensures forall i :: 0 <= i < |GroupLast(cs)| ==> GroupLast(cs)[i].value == LastValue(cs, GroupLast(cs)[i].year)
  {
    IntLtIsStrictTotalOrder();
    SortedDistinctSpec(KnownYears(cs), IntLt);
    var years := SortedDistinct(KnownYears(cs), IntLt);
    assert YearsOf(GroupLast(cs)) == years;
    forall y ensures y in years <==> exists k :: 0 <= k < |cs| && cs[k].year == Some(y) {
      KnownYearsMembers(cs, y);
    }
  }

  /** Looking a year up in a collapsed section gives the section's last non-null value of that year. */
  lemma LookupGroupLast(cs: seq<SectionCell>, y: int)
    ensures Lookup(GroupLast(cs), y) == LastValue(cs, y)
  {
    var g := GroupLast(cs);
    GroupLastSpec(cs);
    if y in YearsOf(g) {
      var k :| 0 <= k < |g| && YearsOf(g)[k] == y;
      LookupUnique(g, k);
    } else {
      KnownYearsMembers(cs, y);
      assert LastPresent(cs, y).None?;
    }
  }

  /**
   * The outer join: years ascending, exactly the union of both sides' years,
   * each side's value for the year, or null when that side lacks the year.
   */
  lemma MergeOuterSpec(pos: seq<YearValue>, atm: seq<YearValue>)
    requires Ascending(YearsOf(pos)) && Ascending(YearsOf(atm))
    ensures var m := MergeOuter(pos, atm);
      && (forall i, j :: 0 <= i < j < |m| ==> m[i].year < m[j].year)
      && (forall y :: (exists i :: 0 <= i < |m| && m[i].year == y) <==> y in YearsOf(pos) || y in YearsOf(atm))
      && (forall i :: 0 <= i < |m| ==> forall k :: 0 <= k < |pos| && pos[k].year == m[i].year ==> m[i].posPerThousand == pos[k].value)
      && (forall i :: 0 <= i < |m| ==> forall k :: 0 <= k < |atm| && atm[k].year == m[i].year ==> m[i].atmPerThousand == atm[k].value)
      && (forall i :: 0 <= i < |m| && m[i].year !in YearsOf(pos) ==> m[i].posPerThousand.None?)
      && (forall i :: 0 <= i < |m| && m[i].year !in YearsOf(atm) ==> m[i].atmPerThousand.None?)
  {
    var m := MergeOuter(pos, atm);
    var years := SortedDistinct(YearsOf(pos) + YearsOf(atm), IntLt);
    IntLtIsStrictTotalOrder();
    SortedDistinctSpec(YearsOf(pos) + YearsOf(atm), IntLt);
    forall y ensures (exists i :: 0 <= i < |m| && m[i].year == y) <==> y in YearsOf(pos) || y in YearsOf(atm) {
      if y in years {
        var i :| 0 <= i < |years| && years[i] == y;
        assert m[i].year == y;
      }
    }
    forall i, k | 0 <= i < |m| && 0 <= k < |pos| && pos[k].year == m[i].year
      ensures m[i].posPerThousand == pos[k].value
    {
      LookupUnique(pos, k);
    }
    forall i, k | 0 <= i < |m| && 0 <= k < |atm| && atm[k].year == m[i].year
      ensures m[i].atmPerThousand == atm[k].value
    {
      LookupUnique(atm, k);
    }
  }

  /** Year recovery works entry by entry, so it distributes over concatenation and keeps order. */
  lemma {:induction false} KnownYearsAppend(a: seq<SectionCell>, b: seq<SectionCell>)
    ensures KnownYears(a + b) == KnownYears(a) + KnownYears(b)
    decreases |b|
  {
    if |b| == 0 {
      assert a + b == a;
    } else {
      var b' := b[..|b| - 1];
      assert (a + b)[..|a + b| - 1] == a + b';
      KnownYearsAppend(a, b');
    }
  }

  lemma {:induction false} LastValueSkipsYearless(a: seq<SectionCell>, x: SectionCell, b: seq<SectionCell>, y: int)
    requires x.year.None?
    ensures LastValue(a + [x] + b, y) == LastValue(a + b, y)
    decreases |b|
  {
    var s, t := a + [x] + b, a + b;
    if |b| == 0 {
      assert s[..|s| - 1] == a && t == a;
    } else {
      var b' := b[..|b| - 1];
      assert s[..|s| - 1] == a + [x] + b' && s[|s| - 1] == b[|b| - 1];
      assert t[..|t| - 1] == a + b' && t[|t| - 1] == b[|b| - 1];
      if !(b[|b| - 1].year == Some(y) && !b[|b| - 1].perThousand.Empty?) {
        LastValueSkipsYearless(a, x, b', y);
      }
    }
  }

  lemma YearlessEntryDropped(a: seq<SectionCell>, x: SectionCell, b: seq<SectionCell>)
    requires x.year.None?
    ensures GroupLast(a + [x] + b) == GroupLast(a + b)
  {
    KnownYearsAppend(a + [x], b);
    KnownYearsAppend(a, [x]);
    KnownYearsAppend(a, b);
    assert [x][..0] == [];
    assert KnownYears(a + [x] + b) == KnownYears(a + b);
    var years := SortedDistinct(KnownYears(a + b), IntLt);
    var g1, g2 := GroupLast(a + [x] + b), GroupLast(a + b);
    assert |g1| == |years| == |g2|;
    forall i | 0 <= i < |years| ensures g1[i] == g2[i] {
      LastValueSkipsYearless(a, x, b, years[i]);
    }
  }

  /** Two sections collapsed and outer-joined. */
  lemma MergeSections(pos: seq<SectionCell>, atm: seq<SectionCell>)
    ensures var m := MergeOuter(GroupLast(pos), GroupLast(atm));
      && (forall i, j :: 0 <= i < j < |m| ==> m[i].year < m[j].year)
      && (forall y :: (exists i :: 0 <= i < |m| && m[i].year == y) <==>
                      (exists k :: 0 <= k < |pos| && pos[k].year == Some(y)) || (exists k :: 0 <= k < |atm| && atm[k].year == Some(y)))
      && (forall i :: 0 <= i < |m| ==> m[i].posPerThousand == LastValue(pos, m[i].year) && m[i].atmPerThousand == LastValue(atm, m[i].year))
  {
    var gp, ga := GroupLast(pos), GroupLast(atm);
    var m := MergeOuter(gp, ga);
    GroupLastSpec(pos);
    GroupLastSpec(atm);
    MergeOuterSpec(gp, ga);
    forall i | 0 <= i < |m| ensures m[i].posPerThousand == LastValue(pos, m[i].year) && m[i].atmPerThousand == LastValue(atm, m[i].year) {
      LookupGroupLast(pos, m[i].year);
      LookupGroupLast(atm, m[i].year);
    }
  }

  // ---------------------------------------------------------------------
  // The whole extractor
  // ---------------------------------------------------------------------

  /** Row 2, or nothing when the sheet has no columns to scan. */
  function LabelCells(g: Grid): seq<Cell> {
    if |g.rows| > LabelRow then g.rows[LabelRow] else []
  }

  /** The `labels` dict after both passes. */
  function T5Labels(g: Grid): (l: Labels)
    requires WellFormed(g)
    ensures LabelsWithin(l, g.width)
  {
    var row := LabelCells(g);
    Fallback(row, |row|, FirstPass(row, |row|))
  }

  /** `clean_t5` on the whole sheet `g`. */
  function CleanT5Spec(g: Grid): Result<seq<InfraRecord>, EtlError>
    requires WellFormed(g)
  {
    if g.width > 0 && |g.rows| <= LabelRow then Failure(IndexOutOfRange)
    else
      var l := T5Labels(g);
      if !Readable(g, l) then Failure(IndexOutOfRange)
      else
        var pos, atm := PosEntries(g, l), AtmEntries(g, l);
        if |pos| == 0 || |atm| == 0 then Failure(MissingYearColumn)
        else Success(MergeOuter(GroupLast(pos), GroupLast(atm)))
  }

  method CleanT5(g: Grid) returns (r: Result<seq<InfraRecord>, EtlError>)
    requires WellFormed(g)
    ensures r == CleanT5Spec(g)
  {
    var ncols := g.width;
    if ncols > 0 && |g.rows| <= LabelRow {
      return Failure(IndexOutOfRange);
    }
    var labels := FindLabels(LabelCells(g));
    var sections := ReadSections(g, labels);
    if sections.Failure? {
      return Failure(sections.error);
    }
    var (posRows, atmRows) := sections.value;
    if |posRows| == 0 || |atmRows| == 0 {
      return Failure(MissingYearColumn);
    }
    r := Success(MergeOuter(GroupLast(posRows), GroupLast(atmRows)));
  }

  /** A section that contributes nothing: its label was not found, or its span is empty. */
  predicate NoSection(l: Labels, col: Option<nat>, ncols: nat)
    requires LabelsWithin(l, ncols) && (col == l.eftpos || col == l.atm)
  {
    col.None? || SpanLo(col.value) == SpanHi(l, col.value, ncols)
  }

  lemma SectionLength(g: Grid, l: Labels)
    requires WellFormed(g) && LabelsWithin(l, g.width) && Readable(g, l)
    ensures |PosEntries(g, l)| == 0 <==> NoSection(l, l.eftpos, g.width)
    ensures |AtmEntries(g, l)| == 0 <==> NoSection(l, l.atm, g.width)
  {
  }

  /**
   * The errors of `clean_t5`: a non-empty sheet without row 2, a section
   * reading past the last row, or a missing or empty section (which leaves
   * its frame without a 'year' column).
   */
  lemma CleanT5Errors(g: Grid)
    requires WellFormed(g)
    ensures g.width > 0 && |g.rows| <= LabelRow ==> CleanT5Spec(g) == Failure(IndexOutOfRange)
    ensures CleanT5Spec(g) == Failure(MissingYearColumn) <==>
              && !(g.width > 0 && |g.rows| <= LabelRow)
              && Readable(g, T5Labels(g))
              && (NoSection(T5Labels(g), T5Labels(g).eftpos, g.width) || NoSection(T5Labels(g), T5Labels(g).atm, g.width))
  {
    if !(g.width > 0 && |g.rows| <= LabelRow) && Readable(g, T5Labels(g)) {
      SectionLength(g, T5Labels(g));
    }
  }

  /**
   * `clean_t5`'s table: years ascending and unique, exactly the years
   * recovered in either section, each with that section's last non-null
   * per-thousand figure for the year (null when the section lacks it).
   */
  lemma CleanT5Output(g: Grid)
    requires WellFormed(g) && CleanT5Spec(g).Success?
    ensures var l := T5Labels(g);
      var pos, atm := PosEntries(g, l), AtmEntries(g, l);
      var out := CleanT5Spec(g).value;
      && (forall i, j :: 0 <= i < j < |out| ==> out[i].year < out[j].year)
      && (forall y :: (exists i :: 0 <= i < |out| && out[i].year == y) <==>
                      (exists k :: 0 <= k < |pos| && pos[k].year == Some(y)) || (exists k :: 0 <= k < |atm| && atm[k].year == Some(y)))
      && (forall i :: 0 <= i < |out| ==> out[i].posPerThousand == LastValue(pos, out[i].year) && out[i].atmPerThousand == LastValue(atm, out[i].year))
  {
    var l := T5Labels(g);
    MergeSections(PosEntries(g, l), AtmEntries(g, l));
  }
}
