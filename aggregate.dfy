/**
 * The aggregation in `run_etl`: instrument shares per year (a two-level
 * group-by with sums and a per-year division) and the reporting dataset,
 * the instrument table left-joined with the per-capita and infrastructure
 * series on year.
 */
module Aggregate {
  import opened Wrappers
  import opened Ordering
  import opened Sheet
  import opened T1
  import opened T2
  import opened T5

  /** One row of `kpi_instrument_share.csv`. */
  datatype ShareRecord = ShareRecord(
    year: int, instrument: string, volume: real, value: real,
    yearVolume: real, yearValue: real,
    volumeShare: Option<real>, valueShare: Option<real>)

  /** One row of `bnm_payments_powerbi.csv`: an instrument record with the joined series. */
  datatype DatasetRecord = DatasetRecord(
    record: InstrumentRecord, ePaymentsPerCapita: Option<real>,
    posPerThousand: Option<real>, atmPerThousand: Option<real>)

  // ---------------------------------------------------------------------
  // Shares (lines 120-126)
  // ---------------------------------------------------------------------

  /** The `groupby(["year","instrument"])` key order: by year, then by instrument. */
  predicate KeyLt(a: (int, string), b: (int, string)) {
    a.0 < b.0 || (a.0 == b.0 && StrLt(a.1, b.1))
  }

  lemma KeyLtIsStrictTotalOrder()
    ensures StrictTotalOrder(KeyLt)
  {
    StrLtIsStrictTotalOrder();
  }

  function Key(r: InstrumentRecord): (int, string) {
    (r.year, r.instrument)
  }

  function Keys(t2: seq<InstrumentRecord>): (ks: seq<(int, string)>)
    ensures |ks| == |t2| && forall k :: 0 <= k < |t2| ==> ks[k] == Key(t2[k])
  {
    seq(|t2|, k requires 0 <= k < |t2| => Key(t2[k]))
  }

  /** The groups, in `groupby`'s sorted order. */
  function GroupKeys(t2: seq<InstrumentRecord>): seq<(int, string)> {
    SortedDistinct(Keys(t2), KeyLt)
  }

  /** pandas' `sum` of a column over the records with key `key`: nulls are skipped. */
  function SumVolume(t2: seq<InstrumentRecord>, key: (int, string)): real {
    if |t2| == 0 then 0.0
    else SumVolume(t2[..|t2| - 1], key) + (if Key(t2[|t2| - 1]) == key then t2[|t2| - 1].volume.GetOr(0.0) else 0.0)
  }

  function SumValue(t2: seq<InstrumentRecord>, key: (int, string)): real {
    if |t2| == 0 then 0.0
    else SumValue(t2[..|t2| - 1], key) + (if Key(t2[|t2| - 1]) == key then t2[|t2| - 1].value.GetOr(0.0) else 0.0)
  }

  /** One row of the first `groupby`: key, summed volume, summed value. */
  datatype GroupRow = GroupRow(year: int, instrument: string, volume: real, value: real)

  function Groups(t2: seq<InstrumentRecord>): (gs: seq<GroupRow>)
    ensures |gs| == |GroupKeys(t2)|
  {
    var keys := GroupKeys(t2);
    seq(|keys|, i requires 0 <= i < |keys| => GroupRow(keys[i].0, keys[i].1, SumVolume(t2, keys[i]), SumValue(t2, keys[i])))
  }

  /** `shares.groupby("year")[["volume"]].sum()` at year `y`. */
  function YearVolume(gs: seq<GroupRow>, y: int): real {
    if |gs| == 0 then 0.0
    else YearVolume(gs[..|gs| - 1], y) + (if gs[|gs| - 1].year == y then gs[|gs| - 1].volume else 0.0)
  }

  function YearValue(gs: seq<GroupRow>, y: int): real {
    if |gs| == 0 then 0.0
    else YearValue(gs[..|gs| - 1], y) + (if gs[|gs| - 1].year == y then gs[|gs| - 1].value else 0.0)
  }

  /** `kpi_instrument_share`: each group joined with its year's totals and divided by them. */
  function Shares(t2: seq<InstrumentRecord>): (ss: seq<ShareRecord>)
    ensures |ss| == |Groups(t2)|
  {
    var gs := Groups(t2);
    seq(|gs|, i requires 0 <= i < |gs| =>
      var tv, tl := YearVolume(gs, gs[i].year), YearValue(gs, gs[i].year);
      ShareRecord(gs[i].year, gs[i].instrument, gs[i].volume, gs[i].value, tv, tl,
                  Quotient(Some(gs[i].volume), Some(tv)), Quotient(Some(gs[i].value), Some(tl))))
  }

  function ShareKey(s: ShareRecord): (int, string) {
    (s.year, s.instrument)
  }

  function ShareKeys(ss: seq<ShareRecord>): (ks: seq<(int, string)>)
    ensures |ks| == |ss| && forall i :: 0 <= i < |ss| ==> ks[i] == ShareKey(ss[i])
  {
    seq(|ss|, i requires 0 <= i < |ss| => ShareKey(ss[i]))
  }

  /**
   * The share rows are the groups in (year, instrument) order, one per key
   * present in the table, with the column sums of that key.
   */
  lemma SharesKeys(t2: seq<InstrumentRecord>)
    ensures forall i, j :: 0 <= i < j < |Shares(t2)| ==> KeyLt(ShareKey(Shares(t2)[i]), ShareKey(Shares(t2)[j]))
    ensures forall key :: key in ShareKeys(Shares(t2)) <==> key in Keys(t2)
    ensures forall i :: 0 <= i < |Shares(t2)| ==>
              Shares(t2)[i].volume == SumVolume(t2, ShareKey(Shares(t2)[i]))
              && Shares(t2)[i].value == SumValue(t2, ShareKey(Shares(t2)[i]))
  {
    var keys := GroupKeys(t2);
    var ss := Shares(t2);
    KeyLtIsStrictTotalOrder();
    SortedDistinctSpec(Keys(t2), KeyLt);
    assert ShareKeys(ss) == keys;
  }

  /** Sum of the volume shares of year `y`, a missing share counting as 0. */
  function VolumeShareSum(ss: seq<ShareRecord>, y: int): real {
    if |ss| == 0 then 0.0
    else VolumeShareSum(ss[..|ss| - 1], y) + (if ss[|ss| - 1].year == y then ss[|ss| - 1].volumeShare.GetOr(0.0) else 0.0)
  }

  function ValueShareSum(ss: seq<ShareRecord>, y: int): real {
    if |ss| == 0 then 0.0
    else ValueShareSum(ss[..|ss| - 1], y) + (if ss[|ss| - 1].year == y then ss[|ss| - 1].valueShare.GetOr(0.0) else 0.0)
  }

  /** Over rows whose year-`y` volume shares are the group volume over `t`, the shares sum to the volumes over `t`. */
  lemma {:induction false} VolumeSharePrefix(ss: seq<ShareRecord>, gs: seq<GroupRow>, y: int, t: real)
    requires |ss| == |gs| && t != 0.0
    requires forall i :: 0 <= i < |ss| ==> ss[i].year == gs[i].year
    requires forall i :: 0 <= i < |ss| && ss[i].year == y ==> ss[i].volumeShare == Quotient(Some(gs[i].volume), Some(t))
    ensures VolumeShareSum(ss, y) * t == YearVolume(gs, y)
  {
    if |ss| > 0 {
      var n := |ss|;
      VolumeSharePrefix(ss[..n - 1], gs[..n - 1], y, t);
      var a := VolumeShareSum(ss[..n - 1], y);
      var b := if ss[n - 1].year == y then ss[n - 1].volumeShare.GetOr(0.0) else 0.0;
      assert (a + b) * t == a * t + b * t;
    }
  }

  lemma {:induction false} ValueSharePrefix(ss: seq<ShareRecord>, gs: seq<GroupRow>, y: int, t: real)
    requires |ss| == |gs| && t != 0.0
    requires forall i :: 0 <= i < |ss| ==> ss[i].year == gs[i].year
    requires forall i :: 0 <= i < |ss| && ss[i].year == y ==> ss[i].valueShare == Quotient(Some(gs[i].value), Some(t))
    ensures ValueShareSum(ss, y) * t == YearValue(gs, y)
  {
    if |ss| > 0 {
      var n := |ss|;
      ValueSharePrefix(ss[..n - 1], gs[..n - 1], y, t);
      var a := ValueShareSum(ss[..n - 1], y);
      var b := if ss[n - 1].year == y then ss[n - 1].valueShare.GetOr(0.0) else 0.0;
      assert (a + b) * t == a * t + b * t;
    }
  }

  lemma UnitFactor(s: real, t: real, u: real)
    requires t != 0.0 && s * t == u && u == t
    ensures s == 1.0
  {
    assert (s - 1.0) * t == 0.0;
  }

  /**
   * Every share row carries its year's totals; within a year whose total
   * is nonzero every share is defined and the shares sum to 1; with a zero
   * total none is defined.
   */
  lemma SharesSumToOne(t2: seq<InstrumentRecord>, y: int)
    ensures YearVolume(Groups(t2), y) != 0.0 ==> VolumeShareSum(Shares(t2), y) == 1.0
    ensures YearValue(Groups(t2), y) != 0.0 ==> ValueShareSum(Shares(t2), y) == 1.0
    ensures forall i :: 0 <= i < |Shares(t2)| && Shares(t2)[i].year == y ==>
              && Shares(t2)[i].yearVolume == YearVolume(Groups(t2), y)
              && Shares(t2)[i].yearValue == YearValue(Groups(t2), y)
              && (Shares(t2)[i].volumeShare.Some? <==> YearVolume(Groups(t2), y) != 0.0)
              && (Shares(t2)[i].valueShare.Some? <==> YearValue(Groups(t2), y) != 0.0)
  {
    VolumeSharesSumToOne(t2, y);
    ValueSharesSumToOne(t2, y);
  }

  /** Share row `i` is group `i` with its year's totals and the two quotients. */
  lemma ShareRow(t2: seq<InstrumentRecord>, i: nat)
    requires i < |Shares(t2)|
    ensures var s, g := Shares(t2)[i], Groups(t2)[i];
            && s.year == g.year
            && s.yearVolume == YearVolume(Groups(t2), g.year)
            && s.yearValue == YearValue(Groups(t2), g.year)
            && s.volumeShare == Quotient(Some(g.volume), Some(s.yearVolume))
            && s.valueShare == Quotient(Some(g.value), Some(s.yearValue))
  {
  }

  lemma VolumeSharesSumToOne(t2: seq<InstrumentRecord>, y: int)
    ensures YearVolume(Groups(t2), y) != 0.0 ==> VolumeShareSum(Shares(t2), y) == 1.0
  {
    var ss, gs := Shares(t2), Groups(t2);
    var tv := YearVolume(gs, y);
    if tv != 0.0 {
      forall i | 0 <= i < |ss|
        ensures ss[i].year == gs[i].year
        ensures ss[i].year == y ==> ss[i].volumeShare == Quotient(Some(gs[i].volume), Some(tv))
      {
        ShareRow(t2, i);
      }
      VolumeSharePrefix(ss, gs, y, tv);
      UnitFactor(VolumeShareSum(ss, y), tv, YearVolume(gs, y));
    }
  }

  lemma ValueSharesSumToOne(t2: seq<InstrumentRecord>, y: int)
    ensures YearValue(Groups(t2), y) != 0.0 ==> ValueShareSum(Shares(t2), y) == 1.0
  {
    var ss, gs := Shares(t2), Groups(t2);
    var tl := YearValue(gs, y);
    if tl != 0.0 {
      forall i | 0 <= i < |ss|
        ensures ss[i].year == gs[i].year
        ensures ss[i].year == y ==> ss[i].valueShare == Quotient(Some(gs[i].value), Some(tl))
      {
        ShareRow(t2, i);
      }
      ValueSharePrefix(ss, gs, y, tl);
      UnitFactor(ValueShareSum(ss, y), tl, YearValue(gs, y));
    }
  }

  // ---------------------------------------------------------------------
  // The dataset: two left joins on year (lines 127-128)
  // ---------------------------------------------------------------------

  /** The right-hand rows whose year is `y`, in their order. */
  function Matches<R>(right: seq<R>, year: R -> int, y: int): (ms: seq<R>)
    ensures |ms| <= |right|
    ensures forall m :: m in ms ==> m in right && year(m) == y
  {
    if |right| == 0 then []
    else Matches(right[..|right| - 1], year, y) + (if year(right[|right| - 1]) == y then [right[|right| - 1]] else [])
  }

  /** `left.merge(right, on="year", how="left")`: each left row with each of its matches, or alone with nulls. */
  function LeftJoin<L, R>(left: seq<L>, right: seq<R>, lyear: L -> int, ryear: R -> int): seq<(L, Option<R>)> {
    if |left| == 0 then []
    else
      var ms := Matches(right, ryear, lyear(left[|left| - 1]));
      LeftJoin(left[..|left| - 1], right, lyear, ryear) +
      if |ms| == 0 then [(left[|left| - 1], None)]
      else seq(|ms|, k requires 0 <= k < |ms| => (left[|left| - 1], Some(ms[k])))
  }

  predicate UniqueYears<R>(right: seq<R>, year: R -> int) {
    forall i, j :: 0 <= i < j < |right| ==> year(right[i]) != year(right[j])
  }

  lemma {:induction false} MatchesOfUnique<R>(right: seq<R>, year: R -> int, y: int)
    requires UniqueYears(right, year)
    ensures |Matches(right, year, y)| <= 1
    ensures |Matches(right, year, y)| == 1 <==> exists k :: 0 <= k < |right| && year(right[k]) == y
  {
    if |right| > 0 {
      var init := right[..|right| - 1];
      assert UniqueYears(init, year);
      MatchesOfUnique(init, year, y);
      if exists k :: 0 <= k < |right| && year(right[k]) == y {
        var k :| 0 <= k < |right| && year(right[k]) == y;
        if k < |right| - 1 {
          assert year(init[k]) == y;
        }
      }
    }
  }

  /**
   * Joining on a right side with unique years keeps the left side row for
   * row: row `i` is left row `i` with its match, or null when it has none.
   */
  lemma {:induction false} LeftJoinUnique<L, R>(left: seq<L>, right: seq<R>, lyear: L -> int, ryear: R -> int)
    requires UniqueYears(right, ryear)
    ensures |LeftJoin(left, right, lyear, ryear)| == |left|
    ensures forall i :: 0 <= i < |left| ==> LeftJoin(left, right, lyear, ryear)[i].0 == left[i]
    ensures forall i :: 0 <= i < |left| ==>
              var m := LeftJoin(left, right, lyear, ryear)[i].1;
              && (m.Some? ==> m.value in right && ryear(m.value) == lyear(left[i]))
              && (m.None? <==> forall k :: 0 <= k < |right| ==> ryear(right[k]) != lyear(left[i]))
  {
    if |left| > 0 {
      var init := left[..|left| - 1];
      LeftJoinUnique(init, right, lyear, ryear);
      MatchesOfUnique(right, ryear, lyear(left[|left| - 1]));
      var j := LeftJoin(left, right, lyear, ryear);
      forall i | 0 <= i < |left| - 1 ensures j[i] == LeftJoin(init, right, lyear, ryear)[i] && left[i] == init[i] {
      }
    }
  }

  /** `t2.merge(t1, on="year", how="left").merge(t5, on="year", how="left")`. */
  function Dataset(t2: seq<InstrumentRecord>, t1: seq<PerCapitaRecord>, t5: seq<InfraRecord>): seq<DatasetRecord> {
    var withT1 := LeftJoin(t2, t1, (r: InstrumentRecord) => r.year, (p: PerCapitaRecord) => p.year);
    var withT5 := LeftJoin(withT1, t5, (x: (InstrumentRecord, Option<PerCapitaRecord>)) => x.0.year, (q: InfraRecord) => q.year);
    seq(|withT5|, i requires 0 <= i < |withT5| =>
      var x := withT5[i];
      DatasetRecord(x.0.0,
                    if x.0.1.Some? then x.0.1.value.ePaymentsPerCapita else None,
                    if x.1.Some? then x.1.value.posPerThousand else None,
                    if x.1.Some? then x.1.value.atmPerThousand else None))
  }

  /**
   * With unique per-capita and infrastructure years the dataset has exactly
   * the instrument table's rows, in order, each carrying the series values
   * of its year (null where a series lacks the year).
   */
  lemma DatasetRows(t2: seq<InstrumentRecord>, t1: seq<PerCapitaRecord>, t5: seq<InfraRecord>)
    requires UniqueYears(t1, (p: PerCapitaRecord) => p.year)
    requires UniqueYears(t5, (q: InfraRecord) => q.year)
    ensures |Dataset(t2, t1, t5)| == |t2|
    ensures forall i :: 0 <= i < |t2| ==> Dataset(t2, t1, t5)[i].record == t2[i]
    ensures forall i, k :: 0 <= i < |t2| && 0 <= k < |t1| && t1[k].year == t2[i].year ==>
              Dataset(t2, t1, t5)[i].ePaymentsPerCapita == t1[k].ePaymentsPerCapita
    ensures forall i :: 0 <= i < |t2| && (forall k :: 0 <= k < |t1| ==> t1[k].year != t2[i].year) ==>
              Dataset(t2, t1, t5)[i].ePaymentsPerCapita.None?
    ensures forall i, k :: 0 <= i < |t2| && 0 <= k < |t5| && t5[k].year == t2[i].year ==>
              Dataset(t2, t1, t5)[i].posPerThousand == t5[k].posPerThousand
              && Dataset(t2, t1, t5)[i].atmPerThousand == t5[k].atmPerThousand
    ensures forall i :: 0 <= i < |t2| && (forall k :: 0 <= k < |t5| ==> t5[k].year != t2[i].year) ==>
              Dataset(t2, t1, t5)[i].posPerThousand.None? && Dataset(t2, t1, t5)[i].atmPerThousand.None?
  {
    var ly := (r: InstrumentRecord) => r.year;
    var py := (p: PerCapitaRecord) => p.year;
    var xy := (x: (InstrumentRecord, Option<PerCapitaRecord>)) => x.0.year;
    var qy := (q: InfraRecord) => q.year;
    var withT1 := LeftJoin(t2, t1, ly, py);
    LeftJoinUnique(t2, t1, ly, py);
    LeftJoinUnique(withT1, t5, xy, qy);
    var d := Dataset(t2, t1, t5);
    forall i, k | 0 <= i < |t2| && 0 <= k < |t1| && t1[k].year == t2[i].year
      ensures d[i].ePaymentsPerCapita == t1[k].ePaymentsPerCapita
    {
      var m := withT1[i].1;
      assert m.Some?;
      var k' :| 0 <= k' < |t1| && t1[k'] == m.value;
      assert k' == k;
    }
    forall i, k | 0 <= i < |t2| && 0 <= k < |t5| && t5[k].year == t2[i].year
      ensures d[i].posPerThousand == t5[k].posPerThousand && d[i].atmPerThousand == t5[k].atmPerThousand
    {
      var m := LeftJoin(withT1, t5, xy, qy)[i].1;
      assert m.Some?;
      var k' :| 0 <= k' < |t5| && t5[k'] == m.value;
      assert k' == k;
    }
  }
}
