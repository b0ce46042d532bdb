/**
 * `run_etl` without its file handling: the three extractors on their
 * sheets, then the shares table and the joined dataset built from their
 * results. The first extractor to raise aborts the run.
 */
module Pipeline {
  import opened Wrappers
  import opened Sheet
  import opened T1
  import opened T2
  import opened T5
  import opened Aggregate

  /** The three sheets as read: T1 and T2 without their header row (T2's header kept apart), T5 raw. */
  datatype Workbooks = Workbooks(t1: Grid, t2Header: seq<Cell>, t2: Grid, t5: Grid)

  predicate WellFormedWorkbooks(w: Workbooks) {
    WellFormed(w.t1) && WellFormedT2(w.t2Header, w.t2) && WellFormed(w.t5)
  }

  /** The five tables `run_etl` writes out. */
  datatype EtlOutput = EtlOutput(
    t1: seq<PerCapitaRecord>, t2: seq<InstrumentRecord>, t5: seq<InfraRecord>,
    shares: seq<ShareRecord>, dataset: seq<DatasetRecord>)

  function RunEtlSpec(w: Workbooks): Result<EtlOutput, EtlError>
    requires WellFormedWorkbooks(w)
  {
    var t1 :- CleanT1(w.t1);
    var t2 :- CleanT2Spec(w.t2Header, w.t2);
    var t5 :- CleanT5Spec(w.t5);
    Success(EtlOutput(t1, t2, t5, Shares(t2), Dataset(t2, t1, t5)))
  }

  method RunEtl(w: Workbooks) returns (r: Result<EtlOutput, EtlError>)
    requires WellFormedWorkbooks(w)
    ensures r == RunEtlSpec(w)
  {
    var t1 :- CleanT1(w.t1);
    var t2 :- CleanT2(w.t2Header, w.t2);
    var t5 :- CleanT5(w.t5);
    var shares := Shares(t2);
    var dataset := Dataset(t2, t1, t5);
    r := Success(EtlOutput(t1, t2, t5, shares, dataset));
  }

  /** The years of `clean_t5` are unique, because they come out strictly ascending. */
  lemma T5YearsUnique(g: Grid)
    requires WellFormed(g) && CleanT5Spec(g).Success?
    ensures UniqueYears(CleanT5Spec(g).value, (q: InfraRecord) => q.year)
  {
    CleanT5Output(g);
  }

  /**
   * A finished run: the dataset has one row per instrument record, in
   * order, whenever the per-capita years are unique; and every T2 year
   * lies in 2000..2099.
   */
  lemma RunEtlDataset(w: Workbooks)
    requires WellFormedWorkbooks(w) && RunEtlSpec(w).Success?
    requires UniqueYears(RunEtlSpec(w).value.t1, (p: PerCapitaRecord) => p.year)
    ensures |RunEtlSpec(w).value.dataset| == |RunEtlSpec(w).value.t2|
    ensures forall i :: 0 <= i < |RunEtlSpec(w).value.t2| ==> RunEtlSpec(w).value.dataset[i].record == RunEtlSpec(w).value.t2[i]
    ensures forall i :: 0 <= i < |RunEtlSpec(w).value.t2| ==> 2000 <= RunEtlSpec(w).value.t2[i].year <= 2099
  {
    var out := RunEtlSpec(w).value;
    T5YearsUnique(w.t5);
    CleanT2Years(w.t2Header, w.t2);
    DatasetRows(out.t2, out.t1, out.t5);
  }
}
