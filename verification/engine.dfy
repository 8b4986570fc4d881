/**
 The disaggregation engine itself: construction (copies of both tables, key
 validation, the source total) and one run (source split, target filter,
 weights, join, and the totals the run reports).
 */
module Engine {
  import opened Tables
  import opened Keys
  import opened Matcher
  import opened Weights
  import opened Distribution
  import opened Reconcile

  datatype Side = Source | Target

  /** Why construction or a run fails. */
  datatype Error =
    | NoCommonKeys               // no source key column is a target key column
    | MissingColumns(side: Side) // a key column the run selects is not a column of that table

  datatype Result<T> = Ok(value: T) | Err(error: Error)

  /**
   A constructed engine: its own copies of both tables, both key lists, the
   join keys and the source total taken at construction.
   */
  datatype Disaggregator = Disaggregator(
    source: Table,
    target: Table,
    sourceKeys: seq<Column>,
    targetKeys: seq<Column>,
    common: seq<Column>,
    sourceTotal: real)

  /** What construction establishes about an engine. */
  predicate Constructed(e: Disaggregator) {
    && e.common == CommonKeys(e.sourceKeys, e.targetKeys)
    && e.common != []
    && e.sourceTotal == Sum(e.source.rows)
  }

  /**
   Construction fails exactly when the two key lists share no column;
   otherwise the engine holds the inputs unchanged.
   */
  function New(source: Table, target: Table, sourceKeys: seq<Column>, targetKeys: seq<Column>): (r: Result<Disaggregator>)
    ensures r.Err? <==> forall c :: c in sourceKeys ==> c !in targetKeys
    ensures r.Err? ==> r.error == NoCommonKeys
    ensures r.Ok? ==> Constructed(r.value)
    ensures r.Ok? ==> && r.value.source == source && r.value.target == target
                      && r.value.sourceKeys == sourceKeys && r.value.targetKeys == targetKeys
  {
    var common := CommonKeys(sourceKeys, targetKeys);
    NoCommonKeysIff(sourceKeys, targetKeys);
    if common == [] then Err(NoCommonKeys)
    else Ok(Disaggregator(source, target, sourceKeys, targetKeys, common, Sum(source.rows)))
  }

  /** The result of a run: the distributed rows and the source rows without a target. */
  datatype Outcome = Outcome(ok: seq<OutRow>, errors: seq<Row>)

  /** Both tables carry the join keys, so the source split can be taken. */
  predicate Joinable(e: Disaggregator) {
    && WellFormed(e.source) && WellFormed(e.target)
    && Declares(e.source, e.common) && Declares(e.target, e.common)
  }

  /** The source split against the target's distinct key tuples: valid and error rows. */
  function SourceSplit(e: Disaggregator): Split
    requires Joinable(e)
  {
    Partition(e.source.rows, e.common, KeySet(e.target.rows, e.common))
  }

  /** The target rows whose key tuple occurs among the valid source rows. */
  function KeptTarget(e: Disaggregator): seq<Row>
    requires Joinable(e)
  {
    Partition(e.target.rows, e.common, KeySet(SourceSplit(e).matched, e.common)).matched
  }

  /** The source key columns the final join brings into the output. */
  function Carried(e: Disaggregator): seq<Column> {
    CarriedKeys(e.sourceKeys, e.common)
  }

  /**
   One run. A missing join key column fails the run, target first; with no
   valid source row the run returns no rows and all source rows as errors;
   otherwise a missing source key column fails the run.
   */
  function Run(e: Disaggregator, policy: ZeroSumPolicy): (r: Result<Outcome>)
    requires WellFormed(e.source) && WellFormed(e.target)
  {
    if !Declares(e.target, e.common) then Err(MissingColumns(Target))
    else if !Declares(e.source, e.common) then Err(MissingColumns(Source))
    else
      var split := SourceSplit(e);
      if split.matched == [] then Ok(Outcome([], split.unmatched))
      else if !Declares(e.source, e.sourceKeys) then Err(MissingColumns(Source))
      else
        var ws := AttachWeights(KeptTarget(e), e.common, policy);
        Ok(Outcome(Distribute(ws, split.matched, e.common, Carried(e)), split.unmatched))
  }

  /** The figure the run reports as the difference, expected to be zero. */
  function Difference(e: Disaggregator, o: Outcome): real {
    e.sourceTotal - OutTotal(o.ok) - Sum(o.errors)
  }

  /**
   A run fails exactly when a table lacks a join key column, or when some
   source row is valid and the source lacks one of its own key columns.
   */
  lemma RunFailsIff(e: Disaggregator, policy: ZeroSumPolicy)
    requires WellFormed(e.source) && WellFormed(e.target)
    ensures Run(e, policy).Err? <==>
              || !Declares(e.target, e.common)
              || !Declares(e.source, e.common)
              || ((exists s :: s in e.source.rows && KeyOf(s, e.common) in KeySet(e.target.rows, e.common))
                  && !Declares(e.source, e.sourceKeys))
    ensures !Declares(e.target, e.common) ==> Run(e, policy) == Err(MissingColumns(Target))
    ensures Run(e, policy).Err? && Declares(e.target, e.common) ==> Run(e, policy) == Err(MissingColumns(Source))
  {
    if Joinable(e) {
      if exists s :: s in e.source.rows && KeyOf(s, e.common) in KeySet(e.target.rows, e.common) {
        var s :| s in e.source.rows && KeyOf(s, e.common) in KeySet(e.target.rows, e.common);
        PartitionExact(e.source.rows, e.common, KeySet(e.target.rows, e.common), s);
      } else {
        PartitionNone(e.source.rows, e.common, KeySet(e.target.rows, e.common));
      }
    }
  }

  /**
   Every source row is valid or an error, not both: a row is an error iff
   its key tuple is not among the target's key tuples, and the run reports
   exactly those rows as errors.
   */
  lemma SourceSplitExact(e: Disaggregator, policy: ZeroSumPolicy)
    requires Joinable(e) && Run(e, policy).Ok?
    ensures Run(e, policy).value.errors == SourceSplit(e).unmatched
    ensures forall r :: r in e.source.rows ==>
              (r in SourceSplit(e).unmatched <==> KeyOf(r, e.common) !in KeySet(e.target.rows, e.common))
    ensures forall r :: r in SourceSplit(e).unmatched ==> r in e.source.rows
  {
    forall r | r in e.source.rows
      ensures r in SourceSplit(e).unmatched <==> KeyOf(r, e.common) !in KeySet(e.target.rows, e.common)
    {
      PartitionExact(e.source.rows, e.common, KeySet(e.target.rows, e.common), r);
    }
  }

  /**
   The source split loses and duplicates nothing, and each side keeps
   source order.
   */
  lemma SourceSplitOrder(e: Disaggregator)
    requires Joinable(e)
    ensures multiset(SourceSplit(e).matched) + multiset(SourceSplit(e).unmatched) == multiset(e.source.rows)
    ensures IsSubsequence(SourceSplit(e).matched, e.source.rows)
    ensures IsSubsequence(SourceSplit(e).unmatched, e.source.rows)
  {
    PartitionOrder(e.source.rows, e.common, KeySet(e.target.rows, e.common));
    PartitionPermutes(e.source.rows, e.common, KeySet(e.target.rows, e.common));
  }

  /**
   Repeating a target row changes nothing about the source split: the split
   only sees the target's distinct key tuples.
   */
  lemma DuplicateTargetRowsIgnored(e: Disaggregator, t: Row)
    requires Joinable(e) && t in e.target.rows
    ensures var e' := e.(target := Table(e.target.columns, e.target.rows + [t]));
            Joinable(e') && SourceSplit(e') == SourceSplit(e)
  {
    DuplicateKeysIgnored(e.target.rows, t, e.common);
  }

  /** With no valid source row the run returns no rows and every source row, in order, as an error. */
  lemma NothingValid(e: Disaggregator, policy: ZeroSumPolicy)
    requires Joinable(e)
    requires forall s :: s in e.source.rows ==> KeyOf(s, e.common) !in KeySet(e.target.rows, e.common)
    ensures Run(e, policy) == Ok(Outcome([], e.source.rows))
  {
    PartitionNone(e.source.rows, e.common, KeySet(e.target.rows, e.common));
  }

  /**
   The target filter keeps exactly the target rows whose key tuple occurs
   among the valid source rows.
   */
  lemma KeptTargetExact(e: Disaggregator)
    requires Joinable(e)
    ensures forall t :: t in KeptTarget(e) ==> t in e.target.rows
    ensures forall t :: t in e.target.rows ==>
              (t in KeptTarget(e) <==> KeyOf(t, e.common) in KeySet(SourceSplit(e).matched, e.common))
  {
    forall t | t in e.target.rows
      ensures t in KeptTarget(e) <==> KeyOf(t, e.common) in KeySet(SourceSplit(e).matched, e.common)
    {
      PartitionExact(e.target.rows, e.common, KeySet(SourceSplit(e).matched, e.common), t);
    }
  }

  /** A kept key group keeps the group total it has in the whole target. */
  lemma KeptTargetGroups(e: Disaggregator)
    requires Joinable(e)
    ensures forall k :: k in KeySet(SourceSplit(e).matched, e.common) ==>
              GroupSum(KeptTarget(e), e.common, k) == GroupSum(e.target.rows, e.common, k)
  {
    forall k | k in KeySet(SourceSplit(e).matched, e.common)
      ensures GroupSum(KeptTarget(e), e.common, k) == GroupSum(e.target.rows, e.common, k)
    {
      GroupSumOfMatched(e.target.rows, e.common, KeySet(SourceSplit(e).matched, e.common), k);
    }
  }

  /** The kept target rows are in target order. */
  lemma KeptTargetOrder(e: Disaggregator)
    requires Joinable(e)
    ensures IsSubsequence(KeptTarget(e), e.target.rows)
  {
    PartitionOrder(e.target.rows, e.common, KeySet(SourceSplit(e).matched, e.common));
  }

  /** Every valid source row finds its key among the kept target rows, with the target's group total. */
  lemma ValidKeysKept(e: Disaggregator)
    requires Joinable(e)
    ensures forall s :: s in SourceSplit(e).matched ==> KeyOf(s, e.common) in KeySet(KeptTarget(e), e.common)
    ensures forall s :: s in SourceSplit(e).matched ==> KeyOf(s, e.common) in KeySet(e.target.rows, e.common)
    ensures forall s :: s in SourceSplit(e).matched ==>
              GroupSum(KeptTarget(e), e.common, KeyOf(s, e.common)) == GroupSum(e.target.rows, e.common, KeyOf(s, e.common))
  {
    KeptTargetExact(e);
    KeptTargetGroups(e);
    forall s | s in SourceSplit(e).matched
      ensures KeyOf(s, e.common) in KeySet(KeptTarget(e), e.common)
    {
      var t :| t in e.target.rows && KeyOf(t, e.common) == KeyOf(s, e.common);
      assert t in KeptTarget(e);
    }
  }

  /**
   Every distributed row is a target row, unchanged, with a valid source row
   of its key: it carries that row's other key cells, and its value is the
   target row's weight within its whole target group times the source value.
   */
  lemma OutputRows(e: Disaggregator, policy: ZeroSumPolicy, o: OutRow)
    requires Joinable(e) && Run(e, policy).Ok? && o in Run(e, policy).value.ok
    ensures Declares(e.source, e.sourceKeys)
    ensures o.row in e.target.rows
    ensures exists s :: && s in e.source.rows
                        && KeyOf(s, e.common) == KeyOf(o.row, e.common)
                        && o.carried == KeyOf(s, Carried(e))
                        && o.disaggregated == Weight(o.row.value, GroupSum(e.target.rows, e.common, KeyOf(o.row, e.common)), policy) * s.value
  {
    var s := OutputSource(e, policy, o);
    assert Scale(Weight(o.row.value, GroupSum(e.target.rows, e.common, KeyOf(o.row, e.common)), policy), s.value)
        == Weight(o.row.value, GroupSum(e.target.rows, e.common, KeyOf(o.row, e.common)), policy) * s.value;
  }

  /** A valid source row that a distributed row was joined with. */
  lemma OutputSource(e: Disaggregator, policy: ZeroSumPolicy, o: OutRow) returns (s: Row)
    requires Joinable(e) && Run(e, policy).Ok? && o in Run(e, policy).value.ok
    ensures Declares(e.source, e.sourceKeys)
    ensures o.row in e.target.rows
    ensures && s in e.source.rows
            && KeyOf(s, e.common) == KeyOf(o.row, e.common)
            && o.carried == KeyOf(s, Carried(e))
            && o.disaggregated == Scale(Weight(o.row.value, GroupSum(e.target.rows, e.common, KeyOf(o.row, e.common)), policy), s.value)
  {
    var split := SourceSplit(e);
    var kept := KeptTarget(e);
    var ws := AttachWeights(kept, e.common, policy);
    DistributeRows(ws, split.matched, e.common, Carried(e), o);
    var i, r :| && 0 <= i < |ws| && r in split.matched && KeyOf(r, e.common) == ws[i].key
                && o == Joined(ws[i], r, Carried(e));
    s := r;
    KeptTargetExact(e);
    KeptTargetGroups(e);
    assert kept[i] in kept;
  }

  /**
   The join is complete: every target row meets every source row with the
   same key tuple, and the pair yields one distributed row.
   */
  lemma OutputCovers(e: Disaggregator, policy: ZeroSumPolicy, t: Row, s: Row)
    requires Joinable(e) && Run(e, policy).Ok?
    requires t in e.target.rows && s in e.source.rows && KeyOf(s, e.common) == KeyOf(t, e.common)
    ensures Declares(e.source, e.sourceKeys)
    ensures OutRow(t, KeyOf(s, Carried(e)),
                   Scale(Weight(t.value, GroupSum(e.target.rows, e.common, KeyOf(t, e.common)), policy), s.value))
            in Run(e, policy).value.ok
  {
    var split := SourceSplit(e);
    PartitionExact(e.source.rows, e.common, KeySet(e.target.rows, e.common), s);
    assert s in split.matched;
    var kept := KeptTarget(e);
    KeptTargetExact(e);
    KeptTargetGroups(e);
    assert t in kept;
    var i :| 0 <= i < |kept| && kept[i] == t;
    var ws := AttachWeights(kept, e.common, policy);
    DistributeCovers(ws, split.matched, e.common, Carried(e), i, s);
  }

  lemma ScaleOne(t: real, x: real)
    requires t == 1.0
    ensures Scale(t, x) == x
  {
  }

  /**
   Per key group: when a target group's total is non-zero, the rows
   distributed over it add up to the source total of that key.
   */
  lemma GroupConservation(e: Disaggregator, policy: ZeroSumPolicy, k: Key)
    requires Joinable(e) && Run(e, policy).Ok?
    requires k in KeySet(e.target.rows, e.common) && GroupSum(e.target.rows, e.common, k) != 0.0
    ensures forall o :: o in Run(e, policy).value.ok ==> HasColumns(o.row, e.common)
    ensures OutGroupTotal(Run(e, policy).value.ok, e.common, k) == GroupSum(e.source.rows, e.common, k)
  {
    var split := SourceSplit(e);
    GroupSumOfMatched(e.source.rows, e.common, KeySet(e.target.rows, e.common), k);
    if split.matched != [] {
      var kept := KeptTarget(e);
      var ws := AttachWeights(kept, e.common, policy);
      WeighAgainstKeyed(kept, e.common, kept, policy);
      GroupOfDistribute(ws, split.matched, e.common, Carried(e), k);
      GroupDistributed(ws, split.matched, e.common, Carried(e), k);
      GroupWeightsNormalise(kept, e.common, k, policy);
      if k in KeySet(split.matched, e.common) {
        KeptTargetExact(e);
        KeptTargetGroups(e);
        ScaleOne(WeightTotal(ws, k), GroupSum(split.matched, e.common, k));
      } else {
        GroupSumAbsent(split.matched, e.common, k);
        ZeroProduct(WeightTotal(ws, k), GroupSum(split.matched, e.common, k));
      }
    }
  }

  /**
   Where the source total goes: distributed rows, error rows, and the value
   of valid source rows whose target group totals zero. Of construction it
   needs only the source total taken then.
   */
  lemma Reconciliation(e: Disaggregator, policy: ZeroSumPolicy)
    requires e.sourceTotal == Sum(e.source.rows) && Joinable(e) && Run(e, policy).Ok?
    ensures e.sourceTotal == OutTotal(Run(e, policy).value.ok) + Sum(Run(e, policy).value.errors)
                           + ZeroGroupValue(e.source.rows, e.target.rows, e.common)
    ensures Difference(e, Run(e, policy).value) == ZeroGroupValue(e.source.rows, e.target.rows, e.common)
  {
    var split := SourceSplit(e);
    PartitionSum(e.source.rows, e.common, KeySet(e.target.rows, e.common));
    ZeroGroupValueOfMatched(e.source.rows, e.target.rows, e.common);
    if split.matched != [] {
      var kept := KeptTarget(e);
      var ws := AttachWeights(kept, e.common, policy);
      DistributedTotal(ws, split.matched, e.common, Carried(e));
      ValidKeysKept(e);
      NormalisedShare(split.matched, kept, e.common, policy);
      ZeroGroupValueCongruent(split.matched, kept, e.target.rows, e.common);
    }
  }

  /**
   Conservation: when every valid source row's target group has a non-zero
   total, the reported difference is zero.
   */
  lemma Conservation(e: Disaggregator, policy: ZeroSumPolicy)
    requires e.sourceTotal == Sum(e.source.rows) && Joinable(e) && Run(e, policy).Ok?
    requires forall s :: s in e.source.rows && KeyOf(s, e.common) in KeySet(e.target.rows, e.common)
                         ==> GroupSum(e.target.rows, e.common, KeyOf(s, e.common)) != 0.0
    ensures Difference(e, Run(e, policy).value) == 0.0
    ensures e.sourceTotal == OutTotal(Run(e, policy).value.ok) + Sum(Run(e, policy).value.errors)
  {
    Reconciliation(e, policy);
    ZeroGroupValueNone(e.source.rows, e.target.rows, e.common);
  }
}
