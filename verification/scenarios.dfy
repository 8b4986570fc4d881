/**
 Worked runs of the engine on small tables, including the one that shows
 why conservation needs non-zero target groups.
 */
module Scenarios {
  import opened Tables
  import opened Keys
  import opened Matcher
  import opened Weights
  import opened Distribution
  import opened Reconcile
  import opened Engine

  function RegionRow(region: string, value: real): Row {
    Row(map["region" := Text(region)], value)
  }

  function ItemRow(region: string, item: string, value: real): Row {
    Row(map["region" := Text(region), "item" := Text(item)], value)
  }

  function Regions(rows: seq<Row>): Table {
    Table({"region"}, rows)
  }

  function Items(rows: seq<Row>): Table {
    Table({"region", "item"}, rows)
  }

  /** Both kinds of example row are keyed by their region. */
  lemma ExampleKeys(region: string, item: string, v: real)
    ensures HasColumns(RegionRow(region, v), ["region"]) && HasColumns(ItemRow(region, item, v), ["region"])
    ensures KeyOf(RegionRow(region, v), ["region"]) == [Text(region)]
    ensures KeyOf(ItemRow(region, item, v), ["region"]) == [Text(region)]
  {
  }

  lemma PartitionOne(r: Row, ks: seq<Column>, present: set<Key>)
    requires HasColumns(r, ks)
    ensures AllHave([r], ks)
    ensures Partition([r], ks, present)
         == if KeyOf(r, ks) in present then Split([r], []) else Split([], [r])
  {
    assert [r][1..] == [];
  }

  lemma PartitionPair(r: Row, s: Row, ks: seq<Column>, present: set<Key>)
    requires HasColumns(r, ks) && HasColumns(s, ks)
    ensures AllHave([r, s], ks)
    ensures Partition([r, s], ks, present)
         == Split(Partition([r], ks, present).matched + Partition([s], ks, present).matched,
                  Partition([r], ks, present).unmatched + Partition([s], ks, present).unmatched)
  {
    assert [r] + [s] == [r, s];
    PartitionAppend([r], [s], ks, present);
  }

  lemma KeySetPair(r: Row, s: Row, ks: seq<Column>)
    requires HasColumns(r, ks) && HasColumns(s, ks)
    ensures AllHave([r, s], ks) && AllHave([r], ks)
    ensures KeySet([r], ks) == {KeyOf(r, ks)}
    ensures KeySet([r, s], ks) == {KeyOf(r, ks), KeyOf(s, ks)}
  {
    assert forall t :: t in [r, s] <==> t == r || t == s;
  }

  lemma GroupSumPair(r: Row, s: Row, ks: seq<Column>, k: Key)
    requires HasColumns(r, ks) && HasColumns(s, ks)
    ensures AllHave([r, s], ks)
    ensures GroupSum([r, s], ks, k)
         == (if KeyOf(r, ks) == k then r.value else 0.0) + (if KeyOf(s, ks) == k then s.value else 0.0)
  {
    assert [r, s][1..] == [s];
    assert [s][1..] == [];
    assert GroupSum([s], ks, k) == (if KeyOf(s, ks) == k then s.value else 0.0) + GroupSum([], ks, k);
  }

  /** Two rows of one key: both are kept against that key, and that key is all they carry. */
  lemma SameKeyPair(x: Row, y: Row, ks: seq<Column>, k: Key)
    requires HasColumns(x, ks) && HasColumns(y, ks)
    requires KeyOf(x, ks) == k && KeyOf(y, ks) == k
    ensures AllHave([x, y], ks)
    ensures KeySet([x, y], ks) == {k}
    ensures Partition([x, y], ks, {k}) == Split([x, y], [])
  {
    KeySetPair(x, y, ks);
    PartitionOne(x, ks, {k});
    PartitionOne(y, ks, {k});
    PartitionPair(x, y, ks, {k});
  }

  /** A row of key `k` followed by a row of another key splits into one of each. */
  lemma MixedKeyPair(a: Row, b: Row, ks: seq<Column>, k: Key)
    requires HasColumns(a, ks) && HasColumns(b, ks)
    requires KeyOf(a, ks) == k && KeyOf(b, ks) != k
    ensures AllHave([a, b], ks)
    ensures Partition([a, b], ks, {k}) == Split([a], [b])
  {
    PartitionOne(a, ks, {k});
    PartitionOne(b, ks, {k});
    PartitionPair(a, b, ks, {k});
  }

  /** Items x (30) and y (10) of region A weigh 0.75 and 0.25 of its total 40. */
  lemma EndToEndWeights(policy: ZeroSumPolicy)
    ensures AttachWeights([ItemRow("A", "x", 30.0), ItemRow("A", "y", 10.0)], ["region"], policy)
         == [Weighted(ItemRow("A", "x", 30.0), [Text("A")], 40.0, 0.75),
             Weighted(ItemRow("A", "y", 10.0), [Text("A")], 40.0, 0.25)]
  {
    var x, y := ItemRow("A", "x", 30.0), ItemRow("A", "y", 10.0);
    ExampleKeys("A", "x", 30.0);
    ExampleKeys("A", "y", 10.0);
    GroupSumPair(x, y, ["region"], [Text("A")]);
  }

  /** The single region-A source row joins every target row keyed by region A. */
  lemma JoinRegionA(w: Weighted)
    requires w.key == [Text("A")]
    ensures JoinSource(w, [RegionRow("A", 100.0)], ["region"], []) == [OutRow(w.row, [], Scale(w.weight, 100.0))]
  {
    ExampleKeys("A", "", 100.0);
    PartitionOne(RegionRow("A", 100.0), ["region"], {w.key});
  }

  lemma EndToEndJoin(v: Weighted, w: Weighted)
    requires v.key == [Text("A")] && w.key == [Text("A")]
    ensures Distribute([v, w], [RegionRow("A", 100.0)], ["region"], [])
         == [OutRow(v.row, [], Scale(v.weight, 100.0)), OutRow(w.row, [], Scale(w.weight, 100.0))]
  {
    var src := [RegionRow("A", 100.0)];
    JoinRegionA(v);
    JoinRegionA(w);
    assert [v, w][1..] == [w];
    assert [w][1..] == [];
    assert Distribute([w], src, ["region"], []) == JoinSource(w, src, ["region"], []) + [];
  }

  /** Region A holds 100 at the region level. */
  function RegionSource(): Table {
    Regions([RegionRow("A", 100.0)])
  }

  /** Region A splits into items x (30) and y (10). */
  function ItemTarget(): Table {
    Items([ItemRow("A", "x", 30.0), ItemRow("A", "y", 10.0)])
  }

  /** The engine built on the region example: region is the only join key. */
  lemma RegionEngine()
    ensures New(RegionSource(), ItemTarget(), ["region"], ["region", "item"])
         == Ok(Disaggregator(RegionSource(), ItemTarget(), ["region"], ["region", "item"], ["region"], 100.0))
  {
    assert CommonKeys(["region"], ["region", "item"]) == ["region"];
    assert [RegionRow("A", 100.0)][1..] == [];
  }

  /** Both tables of the region example carry the join key on every row. */
  lemma EndToEndJoinable(e: Disaggregator)
    requires e == Disaggregator(RegionSource(), ItemTarget(), ["region"], ["region", "item"], ["region"], 100.0)
    ensures Joinable(e) && Carried(e) == []
  {
    assert CarriedKeys(["region"], ["region"]) == [];
  }

  /** On the region example, the source row is valid and both target rows are kept. */
  lemma EndToEndSetup(e: Disaggregator)
    requires e == Disaggregator(RegionSource(), ItemTarget(), ["region"], ["region", "item"], ["region"], 100.0)
    requires Joinable(e)
    ensures SourceSplit(e) == Split([RegionRow("A", 100.0)], [])
    ensures KeptTarget(e) == [ItemRow("A", "x", 30.0), ItemRow("A", "y", 10.0)]
  {
    var a, x, y := RegionRow("A", 100.0), ItemRow("A", "x", 30.0), ItemRow("A", "y", 10.0);
    var ks, kA := ["region"], [Text("A")];
    ExampleKeys("A", "", 100.0);
    ExampleKeys("A", "x", 30.0);
    ExampleKeys("A", "y", 10.0);
    SameKeyPair(x, y, ks, kA);
    SameKeyPair(a, a, ks, kA);
    PartitionOne(a, ks, {kA});
  }

  /**
   Region A holds 100 in the source and items x (30) and y (10) in the
   target: the weights are 0.75 and 0.25, so x receives 75 and y 25, with no
   error rows, whatever the zero-total policy.
   */
  lemma EndToEnd(policy: ZeroSumPolicy)
    ensures var r := New(RegionSource(), ItemTarget(), ["region"], ["region", "item"]);
            && r.Ok?
            && Run(r.value, policy) == Ok(Outcome([OutRow(ItemRow("A", "x", 30.0), [], 75.0),
                                                   OutRow(ItemRow("A", "y", 10.0), [], 25.0)], []))
  {
    RegionEngine();
    var e := Disaggregator(RegionSource(), ItemTarget(), ["region"], ["region", "item"], ["region"], 100.0);
    EndToEndJoinable(e);
    EndToEndSetup(e);
    EndToEndWeights(policy);
    EndToEndJoin(Weighted(ItemRow("A", "x", 30.0), [Text("A")], 40.0, 0.75),
                 Weighted(ItemRow("A", "y", 10.0), [Text("A")], 40.0, 0.25));
    assert Scale(0.75, 100.0) == 75.0 && Scale(0.25, 100.0) == 25.0;
  }

  /** Region B has no target row: its source row is reported as an error row. */
  function TwoRegionSource(): Table {
    Regions([RegionRow("A", 100.0), RegionRow("B", 50.0)])
  }

  lemma TwoRegionEngine()
    ensures New(TwoRegionSource(), ItemTarget(), ["region"], ["region", "item"])
         == Ok(Disaggregator(TwoRegionSource(), ItemTarget(), ["region"], ["region", "item"], ["region"], 150.0))
  {
    assert CommonKeys(["region"], ["region", "item"]) == ["region"];
    var src := [RegionRow("A", 100.0), RegionRow("B", 50.0)];
    assert src[1..] == [RegionRow("B", 50.0)];
    assert [RegionRow("B", 50.0)][1..] == [];
  }

  lemma TwoRegionJoinable(e: Disaggregator)
    requires e == Disaggregator(TwoRegionSource(), ItemTarget(), ["region"], ["region", "item"], ["region"], 150.0)
    ensures Joinable(e)
  {
  }

  /** The two-region source splits into the valid region A row and the region B error row. */
  lemma TwoRegionSplit(e: Disaggregator)
    requires e == Disaggregator(TwoRegionSource(), ItemTarget(), ["region"], ["region", "item"], ["region"], 150.0)
    requires Joinable(e)
    ensures SourceSplit(e) == Split([RegionRow("A", 100.0)], [RegionRow("B", 50.0)])
    ensures KeySet(e.target.rows, e.common) == {[Text("A")]}
    ensures GroupSum(e.target.rows, e.common, [Text("A")]) == 40.0
  {
    var a, b := RegionRow("A", 100.0), RegionRow("B", 50.0);
    var x, y := ItemRow("A", "x", 30.0), ItemRow("A", "y", 10.0);
    var ks, kA := ["region"], [Text("A")];
    ExampleKeys("A", "", 100.0);
    ExampleKeys("B", "", 50.0);
    ExampleKeys("A", "x", 30.0);
    ExampleKeys("A", "y", 10.0);
    SameKeyPair(x, y, ks, kA);
    MixedKeyPair(a, b, ks, kA);
    GroupSumPair(x, y, ks, kA);
  }

  /**
   With region B missing from the target, the run keeps the region B row as
   its only error row, and the difference it reports is zero: what is not
   distributed is accounted for among the errors.
   */
  lemma UnmatchedExample(policy: ZeroSumPolicy)
    ensures var r := New(TwoRegionSource(), ItemTarget(), ["region"], ["region", "item"]);
            && r.Ok? && Run(r.value, policy).Ok?
            && Run(r.value, policy).value.errors == [RegionRow("B", 50.0)]
            && Difference(r.value, Run(r.value, policy).value) == 0.0
  {
    TwoRegionEngine();
    var e := Disaggregator(TwoRegionSource(), ItemTarget(), ["region"], ["region", "item"], ["region"], 150.0);
    TwoRegionJoinable(e);
    TwoRegionSplit(e);
    ExampleKeys("A", "", 100.0);
    ExampleKeys("B", "", 50.0);
    Conservation(e, policy);
  }

  /** Region A splits into items whose values cancel out: 5 and -5. */
  function CancellingTarget(): Table {
    Items([ItemRow("A", "x", 5.0), ItemRow("A", "y", -5.0)])
  }

  function SmallSource(): Table {
    Regions([RegionRow("A", 10.0)])
  }

  lemma CancellingEngine()
    ensures New(SmallSource(), CancellingTarget(), ["region"], ["region", "item"])
         == Ok(Disaggregator(SmallSource(), CancellingTarget(), ["region"], ["region", "item"], ["region"], 10.0))
  {
    assert CommonKeys(["region"], ["region", "item"]) == ["region"];
    assert [RegionRow("A", 10.0)][1..] == [];
  }

  /** The target group of region A totals zero, so the region's whole source value is in a zero group. */
  lemma CancellingGroup(e: Disaggregator)
    requires e == Disaggregator(SmallSource(), CancellingTarget(), ["region"], ["region", "item"], ["region"], 10.0)
    ensures Joinable(e)
    ensures ZeroGroupValue(e.source.rows, e.target.rows, e.common) == 10.0
  {
    var a := RegionRow("A", 10.0);
    var x, y := ItemRow("A", "x", 5.0), ItemRow("A", "y", -5.0);
    var ks, kA := ["region"], [Text("A")];
    ExampleKeys("A", "", 10.0);
    ExampleKeys("A", "x", 5.0);
    ExampleKeys("A", "y", -5.0);
    KeySetPair(x, y, ks);
    GroupSumPair(x, y, ks, kA);
    assert [a][1..] == [];
  }

  /**
   When the target values of a region cancel out, the run succeeds but its
   difference is the region's whole source value, under either zero-total
   policy: conservation needs every matched target group to be non-zero.
   */
  lemma ZeroGroupExample(policy: ZeroSumPolicy)
    ensures var r := New(SmallSource(), CancellingTarget(), ["region"], ["region", "item"]);
            && r.Ok? && Run(r.value, policy).Ok?
            && Difference(r.value, Run(r.value, policy).value) == 10.0
  {
    CancellingEngine();
    var e := Disaggregator(SmallSource(), CancellingTarget(), ["region"], ["region", "item"], ["region"], 10.0);
    CancellingGroup(e);
    RunFailsIff(e, policy);
    Reconciliation(e, policy);
  }
}
