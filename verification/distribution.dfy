/**
 The distribution step: the weighted target rows are joined with the valid
 source rows on the join keys, and each joined row receives its weight
 times the source value (`valor_desdobrado`). The helper columns (group
 total, weight, source value) are not part of an output row.
 */
module Distribution {
  import opened Tables
  import opened Weights
  import opened Matcher

  /**
   An output row: the target row with its columns and value unchanged, the
   cells of the source key columns the join carries over, and the
   disaggregated value.
   */
  datatype OutRow = OutRow(row: Row, carried: Key, disaggregated: real)

  /** Total of the disaggregated values. */
  function OutTotal(out: seq<OutRow>): real {
    if out == [] then 0.0 else out[0].disaggregated + OutTotal(out[1..])
  }

  lemma {:induction false} OutTotalAppend(a: seq<OutRow>, b: seq<OutRow>)
    ensures OutTotal(a + b) == OutTotal(a) + OutTotal(b)
  {
    if a == [] {
      assert a + b == b;
    } else {
      var tail := a[1..];
      assert (a + b)[1..] == tail + b;
      OutTotalAppend(tail, b);
    }
  }

  /**
   `factor * x`, named so that equal arguments give equal products without
   arithmetic reasoning.
   */
  function Scale(factor: real, x: real): real {
    factor * x
  }

  /** The output row joining weighted target row `w` with source row `s`. */
  function Joined(w: Weighted, s: Row, carried: seq<Column>): OutRow
    requires HasColumns(s, carried)
  {
    OutRow(w.row, KeyOf(s, carried), Scale(w.weight, s.value))
  }

  /** `w` joined with each of `rows`, in order. */
  function Attach(w: Weighted, rows: seq<Row>, carried: seq<Column>): seq<OutRow>
    requires AllHave(rows, carried)
  {
    seq(|rows|, i requires 0 <= i < |rows| => Joined(w, rows[i], carried))
  }

  /** The rows attached to `w` total its weight times their total. */
  lemma {:induction false} AttachTotal(w: Weighted, rows: seq<Row>, carried: seq<Column>)
    requires AllHave(rows, carried)
    ensures OutTotal(Attach(w, rows, carried)) == Scale(w.weight, Sum(rows))
  {
    if rows != [] {
      var tail := rows[1..];
      AttachTotal(w, tail, carried);
      var out := Attach(w, rows, carried);
      assert out[1..] == Attach(w, tail, carried);
      calc {
        OutTotal(out);
        Scale(w.weight, rows[0].value) + Scale(w.weight, Sum(tail));
        { ScaleAdd(w.weight, rows[0].value, Sum(tail)); }
        Scale(w.weight, Sum(rows));
      }
    }
  }

  /**
   The rows the join produces for one weighted target row: one per source
   row with the same key tuple, in source order.
   */
  function JoinSource(w: Weighted, src: seq<Row>, common: seq<Column>, carried: seq<Column>): seq<OutRow>
    requires AllHave(src, common) && AllHave(src, carried)
  {
    Attach(w, Partition(src, common, {w.key}).matched, carried)
  }

  /** The rows joined to one target row total its weight times the source total of its key. */
  lemma JoinSourceTotal(w: Weighted, src: seq<Row>, common: seq<Column>, carried: seq<Column>)
    requires AllHave(src, common) && AllHave(src, carried)
    ensures OutTotal(JoinSource(w, src, common, carried)) == Contribution(w, src, common)
  {
    var m := Partition(src, common, {w.key}).matched;
    AttachTotal(w, m, carried);
    SumOfKeyGroup(src, common, w.key);
  }

  /**
   The join: for each weighted target row in order, its joined rows in
   source order.
   */
  function Distribute(ws: seq<Weighted>, src: seq<Row>, common: seq<Column>, carried: seq<Column>): seq<OutRow>
    requires AllHave(src, common) && AllHave(src, carried)
  {
    if ws == [] then []
    else JoinSource(ws[0], src, common, carried) + Distribute(ws[1..], src, common, carried)
  }

  /**
   Every output row is a weighted target row's row, unchanged, joined with a
   source row of the same key tuple.
   */
  lemma {:induction false} DistributeRows(ws: seq<Weighted>, src: seq<Row>, common: seq<Column>, carried: seq<Column>, o: OutRow)
    requires AllHave(src, common) && AllHave(src, carried)
    requires o in Distribute(ws, src, common, carried)
    ensures exists i, s :: 0 <= i < |ws| && s in src && KeyOf(s, common) == ws[i].key && o == Joined(ws[i], s, carried)
  {
    var first := JoinSource(ws[0], src, common, carried);
    var tail := ws[1..];
    assert Distribute(ws, src, common, carried) == first + Distribute(tail, src, common, carried);
    if o in first {
      var m := Partition(src, common, {ws[0].key}).matched;
      var j :| 0 <= j < |first| && first[j] == o;
      assert m[j] in m;
      assert KeyOf(m[j], common) == ws[0].key;
    } else {
      DistributeRows(tail, src, common, carried, o);
      var i, s :| 0 <= i < |tail| && s in src && KeyOf(s, common) == tail[i].key && o == Joined(tail[i], s, carried);
      assert tail[i] == ws[i + 1];
    }
  }

  /**
   Every weighted target row is joined with every source row of its key.
   `Distribute` is an inner join per target row: a target row without a
   source row of its key yields nothing. The source's left merge agrees
   with it because the target filter only keeps target rows whose key
   occurs among the valid source rows.
   */
  lemma {:induction false} DistributeCovers(ws: seq<Weighted>, src: seq<Row>, common: seq<Column>, carried: seq<Column>, i: int, s: Row)
    requires AllHave(src, common) && AllHave(src, carried)
    requires 0 <= i < |ws| && s in src && KeyOf(s, common) == ws[i].key
    ensures Joined(ws[i], s, carried) in Distribute(ws, src, common, carried)
  {
    var first := JoinSource(ws[0], src, common, carried);
    var tail := ws[1..];
    assert Distribute(ws, src, common, carried) == first + Distribute(tail, src, common, carried);
    if i == 0 {
      var m := Partition(src, common, {ws[0].key}).matched;
      PartitionExact(src, common, {ws[0].key}, s);
      var j :| 0 <= j < |m| && m[j] == s;
      assert first[j] == Joined(ws[0], s, carried);
    } else {
      assert tail[i - 1] == ws[i];
      DistributeCovers(tail, src, common, carried, i - 1, s);
    }
  }

  /** Number of (target row, source row) pairs with the same key tuple. */
  function PairCount(ws: seq<Weighted>, src: seq<Row>, common: seq<Column>): nat
    requires AllHave(src, common)
  {
    if ws == [] then 0 else GroupCount(src, common, ws[0].key) + PairCount(ws[1..], src, common)
  }

  /** The join yields exactly one output row per same-key pair: nothing is dropped or duplicated. */
  lemma {:induction false} DistributeSize(ws: seq<Weighted>, src: seq<Row>, common: seq<Column>, carried: seq<Column>)
    requires AllHave(src, common) && AllHave(src, carried)
    ensures |Distribute(ws, src, common, carried)| == PairCount(ws, src, common)
  {
    if ws != [] {
      DistributeSize(ws[1..], src, common, carried);
      CountOfKeyGroup(src, common, ws[0].key);
    }
  }

  /** A target row's weight times the source total of its key. */
  function Contribution(w: Weighted, src: seq<Row>, common: seq<Column>): real
    requires AllHave(src, common)
  {
    Scale(w.weight, GroupSum(src, common, w.key))
  }

  /** Sum of the contributions of the target rows. */
  function TargetShare(ws: seq<Weighted>, src: seq<Row>, common: seq<Column>): real
    requires AllHave(src, common)
  {
    if ws == [] then 0.0 else Contribution(ws[0], src, common) + TargetShare(ws[1..], src, common)
  }

  /** A source row's value times the total weight of its key among the target rows. */
  function Received(s: Row, ws: seq<Weighted>, common: seq<Column>): real
    requires HasColumns(s, common)
  {
    Scale(s.value, WeightTotal(ws, KeyOf(s, common)))
  }

  /** Sum over the source rows of what each receives. */
  function SourceShare(src: seq<Row>, ws: seq<Weighted>, common: seq<Column>): real
    requires AllHave(src, common)
  {
    if src == [] then 0.0 else Received(src[0], ws, common) + SourceShare(src[1..], ws, common)
  }

  /** The join's total, summed over target rows. */
  lemma {:induction false} DistributeTotal(ws: seq<Weighted>, src: seq<Row>, common: seq<Column>, carried: seq<Column>)
    requires AllHave(src, common) && AllHave(src, carried)
    ensures OutTotal(Distribute(ws, src, common, carried)) == TargetShare(ws, src, common)
  {
    if ws != [] {
      var tail := ws[1..];
      DistributeTotal(tail, src, common, carried);
      JoinSourceTotal(ws[0], src, common, carried);
      OutTotalAppend(JoinSource(ws[0], src, common, carried), Distribute(tail, src, common, carried));
    }
  }

  /** Adding one target row in front adds its contribution. */
  lemma {:induction false} SourceShareCons(src: seq<Row>, w: Weighted, ws: seq<Weighted>, common: seq<Column>)
    requires AllHave(src, common)
    ensures SourceShare(src, [w] + ws, common) == Contribution(w, src, common) + SourceShare(src, ws, common)
  {
    if src != [] {
      var tail := src[1..];
      var v, k := src[0].value, KeyOf(src[0], common);
      var t, g := WeightTotal(ws, k), GroupSum(tail, common, w.key);
      SourceShareCons(tail, w, ws, common);
      assert ([w] + ws)[0] == w && ([w] + ws)[1..] == ws;
      if w.key == k {
        calc {
          SourceShare(src, [w] + ws, common);
          Scale(v, w.weight + t) + SourceShare(tail, [w] + ws, common);
          { ScaleAdd(v, w.weight, t); }
          Scale(v, w.weight) + Scale(v, t) + Scale(w.weight, g) + SourceShare(tail, ws, common);
          { ScaleAdd(w.weight, v, g); }
          Scale(w.weight, v + g) + (Scale(v, t) + SourceShare(tail, ws, common));
          Contribution(w, src, common) + SourceShare(src, ws, common);
        }
      } else {
        calc {
          SourceShare(src, [w] + ws, common);
          Scale(v, t) + SourceShare(tail, [w] + ws, common);
          Scale(w.weight, g) + (Scale(v, t) + SourceShare(tail, ws, common));
          Contribution(w, src, common) + SourceShare(src, ws, common);
        }
      }
    }
  }

  /** Scaling distributes over a sum on either side, and its arguments commute. */
  lemma ScaleAdd(a: real, x: real, y: real)
    ensures Scale(a, x + y) == Scale(a, x) + Scale(a, y)
    ensures Scale(x + y, a) == Scale(x, a) + Scale(y, a)
    ensures Scale(a, x) == Scale(x, a)
  {
  }

  lemma {:induction false} SourceShareEmpty(src: seq<Row>, common: seq<Column>)
    requires AllHave(src, common)
    ensures SourceShare(src, [], common) == 0.0
  {
    if src != [] {
      var tail := src[1..];
      SourceShareEmpty(tail, common);
      ZeroProduct(src[0].value, WeightTotal([], KeyOf(src[0], common)));
    }
  }

  lemma ZeroProduct(a: real, b: real)
    requires b == 0.0
    ensures Scale(a, b) == 0.0
  {
  }

  /** Regrouping the join's sum by source rows instead of target rows. */
  lemma {:induction false} ShareSwap(ws: seq<Weighted>, src: seq<Row>, common: seq<Column>)
    requires AllHave(src, common)
    ensures TargetShare(ws, src, common) == SourceShare(src, ws, common)
  {
    if ws == [] {
      SourceShareEmpty(src, common);
    } else {
      var tail := ws[1..];
      ShareSwap(tail, src, common);
      assert ws == [ws[0]] + tail;
      SourceShareCons(src, ws[0], tail, common);
    }
  }

  /**
   The distributed total: each source row contributes its value times the
   total weight of its key group among the target rows.
   */
  lemma DistributedTotal(ws: seq<Weighted>, src: seq<Row>, common: seq<Column>, carried: seq<Column>)
    requires AllHave(src, common) && AllHave(src, carried)
    ensures OutTotal(Distribute(ws, src, common, carried)) == SourceShare(src, ws, common)
  {
    DistributeTotal(ws, src, common, carried);
    ShareSwap(ws, src, common);
  }

  /** The weighted target rows of one key group. */
  function InGroup(ws: seq<Weighted>, k: Key): (g: seq<Weighted>)
    ensures forall w :: w in g <==> w in ws && w.key == k
  {
    if ws == [] then []
    else
      var rest := InGroup(ws[1..], k);
      assert ws == [ws[0]] + ws[1..];
      if ws[0].key == k then [ws[0]] + rest else rest
  }

  /**
   The output rows of one key group total the group's weight times the
   source total of that key.
   */
  lemma GroupDistributed(ws: seq<Weighted>, src: seq<Row>, common: seq<Column>, carried: seq<Column>, k: Key)
    requires AllHave(src, common) && AllHave(src, carried)
    ensures OutTotal(Distribute(InGroup(ws, k), src, common, carried)) == Scale(WeightTotal(ws, k), GroupSum(src, common, k))
  {
    DistributeTotal(InGroup(ws, k), src, common, carried);
    GroupShare(ws, src, common, k);
  }

  lemma {:induction false} GroupShare(ws: seq<Weighted>, src: seq<Row>, common: seq<Column>, k: Key)
    requires AllHave(src, common)
    ensures TargetShare(InGroup(ws, k), src, common) == Scale(WeightTotal(ws, k), GroupSum(src, common, k))
  {
    if ws != [] {
      var tail := ws[1..];
      var g := GroupSum(src, common, k);
      GroupShare(tail, src, common, k);
      if ws[0].key == k {
        assert InGroup(ws, k) == [ws[0]] + InGroup(tail, k);
        assert ([ws[0]] + InGroup(tail, k))[1..] == InGroup(tail, k);
        calc {
          TargetShare(InGroup(ws, k), src, common);
          Scale(ws[0].weight, g) + Scale(WeightTotal(tail, k), g);
          { ScaleAdd(g, ws[0].weight, WeightTotal(tail, k)); }
          Scale(WeightTotal(ws, k), g);
        }
      } else {
        assert InGroup(ws, k) == InGroup(tail, k);
        assert WeightTotal(ws, k) == WeightTotal(tail, k);
      }
    }
  }

  /** Total of the output rows whose target row has key tuple `k`. */
  function OutGroupTotal(out: seq<OutRow>, common: seq<Column>, k: Key): real
    requires forall o :: o in out ==> HasColumns(o.row, common)
  {
    if out == [] then 0.0
    else (if KeyOf(out[0].row, common) == k then out[0].disaggregated else 0.0) + OutGroupTotal(out[1..], common, k)
  }

  lemma {:induction false} OutGroupTotalAppend(a: seq<OutRow>, b: seq<OutRow>, common: seq<Column>, k: Key)
    requires forall o :: o in a ==> HasColumns(o.row, common)
    requires forall o :: o in b ==> HasColumns(o.row, common)
    ensures forall o :: o in a + b ==> HasColumns(o.row, common)
    ensures OutGroupTotal(a + b, common, k) == OutGroupTotal(a, common, k) + OutGroupTotal(b, common, k)
  {
    if a != [] {
      var tail := a[1..];
      assert (a + b)[1..] == tail + b;
      OutGroupTotalAppend(tail, b, common, k);
    } else {
      assert a + b == b;
    }
  }

  /** Rows that all belong to one target row count wholly to its key tuple or not at all. */
  lemma {:induction false} OutGroupTotalOfOneRow(out: seq<OutRow>, r: Row, common: seq<Column>, k: Key)
    requires HasColumns(r, common)
    requires forall o :: o in out ==> o.row == r
    ensures OutGroupTotal(out, common, k) == if KeyOf(r, common) == k then OutTotal(out) else 0.0
  {
    if out != [] {
      var tail := out[1..];
      assert forall o :: o in tail ==> o in out;
      OutGroupTotalOfOneRow(tail, r, common, k);
    }
  }

  /** The output rows whose target row has key tuple `k`, in order. */
  function OutGroup(out: seq<OutRow>, common: seq<Column>, k: Key): seq<OutRow> {
    if out == [] then []
    else (if HasColumns(out[0].row, common) && KeyOf(out[0].row, common) == k then [out[0]] else [])
         + OutGroup(out[1..], common, k)
  }

  lemma {:induction false} OutGroupAppend(a: seq<OutRow>, b: seq<OutRow>, common: seq<Column>, k: Key)
    ensures OutGroup(a + b, common, k) == OutGroup(a, common, k) + OutGroup(b, common, k)
  {
    if a != [] {
      var tail := a[1..];
      assert (a + b)[1..] == tail + b;
      OutGroupAppend(tail, b, common, k);
    } else {
      assert a + b == b;
    }
  }

  /** Rows that all belong to one target row are selected all together or not at all. */
  lemma {:induction false} OutGroupOfOneRow(out: seq<OutRow>, r: Row, common: seq<Column>, k: Key)
    requires HasColumns(r, common)
    requires forall o :: o in out ==> o.row == r
    ensures OutGroup(out, common, k) == if KeyOf(r, common) == k then out else []
  {
    if out != [] {
      var tail := out[1..];
      assert forall o :: o in tail ==> o in out;
      OutGroupOfOneRow(tail, r, common, k);
      assert out == [out[0]] + tail;
    }
  }

  /** Every row joined to `w` carries `w`'s target row. */
  lemma JoinSourceRows(w: Weighted, src: seq<Row>, common: seq<Column>, carried: seq<Column>)
    requires AllHave(src, common) && AllHave(src, carried)
    ensures forall o :: o in JoinSource(w, src, common, carried) ==> o.row == w.row
  {
  }

  lemma DistributeKeyed(ws: seq<Weighted>, src: seq<Row>, common: seq<Column>, carried: seq<Column>)
    requires AllHave(src, common) && AllHave(src, carried)
    requires KeyedBy(ws, common)
    ensures forall o :: o in Distribute(ws, src, common, carried) ==> HasColumns(o.row, common)
  {
    forall o | o in Distribute(ws, src, common, carried)
      ensures HasColumns(o.row, common)
    {
      DistributeRows(ws, src, common, carried, o);
      var i, s :| 0 <= i < |ws| && s in src && KeyOf(s, common) == ws[i].key && o == Joined(ws[i], s, carried);
      assert ws[i] in ws;
    }
  }

  /**
   Selecting the output rows of one key group is the same as joining only
   the weighted target rows of that group, so the two have the same total.
   */
  lemma {:induction false} GroupOfDistribute(ws: seq<Weighted>, src: seq<Row>, common: seq<Column>, carried: seq<Column>, k: Key)
    requires AllHave(src, common) && AllHave(src, carried)
    requires KeyedBy(ws, common)
    ensures forall o :: o in Distribute(ws, src, common, carried) ==> HasColumns(o.row, common)
    ensures OutGroup(Distribute(ws, src, common, carried), common, k) == Distribute(InGroup(ws, k), src, common, carried)
    ensures OutGroupTotal(Distribute(ws, src, common, carried), common, k)
         == OutTotal(Distribute(InGroup(ws, k), src, common, carried))
  {
    DistributeKeyed(ws, src, common, carried);
    if ws != [] {
      var tail := ws[1..];
      var first := JoinSource(ws[0], src, common, carried);
      var rest := Distribute(tail, src, common, carried);
      assert ws[0] in ws;
      GroupOfDistribute(tail, src, common, carried, k);
      assert Distribute(ws, src, common, carried) == first + rest;
      JoinSourceRows(ws[0], src, common, carried);
      OutGroupOfOneRow(first, ws[0].row, common, k);
      OutGroupAppend(first, rest, common, k);
      OutGroupTotalOfOneRow(first, ws[0].row, common, k);
      OutGroupTotalAppend(first, rest, common, k);
      if ws[0].key == k {
        var g := InGroup(tail, k);
        assert InGroup(ws, k) == [ws[0]] + g;
        assert ([ws[0]] + g)[1..] == g;
        OutTotalAppend(first, Distribute(g, src, common, carried));
      } else {
        assert InGroup(ws, k) == InGroup(tail, k);
      }
    }
  }
}
