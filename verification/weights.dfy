/**
 The weight step of the engine: each kept target row is weighed by its share
 of its key group's total (`soma_destino`, `peso`).
 */
module Weights {
  import opened Tables

  /** What a row of a group whose total is zero weighs. */
  datatype ZeroSumPolicy =
    | KeepOwnValue  // `mask` leaves the row's own value in place: the code as written
    | ZeroWeight    // weight 0: what the code's comments describe

  /**
   A row's weight: its value over its group total when the total is non-zero.
   When the total is zero, `Series.mask` keeps the row's own value
   (`KeepOwnValue`); `ZeroWeight` is the intended weight 0.
   */
  function Weight(value: real, groupSum: real, policy: ZeroSumPolicy): (w: real)
    ensures groupSum != 0.0 ==> w * groupSum == value
    ensures value == 0.0 ==> w == 0.0
  {
    if groupSum != 0.0 then value / groupSum
    else match policy
      case KeepOwnValue => value
      case ZeroWeight => 0.0
  }

  /** Weighing is linear in the value, for a fixed group total. */
  lemma WeightLinear(a: real, b: real, groupSum: real, policy: ZeroSumPolicy)
    ensures Weight(a + b, groupSum, policy) == Weight(a, groupSum, policy) + Weight(b, groupSum, policy)
  {
    if groupSum != 0.0 {
      assert (a + b) / groupSum == a / groupSum + b / groupSum;
    }
  }

  /** A kept target row with its helper columns: key tuple, group total and weight. */
  datatype Weighted = Weighted(row: Row, key: Key, groupSum: real, weight: real)

  /** Weighs each row of `rows` against the group totals of `all`. */
  function WeighAgainst(rows: seq<Row>, ks: seq<Column>, all: seq<Row>, policy: ZeroSumPolicy): (ws: seq<Weighted>)
    requires AllHave(rows, ks) && AllHave(all, ks)
    ensures |ws| == |rows|
    ensures forall i :: 0 <= i < |ws| ==>
              && ws[i].row == rows[i]
              && ws[i].key == KeyOf(rows[i], ks)
              && ws[i].groupSum == GroupSum(all, ks, ws[i].key)
              && ws[i].weight == Weight(rows[i].value, ws[i].groupSum, policy)
  {
    if rows == [] then []
    else
      var k := KeyOf(rows[0], ks);
      var g := GroupSum(all, ks, k);
      [Weighted(rows[0], k, g, Weight(rows[0].value, g, policy))] + WeighAgainst(rows[1..], ks, all, policy)
  }

  /** Every weighted row's key is the key tuple of its own row. */
  predicate KeyedBy(ws: seq<Weighted>, ks: seq<Column>) {
    forall w :: w in ws ==> HasColumns(w.row, ks) && w.key == KeyOf(w.row, ks)
  }

  lemma WeighAgainstKeyed(rows: seq<Row>, ks: seq<Column>, all: seq<Row>, policy: ZeroSumPolicy)
    requires AllHave(rows, ks) && AllHave(all, ks)
    ensures KeyedBy(WeighAgainst(rows, ks, all, policy), ks)
  {
    var ws := WeighAgainst(rows, ks, all, policy);
    forall w | w in ws
      ensures HasColumns(w.row, ks) && w.key == KeyOf(w.row, ks)
    {
      var i :| 0 <= i < |ws| && ws[i] == w;
      assert rows[i] in rows;
    }
  }

  /** The weight step: group totals per key, then each row's weight within its group. */
  function AttachWeights(rows: seq<Row>, ks: seq<Column>, policy: ZeroSumPolicy): seq<Weighted>
    requires AllHave(rows, ks)
  {
    WeighAgainst(rows, ks, rows, policy)
  }

  /** Total weight of the weighted rows whose key tuple is `k`. */
  function WeightTotal(ws: seq<Weighted>, k: Key): real {
    if ws == [] then 0.0
    else (if ws[0].key == k then ws[0].weight else 0.0) + WeightTotal(ws[1..], k)
  }

  /** The weights of a key group add up to the weight of the group's own total. */
  lemma {:induction false} WeightTotalOfGroup(rows: seq<Row>, ks: seq<Column>, all: seq<Row>, k: Key, policy: ZeroSumPolicy)
    requires AllHave(rows, ks) && AllHave(all, ks)
    ensures WeightTotal(WeighAgainst(rows, ks, all, policy), k)
         == Weight(GroupSum(rows, ks, k), GroupSum(all, ks, k), policy)
  {
    var g := GroupSum(all, ks, k);
    if rows == [] {
    } else {
      var ws := WeighAgainst(rows, ks, all, policy);
      assert ws[1..] == WeighAgainst(rows[1..], ks, all, policy);
      WeightTotalOfGroup(rows[1..], ks, all, k, policy);
      if KeyOf(rows[0], ks) == k {
        WeightLinear(rows[0].value, GroupSum(rows[1..], ks, k), g, policy);
      } else {
        WeightLinear(0.0, GroupSum(rows[1..], ks, k), g, policy);
      }
    }
  }

  /**
   Normalisation: the weights of a group with non-zero total sum to 1, and
   those of a zero-total group sum to 0, under either zero-sum policy.
   */
  lemma GroupWeightsNormalise(rows: seq<Row>, ks: seq<Column>, k: Key, policy: ZeroSumPolicy)
    requires AllHave(rows, ks)
    ensures WeightTotal(AttachWeights(rows, ks, policy), k) == if GroupSum(rows, ks, k) != 0.0 then 1.0 else 0.0
  {
    WeightTotalOfGroup(rows, ks, rows, k, policy);
  }

  /** With non-negative values every weight lies in [0, 1]. */
  lemma {:induction false} WeightsBounded(rows: seq<Row>, ks: seq<Column>, policy: ZeroSumPolicy)
    requires AllHave(rows, ks)
    requires forall x :: x in rows ==> x.value >= 0.0
    ensures forall w :: w in AttachWeights(rows, ks, policy) ==> 0.0 <= w.weight <= 1.0
  {
    var ws := AttachWeights(rows, ks, policy);
    forall i | 0 <= i < |ws|
      ensures 0.0 <= ws[i].weight <= 1.0
    {
      MemberBelowGroupSum(rows, ks, rows[i]);
      WeightInUnit(rows[i].value, ws[i].groupSum, policy);
    }
  }

  /**
   With non-negative values a zero-total group holds only zeros, so it
   weighs nothing under either policy.
   */
  lemma {:induction false} NonNegativeZeroGroupsWeighNothing(rows: seq<Row>, ks: seq<Column>, policy: ZeroSumPolicy)
    requires AllHave(rows, ks)
    requires forall x :: x in rows ==> x.value >= 0.0
    ensures forall w :: w in AttachWeights(rows, ks, policy) && w.groupSum == 0.0 ==> w.weight == 0.0
  {
    var ws := AttachWeights(rows, ks, policy);
    forall i | 0 <= i < |ws| && ws[i].groupSum == 0.0
      ensures ws[i].weight == 0.0
    {
      MemberBelowGroupSum(rows, ks, rows[i]);
      WeightInUnit(rows[i].value, ws[i].groupSum, policy);
    }
  }

  lemma WeightInUnit(value: real, groupSum: real, policy: ZeroSumPolicy)
    requires 0.0 <= value <= groupSum
    ensures 0.0 <= Weight(value, groupSum, policy) <= 1.0
    ensures groupSum == 0.0 ==> Weight(value, groupSum, policy) == 0.0
  {
    if groupSum != 0.0 {
      var w := Weight(value, groupSum, policy);
      assert w * groupSum == value;
    }
  }

  /**
   As written, a zero-total group of mixed signs keeps its own values as
   weights: two target rows under one key with values v and -v (5 and -5,
   say) weigh v and -v, not 0.
   */
  lemma {:induction false} MaskKeepsOwnValue(a: Row, b: Row, ks: seq<Column>)
    requires HasColumns(a, ks) && HasColumns(b, ks) && KeyOf(a, ks) == KeyOf(b, ks)
    requires a.value != 0.0 && b.value == -a.value
    ensures var ws := AttachWeights([a, b], ks, KeepOwnValue);
            && |ws| == 2 && ws[0].groupSum == 0.0 && ws[1].groupSum == 0.0
            && ws[0].weight == a.value && ws[1].weight == b.value
  {
    var k := KeyOf(a, ks);
    assert [a, b][1..] == [b];
    assert GroupSum([b], ks, k) == b.value;
    assert GroupSum([a, b], ks, k) == 0.0;
  }

  /**
   As written, every row of a zero-total group weighs its own value: `mask`
   replaces the value only where the group total is non-zero.
   */
  lemma ZeroSumGroupsKeepOwnValue(rows: seq<Row>, ks: seq<Column>)
    requires AllHave(rows, ks)
    ensures forall w :: w in AttachWeights(rows, ks, KeepOwnValue) && w.groupSum == 0.0 ==> w.weight == w.row.value
  {
  }

  /** Under the intended policy every row of a zero-total group weighs 0, whatever its sign. */
  lemma ZeroSumGroupsWeighNothing(rows: seq<Row>, ks: seq<Column>)
    requires AllHave(rows, ks)
    ensures forall w :: w in AttachWeights(rows, ks, ZeroWeight) && w.groupSum == 0.0 ==> w.weight == 0.0
  {
  }
}
