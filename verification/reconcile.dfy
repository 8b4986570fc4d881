/**
 Where the source total goes: the distributed total equals the value of the
 source rows that found a target group with a non-zero total. The value of a
 source row whose target group totals zero is neither distributed nor
 reported as an error.
 */
module Reconcile {
  import opened Tables
  import opened Matcher
  import opened Weights
  import opened Distribution

  /**
   Total value of the rows of `src` whose key tuple occurs in `target` with
   a group total of zero.
   */
  function ZeroGroupValue(src: seq<Row>, target: seq<Row>, common: seq<Column>): real
    requires AllHave(src, common) && AllHave(target, common)
  {
    if src == [] then 0.0
    else
      var k := KeyOf(src[0], common);
      (if k in KeySet(target, common) && GroupSum(target, common, k) == 0.0 then src[0].value else 0.0)
        + ZeroGroupValue(src[1..], target, common)
  }

  /** `ZeroGroupValue` only depends on which keys occur in the target and on their group totals. */
  lemma {:induction false} ZeroGroupValueCongruent(src: seq<Row>, a: seq<Row>, b: seq<Row>, common: seq<Column>)
    requires AllHave(src, common) && AllHave(a, common) && AllHave(b, common)
    requires forall s :: s in src ==> (KeyOf(s, common) in KeySet(a, common) <==> KeyOf(s, common) in KeySet(b, common))
    requires forall s :: s in src ==> GroupSum(a, common, KeyOf(s, common)) == GroupSum(b, common, KeyOf(s, common))
    ensures ZeroGroupValue(src, a, common) == ZeroGroupValue(src, b, common)
  {
    if src != [] {
      var tail := src[1..];
      assert src[0] in src;
      assert forall s :: s in tail ==> s in src;
      ZeroGroupValueCongruent(tail, a, b, common);
    }
  }

  /** Source rows whose key is absent from the target add nothing to `ZeroGroupValue`. */
  lemma {:induction false} ZeroGroupValueOfMatched(rows: seq<Row>, target: seq<Row>, common: seq<Column>)
    requires AllHave(rows, common) && AllHave(target, common)
    ensures ZeroGroupValue(Partition(rows, common, KeySet(target, common)).matched, target, common)
         == ZeroGroupValue(rows, target, common)
  {
    if rows != [] {
      var tail := rows[1..];
      ZeroGroupValueOfMatched(tail, target, common);
      var rest := Partition(tail, common, KeySet(target, common));
      if KeyOf(rows[0], common) in KeySet(target, common) {
        var m := [rows[0]] + rest.matched;
        assert m[1..] == rest.matched;
      }
    }
  }

  /**
   Against normalised weights, a source row receives its full value when its
   target group has a non-zero total, and nothing otherwise.
   */
  lemma RowShare(s: Row, rows: seq<Row>, common: seq<Column>, policy: ZeroSumPolicy)
    requires HasColumns(s, common) && AllHave(rows, common)
    ensures Received(s, AttachWeights(rows, common, policy), common)
         == if GroupSum(rows, common, KeyOf(s, common)) != 0.0 then s.value else 0.0
  {
    GroupWeightsNormalise(rows, common, KeyOf(s, common), policy);
  }

  /**
   Against normalised weights, every source row whose key occurs among the
   weighted rows receives its full value, except when its group totals
   zero; so the source rows together receive their total less the value of
   the zero-total groups.
   */
  lemma {:induction false} NormalisedShare(src: seq<Row>, rows: seq<Row>, common: seq<Column>, policy: ZeroSumPolicy)
    requires AllHave(src, common) && AllHave(rows, common)
    requires forall s :: s in src ==> KeyOf(s, common) in KeySet(rows, common)
    ensures forall s :: s in src ==>
              Received(s, AttachWeights(rows, common, policy), common)
              == if GroupSum(rows, common, KeyOf(s, common)) != 0.0 then s.value else 0.0
    ensures SourceShare(src, AttachWeights(rows, common, policy), common) == Sum(src) - ZeroGroupValue(src, rows, common)
  {
    forall s | s in src
      ensures Received(s, AttachWeights(rows, common, policy), common)
              == if GroupSum(rows, common, KeyOf(s, common)) != 0.0 then s.value else 0.0
    {
      RowShare(s, rows, common, policy);
    }
    if src != [] {
      var tail := src[1..];
      assert src[0] in src;
      assert forall s :: s in tail ==> s in src;
      NormalisedShare(tail, rows, common, policy);
    }
  }

  /** No row is in a zero-total group, so no value is stranded. */
  lemma {:induction false} ZeroGroupValueNone(src: seq<Row>, target: seq<Row>, common: seq<Column>)
    requires AllHave(src, common) && AllHave(target, common)
    requires forall s :: s in src && KeyOf(s, common) in KeySet(target, common) ==> GroupSum(target, common, KeyOf(s, common)) != 0.0
    ensures ZeroGroupValue(src, target, common) == 0.0
  {
    if src != [] {
      var tail := src[1..];
      assert src[0] in src;
      assert forall s :: s in tail ==> s in src;
      ZeroGroupValueNone(tail, target, common);
    }
  }
}
