/**
 Key-column bookkeeping of the engine: the join keys both levels share, and
 the remaining source keys the final join carries into the output.
 */
module Keys {
  import opened Tables

  /**
   The source key columns that are also target key columns (a list
   comprehension over the source keys).
   */
  function CommonKeys(sourceKeys: seq<Column>, targetKeys: seq<Column>): (common: seq<Column>)
    ensures forall c :: c in common <==> c in sourceKeys && c in targetKeys
  {
    if sourceKeys == [] then []
    else
      var rest := CommonKeys(sourceKeys[1..], targetKeys);
      assert sourceKeys == [sourceKeys[0]] + sourceKeys[1..];
      if sourceKeys[0] in targetKeys then [sourceKeys[0]] + rest else rest
  }

  /** The common keys keep source order, and each keeps its source multiplicity. */
  lemma {:induction false} CommonKeysOrder(sourceKeys: seq<Column>, targetKeys: seq<Column>)
    ensures IsSubsequence(CommonKeys(sourceKeys, targetKeys), sourceKeys)
    ensures forall c :: multiset(CommonKeys(sourceKeys, targetKeys))[c]
                        == if c in targetKeys then multiset(sourceKeys)[c] else 0
  {
    if sourceKeys != [] {
      var tail := sourceKeys[1..];
      CommonKeysOrder(tail, targetKeys);
      var rest := CommonKeys(tail, targetKeys);
      assert sourceKeys == [sourceKeys[0]] + tail;
      if sourceKeys[0] in targetKeys {
        var common := [sourceKeys[0]] + rest;
        assert common[1..] == rest;
      } else {
        SubsequenceTail(rest, sourceKeys);
      }
    }
  }

  /**
   The source key columns that are not join keys. The final merge brings
   them into every output row next to the target's own columns.
   */
  function CarriedKeys(sourceKeys: seq<Column>, common: seq<Column>): (carried: seq<Column>)
    ensures forall c :: c in carried <==> c in sourceKeys && c !in common
    ensures IsSubsequence(carried, sourceKeys)
  {
    if sourceKeys == [] then []
    else
      var rest := CarriedKeys(sourceKeys[1..], common);
      assert sourceKeys == [sourceKeys[0]] + sourceKeys[1..];
      if sourceKeys[0] !in common then [sourceKeys[0]] + rest else rest
  }

  /** Each carried column appears as often as among the source keys; join keys never appear. */
  lemma {:induction false} CarriedKeysCount(sourceKeys: seq<Column>, common: seq<Column>)
    ensures forall c :: multiset(CarriedKeys(sourceKeys, common))[c]
                        == if c in common then 0 else multiset(sourceKeys)[c]
  {
    if sourceKeys != [] {
      var tail := sourceKeys[1..];
      CarriedKeysCount(tail, common);
      var rest := CarriedKeys(tail, common);
      assert sourceKeys == [sourceKeys[0]] + tail;
      if sourceKeys[0] !in common {
        var carried := [sourceKeys[0]] + rest;
        assert carried[1..] == rest;
      }
    }
  }

  /** Construction fails exactly when no source key column is a target key column. */
  lemma NoCommonKeysIff(sourceKeys: seq<Column>, targetKeys: seq<Column>)
    ensures CommonKeys(sourceKeys, targetKeys) == [] <==> forall c :: c in sourceKeys ==> c !in targetKeys
  {
    var common := CommonKeys(sourceKeys, targetKeys);
    if common != [] {
      assert common[0] in common;
    }
  }
}
