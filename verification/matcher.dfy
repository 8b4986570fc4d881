/**
 The key match: rows whose key tuple occurs in a set of key tuples, and the
 rest. The engine uses it twice: to split the source into valid and error
 rows against the target's distinct keys, and to keep the target rows whose
 key occurs among the valid source rows.
 */
module Matcher {
  import opened Tables

  datatype Split = Split(matched: seq<Row>, unmatched: seq<Row>)

  /** Matched rows have their key tuple in `present`, unmatched rows do not. */
  function Partition(rows: seq<Row>, ks: seq<Column>, present: set<Key>): (p: Split)
    requires AllHave(rows, ks)
    ensures forall r :: r in p.matched ==> r in rows && KeyOf(r, ks) in present
    ensures forall r :: r in p.unmatched ==> r in rows && KeyOf(r, ks) !in present
  {
    if rows == [] then Split([], [])
    else
      var rest := Partition(rows[1..], ks, present);
      assert rows == [rows[0]] + rows[1..];
      if KeyOf(rows[0], ks) in present then
        var m := [rows[0]] + rest.matched;
        assert m[1..] == rest.matched;
        Split(m, rest.unmatched)
      else
        var u := [rows[0]] + rest.unmatched;
        assert u[1..] == rest.unmatched;
        Split(rest.matched, u)
  }

  /** Every row lands in exactly one side, once: the two sides together are a permutation of the input. */
  lemma {:induction false} PartitionPermutes(rows: seq<Row>, ks: seq<Column>, present: set<Key>)
    requires AllHave(rows, ks)
    ensures multiset(Partition(rows, ks, present).matched) + multiset(Partition(rows, ks, present).unmatched)
         == multiset(rows)
  {
    if rows != [] {
      var tail := rows[1..];
      PartitionPermutes(tail, ks, present);
      var rest := Partition(tail, ks, present);
      var p := Partition(rows, ks, present);
      assert rows == [rows[0]] + tail;
      assert multiset(rows) == multiset{rows[0]} + multiset(tail);
      if KeyOf(rows[0], ks) in present {
        assert p.matched == [rows[0]] + rest.matched && p.unmatched == rest.unmatched;
        assert multiset(p.matched) == multiset{rows[0]} + multiset(rest.matched);
      } else {
        assert p.unmatched == [rows[0]] + rest.unmatched && p.matched == rest.matched;
        assert multiset(p.unmatched) == multiset{rows[0]} + multiset(rest.unmatched);
      }
    }
  }

  /** Both sides keep the relative order of the input rows. */
  lemma {:induction false} PartitionOrder(rows: seq<Row>, ks: seq<Column>, present: set<Key>)
    requires AllHave(rows, ks)
    ensures IsSubsequence(Partition(rows, ks, present).matched, rows)
    ensures IsSubsequence(Partition(rows, ks, present).unmatched, rows)
  {
    if rows != [] {
      PartitionOrder(rows[1..], ks, present);
      var rest := Partition(rows[1..], ks, present);
      if KeyOf(rows[0], ks) in present {
        var m := [rows[0]] + rest.matched;
        assert m[1..] == rest.matched;
        SubsequenceTail(rest.unmatched, rows);
      } else {
        var u := [rows[0]] + rest.unmatched;
        assert u[1..] == rest.unmatched;
        SubsequenceTail(rest.matched, rows);
      }
    }
  }

  /** No value is lost or counted twice: the two sides' totals add up to the input's. */
  lemma {:induction false} PartitionSum(rows: seq<Row>, ks: seq<Column>, present: set<Key>)
    requires AllHave(rows, ks)
    ensures Sum(Partition(rows, ks, present).matched) + Sum(Partition(rows, ks, present).unmatched) == Sum(rows)
  {
    if rows != [] {
      PartitionSum(rows[1..], ks, present);
      var rest := Partition(rows[1..], ks, present);
      if KeyOf(rows[0], ks) in present {
        var m := [rows[0]] + rest.matched;
        assert m[1..] == rest.matched;
      } else {
        var u := [rows[0]] + rest.unmatched;
        assert u[1..] == rest.unmatched;
      }
    }
  }

  /** A row of the input is matched iff its key is present, and unmatched iff it is not. */
  lemma PartitionExact(rows: seq<Row>, ks: seq<Column>, present: set<Key>, r: Row)
    requires AllHave(rows, ks)
    requires r in rows
    ensures r in Partition(rows, ks, present).matched <==> KeyOf(r, ks) in present
    ensures r in Partition(rows, ks, present).unmatched <==> KeyOf(r, ks) !in present
  {
  }

  /** The split of a concatenation is the concatenation of the splits. */
  lemma {:induction false} PartitionAppend(a: seq<Row>, b: seq<Row>, ks: seq<Column>, present: set<Key>)
    requires AllHave(a + b, ks) && AllHave(a, ks) && AllHave(b, ks)
    ensures Partition(a + b, ks, present)
         == Split(Partition(a, ks, present).matched + Partition(b, ks, present).matched,
                  Partition(a, ks, present).unmatched + Partition(b, ks, present).unmatched)
  {
    MatchedAppend(a, b, ks, present);
    UnmatchedAppend(a, b, ks, present);
  }

  lemma {:induction false} MatchedAppend(a: seq<Row>, b: seq<Row>, ks: seq<Column>, present: set<Key>)
    requires AllHave(a + b, ks) && AllHave(a, ks) && AllHave(b, ks)
    ensures Partition(a + b, ks, present).matched
         == Partition(a, ks, present).matched + Partition(b, ks, present).matched
  {
    if a == [] {
      assert a + b == b;
    } else {
      var ab := a + b;
      assert ab[0] == a[0] && ab[1..] == a[1..] + b;
      MatchedAppend(a[1..], b, ks, present);
    }
  }

  lemma {:induction false} UnmatchedAppend(a: seq<Row>, b: seq<Row>, ks: seq<Column>, present: set<Key>)
    requires AllHave(a + b, ks) && AllHave(a, ks) && AllHave(b, ks)
    ensures Partition(a + b, ks, present).unmatched
         == Partition(a, ks, present).unmatched + Partition(b, ks, present).unmatched
  {
    if a == [] {
      assert a + b == b;
    } else {
      var ab := a + b;
      assert ab[0] == a[0] && ab[1..] == a[1..] + b;
      UnmatchedAppend(a[1..], b, ks, present);
    }
  }

  /**
   Duplicate target rows do not change the distinct key set, so they never
   duplicate a source row.
   */
  lemma DuplicateKeysIgnored(target: seq<Row>, t: Row, ks: seq<Column>)
    requires AllHave(target, ks)
    requires t in target
    ensures AllHave(target + [t], ks)
    ensures KeySet(target + [t], ks) == KeySet(target, ks)
  {
  }

  /**
   Keeping the rows of one key set loses nothing of that key's group: for a
   kept key the group total is the original one, for any other key it is 0.
   */
  lemma {:induction false} GroupSumOfMatched(rows: seq<Row>, ks: seq<Column>, present: set<Key>, k: Key)
    requires AllHave(rows, ks)
    ensures GroupSum(Partition(rows, ks, present).matched, ks, k)
         == if k in present then GroupSum(rows, ks, k) else 0.0
  {
    if rows != [] {
      GroupSumOfMatched(rows[1..], ks, present, k);
      var rest := Partition(rows[1..], ks, present);
      if KeyOf(rows[0], ks) in present {
        var m := [rows[0]] + rest.matched;
        assert m[1..] == rest.matched;
      }
    }
  }

  /** The rows matched against a single key tuple total that key's group. */
  lemma {:induction false} SumOfKeyGroup(rows: seq<Row>, ks: seq<Column>, k: Key)
    requires AllHave(rows, ks)
    ensures Sum(Partition(rows, ks, {k}).matched) == GroupSum(rows, ks, k)
  {
    if rows != [] {
      var tail := rows[1..];
      SumOfKeyGroup(tail, ks, k);
      var rest := Partition(tail, ks, {k});
      if KeyOf(rows[0], ks) == k {
        var m := [rows[0]] + rest.matched;
        assert m[1..] == rest.matched;
      }
    }
  }

  /** The rows matched against a single key tuple are as many as that key's group. */
  lemma {:induction false} CountOfKeyGroup(rows: seq<Row>, ks: seq<Column>, k: Key)
    requires AllHave(rows, ks)
    ensures |Partition(rows, ks, {k}).matched| == GroupCount(rows, ks, k)
  {
    if rows != [] {
      var tail := rows[1..];
      CountOfKeyGroup(tail, ks, k);
      var rest := Partition(tail, ks, {k});
      if KeyOf(rows[0], ks) == k {
        var m := [rows[0]] + rest.matched;
        assert m[1..] == rest.matched;
      }
    }
  }

  /** When no row's key is present, nothing is matched and every row is kept, in order, as unmatched. */
  lemma {:induction false} PartitionNone(rows: seq<Row>, ks: seq<Column>, present: set<Key>)
    requires AllHave(rows, ks)
    requires forall r :: r in rows ==> KeyOf(r, ks) !in present
    ensures Partition(rows, ks, present) == Split([], rows)
  {
    if rows != [] {
      var tail := rows[1..];
      assert rows[0] in rows;
      forall r | r in tail
        ensures KeyOf(r, ks) !in present
      {
        assert r in rows;
      }
      PartitionNone(tail, ks, present);
      assert [rows[0]] + tail == rows;
    }
  }
}
