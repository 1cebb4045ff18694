/**
 * Grouping joined rows by a key, the way the repositories do it with an
 * insertion-ordered `dict`: walking the rows in order, a row whose key has a group
 * joins it, and any other row opens a new group at the end. Groups therefore come in
 * first-occurrence order and each holds its rows in row order.
 */
module Grouping {
  datatype Group<K, R> = Group(key: K, rows: seq<R>)

  /** The position of the group for `k`, or `|gs|` when there is none. */
  function IndexOf<K(==), R>(gs: seq<Group<K, R>>, k: K): (i: nat)
    ensures i <= |gs|
    ensures i < |gs| ==> gs[i].key == k && forall j :: 0 <= j < i ==> gs[j].key != k
    ensures i == |gs| ==> forall j :: 0 <= j < |gs| ==> gs[j].key != k
  {
    if |gs| == 0 then 0 else if gs[0].key == k then 0 else 1 + IndexOf(gs[1..], k)
  }

  /** The dictionary after one more row: `setdefault(key(r), []).append(r)`. */
  function AddRow<K(==), R>(gs: seq<Group<K, R>>, r: R, key: R -> K): seq<Group<K, R>> {
    var i := IndexOf(gs, key(r));
    if i < |gs| then gs[i := Group(gs[i].key, gs[i].rows + [r])] else gs + [Group(key(r), [r])]
  }

  /** The groups after all the rows, in the dictionary's order. */
  function GroupBy<K(==), R>(rows: seq<R>, key: R -> K): seq<Group<K, R>> {
    if |rows| == 0 then [] else AddRow(GroupBy(rows[..|rows| - 1], key), rows[|rows| - 1], key)
  }

  function GroupKeys<K, R>(gs: seq<Group<K, R>>): (r: seq<K>)
    ensures |r| == |gs| && forall i :: 0 <= i < |gs| ==> r[i] == gs[i].key
  {
    seq(|gs|, i requires 0 <= i < |gs| => gs[i].key)
  }

  function RowKeys<K, R>(rows: seq<R>, key: R -> K): (r: seq<K>)
    ensures |r| == |rows| && forall i :: 0 <= i < |rows| ==> r[i] == key(rows[i])
  {
    seq(|rows|, i requires 0 <= i < |rows| => key(rows[i]))
  }

  /** The distinct elements of `s` in order of first occurrence. */
  function Dedup<K(==)>(s: seq<K>): seq<K> {
    if |s| == 0 then []
    else
      var d := Dedup(s[..|s| - 1]);
      if s[|s| - 1] in d then d else d + [s[|s| - 1]]
  }

  /** The rows with key `k`, in row order. */
  function Filter<K(==), R>(rows: seq<R>, key: R -> K, k: K): seq<R> {
    if |rows| == 0 then []
    else Filter(rows[..|rows| - 1], key, k) + (if key(rows[|rows| - 1]) == k then [rows[|rows| - 1]] else [])
  }

  /** The index of the first occurrence of `x` in `s`. */
  function FirstIndex<K(==)>(s: seq<K>, x: K): (i: nat)
    requires x in s
    ensures i < |s| && s[i] == x && forall j :: 0 <= j < i ==> s[j] != x
  {
    if s[0] == x then 0 else 1 + FirstIndex(s[1..], x)
  }

  lemma {:induction false} DedupElements<K>(s: seq<K>)
    ensures forall i :: 0 <= i < |Dedup(s)| ==> Dedup(s)[i] in s
    ensures forall i :: 0 <= i < |s| ==> s[i] in Dedup(s)
    ensures forall i, j :: 0 <= i < j < |Dedup(s)| ==> Dedup(s)[i] != Dedup(s)[j]
  {
    if |s| > 0 {
      var init := s[..|s| - 1];
      DedupElements(init);
      assert s == init + [s[|s| - 1]];
    }
  }

  lemma FirstIndexAppend<K>(s: seq<K>, y: K, x: K)
    requires x in s
    ensures FirstIndex(s + [y], x) == FirstIndex(s, x)
  {
    var i := FirstIndex(s, x);
    var t := s + [y];
    assert t[i] == x;
    assert forall j :: 0 <= j < i ==> t[j] == s[j];
    var k := FirstIndex(t, x);
    assert k <= i;
  }

  /** Dedup lists the elements by increasing position of their first occurrence. */
  lemma {:induction false} DedupFirstOccurrence<K>(s: seq<K>)
    ensures forall i, j :: 0 <= i < j < |Dedup(s)| ==>
              Dedup(s)[i] in s && Dedup(s)[j] in s && FirstIndex(s, Dedup(s)[i]) < FirstIndex(s, Dedup(s)[j])
  {
    DedupElements(s);
    if |s| > 0 {
      var init := s[..|s| - 1];
      var last := s[|s| - 1];
      DedupFirstOccurrence(init);
      DedupElements(init);
      assert s == init + [last];
      var d := Dedup(s);
      var di := Dedup(init);
      assert d == di || (d == di + [last] && last !in init);
      forall i, j | 0 <= i < j < |d|
        ensures FirstIndex(s, d[i]) < FirstIndex(s, d[j])
      {
        assert i < |di| && di[i] in di;
        assert d[i] == di[i];
        assert di[i] in init;
        FirstIndexAppend(init, last, d[i]);
        if j < |di| {
          assert di[j] in di;
          assert d[j] == di[j] && d[j] in init;
          FirstIndexAppend(init, last, d[j]);
        } else {
          assert d[j] == last && last !in init;
          assert FirstIndex(s, d[j]) == |init|;
        }
      }
    }
  }

  /** The groups come in first-occurrence order of their keys, each key once. */
  lemma {:induction false} GroupByKeys<K, R>(rows: seq<R>, key: R -> K)
    ensures GroupKeys(GroupBy(rows, key)) == Dedup(RowKeys(rows, key))
  {
    if |rows| > 0 {
      var init := rows[..|rows| - 1];
      var r := rows[|rows| - 1];
      GroupByKeys(init, key);
      assert RowKeys(rows, key) == RowKeys(init, key) + [key(r)];
      assert RowKeys(rows, key)[..|rows| - 1] == RowKeys(init, key);
      var gs := GroupBy(init, key);
      var i := IndexOf(gs, key(r));
      if i < |gs| {
        assert key(r) in GroupKeys(gs);
        assert GroupKeys(AddRow(gs, r, key)) == GroupKeys(gs);
      } else {
        assert key(r) !in GroupKeys(gs);
        assert GroupKeys(AddRow(gs, r, key)) == GroupKeys(gs) + [key(r)];
      }
    }
  }

  /** Each group holds exactly the rows carrying its key, in row order. */
  lemma {:induction false} GroupByRows<K, R>(rows: seq<R>, key: R -> K)
    ensures forall i :: 0 <= i < |GroupBy(rows, key)| ==>
              GroupBy(rows, key)[i].rows == Filter(rows, key, GroupBy(rows, key)[i].key)
  {
    if |rows| > 0 {
      var init := rows[..|rows| - 1];
      var r := rows[|rows| - 1];
      GroupByRows(init, key);
      GroupByKeys(init, key);
      var gs := GroupBy(init, key);
      var i := IndexOf(gs, key(r));
      assert rows[..|rows| - 1] == init;
      var gs' := GroupBy(rows, key);
      forall j | 0 <= j < |gs'|
        ensures gs'[j].rows == Filter(rows, key, gs'[j].key)
      {
        if j < |gs| && j != i {
          if i < |gs| {
            DedupElements(RowKeys(init, key));
            assert GroupKeys(gs)[j] != GroupKeys(gs)[i];
          }
          assert gs'[j] == gs[j] && gs[j].key != key(r);
        } else if j == |gs| {
          assert key(r) !in GroupKeys(gs);
          assert Filter(init, key, key(r)) == [] by {
            FilterAbsent(init, key, key(r));
          }
        }
      }
    }
  }

  /** No group is empty. */
  lemma GroupByNonEmpty<K, R>(rows: seq<R>, key: R -> K)
    ensures forall i :: 0 <= i < |GroupBy(rows, key)| ==> |GroupBy(rows, key)[i].rows| > 0
  {
  }

  /** Every row of a group carries the group's key. */
  lemma {:induction false} GroupByMemberKeys<K, R>(rows: seq<R>, key: R -> K)
    ensures forall i, j :: 0 <= i < |GroupBy(rows, key)| && 0 <= j < |GroupBy(rows, key)[i].rows| ==>
              key(GroupBy(rows, key)[i].rows[j]) == GroupBy(rows, key)[i].key
  {
    if |rows| > 0 {
      GroupByMemberKeys(rows[..|rows| - 1], key);
    }
  }

  lemma {:induction false} FilterAbsent<K, R>(rows: seq<R>, key: R -> K, k: K)
    requires k !in Dedup(RowKeys(rows, key))
    ensures Filter(rows, key, k) == []
  {
    DedupElements(RowKeys(rows, key));
    if |rows| > 0 {
      var init := rows[..|rows| - 1];
      assert RowKeys(rows, key)[|rows| - 1] == key(rows[|rows| - 1]);
      assert RowKeys(init, key) == RowKeys(rows, key)[..|rows| - 1];
      DedupElements(RowKeys(init, key));
      FilterAbsent(init, key, k);
    }
  }
}
