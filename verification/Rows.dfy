/** The durable table as a value: INSERT OR IGNORE, the fold of a SELECT ... ORDER BY idx,
    and the synthetic rows written when a snapshot is installed. */
module Rows {
  import opened Types

  /** Every row is stored under its own idx. */
  ghost predicate Keyed(t: Table) {
    forall i :: i in t ==> t[i].index == i
  }

  /** INSERT OR IGNORE of one row: an existing row with the same idx wins. */
  function Insert(t: Table, e: Entry): Table {
    if e.index in t then t else t[e.index := e]
  }

  /** INSERT OR IGNORE of a list of rows, first to last. */
  function InsertAll(t: Table, es: seq<Entry>): Table {
    if es == [] then t else Insert(InsertAll(t, es[..|es| - 1]), es[|es| - 1])
  }

  /** What a table holds after a batch: its old rows untouched, plus rows of the batch. */
  lemma {:induction false} InsertAllRows(t: Table, es: seq<Entry>)
    ensures forall i :: i in t ==> i in InsertAll(t, es) && InsertAll(t, es)[i] == t[i]
    ensures forall i :: i in InsertAll(t, es) && i !in t ==>
              InsertAll(t, es)[i] in es && InsertAll(t, es)[i].index == i
    ensures forall e :: e in es ==> e.index in InsertAll(t, es)
    decreases |es|
  {
    if es != [] {
      var front, last := es[..|es| - 1], es[|es| - 1];
      InsertAllRows(t, front);
      assert forall e :: e in es <==> e in front || e == last;
    }
  }

  lemma {:induction false} InsertAllConcat(t: Table, a: seq<Entry>, b: seq<Entry>)
    ensures InsertAll(t, a + b) == InsertAll(InsertAll(t, a), b)
    decreases |b|
  {
    if b == [] {
      assert a + b == a;
    } else {
      var front, last := b[..|b| - 1], b[|b| - 1];
      var ab := a + b;
      assert ab[..|ab| - 1] == a + front && ab[|ab| - 1] == last;
      InsertAllConcat(t, a, front);
    }
  }

  lemma InsertAllOne(t: Table, e: Entry)
    ensures InsertAll(t, [e]) == Insert(t, e)
  {
    assert [e][..0] == [];
  }

  /** No two elements of `es` carry the same idx. */
  ghost predicate DistinctIndices(es: seq<Entry>) {
    forall i, j :: 0 <= i < j < |es| ==> es[i].index != es[j].index
  }

  lemma SameIndexSameEntry(es: seq<Entry>, a: Entry, b: Entry)
    requires DistinctIndices(es) && a in es && b in es && a.index == b.index
    ensures a == b
  {
    var i :| 0 <= i < |es| && es[i] == a;
    var j :| 0 <= j < |es| && es[j] == b;
    assert i == j;
  }

  /** With distinct indices the order of insertion does not matter. */
  lemma InsertAllPermuted(t: Table, a: seq<Entry>, b: seq<Entry>)
    requires multiset(a) == multiset(b)
    requires DistinctIndices(a)
    ensures InsertAll(t, a) == InsertAll(t, b)
  {
    SameElements(a, b);
    InsertAllRows(t, a);
    InsertAllRows(t, b);
    var r, s := InsertAll(t, a), InsertAll(t, b);
    forall i ensures i in r <==> i in s {
      if i in r && i !in t { assert r[i] in b; }
      if i in s && i !in t { assert s[i] in a; }
    }
    forall i | i in r ensures r[i] == s[i] {
      if i !in t { assert r[i] in a && s[i] in a; }
    }
  }

  lemma SameElements(a: seq<Entry>, b: seq<Entry>)
    requires multiset(a) == multiset(b)
    ensures forall e :: e in a <==> e in b
  {
    forall e ensures e in a <==> e in b {
      assert e in a <==> e in multiset(a);
      assert e in b <==> e in multiset(b);
    }
  }

  // ---------------------------------------------------------------- the ordered fold

  /** One past the largest idx in the table. */
  ghost function Bound(t: Table): (n: nat)
    ensures forall i :: i in t ==> i < n
    ensures n == 0 || n - 1 in t
    decreases |t|
  {
    if t == map[] then 0
    else
      var k :| k in t;
      var rest := t - {k};
      assert |rest.Keys| == |t.Keys - {k}|;
      var r := Bound(rest);
      assert forall i :: i in t ==> i == k || i in rest;
      if k < r then r else k + 1
  }

  /** The key/value map left by applying the rows with idx below `n` in idx order. */
  ghost function FoldBelow(t: Table, n: nat): KvMap {
    if n == 0 then map[]
    else if n - 1 in t then FoldBelow(t, n - 1)[t[n - 1].key := t[n - 1].value]
    else FoldBelow(t, n - 1)
  }

  /** The map rebuilt by Replay from the whole table. */
  ghost function Fold(t: Table): KvMap {
    FoldBelow(t, Bound(t))
  }

  /** Two maps say the same of key `k`. */
  predicate AgreeAt(a: KvMap, b: KvMap, k: string) {
    (k in a <==> k in b) && (k in a ==> a[k] == b[k])
  }

  lemma AgreeEverywhere(a: KvMap, b: KvMap)
    ensures a == b <==> forall k :: AgreeAt(a, b, k)
  {
    if forall k :: AgreeAt(a, b, k) {
      forall k ensures k in a <==> k in b { assert AgreeAt(a, b, k); }
      forall k | k in a ensures a[k] == b[k] { assert AgreeAt(a, b, k); }
    }
  }

  /** The rows with idx below `n`, in idx order: the result of SELECT ... ORDER BY idx ASC. */
  function RowsBelow(t: Table, n: nat): (rows: seq<Entry>)
    ensures forall e :: e in rows ==> exists i :: 0 <= i < n && i in t && t[i] == e
    ensures forall i :: 0 <= i < n && i in t ==> t[i] in rows
  {
    if n == 0 then []
    else if n - 1 in t then RowsBelow(t, n - 1) + [t[n - 1]]
    else RowsBelow(t, n - 1)
  }

  /** Setting each row's key in turn, as every Replay callback of the program does. */
  function FoldSeq(rows: seq<Entry>): KvMap {
    if rows == [] then map[]
    else FoldSeq(rows[..|rows| - 1])[rows[|rows| - 1].key := rows[|rows| - 1].value]
  }

  lemma {:induction false} FoldSeqOfRows(t: Table, n: nat)
    ensures FoldSeq(RowsBelow(t, n)) == FoldBelow(t, n)
  {
    if n != 0 {
      FoldSeqOfRows(t, n - 1);
      if n - 1 in t {
        assert RowsBelow(t, n)[..|RowsBelow(t, n)| - 1] == RowsBelow(t, n - 1);
      }
    }
  }

  lemma {:induction false} FoldGap(t: Table, a: nat, b: nat)
    requires a <= b && forall i :: a <= i < b ==> i !in t
    ensures FoldBelow(t, a) == FoldBelow(t, b)
    decreases b
  {
    if a < b { FoldGap(t, a, b - 1); }
  }

  lemma FoldIsFoldBelow(t: Table, n: nat)
    requires forall i :: i in t ==> i < n
    ensures Fold(t) == FoldBelow(t, n)
  {
    FoldGap(t, Bound(t), n);
  }

  lemma {:induction false} FoldFrame(t: Table, u: Table, n: nat)
    requires forall i :: 0 <= i < n ==> (i in t <==> i in u)
    requires forall i :: 0 <= i < n && i in t ==> t[i] == u[i]
    ensures FoldBelow(t, n) == FoldBelow(u, n)
  {
    if n != 0 { FoldFrame(t, u, n - 1); }
  }

  /** Row `i` is the last row below `n` that writes key `k`. */
  ghost predicate Wins(t: Table, n: nat, k: string, i: nat) {
    i < n && i in t && t[i].key == k && forall j :: i < j < n && j in t ==> t[j].key != k
  }

  /** The fold is last-writer-wins: the row with the largest idx for a key decides its value. */
  lemma {:induction false} WinnerDecides(t: Table, n: nat, k: string, i: nat)
    requires Wins(t, n, k, i)
    ensures k in FoldBelow(t, n) && FoldBelow(t, n)[k] == t[i].value
  {
    if i != n - 1 { WinnerDecides(t, n - 1, k, i); }
  }

  /** Every key of the fold has a deciding row. */
  lemma {:induction false} WinnerExists(t: Table, n: nat, k: string) returns (i: nat)
    requires k in FoldBelow(t, n)
    ensures Wins(t, n, k, i) && FoldBelow(t, n)[k] == t[i].value
  {
    if n - 1 in t && t[n - 1].key == k {
      i := n - 1;
    } else {
      i := WinnerExists(t, n - 1, k);
    }
  }

  /** Every row's key is in the fold. */
  lemma {:induction false} RowKeyInFold(t: Table, n: nat, i: nat)
    requires i < n && i in t
    ensures t[i].key in FoldBelow(t, n)
  {
    if i != n - 1 { RowKeyInFold(t, n - 1, i); }
  }

  // ---------------------------------------------------------------- synthetic snapshot rows

  /** `order` lists the keys of `m`, each once: one possible iteration order of a Go map. */
  ghost predicate IsOrder(order: seq<string>, m: KvMap) {
    && (forall i, j :: 0 <= i < j < |order| ==> order[i] != order[j])
    && (forall k :: k in order <==> k in m)
  }

  /** The table that ReplaceAll leaves: rows 0, 1, 2, ... in iteration order. */
  function Synthetic(order: seq<string>, m: KvMap): (t: Table)
    requires forall k :: k in order ==> k in m
  {
    map i: nat | 0 <= i < |order| :: Entry(i, "", order[i], m[order[i]])
  }

  lemma {:induction false} SyntheticPrefix(t: Table, order: seq<string>, m: KvMap, n: nat)
    requires n <= |order|
    requires forall i, j :: 0 <= i < j < |order| ==> order[i] != order[j]
    requires forall i :: 0 <= i < |order| ==> order[i] in m && i in t && t[i].key == order[i] && t[i].value == m[order[i]]
    ensures forall i :: 0 <= i < n ==> order[i] in FoldBelow(t, n) && FoldBelow(t, n)[order[i]] == m[order[i]]
    ensures forall k :: k in FoldBelow(t, n) ==> k in m
  {
    if n != 0 {
      SyntheticPrefix(t, order, m, n - 1);
    }
  }

  /** Replaying the rows that ReplaceAll wrote rebuilds exactly the snapshot. */
  lemma SyntheticFold(order: seq<string>, m: KvMap, n: nat)
    requires IsOrder(order, m) && |order| <= n
    ensures FoldBelow(Synthetic(order, m), n) == m
  {
    var t := Synthetic(order, m);
    SyntheticPrefix(t, order, m, |order|);
    FoldGap(t, |order|, n);
    var f := FoldBelow(t, |order|);
    forall k | k in m ensures k in f && f[k] == m[k] {
      var i :| 0 <= i < |order| && order[i] == k;
    }
  }

  lemma OrderLength(order: seq<string>, m: KvMap)
    requires IsOrder(order, m)
    ensures |order| == |m|
  {
    DistinctCount(order, m.Keys);
  }

  lemma {:induction false} DistinctCount(order: seq<string>, ks: set<string>)
    requires forall i, j :: 0 <= i < j < |order| ==> order[i] != order[j]
    requires forall k :: k in order <==> k in ks
    ensures |order| == |ks|
    decreases |order|
  {
    if order == [] {
      assert ks == {};
    } else {
      var k := order[0];
      assert order == [k] + order[1..];
      DistinctCount(order[1..], ks - {k});
    }
  }
}
