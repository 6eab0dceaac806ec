/** The log raft commits, and what it means: the reference against which a node is judged.
    A put is effective when it is the first put with its idempotency key (or has none). */
module CommittedLog {
  import opened Types
  import opened Rows

  type Log = seq<LogItem>

  /** Raft's contract: indices start at 1 and strictly increase; gaps are allowed. */
  ghost predicate WellFormed(log: Log) {
    && (forall i :: 0 <= i < |log| ==> log[i].index >= 1)
    && (forall i, j :: 0 <= i < j < |log| ==> log[i].index < log[j].index)
  }

  predicate IsPut(item: LogItem) {
    item.data.Decoded? && item.data.cmd.op == "put"
  }

  /** Is the item a put that carries the non-empty idempotency key `x`? */
  predicate PutWith(item: LogItem, x: string) {
    IsPut(item) && x != "" && item.data.cmd.idem == x
  }

  function EntryOf(item: LogItem): Entry
    requires IsPut(item)
  {
    Entry(item.index, item.data.cmd.idem, item.data.cmd.key, item.data.cmd.value)
  }

  /** The put at position `i` is the first one with its key. */
  ghost predicate IsEffective(log: Log, i: nat)
    requires i < |log|
  {
    IsPut(log[i]) && forall j :: 0 <= j < i ==> !PutWith(log[j], log[i].data.cmd.idem)
  }

  /** The key/value map that the first `n` entries of the log stand for. */
  ghost function KvAt(log: Log, n: nat): KvMap
    requires n <= |log|
  {
    if n == 0 then map[]
    else if IsEffective(log, n - 1) then
      KvAt(log, n - 1)[log[n - 1].data.cmd.key := log[n - 1].data.cmd.value]
    else KvAt(log, n - 1)
  }

  /** The durable rows that the first `n` entries of the log stand for. */
  ghost function EffTable(log: Log, n: nat): Table
    requires n <= |log|
  {
    if n == 0 then map[]
    else if IsEffective(log, n - 1) then EffTable(log, n - 1)[log[n - 1].index := EntryOf(log[n - 1])]
    else EffTable(log, n - 1)
  }

  /** The raft index of the last of the first `n` entries. */
  function Cut(log: Log, n: nat): nat
    requires n <= |log|
  {
    if n == 0 then 0 else log[n - 1].index
  }

  /** `e` is the row of an effective put at a position in [lo, hi). */
  ghost predicate RowOf(log: Log, e: Entry, lo: nat, hi: nat)
    requires hi <= |log|
  {
    exists j :: lo <= j < hi && IsEffective(log, j) && EntryOf(log[j]) == e
  }

  /** Every idempotency key used both before and after position `s` is among `known`. */
  ghost predicate CleanCut(log: Log, s: nat, known: set<string>)
    requires s <= |log|
  {
    forall i, j, x :: 0 <= i < s <= j < |log| && PutWith(log[i], x) && PutWith(log[j], x) ==> x in known
  }

  // ---------------------------------------------------------------- order facts

  lemma CutMonotone(log: Log, a: nat, b: nat)
    requires WellFormed(log) && a <= b <= |log|
    ensures Cut(log, a) <= Cut(log, b)
  {
  }

  /** An entry's raft index is within a cut just when its position is. */
  lemma IndexCut(log: Log, j: nat, n: nat)
    requires WellFormed(log) && j < |log| && n <= |log|
    ensures log[j].index <= Cut(log, n) <==> j < n
  {
  }

  /** Strictly increasing indices from 1 on: the n-th entry has index at least n. */
  lemma {:induction false} CutGrows(log: Log, n: nat)
    requires WellFormed(log) && n <= |log|
    ensures n <= Cut(log, n)
  {
    if n > 1 {
      CutGrows(log, n - 1);
      assert log[n - 2].index < log[n - 1].index;
    }
  }

  /** At most one new key per entry. */
  lemma {:induction false} KvAtSize(log: Log, n: nat)
    requires n <= |log|
    ensures |KvAt(log, n)| <= n
  {
    if n != 0 {
      KvAtSize(log, n - 1);
      var m := KvAt(log, n - 1);
      if IsEffective(log, n - 1) {
        var k := log[n - 1].data.cmd.key;
        assert KvAt(log, n).Keys == m.Keys + {k};
      }
    }
  }

  /** The pigeonhole behind the synthetic indices: a snapshot after `n` entries has no more keys
      than the raft index it was taken at, so rows 0..keys-1 sort before every later entry. */
  lemma {:induction false} SyntheticRowsBelowCut(log: Log, n: nat, order: seq<string>)
    requires WellFormed(log) && n <= |log| && IsOrder(order, KvAt(log, n))
    ensures |order| <= n <= Cut(log, n)
    ensures forall i :: i in Synthetic(order, KvAt(log, n)) ==> i < Cut(log, n)
  {
    OrderLength(order, KvAt(log, n));
    KvAtSize(log, n);
    CutGrows(log, n);
  }

  /** Puts never remove keys. */
  lemma {:induction false} KeysGrow(log: Log, a: nat, b: nat)
    requires a <= b <= |log|
    ensures forall k :: k in KvAt(log, a) ==> k in KvAt(log, b)
    decreases b
  {
    if a < b { KeysGrow(log, a, b - 1); }
  }

  lemma {:induction false} EffectiveKeyPresent(log: Log, j: nat, n: nat)
    requires j < n <= |log| && IsEffective(log, j)
    ensures log[j].data.cmd.key in KvAt(log, n)
  {
    KeysGrow(log, j + 1, n);
  }

  // ---------------------------------------------------------------- tables that follow the log

  /** Above `Cut(lo)` and up to `Cut(hi)`, the rows of `t` are exactly those of the effective puts. */
  ghost predicate Follows(t: Table, log: Log, lo: nat, hi: nat)
    requires hi <= |log| && lo <= hi
  {
    && (forall i :: i in t && Cut(log, lo) < i <= Cut(log, hi) ==> RowOf(log, t[i], lo, hi) && t[i].index == i)
    && (forall j :: lo <= j < hi && IsEffective(log, j) ==> log[j].index in t)
  }

  /** A table whose low rows fold to the map at `lo` and that follows the log from there on
      folds to the map at `hi`, whatever the order in which its rows were written. */
  lemma {:induction false} FoldFollowsLog(t: Table, log: Log, lo: nat, hi: nat)
    requires WellFormed(log) && lo <= hi <= |log|
    requires FoldBelow(t, Cut(log, lo) + 1) == KvAt(log, lo)
    requires Follows(t, log, lo, hi)
    ensures FoldBelow(t, Cut(log, hi) + 1) == KvAt(log, hi)
    decreases hi
  {
    if lo < hi {
      var n := hi - 1;
      FollowsShorter(t, log, lo, hi);
      FoldFollowsLog(t, log, lo, n);
      NoRowBetween(t, log, lo, hi);
      FoldGap(t, Cut(log, n) + 1, log[n].index);
      LastRow(t, log, lo, hi);
    }
  }

  lemma FollowsShorter(t: Table, log: Log, lo: nat, hi: nat)
    requires WellFormed(log) && lo < hi <= |log|
    requires Follows(t, log, lo, hi)
    ensures Follows(t, log, lo, hi - 1) && Cut(log, hi - 1) < Cut(log, hi)
  {
    CutMonotone(log, lo, hi - 1);
    forall i | i in t && Cut(log, lo) < i <= Cut(log, hi - 1) ensures RowOf(log, t[i], lo, hi - 1) {
      var j :| lo <= j < hi && IsEffective(log, j) && EntryOf(log[j]) == t[i];
      IndexCut(log, j, hi - 1);
    }
  }

  /** The row at the last index is there just when the last entry is effective, and is its row. */
  lemma LastRow(t: Table, log: Log, lo: nat, hi: nat)
    requires WellFormed(log) && lo < hi <= |log|
    requires Follows(t, log, lo, hi)
    ensures var i := log[hi - 1].index;
            (i in t <==> IsEffective(log, hi - 1)) && (i in t ==> t[i] == EntryOf(log[hi - 1]))
  {
    var i := log[hi - 1].index;
    CutMonotone(log, lo, hi - 1);
    if i in t {
      var j :| lo <= j < hi && IsEffective(log, j) && EntryOf(log[j]) == t[i];
      assert j == hi - 1;
    }
  }

  lemma NoRowBetween(t: Table, log: Log, lo: nat, hi: nat)
    requires WellFormed(log) && lo < hi <= |log|
    requires Follows(t, log, lo, hi)
    ensures forall i :: Cut(log, hi - 1) < i < Cut(log, hi) ==> i !in t
  {
    CutMonotone(log, lo, hi - 1);
    forall i | Cut(log, hi - 1) < i < Cut(log, hi) ensures i !in t {
      if i in t {
        var j :| lo <= j < hi && IsEffective(log, j) && EntryOf(log[j]) == t[i];
      }
    }
  }

  /** The rows of EffTable are the rows of the effective puts, each under its own index. */
  lemma {:induction false} EffTableRows(log: Log, n: nat)
    requires WellFormed(log) && n <= |log|
    ensures forall i :: i in EffTable(log, n) ==> RowOf(log, EffTable(log, n)[i], 0, n) && EffTable(log, n)[i].index == i
    ensures forall j :: 0 <= j < n && IsEffective(log, j) ==>
              log[j].index in EffTable(log, n) && EffTable(log, n)[log[j].index] == EntryOf(log[j])
    ensures forall i :: i in EffTable(log, n) ==> 0 < i <= Cut(log, n)
  {
    if n != 0 {
      EffTableRows(log, n - 1);
      CutMonotone(log, n - 1, n);
      forall i | i in EffTable(log, n) ensures RowOf(log, EffTable(log, n)[i], 0, n) {
        if i in EffTable(log, n - 1) && i != log[n - 1].index {
          var j :| 0 <= j < n - 1 && IsEffective(log, j) && EntryOf(log[j]) == EffTable(log, n - 1)[i];
        } else {
          assert IsEffective(log, n - 1);
        }
      }
    }
  }

  /** The two readings of the log agree: replaying its rows gives its map. */
  lemma {:induction false} FoldOfEffTable(log: Log, n: nat)
    requires WellFormed(log) && n <= |log|
    ensures Fold(EffTable(log, n)) == KvAt(log, n)
  {
    EffTableRows(log, n);
    var t := EffTable(log, n);
    assert 0 !in t;
    assert FoldBelow(t, Cut(log, 0) + 1) == map[];
    FoldFollowsLog(t, log, 0, n);
    FoldIsFoldBelow(t, Cut(log, n) + 1);
  }
}
