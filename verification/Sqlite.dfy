/** The durable log (store/sqlite.go). A Database is the SQLite file: transactions are atomic,
    and every call may fail where its `fault` argument says. */
module Sqlite {
  import opened Types
  import opened Rows

  /** Does a fault strike a call that touches `n` rows? */
  predicate Strikes(fault: Fault, n: nat) {
    match fault
    case None => false
    case AtRow(k) => k < n
    case _ => true
  }

  class Database {
    var rows: Table
    var open: bool

    constructor ()
      ensures rows == map[] && open
    {
      rows, open := map[], true;
    }

    /** SELECT ... ORDER BY idx ASC. */
    method SelectOrdered() returns (result: seq<Entry>)
      ensures result == RowsBelow(rows, Bound(rows))
    {
      var todo, n := rows.Keys, 0;
      while todo != {}
        invariant todo <= rows.Keys
        invariant forall i :: i in rows ==> i in todo || i < n
        invariant n == 0 || n - 1 in rows
        decreases |todo|
      {
        var k :| k in todo;
        todo := todo - {k};
        if n <= k { n := k + 1; }
      }
      assert n == Bound(rows);
      result := RowsBelow(rows, n);
    }
  }

  /** What a callback makes of the state it has captured, going on or returning an error. */
  datatype Called<A> = Continue(state: A) | Abort(state: A)

  /** The callback run over the rows, first to last, up to its first error. */
  function CallEach<A>(fn: (A, Entry) -> Called<A>, start: A, rows: seq<Entry>): Called<A> {
    if rows == [] then Continue(start)
    else
      var before := CallEach(fn, start, rows[..|rows| - 1]);
      if before.Abort? then before else fn(before.state, rows[|rows| - 1])
  }

  lemma CallNext<A>(fn: (A, Entry) -> Called<A>, start: A, rows: seq<Entry>, i: nat)
    requires i < |rows| && CallEach(fn, start, rows[..i]).Continue?
    ensures CallEach(fn, start, rows[..i + 1]) == fn(CallEach(fn, start, rows[..i]).state, rows[i])
  {
    assert rows[..i + 1][..i] == rows[..i];
  }

  /** The i-th call of the callback did not return an error. */
  predicate GoesOn<A>(fn: (A, Entry) -> Called<A>, start: A, rows: seq<Entry>, i: nat)
    requires i < |rows|
  {
    fn(CallEach(fn, start, rows[..i]).state, rows[i]).Continue?
  }

  /** The callback has run over all rows if and only if no call returned an error. */
  lemma {:induction false} NoneAborted<A>(fn: (A, Entry) -> Called<A>, start: A, rows: seq<Entry>)
    ensures CallEach(fn, start, rows).Continue? <==> forall i :: 0 <= i < |rows| ==> GoesOn(fn, start, rows, i)
    decreases |rows|
  {
    if rows != [] {
      var front := rows[..|rows| - 1];
      NoneAborted(fn, start, front);
      forall i | 0 <= i < |front| ensures GoesOn(fn, start, front, i) <==> GoesOn(fn, start, rows, i) {
        assert front[..i] == rows[..i];
      }
      LastCall(fn, start, rows);
    }
  }

  lemma LastCall<A>(fn: (A, Entry) -> Called<A>, start: A, rows: seq<Entry>)
    requires rows != []
    ensures CallEach(fn, start, rows).Continue? <==>
            CallEach(fn, start, rows[..|rows| - 1]).Continue? && GoesOn(fn, start, rows, |rows| - 1)
  {
  }

  lemma OneAborted<A>(fn: (A, Entry) -> Called<A>, start: A, rows: seq<Entry>, i: nat)
    requires i < |rows| && fn(CallEach(fn, start, rows[..i]).state, rows[i]).Abort?
    ensures CallEach(fn, start, rows).Abort?
  {
    NoneAborted(fn, start, rows);
    assert !GoesOn(fn, start, rows, i);
  }

  /** The callback that start-up and Snapshot pass. */
  function SetKey(m: KvMap, e: Entry): Called<KvMap> {
    Continue(m[e.key := e.value])
  }

  lemma {:induction false} SetEachKey(start: KvMap, rows: seq<Entry>)
    ensures CallEach(SetKey, start, rows) == Continue(start + FoldSeq(rows))
    decreases |rows|
  {
    if rows == [] {
      assert start + map[] == start;
    } else {
      var front, last := rows[..|rows| - 1], rows[|rows| - 1];
      SetEachKey(start, front);
      assert start + FoldSeq(front)[last.key := last.value] == (start + FoldSeq(front))[last.key := last.value];
    }
  }

  /** With that callback Replay overlays the last-writer-wins fold of the table. */
  lemma {:induction false} ReplayIsFold(start: KvMap, t: Table)
    ensures CallEach(SetKey, start, RowsBelow(t, Bound(t))) == Continue(start + Fold(t))
  {
    SetEachKey(start, RowsBelow(t, Bound(t)));
    FoldSeqOfRows(t, Bound(t));
  }

  class SqliteLog {
    const db: Database

    constructor (db: Database)
      ensures this.db == db
    {
      this.db := db;
    }

    /** One INSERT OR IGNORE. */
    method Append(e: Entry, fault: Fault) returns (ok: bool)
      modifies db`rows
      ensures ok <==> db.open && (fault == None || (fault.AtRow? && fault.row >= 1))
      ensures db.rows == if ok then Insert(old(db.rows), e) else old(db.rows)
    {
      ok := db.open && !Strikes(fault, 1);
      if ok { db.rows := Insert(db.rows, e); }
    }

    /** Calls back once per row in idx order, until a row cannot be read or the callback fails. */
    method Replay<A>(fn: (A, Entry) -> Called<A>, start: A, fault: Fault) returns (ok: bool, state: A)
      ensures var rows := RowsBelow(db.rows, Bound(db.rows));
              ok <==> && db.open && (fault == None || (fault.AtRow? && fault.row >= |rows|))
                      && CallEach(fn, start, rows).Continue?
      ensures ok ==> CallEach(fn, start, RowsBelow(db.rows, Bound(db.rows))) == Continue(state)
    {
      if !db.open || fault == Begin {
        return false, start;
      }
      var rows := db.SelectOrdered();
      ok, state := EachRow(fn, start, rows, fault);
    }

    /** The loop over the rows of the result. */
    static method EachRow<A>(fn: (A, Entry) -> Called<A>, start: A, rows: seq<Entry>, fault: Fault)
      returns (ok: bool, state: A)
      requires fault != Begin
      ensures ok <==> && (fault == None || (fault.AtRow? && fault.row >= |rows|))
                      && CallEach(fn, start, rows).Continue?
      ensures ok ==> CallEach(fn, start, rows) == Continue(state)
    {
      state := start;
      var i := 0;
      while i < |rows|
        invariant i <= |rows|
        invariant CallEach(fn, start, rows[..i]) == Continue(state)
        invariant fault.AtRow? ==> i <= fault.row
      {
        if fault == AtRow(i) {
          return false, state;
        }
        CallNext(fn, start, rows, i);
        var called := fn(state, rows[i]);
        state := called.state;
        if called.Abort? {
          OneAborted(fn, start, rows, i);
          return false, state;
        }
        i := i + 1;
      }
      assert rows[..i] == rows;
      ok := fault != Commit;
    }

    /** Replaces the whole table by synthetic rows, in one transaction. `order` is the order in
        which the range loop happened to visit the map. */
    method ReplaceAll(entries: KvMap, fault: Fault) returns (ok: bool, ghost order: seq<string>)
      modifies db`rows
      ensures ok <==> db.open && (fault == None || (fault.AtRow? && fault.row >= |entries|))
      ensures ok ==> IsOrder(order, entries) && db.rows == Synthetic(order, entries)
      ensures ok ==> forall i :: i in db.rows <==> 0 <= i < |order|
      ensures ok ==> forall i :: 0 <= i < |order| ==> db.rows[i] == Entry(i, "", order[i], entries[order[i]])
      ensures !ok ==> db.rows == old(db.rows)
    {
      order := [];
      if !db.open || fault == Begin {
        return false, order;
      }
      var tx: Table := map[];
      var i, todo := 0, entries.Keys;
      while todo != {}
        invariant todo <= entries.Keys && i == |order| && |todo| + i == |entries.Keys|
        invariant forall k :: k in order <==> k in entries.Keys - todo
        invariant forall a, b :: 0 <= a < b < |order| ==> order[a] != order[b]
        invariant tx == Synthetic(order, entries) && db.rows == old(db.rows)
        invariant fault.AtRow? ==> i <= fault.row
        decreases |todo|
      {
        if fault == AtRow(i) {
          return false, order;
        }
        var k :| k in todo;
        assert k !in order;
        SyntheticSnoc(order, entries, k);
        tx := tx[i := Entry(i, "", k, entries[k])];
        todo := todo - {k};
        order := order + [k];
        i := i + 1;
      }
      ok := fault != Commit;
      if ok { db.rows := tx; }
    }

    method Close()
      modifies db`open
      ensures !db.open
    {
      db.open := false;
    }
  }

  lemma SyntheticSnoc(order: seq<string>, m: KvMap, k: string)
    requires k in m && forall k' :: k' in order ==> k' in m
    ensures Synthetic(order + [k], m) == Synthetic(order, m)[|order| := Entry(|order|, "", k, m[k])]
  {
  }

  /** Whatever order the map was visited in, a restart after ReplaceAll rebuilds exactly the map. */
  lemma ReplaceAllReplays(order: seq<string>, m: KvMap)
    requires IsOrder(order, m)
    ensures Fold(Synthetic(order, m)) == m
  {
    var t := Synthetic(order, m);
    SyntheticFold(order, m, |order|);
    FoldIsFoldBelow(t, |order|);
  }
}
