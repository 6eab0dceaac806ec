/** Retries put copies of a command in the log; the log's meaning ignores them. */
module ExactlyOnce {
  import opened Types
  import opened Rows
  import opened CommittedLog
  import opened Forwarding
  import Node
  import Recovery

  /** Some put of the log carries the key `y`. */
  predicate Used(log: Log, y: string) {
    exists j :: 0 <= j < |log| && PutWith(log[j], y)
  }

  /** `log` with every put that carries `x`, except the first, taken out. */
  function FirstCopyOnly(log: Log, x: string): (r: Log) {
    if log == [] then []
    else
      var rest, last := FirstCopyOnly(log[..|log| - 1], x), log[|log| - 1];
      if PutWith(last, x) && Used(log[..|log| - 1], x) then rest else rest + [last]
  }

  /** The meaning of a position depends on nothing after it. */
  lemma {:induction false} MeaningOfPrefix(log: Log, more: Log, n: nat)
    requires n <= |log|
    ensures KvAt(log + more, n) == KvAt(log, n)
    ensures EffTable(log + more, n) == EffTable(log, n)
  {
    if n != 0 {
      MeaningOfPrefix(log, more, n - 1);
      assert (log + more)[..n] == log[..n];
      assert forall j :: 0 <= j < n ==> (log + more)[j] == log[j];
      assert IsEffective(log + more, n - 1) <==> IsEffective(log, n - 1);
    }
  }

  lemma UsedSnoc(front: Log, last: LogItem, y: string)
    ensures Used(front + [last], y) <==> Used(front, y) || PutWith(last, y)
  {
    var log := front + [last];
    if Used(front, y) {
      var j :| 0 <= j < |front| && PutWith(front[j], y);
      assert PutWith(log[j], y);
    }
    if PutWith(last, y) { assert PutWith(log[|front|], y); }
  }

  lemma {:induction false} SameKeys(log: Log, x: string, y: string)
    ensures Used(log, y) <==> Used(FirstCopyOnly(log, x), y)
    decreases |log|
  {
    if log != [] {
      var front, last := log[..|log| - 1], log[|log| - 1];
      assert log == front + [last];
      SameKeys(front, x, y);
      UsedSnoc(front, last, y);
      UsedSnoc(FirstCopyOnly(front, x), last, y);
      if PutWith(last, x) && PutWith(last, y) { assert x == y; }
    }
  }

  lemma SnocEffective(front: Log, last: LogItem)
    ensures IsEffective(front + [last], |front|) <==> IsPut(last) && !Used(front, last.data.cmd.idem)
  {
    var log := front + [last];
    assert forall j :: 0 <= j < |front| ==> log[j] == front[j];
    assert log[|front|] == last;
  }

  /** What one more entry adds to the log's meaning. */
  lemma SnocMeaning(front: Log, last: LogItem)
    ensures var log := front + [last];
            if IsPut(last) && !Used(front, last.data.cmd.idem) then
              && KvAt(log, |log|) == KvAt(front, |front|)[last.data.cmd.key := last.data.cmd.value]
              && EffTable(log, |log|) == EffTable(front, |front|)[last.index := EntryOf(last)]
            else KvAt(log, |log|) == KvAt(front, |front|) && EffTable(log, |log|) == EffTable(front, |front|)
  {
    MeaningOfPrefix(front, [last], |front|);
    SnocEffective(front, last);
  }

  /** FirstCopyOnly takes entries out and adds none. */
  lemma {:induction false} FirstCopySubset(log: Log, x: string)
    ensures forall item :: item in FirstCopyOnly(log, x) ==> item in log
    decreases |log|
  {
    if log != [] {
      var front, last := log[..|log| - 1], log[|log| - 1];
      assert log == front + [last];
      FirstCopySubset(front, x);
    }
  }

  /** It takes out nothing but puts that carry `x`. */
  lemma {:induction false} FirstCopyKeepsOthers(log: Log, x: string, item: LogItem)
    requires item in log && !PutWith(item, x)
    ensures item in FirstCopyOnly(log, x)
    decreases |log|
  {
    var front, last := log[..|log| - 1], log[|log| - 1];
    assert log == front + [last];
    if item in front { FirstCopyKeepsOthers(front, x, item); }
  }

  lemma {:induction false} FirstCopyWellFormed(log: Log, x: string)
    requires WellFormed(log)
    ensures WellFormed(FirstCopyOnly(log, x))
    decreases |log|
  {
    if log != [] {
      var front, last := log[..|log| - 1], log[|log| - 1];
      assert log == front + [last];
      FirstCopyWellFormed(front, x);
      FirstCopySubset(front, x);
      WellFormedSnoc(FirstCopyOnly(front, x), front, last);
    }
  }

  lemma WellFormedSnoc(r: Log, front: Log, last: LogItem)
    requires WellFormed(r) && WellFormed(front + [last]) && forall item :: item in r ==> item in front
    ensures WellFormed(r + [last])
  {
    var log := front + [last];
    forall i | 0 <= i < |r| ensures r[i].index < last.index {
      assert r[i] in front;
      var j :| 0 <= j < |front| && front[j] == r[i];
      assert log[j].index < log[|front|].index;
    }
    assert log[|front|].index >= 1;
  }

  /** Of the puts that carry `x` it leaves at most one. */
  lemma {:induction false} FirstCopyLeavesOne(log: Log, x: string, i: nat, j: nat)
    requires i < j < |FirstCopyOnly(log, x)| && PutWith(FirstCopyOnly(log, x)[i], x)
    ensures !PutWith(FirstCopyOnly(log, x)[j], x)
    decreases |log|
  {
    var front, last := log[..|log| - 1], log[|log| - 1];
    var r := FirstCopyOnly(front, x);
    SameKeys(front, x, x);
    if j < |r| {
      FirstCopyLeavesOne(front, x, i, j);
    } else {
      assert PutWith(r[i], x);
    }
  }

  /** Copies after the first change neither the map nor the rows: any number of them is as good as one. */
  lemma {:induction false} CopiesChangeNothing(log: Log, x: string)
    ensures KvAt(FirstCopyOnly(log, x), |FirstCopyOnly(log, x)|) == KvAt(log, |log|)
    ensures EffTable(FirstCopyOnly(log, x), |FirstCopyOnly(log, x)|) == EffTable(log, |log|)
    decreases |log|
  {
    if log != [] {
      var front, last := log[..|log| - 1], log[|log| - 1];
      assert log == front + [last];
      CopiesChangeNothing(front, x);
      SnocMeaning(front, last);
      if PutWith(last, x) && Used(front, x) {
        assert FirstCopyOnly(log, x) == FirstCopyOnly(front, x);
      } else {
        assert FirstCopyOnly(log, x) == FirstCopyOnly(front, x) + [last];
        SnocMeaning(FirstCopyOnly(front, x), last);
        if IsPut(last) { SameKeys(front, x, last.data.cmd.idem); }
      }
    }
  }

  /** The command that handlePut submits for a request. */
  predicate IsCopy(item: LogItem, req: PutRequest) {
    item.data == Decoded(Command("put", req.key, req.value, req.idem))
  }

  function CountCopies(log: Log, req: PutRequest): nat {
    if log == [] then 0
    else CountCopies(log[..|log| - 1], req) + if IsCopy(log[|log| - 1], req) then 1 else 0
  }

  lemma {:induction false} CopyExists(log: Log, req: PutRequest)
    requires CountCopies(log, req) > 0
    ensures exists j :: 0 <= j < |log| && IsCopy(log[j], req)
    decreases |log|
  {
    if IsCopy(log[|log| - 1], req) {
    } else {
      CopyExists(log[..|log| - 1], req);
      var j :| 0 <= j < |log| - 1 && IsCopy(log[..|log| - 1][j], req);
      assert IsCopy(log[j], req);
    }
  }

  /** The first put with the key `x` is effective and no other is. */
  lemma {:induction false} OneEffective(log: Log, x: string, n: nat) returns (j: nat)
    requires n < |log| && PutWith(log[n], x)
    ensures j <= n && PutWith(log[j], x) && IsEffective(log, j)
    ensures forall i :: 0 <= i < |log| && PutWith(log[i], x) && IsEffective(log, i) ==> i == j
    decreases n
  {
    if i :| 0 <= i < n && PutWith(log[i], x) {
      j := OneEffective(log, x, i);
    } else {
      j := n;
    }
  }

  /** End to end. A client that gets a 200, through any forwarding, lost requests and lost replies,
      for an idempotency key it used for nothing else, finds its write in the log's meaning exactly
      once; and the log means what it would mean with the first copy alone. */
  lemma {:induction false} OkMeansExactlyOnce(req: PutRequest, x: Execution, log: Log) returns (j: nat)
    requires WellFormed(log) && Status(req, x) == 200
    requires CountCopies(log, req) >= Copies(req, x)
    requires forall i :: 0 <= i < |log| && PutWith(log[i], req.idem) ==> IsCopy(log[i], req)
    ensures j < |log| && IsEffective(log, j) && EntryOf(log[j]) == Entry(log[j].index, req.idem, req.key, req.value)
    ensures forall i :: 0 <= i < |log| && IsEffective(log, i) && log[i].data.cmd.idem == req.idem ==> i == j
    ensures var once := FirstCopyOnly(log, req.idem);
            KvAt(once, |once|) == KvAt(log, |log|) && EffTable(once, |once|) == EffTable(log, |log|)
  {
    OkMeansCommitted(req, x);
    CopyExists(log, req);
    var n :| 0 <= n < |log| && IsCopy(log[n], req);
    assert PutWith(log[n], req.idem);
    j := OneEffective(log, req.idem, n);
    forall i | 0 <= i < |log| && IsEffective(log, i) && log[i].data.cmd.idem == req.idem ensures i == j {
      assert PutWith(log[i], req.idem);
    }
    CopiesChangeNothing(log, req.idem);
  }

  /** And so it is in the table: any node that has consumed the log from its start and drained its
      queue holds exactly one row with the request's idempotency key, and the row is the client's write. */
  lemma {:induction false} OkIsOneRow(
      req: PutRequest, x: Execution, log: Log,
      ttl: nat, cap: nat, flushSize: nat, clock: int, evs: seq<Node.Event>) returns (i: nat)
    requires Status(req, x) == 200
    requires CountCopies(log, req) >= Copies(req, x)
    requires forall i :: 0 <= i < |log| && PutWith(log[i], req.idem) ==> IsCopy(log[i], req)
    requires Recovery.Life(log, ttl, cap, flushSize, clock, evs)
    requires var n := Recovery.End(log, ttl, cap, flushSize, clock, evs);
             n.base == 0 && n.applied == |log| && Node.Pending(n) == []
    ensures var rows := Recovery.End(log, ttl, cap, flushSize, clock, evs).view.q.table;
            && i in rows && rows[i] == Entry(i, req.idem, req.key, req.value)
            && forall i' :: i' in rows && rows[i'].idem == req.idem ==> i' == i
  {
    var j := OkMeansExactlyOnce(req, x, log);
    i := log[j].index;
    Recovery.RecoveryComplete(log, ttl, cap, flushSize, clock, evs);
    var rows := EffTable(log, |log|);
    EffTableRows(log, |log|);
    forall i' | i' in rows && rows[i'].idem == req.idem ensures i' == i {
      var k :| 0 <= k < |log| && IsEffective(log, k) && EntryOf(log[k]) == rows[i'];
      assert k == j;
    }
  }

  /** So a node that consumed a log full of copies ends with the map and, if it never installed a
      snapshot, the very rows of a node that was sent each command once. */
  lemma {:induction false} NodesIgnoreCopies(
      log: Log, x: string,
      ttl: nat, cap: nat, flushSize: nat, clock: int, evs: seq<Node.Event>,
      ttl': nat, cap': nat, flushSize': nat, clock': int, evs': seq<Node.Event>)
    requires Recovery.Life(log, ttl, cap, flushSize, clock, evs)
    requires Recovery.Life(FirstCopyOnly(log, x), ttl', cap', flushSize', clock', evs')
    requires Recovery.End(log, ttl, cap, flushSize, clock, evs).applied == |log|
    requires Recovery.End(FirstCopyOnly(log, x), ttl', cap', flushSize', clock', evs').applied == |FirstCopyOnly(log, x)|
    requires Node.Pending(Recovery.End(log, ttl, cap, flushSize, clock, evs)) == []
    requires Node.Pending(Recovery.End(FirstCopyOnly(log, x), ttl', cap', flushSize', clock', evs')) == []
    ensures var n := Recovery.End(log, ttl, cap, flushSize, clock, evs);
            var n' := Recovery.End(FirstCopyOnly(log, x), ttl', cap', flushSize', clock', evs');
            && n.view.kv == n'.view.kv
            && Fold(n.view.q.table) == Fold(n'.view.q.table)
            && (n.base == 0 && n'.base == 0 ==> n.view.q.table == n'.view.q.table)
  {
    Recovery.RecoveryComplete(log, ttl, cap, flushSize, clock, evs);
    Recovery.RecoveryComplete(FirstCopyOnly(log, x), ttl', cap', flushSize', clock', evs');
    CopiesChangeNothing(log, x);
  }
}
