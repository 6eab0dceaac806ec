/** Runs in which the code does not do what it promises, one for each assumption of the node machine. */
module Failures {
  import opened Types
  import opened Rows
  import opened CommittedLog
  import opened Fsm
  import Dedup
  import Node
  import Recovery
  import Restoring
  import WriteQueue

  // ---------------------------------------------------------------- retries, and rows still queued

  function Put(index: nat, idem: string, value: string): LogItem {
    LogItem(index, Decoded(Command("put", "k", value, idem)))
  }

  /** A write, a second one, and a late retry of the first. */
  const RETRIED: Log := [Put(1, "a", "old"), Put(2, "b", "new"), Put(3, "a", "old")]

  lemma RetriedMeans()
    ensures KvAt(RETRIED, 2) == map["k" := "new"] && KvAt(RETRIED, 3) == map["k" := "new"]
  {
    assert IsEffective(RETRIED, 0) && IsEffective(RETRIED, 1);
    assert PutWith(RETRIED[0], "a");
    assert !IsEffective(RETRIED, 2);
    assert KvAt(RETRIED, 1) == map["k" := "old"];
    assert KvAt(RETRIED, 2) == map["k" := "new"];
  }

  /** Apply with an insert that succeeds. */
  function Fed(v: View, item: LogItem, now: int): View {
    ApplyTo(v, item, PathOf(v.q, None), now)
  }

  /** A retry just after the cleaner evicted its key brings the old value back on this node. */
  lemma EvictedRetryGoesBack(ttl: nat)
    ensures var v1 := Fed(BootView(map[], 4096, 200), RETRIED[0], 0);
            var v2 := Fed(v1, RETRIED[1], 0);
            var v3 := Fed(v2.(seen := Dedup.Evicted(v2.seen, ttl, ttl + 1)), RETRIED[2], ttl + 1);
            v3.kv == map["k" := "old"] && KvAt(RETRIED, 3) == map["k" := "new"]
  {
    RetriedMeans();
    assert Fold(map[]) == map[];
  }

  /** So does a retry that a restarted node meets after restoring a snapshot that has the write. */
  lemma StraddlingRetryGoesBack()
    ensures var v1 := RestoreTo(BootView(map[], 4096, 200), KvAt(RETRIED, 2), ["k"]);
            var v2 := Fed(v1, RETRIED[2], 0);
            KvAt(RETRIED, 2) == map["k" := "new"] && v2.kv == map["k" := "old"] && KvAt(RETRIED, 3) == map["k" := "new"]
  {
    RetriedMeans();
    assert Fold(map[]) == map[];
  }

  // ---------------------------------------------------------------- a snapshot without an applied write

  /** A snapshot taken while the only write is still queued is empty, and raft keeps it: after a crash
      and its restore the log is consumed, and the committed write is neither in the live map nor in
      the table. */
  lemma SnapshotMissesAppliedEntry(ttl: nat) returns (evs: seq<Node.Event>, n: Node.Node)
    ensures var log := [Put(1, "a", "v")];
            && evs == [Node.Deliver(Fast, 0), Node.TakeSnapshot]
            && Recovery.Life(log, ttl, 4096, 200, 0, evs) && n == Recovery.End(log, ttl, 4096, 200, 0, evs)
            && n.view.kv == map["k" := "v"] == KvAt(log, 1)
            && n.snapAt == 1 && n.snap == map[]
            && var restarted := Node.Restored(Node.Next(log, ttl, n, Node.Crash), 1, n.snap, []);
               restarted.applied == |log| && restarted.view.kv == map[] && Fold(restarted.view.q.table) == map[]
  {
    var log := [Put(1, "a", "v")];
    var start := Node.Initial(4096, 200, 0);
    NothingWritten(ttl);
    assert WellFormed(log);
    var e1, n1 := Then(log, ttl, start, [], start, Node.Deliver(Fast, 0));
    evs, n := Then(log, ttl, start, e1, n1, Node.TakeSnapshot);
    RestoredEmpty(Node.Next(log, ttl, n, Node.Crash), 1);
  }

  lemma NothingWritten(ttl: nat)
    ensures var log, start := [Put(1, "a", "v")], Node.Initial(4096, 200, 0);
            && Node.Enabled(log, start, Node.Deliver(Fast, 0))
            && var n := Node.Next(log, ttl, start, Node.Deliver(Fast, 0));
               && n.view.kv == map["k" := "v"] == KvAt(log, 1) && n.view.q.table == map[] && Fold(n.view.q.table) == map[]
               && n.applied == 1 && n.snapAt == 0
  {
    assert Fold(map[]) == map[];
    assert IsEffective([Put(1, "a", "v")], 0);
  }

  lemma RestoredEmpty(n: Node.Node, at: nat)
    requires n.view.kv == map[]
    ensures var n' := Node.Restored(n, at, map[], []); n'.view.kv == map[] && Fold(n'.view.q.table) == map[]
  {
    assert Synthetic([], map[]) == map[];
  }

  /** A queued row received into a full batch and flushed. */
  lemma ReceiveAndFlush(q: WriteQueue.Queue, e: Entry)
    requires q.ch == [e] && q.batch == [] && q.flushSize == 1 && q.pc.Selecting? && q.open
    ensures var evs := [WriteQueue.Receive, WriteQueue.Flush(true)];
            WriteQueue.Legal(q, evs) && WriteQueue.Run(q, WriteQueue.NOTHING, evs).0.table == Insert(q.table, e)
  {
    var q1, h1, e1 := WriteQueue.Then(q, q, WriteQueue.NOTHING, [], WriteQueue.Receive);
    assert q1.batch == [e] && q1.pc.Flushing?;
    var _, _, e2 := WriteQueue.Then(q, q1, h1, e1, WriteQueue.Flush(true));
    assert e2 == [WriteQueue.Receive, WriteQueue.Flush(true)];
    InsertAllOne(q.table, e);
  }

  lemma OldOverNew(m: KvMap, e: Entry)
    requires m == map["k" := "new"] && e == Entry(1, "a", "k", "old")
    ensures Fold(Insert(Synthetic(["k"], m), e)) == map["k" := "old"]
  {
    var t := Synthetic(["k"], m);
    assert t.Keys == {0} && t[0].key == "k";
    OneOverAnother(t, e);
  }

  lemma OneOverAnother(t: Table, e: Entry)
    requires t.Keys == {0} && t[0].key == e.key && e.index == 1
    ensures Fold(Insert(t, e)) == map[e.key := e.value]
  {
    var u := Insert(t, e);
    FoldIsFoldBelow(u, 2);
    assert FoldBelow(u, 1) == map[e.key := t[0].value];
  }

  /** Two writes of one key, the first still queued when the snapshot of both arrives: after its
      flush, a restart brings the old value back. */
  lemma UndrainedRestoreGoesBack()
    ensures var v1 := Fed(BootView(map[], 4096, 1), RETRIED[0], 0);
            var q := RestoreTo(v1, KvAt(RETRIED, 2), ["k"]).q;
            var evs := [WriteQueue.Receive, WriteQueue.Flush(true)];
            && KvAt(RETRIED, 2) == map["k" := "new"]
            && WriteQueue.Legal(q, evs)
            && BootView(WriteQueue.Run(q, WriteQueue.NOTHING, evs).0.table, 4096, 1).kv == map["k" := "old"]
  {
    RetriedMeans();
    var v1 := Fed(BootView(map[], 4096, 1), RETRIED[0], 0);
    var e := EntryOf(RETRIED[0]);
    ReceiveAndFlush(RestoreTo(v1, KvAt(RETRIED, 2), ["k"]).q, e);
    OldOverNew(KvAt(RETRIED, 2), e);
  }

  // ---------------------------------------------------------------- a swallowed write

  function PutTo(index: nat, key: string): LogItem {
    LogItem(index, Decoded(Command("put", key, "v", key)))
  }

  const FOUR: Log := [PutTo(1, "a"), PutTo(2, "b"), PutTo(3, "c"), PutTo(4, "d")]

  /** The rows of FOUR without the second. */
  function ThreeRows(): Table {
    map[1 := EntryOf(FOUR[0]), 3 := EntryOf(FOUR[2]), 4 := EntryOf(FOUR[3])]
  }

  const THREE_KEYS: KvMap := map["a" := "v", "c" := "v", "d" := "v"]

  lemma ThreeRowsFold()
    ensures Fold(ThreeRows()) == THREE_KEYS
  {
    var t := ThreeRows();
    FoldIsFoldBelow(t, 5);
    assert FoldBelow(t, 2) == map["a" := "v"];
    assert FoldBelow(t, 4) == map["a" := "v", "c" := "v"];
  }

  /** One more event of a run. */
  lemma Then(log: Log, ttl: nat, start: Node.Node, evs: seq<Node.Event>, n: Node.Node, ev: Node.Event)
      returns (evs': seq<Node.Event>, n': Node.Node)
    requires Node.Legal(log, ttl, start, evs) && Node.Run(log, ttl, start, evs) == n && Node.Enabled(log, n, ev)
    ensures evs' == evs + [ev] && n' == Node.Next(log, ttl, n, ev)
    ensures Node.Legal(log, ttl, start, evs') && Node.Run(log, ttl, start, evs') == n'
  {
    evs', n' := evs + [ev], Node.Next(log, ttl, n, ev);
    assert evs'[..|evs|] == evs;
  }

  lemma ThreeMore(log: Log, ttl: nat, start: Node.Node, evs: seq<Node.Event>, n: Node.Node,
                  a: Node.Event, b: Node.Event, c: Node.Event) returns (evs': seq<Node.Event>, n': Node.Node)
    requires Node.Legal(log, ttl, start, evs) && Node.Run(log, ttl, start, evs) == n && Node.Enabled(log, n, a)
    requires var n1 := Node.Next(log, ttl, n, a);
             Node.Enabled(log, n1, b) && Node.Enabled(log, Node.Next(log, ttl, n1, b), c)
    ensures n' == Node.Next(log, ttl, Node.Next(log, ttl, Node.Next(log, ttl, n, a), b), c)
    ensures Node.Legal(log, ttl, start, evs') && Node.Run(log, ttl, start, evs') == n'
    ensures Restoring.Steady(evs) && Restoring.SteadyEvent(a) && Restoring.SteadyEvent(b) && Restoring.SteadyEvent(c) ==>
              Restoring.Steady(evs')
  {
    var e1, n1 := Then(log, ttl, start, evs, n, a);
    var e2, n2 := Then(log, ttl, start, e1, n1, b);
    evs', n' := Then(log, ttl, start, e2, n2, c);
  }

  /** An idle node with room in the channel, whose batches are single rows. */
  predicate OneByOne(n: Node.Node) {
    var q := n.view.q;
    q.open && q.ch == [] && q.batch == [] && q.pc.Selecting? && q.cap >= 1 && q.flushSize == 1
  }

  /** `n` with its next entry, a put with a new key, applied and its row written or lost. */
  function Consumed(log: Log, n: Node.Node, ok: bool): Node.Node
    requires n.applied < |log| && IsPut(log[n.applied])
  {
    var e := EntryOf(log[n.applied]);
    n.(view := View(n.view.kv[e.key := e.value], n.view.seen[e.idem := n.clock],
                    n.view.q.(table := if ok then Insert(n.view.q.table, e) else n.view.q.table)),
       applied := n.applied + 1,
       dropped := if ok then n.dropped else n.dropped + [e],
       marks := n.marks[e.idem := n.clock])
  }

  lemma ConsumeApply(log: Log, n: Node.Node)
    requires OneByOne(n) && n.snapAt <= n.applied < |log| && IsPut(log[n.applied])
    requires var x := log[n.applied].data.cmd.idem; x != "" && x !in n.view.seen && x !in n.marks
    ensures Node.Enabled(log, n, Node.Deliver(Fast, n.clock))
    ensures var e, n' := EntryOf(log[n.applied]), Consumed(log, n, false);
            Node.Delivered(log, n, Fast, n.clock) ==
            n'.(view := n'.view.(q := n.view.q.(ch := [e])), dropped := n.dropped)
  {
  }

  lemma ConsumeReceive(log: Log, ttl: nat, n: Node.Node, e: Entry)
    requires var q := n.view.q; q.ch == [e] && q.batch == [] && q.pc.Selecting? && q.flushSize == 1
    ensures Node.Enabled(log, n, Node.Work(WriteQueue.Receive))
    ensures Node.Next(log, ttl, n, Node.Work(WriteQueue.Receive)) ==
            n.(view := n.view.(q := n.view.q.(ch := [], batch := [e], pc := WriteQueue.Flushing)))
  {
  }

  lemma ConsumeFlush(log: Log, ttl: nat, n: Node.Node, e: Entry, ok: bool)
    requires var q := n.view.q; q.ch == [] && q.batch == [e] && q.pc.Flushing? && q.open
    ensures Node.Enabled(log, n, Node.Work(WriteQueue.Flush(ok)))
    ensures var t := n.view.q.table;
            Node.Next(log, ttl, n, Node.Work(WriteQueue.Flush(ok))) ==
            n.(view := n.view.(q := n.view.q.(table := if ok then Insert(t, e) else t, batch := [], pc := WriteQueue.Selecting)),
               dropped := if ok then n.dropped else n.dropped + [e])
  {
    InsertAllOne(n.view.q.table, e);
  }

  lemma ConsumeSteps(log: Log, ttl: nat, n: Node.Node, ok: bool)
    requires OneByOne(n) && n.snapAt <= n.applied < |log| && IsPut(log[n.applied])
    requires var x := log[n.applied].data.cmd.idem; x != "" && x !in n.view.seen && x !in n.marks
    ensures Node.Enabled(log, n, Node.Deliver(Fast, n.clock))
    ensures var n1 := Node.Next(log, ttl, n, Node.Deliver(Fast, n.clock));
            && Node.Enabled(log, n1, Node.Work(WriteQueue.Receive))
            && var n2 := Node.Next(log, ttl, n1, Node.Work(WriteQueue.Receive));
               && Node.Enabled(log, n2, Node.Work(WriteQueue.Flush(ok)))
               && Node.Next(log, ttl, n2, Node.Work(WriteQueue.Flush(ok))) == Consumed(log, n, ok)
    ensures OneByOne(Consumed(log, n, ok))
  {
    var e := EntryOf(log[n.applied]);
    ConsumeApply(log, n);
    var n1 := Node.Next(log, ttl, n, Node.Deliver(Fast, n.clock));
    ConsumeReceive(log, ttl, n1, e);
    ConsumeFlush(log, ttl, Node.Next(log, ttl, n1, Node.Work(WriteQueue.Receive)), e, ok);
  }

  /** The entry delivered, received and flushed. */
  lemma Consume(log: Log, ttl: nat, start: Node.Node, evs: seq<Node.Event>, n: Node.Node, ok: bool)
      returns (evs': seq<Node.Event>, n': Node.Node)
    requires Node.Legal(log, ttl, start, evs) && Node.Run(log, ttl, start, evs) == n
    requires OneByOne(n) && n.snapAt <= n.applied < |log| && IsPut(log[n.applied])
    requires var x := log[n.applied].data.cmd.idem; x != "" && x !in n.view.seen && x !in n.marks
    ensures Restoring.Steady(evs) && ok ==> Restoring.Steady(evs')
    ensures n' == Consumed(log, n, ok) && OneByOne(n')
    ensures Node.Legal(log, ttl, start, evs') && Node.Run(log, ttl, start, evs') == n'
  {
    ConsumeSteps(log, ttl, n, ok);
    evs', n' := ThreeMore(log, ttl, start, evs, n,
                          Node.Deliver(Fast, n.clock), Node.Work(WriteQueue.Receive), Node.Work(WriteQueue.Flush(ok)));
  }

  lemma FourItems()
    ensures WellFormed(FOUR)
    ensures forall i :: 0 <= i < 4 ==>
              IsPut(FOUR[i]) && FOUR[i].index == i + 1 && FOUR[i].data.cmd.idem == FOUR[i].data.cmd.key != ""
    ensures FOUR[0].data.cmd.key == "a" && FOUR[1].data.cmd.key == "b"
    ensures FOUR[2].data.cmd.key == "c" && FOUR[3].data.cmd.key == "d"
  {
  }

  /** Ready for the next entry of FOUR, with a key it has not seen. */
  ghost predicate Poised(n: Node.Node) {
    && OneByOne(n) && n.snapAt <= n.applied <= 4
    && forall j :: n.applied <= j < 4 ==> FOUR[j].data.cmd.idem !in n.view.seen && FOUR[j].data.cmd.idem !in n.marks
  }

  lemma ConsumeNext(ttl: nat, start: Node.Node, evs: seq<Node.Event>, n: Node.Node, ok: bool)
      returns (evs': seq<Node.Event>, n': Node.Node)
    requires Node.Legal(FOUR, ttl, start, evs) && Node.Run(FOUR, ttl, start, evs) == n
    requires Poised(n) && n.applied < 4
    ensures Restoring.Steady(evs) && ok ==> Restoring.Steady(evs')
    ensures IsPut(FOUR[n.applied]) && n' == Consumed(FOUR, n, ok) && Poised(n')
    ensures Node.Legal(FOUR, ttl, start, evs') && Node.Run(FOUR, ttl, start, evs') == n'
  {
    FourItems();
    evs', n' := Consume(FOUR, ttl, start, evs, n, ok);
  }

  /** A process that has consumed two entries and lost the second row to a failed flush. */
  lemma SecondRowLost(ttl: nat) returns (evs: seq<Node.Event>, n: Node.Node)
    ensures Node.Legal(FOUR, ttl, Node.Initial(4096, 1, 0), evs)
    ensures n == Node.Run(FOUR, ttl, Node.Initial(4096, 1, 0), evs) && n.snapAt == n.base == n.clock == 0
    ensures Poised(n) && n.applied == 2 && n.view.q.table == map[1 := EntryOf(FOUR[0])]
    ensures n.view.q.cap == 4096
  {
    var start := Node.Initial(4096, 1, 0);
    var e1, n1 := ConsumeNext(ttl, start, [], start, true);
    evs, n := ConsumeNext(ttl, start, e1, n1, false);
  }

  lemma OtherRowsWritten(ttl: nat) returns (evs: seq<Node.Event>, n: Node.Node)
    ensures Node.Legal(FOUR, ttl, Node.Initial(4096, 1, 0), evs)
    ensures n == Node.Run(FOUR, ttl, Node.Initial(4096, 1, 0), evs) && n.snapAt == n.base == n.clock == 0
    ensures n.view.q.table == ThreeRows() && n.view.q.cap == 4096 && n.view.q.flushSize == 1
  {
    var e2, n2 := SecondRowLost(ttl);
    var start := Node.Initial(4096, 1, 0);
    var e3, n3 := ConsumeNext(ttl, start, e2, n2, true);
    evs, n := ConsumeNext(ttl, start, e3, n3, true);
  }

  /** After a crash, a snapshot is taken behind the first re-delivered entry. */
  lemma RestartedAndConsumedOne(ttl: nat) returns (evs: seq<Node.Event>, n: Node.Node)
    ensures Node.Legal(FOUR, ttl, Node.Initial(4096, 1, 0), evs)
    ensures n == Node.Run(FOUR, ttl, Node.Initial(4096, 1, 0), evs)
    ensures n.applied == 1 && n.snapAt == n.base == n.clock == 0 && n.view.q.table == ThreeRows()
    ensures n.view.q.cap == 4096 && n.view.q.flushSize == 1
  {
    var start := Node.Initial(4096, 1, 0);
    var e4, n4 := OtherRowsWritten(ttl);
    var e5, n5 := Then(FOUR, ttl, start, e4, n4, Node.Crash);
    evs, n := ConsumeNext(ttl, start, e5, n5, true);
    assert n.view.q.table == ThreeRows();
  }

  /** It reads the three rows that are there; then another crash. */
  lemma SnapshotFromBeyond(ttl: nat) returns (evs: seq<Node.Event>, n: Node.Node)
    ensures Recovery.Life(FOUR, ttl, 4096, 1, 0, evs) && n == Recovery.End(FOUR, ttl, 4096, 1, 0, evs)
    ensures n.applied == 0 && n.snapAt == 1 && n.snap == THREE_KEYS && n.clock == 0
    ensures n.view == BootView(ThreeRows(), 4096, 1) && n.marks == map[]
  {
    FourItems();
    ThreeRowsFold();
    var start := Node.Initial(4096, 1, 0);
    var e6, n6 := RestartedAndConsumedOne(ttl);
    var e7, n7 := Then(FOUR, ttl, start, e6, n6, Node.TakeSnapshot);
    evs, n := Then(FOUR, ttl, start, e7, n7, Node.Crash);
  }

  /** No row has the key of the second entry, and its index is taken. */
  predicate Blocked(t: Table) {
    2 in t && forall i :: i in t ==> t[i].key != "b"
  }

  /** The write is consumed, and its row is swallowed. */
  lemma SecondSwallowed(ttl: nat, start: Node.Node) returns (evs: seq<Node.Event>, n: Node.Node)
    requires Poised(start) && start.applied == 1 && start.dropped == [] && Blocked(start.view.q.table)
    ensures Node.Legal(FOUR, ttl, start, evs) && n == Node.Run(FOUR, ttl, start, evs) && Restoring.Steady(evs)
    ensures n.applied == 2 && Poised(n) && n.dropped == [] && "b" in n.view.kv && Blocked(n.view.q.table)
  {
    evs, n := ConsumeNext(ttl, start, [], start, true);
  }

  /** The rest of the log on top of that snapshot. */
  lemma RestConsumed(ttl: nat, start: Node.Node) returns (evs: seq<Node.Event>, n: Node.Node)
    requires Poised(start) && start.applied == 1 && start.dropped == [] && Blocked(start.view.q.table)
    ensures Node.Legal(FOUR, ttl, start, evs) && n == Node.Run(FOUR, ttl, start, evs) && Restoring.Steady(evs)
    ensures n.applied == 4 && Poised(n) && n.dropped == [] && "b" in n.view.kv && Blocked(n.view.q.table)
  {
    var e1, n1 := SecondSwallowed(ttl, start);
    var e2, n2 := ConsumeNext(ttl, start, e1, n1, true);
    evs, n := ConsumeNext(ttl, start, e2, n2, true);
  }

  lemma ThreeInOrder(order: seq<string>)
    requires order == ["a", "c", "d"]
    ensures IsOrder(order, THREE_KEYS) && |THREE_KEYS| == 3
    ensures Synthetic(order, THREE_KEYS).Keys == {0, 1, 2} && Blocked(Synthetic(order, THREE_KEYS))
  {
    assert order[0] == "a" && order[1] == "c" && order[2] == "d";
    OrderLength(order, THREE_KEYS);
  }

  lemma SnapshotToRestore(ttl: nat) returns (before: seq<Node.Event>, n: Node.Node, order: seq<string>)
    ensures Recovery.Life(FOUR, ttl, 4096, 1, 0, before) && n == Recovery.End(FOUR, ttl, 4096, 1, 0, before)
    ensures n.snapAt == 1 && |n.snap| == 3 && Restoring.RestorePoint(FOUR, n, 1, n.snap, order)
    ensures var start := Node.Restored(n, 1, n.snap, order);
            Poised(start) && start.applied == 1 && start.dropped == [] && Blocked(start.view.q.table)
  {
    before, n := SnapshotFromBeyond(ttl);
    order := ["a", "c", "d"];
    ThreeInOrder(order);
    OnlyFreshKeys(1);
  }

  /** A snapshot with more keys than its position, which Snapshot takes while the table is ahead of the
      entries consumed: its synthetic rows swallow a committed write that comes after it. Everything
      is consumed and drained without another failure, the live map has the key, and the next start-up
      has lost it. */
  lemma SwallowedWrite(ttl: nat)
      returns (before: seq<Node.Event>, n: Node.Node, order: seq<string>, after: seq<Node.Event>, end: Node.Node)
    ensures n == Recovery.End(FOUR, ttl, 4096, 1, 0, before) && n.snapAt == 1 && |n.snap| == 3
    ensures Restoring.Continues(FOUR, ttl, 4096, 1, 0, before, 1, n.snap, order, after)
    ensures end == Node.Run(FOUR, ttl, Node.Restored(n, 1, n.snap, order), after)
    ensures end.applied == |FOUR| && Restoring.Queued(end) == [] && end.dropped == []
    ensures "b" in KvAt(FOUR, 4) && "b" in end.view.kv && "b" !in BootView(end.view.q.table, 4096, 1).kv
  {
    before, n, order := SnapshotToRestore(ttl);
    after, end := RestConsumed(ttl, Node.Restored(n, 1, n.snap, order));
    LostToTheRows(end);
  }

  lemma LostToTheRows(end: Node.Node)
    requires Poised(end) && Blocked(end.view.q.table)
    ensures Restoring.Queued(end) == [] && "b" in KvAt(FOUR, 4) && "b" !in BootView(end.view.q.table, 4096, 1).kv
  {
    FourMeans();
    NoRowNoKey(end.view.q.table, "b");
  }

  lemma FourMeans()
    ensures "b" in KvAt(FOUR, 4)
  {
    FourItems();
    assert IsEffective(FOUR, 1);
    EffectiveKeyPresent(FOUR, 1, 4);
  }

  lemma NoRowNoKey(t: Table, k: string)
    requires forall i :: i in t ==> t[i].key != k
    ensures k !in Fold(t)
  {
    if k in Fold(t) { var i := WinnerExists(t, Bound(t), k); }
  }

  lemma OnlyFreshKeys(s: nat)
    requires s <= 4
    ensures CleanCut(FOUR, s, {})
  {
    FourItems();
  }
}
