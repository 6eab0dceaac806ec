/** A node over its whole life: entries delivered from one committed log, the worker running beside
    them, cleaner passes, snapshots taken and installed, crashes at any point, recoveries. */
module Node {
  import opened Types
  import opened Rows
  import opened CommittedLog
  import opened Fsm
  import WriteQueue
  import Dedup

  datatype Node = Node(
    view: View,
    // what raft keeps for this node
    applied: nat,              // log entries consumed by this process
    snapAt: nat,               // position of raft's durable snapshot, 0 for none
    snap: KvMap,               // its contents
    exact: bool,               // was it the log's map at `snapAt` when it was taken?
    // what the proofs remember
    base: nat,                 // position of the snapshot that the table was last replaced by
    boot: Table,               // the table this process replayed at start-up
    dropped: seq<Entry>,       // entries whose insert failed, since start-up or the last restore
    marks: map<string, int>,   // every idempotency key this process applied
    since: nat,                // position from which this process has consumed the log
    clock: int)

  datatype Event =
    | Deliver(path: Path, now: int)          // Apply of the next entry
    | Work(ev: WriteQueue.Event)             // a worker step, or the stop signal
    | Clean(now: int)                        // a cleaner pass
    | TakeSnapshot                           // raft calls Snapshot and keeps the result
    | Install(at: nat, order: seq<string>)   // the leader's snapshot arrives
    | Crash                                  // process gone; a new one replays the table
    | Recover(order: seq<string>)            // raft restores its own snapshot after a start

  /** Entries accepted but not in the table: failed, batched or queued. */
  function Pending(n: Node): seq<Entry> {
    n.dropped + n.view.q.batch + n.view.q.ch
  }

  /** The table with every pending entry written. */
  function Merged(n: Node): Table {
    InsertAll(n.view.q.table, Pending(n))
  }

  /** The table holds nothing from beyond what this process has consumed. */
  ghost predicate TableCaughtUp(log: Log, n: Node) {
    n.base <= n.applied <= |log| && forall i :: i in n.view.q.table ==> i <= Cut(log, n.applied)
  }

  /** The rows replayed at start-up have all been consumed again. */
  ghost predicate BootCaughtUp(log: Log, n: Node) {
    n.base <= n.applied <= |log| && forall i :: i in n.boot ==> i <= Cut(log, n.applied)
  }

  predicate WorkerEvent(ev: WriteQueue.Event) {
    !ev.SendFast? && !ev.SendSlow? && !ev.Close?
  }

  /** A pending entry without a row of its own that is the newest write of its key so far. */
  ghost predicate Newest(log: Log, n: Node, e: Entry)
    requires n.applied <= |log|
  {
    e in Pending(n) && e.index !in n.view.q.table && Wins(Merged(n), Cut(log, n.applied) + 1, e.key, e.index)
  }

  /** Nothing that makes Snapshot differ from the log at key `k`: where a row from beyond `applied`
      decides the key, it carries the value that the log gives it at `applied`, and where a pending
      entry should decide it, the table happens to give the same value. */
  ghost predicate SafeAt(log: Log, n: Node, k: string)
    requires n.applied <= |log|
  {
    var t := n.view.q.table;
    && (forall i: nat :: Wins(t, Bound(t), k, i) && i > Cut(log, n.applied) ==>
          k in KvAt(log, n.applied) && KvAt(log, n.applied)[k] == t[i].value)
    && (forall e :: Newest(log, n, e) && e.key == k ==> k in Fold(t) && Fold(t)[k] == e.value)
  }

  ghost predicate SnapshotSafe(log: Log, n: Node) {
    n.applied <= |log| && forall k :: SafeAt(log, n, k)
  }

  /** Raft's contract and the assumptions under which the design works:
      - Deliver: a key this process applied and then evicted does not come back;
      - Install: nothing is queued, and a key used on both sides of the snapshot is one that this
        process applied itself;
      - Recover: the snapshot was exact, and no idempotency key is used on both sides of it. */
  ghost predicate Enabled(log: Log, n: Node, ev: Event) {
    match ev
    case Deliver(path, now) =>
      && n.snapAt <= n.applied < |log|
      && n.clock <= now
      && (Applies(n.view.seen, log[n.applied]) ==>
            WriteQueue.Enabled(n.view.q, SendEvent(path, EntryOf(log[n.applied]))))
      && Remembered(n, log[n.applied])
    case Work(w) => WorkerEvent(w) && WriteQueue.Enabled(n.view.q, w)
    case Clean(now) => n.clock <= now
    case TakeSnapshot => 0 < n.applied <= |log| && n.snapAt <= n.applied
    case Install(at, order) =>
      && n.snapAt <= n.applied <= at <= |log|
      && n.view.q.ch == [] && n.view.q.batch == []
      && IsOrder(order, KvAt(log, at))
      && CleanCut(log, at, n.marks.Keys)
    case Crash => true
    case Recover(order) =>
      n.applied < n.snapAt <= |log| && n.exact && IsOrder(order, n.snap) && CleanCut(log, n.snapAt, n.marks.Keys)
  }

  /** If this process applied the item's idempotency key, it has not evicted it. */
  ghost predicate Remembered(n: Node, item: LogItem) {
    forall x :: PutWith(item, x) && x in n.marks ==> x in n.view.seen
  }

  /** Restore of the map `m`, a snapshot at position `at`. */
  function Restored(n: Node, at: nat, m: KvMap, order: seq<string>): Node
    requires forall k :: k in order ==> k in m
  {
    n.(view := RestoreTo(n.view, m, order), applied := at, snapAt := at, snap := m,
       exact := true, base := at, dropped := [], since := at)
  }

  function Delivered(log: Log, n: Node, path: Path, now: int): Node
    requires n.applied < |log|
    requires Applies(n.view.seen, log[n.applied]) ==>
               WriteQueue.Enabled(n.view.q, SendEvent(path, EntryOf(log[n.applied])))
  {
    var item := log[n.applied];
    var n' := n.(view := ApplyTo(n.view, item, path, now), applied := n.applied + 1, clock := now);
    if Applies(n.view.seen, item) then
      n'.(dropped := if path == Slow(false) then n.dropped + [EntryOf(item)] else n.dropped,
          marks := Dedup.Marked(n.marks, item.data.cmd.idem, now))
    else n'
  }

  ghost function Next(log: Log, ttl: nat, n: Node, ev: Event): Node
    requires Enabled(log, n, ev)
  {
    match ev
    case Deliver(path, now) => Delivered(log, n, path, now)
    case Work(w) =>
      n.(view := n.view.(q := WriteQueue.Next(n.view.q, w)),
         dropped := if w == WriteQueue.Flush(false) then n.dropped + n.view.q.batch else n.dropped)
    case Clean(now) => n.(view := n.view.(seen := Dedup.Evicted(n.view.seen, ttl, now)), clock := now)
    case TakeSnapshot => n.(snapAt := n.applied, snap := Fold(n.view.q.table), exact := SnapshotSafe(log, n))
    case Install(at, order) => Restored(n, at, KvAt(log, at), order)
    case Crash =>
      var q := n.view.q;
      n.(view := BootView(q.table, q.cap, q.flushSize), applied := 0,
         boot := q.table, dropped := [], marks := map[], since := 0)
    case Recover(order) => Restored(n, n.snapAt, n.snap, order)
  }

  /** A node that has never run. */
  ghost function Initial(cap: nat, flushSize: nat, clock: int): Node {
    Node(BootView(map[], cap, flushSize), 0, 0, map[], true, 0, map[], [], map[], 0, clock)
  }

  /** The node after a run. */
  ghost function Run(log: Log, ttl: nat, start: Node, evs: seq<Event>): Node
    decreases |evs|
  {
    if evs == [] then start
    else
      var n := Run(log, ttl, start, evs[..|evs| - 1]);
      if Enabled(log, n, evs[|evs| - 1]) then Next(log, ttl, n, evs[|evs| - 1]) else n
  }

  /** Every event of the run was possible when it happened. */
  ghost predicate Legal(log: Log, ttl: nat, start: Node, evs: seq<Event>)
    decreases |evs|
  {
    evs != [] ==>
      && Legal(log, ttl, start, evs[..|evs| - 1])
      && Enabled(log, Run(log, ttl, start, evs[..|evs| - 1]), evs[|evs| - 1])
  }

  // ---------------------------------------------------------------- the invariant

  ghost predicate Bounds(log: Log, n: Node) {
    && n.base <= n.snapAt <= |log|
    && n.applied <= |log|
    && (n.applied == 0 || n.snapAt <= n.applied)
    && n.view.q.open
    && WriteQueue.Configured(n.view.q)
  }

  function At(n: Node): nat {
    if n.applied < n.base then n.base else n.applied
  }

  /** Rows up to the base snapshot fold to it; rows above come from the log, each under its own
      index; rows from beyond what was consumed were there at start-up. */
  ghost predicate TableOk(log: Log, n: Node)
    requires Bounds(log, n)
  {
    var t := n.view.q.table;
    && Keyed(t)
    && FoldBelow(t, Cut(log, n.base) + 1) == KvAt(log, n.base)
    && (forall i :: i in t && i > Cut(log, n.base) ==> RowOf(log, t[i], n.base, |log|))
    && (forall i :: i in t && i > Cut(log, At(n)) ==> i in n.boot && n.boot[i] == t[i])
  }

  ghost predicate BootOk(log: Log, n: Node)
    requires Bounds(log, n)
  {
    && Keyed(n.boot)
    && forall i :: i in n.boot && i > Cut(log, n.base) ==> RowOf(log, n.boot[i], n.base, |log|)
  }

  /** Pending entries are effective puts consumed since the base snapshot. */
  ghost predicate PendingOk(log: Log, n: Node)
    requires Bounds(log, n)
  {
    forall e :: e in Pending(n) ==> RowOf(log, e, n.base, n.applied)
  }

  /** No effective put consumed since the base snapshot is lost: it has a row or it is pending. */
  ghost predicate Covered(log: Log, n: Node)
    requires Bounds(log, n)
  {
    forall j :: n.base <= j < n.applied && IsEffective(log, j) ==>
      log[j].index in n.view.q.table || EntryOf(log[j]) in Pending(n)
  }

  /** A start-up row from beyond position `p` has key `k`. */
  ghost predicate BootKeyAhead(log: Log, boot: Table, p: nat, k: string)
    requires p <= |log|
  {
    exists i :: i in boot && i > Cut(log, p) && boot[i].key == k
  }

  /** The live map `kv` holds what the log says at `a`. */
  ghost predicate HoldsLog(log: Log, a: nat, kv: KvMap)
    requires a <= |log|
  {
    forall k :: k in KvAt(log, a) ==> k in kv && kv[k] == KvAt(log, a)[k]
  }

  /** Any key that the log does not have at `p` comes from a start-up row from beyond. */
  ghost predicate NoOtherKey(log: Log, boot: Table, p: nat, kv: KvMap)
    requires p <= |log|
  {
    forall k :: k in kv ==> k in KvAt(log, p) || BootKeyAhead(log, boot, p, k)
  }

  predicate HasKeysOf(boot: Table, kv: KvMap) {
    forall i :: i in boot ==> boot[i].key in kv
  }

  /** The live map holds what the log says; any further key comes from a start-up row that has not
      been consumed again yet. */
  ghost predicate KvOk(log: Log, n: Node)
    requires Bounds(log, n)
  {
    HoldsLog(log, n.applied, n.view.kv) && NoOtherKey(log, n.boot, At(n), n.view.kv) && HasKeysOf(n.boot, n.view.kv)
  }

  /** This process remembers the keys it has applied, except those evicted; a key from before it
      joined the log that it did not apply itself does not come back. */
  ghost predicate DedupOk(log: Log, n: Node)
    requires Bounds(log, n)
  {
    && n.since <= n.applied
    && CleanCut(log, n.since, n.marks.Keys)
    && (forall x :: x in n.view.seen ==> x in n.marks)
    && (forall x :: x in n.marks ==> exists j :: 0 <= j < n.applied && PutWith(log[j], x))
    && (forall j, x :: n.since <= j < n.applied && PutWith(log[j], x) ==> x in n.marks)
  }

  ghost predicate Inv(log: Log, n: Node) {
    && Bounds(log, n)
    && TableOk(log, n)
    && BootOk(log, n)
    && PendingOk(log, n)
    && Covered(log, n)
    && KvOk(log, n)
    && DedupOk(log, n)
    && (n.exact <==> n.snap == KvAt(log, n.snapAt))
  }

  // ---------------------------------------------------------------- Deliver

  /** The node's verdict on the next entry is the log's if and only if the entry's key, where this
      process applied it before, has not been evicted since. */
  lemma {:induction false} VerdictIsTheLogs(log: Log, n: Node)
    requires Bounds(log, n) && DedupOk(log, n) && n.applied < |log|
    ensures (Applies(n.view.seen, log[n.applied]) <==> IsEffective(log, n.applied)) <==> Remembered(n, log[n.applied])
  {
    var item := log[n.applied];
    if IsPut(item) && item.data.cmd.idem != "" {
      var x := item.data.cmd.idem;
      assert PutWith(item, x);
      if x in n.marks {
        var j :| 0 <= j < n.applied && PutWith(log[j], x);
      } else {
        forall j | 0 <= j < n.applied ensures !PutWith(log[j], x) {}
      }
    }
  }

  /** `n'` is `n` with one more entry consumed. */
  ghost predicate OneMore(log: Log, n: Node, n': Node) {
    && n.base <= n.applied < |log|
    && n'.applied == n.applied + 1
    && n'.base == n.base && n'.boot == n.boot && n'.since == n.since && n'.snapAt == n.snapAt
  }

  /** Consuming an entry either reaches the start-up row with key `k` or leaves it ahead. */
  lemma BootKeyStep(log: Log, boot: Table, base: nat, a: nat, k: string)
    requires WellFormed(log) && base <= a < |log| && Keyed(boot)
    requires forall i :: i in boot && i > Cut(log, base) ==> RowOf(log, boot[i], base, |log|)
    requires BootKeyAhead(log, boot, a, k)
    ensures (IsEffective(log, a) && log[a].data.cmd.key == k) || BootKeyAhead(log, boot, a + 1, k)
  {
    CutMonotone(log, base, a);
    var i :| i in boot && i > Cut(log, a) && boot[i].key == k;
    var j :| base <= j < |log| && IsEffective(log, j) && EntryOf(log[j]) == boot[i];
    assert log[j].index == i;
    if i <= log[a].index {
      assert j == a;
    }
  }

  /** The live map after the entry at `a`. */
  ghost function KvAfter(log: Log, kv: KvMap, a: nat): KvMap
    requires a < |log|
  {
    if IsEffective(log, a) then kv[log[a].data.cmd.key := log[a].data.cmd.value] else kv
  }

  lemma DeliverValues(log: Log, kv: KvMap, a: nat)
    requires a < |log|
    requires HoldsLog(log, a, kv)
    ensures HoldsLog(log, a + 1, KvAfter(log, kv, a))
  {
    KvAtStep(log, a);
  }

  lemma DeliverKeys(log: Log, boot: Table, base: nat, kv: KvMap, a: nat)
    requires WellFormed(log) && base <= a < |log| && Keyed(boot)
    requires forall i :: i in boot && i > Cut(log, base) ==> RowOf(log, boot[i], base, |log|)
    requires NoOtherKey(log, boot, a, kv)
    ensures NoOtherKey(log, boot, a + 1, KvAfter(log, kv, a))
  {
    KvAtStep(log, a);
    forall k | k in kv ensures k in KvAt(log, a + 1) || BootKeyAhead(log, boot, a + 1, k) {
      if k !in KvAt(log, a) { BootKeyStep(log, boot, base, a, k); }
    }
  }

  lemma DeliverKv(log: Log, n: Node, n': Node)
    requires WellFormed(log) && Bounds(log, n) && BootOk(log, n) && KvOk(log, n)
    requires OneMore(log, n, n') && Bounds(log, n') && n'.view.kv == KvAfter(log, n.view.kv, n.applied)
    ensures KvOk(log, n')
  {
    assert At(n) == n.applied && At(n') == n.applied + 1;
    DeliverValues(log, n.view.kv, n.applied);
    DeliverKeys(log, n.boot, n.base, n.view.kv, n.applied);
  }

  lemma KvAtStep(log: Log, a: nat)
    requires a < |log|
    ensures KvAt(log, a + 1) ==
            if IsEffective(log, a) then KvAt(log, a)[log[a].data.cmd.key := log[a].data.cmd.value] else KvAt(log, a)
  {
  }

  lemma DeliverDedup(log: Log, n: Node, n': Node)
    requires Bounds(log, n) && DedupOk(log, n)
    requires OneMore(log, n, n') && Bounds(log, n')
    requires Applies(n.view.seen, log[n.applied]) ==>
               && n'.view.seen.Keys == n.view.seen.Keys + KeyOf(log[n.applied])
               && n'.marks.Keys == n.marks.Keys + KeyOf(log[n.applied])
    requires !Applies(n.view.seen, log[n.applied]) ==> n'.view.seen == n.view.seen && n'.marks == n.marks
    ensures DedupOk(log, n')
  {
    var a := n.applied;
    assert n.marks.Keys <= n'.marks.Keys;
    KnowingMore(log, n.since, n.marks.Keys, n'.marks.Keys);
    forall x | x in n'.marks ensures exists j :: 0 <= j < a + 1 && PutWith(log[j], x) {
      MarkedFromLog(log, n, n'.marks.Keys, x);
    }
    forall j, x | n.since <= j < a + 1 && PutWith(log[j], x) ensures x in n'.marks {
      if j == a { assert x in n.view.seen || x in KeyOf(log[a]); }
    }
  }

  lemma KnowingMore(log: Log, s: nat, a: set<string>, b: set<string>)
    requires s <= |log| && CleanCut(log, s, a) && a <= b
    ensures CleanCut(log, s, b)
  {
  }

  lemma MarkedFromLog(log: Log, n: Node, keys: set<string>, x: string)
    requires Bounds(log, n) && DedupOk(log, n) && n.applied < |log|
    requires keys == n.marks.Keys || (IsPut(log[n.applied]) && keys == n.marks.Keys + KeyOf(log[n.applied]))
    requires x in keys
    ensures exists j :: 0 <= j < n.applied + 1 && PutWith(log[j], x)
  {
    if x in n.marks {
      var j :| 0 <= j < n.applied && PutWith(log[j], x);
    } else {
      assert PutWith(log[n.applied], x);
    }
  }

  /** The idempotency key of a put, if it has one. */
  function KeyOf(item: LogItem): set<string>
    requires IsPut(item)
  {
    if item.data.cmd.idem == "" then {} else {item.data.cmd.idem}
  }

  lemma DeliverTable(log: Log, n: Node, n': Node)
    requires WellFormed(log) && Bounds(log, n) && TableOk(log, n) && BootOk(log, n)
    requires OneMore(log, n, n') && Bounds(log, n')
    requires n'.view.q.table == n.view.q.table
             || (IsEffective(log, n.applied) && n'.view.q.table == Insert(n.view.q.table, EntryOf(log[n.applied])))
    ensures TableOk(log, n') && BootOk(log, n')
  {
    assert Cut(log, n.applied) < log[n.applied].index == Cut(log, n'.applied);
    if n'.view.q.table != n.view.q.table {
      DeliverRow(log, n, n');
    }
  }

  /** The row of the entry just consumed lies above the base snapshot. */
  lemma DeliverRow(log: Log, n: Node, n': Node)
    requires WellFormed(log) && Bounds(log, n) && TableOk(log, n)
    requires OneMore(log, n, n') && Bounds(log, n') && IsEffective(log, n.applied)
    requires log[n.applied].index !in n.view.q.table
    requires n'.view.q.table == n.view.q.table[log[n.applied].index := EntryOf(log[n.applied])]
    ensures TableOk(log, n')
  {
    var a := n.applied;
    CutMonotone(log, n.base, a);
    assert Cut(log, a) < log[a].index == Cut(log, a + 1);
    FoldFrame(n.view.q.table, n'.view.q.table, Cut(log, n.base) + 1);
    assert RowOf(log, EntryOf(log[a]), n.base, |log|);
  }

  lemma DeliverPending(log: Log, n: Node, n': Node)
    requires Bounds(log, n) && PendingOk(log, n) && Covered(log, n)
    requires OneMore(log, n, n') && Bounds(log, n')
    requires forall i :: i in n.view.q.table ==> i in n'.view.q.table
    requires forall e :: e in Pending(n) ==> e in Pending(n')
    requires forall e :: e in Pending(n') && e !in Pending(n) ==> IsEffective(log, n.applied) && e == EntryOf(log[n.applied])
    requires IsEffective(log, n.applied) ==>
               log[n.applied].index in n'.view.q.table || EntryOf(log[n.applied]) in Pending(n')
    ensures PendingOk(log, n') && Covered(log, n')
  {
    forall e | e in Pending(n') ensures RowOf(log, e, n.base, n.applied + 1) {
      if e in Pending(n) {
        var j :| n.base <= j < n.applied && IsEffective(log, j) && EntryOf(log[j]) == e;
      }
    }
  }

  /** Where an applied entry goes: the channel, the table, or nowhere if the insert failed. */
  lemma DeliveredQueue(log: Log, n: Node, path: Path, now: int)
    requires n.applied < |log|
    requires Applies(n.view.seen, log[n.applied]) ==>
               WriteQueue.Enabled(n.view.q, SendEvent(path, EntryOf(log[n.applied])))
    ensures var n' := Delivered(log, n, path, now);
            && (forall e :: e in Pending(n) ==> e in Pending(n'))
            && (if Applies(n.view.seen, log[n.applied]) then
                  var e0 := EntryOf(log[n.applied]);
                  && (forall e :: e in Pending(n') ==> e in Pending(n) || e == e0)
                  && (n'.view.q.table == n.view.q.table || n'.view.q.table == Insert(n.view.q.table, e0))
                  && (e0.index in n'.view.q.table || e0 in Pending(n'))
                else Pending(n') == Pending(n) && n'.view.q == n.view.q)
  {
  }

  /** What Delivered does to map and memory. */
  lemma DeliveredMemory(log: Log, n: Node, path: Path, now: int)
    requires Bounds(log, n) && Enabled(log, n, Deliver(path, now))
    ensures var n' := Delivered(log, n, path, now);
            && OneMore(log, n, n') && Bounds(log, n')
            && (if Applies(n.view.seen, log[n.applied]) then
                  && n'.view.kv == n.view.kv[log[n.applied].data.cmd.key := log[n.applied].data.cmd.value]
                  && n'.view.seen.Keys == n.view.seen.Keys + KeyOf(log[n.applied])
                  && n'.marks.Keys == n.marks.Keys + KeyOf(log[n.applied])
                else n'.view.kv == n.view.kv && n'.view.seen == n.view.seen && n'.marks == n.marks)
  {
  }

  lemma InvDeliverMemory(log: Log, n: Node, path: Path, now: int)
    requires WellFormed(log) && Bounds(log, n) && BootOk(log, n) && KvOk(log, n) && DedupOk(log, n)
    requires Enabled(log, n, Deliver(path, now))
    ensures Bounds(log, Delivered(log, n, path, now))
    ensures KvOk(log, Delivered(log, n, path, now)) && DedupOk(log, Delivered(log, n, path, now))
  {
    DeliveredMemory(log, n, path, now);
    VerdictIsTheLogs(log, n);
    DeliverKv(log, n, Delivered(log, n, path, now));
    DeliverDedup(log, n, Delivered(log, n, path, now));
  }

  lemma InvDeliverRows(log: Log, n: Node, path: Path, now: int)
    requires WellFormed(log) && Bounds(log, n) && TableOk(log, n) && BootOk(log, n) && DedupOk(log, n)
    requires Enabled(log, n, Deliver(path, now))
    ensures Bounds(log, Delivered(log, n, path, now))
    ensures TableOk(log, Delivered(log, n, path, now)) && BootOk(log, Delivered(log, n, path, now))
  {
    VerdictIsTheLogs(log, n);
    DeliveredMemory(log, n, path, now);
    DeliveredQueue(log, n, path, now);
    DeliverTable(log, n, Delivered(log, n, path, now));
  }

  lemma InvDeliverPending(log: Log, n: Node, path: Path, now: int)
    requires Bounds(log, n) && PendingOk(log, n) && Covered(log, n) && DedupOk(log, n)
    requires Enabled(log, n, Deliver(path, now))
    ensures Bounds(log, Delivered(log, n, path, now))
    ensures PendingOk(log, Delivered(log, n, path, now)) && Covered(log, Delivered(log, n, path, now))
  {
    VerdictIsTheLogs(log, n);
    DeliveredMemory(log, n, path, now);
    DeliveredQueue(log, n, path, now);
    DeliverPending(log, n, Delivered(log, n, path, now));
  }

  lemma InvDeliver(log: Log, n: Node, path: Path, now: int)
    requires WellFormed(log) && Inv(log, n) && Enabled(log, n, Deliver(path, now))
    ensures Inv(log, Delivered(log, n, path, now))
  {
    InvDeliverMemory(log, n, path, now);
    InvDeliverRows(log, n, path, now);
    InvDeliverPending(log, n, path, now);
  }

  // ---------------------------------------------------------------- worker and cleaner

  lemma RowAboveCut(log: Log, e: Entry, lo: nat, hi: nat)
    requires WellFormed(log) && lo <= hi <= |log| && RowOf(log, e, lo, hi)
    ensures Cut(log, lo) < e.index <= Cut(log, hi)
  {
    var j :| lo <= j < hi && IsEffective(log, j) && EntryOf(log[j]) == e;
    CutMonotone(log, j + 1, hi);
    CutMonotone(log, lo, j);
    assert Cut(log, j) < log[j].index == Cut(log, j + 1);
  }

  lemma RowWiden(log: Log, e: Entry, lo: nat, hi: nat)
    requires hi <= |log| && RowOf(log, e, lo, hi)
    ensures RowOf(log, e, lo, |log|)
  {
    var j :| lo <= j < hi && IsEffective(log, j) && EntryOf(log[j]) == e;
  }

  /** Rows written by a flush come from the log and lie above the base snapshot. */
  lemma FlushTable(log: Log, n: Node, n': Node)
    requires WellFormed(log) && Bounds(log, n) && TableOk(log, n) && n.base <= n.applied
    requires forall e :: e in n.view.q.batch ==> RowOf(log, e, n.base, n.applied)
    requires n'.view.q.table == InsertAll(n.view.q.table, n.view.q.batch)
    requires n' == n.(view := n'.view) && Bounds(log, n')
    ensures TableOk(log, n')
  {
    var t, t', batch := n.view.q.table, n'.view.q.table, n.view.q.batch;
    InsertAllRows(t, batch);
    forall i | i in t' && i !in t
      ensures t'[i].index == i && Cut(log, n.base) < i <= Cut(log, n.applied) && RowOf(log, t'[i], n.base, |log|)
    {
      RowAboveCut(log, t'[i], n.base, n.applied);
      RowWiden(log, t'[i], n.base, n.applied);
    }
    FoldFrame(t, t', Cut(log, n.base) + 1);
  }

  /** A flush moves the batch from pending into the table. */
  lemma FlushPending(log: Log, n: Node, n': Node)
    requires Bounds(log, n) && PendingOk(log, n) && Covered(log, n)
    requires n'.view.q.table == InsertAll(n.view.q.table, n.view.q.batch)
    requires n'.view.q.batch == [] && n'.view.q.ch == n.view.q.ch
    requires n' == n.(view := n'.view) && Bounds(log, n')
    ensures PendingOk(log, n') && Covered(log, n')
  {
    InsertAllRows(n.view.q.table, n.view.q.batch);
    forall e | e in Pending(n') ensures e in Pending(n) {}
    forall e | e in Pending(n) ensures e in Pending(n') || e.index in n'.view.q.table {}
  }

  lemma First(es: seq<Entry>) returns (e: Entry)
    requires es != []
    ensures e in es
  {
    e := es[0];
  }

  lemma PendingNone(log: Log, n: Node)
    requires n.applied <= |log| && n.applied < n.base
    requires forall e :: e in Pending(n) ==> RowOf(log, e, n.base, n.applied)
    ensures Pending(n) == []
  {
    if Pending(n) != [] {
      var _ := First(Pending(n));
    }
  }

  lemma FlushRows(log: Log, n: Node, n': Node)
    requires WellFormed(log) && Bounds(log, n) && TableOk(log, n) && PendingOk(log, n)
    requires n'.view.q.table == InsertAll(n.view.q.table, n.view.q.batch)
    requires n' == n.(view := n'.view) && Bounds(log, n')
    ensures TableOk(log, n')
  {
    if n.applied < n.base {
      PendingNone(log, n);
      assert n.view.q.batch == [];
    } else {
      forall e | e in n.view.q.batch ensures RowOf(log, e, n.base, n.applied) {
        assert e in Pending(n);
      }
      FlushTable(log, n, n');
    }
  }

  lemma FlushLeaves(log: Log, n: Node, n': Node)
    requires Bounds(log, n) && BootOk(log, n) && KvOk(log, n) && DedupOk(log, n)
    requires n' == n.(view := n.view.(q := n'.view.q)) && Bounds(log, n')
    ensures BootOk(log, n') && KvOk(log, n') && DedupOk(log, n')
  {
    assert At(n) == At(n');
  }

  lemma InvFlush(log: Log, n: Node, n': Node)
    requires WellFormed(log) && Inv(log, n)
    requires n'.view.q.table == InsertAll(n.view.q.table, n.view.q.batch)
    requires n'.view.q.batch == [] && n'.view.q.ch == n.view.q.ch && n'.view.q.open && WriteQueue.Configured(n'.view.q)
    requires n' == n.(view := n.view.(q := n'.view.q))
    ensures Inv(log, n')
  {
    FlushPending(log, n, n');
    FlushRows(log, n, n');
    FlushLeaves(log, n, n');
  }

  /** `n'` differs from `n` at most in its queue, in where its pending entries are, and in what its
      dedup store has forgotten. */
  ghost predicate SamePlace(n: Node, n': Node) {
    && n'.view.kv == n.view.kv && n'.view.q.table == n.view.q.table && n'.view.seen.Keys <= n.view.seen.Keys
    && n'.applied == n.applied && n'.snapAt == n.snapAt && n'.snap == n.snap && n'.exact == n.exact
    && n'.base == n.base && n'.boot == n.boot && n'.marks == n.marks && n'.since == n.since
  }

  lemma SameRows(log: Log, n: Node, n': Node)
    requires Bounds(log, n) && Bounds(log, n') && SamePlace(n, n')
    requires TableOk(log, n) && BootOk(log, n) && KvOk(log, n)
    ensures TableOk(log, n') && BootOk(log, n') && KvOk(log, n')
  {
    assert At(n) == At(n');
  }

  lemma SameMemory(log: Log, n: Node, n': Node)
    requires Bounds(log, n) && Bounds(log, n') && SamePlace(n, n') && DedupOk(log, n)
    ensures DedupOk(log, n')
  {
  }

  lemma SameCoverage(log: Log, n: Node, n': Node)
    requires Bounds(log, n) && Bounds(log, n') && SamePlace(n, n') && PendingOk(log, n) && Covered(log, n)
    requires forall e :: e in Pending(n) <==> e in Pending(n')
    ensures PendingOk(log, n') && Covered(log, n')
  {
  }

  lemma InvSame(log: Log, n: Node, n': Node)
    requires Inv(log, n) && Bounds(log, n') && SamePlace(n, n')
    requires forall e :: e in Pending(n) <==> e in Pending(n')
    ensures Inv(log, n')
  {
    SameRows(log, n, n');
    SameMemory(log, n, n');
    SameCoverage(log, n, n');
  }

  lemma InvWork(log: Log, ttl: nat, n: Node, w: WriteQueue.Event)
    requires WellFormed(log) && Inv(log, n) && Enabled(log, n, Work(w))
    ensures Inv(log, Next(log, ttl, n, Work(w)))
  {
    var n' := Next(log, ttl, n, Work(w));
    if w == WriteQueue.Flush(true) {
      InvFlush(log, n, n');
    } else {
      SamePending(n, n', w);
      InvSame(log, n, n');
    }
  }

  /** Every other worker step only moves entries between places. */
  lemma SamePending(n: Node, n': Node, w: WriteQueue.Event)
    requires WorkerEvent(w) && WriteQueue.Enabled(n.view.q, w) && w != WriteQueue.Flush(true)
    requires n' == n.(view := n.view.(q := WriteQueue.Next(n.view.q, w)),
                      dropped := if w == WriteQueue.Flush(false) then n.dropped + n.view.q.batch else n.dropped)
    ensures n'.view.q.table == n.view.q.table
    ensures forall e :: e in Pending(n) <==> e in Pending(n')
  {
    if w.Receive? || w.DrainReceive? {
      assert n.view.q.ch == [n.view.q.ch[0]] + n.view.q.ch[1..];
      assert Pending(n) == Pending(n');
    } else if w.Flush? {
      assert Pending(n) == Pending(n');
    }
  }

  lemma InvClean(log: Log, ttl: nat, n: Node, now: int)
    requires Inv(log, n) && Enabled(log, n, Clean(now))
    ensures Inv(log, Next(log, ttl, n, Clean(now)))
  {
    var n' := Next(log, ttl, n, Clean(now));
    assert Pending(n') == Pending(n);
    InvSame(log, n, n');
  }

  // ---------------------------------------------------------------- crash and start-up

  /** The keys replayed at start-up are the log's up to the base snapshot, or come from rows above it. */
  lemma BootKeys(log: Log, t: Table, base: nat, k: string)
    requires base <= |log| && FoldBelow(t, Cut(log, base) + 1) == KvAt(log, base)
    requires k in Fold(t)
    ensures k in KvAt(log, base) || BootKeyAhead(log, t, base, k)
  {
    var i := WinnerExists(t, Bound(t), k);
    if i <= Cut(log, base) {
      RowKeyInFold(t, Cut(log, base) + 1, i);
    }
  }

  lemma CrashRows(log: Log, n: Node, n': Node)
    requires Bounds(log, n) && TableOk(log, n) && Bounds(log, n')
    requires n'.applied == 0 && n'.base == n.base && n'.boot == n'.view.q.table == n.view.q.table && Pending(n') == []
    ensures TableOk(log, n') && BootOk(log, n') && PendingOk(log, n') && Covered(log, n')
  {
  }

  lemma AllBootKeys(log: Log, t: Table, base: nat)
    requires base <= |log| && FoldBelow(t, Cut(log, base) + 1) == KvAt(log, base)
    ensures NoOtherKey(log, t, base, Fold(t)) && HasKeysOf(t, Fold(t))
  {
    forall k | k in Fold(t) ensures k in KvAt(log, base) || BootKeyAhead(log, t, base, k) {
      BootKeys(log, t, base, k);
    }
    forall i | i in t ensures t[i].key in Fold(t) {
      RowKeyInFold(t, Bound(t), i);
    }
  }

  lemma CrashKv(log: Log, n: Node, n': Node)
    requires Bounds(log, n) && FoldBelow(n.view.q.table, Cut(log, n.base) + 1) == KvAt(log, n.base)
    requires Bounds(log, n')
    requires n'.applied == 0 && n'.base == n.base && n'.boot == n.view.q.table && n'.view.kv == Fold(n.view.q.table)
    ensures KvOk(log, n')
  {
    assert At(n') == n.base;
    AllBootKeys(log, n.view.q.table, n.base);
  }

  lemma {:induction false} InvCrash(log: Log, ttl: nat, n: Node)
    requires WellFormed(log) && Inv(log, n)
    ensures Inv(log, Next(log, ttl, n, Crash))
  {
    var n' := Next(log, ttl, n, Crash);
    assert Pending(n') == [];
    CrashRows(log, n, n');
    CrashKv(log, n, n');
  }

  // ---------------------------------------------------------------- restore

  /** The synthetic rows stand for the snapshot and stay below every later entry. */
  lemma RestoredTable(log: Log, at: nat, order: seq<string>)
    requires WellFormed(log) && at <= |log| && IsOrder(order, KvAt(log, at))
    ensures var t := Synthetic(order, KvAt(log, at));
            && Keyed(t)
            && FoldBelow(t, Cut(log, at) + 1) == KvAt(log, at)
            && forall i :: i in t ==> i <= Cut(log, at)
  {
    SyntheticRowsBelowCut(log, at, order);
    SyntheticFold(order, KvAt(log, at), Cut(log, at) + 1);
  }

  /** Restore does not clear the live map, and need not: its keys are all in the snapshot, except
      those of start-up rows from beyond the snapshot. */
  lemma RestoredKeys(log: Log, n: Node, at: nat, k: string)
    requires WellFormed(log) && Bounds(log, n) && BootOk(log, n) && KvOk(log, n)
    requires At(n) <= at <= |log| && k in n.view.kv
    ensures k in KvAt(log, at) || BootKeyAhead(log, n.boot, at, k)
  {
    KeysGrow(log, At(n), at);
    if k !in KvAt(log, At(n)) {
      var i :| i in n.boot && i > Cut(log, At(n)) && n.boot[i].key == k;
      CutMonotone(log, n.base, At(n));
      if i <= Cut(log, at) {
        var j :| n.base <= j < |log| && IsEffective(log, j) && EntryOf(log[j]) == n.boot[i];
        assert log[j].index == i;
        IndexCut(log, j, at);
        EffectiveKeyPresent(log, j, at);
      }
    }
  }

  lemma BootRowsAbove(log: Log, n: Node, at: nat)
    requires WellFormed(log) && Bounds(log, n) && BootOk(log, n)
    requires n.base <= at <= |log|
    ensures forall i :: i in n.boot && i > Cut(log, at) ==> RowOf(log, n.boot[i], at, |log|)
  {
    CutMonotone(log, n.base, at);
    forall i | i in n.boot && i > Cut(log, at) ensures RowOf(log, n.boot[i], at, |log|) {
      var j :| n.base <= j < |log| && IsEffective(log, j) && EntryOf(log[j]) == n.boot[i];
      IndexCut(log, j, at);
    }
  }

  lemma RestoredRows(log: Log, n: Node, at: nat, order: seq<string>)
    requires WellFormed(log) && Bounds(log, n) && BootOk(log, n)
    requires n.base <= at <= |log| && IsOrder(order, KvAt(log, at))
    requires n.view.q.ch == [] && n.view.q.batch == []
    ensures var n' := Restored(n, at, KvAt(log, at), order);
            Bounds(log, n') && TableOk(log, n') && BootOk(log, n') && PendingOk(log, n') && Covered(log, n')
  {
    RestoredTable(log, at, order);
    BootRowsAbove(log, n, at);
    assert Pending(Restored(n, at, KvAt(log, at), order)) == [];
  }

  lemma RestoredKv(log: Log, n: Node, n': Node, at: nat)
    requires WellFormed(log) && Bounds(log, n) && BootOk(log, n) && KvOk(log, n)
    requires n.snapAt <= at && n.applied <= at <= |log|
    requires n'.view.kv == n.view.kv + KvAt(log, at)
    requires n'.applied == n'.base == at && n'.boot == n.boot && Bounds(log, n')
    ensures KvOk(log, n')
  {
    forall k | k in n.view.kv ensures k in KvAt(log, at) || BootKeyAhead(log, n.boot, at, k) {
      RestoredKeys(log, n, at, k);
    }
  }

  lemma RestoredDedup(log: Log, n: Node, n': Node, at: nat)
    requires Bounds(log, n) && DedupOk(log, n) && n.applied <= at <= |log| && CleanCut(log, at, n.marks.Keys)
    requires n'.applied == n'.since == at && n'.view.seen == n.view.seen && n'.marks == n.marks && Bounds(log, n')
    ensures DedupOk(log, n')
  {
    forall x | x in n.marks ensures exists j :: 0 <= j < at && PutWith(log[j], x) {
      var j :| 0 <= j < n.applied && PutWith(log[j], x);
    }
  }

  lemma InvRestored(log: Log, n: Node, at: nat, order: seq<string>)
    requires WellFormed(log) && Inv(log, n)
    requires n.snapAt <= at && n.applied <= at <= |log|
    requires IsOrder(order, KvAt(log, at)) && CleanCut(log, at, n.marks.Keys)
    requires n.view.q.ch == [] && n.view.q.batch == []
    ensures Inv(log, Restored(n, at, KvAt(log, at), order))
  {
    var n' := Restored(n, at, KvAt(log, at), order);
    RestoredRows(log, n, at, order);
    RestoredKv(log, n, n', at);
    RestoredDedup(log, n, n', at);
  }

  /** Nothing is queued before the first entry is consumed, so Recover never finds a full queue. */
  lemma NothingQueuedAtStart(log: Log, n: Node)
    requires Inv(log, n) && n.applied == 0
    ensures Pending(n) == []
  {
    if Pending(n) != [] {
      var _ := First(Pending(n));
    }
  }

  // ---------------------------------------------------------------- what a caught-up node holds

  /** Pending entries lie between the base snapshot and what has been consumed. */
  lemma MergedRows(log: Log, n: Node)
    requires WellFormed(log) && Inv(log, n) && n.base <= n.applied
    ensures var t, m := n.view.q.table, Merged(n);
            && (forall i :: i in t ==> i in m && m[i] == t[i])
            && (forall i :: i in m && i !in t ==>
                  Cut(log, n.base) < i <= Cut(log, n.applied) && m[i].index == i && RowOf(log, m[i], n.base, n.applied))
            && (forall e :: e in Pending(n) ==> e.index in m)
  {
    var t, m := n.view.q.table, Merged(n);
    InsertAllRows(t, Pending(n));
    forall i | i in m && i !in t ensures Cut(log, n.base) < i <= Cut(log, n.applied) && RowOf(log, m[i], n.base, n.applied) {
      RowAboveCut(log, m[i], n.base, n.applied);
    }
  }

  lemma MergedLow(log: Log, n: Node)
    requires WellFormed(log) && Inv(log, n) && n.base <= n.applied
    ensures FoldBelow(Merged(n), Cut(log, n.base) + 1) == KvAt(log, n.base)
  {
    MergedRows(log, n);
    FoldFrame(n.view.q.table, Merged(n), Cut(log, n.base) + 1);
  }

  lemma OldRow(log: Log, e: Entry, lo: nat, hi: nat)
    requires WellFormed(log) && lo <= hi <= |log| && RowOf(log, e, lo, |log|) && e.index <= Cut(log, hi)
    ensures RowOf(log, e, lo, hi)
  {
    var j :| lo <= j < |log| && IsEffective(log, j) && EntryOf(log[j]) == e;
    IndexCut(log, j, hi);
  }

  /** Table and pending entries together follow the log from the base snapshot on. */
  lemma MergedFollows(log: Log, n: Node)
    requires WellFormed(log) && Inv(log, n) && n.base <= n.applied
    ensures Follows(Merged(n), log, n.base, n.applied)
  {
    var t := n.view.q.table;
    MergedRows(log, n);
    forall i | i in t && Cut(log, n.base) < i <= Cut(log, n.applied) ensures RowOf(log, t[i], n.base, n.applied) {
      OldRow(log, t[i], n.base, n.applied);
    }
  }

  /** Write-behind: table rows and pending entries, folded in index order up to the last entry
      consumed, give the log's map; also while the table holds rows from beyond it. */
  lemma {:induction false} MergedFold(log: Log, n: Node)
    requires WellFormed(log) && Inv(log, n) && n.base <= n.applied
    ensures FoldBelow(Merged(n), Cut(log, n.applied) + 1) == KvAt(log, n.applied)
  {
    MergedFollows(log, n);
    MergedLow(log, n);
    FoldFollowsLog(Merged(n), log, n.base, n.applied);
  }

  /** Once the table holds no such rows, the fold is that of everything there is. */
  lemma {:induction false} MergedFoldCaughtUp(log: Log, n: Node)
    requires WellFormed(log) && Inv(log, n) && TableCaughtUp(log, n)
    ensures Fold(Merged(n)) == KvAt(log, n.applied)
  {
    MergedFold(log, n);
    MergedRows(log, n);
    FoldIsFoldBelow(Merged(n), Cut(log, n.applied) + 1);
  }

  /** The live map is exactly the log's, nothing stale and nothing extra, if and only if every key
      replayed at start-up has been written by the entries consumed. */
  lemma {:induction false} KvExactIff(log: Log, n: Node)
    requires Inv(log, n) && n.base <= n.applied
    ensures n.view.kv == KvAt(log, n.applied) <==> forall i :: i in n.boot ==> n.boot[i].key in KvAt(log, n.applied)
  {
  }

  /** A caught-up live map is exactly the log's. */
  lemma {:induction false} KvExact(log: Log, n: Node)
    requires Inv(log, n) && BootCaughtUp(log, n)
    ensures n.view.kv == KvAt(log, n.applied)
  {
    KvExactIff(log, n);
    forall i | i in n.boot ensures n.boot[i].key in KvAt(log, n.applied) {
      assert n.boot[i].key in n.view.kv;
    }
  }

  // ---------------------------------------------------------------- what Snapshot reads

  lemma PendingUnique(log: Log, n: Node)
    requires WellFormed(log) && Inv(log, n)
    ensures forall e, e' :: e in Pending(n) && e' in Pending(n) && e.index == e'.index ==> e == e'
  {
    forall e, e' | e in Pending(n) && e' in Pending(n) && e.index == e'.index ensures e == e' {
      var j :| n.base <= j < n.applied && IsEffective(log, j) && EntryOf(log[j]) == e;
      var j' :| n.base <= j' < n.applied && IsEffective(log, j') && EntryOf(log[j']) == e';
      assert j == j';
    }
  }

  /** The facts about table and pending entries that the next lemmas need. */
  ghost predicate Mergeable(log: Log, n: Node) {
    && n.applied <= |log|
    && Keyed(n.view.q.table)
    && FoldBelow(Merged(n), Cut(log, n.applied) + 1) == KvAt(log, n.applied)
    && forall e, e' :: e in Pending(n) && e' in Pending(n) && e.index == e'.index ==> e == e'
  }

  /** Key by key: the table gives `k` what the log gives it at `applied` if and only if no row from
      beyond and no pending entry stands in the way. */
  lemma {:induction false} SafeAtIff(log: Log, n: Node, k: string)
    requires WellFormed(log) && Inv(log, n) && n.base <= n.applied
    ensures AgreeAt(Fold(n.view.q.table), KvAt(log, n.applied), k) <==> SafeAt(log, n, k)
  {
    MergedFold(log, n);
    PendingUnique(log, n);
    if AgreeAt(Fold(n.view.q.table), KvAt(log, n.applied), k) { ExactIsSafe(log, n, k); }
    if SafeAt(log, n, k) { SafeIsExact(log, n, k); }
  }

  /** So the table folds to the log's map at `applied` if and only if it is safe to take a snapshot. */
  lemma {:induction false} SnapshotSafeIff(log: Log, n: Node)
    requires WellFormed(log) && Inv(log, n) && n.base <= n.applied
    ensures Fold(n.view.q.table) == KvAt(log, n.applied) <==> SnapshotSafe(log, n)
  {
    forall k ensures AgreeAt(Fold(n.view.q.table), KvAt(log, n.applied), k) <==> SafeAt(log, n, k) {
      SafeAtIff(log, n, k);
    }
    AgreeEverywhere(Fold(n.view.q.table), KvAt(log, n.applied));
  }

  lemma ExactIsSafe(log: Log, n: Node, k: string)
    requires Mergeable(log, n) && AgreeAt(Fold(n.view.q.table), KvAt(log, n.applied), k)
    ensures SafeAt(log, n, k)
  {
    var t, m := n.view.q.table, Merged(n);
    InsertAllRows(t, Pending(n));
    forall i | Wins(t, Bound(t), k, i) ensures k in Fold(t) && Fold(t)[k] == t[i].value {
      WinnerDecides(t, Bound(t), k, i);
    }
    forall e | Newest(log, n, e) && e.key == k ensures k in Fold(t) && Fold(t)[k] == e.value {
      assert m[e.index] == e;
      WinnerDecides(m, Cut(log, n.applied) + 1, k, e.index);
    }
  }

  lemma SafeIsExact(log: Log, n: Node, k: string)
    requires Mergeable(log, n) && SafeAt(log, n, k)
    ensures AgreeAt(Fold(n.view.q.table), KvAt(log, n.applied), k)
  {
    var t := n.view.q.table;
    if k in KvAt(log, n.applied) {
      SafeValue(log, n, k);
    } else if k in Fold(t) {
      var i := WinnerExists(t, Bound(t), k);
      if i <= Cut(log, n.applied) {
        InsertAllRows(t, Pending(n));
        RowKeyInFold(Merged(n), Cut(log, n.applied) + 1, i);
      }
    }
  }

  lemma SafeValue(log: Log, n: Node, k: string)
    requires Mergeable(log, n) && SafeAt(log, n, k)
    requires k in KvAt(log, n.applied)
    ensures k in Fold(n.view.q.table) && Fold(n.view.q.table)[k] == KvAt(log, n.applied)[k]
  {
    var t, m := n.view.q.table, Merged(n);
    var i := WinnerExists(m, Cut(log, n.applied) + 1, k);
    InsertAllRows(t, Pending(n));
    if i in t {
      RowKeyInFold(t, Bound(t), i);
      var w := WinnerExists(t, Bound(t), k);
      if w <= Cut(log, n.applied) { SameWinner(t, m, Cut(log, n.applied) + 1, k, i, w); }
    } else {
      assert Newest(log, n, m[i]);
    }
  }

  /** The last row of a key below `c` in the larger table is the last of all in the smaller one, where
      that lies below `c` too. */
  lemma SameWinner(t: Table, m: Table, c: nat, k: string, i: nat, w: nat)
    requires forall j :: j in t ==> j in m && m[j] == t[j]
    requires Wins(m, c, k, i) && Wins(t, Bound(t), k, w) && i in t && w < c
    ensures i == w
  {
    assert i < Bound(t);
  }

  /** Every pending key has a row at least as recent in the table. */
  ghost predicate NothingStale(n: Node) {
    forall e :: e in Pending(n) ==>
      exists i :: i in n.view.q.table && i >= e.index && n.view.q.table[i].key == e.key
  }

  lemma StaleDecidesNothing(n: Node, c: nat, e: Entry)
    requires NothingStale(n) && e in Pending(n) && e.index !in n.view.q.table
    requires forall i :: i in n.view.q.table ==> i < c && i in Merged(n) && Merged(n)[i] == n.view.q.table[i]
    ensures !Wins(Merged(n), c, e.key, e.index)
  {
    var i :| i in n.view.q.table && i >= e.index && n.view.q.table[i].key == e.key;
    assert e.index < i;
  }

  /** A caught-up table with nothing stale pending, say a drained one, makes an exact snapshot. */
  lemma {:induction false} NothingStaleIsSafe(log: Log, n: Node)
    requires TableCaughtUp(log, n) && NothingStale(n)
    ensures SnapshotSafe(log, n)
  {
    InsertAllRows(n.view.q.table, Pending(n));
    forall e | e in Pending(n) && e.index !in n.view.q.table ensures !Newest(log, n, e) {
      StaleDecidesNothing(n, Cut(log, n.applied) + 1, e);
    }
  }

  lemma SnapshotKept(log: Log, n: Node, n': Node)
    requires Inv(log, n) && n.snapAt <= n.applied
    requires n' == n.(snapAt := n.applied, snap := n'.snap, exact := n'.exact)
    requires n'.exact <==> n'.snap == KvAt(log, n.applied)
    ensures Inv(log, n')
  {
    var same := n'.(snapAt := n.snapAt, snap := n.snap, exact := n.exact);
    assert same == n && Bounds(log, n');
    assert Pending(n') == Pending(n);
  }

  lemma InvTakeSnapshot(log: Log, ttl: nat, n: Node)
    requires WellFormed(log) && Inv(log, n) && Enabled(log, n, TakeSnapshot)
    ensures Inv(log, Next(log, ttl, n, TakeSnapshot))
  {
    SnapshotSafeIff(log, n);
    SnapshotKept(log, n, Next(log, ttl, n, TakeSnapshot));
  }

  // ---------------------------------------------------------------- every run

  lemma {:induction false} InvStep(log: Log, ttl: nat, n: Node, ev: Event)
    requires WellFormed(log) && Inv(log, n) && Enabled(log, n, ev)
    ensures Inv(log, Next(log, ttl, n, ev))
  {
    match ev
    case Deliver(path, now) => InvDeliver(log, n, path, now);
    case Work(w) => InvWork(log, ttl, n, w);
    case Clean(now) => InvClean(log, ttl, n, now);
    case TakeSnapshot => InvTakeSnapshot(log, ttl, n);
    case Install(at, order) => InvRestored(log, n, at, order);
    case Crash => InvCrash(log, ttl, n);
    case Recover(order) =>
      NothingQueuedAtStart(log, n);
      InvRestored(log, n, n.snapAt, order);
  }

  lemma InvInitial(log: Log, cap: nat, flushSize: nat, clock: int)
    requires cap >= 1 && flushSize >= 1
    ensures Inv(log, Initial(cap, flushSize, clock))
  {
    var n := Initial(cap, flushSize, clock);
    assert Pending(n) == [];
    assert Fold(map[]) == map[];
  }

  /** Every state a node can reach satisfies the invariant. */
  lemma {:induction false} Reachable(log: Log, ttl: nat, cap: nat, flushSize: nat, clock: int, evs: seq<Event>)
    requires WellFormed(log) && cap >= 1 && flushSize >= 1
    requires Legal(log, ttl, Initial(cap, flushSize, clock), evs)
    ensures Inv(log, Run(log, ttl, Initial(cap, flushSize, clock), evs))
    decreases |evs|
  {
    if evs == [] {
      InvInitial(log, cap, flushSize, clock);
    } else {
      var front := evs[..|evs| - 1];
      Reachable(log, ttl, cap, flushSize, clock, front);
      InvStep(log, ttl, Run(log, ttl, Initial(cap, flushSize, clock), front), evs[|evs| - 1]);
    }
  }
}
