/** What every run of a node guarantees, across crashes, snapshots, evictions and failed inserts. */
module Recovery {
  import opened Types
  import opened Rows
  import opened CommittedLog
  import opened Fsm
  import opened Node
  import Sqlite
  import WriteQueue

  /** A legal run of a node that starts empty. */
  ghost predicate Life(log: Log, ttl: nat, cap: nat, flushSize: nat, clock: int, evs: seq<Event>) {
    WellFormed(log) && cap >= 1 && flushSize >= 1 && Legal(log, ttl, Initial(cap, flushSize, clock), evs)
  }

  ghost function End(log: Log, ttl: nat, cap: nat, flushSize: nat, clock: int, evs: seq<Event>): Node {
    Run(log, ttl, Initial(cap, flushSize, clock), evs)
  }

  // ---------------------------------------------------------------- live map, table and queue

  lemma TableFollowsBoot(log: Log, n: Node)
    requires Inv(log, n) && BootCaughtUp(log, n)
    ensures TableCaughtUp(log, n)
  {
  }

  /** In every reachable state, the rows and pending entries up to the last entry consumed, folded in
      index order, say what the log says; in every caught-up one so does the live map, and there are
      no rows beyond. */
  lemma {:induction false} WriteBehind(log: Log, ttl: nat, cap: nat, flushSize: nat, clock: int, evs: seq<Event>)
    requires Life(log, ttl, cap, flushSize, clock, evs)
    requires var n := End(log, ttl, cap, flushSize, clock, evs); n.base <= n.applied
    ensures var n := End(log, ttl, cap, flushSize, clock, evs);
            && n.applied <= |log|
            && FoldBelow(Merged(n), Cut(log, n.applied) + 1) == KvAt(log, n.applied)
            && (BootCaughtUp(log, n) ==> n.view.kv == KvAt(log, n.applied) && Fold(Merged(n)) == n.view.kv)
  {
    Reachable(log, ttl, cap, flushSize, clock, evs);
    var n := End(log, ttl, cap, flushSize, clock, evs);
    MergedFold(log, n);
    if BootCaughtUp(log, n) {
      TableFollowsBoot(log, n);
      KvExact(log, n);
      MergedFoldCaughtUp(log, n);
    }
  }

  /** While a restarted node catches up, its live map is the log's at `applied` if and only if every
      key of the rows it replayed has been written again (or comes with the restored snapshot). */
  lemma {:induction false} LiveMapExactIff(log: Log, ttl: nat, cap: nat, flushSize: nat, clock: int, evs: seq<Event>)
    requires Life(log, ttl, cap, flushSize, clock, evs)
    requires var n := End(log, ttl, cap, flushSize, clock, evs); n.base <= n.applied <= |log|
    ensures var n := End(log, ttl, cap, flushSize, clock, evs);
            n.view.kv == KvAt(log, n.applied) <==> forall i :: i in n.boot ==> n.boot[i].key in KvAt(log, n.applied)
  {
    Reachable(log, ttl, cap, flushSize, clock, evs);
    KvExactIff(log, End(log, ttl, cap, flushSize, clock, evs));
  }

  /** At every moment of a life, Apply judges the next entry as the log does if and only if the entry's
      key, where this process applied it before, has not been evicted since: that the dedup store is
      lost in a crash and not part of a snapshot makes no difference. */
  lemma {:induction false} VerdictExactIff(log: Log, ttl: nat, cap: nat, flushSize: nat, clock: int, evs: seq<Event>)
    requires Life(log, ttl, cap, flushSize, clock, evs)
    requires End(log, ttl, cap, flushSize, clock, evs).applied < |log|
    ensures var n := End(log, ttl, cap, flushSize, clock, evs);
            var item := log[n.applied];
            (Applies(n.view.seen, item) <==> IsEffective(log, n.applied)) <==>
            (forall x :: PutWith(item, x) && x in n.marks ==> x in n.view.seen)
  {
    Reachable(log, ttl, cap, flushSize, clock, evs);
    VerdictIsTheLogs(log, End(log, ttl, cap, flushSize, clock, evs));
  }

  /** Two nodes fed the same log agree once caught up to the same entry, whatever their clocks,
      time-to-live, queue sizes, cleaner passes, crashes and snapshots were. */
  lemma {:induction false} ReplicasAgree(
      log: Log,
      ttl: nat, cap: nat, flushSize: nat, clock: int, evs: seq<Event>,
      ttl': nat, cap': nat, flushSize': nat, clock': int, evs': seq<Event>)
    requires Life(log, ttl, cap, flushSize, clock, evs) && Life(log, ttl', cap', flushSize', clock', evs')
    requires BootCaughtUp(log, End(log, ttl, cap, flushSize, clock, evs))
    requires BootCaughtUp(log, End(log, ttl', cap', flushSize', clock', evs'))
    requires End(log, ttl, cap, flushSize, clock, evs).applied == End(log, ttl', cap', flushSize', clock', evs').applied
    ensures End(log, ttl, cap, flushSize, clock, evs).view.kv == End(log, ttl', cap', flushSize', clock', evs').view.kv
  {
    WriteBehind(log, ttl, cap, flushSize, clock, evs);
    WriteBehind(log, ttl', cap', flushSize', clock', evs');
  }

  // ---------------------------------------------------------------- recovery

  lemma AllConsumedIsCaughtUp(log: Log, n: Node)
    requires WellFormed(log) && Inv(log, n) && n.applied == |log|
    ensures BootCaughtUp(log, n)
  {
    forall i | i in n.boot ensures i <= Cut(log, n.applied) {
      if i > Cut(log, n.base) {
        RowAboveCut(log, n.boot[i], n.base, |log|);
      } else {
        CutMonotone(log, n.base, n.applied);
      }
    }
  }

  /** After any life, however many crashes and failed inserts it had: once the whole log has been
      consumed, and this process has drained its queue without a failed insert since its start or
      last restore, map and table are those of the log. */
  lemma {:induction false} RecoveryComplete(log: Log, ttl: nat, cap: nat, flushSize: nat, clock: int, evs: seq<Event>)
    requires Life(log, ttl, cap, flushSize, clock, evs)
    requires End(log, ttl, cap, flushSize, clock, evs).applied == |log|
    requires Pending(End(log, ttl, cap, flushSize, clock, evs)) == []
    ensures var n := End(log, ttl, cap, flushSize, clock, evs);
            && n.view.kv == KvAt(log, |log|)
            && Fold(n.view.q.table) == KvAt(log, |log|)
            && n.base <= |log|
            && (n.base == 0 ==> n.view.q.table == EffTable(log, |log|))
            && (forall i :: i > Cut(log, n.base) ==> (i in n.view.q.table <==> i in EffTable(log, |log|)))
            && (forall i :: i > Cut(log, n.base) && i in n.view.q.table ==> n.view.q.table[i] == EffTable(log, |log|)[i])
  {
    Reachable(log, ttl, cap, flushSize, clock, evs);
    var n := End(log, ttl, cap, flushSize, clock, evs);
    DrainedMaps(log, n);
    RowsAreTheLogs(log, n);
    if n.base == 0 {
      NoRowAtZero(log, n);
      TableFromScratch(n.view.q.table, EffTable(log, |log|));
    }
  }

  lemma DrainedMaps(log: Log, n: Node)
    requires WellFormed(log) && Inv(log, n) && n.applied == |log| && Pending(n) == []
    ensures n.view.kv == KvAt(log, |log|) && Fold(n.view.q.table) == KvAt(log, |log|)
  {
    AllConsumedIsCaughtUp(log, n);
    TableFollowsBoot(log, n);
    KvExact(log, n);
    MergedFoldCaughtUp(log, n);
    assert Merged(n) == n.view.q.table;
  }

  lemma TableFromScratch(t: Table, u: Table)
    requires forall i :: i > 0 ==> (i in t <==> i in u)
    requires forall i :: i > 0 && i in t ==> t[i] == u[i]
    requires 0 !in t && 0 !in u
    ensures t == u
  {
    assert t.Keys == u.Keys;
  }

  lemma NoRowAtZero(log: Log, n: Node)
    requires WellFormed(log) && Bounds(log, n) && TableOk(log, n) && n.base == 0
    ensures 0 !in n.view.q.table && 0 !in EffTable(log, |log|)
  {
    if 0 in n.view.q.table {
      RowKeyInFold(n.view.q.table, 1, 0);
    }
    EffTableRows(log, |log|);
  }

  lemma RowsAreTheLogs(log: Log, n: Node)
    requires WellFormed(log) && Bounds(log, n) && TableOk(log, n) && Covered(log, n)
    requires n.applied == |log| && Pending(n) == []
    ensures forall i :: i > Cut(log, n.base) ==> (i in n.view.q.table <==> i in EffTable(log, |log|))
    ensures forall i :: i > Cut(log, n.base) && i in n.view.q.table ==> n.view.q.table[i] == EffTable(log, |log|)[i]
  {
    forall i | i > Cut(log, n.base)
      ensures i in n.view.q.table <==> i in EffTable(log, |log|)
      ensures i in n.view.q.table ==> n.view.q.table[i] == EffTable(log, |log|)[i]
    {
      RowIsTheLogs(log, n, i);
    }
  }

  lemma RowIsTheLogs(log: Log, n: Node, i: nat)
    requires WellFormed(log) && Bounds(log, n) && TableOk(log, n) && Covered(log, n)
    requires n.applied == |log| && Pending(n) == [] && i > Cut(log, n.base)
    ensures i in n.view.q.table <==> i in EffTable(log, |log|)
    ensures i in n.view.q.table ==> n.view.q.table[i] == EffTable(log, |log|)[i]
  {
    EffTableRows(log, |log|);
    if i in n.view.q.table {
      var j :| n.base <= j < |log| && IsEffective(log, j) && EntryOf(log[j]) == n.view.q.table[i];
      assert log[j].index == i;
    } else if i in EffTable(log, |log|) {
      RowOfEffective(log, n, i);
    }
  }

  lemma RowOfEffective(log: Log, n: Node, i: nat)
    requires WellFormed(log) && Bounds(log, n) && Covered(log, n)
    requires n.applied == |log| && Pending(n) == [] && i > Cut(log, n.base) && i in EffTable(log, |log|)
    ensures i in n.view.q.table
  {
    EffTableRows(log, |log|);
    var j :| 0 <= j < |log| && IsEffective(log, j) && EntryOf(log[j]) == EffTable(log, |log|)[i];
    IndexCut(log, j, n.base);
  }

  lemma {:induction false} OrderExists(m: KvMap) returns (order: seq<string>)
    ensures IsOrder(order, m)
    decreases |m|
  {
    if m == map[] {
      order := [];
    } else {
      var k :| k in m;
      assert |(m - {k}).Keys| == |m.Keys - {k}|;
      var rest := OrderExists(m - {k});
      order := rest + [k];
    }
  }

  /** One more event of a run. */
  lemma Then(log: Log, ttl: nat, start: Node, evs: seq<Event>, ev: Event) returns (evs': seq<Event>)
    requires WellFormed(log) && Legal(log, ttl, start, evs) && Inv(log, Run(log, ttl, start, evs))
    requires Enabled(log, Run(log, ttl, start, evs), ev)
    ensures evs <= evs' && Legal(log, ttl, start, evs')
    ensures Run(log, ttl, start, evs') == Next(log, ttl, Run(log, ttl, start, evs), ev)
    ensures Inv(log, Run(log, ttl, start, evs'))
  {
    evs' := evs + [ev];
    assert evs'[..|evs|] == evs;
    InvStep(log, ttl, Run(log, ttl, start, evs), ev);
  }

  /** Ready for the next entry, with an idle worker, nothing pending and nothing evicted. */
  ghost predicate Clear(log: Log, n: Node) {
    Inv(log, n) && n.snapAt <= n.applied && Idle(n) && n.marks.Keys == n.view.seen.Keys
  }

  predicate Idle(n: Node) {
    n.dropped == [] && n.view.q.batch == [] && n.view.q.ch == [] && n.view.q.pc.Selecting?
  }

  lemma IdleHoldsNothing(n: Node)
    requires Idle(n)
    ensures Pending(n) == []
  {
  }

  lemma NextDelivery(log: Log, n: Node)
    requires n.view.q.cap >= 1 && Idle(n) && n.marks.Keys == n.view.seen.Keys && n.snapAt <= n.applied < |log|
    ensures Enabled(log, n, Deliver(Fast, n.clock))
    ensures var n' := Delivered(log, n, Fast, n.clock);
            && n'.applied == n.applied + 1 && n'.snapAt == n.snapAt && n'.marks.Keys == n'.view.seen.Keys
            && n'.dropped == [] && n'.view.q.batch == [] && n'.view.q.pc.Selecting?
            && n'.view.q.ch == if Applies(n.view.seen, log[n.applied]) then [EntryOf(log[n.applied])] else []
  {
  }

  lemma ReceiveOne(log: Log, ttl: nat, n: Node)
    requires n.view.q.pc.Selecting? && |n.view.q.ch| == 1 && n.view.q.batch == []
    ensures Enabled(log, n, Work(WriteQueue.Receive))
    ensures var n' := Next(log, ttl, n, Work(WriteQueue.Receive));
            && n' == n.(view := n.view.(q := n'.view.q))
            && n'.view.q.ch == [] && (n'.view.q.pc.Selecting? || n'.view.q.pc.Flushing?)
  {
  }

  /** A node whose worker has written its batch and is back at its select. */
  ghost function Flushed(n: Node): Node {
    var q := n.view.q;
    n.(view := n.view.(q := q.(table := InsertAll(q.table, q.batch), batch := [], pc := WriteQueue.Selecting)))
  }

  lemma FlushStep(log: Log, ttl: nat, n: Node)
    requires n.view.q.pc.Flushing? && n.view.q.open
    ensures Enabled(log, n, Work(WriteQueue.Flush(true))) && Next(log, ttl, n, Work(WriteQueue.Flush(true))) == Flushed(n)
  {
  }

  lemma TickStep(log: Log, ttl: nat, n: Node)
    requires n.view.q.pc.Selecting?
    ensures Enabled(log, n, Work(WriteQueue.Tick))
    ensures var n' := Next(log, ttl, n, Work(WriteQueue.Tick)); n'.view.q.pc.Flushing? && Flushed(n') == Flushed(n)
  {
  }

  /** A successful flush, after a tick unless the batch is full. */
  lemma TickAndFlush(log: Log, ttl: nat, start: Node, evs: seq<Event>) returns (evs': seq<Event>)
    requires WellFormed(log) && Legal(log, ttl, start, evs) && Inv(log, Run(log, ttl, start, evs))
    requires Run(log, ttl, start, evs).view.q.pc.Selecting? || Run(log, ttl, start, evs).view.q.pc.Flushing?
    ensures evs <= evs' && Legal(log, ttl, start, evs') && Inv(log, Run(log, ttl, start, evs'))
    ensures Run(log, ttl, start, evs') == Flushed(Run(log, ttl, start, evs))
  {
    var e1 := evs;
    if Run(log, ttl, start, evs).view.q.pc.Selecting? {
      TickStep(log, ttl, Run(log, ttl, start, evs));
      e1 := Then(log, ttl, start, evs, Work(WriteQueue.Tick));
    }
    FlushStep(log, ttl, Run(log, ttl, start, e1));
    evs' := Then(log, ttl, start, e1, Work(WriteQueue.Flush(true)));
  }

  /** The only queued row received and flushed. */
  lemma FlushOne(log: Log, ttl: nat, start: Node, evs: seq<Event>) returns (evs': seq<Event>)
    requires WellFormed(log) && Legal(log, ttl, start, evs) && Inv(log, Run(log, ttl, start, evs))
    requires var n := Run(log, ttl, start, evs);
             && n.snapAt <= n.applied && n.marks.Keys == n.view.seen.Keys && n.dropped == []
             && n.view.q.pc.Selecting? && |n.view.q.ch| == 1 && n.view.q.batch == []
    ensures evs <= evs' && Legal(log, ttl, start, evs') && Clear(log, Run(log, ttl, start, evs'))
    ensures Run(log, ttl, start, evs').applied == Run(log, ttl, start, evs).applied
  {
    ReceiveOne(log, ttl, Run(log, ttl, start, evs));
    var e1 := Then(log, ttl, start, evs, Work(WriteQueue.Receive));
    evs' := TickAndFlush(log, ttl, start, e1);
  }

  /** The next entry applied, its row queued, received, and flushed with the next tick. */
  lemma DeliverAndFlush(log: Log, ttl: nat, start: Node, evs: seq<Event>) returns (evs': seq<Event>)
    requires WellFormed(log) && Legal(log, ttl, start, evs) && Clear(log, Run(log, ttl, start, evs))
    requires Run(log, ttl, start, evs).applied < |log|
    ensures evs <= evs' && Legal(log, ttl, start, evs') && Clear(log, Run(log, ttl, start, evs'))
    ensures Run(log, ttl, start, evs').applied == Run(log, ttl, start, evs).applied + 1
  {
    var n := Run(log, ttl, start, evs);
    NextDelivery(log, n);
    evs' := Then(log, ttl, start, evs, Deliver(Fast, n.clock));
    if Applies(n.view.seen, log[n.applied]) { evs' := FlushOne(log, ttl, start, evs'); }
  }

  /** Re-delivery of the rest of the log, each row flushed before the next entry. */
  lemma {:induction false} Redeliver(log: Log, ttl: nat, start: Node, evs: seq<Event>) returns (evs': seq<Event>)
    requires WellFormed(log) && Legal(log, ttl, start, evs) && Clear(log, Run(log, ttl, start, evs))
    ensures evs <= evs' && Legal(log, ttl, start, evs') && Clear(log, Run(log, ttl, start, evs'))
    ensures Run(log, ttl, start, evs').applied == |log|
    decreases |log| - Run(log, ttl, start, evs).applied
  {
    if Run(log, ttl, start, evs).applied == |log| {
      evs' := evs;
    } else {
      var e1 := DeliverAndFlush(log, ttl, start, evs);
      evs' := Redeliver(log, ttl, start, e1);
    }
  }

  /** Crash, start-up replay, and the restore of raft's snapshot if there is one. */
  lemma Restart(log: Log, ttl: nat, start: Node, evs: seq<Event>) returns (evs': seq<Event>)
    requires WellFormed(log) && Legal(log, ttl, start, evs) && Inv(log, Run(log, ttl, start, evs))
    requires var n := Run(log, ttl, start, evs); n.snapAt > 0 ==> n.exact && CleanCut(log, n.snapAt, {})
    ensures evs <= evs' && Legal(log, ttl, start, evs') && Clear(log, Run(log, ttl, start, evs'))
  {
    evs' := Then(log, ttl, start, evs, Crash);
    var n := Run(log, ttl, start, evs');
    if n.snapAt > 0 {
      var order := OrderExists(n.snap);
      assert n.marks.Keys == {};
      evs' := Then(log, ttl, start, evs', Recover(order));
    }
  }

  /** From wherever a life has led, a crash, a start-up replay, the restore of raft's snapshot if
      there is one, and re-delivery repair everything, rows dropped earlier included, provided the
      snapshot was exact and no idempotency key is used on both sides of it. */
  lemma {:induction false} RecoveryPossible(
      log: Log, ttl: nat, cap: nat, flushSize: nat, clock: int, evs: seq<Event>) returns (evs': seq<Event>)
    requires Life(log, ttl, cap, flushSize, clock, evs)
    requires var n := End(log, ttl, cap, flushSize, clock, evs);
             0 < n.snapAt <= |log| ==> n.exact && CleanCut(log, n.snapAt, {})
    ensures evs <= evs' && Life(log, ttl, cap, flushSize, clock, evs')
    ensures var n := End(log, ttl, cap, flushSize, clock, evs');
            n.applied == |log| && Pending(n) == [] && n.view.kv == KvAt(log, |log|) && Fold(n.view.q.table) == KvAt(log, |log|)
  {
    Reachable(log, ttl, cap, flushSize, clock, evs);
    var start := Initial(cap, flushSize, clock);
    var e1 := Restart(log, ttl, start, evs);
    evs' := Redeliver(log, ttl, start, e1);
    IdleHoldsNothing(Run(log, ttl, start, evs'));
    RecoveryComplete(log, ttl, cap, flushSize, clock, evs');
  }

  // ---------------------------------------------------------------- restore and synthetic rows

  /** Restore does not clear the live map. Over any life the map is the snapshot all the same, with no
      stale key, if and only if the snapshot has every key replayed at start-up; it has them where no
      row replayed then lies beyond it. */
  lemma {:induction false} RestoreIsExact(
      log: Log, ttl: nat, cap: nat, flushSize: nat, clock: int, evs: seq<Event>, ev: Event)
    requires Life(log, ttl, cap, flushSize, clock, evs + [ev]) && (ev.Install? || ev.Recover?)
    ensures var n, n' := End(log, ttl, cap, flushSize, clock, evs), End(log, ttl, cap, flushSize, clock, evs + [ev]);
            var at := if ev.Install? then ev.at else n.snapAt;
            && at <= |log|
            && n'.applied == at
            && Fold(n'.view.q.table) == KvAt(log, at)
            && (n'.view.kv == KvAt(log, at) <==> forall i :: i in n.boot ==> n.boot[i].key in KvAt(log, at))
            && ((forall i :: i in n.boot ==> i <= Cut(log, at)) ==> n'.view.kv == KvAt(log, at))
  {
    assert (evs + [ev])[..|evs|] == evs;
    Reachable(log, ttl, cap, flushSize, clock, evs);
    RestoredExactly(log, ttl, End(log, ttl, cap, flushSize, clock, evs), ev);
  }

  lemma RestoredExactly(log: Log, ttl: nat, n: Node, ev: Event)
    requires WellFormed(log) && Inv(log, n) && Enabled(log, n, ev) && (ev.Install? || ev.Recover?)
    ensures var n' := Next(log, ttl, n, ev);
            var at := if ev.Install? then ev.at else n.snapAt;
            && n'.applied == at
            && Fold(n'.view.q.table) == KvAt(log, at)
            && (n'.view.kv == KvAt(log, at) <==> forall i :: i in n.boot ==> n.boot[i].key in KvAt(log, at))
            && ((forall i :: i in n.boot ==> i <= Cut(log, at)) ==> n'.view.kv == KvAt(log, at))
  {
    InvStep(log, ttl, n, ev);
    var n' := Next(log, ttl, n, ev);
    var at := if ev.Install? then ev.at else n.snapAt;
    assert n' == Restored(n, at, KvAt(log, at), ev.order);
    Sqlite.ReplaceAllReplays(ev.order, KvAt(log, at));
    KvExactIff(log, n');
    if forall i :: i in n.boot ==> i <= Cut(log, at) { KvExact(log, n'); }
  }

  /** Across any number of restored snapshots no insert is swallowed by a synthetic row: where the next
      effective put, or an entry that is still to be written, finds its index taken, it is taken by its
      own row. */
  lemma {:induction false} NeverSwallowed(log: Log, ttl: nat, cap: nat, flushSize: nat, clock: int, evs: seq<Event>)
    requires Life(log, ttl, cap, flushSize, clock, evs)
    ensures var n := End(log, ttl, cap, flushSize, clock, evs);
            && (n.snapAt <= n.applied < |log| && IsEffective(log, n.applied) ==>
                  FreeOrOwn(n.view.q.table, EntryOf(log[n.applied])))
            && forall e :: e in Pending(n) ==> FreeOrOwn(n.view.q.table, e)
  {
    Reachable(log, ttl, cap, flushSize, clock, evs);
    var n := End(log, ttl, cap, flushSize, clock, evs);
    if n.snapAt <= n.applied < |log| && IsEffective(log, n.applied) { PutFindsRoom(log, n, n.applied); }
    forall e | e in Pending(n) ensures FreeOrOwn(n.view.q.table, e) {
      var j :| n.base <= j < n.applied && IsEffective(log, j) && EntryOf(log[j]) == e;
      PutFindsRoom(log, n, j);
    }
  }

  /** INSERT OR IGNORE of `e` leaves the row `e`. */
  predicate FreeOrOwn(t: Table, e: Entry) {
    e.index in t ==> t[e.index] == e
  }

  lemma PutFindsRoom(log: Log, n: Node, j: nat)
    requires WellFormed(log) && Bounds(log, n) && TableOk(log, n)
    requires n.base <= j < |log| && IsEffective(log, j)
    ensures FreeOrOwn(n.view.q.table, EntryOf(log[j]))
  {
    var i := log[j].index;
    IndexCut(log, j, n.base);
    if i in n.view.q.table {
      var j' :| n.base <= j' < |log| && IsEffective(log, j') && EntryOf(log[j']) == n.view.q.table[i];
      assert j' == j;
    }
  }

  /** Raft's stored snapshot is the log's map at its position. */
  ghost predicate StoredExact(log: Log, n: Node) {
    n.snapAt <= |log| && n.snap == KvAt(log, n.snapAt)
  }

  lemma {:induction false} LifePrefix(log: Log, ttl: nat, cap: nat, flushSize: nat, clock: int, evs: seq<Event>, i: nat)
    requires Life(log, ttl, cap, flushSize, clock, evs) && i <= |evs|
    ensures Life(log, ttl, cap, flushSize, clock, evs[..i])
    decreases |evs|
  {
    if i == |evs| {
      assert evs[..i] == evs;
    } else {
      LifePrefix(log, ttl, cap, flushSize, clock, evs[..|evs| - 1], i);
      assert evs[..|evs| - 1][..i] == evs[..i];
    }
  }

  /** One event, and what it does to the stored snapshot. */
  lemma SnapshotStep(log: Log, ttl: nat, cap: nat, flushSize: nat, clock: int, evs: seq<Event>, i: nat)
    requires Life(log, ttl, cap, flushSize, clock, evs) && i < |evs|
    ensures var n, n' := End(log, ttl, cap, flushSize, clock, evs[..i]), End(log, ttl, cap, flushSize, clock, evs[..i + 1]);
            StoredExact(log, n') <==>
            if evs[i].TakeSnapshot? then SnapshotSafe(log, n)
            else evs[i].Install? || evs[i].Recover? || StoredExact(log, n)
  {
    LifePrefix(log, ttl, cap, flushSize, clock, evs, i);
    LifePrefix(log, ttl, cap, flushSize, clock, evs, i + 1);
    Reachable(log, ttl, cap, flushSize, clock, evs[..i]);
    Reachable(log, ttl, cap, flushSize, clock, evs[..i + 1]);
    assert evs[..i + 1][..i] == evs[..i];
  }

  /** Raft's stored snapshot is exact at every moment of a life if and only if every snapshot was
      taken when it was safe. */
  lemma {:induction false} SnapshotsAreExact(log: Log, ttl: nat, cap: nat, flushSize: nat, clock: int, evs: seq<Event>)
    requires Life(log, ttl, cap, flushSize, clock, evs)
    ensures (forall i :: 0 <= i <= |evs| ==> StoredExact(log, End(log, ttl, cap, flushSize, clock, evs[..i]))) <==>
            (forall i :: 0 <= i < |evs| && evs[i].TakeSnapshot? ==> SnapshotSafe(log, End(log, ttl, cap, flushSize, clock, evs[..i])))
  {
    if forall i :: 0 <= i <= |evs| ==> StoredExact(log, End(log, ttl, cap, flushSize, clock, evs[..i])) {
      forall i | 0 <= i < |evs| && evs[i].TakeSnapshot?
        ensures SnapshotSafe(log, End(log, ttl, cap, flushSize, clock, evs[..i]))
      {
        SnapshotStep(log, ttl, cap, flushSize, clock, evs, i);
      }
    }
    if forall i :: 0 <= i < |evs| && evs[i].TakeSnapshot? ==> SnapshotSafe(log, End(log, ttl, cap, flushSize, clock, evs[..i])) {
      forall i | 0 <= i <= |evs| ensures StoredExact(log, End(log, ttl, cap, flushSize, clock, evs[..i])) {
        SafeSnapshots(log, ttl, cap, flushSize, clock, evs, i);
      }
    }
  }

  lemma {:induction false} SafeSnapshots(
      log: Log, ttl: nat, cap: nat, flushSize: nat, clock: int, evs: seq<Event>, i: nat)
    requires Life(log, ttl, cap, flushSize, clock, evs) && i <= |evs|
    requires forall i :: 0 <= i < |evs| && evs[i].TakeSnapshot? ==> SnapshotSafe(log, End(log, ttl, cap, flushSize, clock, evs[..i]))
    ensures StoredExact(log, End(log, ttl, cap, flushSize, clock, evs[..i]))
    decreases i
  {
    if i == 0 {
      assert evs[..0] == [];
    } else {
      SafeSnapshots(log, ttl, cap, flushSize, clock, evs, i - 1);
      SnapshotStep(log, ttl, cap, flushSize, clock, evs, i - 1);
    }
  }

  // ---------------------------------------------------------------- snapshots

  /** Key by key, at any moment after the base snapshot: Snapshot reads what the log gives `k` if and
      only if no row from beyond `applied` and no pending entry stands in the way. On a caught-up node
      it reads what the live map gives `k` if and only if the newest write of `k`, where that is a
      pending entry without a row, carries the value the table already has. */
  lemma {:induction false} SnapshotKeyIff(
      log: Log, ttl: nat, cap: nat, flushSize: nat, clock: int, evs: seq<Event>, k: string)
    requires Life(log, ttl, cap, flushSize, clock, evs)
    requires var n := End(log, ttl, cap, flushSize, clock, evs); n.base <= n.applied <= |log|
    ensures var n := End(log, ttl, cap, flushSize, clock, evs);
            var snapshot := Fold(n.view.q.table);
            && (AgreeAt(snapshot, KvAt(log, n.applied), k) <==> SafeAt(log, n, k))
            && (BootCaughtUp(log, n) ==>
                  (AgreeAt(snapshot, n.view.kv, k) <==>
                   forall e :: Newest(log, n, e) && e.key == k ==> k in snapshot && snapshot[k] == e.value))
  {
    Reachable(log, ttl, cap, flushSize, clock, evs);
    var n := End(log, ttl, cap, flushSize, clock, evs);
    SafeAtIff(log, n, k);
    if BootCaughtUp(log, n) {
      KvExact(log, n);
      TableFollowsBoot(log, n);
    }
  }

  /** Position `j` holds the latest effective put of `k` among the first `n` entries. */
  ghost predicate LatestPut(log: Log, n: nat, k: string, j: nat)
    requires n <= |log|
  {
    && j < n && IsEffective(log, j) && log[j].data.cmd.key == k
    && forall i :: j < i < n && IsEffective(log, i) ==> log[i].data.cmd.key != k
  }

  /** So a snapshot of a caught-up node is wrong only where writes are outstanding: it agrees with the
      live map at every key whose latest put since the base snapshot, if there is one, has its row,
      whatever older entries of the key are queued, batched or dropped. */
  lemma {:induction false} SnapshotDiffersOnlyWherePending(
      log: Log, ttl: nat, cap: nat, flushSize: nat, clock: int, evs: seq<Event>, k: string)
    requires Life(log, ttl, cap, flushSize, clock, evs)
    requires BootCaughtUp(log, End(log, ttl, cap, flushSize, clock, evs))
    requires var n := End(log, ttl, cap, flushSize, clock, evs);
             forall j :: n.base <= j && LatestPut(log, n.applied, k, j) ==> log[j].index in n.view.q.table
    ensures var n := End(log, ttl, cap, flushSize, clock, evs);
            AgreeAt(Fold(n.view.q.table), n.view.kv, k)
  {
    SnapshotKeyIff(log, ttl, cap, flushSize, clock, evs, k);
    Reachable(log, ttl, cap, flushSize, clock, evs);
    var n := End(log, ttl, cap, flushSize, clock, evs);
    forall e | Newest(log, n, e) ensures exists j :: n.base <= j && LatestPut(log, n.applied, e.key, j) && log[j].index == e.index {
      NewestIsLatest(log, n, e);
    }
  }

  /** The newest pending write of a key is the row of its latest put. */
  lemma NewestIsLatest(log: Log, n: Node, e: Entry)
    requires WellFormed(log) && Inv(log, n) && n.base <= n.applied && Newest(log, n, e)
    ensures exists j :: n.base <= j && LatestPut(log, n.applied, e.key, j) && log[j].index == e.index
  {
    var j :| n.base <= j < n.applied && IsEffective(log, j) && EntryOf(log[j]) == e;
    forall i | j < i < n.applied && IsEffective(log, i) ensures log[i].data.cmd.key != e.key {
      LaterPut(log, n, e, i);
    }
    assert LatestPut(log, n.applied, e.key, j);
  }

  lemma LaterPut(log: Log, n: Node, e: Entry, i: nat)
    requires WellFormed(log) && Inv(log, n) && n.base <= i < n.applied && Newest(log, n, e)
    requires IsEffective(log, i) && log[i].index > e.index
    ensures log[i].data.cmd.key != e.key
  {
    var m := Merged(n);
    InsertAllRows(n.view.q.table, Pending(n));
    assert log[i].index in m;
    IndexCut(log, i, n.applied);
    RowOfPut(log, n, i);
  }

  /** The merged row at the index of an effective put is the put's own. */
  lemma RowOfPut(log: Log, n: Node, i: nat)
    requires WellFormed(log) && Inv(log, n) && n.base <= i < n.applied && IsEffective(log, i)
    requires log[i].index in Merged(n)
    ensures Merged(n)[log[i].index] == EntryOf(log[i])
  {
    MergedRows(log, n);
    IndexCut(log, i, n.base);
    var row := Merged(n)[log[i].index];
    assert RowOf(log, row, n.base, |log|) by {
      if log[i].index !in n.view.q.table { RowWiden(log, row, n.base, n.applied); }
    }
    var j :| n.base <= j < |log| && IsEffective(log, j) && EntryOf(log[j]) == row;
    assert log[j].index == log[i].index;
    assert j == i;
  }

  /** Snapshot as a whole is exact if and only if it is so at every key. */
  lemma {:induction false} SnapshotExactIff(
      log: Log, ttl: nat, cap: nat, flushSize: nat, clock: int, evs: seq<Event>)
    requires Life(log, ttl, cap, flushSize, clock, evs)
    requires var n := End(log, ttl, cap, flushSize, clock, evs); n.base <= n.applied <= |log|
    ensures var n := End(log, ttl, cap, flushSize, clock, evs);
            var snapshot := Fold(n.view.q.table);
            && (snapshot == KvAt(log, n.applied) <==> SnapshotSafe(log, n))
            && (BootCaughtUp(log, n) ==>
                  (snapshot == n.view.kv <==>
                   forall e :: Newest(log, n, e) ==> e.key in snapshot && snapshot[e.key] == e.value))
  {
    Reachable(log, ttl, cap, flushSize, clock, evs);
    var n := End(log, ttl, cap, flushSize, clock, evs);
    SnapshotSafeIff(log, n);
    if BootCaughtUp(log, n) {
      KvExact(log, n);
      TableFollowsBoot(log, n);
      OnlyPendingMatters(log, n);
    }
  }

  lemma OnlyPendingMatters(log: Log, n: Node)
    requires TableCaughtUp(log, n)
    ensures SnapshotSafe(log, n) <==>
            forall e :: Newest(log, n, e) ==> e.key in Fold(n.view.q.table) && Fold(n.view.q.table)[e.key] == e.value
  {
    var f := Fold(n.view.q.table);
    if SnapshotSafe(log, n) {
      forall e | Newest(log, n, e) ensures e.key in f && f[e.key] == e.value { assert SafeAt(log, n, e.key); }
    }
  }
}
