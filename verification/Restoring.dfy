/** Restore under no assumption about the snapshot or the queue: any map installed at any position of
    any life, and what live map and table have become once the log is consumed further and the queue
    drained. */
module Restoring {
  import opened Types
  import opened Rows
  import opened CommittedLog
  import opened Fsm
  import opened Node
  import Recovery
  import WriteQueue

  // ---------------------------------------------------------------- what may happen, what must hold

  /** Deliveries, worker steps and cleaner passes, none with a failed insert. */
  ghost predicate Steady(evs: seq<Event>) {
    forall i :: 0 <= i < |evs| ==> SteadyEvent(evs[i])
  }

  predicate SteadyEvent(ev: Event) {
    match ev
    case Deliver(path, _) => path != Slow(false)
    case Work(w) => w != WriteQueue.Flush(false)
    case Clean(_) => true
    case _ => false
  }

  /** An effective put at a position in [s, a) writes `k`. */
  ghost predicate WrittenSince(log: Log, s: nat, a: nat, k: string)
    requires a <= |log|
  {
    exists j :: s <= j < a && IsEffective(log, j) && log[j].data.cmd.key == k
  }

  /** One does so under an index that `rows` synthetic rows leave free. */
  ghost predicate WrittenAbove(log: Log, s: nat, a: nat, rows: nat, k: string)
    requires a <= |log|
  {
    exists j :: s <= j < a && IsEffective(log, j) && log[j].data.cmd.key == k && log[j].index >= rows
  }

  /** `e` is the last of `p` to write its key, and not swallowed by the synthetic rows. */
  ghost predicate LastOf(p: seq<Entry>, rows: nat, e: Entry) {
    e in p && e.index >= rows && forall e' :: e' in p && e'.key == e.key ==> e'.index <= e.index
  }

  /** The synthetic rows of `m` with the entries `p` written on top give `k` what `g` gives it. */
  ghost predicate RestoredValue(m: KvMap, p: seq<Entry>, k: string, g: KvMap) {
    && (forall e :: LastOf(p, |m|, e) && e.key == k ==> k in g && g[k] == e.value)
    && ((forall e :: LastOf(p, |m|, e) ==> e.key != k) ==> AgreeAt(m, g, k))
  }

  /** An entry that was queued at the restore, or the row of a put consumed since. */
  ghost predicate Late(log: Log, s: nat, a: nat, p: seq<Entry>, e: Entry)
    requires a <= |log|
  {
    e in p || RowOf(log, e, s, a)
  }

  /** The table `t` holds the rows of `t0` and late rows besides; every late entry has a row or is in `rest`. */
  ghost predicate Placed(log: Log, s: nat, a: nat, t0: Table, p: seq<Entry>, t: Table, rest: seq<Entry>)
    requires s <= a <= |log|
  {
    && (forall i :: i in t0 ==> i in t && t[i] == t0[i])
    && (forall i :: i in t && i !in t0 ==> t[i].index == i && Late(log, s, a, p, t[i]))
    && (forall e :: e in rest ==> Late(log, s, a, p, e))
    && (forall e :: Late(log, s, a, p, e) ==> e.index in t || e in rest)
  }

  /** The live map is `kv0` with the keys written since at their new values. */
  ghost predicate Overlaid(log: Log, s: nat, a: nat, kv0: KvMap, kv: KvMap)
    requires s <= a <= |log|
  {
    forall k :: OverlaidAt(log, s, a, kv0, kv, k)
  }

  ghost predicate OverlaidAt(log: Log, s: nat, a: nat, kv0: KvMap, kv: KvMap, k: string)
    requires s <= a <= |log|
  {
    if WrittenSince(log, s, a, k) then AgreeAt(kv, KvAt(log, a), k) else AgreeAt(kv, kv0, k)
  }

  /** A process that restored at `s` with `t0` as its table, `p` queued and `kv0` as its live map. */
  ghost predicate Going(log: Log, s: nat, t0: Table, p: seq<Entry>, kv0: KvMap, n: Node) {
    && Bounds(log, n) && n.base == n.snapAt == s <= n.applied
    && DedupOk(log, n)
    && n.dropped == []
    && Placed(log, s, n.applied, t0, p, n.view.q.table, Pending(n))
    && Overlaid(log, s, n.applied, kv0, n.view.kv)
  }

  // ---------------------------------------------------------------- every step keeps it

  lemma LateStep(log: Log, s: nat, a: nat, p: seq<Entry>, e: Entry)
    requires s <= a < |log|
    ensures Late(log, s, a + 1, p, e) <==> Late(log, s, a, p, e) || (IsEffective(log, a) && e == EntryOf(log[a]))
  {
    if RowOf(log, e, s, a) {
      var j :| s <= j < a && IsEffective(log, j) && EntryOf(log[j]) == e;
      assert RowOf(log, e, s, a + 1);
    }
    if IsEffective(log, a) && e == EntryOf(log[a]) { assert RowOf(log, e, s, a + 1); }
  }

  lemma PlacedDelivery(log: Log, s: nat, a: nat, t0: Table, p: seq<Entry>,
                       t: Table, rest: seq<Entry>, t': Table, rest': seq<Entry>)
    requires s <= a < |log| && Placed(log, s, a, t0, p, t, rest)
    requires forall e :: e in rest ==> e in rest'
    requires if IsEffective(log, a) then
               && (forall e :: e in rest' ==> e in rest || e == EntryOf(log[a]))
               && (t' == t || t' == Insert(t, EntryOf(log[a])))
               && (log[a].index in t' || EntryOf(log[a]) in rest')
             else rest' == rest && t' == t
    ensures Placed(log, s, a + 1, t0, p, t', rest')
  {
    forall e ensures Late(log, s, a + 1, p, e) <==> Late(log, s, a, p, e) || (IsEffective(log, a) && e == EntryOf(log[a])) {
      LateStep(log, s, a, p, e);
    }
  }

  lemma OverlaidStep(log: Log, s: nat, a: nat, kv0: KvMap, kv: KvMap, k: string)
    requires s <= a < |log| && OverlaidAt(log, s, a, kv0, kv, k)
    ensures OverlaidAt(log, s, a + 1, kv0, KvAfter(log, kv, a), k)
  {
    KvAtStep(log, a);
    if WrittenSince(log, s, a, k) {
      var j :| s <= j < a && IsEffective(log, j) && log[j].data.cmd.key == k;
      assert WrittenSince(log, s, a + 1, k);
    } else if IsEffective(log, a) && log[a].data.cmd.key == k {
      assert WrittenSince(log, s, a + 1, k);
    }
  }

  lemma OverlaidDelivery(log: Log, s: nat, a: nat, kv0: KvMap, kv: KvMap)
    requires s <= a < |log| && Overlaid(log, s, a, kv0, kv)
    ensures Overlaid(log, s, a + 1, kv0, KvAfter(log, kv, a))
  {
    var b, kv' := a + 1, KvAfter(log, kv, a);
    forall k ensures OverlaidAt(log, s, b, kv0, kv', k) {
      OverlaidStep(log, s, a, kv0, kv, k);
    }
  }

  lemma GoingRows(log: Log, s: nat, t0: Table, p: seq<Entry>, n: Node, path: Path, now: int)
    requires s <= n.applied < |log|
    requires Applies(n.view.seen, log[n.applied]) ==>
               WriteQueue.Enabled(n.view.q, SendEvent(path, EntryOf(log[n.applied])))
    requires Applies(n.view.seen, log[n.applied]) <==> IsEffective(log, n.applied)
    requires Placed(log, s, n.applied, t0, p, n.view.q.table, Pending(n))
    ensures var n' := Delivered(log, n, path, now);
            Placed(log, s, n.applied + 1, t0, p, n'.view.q.table, Pending(n'))
  {
    var n' := Delivered(log, n, path, now);
    DeliveredQueue(log, n, path, now);
    PlacedDelivery(log, s, n.applied, t0, p, n.view.q.table, Pending(n), n'.view.q.table, Pending(n'));
  }

  lemma GoingMemory(log: Log, s: nat, kv0: KvMap, n: Node, path: Path, now: int)
    requires Bounds(log, n) && DedupOk(log, n) && s <= n.applied && n.base <= n.applied
    requires Enabled(log, n, Deliver(path, now))
    requires Overlaid(log, s, n.applied, kv0, n.view.kv)
    ensures var n' := Delivered(log, n, path, now);
            && OneMore(log, n, n') && Bounds(log, n') && DedupOk(log, n')
            && Overlaid(log, s, n.applied + 1, kv0, n'.view.kv)
  {
    VerdictIsTheLogs(log, n);
    DeliveredMemory(log, n, path, now);
    DeliverDedup(log, n, Delivered(log, n, path, now));
    OverlaidDelivery(log, s, n.applied, kv0, n.view.kv);
  }

  lemma NothingDropped(log: Log, n: Node, path: Path, now: int)
    requires n.applied < |log| && n.dropped == [] && path != Slow(false)
    requires Applies(n.view.seen, log[n.applied]) ==>
               WriteQueue.Enabled(n.view.q, SendEvent(path, EntryOf(log[n.applied])))
    ensures Delivered(log, n, path, now).dropped == []
  {
  }

  lemma GoingDelivery(log: Log, s: nat, t0: Table, p: seq<Entry>, kv0: KvMap, n: Node, path: Path, now: int)
    requires Going(log, s, t0, p, kv0, n) && Enabled(log, n, Deliver(path, now)) && path != Slow(false)
    ensures Going(log, s, t0, p, kv0, Delivered(log, n, path, now))
  {
    VerdictIsTheLogs(log, n);
    GoingRows(log, s, t0, p, n, path, now);
    GoingMemory(log, s, kv0, n, path, now);
    NothingDropped(log, n, path, now);
  }

  lemma PlacedFlush(log: Log, s: nat, a: nat, t0: Table, p: seq<Entry>,
                    t: Table, batch: seq<Entry>, rest: seq<Entry>, rest': seq<Entry>)
    requires s <= a <= |log| && Placed(log, s, a, t0, p, t, rest)
    requires forall e :: e in rest <==> e in batch || e in rest'
    ensures Placed(log, s, a, t0, p, InsertAll(t, batch), rest')
  {
    InsertAllRows(t, batch);
  }

  lemma GoingWork(log: Log, ttl: nat, s: nat, t0: Table, p: seq<Entry>, kv0: KvMap, n: Node, w: WriteQueue.Event)
    requires Going(log, s, t0, p, kv0, n) && Enabled(log, n, Work(w)) && w != WriteQueue.Flush(false)
    ensures Going(log, s, t0, p, kv0, Next(log, ttl, n, Work(w)))
  {
    var n' := Next(log, ttl, n, Work(w));
    if w == WriteQueue.Flush(true) {
      PlacedFlush(log, s, n.applied, t0, p, n.view.q.table, n.view.q.batch, Pending(n), Pending(n'));
    } else {
      SamePending(n, n', w);
    }
  }

  lemma GoingStep(log: Log, ttl: nat, s: nat, t0: Table, p: seq<Entry>, kv0: KvMap, n: Node, ev: Event)
    requires Going(log, s, t0, p, kv0, n) && Enabled(log, n, ev) && SteadyEvent(ev)
    ensures Going(log, s, t0, p, kv0, Next(log, ttl, n, ev))
  {
    match ev
    case Deliver(path, now) => GoingDelivery(log, s, t0, p, kv0, n, path, now);
    case Work(w) => GoingWork(log, ttl, s, t0, p, kv0, n, w);
    case Clean(now) => assert Pending(Next(log, ttl, n, ev)) == Pending(n);
  }

  lemma {:induction false} KeepsGoing(
      log: Log, ttl: nat, start: Node, evs: seq<Event>, s: nat, t0: Table, p: seq<Entry>, kv0: KvMap)
    requires Going(log, s, t0, p, kv0, start) && Legal(log, ttl, start, evs) && Steady(evs)
    ensures Going(log, s, t0, p, kv0, Run(log, ttl, start, evs))
    decreases |evs|
  {
    if evs != [] {
      var front := evs[..|evs| - 1];
      KeepsGoing(log, ttl, start, front, s, t0, p, kv0);
      GoingStep(log, ttl, s, t0, p, kv0, Run(log, ttl, start, front), evs[|evs| - 1]);
    }
  }

  /** Where a restore may happen: not behind what was consumed, and no idempotency key used on both
      sides but those that the process applied itself. */
  ghost predicate RestorePoint(log: Log, n: Node, s: nat, m: KvMap, order: seq<string>) {
    n.applied <= s <= |log| && IsOrder(order, m) && CleanCut(log, s, n.marks.Keys)
  }

  /** What is still to be written at that moment. */
  function Queued(n: Node): seq<Entry> {
    n.view.q.batch + n.view.q.ch
  }

  lemma NothingSince(log: Log, s: nat, t0: Table, p: seq<Entry>, kv0: KvMap)
    requires s <= |log|
    ensures Placed(log, s, s, t0, p, t0, p) && Overlaid(log, s, s, kv0, kv0)
  {
  }

  lemma GoingStart(log: Log, n: Node, s: nat, m: KvMap, order: seq<string>)
    requires Bounds(log, n) && DedupOk(log, n) && RestorePoint(log, n, s, m, order)
    ensures Going(log, s, Synthetic(order, m), Queued(n), n.view.kv + m, Restored(n, s, m, order))
  {
    var n' := Restored(n, s, m, order);
    assert Pending(n') == Queued(n);
    RestoredDedup(log, n, n', s);
    NothingSince(log, s, Synthetic(order, m), Queued(n), n.view.kv + m);
  }

  // ---------------------------------------------------------------- the values at the end

  /** The latest effective put of a key decides what the log gives the key. */
  lemma {:induction false} LatestPut(log: Log, s: nat, a: nat, k: string) returns (j: nat)
    requires a <= |log| && WrittenSince(log, s, a, k)
    ensures Recovery.LatestPut(log, a, k, j) && s <= j
    ensures k in KvAt(log, a) && KvAt(log, a)[k] == log[j].data.cmd.value
    decreases a
  {
    var i :| s <= i < a && IsEffective(log, i) && log[i].data.cmd.key == k;
    if IsEffective(log, a - 1) && log[a - 1].data.cmd.key == k {
      j := a - 1;
    } else {
      j := LatestPut(log, s, a - 1, k);
    }
  }

  lemma {:induction false} Unwritten(log: Log, s: nat, a: nat, k: string)
    requires s <= a <= |log| && !WrittenSince(log, s, a, k)
    ensures AgreeAt(KvAt(log, a), KvAt(log, s), k)
    decreases a
  {
    if s < a { Unwritten(log, s, a - 1, k); }
  }

  /** The queued entries are the rows of puts from before the restore, each under its own index. */
  ghost predicate Early(log: Log, s: nat, p: seq<Entry>)
    requires s <= |log|
  {
    && (forall e :: e in p ==> e.index <= Cut(log, s))
    && (forall e, e' :: e in p && e' in p && e.index == e'.index ==> e == e')
  }

  /** The table of a drained process. */
  ghost predicate Settled(log: Log, s: nat, a: nat, m: KvMap, order: seq<string>, p: seq<Entry>, t: Table) {
    && WellFormed(log) && s <= a <= |log| && IsOrder(order, m) && Early(log, s, p)
    && Placed(log, s, a, Synthetic(order, m), p, t, [])
  }

  /** A row above the synthetic ones is a queued entry or the row of a later put. */
  lemma RowAbove(log: Log, s: nat, a: nat, m: KvMap, order: seq<string>, p: seq<Entry>, t: Table, i: nat)
    requires Settled(log, s, a, m, order, p, t) && i in t && i >= |m|
    ensures t[i].index == i && Late(log, s, a, p, t[i])
    ensures RowOf(log, t[i], s, a) ==> i > Cut(log, s) && WrittenAbove(log, s, a, |m|, t[i].key)
  {
    OrderLength(order, m);
    if RowOf(log, t[i], s, a) {
      RowAboveCut(log, t[i], s, a);
      var j :| s <= j < a && IsEffective(log, j) && EntryOf(log[j]) == t[i];
    }
  }

  lemma RowAtPut(log: Log, s: nat, a: nat, m: KvMap, order: seq<string>, p: seq<Entry>, t: Table, j: nat)
    requires Settled(log, s, a, m, order, p, t)
    requires s <= j < a && IsEffective(log, j) && log[j].index >= |m|
    ensures log[j].index in t && t[log[j].index] == EntryOf(log[j])
  {
    var i := log[j].index;
    assert RowOf(log, EntryOf(log[j]), s, a);
    assert Late(log, s, a, p, EntryOf(log[j]));
    RowAbove(log, s, a, m, order, p, t, i);
    IndexCut(log, j, s);
    var j' :| s <= j' < a && IsEffective(log, j') && EntryOf(log[j']) == t[i];
    assert j' == j;
  }

  /** No late entry above the latest put of a key writes the key. */
  lemma NothingLater(log: Log, s: nat, a: nat, p: seq<Entry>, k: string, j: nat, e: Entry)
    requires WellFormed(log) && s <= j && a <= |log| && Recovery.LatestPut(log, a, k, j)
    requires Early(log, s, p) && Late(log, s, a, p, e) && log[j].index < e.index
    ensures e.key != k
  {
    IndexCut(log, j, s);
    if RowOf(log, e, s, a) {
      var j' :| s <= j' < a && IsEffective(log, j') && EntryOf(log[j']) == e;
      assert j < j';
    }
  }

  /** The latest put of a key, where its index is free, decides the key. */
  lemma PutWins(log: Log, s: nat, a: nat, m: KvMap, order: seq<string>, p: seq<Entry>, t: Table, k: string, j: nat)
    requires Settled(log, s, a, m, order, p, t)
    requires s <= j && Recovery.LatestPut(log, a, k, j) && log[j].index >= |m|
    ensures k in Fold(t) && Fold(t)[k] == log[j].data.cmd.value
  {
    RowAtPut(log, s, a, m, order, p, t, j);
    forall i | log[j].index < i && i in t ensures t[i].key != k {
      RowAbove(log, s, a, m, order, p, t, i);
      NothingLater(log, s, a, p, k, j, t[i]);
    }
    WinnerDecides(t, Bound(t), k, log[j].index);
  }

  /** Where no put decides it, the last queued entry of a key does. */
  lemma QueuedWins(log: Log, s: nat, a: nat, m: KvMap, order: seq<string>, p: seq<Entry>, t: Table, e: Entry)
    requires Settled(log, s, a, m, order, p, t)
    requires LastOf(p, |m|, e) && !WrittenAbove(log, s, a, |m|, e.key)
    ensures e.key in Fold(t) && Fold(t)[e.key] == e.value
  {
    assert Late(log, s, a, p, e);
    RowAbove(log, s, a, m, order, p, t, e.index);
    forall i' | e.index < i' && i' in t ensures t[i'].key != e.key {
      RowAbove(log, s, a, m, order, p, t, i');
    }
    WinnerDecides(t, Bound(t), e.key, e.index);
  }

  /** Where neither does, the snapshot's row is the only one. */
  lemma SnapshotWins(log: Log, s: nat, a: nat, m: KvMap, order: seq<string>, p: seq<Entry>, t: Table, k: string)
    requires Settled(log, s, a, m, order, p, t) && !WrittenAbove(log, s, a, |m|, k)
    requires forall e :: e in p && e.key == k ==> e.index < |m|
    ensures AgreeAt(Fold(t), m, k)
  {
    OrderLength(order, m);
    if k in Fold(t) {
      var i := WinnerExists(t, Bound(t), k);
      if i >= |m| {
        RowAbove(log, s, a, m, order, p, t, i);
        assert false;
      }
      assert t[i] == Synthetic(order, m)[i];
    }
    if k in m {
      var i :| 0 <= i < |order| && order[i] == k;
      assert i in Synthetic(order, m);
      RowKeyInFold(t, Bound(t), i);
    }
  }

  lemma {:induction false} LastWrite(p: seq<Entry>, k: string) returns (last: Entry)
    requires exists e :: e in p && e.key == k
    ensures last in p && last.key == k && forall e :: e in p && e.key == k ==> e.index <= last.index
    decreases |p|
  {
    var front, e0 := p[..|p| - 1], p[|p| - 1];
    assert p == front + [e0];
    if exists e :: e in front && e.key == k {
      last := LastWrite(front, k);
      if e0.key == k && e0.index > last.index { last := e0; }
    } else {
      last := e0;
    }
  }

  lemma QueuedDecides(
      log: Log, s: nat, a: nat, m: KvMap, order: seq<string>, p: seq<Entry>, t: Table, e: Entry, g: KvMap)
    requires Settled(log, s, a, m, order, p, t)
    requires LastOf(p, |m|, e) && !WrittenAbove(log, s, a, |m|, e.key)
    ensures AgreeAt(Fold(t), g, e.key) <==> RestoredValue(m, p, e.key, g)
  {
    QueuedWins(log, s, a, m, order, p, t, e);
  }

  lemma SnapshotDecides(
      log: Log, s: nat, a: nat, m: KvMap, order: seq<string>, p: seq<Entry>, t: Table, k: string, g: KvMap)
    requires Settled(log, s, a, m, order, p, t) && !WrittenAbove(log, s, a, |m|, k)
    requires forall e :: LastOf(p, |m|, e) ==> e.key != k
    ensures AgreeAt(Fold(t), g, k) <==> RestoredValue(m, p, k, g)
  {
    forall e | e in p && e.key == k ensures e.index < |m| {
      var last := LastWrite(p, k);
      assert !LastOf(p, |m|, last);
    }
    SnapshotWins(log, s, a, m, order, p, t, k);
  }

  lemma LatestAbove(log: Log, s: nat, a: nat, rows: nat, k: string) returns (j: nat)
    requires WellFormed(log) && a <= |log| && WrittenAbove(log, s, a, rows, k)
    ensures Recovery.LatestPut(log, a, k, j) && s <= j && log[j].index >= rows
    ensures k in KvAt(log, a) && KvAt(log, a)[k] == log[j].data.cmd.value
  {
    var i :| s <= i < a && IsEffective(log, i) && log[i].data.cmd.key == k && log[i].index >= rows;
    assert WrittenSince(log, s, a, k);
    j := LatestPut(log, s, a, k);
    assert i <= j;
  }

  lemma PutDecides(log: Log, s: nat, a: nat, m: KvMap, order: seq<string>, p: seq<Entry>, t: Table, k: string)
    requires Settled(log, s, a, m, order, p, t) && WrittenAbove(log, s, a, |m|, k)
    ensures AgreeAt(Fold(t), KvAt(log, a), k)
  {
    var j := LatestAbove(log, s, a, |m|, k);
    PutWins(log, s, a, m, order, p, t, k, j);
  }

  /** What the settled table replays to, against any map `g`. */
  lemma {:induction false} SettledIff(
      log: Log, s: nat, a: nat, m: KvMap, order: seq<string>, p: seq<Entry>, t: Table, k: string, g: KvMap)
    requires Settled(log, s, a, m, order, p, t)
    ensures AgreeAt(Fold(t), g, k) <==>
            if WrittenAbove(log, s, a, |m|, k) then AgreeAt(KvAt(log, a), g, k) else RestoredValue(m, p, k, g)
  {
    if WrittenAbove(log, s, a, |m|, k) {
      PutDecides(log, s, a, m, order, p, t, k);
    } else if e :| LastOf(p, |m|, e) && e.key == k {
      QueuedDecides(log, s, a, m, order, p, t, e, g);
    } else {
      SnapshotDecides(log, s, a, m, order, p, t, k, g);
    }
  }

  // ---------------------------------------------------------------- the theorems

  /** `m` is installed at position `s` in whatever state a life has led to, and `after` follows. */
  ghost predicate Continues(
      log: Log, ttl: nat, cap: nat, flushSize: nat, clock: int, before: seq<Event>,
      s: nat, m: KvMap, order: seq<string>, after: seq<Event>)
  {
    var n := Recovery.End(log, ttl, cap, flushSize, clock, before);
    && Recovery.Life(log, ttl, cap, flushSize, clock, before)
    && RestorePoint(log, n, s, m, order)
    && Legal(log, ttl, Restored(n, s, m, order), after)
    && Steady(after)
  }

  lemma Gone(
      log: Log, ttl: nat, cap: nat, flushSize: nat, clock: int, before: seq<Event>,
      s: nat, m: KvMap, order: seq<string>, after: seq<Event>)
    requires Continues(log, ttl, cap, flushSize, clock, before, s, m, order, after)
    ensures var n := Recovery.End(log, ttl, cap, flushSize, clock, before);
            && Going(log, s, Synthetic(order, m), Queued(n), n.view.kv + m, Run(log, ttl, Restored(n, s, m, order), after))
            && Early(log, s, Queued(n))
  {
    Reachable(log, ttl, cap, flushSize, clock, before);
    var n := Recovery.End(log, ttl, cap, flushSize, clock, before);
    GoingStart(log, n, s, m, order);
    KeepsGoing(log, ttl, Restored(n, s, m, order), after, s, Synthetic(order, m), Queued(n), n.view.kv + m);
    QueuedEarly(log, n, s);
  }

  lemma QueuedEarly(log: Log, n: Node, s: nat)
    requires WellFormed(log) && Inv(log, n) && n.applied <= s <= |log|
    ensures Early(log, s, Queued(n))
  {
    PendingUnique(log, n);
    CutMonotone(log, n.applied, s);
    forall e | e in Queued(n) ensures e in Pending(n) && e.index <= Cut(log, s) {
      assert e in Pending(n);
      var j :| n.base <= j < n.applied && IsEffective(log, j) && EntryOf(log[j]) == e;
      IndexCut(log, j, n.applied);
    }
  }

  /** The live map, key by key: after a restore of any map `m` and re-delivery up to some position it
      says what the log says there if and only if the key has been written since, or the map right
      after the restore said what the log says at `s`. */
  lemma {:induction false} RestoredMapIff(
      log: Log, ttl: nat, cap: nat, flushSize: nat, clock: int, before: seq<Event>,
      s: nat, m: KvMap, order: seq<string>, after: seq<Event>, k: string)
    requires Continues(log, ttl, cap, flushSize, clock, before, s, m, order, after)
    ensures var n := Recovery.End(log, ttl, cap, flushSize, clock, before);
            var end := Run(log, ttl, Restored(n, s, m, order), after);
            && s <= end.applied <= |log|
            && (AgreeAt(end.view.kv, KvAt(log, end.applied), k) <==>
                WrittenSince(log, s, end.applied, k) || AgreeAt(n.view.kv + m, KvAt(log, s), k))
  {
    Gone(log, ttl, cap, flushSize, clock, before, s, m, order, after);
    var n := Recovery.End(log, ttl, cap, flushSize, clock, before);
    var end := Run(log, ttl, Restored(n, s, m, order), after);
    assert OverlaidAt(log, s, end.applied, n.view.kv + m, end.view.kv, k);
    if !WrittenSince(log, s, end.applied, k) { Unwritten(log, s, end.applied, k); }
  }

  /** The table, key by key, once the queue is drained, whatever was queued at the restore: the next
      start-up reads what the log says where a later put of the key found an index that the synthetic
      rows leave free, otherwise what the last queued entry above those rows says, otherwise what the
      snapshot says. Against any map `g`, so that the log's is one case and the snapshot another. */
  lemma {:induction false} RestoredTableIff(
      log: Log, ttl: nat, cap: nat, flushSize: nat, clock: int, before: seq<Event>,
      s: nat, m: KvMap, order: seq<string>, after: seq<Event>, k: string, g: KvMap)
    requires Continues(log, ttl, cap, flushSize, clock, before, s, m, order, after)
    requires var n := Recovery.End(log, ttl, cap, flushSize, clock, before);
             Queued(Run(log, ttl, Restored(n, s, m, order), after)) == []
    ensures var n := Recovery.End(log, ttl, cap, flushSize, clock, before);
            var end := Run(log, ttl, Restored(n, s, m, order), after);
            && s <= end.applied <= |log|
            && (AgreeAt(Fold(end.view.q.table), g, k) <==>
                if WrittenAbove(log, s, end.applied, |m|, k) then AgreeAt(KvAt(log, end.applied), g, k)
                else RestoredValue(m, Queued(n), k, g))
  {
    Gone(log, ttl, cap, flushSize, clock, before, s, m, order, after);
    var n := Recovery.End(log, ttl, cap, flushSize, clock, before);
    var end := Run(log, ttl, Restored(n, s, m, order), after);
    assert Pending(end) == [];
    SettledIff(log, s, end.applied, m, order, Queued(n), end.view.q.table, k, g);
  }

  /** So live map and table are the log's exactly when that is so at every key. */
  lemma {:induction false} AnyRestoreIff(
      log: Log, ttl: nat, cap: nat, flushSize: nat, clock: int, before: seq<Event>,
      s: nat, m: KvMap, order: seq<string>, after: seq<Event>)
    requires Continues(log, ttl, cap, flushSize, clock, before, s, m, order, after)
    ensures var n := Recovery.End(log, ttl, cap, flushSize, clock, before);
            var end := Run(log, ttl, Restored(n, s, m, order), after);
            && s <= end.applied <= |log|
            && (end.view.kv == KvAt(log, end.applied) <==>
                forall k :: WrittenSince(log, s, end.applied, k) || AgreeAt(n.view.kv + m, KvAt(log, s), k))
            && (Queued(end) == [] ==>
                  (Fold(end.view.q.table) == KvAt(log, end.applied) <==>
                   forall k :: WrittenAbove(log, s, end.applied, |m|, k) ||
                               RestoredValue(m, Queued(n), k, KvAt(log, end.applied))))
  {
    var n := Recovery.End(log, ttl, cap, flushSize, clock, before);
    var end := Run(log, ttl, Restored(n, s, m, order), after);
    Gone(log, ttl, cap, flushSize, clock, before, s, m, order, after);
    MapEverywhere(log, ttl, cap, flushSize, clock, before, s, m, order, after);
    if Queued(end) == [] { TableEverywhere(log, ttl, cap, flushSize, clock, before, s, m, order, after); }
  }

  lemma MapEverywhere(
      log: Log, ttl: nat, cap: nat, flushSize: nat, clock: int, before: seq<Event>,
      s: nat, m: KvMap, order: seq<string>, after: seq<Event>)
    requires Continues(log, ttl, cap, flushSize, clock, before, s, m, order, after)
    ensures var n := Recovery.End(log, ttl, cap, flushSize, clock, before);
            var end := Run(log, ttl, Restored(n, s, m, order), after);
            && s <= end.applied <= |log|
            && (end.view.kv == KvAt(log, end.applied) <==>
                forall k :: WrittenSince(log, s, end.applied, k) || AgreeAt(n.view.kv + m, KvAt(log, s), k))
  {
    var n := Recovery.End(log, ttl, cap, flushSize, clock, before);
    var end := Run(log, ttl, Restored(n, s, m, order), after);
    RestoredMapIff(log, ttl, cap, flushSize, clock, before, s, m, order, after, "");
    forall k ensures AgreeAt(end.view.kv, KvAt(log, end.applied), k) <==>
                     WrittenSince(log, s, end.applied, k) || AgreeAt(n.view.kv + m, KvAt(log, s), k)
    {
      RestoredMapIff(log, ttl, cap, flushSize, clock, before, s, m, order, after, k);
    }
    AgreeEverywhere(end.view.kv, KvAt(log, end.applied));
  }

  lemma TableEverywhere(
      log: Log, ttl: nat, cap: nat, flushSize: nat, clock: int, before: seq<Event>,
      s: nat, m: KvMap, order: seq<string>, after: seq<Event>)
    requires Continues(log, ttl, cap, flushSize, clock, before, s, m, order, after)
    requires var n := Recovery.End(log, ttl, cap, flushSize, clock, before);
             Queued(Run(log, ttl, Restored(n, s, m, order), after)) == []
    ensures var n := Recovery.End(log, ttl, cap, flushSize, clock, before);
            var end := Run(log, ttl, Restored(n, s, m, order), after);
            && s <= end.applied <= |log|
            && (Fold(end.view.q.table) == KvAt(log, end.applied) <==>
                forall k :: WrittenAbove(log, s, end.applied, |m|, k) ||
                            RestoredValue(m, Queued(n), k, KvAt(log, end.applied)))
  {
    var n := Recovery.End(log, ttl, cap, flushSize, clock, before);
    var end := Run(log, ttl, Restored(n, s, m, order), after);
    Gone(log, ttl, cap, flushSize, clock, before, s, m, order, after);
    var g := KvAt(log, end.applied);
    forall k ensures AgreeAt(Fold(end.view.q.table), KvAt(log, end.applied), k) <==>
                     WrittenAbove(log, s, end.applied, |m|, k) || RestoredValue(m, Queued(n), k, KvAt(log, end.applied))
    {
      RestoredTableIff(log, ttl, cap, flushSize, clock, before, s, m, order, after, k, g);
    }
    AgreeEverywhere(Fold(end.view.q.table), KvAt(log, end.applied));
  }

  /** With nothing delivered in between, the next start-up rebuilds the snapshot, exact or not, if and
      only if the last of the queued entries to write each key, of those above the synthetic rows,
      carries the snapshot's value. */
  lemma {:induction false} UndrainedRestoreIff(
      log: Log, ttl: nat, cap: nat, flushSize: nat, clock: int, before: seq<Event>,
      s: nat, m: KvMap, order: seq<string>, after: seq<Event>)
    requires Continues(log, ttl, cap, flushSize, clock, before, s, m, order, after)
    requires var n := Recovery.End(log, ttl, cap, flushSize, clock, before);
             var end := Run(log, ttl, Restored(n, s, m, order), after);
             Queued(end) == [] && end.applied == s
    ensures var n := Recovery.End(log, ttl, cap, flushSize, clock, before);
            var q := Run(log, ttl, Restored(n, s, m, order), after).view.q;
            BootView(q.table, q.cap, q.flushSize).kv == m <==>
            forall e :: LastOf(Queued(n), |m|, e) ==> e.key in m && m[e.key] == e.value
  {
    var n := Recovery.End(log, ttl, cap, flushSize, clock, before);
    var t := Run(log, ttl, Restored(n, s, m, order), after).view.q.table;
    forall k ensures AgreeAt(Fold(t), m, k) <==> RestoredValue(m, Queued(n), k, m) {
      RestoredTableIff(log, ttl, cap, flushSize, clock, before, s, m, order, after, k, m);
    }
    HarmlessIff(Fold(t), m, Queued(n));
  }

  lemma HarmlessIff(f: KvMap, m: KvMap, p: seq<Entry>)
    requires forall k :: AgreeAt(f, m, k) <==> RestoredValue(m, p, k, m)
    ensures f == m <==> forall e :: LastOf(p, |m|, e) ==> e.key in m && m[e.key] == e.value
  {
    AgreeEverywhere(f, m);
    if f == m {
      forall e | LastOf(p, |m|, e) ensures e.key in m && m[e.key] == e.value {
        assert RestoredValue(m, p, e.key, m);
      }
    }
  }

  /** No later put finds its index taken by a synthetic row if and only if the snapshot has no more
      keys than the index of any of them. An exact snapshot never has
      (CommittedLog.SyntheticRowsBelowCut); one taken while the table holds rows from beyond may. */
  lemma {:induction false} NothingSwallowedIff(log: Log, s: nat, m: KvMap, order: seq<string>)
    requires IsOrder(order, m) && s <= |log|
    ensures (forall j :: s <= j < |log| && IsEffective(log, j) ==> log[j].index !in Synthetic(order, m)) <==>
            (forall j :: s <= j < |log| && IsEffective(log, j) ==> |m| <= log[j].index)
  {
    OrderLength(order, m);
  }
}
