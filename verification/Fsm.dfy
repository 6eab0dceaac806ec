/** The raft state machine (fsm/fsm.go) and start-up (main.go): what Apply, Snapshot and Restore do
    to the live map, the dedup store, the write queue and the table. */
module Fsm {
  import opened Types
  import opened Rows
  import opened KeyValue
  import opened Sqlite
  import opened BatchWriting
  import opened CommittedLog
  import WriteQueue
  import Dedup

  /** The state that Apply, Snapshot and Restore see. */
  datatype View = View(kv: KvMap, seen: Dedup.Seen, q: WriteQueue.Queue)

  /** Which arm of Send's select fires. */
  datatype Path = Fast | Slow(ok: bool)

  function SendEvent(path: Path, e: Entry): WriteQueue.Event {
    match path
    case Fast => WriteQueue.SendFast(e)
    case Slow(ok) => WriteQueue.SendSlow(e, ok)
  }

  /** A snapshot stream: it decodes to a map, or it does not decode. */
  datatype Stream = Garbled | Snap(data: KvMap)

  /** Would this node apply the entry? */
  predicate Applies(seen: Dedup.Seen, item: LogItem) {
    IsPut(item) && !Dedup.IsDup(seen, item.data.cmd.idem)
  }

  /** One committed entry through Apply. */
  function ApplyTo(v: View, item: LogItem, path: Path, now: int): View
    requires Applies(v.seen, item) ==> WriteQueue.Enabled(v.q, SendEvent(path, EntryOf(item)))
  {
    if Applies(v.seen, item) then
      View(v.kv[item.data.cmd.key := item.data.cmd.value],
           Dedup.Marked(v.seen, item.data.cmd.idem, now),
           WriteQueue.Next(v.q, SendEvent(path, EntryOf(item))))
    else v
  }

  /** What Apply of the entry does with the dedup store. */
  function OfferOf(item: LogItem, now: int): Dedup.Event {
    if item.data.Decoded? then Dedup.Offer(item.data.cmd.idem, IsPut(item), now) else Dedup.Offer("", false, now)
  }

  /** So the timed runs of Dedup are those of the state machine's store. */
  lemma ApplyIsOffer(v: View, item: LogItem, path: Path, now: int, s: Dedup.Timed, ttl: nat)
    requires Applies(v.seen, item) ==> WriteQueue.Enabled(v.q, SendEvent(path, EntryOf(item)))
    requires s.seen == v.seen
    ensures Dedup.Step(s, ttl, OfferOf(item, now)).seen == ApplyTo(v, item, path, now).seen
  {
  }

  /** Which arm fires for this queue, and how the fallback's insert ends. */
  function PathOf(q: WriteQueue.Queue, fault: Fault): Path {
    if |q.ch| < q.cap then Fast else Slow(q.open && !Strikes(fault, 1))
  }

  /** A snapshot installed: the table replaced, the live map overlaid, nothing else touched. */
  function RestoreTo(v: View, m: KvMap, order: seq<string>): View
    requires forall k :: k in order ==> k in m
  {
    View(v.kv + m, v.seen, v.q.(table := Synthetic(order, m)))
  }

  /** A process just started on `table`: its rows replayed, nothing remembered, nothing queued. */
  ghost function BootView(table: Table, cap: nat, flushSize: nat): View {
    View(Fold(table), map[], WriteQueue.Fresh(table, cap, flushSize))
  }

  class Counters {
    var writes: nat
    var duplicates: nat

    constructor ()
      ensures writes == 0 && duplicates == 0
    {
      writes, duplicates := 0, 0;
    }
  }

  class FSM {
    const kv: KV
    const db: SqliteLog
    const dedup: Dedup.Store
    const batchWriter: BatchWriter
    const metrics: Counters

    constructor (kv: KV, db: SqliteLog, dedup: Dedup.Store, batchWriter: BatchWriter, metrics: Counters)
      requires batchWriter.db == db.db
      ensures this.kv == kv && this.db == db && this.dedup == dedup
      ensures this.batchWriter == batchWriter && this.metrics == metrics
      ensures Valid()
    {
      this.kv, this.db, this.dedup, this.batchWriter, this.metrics := kv, db, dedup, batchWriter, metrics;
    }

    /** The log reader and the batch writer share one connection. */
    ghost predicate Valid() {
      batchWriter.db == db.db
    }

    ghost function Abs(): View
      reads kv, dedup, batchWriter, batchWriter.db
    {
      View(kv.data, dedup.seen, batchWriter.Abs())
    }

    /** One committed entry. */
    method Apply(item: LogItem, now: int, fault: Fault) returns (res: ApplyResult)
      requires Valid()
      modifies kv, dedup`seen, batchWriter`ch, batchWriter.db`rows, metrics
      ensures Abs() == ApplyTo(old(Abs()), item, PathOf(old(batchWriter.Abs()), fault), now)
      ensures res == if item.data.Undecodable? then DecodeError
                     else if Dedup.IsDup(old(dedup.seen), item.data.cmd.idem) || item.data.cmd.op == "put" then Applied
                     else UnknownOp(item.data.cmd.op)
      ensures metrics.writes == old(metrics.writes) + if Applies(old(dedup.seen), item) then 1 else 0
      ensures metrics.duplicates == old(metrics.duplicates) +
                if item.data.Decoded? && Dedup.IsDup(old(dedup.seen), item.data.cmd.idem) then 1 else 0
    {
      if item.data.Undecodable? {
        return DecodeError;
      }
      var cmd := item.data.cmd;
      var dup := dedup.IsDuplicate(cmd.idem);
      if dup {
        metrics.duplicates := metrics.duplicates + 1;
        return Applied;
      }
      if cmd.op == "put" {
        kv.Set(cmd.key, cmd.value);
      } else {
        return UnknownOp(cmd.op);
      }
      batchWriter.Send(Entry(item.index, cmd.idem, cmd.key, cmd.value), fault);
      dedup.MarkSeen(cmd.idem, now);
      metrics.writes := metrics.writes + 1;
      return Applied;
    }

    /** Reads the table, not the live map. */
    method Snapshot(fault: Fault) returns (ok: bool, snap: KvMap)
      ensures var rows := RowsBelow(db.db.rows, Bound(db.db.rows));
              ok <==> db.db.open && (fault == None || (fault.AtRow? && fault.row >= |rows|))
      ensures ok ==> snap == Fold(db.db.rows)
    {
      ok, snap := db.Replay(SetKey, map[], fault);
      ReplayIsFold(map[], db.db.rows);
      assert map[] + Fold(db.db.rows) == Fold(db.db.rows);
    }

    /** `decoded` is the snapshot as read, or nothing if it did not decode. When the call fails,
        table and live map are as before. */
    method Restore(decoded: Stream, fault: Fault) returns (ok: bool, ghost order: seq<string>)
      requires Valid()
      modifies kv, db.db`rows
      ensures ok <==> decoded.Snap? && db.db.open && (fault == None || (fault.AtRow? && fault.row >= |decoded.data|))
      ensures ok ==> IsOrder(order, decoded.data) && Abs() == RestoreTo(old(Abs()), decoded.data, order)
      ensures !ok ==> Abs() == old(Abs())
    {
      order := [];
      if decoded.Garbled? {
        return false, order;
      }
      var entries := decoded.data;
      ok, order := db.ReplaceAll(entries, fault);
      if !ok {
        return false, order;
      }
      SetAll(entries);
    }

    /** The range loop at the end of Restore. */
    method SetAll(entries: KvMap)
      modifies kv
      ensures kv.data == old(kv.data) + entries
    {
      var todo := entries.Keys;
      while todo != {}
        invariant todo <= entries.Keys
        invariant kv.data.Keys == old(kv.data).Keys + (entries.Keys - todo)
        invariant forall k :: k in entries && k !in todo ==> kv.data[k] == entries[k]
        invariant forall k :: k in kv.data && (k in todo || k !in entries) ==> kv.data[k] == old(kv.data)[k]
        decreases |todo|
      {
        var k :| k in todo;
        kv.Set(k, entries[k]);
        todo := todo - {k};
      }
    }
  }

  /** Start-up: replay the table into a new live map, then wire up a state machine around it.
      If the replay fails the process exits. */
  method Startup(db: Database, cap: nat, flushSize: nat, ttl: nat, cleanInterval: nat, fault: Fault)
    returns (ok: bool, fsm: FSM?)
    requires cap >= 1 && flushSize >= 1 && db.open
    ensures ok <==> fault == None || (fault.AtRow? && fault.row >= |RowsBelow(db.rows, Bound(db.rows))|)
    ensures ok <==> fsm != null
    ensures ok ==> fsm.Valid() && fsm.db.db == db && fsm.Abs() == BootView(db.rows, cap, flushSize)
    ensures ok ==> fsm.batchWriter.cap == cap && fsm.batchWriter.flushSize == flushSize && !fsm.batchWriter.stopped
    ensures ok ==> fsm.dedup.ttl == ttl && fsm.dedup.cleanInterval == cleanInterval && !fsm.dedup.stopped
    ensures ok ==> fsm.metrics.writes == 0 && fsm.metrics.duplicates == 0
    ensures ok ==> fresh(fsm) && fresh(fsm.kv) && fresh(fsm.dedup) && fresh(fsm.batchWriter) && fresh(fsm.metrics)
  {
    var log := new SqliteLog(db);
    var writer := new BatchWriter(log, cap, flushSize);
    var kv := new KV();
    var entries;
    ok, entries := log.Replay(SetKey, kv.data, fault);
    ReplayIsFold(kv.data, db.rows);
    if !ok {
      return false, null;
    }
    kv.data := entries;
    assert map[] + Fold(db.rows) == Fold(db.rows);
    var dedup := new Dedup.Store(ttl, cleanInterval);
    var metrics := new Counters();
    fsm := new FSM(kv, log, dedup, writer, metrics);
  }

  /** The end of main: stop the cleaner, signal the worker, close the database. Nothing here waits
      for the worker, so what it still holds at this point it can no longer write. */
  method Shutdown(fsm: FSM)
    requires fsm.Valid() && !fsm.dedup.stopped && !fsm.batchWriter.stopped && fsm.db.db.open
    modifies fsm.dedup`stopped, fsm.batchWriter`stopped, fsm.db.db`open
    ensures fsm.dedup.stopped && fsm.batchWriter.stopped && !fsm.db.db.open
    ensures fsm.batchWriter.Abs() ==
            WriteQueue.Next(WriteQueue.Next(old(fsm.batchWriter.Abs()), WriteQueue.Stop), WriteQueue.Close)
  {
    fsm.dedup.Stop();
    fsm.batchWriter.Stop();
    fsm.db.Close();
  }
}
