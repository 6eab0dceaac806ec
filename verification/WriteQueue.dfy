/** The asynchronous batch writer (store/batch.go) as a state machine: one step per arm of the
    worker's select, per send and per transaction, so that every interleaving is a run. */
module WriteQueue {
  import opened Types
  import opened Rows

  /** Where the worker goroutine stands. */
  datatype Pc =
    | Selecting    // at the outer select
    | Flushing     // inside flush(), called from the receive or the ticker arm
    | Draining     // in the inner loop, after the stop signal
    | FinalFlush   // the inner select took its default arm
    | Exited

  datatype Queue = Queue(
    table: Table,
    open: bool,          // the database connection has not been closed
    ch: seq<Entry>,      // the buffered channel
    batch: seq<Entry>,   // the worker's slice
    pc: Pc,
    stopped: bool,       // the stop channel is closed
    cap: nat,
    flushSize: nat)

  /** envInt only lets positive sizes through. */
  predicate Configured(q: Queue) {
    q.cap >= 1 && q.flushSize >= 1
  }

  function Fresh(table: Table, cap: nat, flushSize: nat): Queue {
    Queue(table, true, [], [], Selecting, false, cap, flushSize)
  }

  datatype Event =
    | SendFast(e: Entry)             // the channel had a free slot
    | SendSlow(e: Entry, ok: bool)   // the 100 ms timer won: insert at once, which may fail
    | Receive
    | Tick
    | Flush(ok: bool)                // the transaction commits, or fails and rolls back
    | Stop
    | BeginDrain
    | DrainReceive
    | DrainEmpty
    | Close                          // the database is closed

  predicate Enabled(q: Queue, ev: Event) {
    match ev
    case SendFast(_) => |q.ch| < q.cap
    case SendSlow(_, ok) => ok ==> q.open
    case Receive => q.pc == Selecting && q.ch != []
    case Tick => q.pc == Selecting
    case Flush(ok) => (q.pc == Flushing || q.pc == FinalFlush) && (ok ==> q.open || q.batch == [])
    case Stop => !q.stopped
    case BeginDrain => q.pc == Selecting && q.stopped
    case DrainReceive => q.pc == Draining && q.ch != []
    case DrainEmpty => q.pc == Draining && q.ch == []
    case Close => q.open
  }

  function Next(q: Queue, ev: Event): Queue
    requires Enabled(q, ev)
  {
    match ev
    case SendFast(e) => q.(ch := q.ch + [e])
    case SendSlow(e, ok) => if ok then q.(table := Insert(q.table, e)) else q
    case Receive =>
      var batch := q.batch + [q.ch[0]];
      q.(ch := q.ch[1..], batch := batch, pc := if |batch| >= q.flushSize then Flushing else Selecting)
    case Tick => q.(pc := Flushing)
    case Flush(ok) =>
      q.(table := if ok then InsertAll(q.table, q.batch) else q.table,
         batch := [],
         pc := if q.pc == FinalFlush then Exited else Selecting)
    case Stop => q.(stopped := true)
    case BeginDrain => q.(pc := Draining)
    case DrainReceive => q.(ch := q.ch[1..], batch := q.batch + [q.ch[0]])
    case DrainEmpty => q.(pc := FinalFlush)
    case Close => q.(open := false)
  }

  /** What has happened to the entries so far. */
  datatype History = History(
    sent: seq<Entry>,        // every entry passed to Send
    fast: seq<Entry>,        // those that went through the channel
    txs: seq<seq<Entry>>,    // the worker's transactions, committed or failed
    offered: seq<Entry>,     // entries of statements and transactions that succeeded
    dropped: seq<Entry>,     // entries of those that failed: logged, then forgotten
    late: seq<Entry>)        // queued after the drain found the channel empty

  const NOTHING := History([], [], [], [], [], [])

  function Record(q: Queue, h: History, ev: Event): History {
    match ev
    case SendFast(e) =>
      h.(sent := h.sent + [e], fast := h.fast + [e],
         late := if q.pc == FinalFlush || q.pc == Exited then h.late + [e] else h.late)
    case SendSlow(e, ok) =>
      if ok then h.(sent := h.sent + [e], offered := h.offered + [e])
      else h.(sent := h.sent + [e], dropped := h.dropped + [e])
    case Flush(ok) =>
      if q.batch == [] then h
      else if ok then h.(txs := h.txs + [q.batch], offered := h.offered + q.batch)
      else h.(txs := h.txs + [q.batch], dropped := h.dropped + q.batch)
    case _ => h
  }

  ghost predicate Legal(q: Queue, evs: seq<Event>)
    decreases |evs|
  {
    evs != [] ==> Legal(q, evs[..|evs| - 1]) && Enabled(Run(q, NOTHING, evs[..|evs| - 1]).0, evs[|evs| - 1])
  }

  /** State and history after a run. */
  ghost function Run(q: Queue, h: History, evs: seq<Event>): (Queue, History)
    decreases |evs|
  {
    if evs == [] then (q, h)
    else
      var (q1, h1) := Run(q, h, evs[..|evs| - 1]);
      var ev := evs[|evs| - 1];
      if Enabled(q1, ev) then (Next(q1, ev), Record(q1, h1, ev)) else (q1, h1)
  }

  /** One more step of a run. */
  lemma Then(q0: Queue, q: Queue, h: History, evs: seq<Event>, ev: Event)
      returns (q': Queue, h': History, evs': seq<Event>)
    requires Legal(q0, evs) && Run(q0, NOTHING, evs) == (q, h) && Enabled(q, ev)
    ensures evs' == evs + [ev] && q' == Next(q, ev) && h' == Record(q, h, ev)
    ensures Legal(q0, evs') && Run(q0, NOTHING, evs') == (q', h')
  {
    q', h', evs' := Next(q, ev), Record(q, h, ev), evs + [ev];
    assert evs'[..|evs|] == evs;
  }

  // ---------------------------------------------------------------- invariants

  function Flatten(txs: seq<seq<Entry>>): seq<Entry> {
    if txs == [] then [] else Flatten(txs[..|txs| - 1]) + txs[|txs| - 1]
  }

  /** Every entry ever sent is in exactly one place. */
  ghost predicate Conserved(q: Queue, h: History) {
    multiset(h.sent) == multiset(q.ch) + multiset(q.batch) + multiset(h.offered) + multiset(h.dropped)
  }

  /** The channel path is first-in first-out, through every transaction. */
  ghost predicate Fifo(q: Queue, h: History) {
    h.fast == Flatten(h.txs) + q.batch + q.ch
  }

  /** Before the final drain a transaction carries 1 to flushSize rows. */
  ghost predicate Sized(q: Queue, h: History) {
    && (q.pc == Selecting ==> |q.batch| < q.flushSize)
    && (q.pc == Flushing ==> |q.batch| <= q.flushSize)
    && (q.pc == Exited ==> q.batch == [])
    && forall i :: 0 <= i < |h.txs| ==>
         1 <= |h.txs[i]| && (|h.txs[i]| <= q.flushSize || (q.pc == Exited && i == |h.txs| - 1))
  }

  /** After the drain found the channel empty, the channel holds just what was queued since. */
  ghost predicate Stranded(q: Queue, h: History) {
    if q.pc == FinalFlush || q.pc == Exited then q.ch == h.late else h.late == []
  }

  ghost predicate Inv(q: Queue, h: History, t0: Table) {
    && Configured(q)
    && Conserved(q, h)
    && Fifo(q, h)
    && Sized(q, h)
    && Stranded(q, h)
    && q.table == InsertAll(t0, h.offered)
    && |q.ch| <= q.cap
    && (q.pc != Selecting && q.pc != Flushing ==> q.stopped)
  }

  lemma FlattenSnoc(txs: seq<seq<Entry>>, tx: seq<Entry>)
    ensures Flatten(txs + [tx]) == Flatten(txs) + tx
  {
    assert (txs + [tx])[..|txs|] == txs;
  }

  lemma InvSendFast(q: Queue, h: History, t0: Table, e: Entry)
    requires Inv(q, h, t0) && Enabled(q, SendFast(e))
    ensures Inv(Next(q, SendFast(e)), Record(q, h, SendFast(e)), t0)
  {
    assert Flatten(h.txs) + q.batch + (q.ch + [e]) == Flatten(h.txs) + q.batch + q.ch + [e];
  }

  lemma InvSendSlow(q: Queue, h: History, t0: Table, e: Entry, ok: bool)
    requires Inv(q, h, t0) && Enabled(q, SendSlow(e, ok))
    ensures Inv(Next(q, SendSlow(e, ok)), Record(q, h, SendSlow(e, ok)), t0)
  {
    if ok {
      InsertAllConcat(t0, h.offered, [e]);
      InsertAllOne(q.table, e);
    }
  }

  lemma InvReceive(q: Queue, h: History, t0: Table, ev: Event)
    requires Inv(q, h, t0) && (ev.Receive? || ev.DrainReceive?) && Enabled(q, ev)
    ensures Inv(Next(q, ev), Record(q, h, ev), t0)
  {
    assert q.ch == [q.ch[0]] + q.ch[1..];
    assert Flatten(h.txs) + (q.batch + [q.ch[0]]) + q.ch[1..] == Flatten(h.txs) + q.batch + q.ch;
  }

  /** The history after a flush of a non-empty batch. */
  lemma FlushOrder(q: Queue, h: History, ok: bool)
    requires q.batch != [] && Fifo(q, h) && Enabled(q, Flush(ok))
    ensures Fifo(Next(q, Flush(ok)), Record(q, h, Flush(ok)))
  {
    FlattenSnoc(h.txs, q.batch);
    var h' := Record(q, h, Flush(ok));
    assert h'.txs == h.txs + [q.batch];
    assert Flatten(h'.txs) + [] + q.ch == Flatten(h.txs) + q.batch + q.ch;
  }

  lemma FlushSizes(q: Queue, h: History, ok: bool)
    requires q.batch != [] && q.flushSize >= 1 && Sized(q, h) && Enabled(q, Flush(ok))
    ensures Sized(Next(q, Flush(ok)), Record(q, h, Flush(ok)))
  {
  }

  lemma FlushTable(q: Queue, h: History, t0: Table, ok: bool)
    requires q.batch != [] && q.table == InsertAll(t0, h.offered) && Enabled(q, Flush(ok))
    ensures Next(q, Flush(ok)).table == InsertAll(t0, Record(q, h, Flush(ok)).offered)
  {
    if ok { InsertAllConcat(t0, h.offered, q.batch); }
  }

  lemma FlushConserves(q: Queue, h: History, ok: bool)
    requires q.batch != [] && Conserved(q, h) && Enabled(q, Flush(ok))
    ensures Conserved(Next(q, Flush(ok)), Record(q, h, Flush(ok)))
  {
  }

  lemma InvFlush(q: Queue, h: History, t0: Table, ok: bool)
    requires Inv(q, h, t0) && Enabled(q, Flush(ok))
    ensures Inv(Next(q, Flush(ok)), Record(q, h, Flush(ok)), t0)
  {
    if q.batch == [] {
      assert InsertAll(q.table, []) == q.table;
    } else {
      FlushOrder(q, h, ok);
      FlushSizes(q, h, ok);
      FlushTable(q, h, t0, ok);
      FlushConserves(q, h, ok);
    }
  }

  lemma {:induction false} InvStep(q: Queue, h: History, t0: Table, ev: Event)
    requires Inv(q, h, t0) && Enabled(q, ev)
    ensures Inv(Next(q, ev), Record(q, h, ev), t0)
  {
    match ev
    case SendFast(e) => InvSendFast(q, h, t0, e);
    case SendSlow(e, ok) => InvSendSlow(q, h, t0, e, ok);
    case Receive => InvReceive(q, h, t0, ev);
    case DrainReceive => InvReceive(q, h, t0, ev);
    case Flush(ok) => InvFlush(q, h, t0, ok);
    case _ =>
  }
}
