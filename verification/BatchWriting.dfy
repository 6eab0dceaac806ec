/** The batch writer as the program runs it (store/batch.go): each arm of the worker's select is a
    method, tied to the steps of WriteQueue. The caller's choice of arm is the Go scheduler's. */
module BatchWriting {
  import opened Types
  import opened Rows
  import opened Sqlite
  import opened WriteQueue
  import WriteQueueTheorems

  /** Does flush() succeed? An empty batch never touches the database. */
  predicate FlushOk(q: Queue, fault: Fault) {
    q.batch == [] || (q.open && !Strikes(fault, |q.batch|))
  }

  /** The table after an attempt to write `es` in one statement or transaction. */
  function Stored(t: Table, es: seq<Entry>, open: bool, fault: Fault): Table {
    if open && (fault == None || (fault.AtRow? && fault.row >= |es|)) then InsertAll(t, es) else t
  }

  /** The drain loop run to its end. */
  function Drained(q: Queue): Queue {
    q.(pc := Draining, ch := [], batch := q.batch + q.ch)
  }

  /** What the scheduler and the callers may do next. */
  datatype Choice =
    | Arrives(e: Entry, fault: Fault)   // a call of Send, at the moment it stops waiting
    | OnReceive(fault: Fault)           // the worker's receive arm
    | OnTick(fault: Fault)              // its ticker arm
    | OnStop(fault: Fault)              // its stop arm
    | Signal                            // a call of Stop

  /** Can it happen now? A worker that has exited selects nothing. */
  predicate Ready(q: Queue, c: Choice) {
    match c
    case Arrives(_, _) => true
    case OnReceive(_) => q.pc == Selecting && q.ch != []
    case OnTick(_) => q.pc == Selecting
    case OnStop(_) => q.pc == Selecting && q.stopped
    case Signal => !q.stopped
  }

  /** Send queues the entry while there is a free slot, and falls back when there is none. */
  function SendOf(q: Queue, e: Entry, fault: Fault): Event {
    if |q.ch| < q.cap then SendFast(e) else SendSlow(e, q.open && !Strikes(fault, 1))
  }

  function Play(q: Queue, c: Choice): Queue
    requires Ready(q, c)
  {
    match c
    case Arrives(e, fault) => Next(q, SendOf(q, e, fault))
    case OnReceive(fault) =>
      var q1 := Next(q, Receive);
      if q1.pc == Flushing then Next(q1, Flush(FlushOk(q1, fault))) else q1
    case OnTick(fault) => Next(Next(q, Tick), Flush(FlushOk(q, fault)))
    case OnStop(fault) =>
      var q1 := Next(Drained(q), DrainEmpty);
      Next(q1, Flush(FlushOk(q1, fault)))
    case Signal => Next(q, Stop)
  }

  /** A schedule; what cannot happen is not chosen. */
  function PlayAll(q: Queue, cs: seq<Choice>): Queue
    decreases |cs|
  {
    if cs == [] then q
    else
      var q1 := PlayAll(q, cs[..|cs| - 1]);
      if Ready(q1, cs[|cs| - 1]) then Play(q1, cs[|cs| - 1]) else q1
  }

  class BatchWriter {
    const db: Database
    const cap: nat
    const flushSize: nat
    var ch: seq<Entry>
    var batch: seq<Entry>
    var stopped: bool
    var pc: Pc   // where the worker goroutine stands

    constructor (log: SqliteLog, cap: nat, flushSize: nat)
      requires cap >= 1 && flushSize >= 1
      ensures db == log.db
      ensures Abs() == Fresh(log.db.rows, cap, flushSize).(open := log.db.open)
    {
      db, this.cap, this.flushSize := log.db, cap, flushSize;
      ch, batch, stopped, pc := [], [], false, Selecting;
    }

    ghost function Abs(): Queue
      reads this, db
    {
      Queue(db.rows, db.open, ch, batch, pc, stopped, cap, flushSize)
    }

    /** The worker's loop, with the calls of Send and Stop that happen between its turns. */
    method Run(schedule: seq<Choice>)
      modifies this`ch, this`batch, this`stopped, this`pc, db`rows
      ensures Abs() == PlayAll(old(Abs()), schedule)
    {
      var i := 0;
      ghost var q0 := Abs();
      while i < |schedule|
        invariant i <= |schedule| && Abs() == PlayAll(q0, schedule[..i])
      {
        assert schedule[..i + 1][..i] == schedule[..i];
        match schedule[i] {
          case Arrives(e, fault) =>
            Send(e, fault);
          case OnReceive(fault) =>
            if pc == Selecting && ch != [] { SelectReceive(fault); }
          case OnTick(fault) =>
            if pc == Selecting { SelectTick(fault); }
          case OnStop(fault) =>
            if pc == Selecting && stopped { SelectStop(fault); }
          case Signal =>
            if !stopped { Stop(); }
        }
        i := i + 1;
      }
      assert schedule[..i] == schedule;
    }

    /** With a free slot the entry is queued. If the channel is still full after 100 ms it is inserted
        synchronously, ahead of everything queued; a slot that frees up in time is a worker step
        before the call. */
    method Send(e: Entry, fault: Fault)
      modifies this`ch, db`rows
      ensures Abs() == Play(old(Abs()), Arrives(e, fault))
      ensures old(|ch|) < cap ==> ch == old(ch) + [e] && db.rows == old(db.rows)
      ensures old(|ch|) >= cap ==> ch == old(ch) && db.rows == Stored(old(db.rows), [e], db.open, fault)
    {
      if |ch| < cap {
        ch := ch + [e];
      } else {
        var _ := InsertOne(e, fault);
        InsertAllOne(old(db.rows), e);
      }
    }

    method Stop()
      requires !stopped
      modifies this`stopped
      ensures Abs() == Play(old(Abs()), Signal) && stopped
    {
      stopped := true;
    }

    /** The receive arm. */
    method SelectReceive(fault: Fault)
      requires pc == Selecting && ch != []
      modifies this`ch, this`batch, this`pc, db`rows
      ensures Abs() == Play(old(Abs()), OnReceive(fault))
      ensures ch == old(ch[1..]) && pc == Selecting
      ensures if old(|batch|) + 1 < flushSize then batch == old(batch + [ch[0]]) && db.rows == old(db.rows)
              else batch == [] && db.rows == Stored(old(db.rows), old(batch + [ch[0]]), db.open, fault)
    {
      var e := ch[0];
      ch := ch[1..];
      batch := batch + [e];
      if |batch| >= flushSize {
        pc := Flushing;
        Flush(fault);
      }
    }

    /** The ticker arm. */
    method SelectTick(fault: Fault)
      requires pc == Selecting
      modifies this`batch, this`pc, db`rows
      ensures Abs() == Play(old(Abs()), OnTick(fault))
      ensures batch == [] && pc == Selecting && db.rows == Stored(old(db.rows), old(batch), db.open, fault)
    {
      pc := Flushing;
      Flush(fault);
    }

    /** The stop arm: drain the channel, flush once, return. */
    method SelectStop(fault: Fault)
      requires pc == Selecting && stopped
      modifies this`ch, this`batch, this`pc, db`rows
      ensures Abs() == Play(old(Abs()), OnStop(fault))
      ensures ch == [] && batch == [] && pc == Exited
      ensures db.rows == Stored(old(db.rows), old(batch + ch), db.open, fault)
    {
      pc := Draining;
      while ch != []
        invariant Abs() == old(Abs()).(pc := Draining, ch := ch, batch := batch)
        invariant batch + ch == old(batch + ch)
        decreases |ch|
      {
        batch := batch + [ch[0]];
        ch := ch[1..];
      }
      assert batch == old(batch + ch);
      pc := FinalFlush;
      Flush(fault);
    }

    method Flush(fault: Fault)
      requires pc == Flushing || pc == FinalFlush
      modifies this`batch, this`pc, db`rows
      ensures Abs() == Next(old(Abs()), WriteQueue.Event.Flush(FlushOk(old(Abs()), fault)))
      ensures batch == [] && pc == if old(pc) == FinalFlush then Exited else Selecting
      ensures db.rows == Stored(old(db.rows), old(batch), db.open, fault)
    {
      if batch != [] {
        var _ := InsertBatch(batch, fault);
        batch := [];
      } else {
        assert InsertAll(db.rows, []) == db.rows;
      }
      pc := if pc == FinalFlush then Exited else Selecting;
    }

    /** All rows in one transaction, or none. */
    method InsertBatch(rows: seq<Entry>, fault: Fault) returns (ok: bool)
      modifies db`rows
      ensures ok <==> db.open && (fault == None || (fault.AtRow? && fault.row >= |rows|))
      ensures db.rows == if ok then InsertAll(old(db.rows), rows) else old(db.rows)
    {
      if !db.open || fault == Begin {
        return false;
      }
      var tx := db.rows;
      var i := 0;
      assert rows[..0] == [];
      while i < |rows|
        invariant i <= |rows|
        invariant tx == InsertAll(db.rows, rows[..i])
        invariant fault.AtRow? ==> i <= fault.row
      {
        if fault == AtRow(i) {
          return false;
        }
        tx := Insert(tx, rows[i]);
        assert rows[..i + 1][..i] == rows[..i];
        i := i + 1;
      }
      assert rows[..i] == rows;
      ok := fault != Commit;
      if ok { db.rows := tx; }
    }

    method InsertOne(e: Entry, fault: Fault) returns (ok: bool)
      modifies db`rows
      ensures ok <==> db.open && (fault == None || (fault.AtRow? && fault.row >= 1))
      ensures db.rows == if ok then Insert(old(db.rows), e) else old(db.rows)
    {
      ok := db.open && !Strikes(fault, 1);
      if ok { db.rows := Insert(db.rows, e); }
    }
  }

  // ---------------------------------------------------------------- what became of the entries

  /** The books of a schedule, read off its choices. */
  datatype Account = Account(
    sent: seq<Entry>,      // passed to Send
    fast: seq<Entry>,      // those that found a free slot
    written: seq<Entry>,   // covered by a statement or transaction that succeeded
    lost: seq<Entry>)      // covered by one that failed

  /** The entries that the choice tries to write. */
  function Attempted(q: Queue, c: Choice): seq<Entry>
    requires Ready(q, c)
  {
    match c
    case Arrives(e, _) => if |q.ch| < q.cap then [] else [e]
    case OnReceive(_) => if |q.batch| + 1 >= q.flushSize then q.batch + [q.ch[0]] else []
    case OnTick(_) => q.batch
    case OnStop(_) => q.batch + q.ch
    case Signal => []
  }

  function Entered(a: Account, q: Queue, c: Choice): Account
    requires Ready(q, c)
  {
    var tried := Attempted(q, c);
    var ok := c.Signal? || (q.open && !Strikes(c.fault, |tried|));
    Account(
      if c.Arrives? then a.sent + [c.e] else a.sent,
      if c.Arrives? && |q.ch| < q.cap then a.fast + [c.e] else a.fast,
      if ok then a.written + tried else a.written,
      if ok then a.lost else a.lost + tried)
  }

  function AccountOf(q: Queue, cs: seq<Choice>): Account
    decreases |cs|
  {
    if cs == [] then Account([], [], [], [])
    else
      var front, c := cs[..|cs| - 1], cs[|cs| - 1];
      if Ready(PlayAll(q, front), c) then Entered(AccountOf(q, front), PlayAll(q, front), c) else AccountOf(q, front)
  }

  ghost predicate Agrees(h: History, a: Account) {
    h.sent == a.sent && h.fast == a.fast && h.offered == a.written && h.dropped == a.lost
  }

  // ---------------------------------------------------------------- the arms are runs

  /** `n` receives of the drain loop, one step each. */
  function Receives(n: nat): seq<Event> {
    if n == 0 then [] else Receives(n - 1) + [DrainReceive]
  }

  /** The steps of the state machine that one choice stands for. */
  function EventsOf(q: Queue, c: Choice): seq<Event>
    requires Ready(q, c)
  {
    match c
    case Arrives(e, fault) => [SendOf(q, e, fault)]
    case OnReceive(fault) =>
      var q1 := Next(q, Receive);
      if q1.pc == Flushing then [Receive] + [Flush(FlushOk(q1, fault))] else [Receive]
    case OnTick(fault) => [Tick] + [Flush(FlushOk(q, fault))]
    case OnStop(fault) => [BeginDrain] + (Receives(|q.ch|) + ([DrainEmpty] + [Flush(FlushOk(Drained(q), fault))]))
    case Signal => [Stop]
  }

  lemma Assoc<T>(a: seq<T>, b: seq<T>, c: seq<T>)
    ensures a + b + c == a + (b + c)
  {
  }

  lemma DrainStep(q: Queue, n: nat)
    requires q.pc == Draining && 0 < n <= |q.ch|
    ensures var q1 := q.(ch := q.ch[n - 1..], batch := q.batch + q.ch[..n - 1]);
            Enabled(q1, DrainReceive) && Next(q1, DrainReceive) == q.(ch := q.ch[n..], batch := q.batch + q.ch[..n])
  {
    assert q.ch[n - 1..][1..] == q.ch[n..];
    assert q.batch + q.ch[..n - 1] + [q.ch[n - 1]] == q.batch + q.ch[..n];
  }

  /** What the worker does in one go after the stop signal, the state machine does in |ch| steps. */
  lemma {:induction false} DrainIsARun(q0: Queue, evs: seq<Event>, q: Queue, h: History, n: nat)
    requires Legal(q0, evs) && Run(q0, NOTHING, evs) == (q, h)
    requires q.pc == Draining && n <= |q.ch|
    ensures Legal(q0, evs + Receives(n))
    ensures Run(q0, NOTHING, evs + Receives(n)) == (q.(ch := q.ch[n..], batch := q.batch + q.ch[..n]), h)
  {
    if n == 0 {
      assert evs + Receives(0) == evs;
      assert q.ch[0..] == q.ch && q.batch + q.ch[..0] == q.batch;
    } else {
      DrainIsARun(q0, evs, q, h, n - 1);
      DrainStep(q, n);
      var q1 := q.(ch := q.ch[n - 1..], batch := q.batch + q.ch[..n - 1]);
      var _, _, evs2 := Then(q0, q1, h, evs + Receives(n - 1), DrainReceive);
      Assoc(evs, Receives(n - 1), [DrainReceive]);
    }
  }

  lemma StopIsARun(q0: Queue, evs: seq<Event>, q: Queue, h: History, fault: Fault)
    requires Legal(q0, evs) && Run(q0, NOTHING, evs) == (q, h) && Ready(q, OnStop(fault))
    ensures Legal(q0, evs + EventsOf(q, OnStop(fault)))
    ensures Run(q0, NOTHING, evs + EventsOf(q, OnStop(fault))) ==
            (Play(q, OnStop(fault)), Record(Drained(q).(pc := FinalFlush), h, Flush(FlushOk(Drained(q), fault))))
  {
    var q1, h1, e1 := Then(q0, q, h, evs, BeginDrain);
    DrainIsARun(q0, e1, q1, h1, |q.ch|);
    var q2 := Drained(q);
    assert q1.ch[|q.ch|..] == [] && q1.ch[..|q.ch|] == q.ch;
    var q3, h3, e3 := Then(q0, q2, h1, e1 + Receives(|q.ch|), DrainEmpty);
    var ok := FlushOk(q2, fault);
    var q4, h4, e4 := Then(q0, q3, h3, e3, Flush(ok));
    Assoc(e1 + Receives(|q.ch|), [DrainEmpty], [Flush(ok)]);
    Assoc(e1, Receives(|q.ch|), [DrainEmpty] + [Flush(ok)]);
    Assoc(evs, [BeginDrain], Receives(|q.ch|) + ([DrainEmpty] + [Flush(ok)]));
  }

  /** A step that is followed by a flush. */
  lemma StepAndFlush(q0: Queue, evs: seq<Event>, q: Queue, h: History, ev: Event, ok: bool)
    requires Legal(q0, evs) && Run(q0, NOTHING, evs) == (q, h) && Enabled(q, ev) && Enabled(Next(q, ev), Flush(ok))
    ensures Legal(q0, evs + ([ev] + [Flush(ok)]))
    ensures Run(q0, NOTHING, evs + ([ev] + [Flush(ok)])) ==
            (Next(Next(q, ev), Flush(ok)), Record(Next(q, ev), Record(q, h, ev), Flush(ok)))
  {
    var q1, h1, e1 := Then(q0, q, h, evs, ev);
    var _, _, e2 := Then(q0, q1, h1, e1, Flush(ok));
    Assoc(evs, [ev], [Flush(ok)]);
  }

  /** A flush enters its batch into the books. */
  lemma FlushAgrees(q: Queue, h: History, a: Account, ok: bool)
    requires Agrees(h, a) && (q.batch == [] ==> ok)
    ensures Agrees(Record(q, h, Flush(ok)),
                   if ok then a.(written := a.written + q.batch) else a.(lost := a.lost + q.batch))
  {
    if q.batch == [] { assert a.written + [] == a.written; }
  }

  /** `evs` is a run from `q0` to `q`, with the books `a`. */
  ghost predicate Reaches(q0: Queue, evs: seq<Event>, q: Queue, a: Account) {
    Legal(q0, evs) && Run(q0, NOTHING, evs).0 == q && Agrees(Run(q0, NOTHING, evs).1, a)
  }

  lemma ReceiveIsARun(q0: Queue, evs: seq<Event>, q: Queue, a: Account, fault: Fault)
    requires Reaches(q0, evs, q, a) && Ready(q, OnReceive(fault))
    ensures Reaches(q0, evs + EventsOf(q, OnReceive(fault)), Play(q, OnReceive(fault)), Entered(a, q, OnReceive(fault)))
  {
    var q1, h := Next(q, Receive), Run(q0, NOTHING, evs).1;
    if q1.pc == Flushing {
      StepAndFlush(q0, evs, q, h, Receive, FlushOk(q1, fault));
      FlushAgrees(q1, h, a, FlushOk(q1, fault));
    } else {
      var _, _, _ := Then(q0, q, h, evs, Receive);
      NothingTried(a, q, OnReceive(fault));
    }
  }

  lemma TickIsARun(q0: Queue, evs: seq<Event>, q: Queue, a: Account, fault: Fault)
    requires Reaches(q0, evs, q, a) && Ready(q, OnTick(fault))
    ensures Reaches(q0, evs + EventsOf(q, OnTick(fault)), Play(q, OnTick(fault)), Entered(a, q, OnTick(fault)))
  {
    var h := Run(q0, NOTHING, evs).1;
    StepAndFlush(q0, evs, q, h, Tick, FlushOk(q, fault));
    FlushAgrees(Next(q, Tick), h, a, FlushOk(q, fault));
    NothingTried(a, q, OnTick(fault));
  }

  lemma StopHasItsBooks(q0: Queue, evs: seq<Event>, q: Queue, a: Account, fault: Fault)
    requires Reaches(q0, evs, q, a) && Ready(q, OnStop(fault))
    ensures Reaches(q0, evs + EventsOf(q, OnStop(fault)), Play(q, OnStop(fault)), Entered(a, q, OnStop(fault)))
  {
    var h := Run(q0, NOTHING, evs).1;
    StopIsARun(q0, evs, q, h, fault);
    FlushAgrees(Drained(q).(pc := FinalFlush), h, a, FlushOk(Drained(q), fault));
    NothingTried(a, q, OnStop(fault));
  }

  lemma CallIsARun(q0: Queue, evs: seq<Event>, q: Queue, a: Account, c: Choice)
    requires Reaches(q0, evs, q, a) && Ready(q, c) && (c.Arrives? || c.Signal?)
    ensures Reaches(q0, evs + EventsOf(q, c), Play(q, c), Entered(a, q, c))
  {
    var _, _, _ := Then(q0, q, Run(q0, NOTHING, evs).1, evs, EventsOf(q, c)[0]);
    NothingTried(a, q, c);
  }

  /** Every choice is a run of the state machine, with the same books. */
  lemma ChoiceIsARun(q0: Queue, evs: seq<Event>, q: Queue, a: Account, c: Choice)
    requires Reaches(q0, evs, q, a) && Ready(q, c)
    ensures Reaches(q0, evs + EventsOf(q, c), Play(q, c), Entered(a, q, c))
  {
    match c
    case OnReceive(fault) => ReceiveIsARun(q0, evs, q, a, fault);
    case OnTick(fault) => TickIsARun(q0, evs, q, a, fault);
    case OnStop(fault) => StopHasItsBooks(q0, evs, q, a, fault);
    case _ => CallIsARun(q0, evs, q, a, c);
  }

  lemma NothingTried(a: Account, q: Queue, c: Choice)
    requires Ready(q, c)
    ensures Attempted(q, c) == [] ==>
              Entered(a, q, c).written == a.written && Entered(a, q, c).lost == a.lost
  {
  }

  /** The program refines the state machine: whatever the scheduler chooses, some run of single steps
      reaches the writer's state and has the schedule's books, so that every theorem about runs and
      their histories is one about the program. */
  lemma {:induction false} ProgramRefinesMachine(q0: Queue, cs: seq<Choice>) returns (evs: seq<Event>)
    ensures Reaches(q0, evs, PlayAll(q0, cs), AccountOf(q0, cs))
    decreases |cs|
  {
    if cs == [] {
      evs := [];
    } else {
      var front, c := cs[..|cs| - 1], cs[|cs| - 1];
      evs := ProgramRefinesMachine(q0, front);
      if Ready(PlayAll(q0, front), c) {
        ChoiceIsARun(q0, evs, PlayAll(q0, front), AccountOf(q0, front), c);
        evs := evs + EventsOf(PlayAll(q0, front), c);
      }
    }
  }

  /** What the books say of a queue: of the entries the callers sent, each is queued, batched, written
      or lost; batch and channel are the end of what went through the channel; the table is what was
      written, on top of what was there. */
  ghost predicate Balanced(q: Queue, a: Account, t0: Table) {
    && multiset(a.sent) == multiset(q.ch) + multiset(q.batch) + multiset(a.written) + multiset(a.lost)
    && (exists before :: a.fast == before + (q.batch + q.ch))
    && q.table == InsertAll(t0, a.written)
    && |q.ch| <= q.cap && (q.pc == Selecting ==> |q.batch| < q.flushSize)
  }

  lemma BooksBalance(q: Queue, h: History, a: Account, t0: Table)
    requires Agrees(h, a) && Inv(q, h, t0)
    ensures Balanced(q, a, t0)
  {
    Assoc(Flatten(h.txs), q.batch, q.ch);
    assert a.fast == Flatten(h.txs) + (q.batch + q.ch);
  }

  /** Conservation, FIFO order and sizes in every state of the program. */
  lemma {:induction false} ProgramKeepsInvariant(t0: Table, cap: nat, flushSize: nat, cs: seq<Choice>)
    requires cap >= 1 && flushSize >= 1
    ensures Balanced(PlayAll(Fresh(t0, cap, flushSize), cs), AccountOf(Fresh(t0, cap, flushSize), cs), t0)
    ensures PlayAll(Fresh(t0, cap, flushSize), cs).cap == cap
    ensures PlayAll(Fresh(t0, cap, flushSize), cs).flushSize == flushSize
    ensures exists h :: Agrees(h, AccountOf(Fresh(t0, cap, flushSize), cs)) &&
                        Inv(PlayAll(Fresh(t0, cap, flushSize), cs), h, t0)
  {
    var q0 := Fresh(t0, cap, flushSize);
    var evs := ProgramRefinesMachine(q0, cs);
    WriteQueueTheorems.Reachable(t0, cap, flushSize, evs);
    WriteQueueTheorems.SizesKept(q0, evs);
    BooksBalance(Run(q0, NOTHING, evs).0, Run(q0, NOTHING, evs).1, AccountOf(q0, cs), t0);
  }

  /** An entry sent once has no row exactly while it is queued or batched, or for good once a failed
      insert lost it. */
  lemma {:induction false} ProgramRowMissingIff(t0: Table, cap: nat, flushSize: nat, cs: seq<Choice>, e: Entry)
    requires cap >= 1 && flushSize >= 1
    requires DistinctIndices(AccountOf(Fresh(t0, cap, flushSize), cs).sent)
    requires e in AccountOf(Fresh(t0, cap, flushSize), cs).sent && e.index !in t0
    ensures var q, a := PlayAll(Fresh(t0, cap, flushSize), cs), AccountOf(Fresh(t0, cap, flushSize), cs);
            e.index !in q.table <==> e in q.ch || e in q.batch || e in a.lost
  {
    var evs := ProgramRefinesMachine(Fresh(t0, cap, flushSize), cs);
    WriteQueueTheorems.RowMissingIff(t0, cap, flushSize, evs, e);
  }

  /** Drained without a loss, the program leaves the table of one in-order append per entry sent. */
  lemma {:induction false} ProgramOvertakingIsHarmless(t0: Table, cap: nat, flushSize: nat, cs: seq<Choice>)
    requires cap >= 1 && flushSize >= 1
    requires DistinctIndices(AccountOf(Fresh(t0, cap, flushSize), cs).sent)
    requires AccountOf(Fresh(t0, cap, flushSize), cs).lost == []
    requires PlayAll(Fresh(t0, cap, flushSize), cs).ch == [] && PlayAll(Fresh(t0, cap, flushSize), cs).batch == []
    ensures PlayAll(Fresh(t0, cap, flushSize), cs).table == InsertAll(t0, AccountOf(Fresh(t0, cap, flushSize), cs).sent)
  {
    var evs := ProgramRefinesMachine(Fresh(t0, cap, flushSize), cs);
    WriteQueueTheorems.OvertakingIsHarmless(t0, cap, flushSize, evs);
  }

  // ---------------------------------------------------------------- what the program gets done

  /** The entries that the callers pass to Send, in order. */
  function Arrivals(cs: seq<Choice>): seq<Entry> {
    if cs == [] then []
    else Arrivals(cs[..|cs| - 1]) + if cs[|cs| - 1].Arrives? then [cs[|cs| - 1].e] else []
  }

  /** Every call of Send counts, whatever the state. */
  lemma {:induction false} SentIsArrivals(q: Queue, cs: seq<Choice>)
    ensures AccountOf(q, cs).sent == Arrivals(cs)
    decreases |cs|
  {
    if cs != [] { SentIsArrivals(q, cs[..|cs| - 1]); }
  }

  lemma StoppedByTurn(q: Queue, c: Choice)
    requires Ready(q, c)
    ensures Play(q, c).stopped <==> q.stopped || c == Signal
  {
  }

  lemma SignalAmong(cs: seq<Choice>, c: Choice)
    ensures Signal in cs + [c] <==> Signal in cs || c == Signal
  {
  }

  /** The writer is stopped exactly after a stop signal, and for good. */
  lemma {:induction false} StoppedIff(q: Queue, cs: seq<Choice>)
    ensures PlayAll(q, cs).stopped <==> q.stopped || Signal in cs
    decreases |cs|
  {
    if cs != [] {
      var front, c := cs[..|cs| - 1], cs[|cs| - 1];
      StoppedIff(q, front);
      SignalAmong(front, c);
      assert cs == front + [c];
      if Ready(PlayAll(q, front), c) { StoppedByTurn(PlayAll(q, front), c); }
    }
  }

  lemma OneMoreTurn(q: Queue, cs: seq<Choice>, c: Choice)
    ensures PlayAll(q, cs + [c]) == if Ready(PlayAll(q, cs), c) then Play(PlayAll(q, cs), c) else PlayAll(q, cs)
    ensures Arrivals(cs + [c]) == Arrivals(cs) + if c.Arrives? then [c.e] else []
  {
    assert (cs + [c])[..|cs|] == cs;
  }

  /** A stop signal to a worker that is at its select, and the stop arm: the worker has exited with
      nothing queued or batched, whatever the final transaction did. */
  lemma {:induction false} StopEndsWorker(q0: Queue, cs: seq<Choice>, fault: Fault)
    requires PlayAll(q0, cs).pc == Selecting
    ensures var q := PlayAll(q0, cs + [Signal] + [OnStop(fault)]);
            q.stopped && q.pc == Exited && q.ch == [] && q.batch == []
    ensures Arrivals(cs + [Signal] + [OnStop(fault)]) == Arrivals(cs)
  {
    OneMoreTurn(q0, cs, Signal);
    OneMoreTurn(q0, cs + [Signal], OnStop(fault));
    StoppedIff(q0, cs + [Signal]);
    assert (cs + [Signal])[|cs|] == Signal;
  }

  /** Whenever the worker has exited there was a stop signal, nothing is batched, and everything sent
      was written if and only if nothing failed and nothing was queued too late. */
  lemma {:induction false} ProgramExitIff(t0: Table, cap: nat, flushSize: nat, cs: seq<Choice>)
    requires cap >= 1 && flushSize >= 1 && PlayAll(Fresh(t0, cap, flushSize), cs).pc == Exited
    ensures var q, a := PlayAll(Fresh(t0, cap, flushSize), cs), AccountOf(Fresh(t0, cap, flushSize), cs);
            && Signal in cs && q.batch == []
            && (multiset(Arrivals(cs)) == multiset(a.written) <==> q.ch == [] && a.lost == [])
  {
    var q0 := Fresh(t0, cap, flushSize);
    var q, a := PlayAll(q0, cs), AccountOf(q0, cs);
    ProgramKeepsInvariant(t0, cap, flushSize, cs);
    SentIsArrivals(q0, cs);
    StoppedIff(q0, cs);
    var h :| Agrees(h, a) && Inv(q, h, t0);
    assert |multiset(a.sent)| == |q.ch| + |q.batch| + |multiset(a.written)| + |a.lost|;
  }

  /** So the shutdown that the comments promise: signal, drain, exit, and unless an insert failed every
      entry ever sent has a row. */
  lemma {:induction false} ProgramStopWritesAll(t0: Table, cap: nat, flushSize: nat, cs: seq<Choice>, fault: Fault)
    requires cap >= 1 && flushSize >= 1 && PlayAll(Fresh(t0, cap, flushSize), cs).pc == Selecting
    ensures var all := cs + [Signal] + [OnStop(fault)];
            var q, a := PlayAll(Fresh(t0, cap, flushSize), all), AccountOf(Fresh(t0, cap, flushSize), all);
            && q.pc == Exited && q.ch == [] && q.batch == []
            && (a.lost == [] ==> forall e :: e in Arrivals(cs) ==> e.index in q.table)
  {
    var q0, all := Fresh(t0, cap, flushSize), cs + [Signal] + [OnStop(fault)];
    StopEndsWorker(q0, cs, fault);
    ProgramExitIff(t0, cap, flushSize, all);
    ProgramKeepsInvariant(t0, cap, flushSize, all);
    var a := AccountOf(q0, all);
    InsertAllRows(t0, a.written);
    if a.lost == [] { SameElements(Arrivals(cs), a.written); }
  }

  /** `n` turns of the receive arm. */
  function Receiving(n: nat): seq<Choice> {
    if n == 0 then [] else Receiving(n - 1) + [OnReceive(None)]
  }

  /** `q'` is `q` after the receive of `n` of the entries queued there. */
  ghost predicate HasReceived(q: Queue, q': Queue, n: nat)
    requires n <= |q.ch|
  {
    && q'.pc == Selecting && q'.open && q'.ch == q.ch[n..]
    && InsertAll(q'.table, q'.batch) == InsertAll(q.table, q.batch + q.ch[..n])
  }

  lemma NothingReceived(q: Queue)
    requires q.pc == Selecting && q.open
    ensures HasReceived(q, q, 0)
  {
    assert q.batch + q.ch[..0] == q.batch;
  }

  /** `q1` has received `n` - 1 of the entries queued at `q`, and receives the next. */
  lemma OneMoreReceived(q: Queue, q1: Queue, n: nat)
    requires 0 < n <= |q.ch| && HasReceived(q, q1, n - 1)
    ensures Ready(q1, OnReceive(None)) && HasReceived(q, Play(q1, OnReceive(None)), n)
  {
    assert q1.ch[0] == q.ch[n - 1] && q1.ch[1..] == q.ch[n..];
    ReceiveKeepsRows(q1, q.ch[n - 1]);
    OneMoreRow(q1.table, q1.batch, q.table, q.batch + q.ch[..n - 1], q.ch[n - 1]);
    assert q.batch + q.ch[..n] == q.batch + q.ch[..n - 1] + [q.ch[n - 1]];
  }

  lemma {:induction false} ReceivesDrain(q: Queue, n: nat)
    requires q.pc == Selecting && q.open && n <= |q.ch|
    ensures HasReceived(q, PlayAll(q, Receiving(n)), n)
  {
    if n == 0 {
      NothingReceived(q);
    } else {
      ReceivesDrain(q, n - 1);
      OneMoreTurn(q, Receiving(n - 1), OnReceive(None));
      OneMoreReceived(q, PlayAll(q, Receiving(n - 1)), n);
    }
  }

  lemma OneMoreRow(t: Table, a: seq<Entry>, u: Table, b: seq<Entry>, e: Entry)
    requires InsertAll(t, a) == InsertAll(u, b)
    ensures InsertAll(t, a + [e]) == InsertAll(u, b + [e])
  {
    InsertAllConcat(t, a, [e]);
    InsertAllConcat(u, b, [e]);
  }

  lemma ReceiveKeepsRows(q: Queue, e: Entry)
    requires q.pc == Selecting && q.open && q.ch != [] && e == q.ch[0]
    ensures var q' := Play(q, OnReceive(None));
            && q'.pc == Selecting && q'.open && q'.ch == q.ch[1..]
            && InsertAll(q'.table, q'.batch) == InsertAll(q.table, q.batch + [e])
  {
  }

  /** A writer that is given its turns drains: one receive per queued entry and a tick later, everything
      that was queued or batched is in the table, in the order in which it was sent. */
  lemma {:induction false} TurnsDrain(q: Queue)
    requires q.pc == Selecting && q.open
    ensures PlayAll(q, Receiving(|q.ch|) + [OnTick(None)]) ==
            q.(ch := [], batch := [], table := InsertAll(q.table, q.batch + q.ch))
  {
    ReceivesDrain(q, |q.ch|);
    OneMoreTurn(q, Receiving(|q.ch|), OnTick(None));
    assert q.ch[..|q.ch|] == q.ch;
    TurnsKeepSettings(q, Receiving(|q.ch|) + [OnTick(None)]);
    StoppedIff(q, Receiving(|q.ch|) + [OnTick(None)]);
    OnlyReceives(|q.ch|);
  }

  lemma {:induction false} OnlyReceives(n: nat)
    ensures forall c :: c in Receiving(n) ==> c == OnReceive(None)
  {
    if n != 0 { OnlyReceives(n - 1); }
  }

  lemma TurnKeepsSettings(q: Queue, c: Choice)
    requires Ready(q, c)
    ensures var q' := Play(q, c); q'.open == q.open && q'.cap == q.cap && q'.flushSize == q.flushSize
  {
  }

  lemma {:induction false} TurnsKeepSettings(q: Queue, cs: seq<Choice>)
    ensures var q' := PlayAll(q, cs); q'.open == q.open && q'.cap == q.cap && q'.flushSize == q.flushSize
    decreases |cs|
  {
    if cs != [] {
      var q1, c := PlayAll(q, cs[..|cs| - 1]), cs[|cs| - 1];
      TurnsKeepSettings(q, cs[..|cs| - 1]);
      if Ready(q1, c) { TurnKeepsSettings(q1, c); }
    }
  }
}
