/** What holds over every run of the batch writer. */
module WriteQueueTheorems {
  import opened Types
  import opened Rows
  import opened WriteQueue

  /** Nothing sent, nothing queued, the table as the previous process left it. */
  ghost predicate LegalFrom(t0: Table, cap: nat, flushSize: nat, evs: seq<Event>) {
    cap >= 1 && flushSize >= 1 && Legal(Fresh(t0, cap, flushSize), evs)
  }

  ghost function State(t0: Table, cap: nat, flushSize: nat, evs: seq<Event>): Queue {
    Run(Fresh(t0, cap, flushSize), NOTHING, evs).0
  }

  ghost function Past(t0: Table, cap: nat, flushSize: nat, evs: seq<Event>): History {
    Run(Fresh(t0, cap, flushSize), NOTHING, evs).1
  }

  /** Conservation, FIFO order and batch bounds hold in every reachable state, whatever is sent
      after the stop signal and whatever fails. */
  lemma {:induction false} Reachable(t0: Table, cap: nat, flushSize: nat, evs: seq<Event>)
    requires LegalFrom(t0, cap, flushSize, evs)
    ensures Inv(State(t0, cap, flushSize, evs), Past(t0, cap, flushSize, evs), t0)
    decreases |evs|
  {
    if evs == [] {
      assert InsertAll(t0, []) == t0;
    } else {
      var front := evs[..|evs| - 1];
      Reachable(t0, cap, flushSize, front);
      InvStep(State(t0, cap, flushSize, front), Past(t0, cap, flushSize, front), t0, evs[|evs| - 1]);
    }
  }

  /** The queue's sizes are fixed at start-up. */
  lemma {:induction false} SizesKept(q0: Queue, evs: seq<Event>)
    ensures var q := Run(q0, NOTHING, evs).0; q.cap == q0.cap && q.flushSize == q0.flushSize
    decreases |evs|
  {
    if evs != [] { SizesKept(q0, evs[..|evs| - 1]); }
  }

  // ---------------------------------------------------------------- overtaking

  /** Once everything sent has reached the table, the table and its ordered fold are those of one
      in-order append per entry: fallbacks that jump the queue and batch boundaries leave no trace. */
  lemma {:induction false} OvertakingIsHarmless(t0: Table, cap: nat, flushSize: nat, evs: seq<Event>)
    requires LegalFrom(t0, cap, flushSize, evs)
    requires DistinctIndices(Past(t0, cap, flushSize, evs).sent)
    requires State(t0, cap, flushSize, evs).ch == [] && State(t0, cap, flushSize, evs).batch == []
    requires Past(t0, cap, flushSize, evs).dropped == []
    ensures State(t0, cap, flushSize, evs).table == InsertAll(t0, Past(t0, cap, flushSize, evs).sent)
  {
    Reachable(t0, cap, flushSize, evs);
    var h := Past(t0, cap, flushSize, evs);
    InsertAllPermuted(t0, h.sent, h.offered);
  }

  /** Where an entry is: with distinct indices, its row is missing exactly while it is queued or
      batched, or for good once its insert failed. */
  lemma {:induction false} RowMissingIff(t0: Table, cap: nat, flushSize: nat, evs: seq<Event>, e: Entry)
    requires LegalFrom(t0, cap, flushSize, evs)
    requires DistinctIndices(Past(t0, cap, flushSize, evs).sent)
    requires e in Past(t0, cap, flushSize, evs).sent && e.index !in t0
    ensures var q, h := State(t0, cap, flushSize, evs), Past(t0, cap, flushSize, evs);
            e.index !in q.table <==> e in q.ch || e in q.batch || e in h.dropped
  {
    Reachable(t0, cap, flushSize, evs);
    var q, h := State(t0, cap, flushSize, evs), Past(t0, cap, flushSize, evs);
    InsertAllRows(t0, h.offered);
    SentOnce(h.sent, e);
    assert multiset(h.sent)[e] == multiset(q.ch)[e] + multiset(q.batch)[e] + multiset(h.offered)[e] + multiset(h.dropped)[e];
    if e.index in q.table {
      var row := q.table[e.index];
      assert row in h.offered && row.index == e.index;
      assert row in multiset(h.sent);
      assert row in h.sent;
      SameIndexSameEntry(h.sent, e, row);
      assert e in multiset(h.offered);
    } else {
      assert e !in h.offered;
      assert multiset(h.offered)[e] == 0;
    }
  }

  lemma {:induction false} SentOnce(es: seq<Entry>, e: Entry)
    requires DistinctIndices(es) && e in es
    ensures multiset(es)[e] == 1
    decreases |es|
  {
    var front, last := es[..|es| - 1], es[|es| - 1];
    assert es == front + [last];
    if last == e {
      assert e !in front;
      assert multiset(front)[e] == 0;
    } else {
      SentOnce(front, e);
    }
  }

  // ---------------------------------------------------------------- a prefix of what was sent

  ghost predicate NoFallback(evs: seq<Event>) {
    forall i :: 0 <= i < |evs| ==> !evs[i].SendSlow?
  }

  ghost predicate NoFailure(evs: seq<Event>) {
    forall i :: 0 <= i < |evs| ==> evs[i] != Flush(false) && !(evs[i].SendSlow? && !evs[i].ok)
  }

  lemma {:induction false} HistoryWithoutTrouble(t0: Table, cap: nat, flushSize: nat, evs: seq<Event>)
    requires LegalFrom(t0, cap, flushSize, evs)
    ensures NoFailure(evs) ==> Past(t0, cap, flushSize, evs).dropped == []
    ensures NoFallback(evs) ==> Past(t0, cap, flushSize, evs).sent == Past(t0, cap, flushSize, evs).fast
    ensures NoFallback(evs) && NoFailure(evs) ==>
              Past(t0, cap, flushSize, evs).offered == Flatten(Past(t0, cap, flushSize, evs).txs)
    decreases |evs|
  {
    if evs != [] {
      var front := evs[..|evs| - 1];
      HistoryWithoutTrouble(t0, cap, flushSize, front);
      assert forall i :: 0 <= i < |front| ==> front[i] == evs[i];
      FlattenSnoc(Past(t0, cap, flushSize, front).txs, State(t0, cap, flushSize, front).batch);
    }
  }

  /** With no fallback and no failure the durable table is always a prefix of what was sent. */
  lemma {:induction false} TableIsPrefixOfSent(t0: Table, cap: nat, flushSize: nat, evs: seq<Event>)
    requires LegalFrom(t0, cap, flushSize, evs) && NoFallback(evs) && NoFailure(evs)
    ensures var q, h := State(t0, cap, flushSize, evs), Past(t0, cap, flushSize, evs);
            var k := |Flatten(h.txs)|;
            && k <= |h.sent|
            && q.table == InsertAll(t0, h.sent[..k])
            && h.sent[k..] == q.batch + q.ch
  {
    Reachable(t0, cap, flushSize, evs);
    HistoryWithoutTrouble(t0, cap, flushSize, evs);
    var q, h := State(t0, cap, flushSize, evs), Past(t0, cap, flushSize, evs);
    assert h.sent == Flatten(h.txs) + (q.batch + q.ch);
  }

  // ---------------------------------------------------------------- stopping

  ghost predicate SentAfterStop(evs: seq<Event>) {
    exists i, j :: 0 <= i < j < |evs| && evs[i] == Stop && evs[j].SendFast?
  }

  lemma {:induction false} StoppedByEvent(t0: Table, cap: nat, flushSize: nat, evs: seq<Event>)
    requires LegalFrom(t0, cap, flushSize, evs)
    ensures State(t0, cap, flushSize, evs).stopped ==> Stop in evs
    decreases |evs|
  {
    if evs != [] {
      var front, last := evs[..|evs| - 1], evs[|evs| - 1];
      StoppedByEvent(t0, cap, flushSize, front);
      assert evs == front + [last];
      if last != Stop { OnlyStopStops(State(t0, cap, flushSize, front), last); }
    }
  }

  lemma OnlyStopStops(q: Queue, ev: Event)
    requires Enabled(q, ev) && ev != Stop
    ensures Next(q, ev).stopped == q.stopped
  {
  }

  /** Only a send after the stop signal can be left behind in the channel. */
  lemma {:induction false} LateByEvent(t0: Table, cap: nat, flushSize: nat, evs: seq<Event>)
    requires LegalFrom(t0, cap, flushSize, evs)
    ensures Past(t0, cap, flushSize, evs).late != [] ==> SentAfterStop(evs)
    decreases |evs|
  {
    if evs != [] {
      var front, last := evs[..|evs| - 1], evs[|evs| - 1];
      LateByEvent(t0, cap, flushSize, front);
      var h, h' := Past(t0, cap, flushSize, front), Past(t0, cap, flushSize, evs);
      if h.late != [] {
        var i, j :| 0 <= i < j < |front| && front[i] == Stop && front[j].SendFast?;
        assert evs[i] == Stop && evs[j].SendFast?;
      } else if h'.late != [] {
        LateStep(State(t0, cap, flushSize, front), h, last);
        Reachable(t0, cap, flushSize, front);
        StoppedByEvent(t0, cap, flushSize, front);
        var i :| 0 <= i < |front| && front[i] == Stop;
        assert evs[i] == Stop && evs[|evs| - 1].SendFast?;
      }
    }
  }

  lemma LateStep(q: Queue, h: History, ev: Event)
    requires Record(q, h, ev).late != h.late
    ensures ev.SendFast? && (q.pc == FinalFlush || q.pc == Exited)
  {
  }

  /** When the worker has exited, everything sent was written if and only if no insert failed and
      nothing was queued after the drain saw an empty channel. */
  lemma {:induction false} ExitCompleteIff(t0: Table, cap: nat, flushSize: nat, evs: seq<Event>)
    requires LegalFrom(t0, cap, flushSize, evs) && State(t0, cap, flushSize, evs).pc == Exited
    ensures var h := Past(t0, cap, flushSize, evs);
            multiset(h.sent) == multiset(h.offered) <==> h.late == [] && h.dropped == []
  {
    Reachable(t0, cap, flushSize, evs);
    var q, h := State(t0, cap, flushSize, evs), Past(t0, cap, flushSize, evs);
    assert |multiset(h.sent)| == |q.ch| + |q.batch| + |multiset(h.offered)| + |h.dropped|;
    assert |h.late| == |q.ch|;
  }

  /** A stop after which nothing is sent, and during which nothing fails, loses nothing. */
  lemma {:induction false} CleanStopWritesAll(t0: Table, cap: nat, flushSize: nat, evs: seq<Event>)
    requires LegalFrom(t0, cap, flushSize, evs) && State(t0, cap, flushSize, evs).pc == Exited
    requires !SentAfterStop(evs) && NoFailure(evs)
    ensures var q, h := State(t0, cap, flushSize, evs), Past(t0, cap, flushSize, evs);
            q.ch == [] && q.batch == [] && forall e :: e in h.sent ==> e.index in q.table
  {
    Reachable(t0, cap, flushSize, evs);
    LateByEvent(t0, cap, flushSize, evs);
    HistoryWithoutTrouble(t0, cap, flushSize, evs);
    ExitCompleteIff(t0, cap, flushSize, evs);
    var h := Past(t0, cap, flushSize, evs);
    SameElements(h.sent, h.offered);
    InsertAllRows(t0, h.offered);
  }

  // ---------------------------------------------------------------- closing the database

  ghost predicate NoSend(evs: seq<Event>) {
    forall i :: 0 <= i < |evs| ==> !evs[i].SendFast? && !evs[i].SendSlow?
  }

  /** After Close nothing is written any more. */
  lemma {:induction false} ClosedForGood(t0: Table, cap: nat, flushSize: nat, evs: seq<Event>, more: seq<Event>)
    requires LegalFrom(t0, cap, flushSize, evs + more) && NoSend(more)
    requires LegalFrom(t0, cap, flushSize, evs) && !State(t0, cap, flushSize, evs).open
    ensures !State(t0, cap, flushSize, evs + more).open
    ensures Past(t0, cap, flushSize, evs + more).offered == Past(t0, cap, flushSize, evs).offered
    ensures Past(t0, cap, flushSize, evs + more).sent == Past(t0, cap, flushSize, evs).sent
    decreases |more|
  {
    if more == [] {
      assert evs + more == evs;
    } else {
      var front, last := more[..|more| - 1], more[|more| - 1];
      assert (evs + more)[..|evs| + |front|] == evs + front;
      ClosedForGood(t0, cap, flushSize, evs, front);
      ClosedStep(State(t0, cap, flushSize, evs + front), Past(t0, cap, flushSize, evs + front), last);
    }
  }

  lemma ClosedStep(q: Queue, h: History, ev: Event)
    requires Enabled(q, ev) && !q.open && !ev.SendFast? && !ev.SendSlow?
    ensures !Next(q, ev).open && Record(q, h, ev).offered == h.offered && Record(q, h, ev).sent == h.sent
  {
  }

  lemma {:induction false} LegalPrefix(q: Queue, evs: seq<Event>, more: seq<Event>)
    requires Legal(q, evs + more)
    ensures Legal(q, evs)
    decreases |more|
  {
    if more == [] {
      assert evs + more == evs;
    } else {
      assert (evs + more)[..|evs + more| - 1] == evs + more[..|more| - 1];
      LegalPrefix(q, evs, more[..|more| - 1]);
    }
  }

  lemma CloseStep(t0: Table, cap: nat, flushSize: nat, evs: seq<Event>, more: seq<Event>)
    requires LegalFrom(t0, cap, flushSize, evs + [Close] + more)
    ensures LegalFrom(t0, cap, flushSize, evs) && LegalFrom(t0, cap, flushSize, evs + [Close])
    ensures !State(t0, cap, flushSize, evs + [Close]).open
    ensures Past(t0, cap, flushSize, evs + [Close]) == Past(t0, cap, flushSize, evs)
  {
    LegalPrefix(Fresh(t0, cap, flushSize), evs + [Close], more);
    assert (evs + [Close])[..|evs|] == evs;
  }

  /** Once the database is closed nothing more is written: everything sent reaches the table if and
      only if, at the moment of Close, the channel and the batch were empty and nothing had failed. */
  lemma {:induction false} CloseCompleteIff(t0: Table, cap: nat, flushSize: nat, evs: seq<Event>, more: seq<Event>)
    requires LegalFrom(t0, cap, flushSize, evs + [Close] + more) && NoSend(more)
    ensures var q, h := State(t0, cap, flushSize, evs), Past(t0, cap, flushSize, evs);
            var after := Past(t0, cap, flushSize, evs + [Close] + more);
            multiset(after.sent) == multiset(after.offered) <==> q.ch == [] && q.batch == [] && h.dropped == []
  {
    CloseStep(t0, cap, flushSize, evs, more);
    ClosedForGood(t0, cap, flushSize, evs + [Close], more);
    Reachable(t0, cap, flushSize, evs);
    var q, h := State(t0, cap, flushSize, evs), Past(t0, cap, flushSize, evs);
    assert |multiset(h.sent)| == |q.ch| + |q.batch| + |multiset(h.offered)| + |h.dropped|;
  }

  // ---------------------------------------------------------------- what the code's comments promise

  /** The worker takes the only queued entry over into its batch ... */
  lemma DrainOne(q0: Queue, q: Queue, h: History, evs: seq<Event>, e: Entry)
      returns (q': Queue, evs': seq<Event>)
    requires Legal(q0, evs) && Run(q0, NOTHING, evs) == (q, h)
    requires q.pc == Selecting && q.stopped && q.ch == [e] && q.batch == []
    ensures evs' == evs + [BeginDrain] + [DrainReceive]
    ensures Legal(q0, evs') && Run(q0, NOTHING, evs') == (q', h)
    ensures q' == q.(pc := Draining, ch := [], batch := [e])
  {
    var q1, h1, e1 := Then(q0, q, h, evs, BeginDrain);
    var h2;
    q', h2, evs' := Then(q0, q1, h1, e1, DrainReceive);
  }

  /** ... and once the database is closed its transaction fails. */
  lemma DrainAfterClose(q0: Queue, q: Queue, h: History, evs: seq<Event>, e: Entry)
      returns (q': Queue, h': History, evs': seq<Event>)
    requires Legal(q0, evs) && Run(q0, NOTHING, evs) == (q, h)
    requires q.pc == Selecting && q.stopped && !q.open && q.ch == [e] && q.batch == []
    ensures evs' == evs + [BeginDrain] + [DrainReceive] + [DrainEmpty] + [Flush(false)]
    ensures Legal(q0, evs') && Run(q0, NOTHING, evs') == (q', h')
    ensures q'.pc == Exited && q'.table == q.table && h'.dropped == h.dropped + [e]
  {
    var q2, e2 := DrainOne(q0, q, h, evs, e);
    var q3, h3, e3 := Then(q0, q2, h, e2, DrainEmpty);
    q', h', evs' := Then(q0, q3, h3, e3, Flush(false));
  }

  /** The shutdown order of main.go (signal the worker, close the database, wait for nobody) can lose
      a row that was already queued: here the worker drains only after Close. */
  lemma ShutdownCanLoseARow(e: Entry)
    ensures var evs := [SendFast(e), Stop, Close, BeginDrain, DrainReceive, DrainEmpty, Flush(false)];
            && LegalFrom(map[], 4096, 200, evs)
            && State(map[], 4096, 200, evs).pc == Exited
            && Past(map[], 4096, 200, evs).dropped == [e]
            && State(map[], 4096, 200, evs).table == map[]
  {
    var q0, h0, s0: seq<Event> := Fresh(map[], 4096, 200), NOTHING, [];
    var q1, h1, s1 := Then(q0, q0, h0, s0, SendFast(e));
    var q2, h2, s2 := Then(q0, q1, h1, s1, Stop);
    var q3, h3, s3 := Then(q0, q2, h2, s2, Close);
    var q7, h7, s7 := DrainAfterClose(q0, q3, h3, s3, e);
    assert s7 == [SendFast(e), Stop, Close, BeginDrain, DrainReceive, DrainEmpty, Flush(false)];
  }

  /** "Entries are never silently dropped" fails when a transaction fails: the batch is discarded.
      RowMissingIff says exactly which rows are missing. */
  lemma FailedFlushDrops(e: Entry)
    ensures var evs := [SendFast(e), Receive, Tick, Flush(false)];
            && LegalFrom(map[], 4096, 200, evs)
            && State(map[], 4096, 200, evs) == Fresh(map[], 4096, 200)
            && Past(map[], 4096, 200, evs).dropped == [e]
  {
    var q0, h0, s0: seq<Event> := Fresh(map[], 4096, 200), NOTHING, [];
    var q1, h1, s1 := Then(q0, q0, h0, s0, SendFast(e));
    var q2, h2, s2 := Then(q0, q1, h1, s1, Receive);
    var q3, h3, s3 := Then(q0, q2, h2, s2, Tick);
    var q4, h4, s4 := Then(q0, q3, h3, s3, Flush(false));
    assert s4 == [SendFast(e), Receive, Tick, Flush(false)];
  }
}
