/** What the assumptions about idempotency keys cost: the exact condition under which the dedup store,
    which forgets on eviction and is not part of a snapshot, still gives the verdicts of the log. */
module Provisos {
  import opened Types
  import opened Rows
  import opened CommittedLog
  import opened Fsm
  import Dedup
  import Node

  // ---------------------------------------------------------------- eviction

  /** The same process without a cleaner. */
  function WithoutCleans(evs: seq<Dedup.Event>): seq<Dedup.Event>
    decreases |evs|
  {
    if evs == [] then []
    else
      var front, last := WithoutCleans(evs[..|evs| - 1]), evs[|evs| - 1];
      if last.Clean? then front else front + [last]
  }

  /** Is the entry that `ev` offers applied? */
  predicate Takes(seen: Dedup.Seen, ev: Dedup.Event) {
    ev.Offer? && ev.put && !Dedup.IsDup(seen, ev.key)
  }

  /** The keys that the process has applied. */
  ghost function AppliedKeys(s: Dedup.Timed): set<string> {
    set m | m in s.marks :: m.key
  }

  /** Same verdict on the i-th event as without the cleaner. */
  ghost predicate SameVerdict(start: int, ttl: nat, evs: seq<Dedup.Event>, i: nat)
    requires i < |evs|
  {
    Takes(Dedup.Run(start, ttl, evs[..i]).seen, evs[i]) <==>
    Takes(Dedup.Run(start, ttl, WithoutCleans(evs[..i])).seen, evs[i])
  }

  /** The i-th event is not a put whose key was applied and then evicted. */
  ghost predicate NotForgotten(start: int, ttl: nat, evs: seq<Dedup.Event>, i: nat)
    requires i < |evs|
  {
    var s := Dedup.Run(start, ttl, evs[..i]);
    evs[i].Offer? && evs[i].put && evs[i].key in AppliedKeys(s) ==> evs[i].key in s.seen
  }

  lemma {:induction false} SeenWasApplied(start: int, ttl: nat, evs: seq<Dedup.Event>)
    ensures Dedup.Run(start, ttl, evs).seen.Keys <= AppliedKeys(Dedup.Run(start, ttl, evs))
    ensures "" !in AppliedKeys(Dedup.Run(start, ttl, evs))
    decreases |evs|
  {
    if evs != [] {
      SeenWasApplied(start, ttl, evs[..|evs| - 1]);
      AppliedStep(Dedup.Run(start, ttl, evs[..|evs| - 1]), ttl, evs[|evs| - 1]);
    }
  }

  lemma AppliedStep(s: Dedup.Timed, ttl: nat, ev: Dedup.Event)
    ensures AppliedKeys(Dedup.Step(s, ttl, ev)) ==
            if Takes(s.seen, ev) && ev.key != "" then AppliedKeys(s) + {ev.key} else AppliedKeys(s)
  {
    if Takes(s.seen, ev) && ev.key != "" {
      var s' := Dedup.Step(s, ttl, ev);
      assert s'.marks[|s.marks|].key == ev.key;
      forall m | m in s.marks ensures m in s'.marks {}
      forall x | x in AppliedKeys(s') ensures x in AppliedKeys(s) || x == ev.key {
        var m :| m in s'.marks && m.key == x;
      }
    }
  }

  /** While the process without a cleaner remembers exactly what this one applied, the two conditions
      say the same of the next event. */
  lemma VerdictAt(start: int, ttl: nat, evs: seq<Dedup.Event>, n: nat)
    requires n < |evs|
    requires Dedup.Run(start, ttl, WithoutCleans(evs[..n])).seen.Keys == AppliedKeys(Dedup.Run(start, ttl, evs[..n]))
    ensures SameVerdict(start, ttl, evs, n) <==> NotForgotten(start, ttl, evs, n)
  {
    SeenWasApplied(start, ttl, evs[..n]);
  }

  /** And so it does, as long as one of them held at every earlier event. */
  lemma {:induction false} VerdictStep(start: int, ttl: nat, evs: seq<Dedup.Event>, n: nat)
    requires n <= |evs|
    requires (forall i :: 0 <= i < n ==> SameVerdict(start, ttl, evs, i))
             || (forall i :: 0 <= i < n ==> NotForgotten(start, ttl, evs, i))
    ensures Dedup.Run(start, ttl, WithoutCleans(evs[..n])).seen.Keys == AppliedKeys(Dedup.Run(start, ttl, evs[..n]))
    ensures n < |evs| ==> (SameVerdict(start, ttl, evs, n) <==> NotForgotten(start, ttl, evs, n))
    decreases n
  {
    if n != 0 {
      VerdictStep(start, ttl, evs, n - 1);
      assert SameVerdict(start, ttl, evs, n - 1);
      assert evs[..n] == evs[..n - 1] + [evs[n - 1]];
      AppliedSnoc(start, ttl, evs[..n - 1], evs[n - 1]);
      WithoutCleansStep(start, ttl, evs[..n - 1], evs[n - 1]);
    }
    if n < |evs| { VerdictAt(start, ttl, evs, n); }
  }

  lemma AppliedSnoc(start: int, ttl: nat, front: seq<Dedup.Event>, last: Dedup.Event)
    ensures var s := Dedup.Run(start, ttl, front);
            AppliedKeys(Dedup.Run(start, ttl, front + [last])) ==
            if Takes(s.seen, last) && last.key != "" then AppliedKeys(s) + {last.key} else AppliedKeys(s)
  {
    assert (front + [last])[..|front|] == front;
    AppliedStep(Dedup.Run(start, ttl, front), ttl, last);
  }

  lemma WithoutCleansStep(start: int, ttl: nat, front: seq<Dedup.Event>, last: Dedup.Event)
    ensures var seen := Dedup.Run(start, ttl, WithoutCleans(front)).seen;
            Dedup.Run(start, ttl, WithoutCleans(front + [last])).seen.Keys ==
            if Takes(seen, last) && last.key != "" then seen.Keys + {last.key} else seen.Keys
  {
    assert (front + [last])[..|front|] == front;
    var kept := WithoutCleans(front);
    assert (kept + [last])[..|kept|] == kept;
  }

  /** Eviction is invisible, verdict by verdict, if and only if no key recurs after its eviction. */
  lemma {:induction false} EvictionInvisibleIff(start: int, ttl: nat, evs: seq<Dedup.Event>)
    ensures (forall i :: 0 <= i < |evs| ==> SameVerdict(start, ttl, evs, i)) <==>
            (forall i :: 0 <= i < |evs| ==> NotForgotten(start, ttl, evs, i))
  {
    if forall i :: 0 <= i < |evs| ==> SameVerdict(start, ttl, evs, i) {
      forall i | 0 <= i < |evs| ensures NotForgotten(start, ttl, evs, i) { VerdictStep(start, ttl, evs, i); }
    }
    if forall i :: 0 <= i < |evs| ==> NotForgotten(start, ttl, evs, i) {
      forall i | 0 <= i < |evs| ensures SameVerdict(start, ttl, evs, i) { VerdictStep(start, ttl, evs, i); }
    }
  }

  // ---------------------------------------------------------------- the dedup store over a node's life

  /** When the current process started, and what its dedup store has been through since, after one
      more event at `n`. */
  ghost function StoreStep(log: Log, n: Node.Node, t0: int, store: seq<Dedup.Event>, ev: Node.Event): (int, seq<Dedup.Event>) {
    match ev
    case Deliver(_, now) => (t0, if n.applied < |log| then store + [OfferOf(log[n.applied], now)] else store)
    case Clean(now) => (t0, store + [Dedup.Clean(now)])
    case Crash => (n.clock, [])
    case _ => (t0, store)
  }

  ghost function StoreRun(log: Log, ttl: nat, start: Node.Node, evs: seq<Node.Event>): (int, seq<Dedup.Event>)
    decreases |evs|
  {
    if evs == [] then (start.clock, [])
    else
      var (t0, store) := StoreRun(log, ttl, start, evs[..|evs| - 1]);
      StoreStep(log, Node.Run(log, ttl, start, evs[..|evs| - 1]), t0, store, evs[|evs| - 1])
  }

  /** `marks` has the keys of `list`, each with a time at which it was applied. */
  ghost predicate MarksOf(marks: map<string, int>, list: seq<Dedup.Mark>) {
    && (forall x :: x in marks ==> x != "" && Dedup.Mark(x, marks[x]) in list)
    && (forall m :: m in list ==> m.key in marks)
  }

  /** The node's store and memory after such a run. */
  ghost predicate Stored(n: Node.Node, ttl: nat, t0: int, store: seq<Dedup.Event>) {
    var s := Dedup.Run(t0, ttl, store);
    && n.view.seen == s.seen
    && Dedup.Monotone(t0, store) && s.clock <= n.clock && t0 <= n.clock
    && MarksOf(n.marks, s.marks)
  }

  lemma MonotoneSnoc(t0: int, store: seq<Dedup.Event>, ev: Dedup.Event, clock: int)
    requires Dedup.Monotone(t0, store) && t0 <= clock <= ev.now
    requires forall i :: 0 <= i < |store| ==> store[i].now <= clock
    ensures Dedup.Monotone(t0, store + [ev])
  {
  }

  lemma RunSnoc(t0: int, ttl: nat, store: seq<Dedup.Event>, ev: Dedup.Event)
    ensures Dedup.Run(t0, ttl, store + [ev]) == Dedup.Step(Dedup.Run(t0, ttl, store), ttl, ev)
  {
    assert (store + [ev])[..|store|] == store;
  }

  lemma StoredOffer(log: Log, ttl: nat, n: Node.Node, path: Path, now: int, t0: int, store: seq<Dedup.Event>)
    requires Stored(n, ttl, t0, store) && Node.Enabled(log, n, Node.Deliver(path, now))
    requires forall i :: 0 <= i < |store| ==> store[i].now <= n.clock
    ensures Stored(Node.Delivered(log, n, path, now), ttl, t0, store + [OfferOf(log[n.applied], now)])
  {
    var s := Dedup.Run(t0, ttl, store);
    RunSnoc(t0, ttl, store, OfferOf(log[n.applied], now));
    MonotoneSnoc(t0, store, OfferOf(log[n.applied], now), n.clock);
    ApplyIsOffer(n.view, log[n.applied], path, now, s, ttl);
    StoredMarks(s, ttl, n.marks, log[n.applied], now);
  }

  lemma StoredMarks(s: Dedup.Timed, ttl: nat, marks: map<string, int>, item: LogItem, now: int)
    requires MarksOf(marks, s.marks)
    ensures MarksOf(if Applies(s.seen, item) then Dedup.Marked(marks, item.data.cmd.idem, now) else marks,
                    Dedup.Step(s, ttl, OfferOf(item, now)).marks)
  {
    var s' := Dedup.Step(s, ttl, OfferOf(item, now));
    if Applies(s.seen, item) && item.data.cmd.idem != "" {
      assert s'.marks[|s.marks|] == Dedup.Mark(item.data.cmd.idem, now);
    }
  }

  /** Every other event but a crash leaves the store alone. */
  lemma StoredOther(log: Log, ttl: nat, n: Node.Node, ev: Node.Event, t0: int, store: seq<Dedup.Event>)
    requires Stored(n, ttl, t0, store) && Node.Enabled(log, n, ev)
    requires ev.Work? || ev.TakeSnapshot? || ev.Install? || ev.Recover?
    ensures Stored(Node.Next(log, ttl, n, ev), ttl, t0, store)
  {
    var n' := Node.Next(log, ttl, n, ev);
    assert n'.view.seen == n.view.seen && n'.marks == n.marks && n'.clock == n.clock;
  }

  lemma StoredCrash(log: Log, ttl: nat, n: Node.Node)
    ensures Stored(Node.Next(log, ttl, n, Node.Crash), ttl, n.clock, [])
  {
  }

  lemma StoredStep(log: Log, ttl: nat, n: Node.Node, ev: Node.Event, t0: int, store: seq<Dedup.Event>)
    requires Stored(n, ttl, t0, store) && Node.Enabled(log, n, ev)
    ensures var (t1, store') := StoreStep(log, n, t0, store, ev); Stored(Node.Next(log, ttl, n, ev), ttl, t1, store')
  {
    StoredTimes(ttl, n, t0, store);
    match ev
    case Deliver(path, now) => StoredOffer(log, ttl, n, path, now, t0, store);
    case Clean(now) => StoredClean(log, ttl, n, now, t0, store);
    case Crash => StoredCrash(log, ttl, n);
    case _ => StoredOther(log, ttl, n, ev, t0, store);
  }

  /** Whatever life a node has led, its dedup store is that of a timed run since the last start, and its
      applications are the run's: what Dedup proves of runs holds of nodes. */
  lemma {:induction false} StoreIsADedupRun(log: Log, ttl: nat, start: Node.Node, evs: seq<Node.Event>)
    requires Node.Legal(log, ttl, start, evs) && start.view.seen == map[] && start.marks == map[]
    ensures var (t0, store) := StoreRun(log, ttl, start, evs); Stored(Node.Run(log, ttl, start, evs), ttl, t0, store)
    decreases |evs|
  {
    if evs != [] {
      var front := evs[..|evs| - 1];
      StoreIsADedupRun(log, ttl, start, front);
      var (t0, store) := StoreRun(log, ttl, start, front);
      StoredStep(log, ttl, Node.Run(log, ttl, start, front), evs[|evs| - 1], t0, store);
    }
  }

  lemma StoredClean(log: Log, ttl: nat, n: Node.Node, now: int, t0: int, store: seq<Dedup.Event>)
    requires Stored(n, ttl, t0, store) && n.clock <= now
    requires forall i :: 0 <= i < |store| ==> store[i].now <= n.clock
    ensures Stored(Node.Next(log, ttl, n, Node.Clean(now)), ttl, t0, store + [Dedup.Clean(now)])
  {
    RunSnoc(t0, ttl, store, Dedup.Clean(now));
    MonotoneSnoc(t0, store, Dedup.Clean(now), n.clock);
  }

  lemma StoredTimes(ttl: nat, n: Node.Node, t0: int, store: seq<Dedup.Event>)
    requires Stored(n, ttl, t0, store)
    ensures forall i :: 0 <= i < |store| ==> store[i].now <= n.clock
  {
    Dedup.RunInv(t0, ttl, store);
  }

  /** In a node's life two applications of one key by the same process are more than ttl apart, and the
      store never holds more keys than were applied since the last pass minus ttl. */
  lemma {:induction false} DedupInALife(log: Log, ttl: nat, cap: nat, flushSize: nat, clock: int, evs: seq<Node.Event>)
    requires Node.Legal(log, ttl, Node.Initial(cap, flushSize, clock), evs)
    ensures var start := Node.Initial(cap, flushSize, clock);
            var (t0, store) := StoreRun(log, ttl, start, evs);
            var s := Dedup.Run(t0, ttl, store);
            && (forall i, j :: 0 <= i < j < |s.marks| && s.marks[i].key == s.marks[j].key ==>
                  s.marks[j].at - s.marks[i].at > ttl)
            && |Node.Run(log, ttl, start, evs).view.seen| <= |Dedup.Window(s.marks, s.lastClean - ttl, s.clock)|
  {
    var start := Node.Initial(cap, flushSize, clock);
    StoreIsADedupRun(log, ttl, start, evs);
    var (t0, store) := StoreRun(log, ttl, start, evs);
    StoredFacts(Node.Run(log, ttl, start, evs), ttl, t0, store);
  }

  lemma StoredFacts(n: Node.Node, ttl: nat, t0: int, store: seq<Dedup.Event>)
    requires Stored(n, ttl, t0, store)
    ensures var s := Dedup.Run(t0, ttl, store);
            && (forall i, j :: 0 <= i < j < |s.marks| && s.marks[i].key == s.marks[j].key ==>
                  s.marks[j].at - s.marks[i].at > ttl)
            && |n.view.seen| <= |Dedup.Window(s.marks, s.lastClean - ttl, s.clock)|
  {
    Dedup.DedupWindow(t0, ttl, store);
    Dedup.SizeBound(t0, ttl, store);
  }

  /** The assumption of Deliver holds whenever a retry arrives within ttl of the application. */
  lemma {:induction false} RetryWithinTtl(
      log: Log, ttl: nat, cap: nat, flushSize: nat, clock: int, evs: seq<Node.Event>, x: string, now: int)
    requires Node.Legal(log, ttl, Node.Initial(cap, flushSize, clock), evs)
    requires var n := Node.Run(log, ttl, Node.Initial(cap, flushSize, clock), evs);
             x in n.marks && n.clock <= now <= n.marks[x] + ttl
    ensures x in Node.Run(log, ttl, Node.Initial(cap, flushSize, clock), evs).view.seen
  {
    var start := Node.Initial(cap, flushSize, clock);
    StoreIsADedupRun(log, ttl, start, evs);
    var n := Node.Run(log, ttl, start, evs);
    var (t0, store) := StoreRun(log, ttl, start, evs);
    Dedup.RetainedForTtl(t0, ttl, store, Dedup.Mark(x, n.marks[x]), now);
  }

  // ---------------------------------------------------------------- dedup across a snapshot

  /** Apply of the entries at positions [s, i), each at some time. */
  function Offers(log: Log, s: nat, i: nat, times: seq<int>): seq<Dedup.Event>
    requires s <= i <= |log| <= |times|
    decreases i
  {
    if i == s then [] else Offers(log, s, i - 1, times) + [OfferOf(log[i - 1], times[i - 1])]
  }

  /** What a process remembers when it consumes entry `i`, having started entry `s` with `seen`. */
  function SeenAt(seen: Dedup.Seen, ttl: nat, log: Log, s: nat, i: nat, times: seq<int>): Dedup.Seen
    requires s <= i <= |log| <= |times|
  {
    Dedup.RunFrom(Dedup.Timed(seen, [], 0, 0), ttl, Offers(log, s, i, times)).seen
  }

  /** Without evictions: what it had, and the keys of the puts since. */
  lemma {:induction false} RememberedSince(seen: Dedup.Seen, ttl: nat, log: Log, s: nat, i: nat, times: seq<int>, x: string)
    requires s <= i <= |log| <= |times| && x != ""
    ensures x in SeenAt(seen, ttl, log, s, i, times) <==> x in seen || exists j :: s <= j < i && PutWith(log[j], x)
    decreases i
  {
    if i != s {
      RememberedSince(seen, ttl, log, s, i - 1, times, x);
      var front := Offers(log, s, i - 1, times);
      assert Offers(log, s, i, times)[..|front|] == front;
    }
  }

  /** The snapshot `m` at position `s` does not carry the dedup state, and Restore keeps what the
      process has: a process that has applied keys from before `s` only, restored at `s` and evicting
      nothing, judges every later entry as the log does if and only if each idempotency key used on
      both sides of `s` is one that it remembers. A process just started remembers none. */
  lemma {:induction false} CleanCutIff(v: View, m: KvMap, order: seq<string>, ttl: nat, log: Log, s: nat, times: seq<int>)
    requires IsOrder(order, m) && s <= |log| <= |times|
    requires forall x :: x in v.seen ==> exists j :: 0 <= j < s && PutWith(log[j], x)
    ensures CleanCut(log, s, v.seen.Keys) <==>
            forall i :: s <= i < |log| ==>
              (Applies(SeenAt(RestoreTo(v, m, order).seen, ttl, log, s, i, times), log[i]) <==> IsEffective(log, i))
  {
    if CleanCut(log, s, v.seen.Keys) {
      forall i | s <= i < |log| ensures Applies(SeenAt(v.seen, ttl, log, s, i, times), log[i]) <==> IsEffective(log, i) {
        CleanCutVerdict(v.seen, ttl, log, s, i, times);
      }
    } else {
      var i, j, x :| 0 <= i < s <= j < |log| && PutWith(log[i], x) && PutWith(log[j], x) && x !in v.seen;
      var f := FirstWith(log, s, j, x);
      RememberedSince(v.seen, ttl, log, s, f, times, x);
      assert Applies(SeenAt(v.seen, ttl, log, s, f, times), log[f]) && !IsEffective(log, f);
    }
  }

  lemma CleanCutVerdict(seen: Dedup.Seen, ttl: nat, log: Log, s: nat, i: nat, times: seq<int>)
    requires s <= i < |log| <= |times| && CleanCut(log, s, seen.Keys)
    requires forall x :: x in seen ==> exists j :: 0 <= j < s && PutWith(log[j], x)
    ensures Applies(SeenAt(seen, ttl, log, s, i, times), log[i]) <==> IsEffective(log, i)
  {
    if IsPut(log[i]) && log[i].data.cmd.idem != "" {
      var x := log[i].data.cmd.idem;
      RememberedSince(seen, ttl, log, s, i, times, x);
      assert PutWith(log[i], x);
      if !IsEffective(log, i) {
        var j :| 0 <= j < i && PutWith(log[j], x);
        assert j < s ==> x in seen;
      }
    }
  }

  lemma {:induction false} FirstWith(log: Log, s: nat, j: nat, x: string) returns (f: nat)
    requires s <= j < |log| && PutWith(log[j], x)
    ensures s <= f <= j && PutWith(log[f], x) && forall k :: s <= k < f ==> !PutWith(log[k], x)
    decreases j
  {
    if k :| s <= k < j && PutWith(log[k], x) {
      f := FirstWith(log, s, k, x);
    } else {
      f := j;
    }
  }
}
