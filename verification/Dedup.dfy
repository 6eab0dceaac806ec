/** Idempotency keys with a time to live (dedup/dedup.go). Times are integers in one unit. */
module Dedup {

  type Seen = map<string, int>

  /** The empty key opts out. */
  predicate IsDup(seen: Seen, x: string) {
    x != "" && x in seen
  }

  function Marked(seen: Seen, x: string, now: int): Seen {
    if x == "" then seen else seen[x := now]
  }

  /** What a cleaner pass at `now` keeps. */
  function Evicted(seen: Seen, ttl: nat, now: int): Seen {
    map x | x in seen && seen[x] >= now - ttl :: seen[x]
  }

  class Store {
    var seen: Seen
    var stopped: bool
    const ttl: nat
    const cleanInterval: nat

    constructor (ttl: nat, cleanInterval: nat)
      ensures seen == map[] && !stopped && this.ttl == ttl && this.cleanInterval == cleanInterval
    {
      seen, stopped := map[], false;
      this.ttl, this.cleanInterval := ttl, cleanInterval;
    }

    method IsDuplicate(x: string) returns (dup: bool)
      ensures dup <==> x != "" && x in seen
    {
      if x == "" {
        return false;
      }
      dup := x in seen;
    }

    method MarkSeen(x: string, now: int)
      modifies this`seen
      ensures seen == Marked(old(seen), x, now)
    {
      if x == "" {
        return;
      }
      seen := seen[x := now];
    }

    /** Deletes every key seen before now - ttl, while ranging over the map. */
    method Evict(now: int)
      modifies this`seen
      ensures seen == Evicted(old(seen), ttl, now)
      ensures forall x :: x in seen <==> x in old(seen) && now <= old(seen)[x] + ttl
      ensures forall x :: x in seen ==> seen[x] == old(seen)[x]
    {
      var cutoff := now - ttl;
      var todo := seen.Keys;
      while todo != {}
        invariant todo <= seen.Keys <= old(seen).Keys
        invariant forall x :: x in seen ==> seen[x] == old(seen)[x]
        invariant forall x :: x in old(seen) && x !in todo ==> (x in seen <==> old(seen)[x] >= cutoff)
        decreases |todo|
      {
        var x :| x in todo;
        todo := todo - {x};
        if seen[x] < cutoff {
          seen := seen - {x};
        }
      }
    }

    /** What Apply does with the store for one entry. */
    method Offered(x: string, put: bool, now: int)
      modifies this`seen
      ensures seen == Step(Timed(old(seen), [], 0, 0), ttl, Offer(x, put, now)).seen
    {
      var dup := IsDuplicate(x);
      if !dup && put { MarkSeen(x, now); }
    }

    /** The stop signal. */
    method Stop()
      requires !stopped
      modifies this`stopped
      ensures stopped
    {
      stopped := true;
    }

    /** The turns of the cleaner goroutine before the stop signal, one pass per tick, with what Apply's
        goroutine does to the store between them. */
    method Cleaner(evs: seq<Event>)
      requires !stopped
      modifies this`seen
      ensures seen == RunFrom(Timed(old(seen), [], 0, 0), ttl, evs).seen
    {
      var i := 0;
      ghost var s := Timed(seen, [], 0, 0);
      while i < |evs|
        invariant i <= |evs|
        invariant seen == RunFrom(s, ttl, evs[..i]).seen
      {
        assert evs[..i + 1][..i] == evs[..i];
        match evs[i] {
          case Clean(now) => Evict(now);
          case Offer(x, put, now) => Offered(x, put, now);
        }
        i := i + 1;
      }
      assert evs[..i] == evs;
    }

    method Len() returns (n: nat)
      ensures n == |seen|
    {
      n := |seen|;
    }
  }

  // ---------------------------------------------------------------- whole runs of one process

  /** An application of an idempotency key. */
  datatype Mark = Mark(key: string, at: int)

  datatype Event =
    | Offer(key: string, put: bool, now: int)   // Apply of an entry with this key; `put`: its op is known
    | Clean(now: int)                           // a cleaner pass

  /** `marks` lists the applications of non-empty keys so far. */
  datatype Timed = Timed(seen: Seen, marks: seq<Mark>, lastClean: int, clock: int)

  function Start(now: int): Timed {
    Timed(map[], [], now, now)
  }

  function Step(s: Timed, ttl: nat, ev: Event): Timed {
    match ev
    case Offer(x, put, now) =>
      if IsDup(s.seen, x) || !put then s.(clock := now)
      else s.(seen := Marked(s.seen, x, now),
              marks := if x == "" then s.marks else s.marks + [Mark(x, now)],
              clock := now)
    case Clean(now) => s.(seen := Evicted(s.seen, ttl, now), lastClean := now, clock := now)
  }

  function RunFrom(s: Timed, ttl: nat, evs: seq<Event>): Timed
    decreases |evs|
  {
    if evs == [] then s else Step(RunFrom(s, ttl, evs[..|evs| - 1]), ttl, evs[|evs| - 1])
  }

  /** A process started at `start`: the store begins empty. */
  function Run(start: int, ttl: nat, evs: seq<Event>): Timed {
    RunFrom(Start(start), ttl, evs)
  }

  /** The clock never goes back. */
  ghost predicate Monotone(start: int, evs: seq<Event>) {
    && (forall i :: 0 <= i < |evs| ==> start <= evs[i].now)
    && (forall i, j :: 0 <= i < j < |evs| ==> evs[i].now <= evs[j].now)
  }

  ghost predicate Inv(s: Timed, ttl: nat) {
    && s.lastClean <= s.clock
    && (forall x :: x in s.seen ==> Mark(x, s.seen[x]) in s.marks && s.lastClean - ttl <= s.seen[x] <= s.clock)
    && (forall i :: 0 <= i < |s.marks| ==>
          || (s.marks[i].key in s.seen && s.seen[s.marks[i].key] == s.marks[i].at)
          || s.marks[i].at + ttl < s.clock)
    && (forall i, j :: 0 <= i < j < |s.marks| && s.marks[i].key == s.marks[j].key ==>
          s.marks[i].at + ttl < s.marks[j].at)
  }

  lemma InvOffer(s: Timed, ttl: nat, x: string, put: bool, now: int)
    requires Inv(s, ttl) && s.clock <= now
    ensures Inv(Step(s, ttl, Offer(x, put, now)), ttl)
  {
    var s' := Step(s, ttl, Offer(x, put, now));
    if put && x != "" && x !in s.seen {
      forall y | y in s'.seen ensures Mark(y, s'.seen[y]) in s'.marks {
        if y == x { assert s'.marks[|s.marks|] == Mark(x, now); }
      }
    }
  }

  lemma InvClean(s: Timed, ttl: nat, now: int)
    requires Inv(s, ttl) && s.clock <= now
    ensures Inv(Step(s, ttl, Clean(now)), ttl)
  {
  }

  lemma {:induction false} RunInv(start: int, ttl: nat, evs: seq<Event>)
    requires Monotone(start, evs)
    ensures Inv(Run(start, ttl, evs), ttl)
    ensures Run(start, ttl, evs).clock == if evs == [] then start else evs[|evs| - 1].now
    decreases |evs|
  {
    if evs != [] {
      var front, last := evs[..|evs| - 1], evs[|evs| - 1];
      RunInv(start, ttl, front);
      match last
      case Offer(x, put, now) => InvOffer(Run(start, ttl, front), ttl, x, put, now);
      case Clean(now) => InvClean(Run(start, ttl, front), ttl, now);
    }
  }

  /** Only a put marks its key; an unknown op never does, and a duplicate never refreshes the stamp:
      every stamp is the time of an application. */
  lemma {:induction false} StampsAreApplications(start: int, ttl: nat, evs: seq<Event>, x: string)
    requires Monotone(start, evs) && x in Run(start, ttl, evs).seen
    ensures var s := Run(start, ttl, evs);
            Mark(x, s.seen[x]) in s.marks && Offer(x, true, s.seen[x]) in evs
  {
    RunInv(start, ttl, evs);
    MarksAreOffers(start, ttl, evs, Mark(x, Run(start, ttl, evs).seen[x]));
  }

  lemma {:induction false} MarksAreOffers(start: int, ttl: nat, evs: seq<Event>, m: Mark)
    requires m in Run(start, ttl, evs).marks
    ensures Offer(m.key, true, m.at) in evs
    decreases |evs|
  {
    if evs != [] {
      var front, last := evs[..|evs| - 1], evs[|evs| - 1];
      assert evs == front + [last];
      if m in Run(start, ttl, front).marks {
        MarksAreOffers(start, ttl, front, m);
      } else {
        assert last == Offer(m.key, true, m.at);
      }
    }
  }

  /** In one process lifetime, two applications of the same key are more than ttl apart. */
  lemma {:induction false} DedupWindow(start: int, ttl: nat, evs: seq<Event>)
    requires Monotone(start, evs)
    ensures var marks := Run(start, ttl, evs).marks;
            forall i, j :: 0 <= i < j < |marks| && marks[i].key == marks[j].key ==> marks[j].at - marks[i].at > ttl
  {
    RunInv(start, ttl, evs);
  }

  /** An applied key stays a duplicate for at least ttl. */
  lemma {:induction false} RetainedForTtl(start: int, ttl: nat, evs: seq<Event>, m: Mark, now: int)
    requires Monotone(start, evs) && m in Run(start, ttl, evs).marks && m.key != ""
    requires Run(start, ttl, evs).clock <= now <= m.at + ttl
    ensures IsDup(Run(start, ttl, evs).seen, m.key)
  {
    RunInv(start, ttl, evs);
  }

  /** The cleaner's k-th tick. */
  function Due(start: int, interval: nat, k: nat): int {
    start + k * interval
  }

  ghost predicate PassSince(evs: seq<Event>, t: int) {
    exists c :: c >= t && Clean(c) in evs
  }

  /** Every tick that was due more than `delay` ago has had its pass. */
  ghost predicate TicksWithin(start: int, interval: nat, delay: nat, evs: seq<Event>, now: int) {
    forall k :: k >= 1 && Due(start, interval, k) + delay <= now ==> PassSince(evs, Due(start, interval, k))
  }

  lemma {:induction false} LastPass(start: int, ttl: nat, evs: seq<Event>, c: int)
    requires Monotone(start, evs) && (c == start || Clean(c) in evs)
    ensures Run(start, ttl, evs).lastClean >= c
    decreases |evs|
  {
    if evs != [] {
      var front, last := evs[..|evs| - 1], evs[|evs| - 1];
      assert evs == front + [last];
      if last != Clean(c) { LastPass(start, ttl, front, c); }
    }
  }

  /** With ticks on time nothing older than ttl + cleanInterval is still remembered; with passes up to
      `delay` late, nothing older than that and the delay. */
  lemma {:induction false} ForgottenInTime(start: int, ttl: nat, interval: nat, delay: nat, evs: seq<Event>, now: int)
    requires Monotone(start, evs) && interval >= 1
    requires Run(start, ttl, evs).clock <= now
    requires TicksWithin(start, interval, delay, evs, now)
    ensures var seen := Run(start, ttl, evs).seen;
            forall x :: x in seen ==> now - seen[x] <= ttl + interval + delay
  {
    RunInv(start, ttl, evs);
    LastPass(start, ttl, evs, start);
    if now - delay - start >= interval {
      var k := (now - delay - start) / interval;
      TickBefore(start, interval, k, now - delay);
      var c :| c >= Due(start, interval, k) && Clean(c) in evs;
      LastPass(start, ttl, evs, c);
    }
  }

  lemma TickBefore(start: int, interval: nat, k: nat, t: int)
    requires interval >= 1 && t - start >= interval && k == (t - start) / interval
    ensures k >= 1 && t - interval < Due(start, interval, k) <= t
  {
  }

  /** Passes with no application between them equal one pass at the last tick. */
  lemma {:induction false} PassesAreOne(s: Timed, ttl: nat, evs: seq<Event>)
    requires forall i :: 0 <= i < |evs| ==> evs[i].Clean?
    requires forall i, j :: 0 <= i < j < |evs| ==> evs[i].now <= evs[j].now
    ensures RunFrom(s, ttl, evs).seen == if evs == [] then s.seen else Evicted(s.seen, ttl, evs[|evs| - 1].now)
    decreases |evs|
  {
    if evs != [] { PassesAreOne(s, ttl, evs[..|evs| - 1]); }
  }

  /** The positions of the applications stamped in [low, high]. */
  ghost function Window(marks: seq<Mark>, low: int, high: int): set<nat> {
    set i: nat | 0 <= i < |marks| && low <= marks[i].at <= high
  }

  /** The map never holds more keys than were applied since the last pass minus ttl. */
  lemma {:induction false} SizeBound(start: int, ttl: nat, evs: seq<Event>)
    requires Monotone(start, evs)
    ensures var s := Run(start, ttl, evs);
            |s.seen| <= |Window(s.marks, s.lastClean - ttl, s.clock)|
  {
    RunInv(start, ttl, evs);
    SeenInWindow(Run(start, ttl, evs), ttl);
  }

  lemma SeenInWindow(s: Timed, ttl: nat)
    requires forall x :: x in s.seen ==> Mark(x, s.seen[x]) in s.marks && s.lastClean - ttl <= s.seen[x] <= s.clock
    ensures |s.seen| <= |Window(s.marks, s.lastClean - ttl, s.clock)|
  {
    var w := Window(s.marks, s.lastClean - ttl, s.clock);
    forall x | x in s.seen ensures exists i :: i in w && s.marks[i].key == x {
      var i :| 0 <= i < |s.marks| && s.marks[i] == Mark(x, s.seen[x]);
      assert i in w;
    }
    ImageNoLarger(s.marks, w, s.seen.Keys);
  }

  lemma {:induction false} ImageNoLarger(marks: seq<Mark>, w: set<nat>, keys: set<string>)
    requires forall i :: i in w ==> i < |marks|
    requires forall x :: x in keys ==> exists i :: i in w && marks[i].key == x
    ensures |keys| <= |w|
    decreases |w|
  {
    if keys != {} {
      var x :| x in keys;
      var i :| i in w && marks[i].key == x;
      ImageNoLarger(marks, w - {i}, keys - {x});
    }
  }
}
