/** The write path of the HTTP server (server/http.go, server/forward.go). An Execution is a tree of
    everything that happened to one request: which nodes it reached, what raft said there, which
    connections and replies were lost. The tree is the network's choice; the code's loops walk it. */
module Forwarding {
  import Metrics

  datatype PutRequest = PutRequest(key: string, value: string, idem: string)

  /** A POST to another node. */
  datatype Post =
    | Lost                                           // never arrives
    | Delivered(there: Execution, replied: bool)     // handled there; the reply may be lost

  /** What the local raft instance answers; `inLog` says whether the entry commits all the same. */
  datatype Outcome = Committed | NotLeader | Failed(inLog: bool)

  datatype Refusal = MethodNotAllowed | Overloaded | Undecodable

  datatype Execution =
    | Refused(why: Refusal)
    | Follower(rounds: seq<Round>)
    | Leader(outcome: Outcome, rounds: seq<Round>)   // rounds are used after NotLeader only

  /** One turn of forwardWithRetry: the leader's address as resolved then, and the POSTs to it. */
  datatype Round = Round(leader: string, posts: seq<Post>)

  const MAX_FORWARD_RETRIES := 3
  const ATTEMPTS := 3

  // ---------------------------------------------------------------- what the client sees

  function Status(req: PutRequest, x: Execution): nat
    decreases x, 4
  {
    match x
    case Refused(MethodNotAllowed) => 405
    case Refused(Overloaded) => 503
    case Refused(Undecodable) => 400
    case Follower(rounds) =>
      if req.key == "" || req.idem == "" then 400 else RoundsStatus(req, rounds, 0)
    case Leader(outcome, rounds) =>
      if req.key == "" || req.idem == "" then 400
      else match outcome
           case Committed => 200
           case Failed(_) => 500
           case NotLeader => RoundsStatus(req, rounds, 0)
  }

  function RoundsStatus(req: PutRequest, rounds: seq<Round>, i: nat): nat
    requires i < ATTEMPTS
    decreases rounds, ATTEMPTS - i
  {
    if i >= |rounds| || rounds[i].leader == "" then
      if i < ATTEMPTS - 1 then RoundsStatus(req, rounds, i + 1) else 503
    else if PostsOk(req, rounds[i].posts, 0) then 200
    else if i < ATTEMPTS - 1 then RoundsStatus(req, rounds, i + 1)
    else 502
  }

  /** Do the POSTs from the `a`-th on end in a 200? Only a failed connection is tried again. */
  predicate PostsOk(req: PutRequest, posts: seq<Post>, a: nat)
    requires a <= MAX_FORWARD_RETRIES
    decreases posts, MAX_FORWARD_RETRIES - a
  {
    if a == MAX_FORWARD_RETRIES || a >= |posts| then false
    else match AnswerOf(req, posts[a])
         case ConnError => PostsOk(req, posts, a + 1)
         case Reply(status) => status == 200
  }

  /** What the HTTP client reports for a POST. */
  datatype Answer = ConnError | Reply(status: nat)

  function AnswerOf(req: PutRequest, post: Post): Answer
    decreases post, 0
  {
    if post.Delivered? && post.replied then Reply(Status(req, post.there)) else ConnError
  }

  /** One of the three rounds knew a leader and got a 200 from it. */
  predicate SomeRoundOk(req: PutRequest, rounds: seq<Round>) {
    exists i :: 0 <= i < 3 && i < |rounds| && rounds[i].leader != "" && PostsOk(req, rounds[i].posts, 0)
  }

  /** The answer of forwarding, read off the rounds: without a 200, the third round decides between a
      leader that is not known and one that could not be made to commit. */
  lemma {:induction false} RoundsAnswer(req: PutRequest, rounds: seq<Round>)
    ensures RoundsStatus(req, rounds, 0) ==
            if SomeRoundOk(req, rounds) then 200
            else if |rounds| < 3 || rounds[2].leader == "" then 503
            else 502
  {
    assert RoundsStatus(req, rounds, 1) == 200 || RoundsStatus(req, rounds, 1) == RoundsStatus(req, rounds, 2);
    assert RoundsStatus(req, rounds, 0) == 200 || RoundsStatus(req, rounds, 0) == RoundsStatus(req, rounds, 1);
  }

  /** POSTs to one address end in a 200 if and only if one of the first three is answered with a 200,
      and no earlier one was answered at all. */
  lemma {:induction false} PostsOkIff(req: PutRequest, posts: seq<Post>, a: nat)
    requires a <= 3
    ensures PostsOk(req, posts, a) <==>
            exists b :: && a <= b < 3 && b < |posts|
                        && posts[b].Delivered? && posts[b].replied && Status(req, posts[b].there) == 200
                        && forall c :: a <= c < b ==> posts[c] == Lost || !posts[c].replied
    decreases 3 - a
  {
    if a < 3 && a < |posts| {
      PostsOkIff(req, posts, a + 1);
      if AnswerOf(req, posts[a]) == ConnError { PostsFrom(req, posts, a); }
    }
  }

  lemma PostsFrom(req: PutRequest, posts: seq<Post>, a: nat)
    requires a < 3 && a < |posts| && (posts[a] == Lost || !posts[a].replied)
    ensures (exists b :: && a <= b < 3 && b < |posts|
                         && posts[b].Delivered? && posts[b].replied && Status(req, posts[b].there) == 200
                         && forall c :: a <= c < b ==> posts[c] == Lost || !posts[c].replied) <==>
            (exists b :: && a + 1 <= b < 3 && b < |posts|
                         && posts[b].Delivered? && posts[b].replied && Status(req, posts[b].there) == 200
                         && forall c :: a + 1 <= c < b ==> posts[c] == Lost || !posts[c].replied)
  {
  }

  // ---------------------------------------------------------------- what raft's log gets

  /** Copies of the command that the execution put in the log, by whatever node. */
  function Copies(req: PutRequest, x: Execution): nat
    decreases x, 4
  {
    match x
    case Refused(_) => 0
    case Follower(rounds) => if req.key == "" || req.idem == "" then 0 else RoundsCopies(req, rounds, 0)
    case Leader(outcome, rounds) =>
      if req.key == "" || req.idem == "" then 0
      else match outcome
           case Committed => 1
           case Failed(inLog) => if inLog then 1 else 0
           case NotLeader => RoundsCopies(req, rounds, 0)
  }

  function RoundsCopies(req: PutRequest, rounds: seq<Round>, i: nat): nat
    requires i < ATTEMPTS
    decreases rounds, ATTEMPTS - i
  {
    var later := if i < ATTEMPTS - 1 then RoundsCopies(req, rounds, i + 1) else 0;
    if i >= |rounds| || rounds[i].leader == "" then later
    else if PostsOk(req, rounds[i].posts, 0) then PostsCopies(req, rounds[i].posts, 0)
    else PostsCopies(req, rounds[i].posts, 0) + later
  }

  function PostsCopies(req: PutRequest, posts: seq<Post>, a: nat): nat
    requires a <= MAX_FORWARD_RETRIES
    decreases posts, MAX_FORWARD_RETRIES - a
  {
    if a == MAX_FORWARD_RETRIES || a >= |posts| then 0
    else CopiesOf(req, posts[a]) + if AnswerOf(req, posts[a]) == ConnError then PostsCopies(req, posts, a + 1) else 0
  }

  function CopiesOf(req: PutRequest, post: Post): nat
    decreases post, 0
  {
    if post.Delivered? then Copies(req, post.there) else 0
  }

  /** A 200 from any node, however many hops away, means the log holds the command. */
  lemma {:induction false} OkMeansCommitted(req: PutRequest, x: Execution)
    requires Status(req, x) == 200
    ensures Copies(req, x) >= 1 && req.key != "" && req.idem != ""
    decreases x, 4
  {
    match x
    case Refused(_) =>
    case Follower(rounds) => RoundsOkMeansCommitted(req, rounds, 0);
    case Leader(outcome, rounds) =>
      if outcome == NotLeader { RoundsOkMeansCommitted(req, rounds, 0); }
  }

  lemma {:induction false} RoundsOkMeansCommitted(req: PutRequest, rounds: seq<Round>, i: nat)
    requires i < ATTEMPTS && RoundsStatus(req, rounds, i) == 200
    ensures RoundsCopies(req, rounds, i) >= 1
    decreases rounds, ATTEMPTS - i
  {
    if i < |rounds| && rounds[i].leader != "" && PostsOk(req, rounds[i].posts, 0) {
      PostsOkMeansCommitted(req, rounds[i].posts, 0);
    } else {
      RoundsOkMeansCommitted(req, rounds, i + 1);
    }
  }

  lemma {:induction false} PostsOkMeansCommitted(req: PutRequest, posts: seq<Post>, a: nat)
    requires a <= MAX_FORWARD_RETRIES && PostsOk(req, posts, a)
    ensures PostsCopies(req, posts, a) >= 1
    decreases posts, MAX_FORWARD_RETRIES - a
  {
    if AnswerOf(req, posts[a]) == ConnError {
      PostsOkMeansCommitted(req, posts, a + 1);
    } else {
      PostOkMeansCommitted(req, posts[a]);
    }
  }

  lemma {:induction false} PostOkMeansCommitted(req: PutRequest, post: Post)
    requires AnswerOf(req, post) == Reply(200)
    ensures CopiesOf(req, post) >= 1
    decreases post, 0
  {
    OkMeansCommitted(req, post.there);
  }

  // ---------------------------------------------------------------- when status and log agree

  /** Of everything that was carried out, did no command reach the log? */
  predicate PutNothing(req: PutRequest, x: Execution)
    decreases x, 4
  {
    match x
    case Refused(_) => true
    case Follower(rounds) => req.key == "" || req.idem == "" || RoundsPutNothing(req, rounds, 0)
    case Leader(outcome, rounds) =>
      req.key == "" || req.idem == "" ||
      match outcome
      case Committed => false
      case Failed(inLog) => !inLog
      case NotLeader => RoundsPutNothing(req, rounds, 0)
  }

  predicate RoundsPutNothing(req: PutRequest, rounds: seq<Round>, i: nat)
    requires i < ATTEMPTS
    decreases rounds, ATTEMPTS - i
  {
    var later := i < ATTEMPTS - 1 ==> RoundsPutNothing(req, rounds, i + 1);
    if i >= |rounds| || rounds[i].leader == "" then later
    else PostsPutNothing(req, rounds[i].posts, 0) && (PostsOk(req, rounds[i].posts, 0) || later)
  }

  predicate PostsPutNothing(req: PutRequest, posts: seq<Post>, a: nat)
    requires a <= MAX_FORWARD_RETRIES
    decreases posts, MAX_FORWARD_RETRIES - a
  {
    a == MAX_FORWARD_RETRIES || a >= |posts| ||
    (PostPutNothing(req, posts[a]) && (AnswerOf(req, posts[a]) == ConnError ==> PostsPutNothing(req, posts, a + 1)))
  }

  predicate PostPutNothing(req: PutRequest, post: Post)
    decreases post, 0
  {
    post.Delivered? ==> PutNothing(req, post.there)
  }

  /** No command reached the log without the node that sent it being told: raft's failures were
      real, and whatever a lost reply hides put nothing there. */
  predicate NothingWasted(req: PutRequest, x: Execution)
    decreases x, 4
  {
    match x
    case Refused(_) => true
    case Follower(rounds) => req.key == "" || req.idem == "" || RoundsNotWasted(req, rounds, 0)
    case Leader(outcome, rounds) =>
      req.key == "" || req.idem == "" ||
      match outcome
      case Committed => true
      case Failed(inLog) => !inLog
      case NotLeader => RoundsNotWasted(req, rounds, 0)
  }

  predicate RoundsNotWasted(req: PutRequest, rounds: seq<Round>, i: nat)
    requires i < ATTEMPTS
    decreases rounds, ATTEMPTS - i
  {
    var later := i < ATTEMPTS - 1 ==> RoundsNotWasted(req, rounds, i + 1);
    if i >= |rounds| || rounds[i].leader == "" then later
    else PostsNotWasted(req, rounds[i].posts, 0) && (PostsOk(req, rounds[i].posts, 0) || later)
  }

  predicate PostsNotWasted(req: PutRequest, posts: seq<Post>, a: nat)
    requires a <= MAX_FORWARD_RETRIES
    decreases posts, MAX_FORWARD_RETRIES - a
  {
    a == MAX_FORWARD_RETRIES || a >= |posts| ||
    (PostNotWasted(req, posts[a]) && (AnswerOf(req, posts[a]) == ConnError ==> PostsNotWasted(req, posts, a + 1)))
  }

  predicate PostNotWasted(req: PutRequest, post: Post)
    decreases post, 0
  {
    post.Delivered? ==> if post.replied then NothingWasted(req, post.there) else PutNothing(req, post.there)
  }

  lemma {:induction false} PutNothingIff(req: PutRequest, x: Execution)
    ensures PutNothing(req, x) <==> Copies(req, x) == 0
    decreases x, 4
  {
    match x
    case Refused(_) =>
    case Follower(rounds) => RoundsPutNothingIff(req, rounds, 0);
    case Leader(outcome, rounds) => RoundsPutNothingIff(req, rounds, 0);
  }

  lemma {:induction false} RoundsPutNothingIff(req: PutRequest, rounds: seq<Round>, i: nat)
    requires i < ATTEMPTS
    ensures RoundsPutNothing(req, rounds, i) <==> RoundsCopies(req, rounds, i) == 0
    decreases rounds, ATTEMPTS - i
  {
    if i < ATTEMPTS - 1 { RoundsPutNothingIff(req, rounds, i + 1); }
    if i < |rounds| { PostsPutNothingIff(req, rounds[i].posts, 0); }
  }

  lemma {:induction false} PostsPutNothingIff(req: PutRequest, posts: seq<Post>, a: nat)
    requires a <= MAX_FORWARD_RETRIES
    ensures PostsPutNothing(req, posts, a) <==> PostsCopies(req, posts, a) == 0
    decreases posts, MAX_FORWARD_RETRIES - a
  {
    if a < MAX_FORWARD_RETRIES && a < |posts| {
      PostPutNothingIff(req, posts[a]);
      PostsPutNothingIff(req, posts, a + 1);
    }
  }

  lemma {:induction false} PostPutNothingIff(req: PutRequest, post: Post)
    ensures PostPutNothing(req, post) <==> CopiesOf(req, post) == 0
    decreases post, 0
  {
    if post.Delivered? { PutNothingIff(req, post.there); }
  }

  /** A 200 for exactly one copy in the log, any other answer for none: so it is if and only if
      nothing was wasted on the way. */
  lemma {:induction false} StatusTellsIff(req: PutRequest, x: Execution)
    ensures NothingWasted(req, x) <==> Copies(req, x) == if Status(req, x) == 200 then 1 else 0
    decreases x, 4
  {
    match x
    case Refused(_) =>
    case Follower(rounds) => RoundsTellIff(req, rounds, 0);
    case Leader(outcome, rounds) => RoundsTellIff(req, rounds, 0);
  }

  lemma {:induction false} RoundsTellIff(req: PutRequest, rounds: seq<Round>, i: nat)
    requires i < ATTEMPTS
    ensures RoundsNotWasted(req, rounds, i) <==>
            RoundsCopies(req, rounds, i) == if RoundsStatus(req, rounds, i) == 200 then 1 else 0
    decreases rounds, ATTEMPTS - i
  {
    if i < ATTEMPTS - 1 {
      RoundsTellIff(req, rounds, i + 1);
      if RoundsStatus(req, rounds, i + 1) == 200 { RoundsOkMeansCommitted(req, rounds, i + 1); }
    }
    if i < |rounds| { PostsTellIff(req, rounds[i].posts, 0); }
  }

  lemma {:induction false} PostsTellIff(req: PutRequest, posts: seq<Post>, a: nat)
    requires a <= MAX_FORWARD_RETRIES
    ensures PostsNotWasted(req, posts, a) <==>
            PostsCopies(req, posts, a) == if PostsOk(req, posts, a) then 1 else 0
    decreases posts, MAX_FORWARD_RETRIES - a
  {
    if a < MAX_FORWARD_RETRIES && a < |posts| {
      PostTellsIff(req, posts[a]);
      PostsTellIff(req, posts, a + 1);
      if PostsOk(req, posts, a + 1) { PostsOkMeansCommitted(req, posts, a + 1); }
    }
  }

  lemma {:induction false} PostTellsIff(req: PutRequest, post: Post)
    ensures PostNotWasted(req, post) <==>
            CopiesOf(req, post) == if AnswerOf(req, post) == Reply(200) then 1 else 0
    decreases post, 0
  {
    if post.Delivered? {
      StatusTellsIff(req, post.there);
      PutNothingIff(req, post.there);
    }
  }

  /** When something is wasted, copies multiply: one lost reply, and the command is in the log twice
      although the client got its 200; with every reply lost it is there nine times, behind a 502. */
  lemma LostReplies(req: PutRequest)
    requires req.key != "" && req.idem != ""
    ensures var done := Leader(Committed, []);
            var once := Follower([Round("l", [Delivered(done, false), Delivered(done, true)])]);
            Status(req, once) == 200 && Copies(req, once) == 2
    ensures var lost := Delivered(Leader(Committed, []), false);
            var round := Round("l", [lost, lost, lost]);
            Status(req, Follower([round, round, round])) == 502 && Copies(req, Follower([round, round, round])) == 9
  {
    var done := Leader(Committed, []);
    var posts := [Delivered(done, false), Delivered(done, true)];
    assert Status(req, done) == 200 && Copies(req, done) == 1;
    assert PostsOk(req, posts, 1) && PostsCopies(req, posts, 1) == 1;
    assert PostsOk(req, posts, 0) && PostsCopies(req, posts, 0) == 2;
    assert RoundsStatus(req, [Round("l", posts)], 0) == 200 && RoundsCopies(req, [Round("l", posts)], 0) == 2;
    var lost := Delivered(done, false);
    var all := [lost, lost, lost];
    assert !PostsOk(req, all, 3) && PostsCopies(req, all, 3) == 0;
    assert !PostsOk(req, all, 2) && PostsCopies(req, all, 2) == 1;
    assert !PostsOk(req, all, 1) && PostsCopies(req, all, 1) == 2;
    var rounds := [Round("l", all), Round("l", all), Round("l", all)];
    assert RoundsStatus(req, rounds, 2) == 502 && RoundsCopies(req, rounds, 2) == 3;
    assert RoundsStatus(req, rounds, 1) == 502 && RoundsCopies(req, rounds, 1) == 6;
  }

  // ---------------------------------------------------------------- the code's loops

  /** The answer to the `a`-th POST to one address; a POST the network has no answer for is lost. */
  function AnswerAt(req: PutRequest, posts: seq<Post>, a: nat): Answer {
    if a < |posts| then AnswerOf(req, posts[a]) else ConnError
  }

  /** Does the request get past the checks, so that it is forwarded or submitted to raft? */
  predicate Accepted(req: PutRequest, x: Execution) {
    !x.Refused? && req.key != "" && req.idem != ""
  }

  class Server {
    const slots: nat
    const latency: Metrics.LatencyTracker
    var inUse: nat
    var forwards: nat
    var errors: nat

    constructor (slots: nat, latency: Metrics.LatencyTracker)
      ensures this.slots == slots && this.latency == latency && inUse == forwards == errors == 0
    {
      this.slots, this.latency, inUse, forwards, errors := slots, latency, 0, 0, 0;
    }

    /** forwardToLeader: up to three POSTs to one address, again only when the connection failed. */
    method ForwardToLeader(req: PutRequest, leader: string, posts: seq<Post>) returns (ok: bool, sent: nat)
      ensures ok <==> leader != "" && PostsOk(req, posts, 0)
      ensures leader == "" ==> sent == 0
      ensures leader != "" ==> 1 <= sent <= 3
      ensures forall a :: 0 <= a < sent - 1 && a < |posts| ==> posts[a] == Lost || !posts[a].replied
      ensures 0 < sent < 3 ==> sent <= |posts| && posts[sent - 1].Delivered? && posts[sent - 1].replied
      ensures ok <==> && 0 < sent <= |posts| && posts[sent - 1].Delivered? && posts[sent - 1].replied
                      && Status(req, posts[sent - 1].there) == 200
    {
      sent := 0;
      if leader == "" {
        return false, sent;
      }
      var attempt := 0;
      while attempt < MAX_FORWARD_RETRIES
        invariant attempt <= MAX_FORWARD_RETRIES && sent == attempt
        invariant PostsOk(req, posts, 0) <==> PostsOk(req, posts, attempt)
        invariant forall a :: 0 <= a < attempt && a < |posts| ==> posts[a] == Lost || !posts[a].replied
      {
        var answer := AnswerAt(req, posts, attempt);
        sent := sent + 1;
        if answer == ConnError {
          if attempt >= |posts| { NoMorePosts(req, posts, attempt); }
          attempt := attempt + 1;
          continue;
        }
        return answer.status == 200, sent;
      }
      ok := false;
    }

    /** forwardWithRetry: three rounds, each resolving the leader anew. */
    method ForwardWithRetry(req: PutRequest, rounds: seq<Round>) returns (status: nat, sent: nat)
      ensures status == RoundsStatus(req, rounds, 0)
      ensures status == 200 <==> SomeRoundOk(req, rounds)
      ensures status == 503 <==> !SomeRoundOk(req, rounds) && (|rounds| < 3 || rounds[2].leader == "")
      ensures status == 502 <==> !SomeRoundOk(req, rounds) && |rounds| >= 3 && rounds[2].leader != ""
      ensures sent <= ATTEMPTS * MAX_FORWARD_RETRIES
    {
      RoundsAnswer(req, rounds);
      sent := 0;
      var i := 0;
      while i < ATTEMPTS
        invariant i < ATTEMPTS
        invariant RoundsStatus(req, rounds, 0) == RoundsStatus(req, rounds, i)
        invariant sent <= i * MAX_FORWARD_RETRIES
      {
        var round := if i < |rounds| then rounds[i] else Round("", []);
        if round.leader == "" {
          if i < ATTEMPTS - 1 {
            i := i + 1;
            continue;
          }
          return 503, sent;
        }
        var ok, n := ForwardToLeader(req, round.leader, round.posts);
        sent := sent + n;
        if !ok {
          if i < ATTEMPTS - 1 {
            i := i + 1;
            continue;
          }
          return 502, sent;
        }
        return 200, sent;
      }
    }

    method ApplyAsLeader(req: PutRequest, outcome: Outcome, rounds: seq<Round>) returns (status: nat)
      requires req.key != "" && req.idem != ""
      modifies this`forwards, this`errors
      ensures status == Status(req, Leader(outcome, rounds))
      ensures outcome == Committed ==> status == 200
      ensures outcome.Failed? ==> status == 500
      ensures outcome == NotLeader ==> status == RoundsStatus(req, rounds, 0)
      ensures errors == old(errors) + if outcome.Failed? then 1 else 0
      ensures forwards == old(forwards) + if outcome == NotLeader then 1 else 0
    {
      match outcome {
        case Failed(_) =>
          errors := errors + 1;
          status := 500;
        case NotLeader =>
          forwards := forwards + 1;
          var s, _ := ForwardWithRetry(req, rounds);
          status := s;
        case Committed => status := 200;
      }
    }

    /** handlePut up to its deferred call: the slot it takes is given back on every path. */
    method Answer(req: PutRequest, x: Execution) returns (status: nat)
      requires x == Refused(MethodNotAllowed) || x == Refused(Overloaded) || inUse < slots
      modifies this`inUse, this`forwards, this`errors
      ensures status == Status(req, x)
      ensures x == Refused(MethodNotAllowed) ==> status == 405
      ensures x == Refused(Overloaded) ==> status == 503
      ensures x == Refused(Undecodable) || (!x.Refused? && (req.key == "" || req.idem == "")) ==> status == 400
      ensures Accepted(req, x) && x.Leader? && x.outcome == Committed ==> status == 200
      ensures Accepted(req, x) && x.Leader? && x.outcome.Failed? ==> status == 500
      ensures Accepted(req, x) && (x.Follower? || x.outcome == NotLeader) ==> status == RoundsStatus(req, x.rounds, 0)
      ensures inUse == old(inUse)
      ensures forwards == old(forwards) + if Accepted(req, x) && (x.Follower? || x.outcome == NotLeader) then 1 else 0
      ensures errors == old(errors) + if Accepted(req, x) && x.Leader? && x.outcome.Failed? then 1 else 0
    {
      if x == Refused(MethodNotAllowed) {
        return 405;
      }
      if x == Refused(Overloaded) {
        return 503;
      }
      inUse := inUse + 1;
      if x == Refused(Undecodable) || req.key == "" || req.idem == "" {
        status := 400;
      } else if x.Follower? {
        forwards := forwards + 1;
        var s, _ := ForwardWithRetry(req, x.rounds);
        status := s;
      } else {
        status := ApplyAsLeader(req, x.outcome, x.rounds);
      }
      inUse := inUse - 1;
    }

    /** handlePut: whatever the answer, the latency `ns` is recorded. */
    method HandlePut(req: PutRequest, x: Execution, ns: int) returns (status: nat)
      requires x == Refused(MethodNotAllowed) || x == Refused(Overloaded) || inUse < slots
      requires latency.Valid()
      modifies this, latency, latency.samples
      ensures status == Status(req, x) && inUse == old(inUse)
      ensures latency.Valid() && latency.history == old(latency.history) + [ns]
    {
      status := Answer(req, x);
      latency.Record(ns);
    }
  }

  lemma NoMorePosts(req: PutRequest, posts: seq<Post>, a: nat)
    requires |posts| <= a < MAX_FORWARD_RETRIES
    ensures PostsOk(req, posts, a) <==> PostsOk(req, posts, a + 1)
  {
  }
}
