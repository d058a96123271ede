/**
 * The same server with the bounded queues of its connections. A connection starts emptying its queue only after
 * its own greeting was put there, and every sender waits for room.
 */
module SignalingQueues {
  import opened Signaling
  import opened SignalingRuns

  const CAPACITY: nat := 4

  /** `queued` counts the notices that wait in the queue of each connection. */
  datatype Queued = Queued(state: State, queued: map<PeerId, nat>)

  const EMPTY := Queued(SignalingRuns.START, map[])

  datatype Move =
    | Plain(step: Step)                           // a step of the server; a notice goes into a queue
    | Other(to: PeerId)                           // an update, offer, answer or error goes into a queue
    | Drain(peer: PeerId)                         // the connection writes its first notice to the socket

  function Length(q: Queued, peer: PeerId): nat
  {
    if peer in q.queued then q.queued[peer] else 0
  }

  /** The queue of a connection that is over is closed: sending fails at once. */
  predicate Closed(q: Queued, peer: PeerId)
  {
    peer !in q.state.tasks || q.state.tasks[peer].Departing?
  }

  predicate Takes(q: Queued, peer: PeerId)
  {
    Closed(q, peer) || Length(q, peer) < CAPACITY
  }

  predicate IsGreeting(q: Queued, peer: PeerId)
  {
    peer in q.state.tasks && q.state.tasks[peer].Greeting?
  }

  predicate Possible(q: Queued, move: Move)
  {
    match move
    case Plain(step) =>
      && Enabled(q.state, step)
      && (step.TellJoin? || step.TellLeft? ==> Takes(q, step.to))
      && (step.Greet? ==> Takes(q, step.peer))
    case Other(to) => to in q.state.tasks && Takes(q, to)
    case Drain(peer) => peer in q.state.tasks && q.state.tasks[peer].Online? && Length(q, peer) > 0
  }

  function Added(q: Queued, to: PeerId): map<PeerId, nat>
  {
    if Closed(q, to) then q.queued else q.queued[to := Length(q, to) + 1]
  }

  function Moved(l: Limits, q: Queued, move: Move): Queued
    requires Possible(q, move)
  {
    match move
    case Plain(step) =>
      var queued := match step
        case TellJoin(_, to) => Added(q, to)
        case TellLeft(_, to) => Added(q, to)
        case Greet(peer) => Added(q, peer)
        case _ => q.queued;
      Queued(Next(l, q.state, step), queued)
    case Other(to) => q.(queued := Added(q, to))
    case Drain(peer) => q.(queued := q.queued[peer := Length(q, peer) - 1])
  }

  // ---- Runs ----

  predicate CanRun(l: Limits, q: Queued, run: seq<Move>)
    decreases |run|
  {
    run == [] || (Possible(q, run[0]) && CanRun(l, Moved(l, q, run[0]), run[1..]))
  }

  function Ran(l: Limits, q: Queued, run: seq<Move>): Queued
    requires CanRun(l, q, run)
    decreases |run|
  {
    if run == [] then q else Ran(l, Moved(l, q, run[0]), run[1..])
  }

  /** The steps of the server in a run with queues. */
  function Steps(run: seq<Move>): seq<Step>
  {
    if run == [] then [] else (if run[0].Plain? then [run[0].step] else []) + Steps(run[1..])
  }

  /** A run with queues is a run of the server, so whatever holds over those holds here. */
  lemma {:induction false} QueuesOnlyRestrict(l: Limits, q: Queued, run: seq<Move>)
    requires CanRun(l, q, run)
    ensures SignalingRuns.Possible(l, q.state, Steps(run))
    ensures After(l, q.state, Steps(run)) == Ran(l, q, run).state
    decreases |run|
  {
    hide Next, Enabled;
    if run != [] {
      QueuesOnlyRestrict(l, Moved(l, q, run[0]), run[1..]);
      if run[0].Plain? {
        assert Steps(run)[0] == run[0].step && Steps(run)[1..] == Steps(run[1..]);
      } else {
        assert Steps(run) == Steps(run[1..]);
      }
    }
  }

  // ---- A full queue before the greeting ----

  /** A connection that still greets, with a full queue. */
  predicate Stalled(q: Queued, peer: PeerId)
  {
    IsGreeting(q, peer) && Length(q, peer) >= CAPACITY
  }

  lemma StalledStays(l: Limits, q: Queued, move: Move, peer: PeerId)
    requires Possible(q, move) && Stalled(q, peer) && peer in q.state.members
    ensures Stalled(Moved(l, q, move), peer) && peer in Moved(l, q, move).state.members
  {
    if move.Plain? {
      MemberAfter(l, q.state, move.step, peer);
    }
  }

  /** Once stalled, a connection is never greeted, and whoever still has to tell it something waits for ever. */
  lemma {:induction false} StalledForever(l: Limits, q: Queued, run: seq<Move>, peer: PeerId)
    requires CanRun(l, q, run) && Stalled(q, peer) && peer in q.state.members
    ensures Stalled(Ran(l, q, run), peer) && !Takes(Ran(l, q, run), peer)
    decreases |run|
  {
    if run != [] {
      StalledStays(l, q, run[0], peer);
      hide Possible, Moved, Stalled;
      StalledForever(l, Moved(l, q, run[0]), run[1..], peer);
    }
  }

  /** The connection still has to tell `to` that its peer came or went. */
  predicate MustTell(q: Queued, peer: PeerId, to: PeerId)
  {
    && peer in q.state.tasks && !q.state.tasks[peer].Online?
    && to in q.state.tasks[peer].targets
  }

  /** Only telling `to` itself takes it from the targets. */
  lemma TargetStays(l: Limits, s: State, step: Step, peer: PeerId, to: PeerId)
    requires Enabled(s, step) && peer in s.members && peer in s.tasks && !s.tasks[peer].Online?
    requires to in s.tasks[peer].targets && !(step.TellJoin? && step.to == to) && !(step.TellLeft? && step.to == to)
    ensures var t := Next(l, s, step);
            peer in t.tasks && !t.tasks[peer].Online? && to in t.tasks[peer].targets
  {
    hide RoomOf, Counted, RoomLeft, MayJoin, WithoutPeer;
  }

  lemma MustTellStays(l: Limits, q: Queued, move: Move, peer: PeerId, to: PeerId)
    requires Possible(q, move) && MustTell(q, peer, to) && !Takes(q, to) && peer in q.state.members
    ensures MustTell(Moved(l, q, move), peer, to)
  {
    hide Next, Enabled, Takes, Added;
    if move.Plain? {
      TargetStays(l, q.state, move.step, peer, to);
    }
  }

  lemma {:induction false} MustTellForever(l: Limits, q: Queued, run: seq<Move>, peer: PeerId, to: PeerId)
    requires CanRun(l, q, run) && Stalled(q, to) && to in q.state.members
    requires MustTell(q, peer, to) && peer in q.state.members
    ensures MustTell(Ran(l, q, run), peer, to)
    decreases |run|
  {
    if run != [] {
      StalledStays(l, q, run[0], to);
      MustTellStays(l, q, run[0], peer, to);
      if run[0].Plain? {
        MemberAfter(l, q.state, run[0].step, peer);
      }
      hide Possible, Moved, Stalled, MustTell;
      MustTellForever(l, Moved(l, q, run[0]), run[1..], peer, to);
    }
  }

  // ---- Runs put together ----

  lemma {:induction false} RunsCompose(l: Limits, q: Queued, a: seq<Move>, b: seq<Move>)
    requires CanRun(l, q, a) && CanRun(l, Ran(l, q, a), b)
    ensures CanRun(l, q, a + b) && Ran(l, q, a + b) == Ran(l, Ran(l, q, a), b)
    decreases |a|
  {
    hide Possible, Moved;
    if a == [] {
      assert a + b == b;
    } else {
      assert (a + b)[0] == a[0] && (a + b)[1..] == a[1..] + b;
      RunsCompose(l, Moved(l, q, a[0]), a[1..], b);
    }
  }

  lemma OneMove(l: Limits, q: Queued, move: Move)
    requires Possible(q, move)
    ensures CanRun(l, q, [move]) && Ran(l, q, [move]) == Moved(l, q, move)
  {
    hide Possible, Moved;
    assert [move][1..] == [];
  }

  // ---- Invariant ----

  ghost predicate QueuesOk(q: Queued)
  {
    forall p :: Length(q, p) <= CAPACITY
  }

  lemma LengthAfter(l: Limits, q: Queued, move: Move, p: PeerId)
    requires Possible(q, move) && Length(q, p) <= CAPACITY
    ensures Length(Moved(l, q, move), p) <= CAPACITY
  {
    hide Next, Enabled;
  }

  lemma {:induction false} RunKeepsQueues(l: Limits, q: Queued, run: seq<Move>)
    requires CanRun(l, q, run) && QueuesOk(q)
    ensures QueuesOk(Ran(l, q, run))
    decreases |run|
  {
    if run != [] {
      forall p ensures Length(Moved(l, q, run[0]), p) <= CAPACITY {
        LengthAfter(l, q, run[0], p);
      }
      hide Possible, Moved;
      RunKeepsQueues(l, Moved(l, q, run[0]), run[1..]);
    }
  }

  /** No connection is asked to introduce its peer to itself. */
  lemma NotItsOwnTarget(l: Limits, s: State, peer: PeerId)
    requires Inv(l, s) && peer in s.tasks && s.tasks[peer].Greeting?
    ensures peer !in s.tasks[peer].targets
  {
    assert Introductions(s, peer, peer) == if Met(s, peer, peer) then 1 else 0;
  }

  // ---- When a greeting can finish ----

  /** Some continuation gets the peer its greeting. */
  ghost predicate CanBeGreeted(l: Limits, q: Queued, peer: PeerId)
  {
    exists run :: CanRun(l, q, run) && IsOnline(Ran(l, q, run), peer)
  }

  predicate IsOnline(q: Queued, peer: PeerId)
  {
    peer in q.state.tasks && q.state.tasks[peer].Online?
  }

  ghost predicate HasStalledTarget(q: Queued, peer: PeerId)
  {
    exists to :: MustTell(q, peer, to) && Stalled(q, to)
  }

  /** One more target is told, after the target made room if need be. */
  lemma TellOne(l: Limits, q: Queued, peer: PeerId, to: PeerId) returns (run: seq<Move>)
    requires QueuesOk(q) && IsGreeting(q, peer) && to in q.state.tasks[peer].targets && to != peer && !Stalled(q, to)
    ensures CanRun(l, q, run)
    ensures var t := Ran(l, q, run);
            && QueuesOk(t) && IsGreeting(t, peer)
            && t.state.tasks == q.state.tasks[peer := Greeting(q.state.tasks[peer].targets - {to})]
            && forall p :: p != to ==> Length(t, p) == Length(q, p)
  {
    var tell := Plain(TellJoin(peer, to));
    if Takes(q, to) {
      OneMove(l, q, tell);
      run := [tell];
    } else {
      assert Length(q, to) == CAPACITY;
      var drained := Moved(l, q, Drain(to));
      assert Takes(drained, to);
      OneMove(l, drained, tell);
      OneMove(l, q, Drain(to));
      RunsCompose(l, q, [Drain(to)], [tell]);
      run := [Drain(to)] + [tell];
    }
    RunKeepsQueues(l, q, run);
  }

  lemma {:induction false} WayToGreet(l: Limits, q: Queued, peer: PeerId) returns (run: seq<Move>)
    requires QueuesOk(q) && IsGreeting(q, peer) && !Stalled(q, peer) && peer !in q.state.tasks[peer].targets
    requires !HasStalledTarget(q, peer)
    ensures CanRun(l, q, run) && IsOnline(Ran(l, q, run), peer)
    decreases |q.state.tasks[peer].targets|
  {
    var targets := q.state.tasks[peer].targets;
    if targets == {} {
      var greet := Plain(Greet(peer));
      OneMove(l, q, greet);
      run := [greet];
    } else {
      var to :| to in targets;
      assert MustTell(q, peer, to);
      var first := TellOne(l, q, peer, to);
      var t := Ran(l, q, first);
      assert t.state.tasks[peer].targets == targets - {to} && |targets - {to}| < |targets|;
      forall other | MustTell(t, peer, other) ensures !Stalled(t, other) {
        assert other in targets && other != to && other != peer;
        assert MustTell(q, peer, other) && Length(t, other) == Length(q, other);
      }
      var rest := WayToGreet(l, t, peer);
      RunsCompose(l, q, first, rest);
      run := first + rest;
    }
  }

  /**
   * In every run: a connection that still greets can come to its own greeting if and only if neither its own
   * queue is full nor that of a connection it has to tell that still greets as well.
   */
  lemma GreetedUnlessStalled(l: Limits, run: seq<Move>, peer: PeerId)
    requires CanRun(l, EMPTY, run) && IsGreeting(Ran(l, EMPTY, run), peer)
    ensures var q := Ran(l, EMPTY, run);
            CanBeGreeted(l, q, peer) <==> !Stalled(q, peer) && !HasStalledTarget(q, peer)
  {
    var q := Ran(l, EMPTY, run);
    QueuesOnlyRestrict(l, EMPTY, run);
    SignalingRuns.RunKeepsInv(l, EMPTY.state, Steps(run));
    RunKeepsQueues(l, EMPTY, run);
    NotItsOwnTarget(l, q.state, peer);
    assert q.state.tasks.Keys == q.state.members.Keys;
    hide Inv, QueuesOk, CanRun, Ran, Stalled, HasStalledTarget;
    if !Stalled(q, peer) && !HasStalledTarget(q, peer) {
      var later := WayToGreet(l, q, peer);
    } else {
      forall later | CanRun(l, q, later) ensures !IsOnline(Ran(l, q, later), peer) {
        NeverGreeted(l, q, later, peer);
      }
    }
  }

  lemma NeverGreeted(l: Limits, q: Queued, later: seq<Move>, peer: PeerId)
    requires CanRun(l, q, later) && q.state.tasks.Keys == q.state.members.Keys && IsGreeting(q, peer)
    requires Stalled(q, peer) || HasStalledTarget(q, peer)
    ensures !IsOnline(Ran(l, q, later), peer)
  {
    if Stalled(q, peer) {
      StalledForever(l, q, later, peer);
    } else {
      var to :| MustTell(q, peer, to) && Stalled(q, to);
      MustTellForever(l, q, later, peer, to);
    }
  }

  /** A stalled peer keeps its place in the room for ever. */
  lemma StalledKeepsItsPlace(l: Limits, run: seq<Move>, later: seq<Move>, peer: PeerId)
    requires CanRun(l, EMPTY, run) && CanRun(l, Ran(l, EMPTY, run), later) && Stalled(Ran(l, EMPTY, run), peer)
    ensures var q := Ran(l, Ran(l, EMPTY, run), later);
            && Stalled(q, peer) && !Takes(q, peer)
            && peer in q.state.members && peer in RoomOf(q.state.rooms, q.state.members[peer].group)
  {
    RunsCompose(l, EMPTY, run, later);
    QueuesOnlyRestrict(l, EMPTY, run);
    QueuesOnlyRestrict(l, EMPTY, run + later);
    SignalingRuns.RunKeepsInv(l, EMPTY.state, Steps(run));
    SignalingRuns.RunKeepsInv(l, EMPTY.state, Steps(run + later));
    hide *;
    var q := Ran(l, EMPTY, run);
    StalledIsPresent(l, q, peer);
    StalledForever(l, q, later, peer);
    StalledIsPresent(l, Ran(l, q, later), peer);
  }

  lemma StalledIsPresent(l: Limits, q: Queued, peer: PeerId)
    requires Inv(l, q.state) && Stalled(q, peer)
    ensures peer in q.state.members && peer in RoomOf(q.state.rooms, q.state.members[peer].group)
  {
    assert q.state.tasks.Keys == q.state.members.Keys;
    assert Present(q.state, q.state.members[peer].group, peer);
  }

  // ---- A run that stalls ----

  /** The peers 0 to `n` connect to one room; all but the first tell it so before it is greeted. */
  function Arrivals(n: nat): seq<Move>
  {
    if n == 0 then [Plain(Connect(0, 0, 0))]
    else Arrivals(n - 1) + [Plain(Connect(n, 0, 0)), Plain(TellJoin(n, 0))]
  }

  /** Peer 0 still greets, with `n` notices in its queue. */
  predicate Filling(q: Queued, n: nat)
  {
    && 0 in q.state.tasks && q.state.tasks[0] == Greeting({}) && Length(q, 0) == n
    && 0 in RoomOf(q.state.rooms, 0) && |RoomOf(q.state.rooms, 0)| <= n + 1 && CountOf(q.state.counts, 0) <= n + 1
    && 0 in q.state.members && forall p <- q.state.members :: p <= n
  }

  lemma OneArrival(l: Limits, q: Queued, n: nat)
    requires n + 1 < l.maxConnections && n + 1 < l.maxRequests && n < CAPACITY && Filling(q, n)
    ensures Possible(q, Plain(Connect(n + 1, 0, 0)))
    ensures var t := Moved(l, q, Plain(Connect(n + 1, 0, 0)));
            Possible(t, Plain(TellJoin(n + 1, 0))) && Filling(Moved(l, t, Plain(TellJoin(n + 1, 0))), n + 1)
  {
    var t := Moved(l, q, Plain(Connect(n + 1, 0, 0)));
    assert RoomOf(t.state.rooms, 0).Keys == RoomOf(q.state.rooms, 0).Keys + {n + 1};
  }

  lemma FirstArrival(l: Limits)
    requires 0 < l.maxConnections && 0 < l.maxRequests
    ensures Possible(EMPTY, Plain(Connect(0, 0, 0))) && Filling(Moved(l, EMPTY, Plain(Connect(0, 0, 0))), 0)
  {
    var step := Connect(0, 0, 0);
    assert RoomOf(EMPTY.state.rooms, 0) == map[] && MayJoin(l, EMPTY.state.rooms, EMPTY.state.counts, 0);
    var s := Next(l, EMPTY.state, step);
    assert s.rooms == map[0 := map[0 := 0]] && s.tasks == map[0 := Greeting({})];
    assert s.counts == map[0 := 1] && s.members.Keys == {0};
    hide Next, Counted;
  }

  lemma TwoMoves(l: Limits, q: Queued, first: Move, second: Move)
    requires Possible(q, first) && Possible(Moved(l, q, first), second)
    ensures CanRun(l, q, [first, second])
    ensures Ran(l, q, [first, second]) == Moved(l, Moved(l, q, first), second)
  {
    hide Possible, Moved;
    OneMove(l, q, first);
    OneMove(l, Moved(l, q, first), second);
    RunsCompose(l, q, [first], [second]);
    assert [first] + [second] == [first, second];
  }

  lemma OneMoreArrives(l: Limits, run: seq<Move>, n: nat)
    requires n + 1 < l.maxConnections && n + 1 < l.maxRequests && n < CAPACITY
    requires CanRun(l, EMPTY, run) && Filling(Ran(l, EMPTY, run), n)
    ensures var more := run + [Plain(Connect(n + 1, 0, 0)), Plain(TellJoin(n + 1, 0))];
            CanRun(l, EMPTY, more) && Filling(Ran(l, EMPTY, more), n + 1)
  {
    hide *;
    var q := Ran(l, EMPTY, run);
    OneArrival(l, q, n);
    TwoMoves(l, q, Plain(Connect(n + 1, 0, 0)), Plain(TellJoin(n + 1, 0)));
    RunsCompose(l, EMPTY, run, [Plain(Connect(n + 1, 0, 0)), Plain(TellJoin(n + 1, 0))]);
  }

  lemma {:induction false} ArrivalsFill(l: Limits, n: nat)
    requires n < l.maxConnections && n < l.maxRequests && n <= CAPACITY
    ensures CanRun(l, EMPTY, Arrivals(n)) && Filling(Ran(l, EMPTY, Arrivals(n)), n)
  {
    hide Possible, Moved, Filling, CanRun, Ran;
    if n == 0 {
      FirstArrival(l);
      OneMove(l, EMPTY, Plain(Connect(0, 0, 0)));
    } else {
      ArrivalsFill(l, n - 1);
      OneMoreArrives(l, Arrivals(n - 1), n - 1);
    }
  }

  /** Four arrivals before the greeting are enough, under any limits that let five peers in. */
  lemma FourArrivalsStall(l: Limits)
    requires l.maxConnections >= 5 && l.maxRequests >= 5
    ensures CanRun(l, EMPTY, Arrivals(4)) && Stalled(Ran(l, EMPTY, Arrivals(4)), 0)
  {
    ArrivalsFill(l, 4);
  }
}
