/** What a run of the signaling server tells: how many requests of a group passed, and what peers say of themselves. */
module SignalingHistory {
  import opened Signaling
  import opened SignalingRuns

  // ---- States along a run ----

  function StateAt(l: Limits, s: State, run: seq<Step>, i: nat): State
    requires Possible(l, s, run) && i <= |run|
    decreases i
  {
    if i == 0 then s else StateAt(l, Next(l, s, run[0]), run[1..], i - 1)
  }

  lemma {:induction false} StepAt(l: Limits, s: State, run: seq<Step>, i: nat)
    requires Possible(l, s, run) && i < |run|
    ensures Enabled(StateAt(l, s, run, i), run[i])
    ensures StateAt(l, s, run, i + 1) == Next(l, StateAt(l, s, run, i), run[i])
    decreases i
  {
    hide Next, Enabled;
    if i > 0 {
      StepAt(l, Next(l, s, run[0]), run[1..], i - 1);
    } else {
      assert StateAt(l, Next(l, s, run[0]), run[1..], 0) == Next(l, s, run[0]);
    }
  }

  lemma {:induction false} StateAtEnd(l: Limits, s: State, run: seq<Step>)
    requires Possible(l, s, run)
    ensures StateAt(l, s, run, |run|) == After(l, s, run)
    decreases |run|
  {
    hide Next, Enabled;
    if run != [] {
      StateAtEnd(l, Next(l, s, run[0]), run[1..]);
    }
  }

  /** The state before step `i` of a run from the start. */
  function Before(l: Limits, run: seq<Step>, i: nat): State
    requires Possible(l, START, run) && i <= |run|
  {
    StateAt(l, START, run, i)
  }

  lemma StepBefore(l: Limits, run: seq<Step>, i: nat)
    requires Possible(l, START, run) && i < |run|
    ensures Enabled(Before(l, run, i), run[i]) && Before(l, run, i + 1) == Next(l, Before(l, run, i), run[i])
  {
    hide StateAt, Possible, Next, Enabled;
    StepAt(l, START, run, i);
  }

  lemma StartAndEnd(l: Limits, run: seq<Step>)
    requires Possible(l, START, run)
    ensures Before(l, run, 0) == START && Before(l, run, |run|) == After(l, START, run)
  {
    hide Possible, After;
    StateAtEnd(l, START, run);
  }

  lemma {:induction false} InvAt(l: Limits, run: seq<Step>, i: nat)
    requires Possible(l, START, run) && i <= |run|
    ensures Inv(l, Before(l, run, i))
    decreases i
  {
    hide *;
    if i == 0 {
      StartAndEnd(l, run);
      InvStart(l);
    } else {
      InvAt(l, run, i - 1);
      StepBefore(l, run, i - 1);
      InvStep(l, Before(l, run, i - 1), run[i - 1]);
    }
  }

  lemma InvStart(l: Limits)
    ensures Inv(l, START)
  {
  }

  // ---- Requests ----

  /** The step asks for a request of the group to be let pass. */
  predicate Asks(l: Limits, s: State, step: Step, g: Group)
  {
    step == CountRequest(g) || (step.Connect? && step.group == g && |RoomOf(s.rooms, g)| < l.maxConnections)
  }

  /** Requests of the group among the first `i` steps, since the counts were last reset. */
  function Asked(l: Limits, run: seq<Step>, i: nat, g: Group): nat
    requires Possible(l, START, run) && i <= |run|
    decreases i
  {
    if i == 0 || run[i - 1].ResetCounts? then 0
    else Asked(l, run, i - 1, g) + if Asks(l, Before(l, run, i - 1), run[i - 1], g) then 1 else 0
  }

  function Least(a: nat, b: nat): nat
  {
    if a < b then a else b
  }

  lemma CountNext(l: Limits, s: State, step: Step, g: Group)
    requires Enabled(s, step)
    ensures CountOf(Next(l, s, step).counts, g)
         == if step.ResetCounts? then 0
            else if Asks(l, s, step, g) then Least(CountOf(s.counts, g) + 1, Largest(l, s, g))
            else CountOf(s.counts, g)
  {
    hide WithoutPeer;
  }

  /** A count that is over the limit stays where it is. */
  function Largest(l: Limits, s: State, g: Group): nat
  {
    if CountOf(s.counts, g) > l.maxRequests then CountOf(s.counts, g) else l.maxRequests
  }

  lemma {:induction false} CountIsAsked(l: Limits, run: seq<Step>, i: nat, g: Group)
    requires Possible(l, START, run) && i <= |run|
    ensures CountOf(Before(l, run, i).counts, g) == Least(Asked(l, run, i, g), l.maxRequests)
    decreases i
  {
    hide Possible, Before, Next, Enabled, Asks, CountOf;
    if i == 0 {
      StartAndEnd(l, run);
      NothingCounted(g);
    } else {
      StepBefore(l, run, i - 1);
      CountIsAsked(l, run, i - 1, g);
      CountNext(l, Before(l, run, i - 1), run[i - 1], g);
    }
  }

  lemma NothingCounted(g: Group)
    ensures CountOf(START.counts, g) == 0
  {
  }

  /** Those of the room at the end of the run. */
  function Presence(s: State, g: Group): set<PeerId>
  {
    set a | a in s.members && Present(s, g, a)
  }

  lemma RoomSize(l: Limits, s: State, g: Group)
    requires Inv(l, s)
    ensures RoomOf(s.rooms, g).Keys == Presence(s, g) && |RoomOf(s.rooms, g)| == |Presence(s, g)|
  {
    hide JoinsMatch, LeavesMatch, GreetingsMatch, TimesDiffer, HellosMatch, TasksMatch, LimitsKept, RoomOf;
    assert forall a :: a in RoomOf(s.rooms, g) <==> Present(s, g, a);
    SizeOfKeys(RoomOf(s.rooms, g));
  }

  lemma {:induction false} SizeOfKeys(room: Room)
    ensures |room| == |room.Keys|
    decreases |room|
  {
    if room != map[] {
      var a :| a in room;
      var rest := room - {a};
      SizeOfKeys(rest);
      assert rest.Keys == room.Keys - {a};
      assert room == rest[a := room[a]];
    }
  }

  /**
   * In every run: a new peer is let in if and only if its room has fewer peers than the limit and fewer requests
   * of its group than the limit were made since the last reset. So the first `maxRequests` of them pass and no
   * more.
   */
  lemma LetInWithinLimits(l: Limits, run: seq<Step>, peer: PeerId, g: Group, info: Info)
    requires Possible(l, START, run) && peer !in After(l, START, run).members
    ensures var s := After(l, START, run);
            && Enabled(s, Connect(peer, g, info))
            && (peer in Next(l, s, Connect(peer, g, info)).members
                <==> |Presence(s, g)| < l.maxConnections && Asked(l, run, |run|, g) < l.maxRequests)
            && CountOf(s.counts, g) == Least(Asked(l, run, |run|, g), l.maxRequests)
  {
    var s := After(l, START, run);
    StartAndEnd(l, run);
    InvAt(l, run, |run|);
    CountIsAsked(l, run, |run|, g);
    RoomSize(l, s, g);
    hide Possible, After, Before, Asked, Inv, Presence;
    JoinsIfAllowed(l, s, peer, g, info);
  }

  lemma JoinsIfAllowed(l: Limits, s: State, peer: PeerId, g: Group, info: Info)
    requires peer !in s.members
    ensures Enabled(s, Connect(peer, g, info))
    ensures peer in Next(l, s, Connect(peer, g, info)).members
       <==> |RoomOf(s.rooms, g)| < l.maxConnections && CountOf(s.counts, g) < l.maxRequests
  {
    hide RoomOf, CountOf, Counted;
  }

  // ---- What peers say of themselves ----

  /** What the peer last said of itself among the first `i` steps. */
  function Latest(l: Limits, run: seq<Step>, i: nat, a: PeerId): Info
    requires Possible(l, START, run) && i <= |run|
    decreases i
  {
    if i == 0 then 0
    else
      match run[i - 1]
      case Connect(peer, _, info) => if peer == a then info else Latest(l, run, i - 1, a)
      case UpdateInfo(peer, info) => if peer == a then info else Latest(l, run, i - 1, a)
      case _ => Latest(l, run, i - 1, a)
  }

  /** What the step says of the peer, if anything. */
  function Said(step: Step, a: PeerId, before: Info): Info
  {
    match step
    case Connect(peer, _, info) => if peer == a then info else before
    case UpdateInfo(peer, info) => if peer == a then info else before
    case _ => before
  }

  lemma LatestNext(l: Limits, run: seq<Step>, i: nat, a: PeerId)
    requires Possible(l, START, run) && i < |run|
    ensures Latest(l, run, i + 1, a) == Said(run[i], a, Latest(l, run, i, a))
  {
    hide Possible;
  }

  /** The room of a peer that is there shows what it last said. */
  predicate Shows(s: State, a: PeerId, info: Info)
    requires a in s.members
  {
    var room := RoomOf(s.rooms, s.members[a].group);
    s.members[a].left.None? ==> a in room && room[a] == info
  }

  lemma ShowsNext(l: Limits, s: State, step: Step, a: PeerId, info: Info)
    requires RoomsMatch(s) && TasksMatch(s) && Enabled(s, step)
    requires a in s.members ==> Shows(s, a, info)
    ensures var t := Next(l, s, step);
            a in t.members ==> Shows(t, a, Said(step, a, info))
  {
    hide Counted, CountOf;
    if step.Disconnect? {
      var group := if a in s.members then s.members[a].group else 0;
      RoomAfterRemoval(s.rooms, s.members[step.peer].group, step.peer, group);
      hide WithoutPeer;
    }
    if step.UpdateInfo? && a in s.members && s.members[a].left.None? {
      assert Present(s, s.members[a].group, a);
    }
    hide RoomsMatch, TasksMatch;
  }

  lemma {:induction false} RoomShowsLatest(l: Limits, run: seq<Step>, i: nat, a: PeerId)
    requires Possible(l, START, run) && i <= |run|
    ensures a in Before(l, run, i).members ==> Shows(Before(l, run, i), a, Latest(l, run, i, a))
    decreases i
  {
    hide *;
    if i == 0 {
      StartAndEnd(l, run);
      NobodyAtStart(a);
    } else {
      RoomShowsLatest(l, run, i - 1, a);
      StepBefore(l, run, i - 1);
      InvAt(l, run, i - 1);
      RoomsAndTasks(l, Before(l, run, i - 1));
      ShowsNext(l, Before(l, run, i - 1), run[i - 1], a, Latest(l, run, i - 1, a));
      LatestNext(l, run, i - 1, a);
    }
  }

  lemma NobodyAtStart(a: PeerId)
    ensures a !in START.members
  {
  }

  lemma RoomsAndTasks(l: Limits, s: State)
    requires Inv(l, s)
    ensures RoomsMatch(s) && TasksMatch(s)
  {
  }

  /**
   * In every run: the greeting of a peer that is let in lists exactly the peers that are there at that moment,
   * each with what it last said of itself.
   */
  lemma GreetingIsCurrent(l: Limits, run: seq<Step>, b: PeerId, g: Group, info: Info)
    requires Possible(l, START, run) && b !in After(l, START, run).members
    requires b in Next(l, After(l, START, run), Connect(b, g, info)).members
    ensures var s := After(l, START, run);
            var t := Next(l, s, Connect(b, g, info));
            && t.members[b].info == info
            && t.members[b].hello.Keys == Presence(s, g)
            && forall a <- t.members[b].hello :: t.members[b].hello[a] == Latest(l, run, |run|, a)
  {
    var s := After(l, START, run);
    StartAndEnd(l, run);
    InvAt(l, run, |run|);
    RoomSize(l, s, g);
    HelloIsRoom(l, s, b, g, info);
    forall a | a in RoomOf(s.rooms, g) ensures RoomOf(s.rooms, g)[a] == Latest(l, run, |run|, a) {
      RoomShowsLatest(l, run, |run|, a);
      assert a in Presence(s, g);
    }
    hide Possible, After, Before, Latest, Inv, Next, Enabled, Presence;
  }

  lemma HelloIsRoom(l: Limits, s: State, b: PeerId, g: Group, info: Info)
    requires b !in s.members && b in Next(l, s, Connect(b, g, info)).members
    ensures Next(l, s, Connect(b, g, info)).members[b].hello == RoomOf(s.rooms, g)
    ensures Next(l, s, Connect(b, g, info)).members[b].info == info
  {
    hide RoomOf, CountOf, Counted, RoomLeft;
  }
}
