/** Peers come and go at any time: what the others are told over every interleaving. */
module SignalingRuns {
  import opened Bytes
  import opened Signaling

  datatype Notice =
    | Hello(peers: Room)
    | Join(peer: PeerId, info: Info)
    | Left(peer: PeerId)

  datatype Delivery = Delivery(to: PeerId, notice: Notice)

  /** The task of a connection, from its admission on. */
  datatype Task =
    | Greeting(targets: set<PeerId>)              // introduces the peer to the others, then greets it
    | Online
    | Departing(targets: set<PeerId>)             // out of the room, tells those that remained

  /** History of an admitted peer: when it came and went, and whom it was told about. */
  datatype Member = Member(group: Group, info: Info, joined: nat, left: Option<nat>, hello: Room)

  datatype State = State(
    rooms: map<Group, Room>,
    counts: map<Group, nat>,
    tasks: map<PeerId, Task>,
    sent: multiset<Delivery>,                     // history
    members: map<PeerId, Member>,                 // history
    clock: nat)                                   // history

  const START := State(map[], map[], map[], multiset{}, map[], 0)

  datatype Step =
    | Connect(peer: PeerId, group: Group, info: Info)
    | TellJoin(peer: PeerId, to: PeerId)
    | Greet(peer: PeerId)
    | UpdateInfo(peer: PeerId, info: Info)
    | Disconnect(peer: PeerId)
    | TellLeft(peer: PeerId, to: PeerId)
    | CountRequest(group: Group)
    | ResetCounts

  predicate Enabled(s: State, step: Step)
  {
    match step
    case Connect(peer, _, _) => peer !in s.members
    case TellJoin(peer, to) => peer in s.tasks && s.tasks[peer].Greeting? && to in s.tasks[peer].targets
    case Greet(peer) => peer in s.tasks && s.tasks[peer] == Greeting({})
    case UpdateInfo(peer, _) => peer in s.tasks && !s.tasks[peer].Greeting? && peer in s.members
    case Disconnect(peer) => peer in s.tasks && s.tasks[peer].Online? && peer in s.members
    case TellLeft(peer, to) => peer in s.tasks && s.tasks[peer].Departing? && to in s.tasks[peer].targets
    case CountRequest(_) => true
    case ResetCounts => true
  }

  function Next(l: Limits, s: State, step: Step): State
    requires Enabled(s, step)
  {
    match step
    case Connect(peer, g, info) =>
      var room := RoomOf(s.rooms, g);
      var counts := if RoomLeft(l, s.rooms, g) then Counted(l, s.counts, g) else s.counts;
      if !MayJoin(l, s.rooms, s.counts, g) then s.(rooms := s.rooms[g := room], counts := counts)
      else
        s.(rooms := s.rooms[g := room[peer := info]], counts := counts,
           tasks := s.tasks[peer := Greeting(room.Keys)],
           members := s.members[peer := Member(g, info, s.clock, None, room)], clock := s.clock + 1)
    case TellJoin(peer, to) =>
      s.(tasks := s.tasks[peer := Greeting(s.tasks[peer].targets - {to})],
         sent := s.sent + multiset{Delivery(to, Join(peer, if peer in s.members then s.members[peer].info else 0))})
    case Greet(peer) =>
      s.(tasks := s.tasks[peer := Online],
         sent := s.sent + multiset{Delivery(peer, Hello(if peer in s.members then s.members[peer].hello else map[]))})
    case UpdateInfo(peer, info) =>
      var g := s.members[peer].group;
      if peer in RoomOf(s.rooms, g) then s.(rooms := s.rooms[g := RoomOf(s.rooms, g)[peer := info]]) else s
    case Disconnect(peer) =>
      var m := s.members[peer];
      s.(rooms := WithoutPeer(s.rooms, m.group, peer),
         tasks := s.tasks[peer := Departing(RoomOf(s.rooms, m.group).Keys - {peer})],
         members := s.members[peer := m.(left := Some(s.clock))], clock := s.clock + 1)
    case TellLeft(peer, to) =>
      s.(tasks := s.tasks[peer := Departing(s.tasks[peer].targets - {to})],
         sent := s.sent + multiset{Delivery(to, Left(peer))})
    case CountRequest(g) => s.(counts := Counted(l, s.counts, g))
    case ResetCounts => s.(counts := map[])
  }

  // ---- Who knows whom ----

  predicate Together(s: State, a: PeerId, b: PeerId)
  {
    a in s.members && b in s.members && a != b && s.members[a].group == s.members[b].group
  }

  /** `a` was in the room when `b` came. */
  predicate Met(s: State, a: PeerId, b: PeerId)
  {
    && Together(s, a, b) && s.members[a].joined < s.members[b].joined
    && (s.members[a].left.Some? ==> s.members[b].joined < s.members[a].left.value)
  }

  /** `a` was still in the room when `b` went. */
  predicate Stayed(s: State, a: PeerId, b: PeerId)
  {
    && Together(s, a, b) && s.members[b].left.Some? && s.members[a].joined < s.members[b].left.value
    && (s.members[a].left.Some? ==> s.members[b].left.value < s.members[a].left.value)
  }

  /** Both were in the room at some moment. */
  predicate Overlap(s: State, a: PeerId, b: PeerId)
  {
    && Together(s, a, b)
    && (s.members[b].left.Some? ==> s.members[a].joined < s.members[b].left.value)
    && (s.members[a].left.Some? ==> s.members[b].joined < s.members[a].left.value)
  }

  /** The introduction of `b` to `a`, sent or about to be sent. */
  function Introductions(s: State, a: PeerId, b: PeerId): nat
  {
    (if b in s.members then s.sent[Delivery(a, Join(b, s.members[b].info))] else 0)
    + (if b in s.tasks && s.tasks[b].Greeting? && a in s.tasks[b].targets then 1 else 0)
  }

  function Farewells(s: State, a: PeerId, b: PeerId): nat
  {
    s.sent[Delivery(a, Left(b))]
    + (if b in s.tasks && s.tasks[b].Departing? && a in s.tasks[b].targets then 1 else 0)
  }

  /** A peer is greeted once, when everybody was told. */
  function Greetings(s: State, a: PeerId, peers: Room): nat
  {
    if a in s.members && a in s.tasks && peers == s.members[a].hello && !s.tasks[a].Greeting? then 1 else 0
  }

  // ---- Invariant ----

  predicate Present(s: State, g: Group, a: PeerId)
  {
    a in s.members && s.members[a].group == g && s.members[a].left.None?
  }

  ghost predicate RoomsMatch(s: State)
  {
    forall g, a :: a in RoomOf(s.rooms, g) <==> Present(s, g, a)
  }

  ghost predicate TasksMatch(s: State)
  {
    && s.tasks.Keys == s.members.Keys
    && forall a <- s.tasks :: s.tasks[a].Departing? <==> s.members[a].left.Some?
  }

  predicate Times(m: Member, clock: nat)
  {
    m.joined < clock && (m.left.Some? ==> m.joined < m.left.value < clock)
  }

  ghost predicate TimesDiffer(s: State)
  {
    && (forall a <- s.members :: Times(s.members[a], s.clock))
    && (forall a, b :: a in s.members && b in s.members && a != b ==> s.members[a].joined != s.members[b].joined)
    && (forall a, b :: a in s.members && b in s.members && s.members[b].left.Some? ==>
          s.members[a].joined != s.members[b].left.value
          && (a != b && s.members[a].left.Some? ==> s.members[a].left != s.members[b].left))
  }

  ghost predicate HellosMatch(s: State)
  {
    forall b <- s.members :: forall a :: a in s.members[b].hello <==> Met(s, a, b)
  }

  ghost predicate JoinsMatch(s: State)
  {
    && (forall a, b :: Introductions(s, a, b) == if Met(s, a, b) then 1 else 0)
    && (forall d <- s.sent :: d.notice.Join? ==>
          d.notice.peer in s.members && d.notice.info == s.members[d.notice.peer].info)
  }

  ghost predicate LeavesMatch(s: State)
  {
    forall a, b :: Farewells(s, a, b) == if Stayed(s, a, b) then 1 else 0
  }

  ghost predicate GreetingsMatch(s: State)
  {
    forall a, peers :: s.sent[Delivery(a, Hello(peers))] == Greetings(s, a, peers)
  }

  ghost predicate LimitsKept(l: Limits, s: State)
  {
    && (forall g :: |RoomOf(s.rooms, g)| <= l.maxConnections)
    && (forall g :: CountOf(s.counts, g) <= l.maxRequests)
  }

  ghost predicate Inv(l: Limits, s: State)
  {
    && RoomsMatch(s) && TasksMatch(s) && TimesDiffer(s) && HellosMatch(s) && JoinsMatch(s) && LeavesMatch(s)
    && GreetingsMatch(s) && LimitsKept(l, s)
  }

  // ---- Every step keeps it ----

  /** The peer of a successful connect. */
  predicate Enters(l: Limits, s: State, step: Step)
  {
    step.Connect? && MayJoin(l, s.rooms, s.counts, step.group)
  }

  lemma RoomAfterRemoval(rooms: map<Group, Room>, g: Group, peer: PeerId, h: Group)
    ensures RoomOf(WithoutPeer(rooms, g, peer), h) == if h == g then RoomOf(rooms, g) - {peer} else RoomOf(rooms, h)
  {
  }

  lemma RoomAfter(l: Limits, s: State, step: Step, g: Group, a: PeerId)
    requires RoomsMatch(s) && TasksMatch(s) && Enabled(s, step)
    ensures a in RoomOf(Next(l, s, step).rooms, g) <==> Present(Next(l, s, step), g, a)
  {
    var t := Next(l, s, step);
    assert a in RoomOf(s.rooms, g) <==> Present(s, g, a);
    if step.Connect? {
      assert a in RoomOf(s.rooms, step.group) <==> Present(s, step.group, a);
      hide RoomsMatch, TasksMatch;
    } else if step.Disconnect? {
      RoomAfterRemoval(s.rooms, s.members[step.peer].group, step.peer, g);
      hide RoomsMatch, TasksMatch, WithoutPeer;
    } else {
      hide RoomsMatch, TasksMatch;
      assert t.members == s.members;
    }
  }

  lemma RoomsMatchStep(l: Limits, s: State, step: Step)
    requires RoomsMatch(s) && TasksMatch(s) && Enabled(s, step)
    ensures RoomsMatch(Next(l, s, step))
  {
    forall g, a ensures a in RoomOf(Next(l, s, step).rooms, g) <==> Present(Next(l, s, step), g, a) {
      RoomAfter(l, s, step, g, a);
    }
  }

  lemma TasksMatchStep(l: Limits, s: State, step: Step)
    requires TasksMatch(s) && Enabled(s, step)
    ensures TasksMatch(Next(l, s, step))
  {
    hide RoomOf, RoomLeft, Counted, WithoutPeer;
    var t := Next(l, s, step);
    forall a | a in t.tasks ensures a in t.members && (t.tasks[a].Departing? <==> t.members[a].left.Some?) {
      assert a in s.tasks ==> (s.tasks[a].Departing? <==> s.members[a].left.Some?);
    }
  }

  /** Only the clock's value becomes the time of something. */
  lemma MemberAfter(l: Limits, s: State, step: Step, a: PeerId)
    requires Enabled(s, step)
    ensures var t := Next(l, s, step);
            && s.clock <= t.clock && (a in s.members ==> a in t.members)
            && (a in s.members && !(step.Disconnect? && step.peer == a) ==> t.members[a] == s.members[a])
            && (step.Disconnect? && step.peer == a ==> t.members[a] == s.members[a].(left := Some(s.clock)))
            && (a in t.members && a !in s.members ==>
                  Enters(l, s, step) && step.peer == a
                  && t.members[a] == Member(step.group, step.info, s.clock, None, RoomOf(s.rooms, step.group)))
            && (Enters(l, s, step) || step.Disconnect? ==> t.clock == s.clock + 1)
  {
  }

  lemma TimesDifferStep(l: Limits, s: State, step: Step)
    requires TasksMatch(s) && TimesDiffer(s) && Enabled(s, step)
    ensures TimesDiffer(Next(l, s, step))
  {
    var t := Next(l, s, step);
    forall a ensures a in t.members ==> Times(t.members[a], t.clock) {
      MemberAfter(l, s, step, a);
    }
    forall a, b | a in t.members && b in t.members
      ensures a != b ==> t.members[a].joined != t.members[b].joined
      ensures t.members[b].left.Some? ==>
                t.members[a].joined != t.members[b].left.value
                && (a != b && t.members[a].left.Some? ==> t.members[a].left != t.members[b].left)
    {
      MemberAfter(l, s, step, a);
      MemberAfter(l, s, step, b);
      hide Next, Enabled;
    }
    hide Next, Enabled;
  }

  lemma SmallerRoom(room: Room, peer: PeerId)
    ensures |room - {peer}| <= |room|
  {
    var rest := room - {peer};
    assert rest.Keys <= room.Keys;
    assert room.Keys == rest.Keys + (room.Keys - rest.Keys);
    assert |rest| == |rest.Keys| && |room| == |room.Keys|;
  }

  lemma LimitsKeptStep(l: Limits, s: State, step: Step)
    requires LimitsKept(l, s) && Enabled(s, step)
    ensures LimitsKept(l, Next(l, s, step))
  {
    var t := Next(l, s, step);
    forall g ensures |RoomOf(t.rooms, g)| <= l.maxConnections && CountOf(t.counts, g) <= l.maxRequests {
      assert |RoomOf(s.rooms, g)| <= l.maxConnections && CountOf(s.counts, g) <= l.maxRequests;
      if step.Disconnect? {
        RoomAfterRemoval(s.rooms, s.members[step.peer].group, step.peer, g);
        SmallerRoom(RoomOf(s.rooms, g), step.peer);
      }
    }
  }

  lemma MetStep(l: Limits, s: State, step: Step, a: PeerId, b: PeerId)
    requires RoomsMatch(s) && TasksMatch(s) && TimesDiffer(s) && Enabled(s, step)
    ensures Met(Next(l, s, step), a, b)
       <==> Met(s, a, b) || (Enters(l, s, step) && step.peer == b && a in RoomOf(s.rooms, step.group))
  {
    MemberAfter(l, s, step, a);
    MemberAfter(l, s, step, b);
    assert a in s.members ==> Times(s.members[a], s.clock);
    assert b in s.members ==> Times(s.members[b], s.clock);
    if step.Connect? {
      assert a in RoomOf(s.rooms, step.group) <==> Present(s, step.group, a);
    }
    hide Next, RoomsMatch;
  }

  lemma StayedStep(l: Limits, s: State, step: Step, a: PeerId, b: PeerId)
    requires RoomsMatch(s) && TasksMatch(s) && TimesDiffer(s) && Enabled(s, step)
    ensures Stayed(Next(l, s, step), a, b)
       <==> Stayed(s, a, b)
            || (step == Disconnect(b) && a != b && a in RoomOf(s.rooms, s.members[b].group))
  {
    MemberAfter(l, s, step, a);
    MemberAfter(l, s, step, b);
    if step.Disconnect? {
      assert a in RoomOf(s.rooms, s.members[step.peer].group) <==> Present(s, s.members[step.peer].group, a);
    }
    hide Next, RoomsMatch;
  }

  lemma HellosMatchStep(l: Limits, s: State, step: Step)
    requires RoomsMatch(s) && TasksMatch(s) && TimesDiffer(s) && HellosMatch(s) && Enabled(s, step)
    ensures HellosMatch(Next(l, s, step))
  {
    var t := Next(l, s, step);
    forall b, a | b in t.members ensures a in t.members[b].hello <==> Met(t, a, b) {
      MetStep(l, s, step, a, b);
      MemberAfter(l, s, step, b);
      hide Next, RoomsMatch, TimesDiffer, TasksMatch;
    }
  }

  /** A step introduces a newcomer once to each peer in its room, now or later; nobody else. */
  lemma IntroductionsStep(l: Limits, s: State, step: Step, a: PeerId, b: PeerId)
    requires TasksMatch(s) && JoinsMatch(s) && Enabled(s, step)
    ensures Introductions(Next(l, s, step), a, b)
         == Introductions(s, a, b)
            + if Enters(l, s, step) && step.peer == b && a in RoomOf(s.rooms, step.group) then 1 else 0
  {
    hide RoomLeft, Counted, WithoutPeer;
    if step.Connect? {
      if step.peer == b {
        assert Delivery(a, Join(b, step.info)) !in s.sent;
      }
      hide JoinsMatch;
    } else {
      hide JoinsMatch, RoomOf;
    }
  }

  lemma JoinsMatchStep(l: Limits, s: State, step: Step)
    requires RoomsMatch(s) && TasksMatch(s) && TimesDiffer(s) && JoinsMatch(s) && Enabled(s, step)
    ensures JoinsMatch(Next(l, s, step))
  {
    var t := Next(l, s, step);
    forall a, b ensures Introductions(t, a, b) == if Met(t, a, b) then 1 else 0 {
      MetStep(l, s, step, a, b);
      IntroductionsStep(l, s, step, a, b);
      EnteringIsNew(l, s, step, a);
      assert Introductions(s, a, b) == if Met(s, a, b) then 1 else 0;
      hide Next, Enabled, RoomsMatch, TimesDiffer, TasksMatch, JoinsMatch;
    }
    forall d <- t.sent
      ensures d.notice.Join? ==> d.notice.peer in t.members && d.notice.info == t.members[d.notice.peer].info
    {
      if d.notice.Join? {
        JoinStays(l, s, step, d);
      }
    }
    hide Next, Enabled, Introductions, Met;
  }

  lemma EnteringIsNew(l: Limits, s: State, step: Step, a: PeerId)
    requires Enabled(s, step)
    ensures Enters(l, s, step) ==> !Met(s, a, step.peer)
  {
  }

  lemma JoinStays(l: Limits, s: State, step: Step, d: Delivery)
    requires TasksMatch(s) && JoinsMatch(s) && Enabled(s, step) && d in Next(l, s, step).sent && d.notice.Join?
    ensures var t := Next(l, s, step);
            d.notice.peer in t.members && d.notice.info == t.members[d.notice.peer].info
  {
    MemberAfter(l, s, step, d.notice.peer);
    if d !in s.sent {
      assert step.TellJoin? && step.peer == d.notice.peer;
    }
  }

  lemma FarewellsStep(l: Limits, s: State, step: Step, a: PeerId, b: PeerId)
    requires TasksMatch(s) && Enabled(s, step)
    ensures Farewells(Next(l, s, step), a, b)
         == Farewells(s, a, b)
            + if step == Disconnect(b) && a != b && a in RoomOf(s.rooms, s.members[b].group) then 1 else 0
  {
  }

  lemma LeavesMatchStep(l: Limits, s: State, step: Step)
    requires RoomsMatch(s) && TasksMatch(s) && TimesDiffer(s) && LeavesMatch(s) && Enabled(s, step)
    ensures LeavesMatch(Next(l, s, step))
  {
    var t := Next(l, s, step);
    forall a, b ensures Farewells(t, a, b) == if Stayed(t, a, b) then 1 else 0 {
      StayedStep(l, s, step, a, b);
      FarewellsStep(l, s, step, a, b);
      LeavingIsNew(s, step, a);
      assert Farewells(s, a, b) == if Stayed(s, a, b) then 1 else 0;
      hide Next, RoomsMatch, TimesDiffer, LeavesMatch;
    }
  }

  lemma LeavingIsNew(s: State, step: Step, a: PeerId)
    requires TasksMatch(s) && Enabled(s, step)
    ensures step.Disconnect? ==> !Stayed(s, a, step.peer)
  {
  }

  lemma GreetingsStep(l: Limits, s: State, step: Step, a: PeerId, peers: Room)
    requires TasksMatch(s) && Enabled(s, step) && s.sent[Delivery(a, Hello(peers))] == Greetings(s, a, peers)
    ensures var t := Next(l, s, step);
            t.sent[Delivery(a, Hello(peers))] == Greetings(t, a, peers)
  {
    hide RoomLeft, Counted, WithoutPeer, RoomOf;
  }

  lemma GreetingsMatchStep(l: Limits, s: State, step: Step)
    requires TasksMatch(s) && GreetingsMatch(s) && Enabled(s, step)
    ensures GreetingsMatch(Next(l, s, step))
  {
    forall a, peers ensures var t := Next(l, s, step); t.sent[Delivery(a, Hello(peers))] == Greetings(t, a, peers) {
      assert s.sent[Delivery(a, Hello(peers))] == Greetings(s, a, peers);
      GreetingsStep(l, s, step, a, peers);
    }
    hide Next, Enabled;
  }

  lemma InvStep(l: Limits, s: State, step: Step)
    requires Inv(l, s) && Enabled(s, step)
    ensures Inv(l, Next(l, s, step))
  {
    RoomsMatchStep(l, s, step);
    TasksMatchStep(l, s, step);
    TimesDifferStep(l, s, step);
    HellosMatchStep(l, s, step);
    JoinsMatchStep(l, s, step);
    LeavesMatchStep(l, s, step);
    GreetingsMatchStep(l, s, step);
    LimitsKeptStep(l, s, step);
  }

  // ---- Runs ----

  predicate Possible(l: Limits, s: State, run: seq<Step>)
    decreases |run|
  {
    run == [] || (Enabled(s, run[0]) && Possible(l, Next(l, s, run[0]), run[1..]))
  }

  function After(l: Limits, s: State, run: seq<Step>): State
    requires Possible(l, s, run)
    decreases |run|
  {
    if run == [] then s else After(l, Next(l, s, run[0]), run[1..])
  }

  lemma {:induction false} RunKeepsInv(l: Limits, s: State, run: seq<Step>)
    requires Inv(l, s) && Possible(l, s, run)
    ensures Inv(l, After(l, s, run))
    decreases |run|
  {
    hide Inv, Next, Enabled;
    if run != [] {
      InvStep(l, s, run[0]);
      RunKeepsInv(l, Next(l, s, run[0]), run[1..]);
    }
  }

  /** No room ever holds more peers than allowed, and each holds exactly those that came and did not go. */
  lemma RoomsStayWithinLimit(l: Limits, run: seq<Step>, g: Group)
    requires Possible(l, START, run)
    ensures var s := After(l, START, run);
            && |RoomOf(s.rooms, g)| <= l.maxConnections
            && CountOf(s.counts, g) <= l.maxRequests
            && RoomOf(s.rooms, g).Keys == set a | a in s.members && Present(s, g, a)
  {
    RunKeepsInv(l, START, run);
    var s := After(l, START, run);
    assert forall a :: a in RoomOf(s.rooms, g) <==> Present(s, g, a);
  }

  /**
   * Two peers whose stays in a room overlap are introduced once: the later
   * one has the earlier one in its greeting, and the earlier one gets exactly one notice that the later one
   * joined. Peers whose stays do not overlap never hear of each other.
   */
  lemma OverlappingPeersAreIntroducedOnce(l: Limits, run: seq<Step>, a: PeerId, b: PeerId)
    requires Possible(l, START, run)
    requires a in After(l, START, run).members && b in After(l, START, run).members
    ensures var s := After(l, START, run);
            && (a in s.members[b].hello <==> Introductions(s, a, b) == 1)
            && (a !in s.members[b].hello <==> Introductions(s, a, b) == 0)
            && (Overlap(s, a, b) <==> a in s.members[b].hello || b in s.members[a].hello)
            && !(a in s.members[b].hello && b in s.members[a].hello)
            && (a in s.members[b].hello ==> s.members[a].joined < s.members[b].joined)
  {
    RunKeepsInv(l, START, run);
    var s := After(l, START, run);
    assert Introductions(s, a, b) == if Met(s, a, b) then 1 else 0;
    assert Times(s.members[a], s.clock) && Times(s.members[b], s.clock);
    OverlapIsMet(s, a, b);
  }

  lemma OverlapIsMet(s: State, a: PeerId, b: PeerId)
    requires TimesDiffer(s)
    ensures Overlap(s, a, b) <==> Met(s, a, b) || Met(s, b, a)
  {
    assert a in s.members ==> Times(s.members[a], s.clock);
    assert b in s.members ==> Times(s.members[b], s.clock);
  }

  /**
   * When a peer is gone, exactly those that were still in its room are each told once, and they all had been
   * introduced to it, in one direction or the other.
   */
  lemma RemainingPeersAreToldOnce(l: Limits, run: seq<Step>, a: PeerId, b: PeerId)
    requires Possible(l, START, run)
    ensures var s := After(l, START, run);
            && Farewells(s, a, b) == (if Stayed(s, a, b) then 1 else 0)
            && (Stayed(s, a, b) ==>
                  Introductions(s, a, b) + Introductions(s, b, a) == 1
                  && (a in s.members[b].hello || b in s.members[a].hello))
  {
    RunKeepsInv(l, START, run);
    var s := After(l, START, run);
    assert Introductions(s, a, b) == if Met(s, a, b) then 1 else 0;
    assert Introductions(s, b, a) == if Met(s, b, a) then 1 else 0;
    assert Farewells(s, a, b) == if Stayed(s, a, b) then 1 else 0;
    OverlapIsMet(s, a, b);
    if Stayed(s, a, b) {
      StayedOverlaps(s, a, b);
    }
  }

  lemma StayedOverlaps(s: State, a: PeerId, b: PeerId)
    requires TimesDiffer(s) && Stayed(s, a, b)
    ensures Overlap(s, a, b)
  {
    assert Times(s.members[a], s.clock) && Times(s.members[b], s.clock);
  }

  /**
   * Once every connection has told what it had to, the notices sent are exactly those, and every peer was
   * greeted once.
   */
  lemma SettledNoticesAreExact(l: Limits, run: seq<Step>, a: PeerId, b: PeerId)
    requires Possible(l, START, run)
    requires var s := After(l, START, run);
             a in s.members && b in s.members
             && forall p <- s.tasks :: s.tasks[p].Online? || s.tasks[p] == Departing({})
    ensures var s := After(l, START, run);
            && s.sent[Delivery(a, Join(b, s.members[b].info))] == (if a in s.members[b].hello then 1 else 0)
            && s.sent[Delivery(a, Left(b))] == (if Stayed(s, a, b) then 1 else 0)
            && s.sent[Delivery(a, Hello(s.members[a].hello))] == 1
  {
    RunKeepsInv(l, START, run);
    var s := After(l, START, run);
    assert Introductions(s, a, b) == if Met(s, a, b) then 1 else 0;
    assert Farewells(s, a, b) == if Stayed(s, a, b) then 1 else 0;
    assert s.sent[Delivery(a, Hello(s.members[a].hello))] == Greetings(s, a, s.members[a].hello);
  }
}
