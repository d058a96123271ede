/** The rooms of the signaling server: who is told about whom when peers come and go. */
module Signaling {
  import opened Bytes

  type PeerId = nat
  type Group = nat
  type Info = nat

  /** The limits the server is configured with. */
  datatype Limits = Limits(maxConnections: nat, maxRequests: nat)

  type Room = map<PeerId, Info>

  function RoomOf(rooms: map<Group, Room>, g: Group): Room
  {
    if g in rooms then rooms[g] else map[]
  }

  function CountOf(counts: map<Group, nat>, g: Group): nat
  {
    if g in counts then counts[g] else 0
  }

  /** One more request of the group, unless it used up its number. */
  function Counted(limits: Limits, counts: map<Group, nat>, g: Group): map<Group, nat>
  {
    counts[g := if CountOf(counts, g) >= limits.maxRequests then CountOf(counts, g) else CountOf(counts, g) + 1]
  }

  predicate RoomLeft(limits: Limits, rooms: map<Group, Room>, g: Group)
  {
    |RoomOf(rooms, g)| < limits.maxConnections
  }

  predicate MayJoin(limits: Limits, rooms: map<Group, Room>, counts: map<Group, nat>, g: Group)
  {
    RoomLeft(limits, rooms, g) && CountOf(counts, g) < limits.maxRequests
  }

  function WithoutPeer(rooms: map<Group, Room>, g: Group, peer: PeerId): map<Group, Room>
  {
    if g !in rooms then rooms
    else if rooms[g] - {peer} == map[] then rooms - {g}
    else rooms[g := rooms[g] - {peer}]
  }

  // ---- The blocks in place ----

  class SignalingServer {
    var txMap: map<Group, Room>
    var requestCounts: map<Group, nat>
    const limits: Limits

    constructor (limits: Limits)
      ensures txMap == map[] && requestCounts == map[] && this.limits == limits
    {
      txMap, requestCounts := map[], map[];
      this.limits := limits;
    }

    method ProtectDdosRequestCount(g: Group) returns (ok: bool)
      modifies this`requestCounts
      ensures ok <==> CountOf(old(requestCounts), g) < limits.maxRequests
      ensures requestCounts == Counted(limits, old(requestCounts), g)
      ensures var count := if g in old(requestCounts) then old(requestCounts)[g] else 0;
              && (ok <==> count < limits.maxRequests)
              && requestCounts == old(requestCounts)[g := if ok then count + 1 else count]
    {
      if g !in requestCounts {
        requestCounts := requestCounts[g := 0];
      }
      if requestCounts[g] >= limits.maxRequests {
        return false;
      }
      requestCounts := requestCounts[g := requestCounts[g] + 1];
      ok := true;
    }

    /**
     * Lets a peer in, if there is room and its group has requests left: the others that are in the room at
     * that moment are returned. A refused peer may leave an empty room behind.
     */
    method Admit(g: Group, peer: PeerId, info: Info) returns (peers: Option<Room>)
      modifies this
      ensures peers == if MayJoin(limits, old(txMap), old(requestCounts), g) then Some(RoomOf(old(txMap), g)) else None
      ensures txMap == old(txMap)[g := if peers.Some? then peers.value[peer := info] else RoomOf(old(txMap), g)]
      ensures requestCounts == if RoomLeft(limits, old(txMap), g) then Counted(limits, old(requestCounts), g)
                               else old(requestCounts)
      ensures peers.Some? <==>
                && (if g in old(txMap) then |old(txMap)[g]| else 0) < limits.maxConnections
                && (if g in old(requestCounts) then old(requestCounts)[g] else 0) < limits.maxRequests
      ensures peers.Some? ==> peers.value == if g in old(txMap) then old(txMap)[g] else map[]
    {
      if g !in txMap {
        txMap := txMap[g := map[]];
      }
      assert txMap[g] == RoomOf(old(txMap), g);
      if |txMap[g]| >= limits.maxConnections {
        return None;
      }
      var ok := ProtectDdosRequestCount(g);
      if !ok {
        return None;
      }
      var room: Room := txMap[g];
      peers := Some(room);
      room := room[peer := info];
      txMap := txMap[g := room];
    }

    /** Takes a peer out and returns those that remain; an empty room goes with its last peer. */
    method Remove(g: Group, peer: PeerId) returns (remaining: set<PeerId>)
      modifies this`txMap
      ensures txMap == WithoutPeer(old(txMap), g, peer)
      ensures remaining == RoomOf(old(txMap), g).Keys - {peer}
      ensures g in txMap <==> remaining != {}
      ensures remaining != {} ==> g in old(txMap) && txMap == old(txMap)[g := old(txMap)[g] - {peer}]
      ensures remaining == {} ==> txMap == old(txMap) - {g}
    {
      remaining := {};
      if g in txMap {
        txMap := txMap[g := txMap[g] - {peer}];
        if txMap[g] == map[] {
          assert old(txMap)[g].Keys - {peer} == {};
          txMap := txMap - {g};
        } else {
          remaining := txMap[g].Keys;
        }
      }
    }

    method Update(g: Group, peer: PeerId, info: Info)
      modifies this`txMap
      ensures txMap == if peer in RoomOf(old(txMap), g) then old(txMap)[g := RoomOf(old(txMap), g)[peer := info]]
                       else old(txMap)
    {
      if g in txMap && peer in txMap[g] {
        var room: Room := txMap[g];
        room := room[peer := info];
        txMap := txMap[g := room];
      }
    }
  }
}
