/** Rooms and lobbies, and the systems that hand out their slots. */
module Places {
  import opened Basics
  import opened Ordered
  import opened Slots
  import opened LobbyPacket

  const MAX_ROOM_PLAYER := 8
  const MAX_LOBBY_PLAYERS := 50

  class Room {
    var roomIndex: nat
    var availableSlots: int
    var players: set<PlayerId>
    /** Jobs pushed by DoAsync and not yet run. */
    var jobs: seq<Job>

    constructor ()
      ensures Valid() && availableSlots == MAX_ROOM_PLAYER && players == {} && jobs == []
    {
      roomIndex, availableSlots, players, jobs := 0, MAX_ROOM_PLAYER, {}, [];
    }

    /** Every slot is free, taken by a member, or promised to a queued Enter. */
    ghost predicate Valid()
      reads this
    {
      availableSlots >= 0 && availableSlots + |players| + Enters(jobs) == MAX_ROOM_PLAYER
    }

    /** spurious: how often the weak compare-exchange fails before it succeeds. */
    method TryReserveSlot(spurious: nat) returns (ok: bool)
      modifies `availableSlots
      ensures ok == (old(availableSlots) > 0)
      ensures availableSlots == old(availableSlots) - (if ok then 1 else 0)
    {
      var left := spurious;
      while true
        invariant availableSlots == old(availableSlots)
        decreases left
      {
        var avail := availableSlots;
        if avail <= 0 {
          return false;
        }
        if left == 0 {
          availableSlots := avail - 1;
          return true;
        }
        left := left - 1;
      }
    }

    method ReleaseReservedSlot()
      modifies `availableSlots
      ensures availableSlots == old(availableSlots) + 1
    {
      availableSlots := availableSlots + 1;
    }

    /** alive: whether the player's session still exists. */
    method Enter(player: PlayerId, alive: bool)
      modifies `availableSlots, `players
      ensures (availableSlots, players)
           == EnterEffect(MAX_ROOM_PLAYER, true, old(availableSlots), old(players), player, alive)
      ensures var admitted := player !in old(players) && alive && old(|players|) < 8;
              && players == old(players) + (if admitted then {player} else {})
              && availableSlots == old(availableSlots) + (if admitted then 0 else 1)
    {
      if |players| >= MAX_ROOM_PLAYER {
        ReleaseReservedSlot();
        return;
      }
      if player in players {
        ReleaseReservedSlot();
        return;
      }
      players := players + {player};
      if !alive {
        players := players - {player};
        ReleaseReservedSlot();
        assert players == old(players);
        return;
      }
    }

    method Leave(player: PlayerId)
      modifies `availableSlots, `players
      ensures (availableSlots, players) == LeaveEffect(old(availableSlots), old(players), player)
      ensures players == old(players) - {player} && availableSlots + |players| == old(availableSlots) + old(|players|)
    {
      if player in players {
        players := players - {player};
        availableSlots := availableSlots + 1;
      }
    }

    /** DoAsync of Enter by a caller that owns a reservation. */
    method QueueEnter(player: PlayerId)
      modifies `jobs
      ensures jobs == old(jobs) + [Slots.Enter(player)] && Enters(jobs) == old(Enters(jobs)) + 1
    {
      EntersSnoc(jobs, Slots.Enter(player));
      jobs := jobs + [Slots.Enter(player)];
    }

    /** The oldest job, run by whichever thread executes the queue. */
    method RunJob(alive: bool)
      requires Valid() && jobs != []
      modifies this
      ensures Valid() && jobs == old(jobs)[1..] && roomIndex == old(roomIndex)
      ensures (availableSlots, players)
           == match old(jobs)[0]
              case Enter(x) => EnterEffect(MAX_ROOM_PLAYER, true, old(availableSlots), old(players), x, alive)
              case Leave(x) => LeaveEffect(old(availableSlots), old(players), x)
      ensures old(jobs)[0].Enter? ==> old(|players|) < MAX_ROOM_PLAYER
    {
      var job := jobs[0];
      jobs := jobs[1..];
      match job
      case Enter(x) => Enter(x, alive);
      case Leave(x) => Leave(x);
    }
  }

  class RoomSystem {
    var rooms: map<nat, Room>
    var roomNum: nat

    ghost predicate Valid()
      reads this, rooms.Values
    {
      && (forall i | i in rooms :: i < roomNum && rooms[i].Valid())
      && (forall i, j | i in rooms && j in rooms && i != j :: rooms[i] != rooms[j])
    }

    constructor ()
      ensures Valid() && rooms == map[] && roomNum == 0
    {
      rooms, roomNum := map[], 0;
    }

    /** The assertion on the new room's first reservation cannot fail. */
    method MakeRoom() returns (room: Room)
      requires Valid()
      modifies this
      ensures fresh(room) && room.roomIndex == old(roomNum) && roomNum == old(roomNum) + 1
      ensures rooms == old(rooms)[old(roomNum) := room]
      ensures room.availableSlots == MAX_ROOM_PLAYER - 1 && room.players == {} && room.jobs == []
    {
      room := new Room();
      room.roomIndex := roomNum;
      rooms := rooms[roomNum := room];
      roomNum := roomNum + 1;
      var reserved := room.TryReserveSlot(0);
      assert reserved;
    }

    /** The room of least index that has a free slot, with one slot reserved; null iff all are full. */
    method GetNotFullRoom(spurious: nat) returns (room: Room?, ghost index: nat)
      requires Valid()
      modifies rooms.Values`availableSlots
      ensures room == null <==> forall i | i in rooms :: old(rooms[i].availableSlots) <= 0
      ensures room != null ==>
        && index in rooms && rooms[index] == room
        && old(room.availableSlots) > 0 && room.availableSlots == old(room.availableSlots) - 1
        && forall i | i in rooms && i < index :: old(rooms[i].availableSlots) <= 0
      ensures forall i | i in rooms && rooms[i] != room :: rooms[i].availableSlots == old(rooms[i].availableSlots)
    {
      var todo := rooms.Keys;
      room, index := null, 0;
      while todo != {}
        invariant todo <= rooms.Keys
        invariant forall i | i in rooms :: rooms[i].availableSlots == old(rooms[i].availableSlots)
        invariant forall i | i in rooms && i !in todo :: rooms[i].availableSlots <= 0
        decreases todo
      {
        ghost var least := LeastExists(todo);
        var k :| k in todo && forall x | x in todo :: k <= x;
        var ok := rooms[k].TryReserveSlot(spurious);
        if ok {
          room, index := rooms[k], k;
          return;
        }
        todo := todo - {k};
      }
    }
  }

  class Lobby {
    var lobbyIndex: int
    var availableSlots: int
    /** Member names by id. */
    var players: map<PlayerId, string>
    var jobs: seq<Job>

    constructor (index: int)
      ensures Valid() && lobbyIndex == index && availableSlots == MAX_LOBBY_PLAYERS && players == map[] && jobs == []
    {
      lobbyIndex, availableSlots, players, jobs := index, MAX_LOBBY_PLAYERS, map[], [];
    }

    ghost predicate Valid()
      reads this
    {
      availableSlots >= 0 && availableSlots + |players| + Enters(jobs) == MAX_LOBBY_PLAYERS
    }

    function GetPlayerCount(): int
      reads this
    {
      MAX_LOBBY_PLAYERS - availableSlots
    }

    method TryReserveSlot(spurious: nat) returns (ok: bool)
      modifies `availableSlots
      ensures ok == (old(availableSlots) > 0)
      ensures availableSlots == old(availableSlots) - (if ok then 1 else 0)
    {
      var left := spurious;
      while true
        invariant availableSlots == old(availableSlots)
        decreases left
      {
        var avail := availableSlots;
        if avail <= 0 {
          return false;
        }
        if left == 0 {
          availableSlots := avail - 1;
          return true;
        }
        left := left - 1;
      }
    }

    /**
     * The caller owns a reservation.  A player that gets in receives the list of all members,
     * itself included: each exactly once, in increasing id order, none cut off, in a packet small
     * enough to be sent encrypted.
     */
    method Enter(player: PlayerId, name: string, alive: bool) returns (reply: ResLobbyEnter?)
      requires availableSlots >= 0 && availableSlots + |players| < MAX_LOBBY_PLAYERS
      modifies `availableSlots, `players
      ensures (availableSlots, players.Keys)
           == EnterEffect(MAX_LOBBY_PLAYERS, false, old(availableSlots), old(players.Keys), player, alive)
      ensures players == if player in old(players) || !alive then old(players) else old(players)[player := name]
      ensures reply != null <==> player !in old(players) && alive
      ensures reply != null ==> fresh(reply) && reply.Valid() && reply.lobbyIndex == lobbyIndex
                                && IsMemberList(reply.Listed(), players)
                                && 0 < reply.dataSize <= MAX_PLAIN_PACKET_SIZE
    {
      reply := null;
      if player in players {
        availableSlots := availableSlots + 1;
        return;
      }
      ghost var before := players;
      players := players[player := name];
      assert players.Keys == before.Keys + {player};
      if !alive {
        players := players - {player};
        availableSlots := availableSlots + 1;
        assert players == before;
        return;
      }
      assert |players| == |players.Keys| && |before| == |before.Keys|;
      reply := ListMembers();
    }

    /** The loop that fills the reply. */
    method ListMembers() returns (reply: ResLobbyEnter)
      requires |players| <= MAX_LOBBY_PLAYER
      ensures fresh(reply) && reply.Valid() && reply.lobbyIndex == lobbyIndex
      ensures IsMemberList(reply.Listed(), players)
      ensures reply.dataSize == PACKET_SIZE
    {
      reply := new ResLobbyEnter(lobbyIndex);
      var todo := players.Keys;
      while todo != {}
        invariant todo <= players.Keys && fresh(reply) && fresh(reply.players) && reply.Valid()
        invariant reply.lobbyIndex == lobbyIndex && reply.dataSize == PACKET_SIZE
        invariant Lists(reply.Listed(), players, todo)
        invariant |reply.Listed()| + |todo| == |players|
        decreases todo
      {
        ghost var least := LeastExists(todo);
        var id :| id in todo && forall x | x in todo :: id <= x;
        ListGrows(reply.Listed(), players, todo, id);
        reply.AddPlayer(id, players[id]);
        todo := todo - {id};
      }
    }

    method Exit(player: PlayerId)
      modifies `availableSlots, `players
      ensures (availableSlots, players.Keys) == LeaveEffect(old(availableSlots), old(players.Keys), player)
      ensures players == old(players) - {player}
    {
      if player !in players {
        assert players - {player} == players;
        return;
      }
      players := players - {player};
      availableSlots := availableSlots + 1;
    }

    /** DoAsync of Enter by a caller that owns a reservation. */
    method QueueEnter(player: PlayerId)
      modifies `jobs
      ensures jobs == old(jobs) + [Slots.Enter(player)] && Enters(jobs) == old(Enters(jobs)) + 1
    {
      EntersSnoc(jobs, Slots.Enter(player));
      jobs := jobs + [Slots.Enter(player)];
    }

    /** The oldest job: in a balanced lobby a queued Enter always finds what Enter asks of its caller. */
    method RunJob(name: string, alive: bool) returns (reply: ResLobbyEnter?)
      requires Valid() && jobs != []
      modifies this
      ensures Valid() && jobs == old(jobs)[1..] && lobbyIndex == old(lobbyIndex)
      ensures (availableSlots, players.Keys)
           == match old(jobs)[0]
              case Enter(x) => EnterEffect(MAX_LOBBY_PLAYERS, false, old(availableSlots), old(players.Keys), x, alive)
              case Leave(x) => LeaveEffect(old(availableSlots), old(players.Keys), x)
      ensures reply != null <==> old(jobs)[0].Enter? && old(jobs)[0].player !in old(players) && alive
      ensures reply != null ==> fresh(reply) && reply.Valid() && IsMemberList(reply.Listed(), players)
    {
      assert |players| == |players.Keys|;
      reply := null;
      var job := jobs[0];
      jobs := jobs[1..];
      match job
      case Enter(x) => reply := Enter(x, name, alive);
      case Leave(x) => Exit(x);
      assert |players| == |players.Keys|;
    }
  }

  /** list names exactly the ids outside todo, in increasing order and all below todo, as they are on record. */
  ghost predicate Lists(list: seq<PlayerInfo>, names: map<PlayerId, string>, todo: set<PlayerId>) {
    && (forall i, j | 0 <= i < j < |list| :: list[i].id < list[j].id)
    && (forall i | 0 <= i < |list| ::
          list[i].id in names && list[i].name == Clip(names[list[i].id]) && forall x | x in todo :: list[i].id < x)
    && (forall x | x in names && x !in todo :: Appears(list, x))
  }

  ghost predicate Appears(list: seq<PlayerInfo>, x: PlayerId) {
    exists i :: 0 <= i < |list| && list[i].id == x
  }

  ghost predicate IsMemberList(list: seq<PlayerInfo>, names: map<PlayerId, string>) {
    Lists(list, names, {}) && |list| == |names|
  }

  lemma ListGrows(list: seq<PlayerInfo>, names: map<PlayerId, string>, todo: set<PlayerId>, x: PlayerId)
    requires x in names && x in todo && Lists(list, names, todo)
    requires forall y | y in todo :: x <= y
    ensures Lists(list + [PlayerInfo(x, Clip(names[x]))], names, todo - {x})
  {
    var last := PlayerInfo(x, Clip(names[x]));
    var list' := list + [last];
    forall y | y in names && y !in todo - {x} ensures Appears(list', y) {
      if y == x {
        assert list'[|list|].id == y;
      } else {
        assert Appears(list, y);
        var i :| 0 <= i < |list| && list[i].id == y;
        assert list'[i].id == y;
      }
    }
  }

  class LobbySystem {
    const lobbies: seq<Lobby>

    ghost predicate Valid()
      reads this, lobbies
    {
      && (forall i | 0 <= i < |lobbies| :: 0 <= lobbies[i].availableSlots <= MAX_LOBBY_PLAYERS)
      && (forall i, j | 0 <= i < j < |lobbies| :: lobbies[i] != lobbies[j])
    }

    /** All lobbies are balanced. */
    ghost predicate Balanced()
      reads this, lobbies
    {
      Valid() && forall i | 0 <= i < |lobbies| :: lobbies[i].Valid()
    }

    /** The free slots, lobby by lobby. */
    ghost function FreeSlots(): (s: seq<int>)
      reads lobbies
      ensures |s| == |lobbies| && forall i | 0 <= i < |s| :: s[i] == lobbies[i].availableSlots
    {
      seq(|lobbies|, i requires 0 <= i < |lobbies| reads lobbies => lobbies[i].availableSlots)
    }

    /** The scan for the fullest lobby that is not full. */
    method ChooseFullest() returns (best: Lobby?, ghost index: nat)
      requires Valid()
      ensures best == null ==> forall i | 0 <= i < |lobbies| :: FreeSlots()[i] == 0
      ensures best != null ==> index < |lobbies| && best == lobbies[index] && Fullest(FreeSlots(), index)
    {
      best, index := null, 0;
      var bestCount := -1;
      ghost var slots := FreeSlots();
      for k := 0 to |lobbies|
        invariant best == null ==> bestCount == -1 && forall i | 0 <= i < k :: slots[i] == 0
        invariant best != null ==>
          index < k && best == lobbies[index] && Fullest(slots[..k], index) && bestCount == best.GetPlayerCount()
      {
        var cnt := lobbies[k].GetPlayerCount();
        if cnt < MAX_LOBBY_PLAYERS && cnt > bestCount {
          best, bestCount, index := lobbies[k], cnt, k;
        }
      }
      assert slots[..|slots|] == slots;
    }

    /** What other threads do to the slots. */
    method Disturb(slots: seq<nat>)
      requires Valid() && |slots| == |lobbies| && forall i | 0 <= i < |slots| :: slots[i] <= MAX_LOBBY_PLAYERS
      modifies lobbies`availableSlots
      ensures Valid() && FreeSlots() == slots
    {
      for k := 0 to |lobbies|
        invariant forall i | 0 <= i < k :: lobbies[i].availableSlots == slots[i]
        invariant forall i | k <= i < |lobbies| :: lobbies[i].availableSlots == old(lobbies[i].availableSlots)
      {
        lobbies[k].availableSlots := slots[k];
      }
    }

    /** TryReserveSlot on the k-th lobby, seen from the system. */
    method TryReserve(lobby: Lobby, ghost k: nat, spurious: nat) returns (ok: bool)
      requires Valid() && k < |lobbies| && lobby == lobbies[k]
      modifies lobby`availableSlots
      ensures Valid() && ok == (old(FreeSlots())[k] > 0)
      ensures FreeSlots() == if ok then old(FreeSlots())[k := old(FreeSlots())[k] - 1] else old(FreeSlots())
    {
      ok := lobby.TryReserveSlot(spurious);
    }

    /** The fallback scan: the first lobby with a slot left. */
    method ReserveFirst(spurious: nat) returns (lobby: Lobby?, ghost r: Option<nat>)
      requires Valid()
      modifies lobbies`availableSlots
      ensures Valid() && TookOne(old(FreeSlots()), FreeSlots(), r) && Fallback(old(FreeSlots()), None, r)
      ensures if r.None? then lobby == null else r.value < |lobbies| && lobby == lobbies[r.value]
    {
      lobby, r := null, None;
      for k := 0 to |lobbies|
        invariant FreeSlots() == old(FreeSlots()) && forall i | 0 <= i < k :: old(FreeSlots())[i] == 0
      {
        var ok := TryReserve(lobbies[k], k, spurious);
        if ok {
          lobby, r := lobbies[k], Some(k);
          return;
        }
      }
    }

    /** Reserves in the chosen lobby if it still has a slot, otherwise in the first that has one. */
    method ReserveChosen(best: Lobby?, ghost chosen: nat, spurious: nat) returns (lobby: Lobby?, ghost r: Option<nat>)
      requires Valid() && (best != null ==> chosen < |lobbies| && best == lobbies[chosen])
      modifies lobbies`availableSlots
      ensures Valid() && TookOne(old(FreeSlots()), FreeSlots(), r)
      ensures Fallback(old(FreeSlots()), if best == null then None else Some(chosen), r)
      ensures if r.None? then lobby == null else r.value < |lobbies| && lobby == lobbies[r.value]
    {
      if best != null {
        var ok := TryReserve(best, chosen, spurious);
        if ok {
          lobby, r := best, Some(chosen);
          return;
        }
      }
      lobby, r := ReserveFirst(spurious);
    }

    /**
     * others: the slots as other threads have left them by the time of the reservation, None if
     * nothing came between.  The call reserves in the fullest lobby that was not full, the earliest
     * of several, if that one still has a slot, otherwise in the first lobby that has one, and
     * returns null iff none has.
     */
    method AssignLobby(spurious: nat, others: Option<seq<nat>>) returns (lobby: Lobby?, ghost r: Option<nat>)
      requires Valid()
      requires others.Some? ==> |others.value| == |lobbies| && forall i | 0 <= i < |lobbies| :: others.value[i] <= MAX_LOBBY_PLAYERS
      modifies lobbies`availableSlots
      ensures Valid()
      ensures var now := if others.Some? then others.value else old(FreeSlots());
              TookOne(now, FreeSlots(), r) && Preferred(old(FreeSlots()), now, r)
      ensures if r.None? then lobby == null else r.value < |lobbies| && lobby == lobbies[r.value]
    {
      var best;
      ghost var chosen;
      best, chosen := ChooseFullest();
      ghost var was := FreeSlots();
      if others.Some? {
        Disturb(others.value);
      }
      ghost var now := FreeSlots();
      lobby, r := ReserveChosen(best, chosen, spurious);
      if best != null {
        FullestUnique(was, chosen);
      } else {
        assert forall k: nat :: !Fullest(was, k);
      }
      assert Preferred(was, now, r);
    }

    /** Assigns a lobby and queues the player's Enter there. */
    method EnterAssigned(id: PlayerId, spurious: nat) returns (lobby: Lobby?, ghost k: nat)
      requires Balanced()
      modifies lobbies`availableSlots, lobbies`jobs
      ensures Balanced()
      ensures lobby == null <==> forall i | 0 <= i < |lobbies| :: old(lobbies[i].availableSlots) == 0
      ensures lobby != null ==>
        && k < |lobbies| && lobby == lobbies[k] && Fullest(old(FreeSlots()), k)
        && lobby.availableSlots == old(lobby.availableSlots) - 1
        && lobby.jobs == old(lobby.jobs) + [Slots.Enter(id)]
      ensures forall i | 0 <= i < |lobbies| && lobbies[i] != lobby ::
        lobbies[i].availableSlots == old(lobbies[i].availableSlots) && lobbies[i].jobs == old(lobbies[i].jobs)
    {
      lobby, k := AssignUndisturbed(spurious);
      if lobby != null {
        lobby.QueueEnter(id);
      }
      forall i | 0 <= i < |lobbies| ensures lobbies[i].Valid() {
        assert old(lobbies[i].Valid());
      }
    }

    /** AssignLobby with nothing in between, lobby by lobby. */
    method AssignUndisturbed(spurious: nat) returns (lobby: Lobby?, ghost k: nat)
      requires Valid()
      modifies lobbies`availableSlots
      ensures Valid()
      ensures lobby == null <==> forall i | 0 <= i < |lobbies| :: old(lobbies[i].availableSlots) == 0
      ensures lobby != null ==> k < |lobbies| && lobby == lobbies[k] && Fullest(old(FreeSlots()), k)
      ensures lobby != null ==> lobby.availableSlots == old(lobby.availableSlots) - 1
      ensures forall i | 0 <= i < |lobbies| && lobbies[i] != lobby :: lobbies[i].availableSlots == old(lobbies[i].availableSlots)
    {
      ghost var was := FreeSlots();
      ghost var r;
      lobby, r := AssignLobby(spurious, None);
      ghost var after := FreeSlots();
      forall i | 0 <= i < |lobbies| ensures lobbies[i].availableSlots == was[i] - (if r == Some(i) then 1 else 0) {
        assert lobbies[i].availableSlots == after[i];
      }
      UndisturbedAssign(was, after, r);
      k := if r.Some? then r.value else 0;
    }
  }

  /** One slot was taken from lobby r, or none because there was none. */
  ghost predicate TookOne(now: seq<int>, after: seq<int>, r: Option<nat>) {
    && |now| == |after|
    && match r
       case None => after == now && forall i | 0 <= i < |now| :: now[i] == 0
       case Some(k) => k < |now| && now[k] > 0 && after == now[k := now[k] - 1]
  }

  /** The chosen lobby if it has a slot now, otherwise the first that has one. */
  ghost predicate Fallback(now: seq<int>, chosen: Option<nat>, r: Option<nat>) {
    if chosen.Some? && chosen.value < |now| && now[chosen.value] > 0 then r == chosen
    else r.Some? ==> forall i | 0 <= i < r.value && i < |now| :: now[i] == 0
  }

  /** Lobby r is the one that was to be preferred; or that one is full now, and r is the first that is not. */
  ghost predicate Preferred(was: seq<int>, now: seq<int>, r: Option<nat>)
    requires |was| == |now|
  {
    r.Some? ==> Fullest(was, r.value) || (NoneFullest(was, now) && forall i | 0 <= i < r.value && i < |now| :: now[i] == 0)
  }

  lemma {:induction false} FullestExists(slots: seq<int>, i: nat) returns (k: nat)
    requires i < |slots| && slots[i] > 0
    ensures Fullest(slots, k)
  {
    var n := |slots| - 1;
    var front := slots[..n];
    if j: nat :| j < n && slots[j] > 0 {
      k := FullestExists(front, j);
      assert forall m | 0 <= m < n :: front[m] == slots[m];
      if 0 < slots[n] < slots[k] {
        k := n;
      }
    } else {
      k := n;
    }
  }

  /** Undisturbed, a slot is taken from the fullest lobby that is not full, and none iff all are full. */
  lemma UndisturbedAssign(was: seq<int>, after: seq<int>, r: Option<nat>)
    requires TookOne(was, after, r) && Preferred(was, was, r) && forall i | 0 <= i < |was| :: was[i] >= 0
    ensures r.None? <==> forall i | 0 <= i < |was| :: was[i] == 0
    ensures r.Some? ==> Fullest(was, r.value)
  {
    if r.Some? {
      var k := FullestExists(was, r.value);
    }
  }

  /** Lobby k has a free slot, no lobby that has one is fuller, and none before k is as full. */
  ghost predicate Fullest(slots: seq<int>, k: nat) {
    && k < |slots| && slots[k] > 0
    && (forall i | 0 <= i < |slots| && slots[i] > 0 :: slots[k] <= slots[i])
    && (forall i | 0 <= i < k && slots[i] > 0 :: slots[k] < slots[i])
  }

  lemma FullestUnique(slots: seq<int>, k: nat)
    requires Fullest(slots, k)
    ensures forall j: nat | Fullest(slots, j) :: j == k
  {
  }

  /** No lobby was the one to prefer, or it has no slot left now. */
  ghost predicate NoneFullest(was: seq<int>, now: seq<int>)
    requires |was| == |now|
  {
    forall k: nat | Fullest(was, k) :: now[k] == 0
  }

  class Player {
    const id: PlayerId
    var currentRoom: Room?
    var currentLobby: Lobby?

    constructor (playerId: PlayerId)
      ensures id == playerId && currentRoom == null && currentLobby == null
    {
      id, currentRoom, currentLobby := playerId, null, null;
    }

    /** Queues the exit; the slot comes back when that job runs. */
    method LeaveLobby()
      modifies `currentLobby, (if currentLobby == null then {} else {currentLobby})`jobs
      ensures currentLobby == null
      ensures old(currentLobby) != null ==> old(currentLobby).jobs == old(currentLobby.jobs) + [Slots.Leave(id)]
      ensures old(currentLobby) != null && old(currentLobby.Valid()) ==> old(currentLobby).Valid()
    {
      if currentLobby != null {
        EntersSnoc(currentLobby.jobs, Slots.Leave(id));
        currentLobby.jobs := currentLobby.jobs + [Slots.Leave(id)];
      }
      currentLobby := null;
    }

    method LeaveRoom()
      modifies `currentRoom, (if currentRoom == null then {} else {currentRoom})`jobs
      ensures currentRoom == null
      ensures old(currentRoom) != null ==> old(currentRoom).jobs == old(currentRoom.jobs) + [Slots.Leave(id)]
      ensures old(currentRoom) != null && old(currentRoom.Valid()) ==> old(currentRoom).Valid()
    {
      if currentRoom != null {
        EntersSnoc(currentRoom.jobs, Slots.Leave(id));
        currentRoom.jobs := currentRoom.jobs + [Slots.Leave(id)];
      }
      currentRoom := null;
    }

    /**
     * Queues the leaving of the room, and one Enter in the fullest lobby that is not full; the room
     * and all lobbies stay balanced.
     */
    method LeaveRoomAndReenterLobby(system: LobbySystem, spurious: nat) returns (lobby: Lobby?, ghost k: nat)
      requires system.Balanced()
      modifies `currentRoom, (if currentRoom == null then {} else {currentRoom})`jobs
      modifies system.lobbies`availableSlots, system.lobbies`jobs
      ensures system.Balanced() && currentRoom == null
      ensures old(currentRoom) != null ==>
        && old(currentRoom).jobs == old(currentRoom.jobs) + [Slots.Leave(id)]
        && old(currentRoom).players == old(currentRoom.players)
        && old(currentRoom).availableSlots == old(currentRoom.availableSlots)
        && (old(currentRoom.Valid()) ==> old(currentRoom).Valid())
      ensures lobby == null <==> forall i | 0 <= i < |system.lobbies| :: old(system.lobbies[i].availableSlots) == 0
      ensures lobby != null ==>
        && k < |system.lobbies| && lobby == system.lobbies[k] && Fullest(old(system.FreeSlots()), k)
        && lobby.availableSlots == old(lobby.availableSlots) - 1
        && lobby.jobs == old(lobby.jobs) + [Slots.Enter(id)]
      ensures forall i | 0 <= i < |system.lobbies| && system.lobbies[i] != lobby ::
        system.lobbies[i].availableSlots == old(system.lobbies[i].availableSlots)
        && system.lobbies[i].jobs == old(system.lobbies[i].jobs)
    {
      LeaveRoom();
      lobby, k := system.EnterAssigned(id, spurious);
    }
  }

  /** room, under index k, has given a slot; every room below k was full, or all were and room is new. */
  twostate predicate GaveSlot(system: RoomSystem, new room: Room, k: nat)
    reads system, room
  {
    && k in system.rooms && system.rooms[k] == room
    && if fresh(room) then
         && (forall i | i in old(system.rooms) :: old(system.rooms[i].availableSlots) <= 0)
         && k == room.roomIndex == old(system.roomNum) && system.roomNum == old(system.roomNum) + 1
         && system.rooms == old(system.rooms)[k := room]
         && room.availableSlots == 7 && room.players == {}
       else
         && old(allocated(room)) && old(room.availableSlots) > 0
         && (forall i | i in old(system.rooms) && i < k :: old(system.rooms[i].availableSlots) <= 0)
         && system.rooms == old(system.rooms) && system.roomNum == old(system.roomNum)
         && room.availableSlots == old(room.availableSlots) - 1
         && room.players == old(room.players) && room.roomIndex == old(room.roomIndex)
  }

  twostate function JobsBefore(new room: Room): seq<Job> {
    if old(allocated(room)) then old(room.jobs) else []
  }

  /** A slot of the first room that has one, or of a new room. */
  method ObtainRoom(system: RoomSystem, spurious: nat) returns (room: Room, ghost k: nat)
    requires system.Valid()
    modifies system, system.rooms.Values
    ensures GaveSlot(system, room, k) && room.jobs == JobsBefore(room)
    ensures forall i | i in old(system.rooms) && old(system.rooms)[i] != room :: unchanged(old(system.rooms)[i])
    ensures forall i | i in system.rooms && i != k :: system.rooms[i] != room
  {
    var found, index := system.GetNotFullRoom(spurious);
    if found != null {
      room, k := found, index;
    } else {
      k := system.roomNum;
      room := system.MakeRoom();
    }
  }

  /** The reservation taken here is handed over to exactly one queued Enter, so every room stays balanced. */
  method ReserveRoom(system: RoomSystem, player: PlayerId, spurious: nat) returns (room: Room, ghost k: nat)
    requires system.Valid()
    modifies system, system.rooms.Values
    ensures system.Valid() && GaveSlot(system, room, k) && room.jobs == JobsBefore(room) + [Slots.Enter(player)]
    ensures forall i | i in old(system.rooms) && old(system.rooms)[i] != room :: unchanged(old(system.rooms)[i])
  {
    room, k := ObtainRoom(system, spurious);
    room.QueueEnter(player);
  }

  /**
   * The request to enter a room; a session without a player is refused.  The player's lobby is left,
   * and the first room with a free slot, or a new one if there is none, gets one Enter queued against
   * one slot; all other rooms are as before.
   */
  method HandleReqRoomEnterPacket(system: RoomSystem, player: Player?, spurious: nat)
    returns (ok: bool, room: Room?, ghost k: nat)
    requires system.Valid()
    modifies system, system.rooms.Values, player, if player == null then null else player.currentLobby
    ensures system.Valid()
    ensures ok == (player != null) == (room != null)
    ensures !ok ==> unchanged(system) && forall r | r in system.rooms.Values :: unchanged(r)
    ensures ok ==>
      && player.currentLobby == null && player.currentRoom == old(player.currentRoom)
      && GaveSlot(system, room, k) && room.jobs == JobsBefore(room) + [Slots.Enter(player.id)]
    ensures ok ==> forall i | i in old(system.rooms) && old(system.rooms)[i] != room :: unchanged(old(system.rooms)[i])
    ensures ok && old(player.currentLobby) != null ==>
      && old(player.currentLobby).jobs == old(player.currentLobby.jobs) + [Slots.Leave(player.id)]
      && (old(player.currentLobby.Valid()) ==> old(player.currentLobby).Valid())
  {
    k := 0;
    if player == null {
      return false, null, 0;
    }
    player.LeaveLobby();
    room, k := ReserveRoom(system, player.id, spurious);
    ok := true;
  }
}
