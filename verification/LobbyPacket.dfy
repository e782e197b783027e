/** The packet that answers a lobby entry with the list of members. */
module LobbyPacket {
  import opened Basics

  const MAX_LOBBY_PLAYER := 50
  const NAME_SIZE := 16
  const RES_LOBBY_ENTER := 30
  /** sizeof(ResLobbyEnter), fields packed without padding. */
  const PACKET_SIZE := HEADER_SIZE + 4 + 4 + MAX_LOBBY_PLAYER * (8 + NAME_SIZE)

  /** name is the text before the terminating NUL. */
  datatype PlayerInfo = PlayerInfo(id: nat, name: string)

  const BLANK := PlayerInfo(0, "")

  function CStr(s: string): string {
    if s == "" || s[0] == '\0' then "" else [s[0]] + CStr(s[1..])
  }

  /** strncpy_s into a field of NAME_SIZE characters. */
  function Clip(s: string): string {
    var c := CStr(s);
    if |c| < NAME_SIZE then c else c[..NAME_SIZE - 1]
  }

  /** The longest beginning of the name that has no NUL and leaves one for the terminator. */
  lemma {:induction false} ClipExactly(s: string)
    ensures var c := Clip(s);
            && c <= s && |c| <= 15 && '\0' !in c
            && (|c| == 15 || |c| == |s| || s[|c|] == '\0')
  {
    CStrExactly(s);
  }

  lemma {:induction false} CStrExactly(s: string)
    ensures var c := CStr(s); c <= s && '\0' !in c && (|c| == |s| || s[|c|] == '\0')
  {
    if s != "" && s[0] != '\0' {
      CStrExactly(s[1..]);
      assert s == [s[0]] + s[1..];
    }
  }

  class ResLobbyEnter {
    var packetNum: nat
    var dataSize: nat
    var lobbyIndex: int
    var playerCount: nat
    const players: array<PlayerInfo>

    ghost predicate Valid()
      reads this
    {
      players.Length == MAX_LOBBY_PLAYER && playerCount <= MAX_LOBBY_PLAYER
    }

    ghost function Listed(): seq<PlayerInfo>
      requires Valid()
      reads this, players
    {
      players[..playerCount]
    }

    /** Init. */
    constructor (index: int)
      ensures Valid() && fresh(players) && Listed() == [] && lobbyIndex == index
      ensures packetNum == RES_LOBBY_ENTER && dataSize == PACKET_SIZE
    {
      packetNum, dataSize, lobbyIndex, playerCount := RES_LOBBY_ENTER, PACKET_SIZE, index, 0;
      players := new PlayerInfo[MAX_LOBBY_PLAYER](_ => BLANK);
    }

    /** A full packet silently ignores further players. */
    method AddPlayer(id: nat, name: string)
      requires Valid()
      modifies `playerCount, players
      ensures Valid()
      ensures Listed() == if old(playerCount) < MAX_LOBBY_PLAYER
                          then old(Listed()) + [PlayerInfo(id, Clip(name))] else old(Listed())
    {
      if playerCount >= MAX_LOBBY_PLAYER {
        return;
      }
      players[playerCount] := PlayerInfo(id, Clip(name));
      playerCount := playerCount + 1;
    }
  }
}
