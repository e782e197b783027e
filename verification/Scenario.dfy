/** The load client's scripted session: chatting, changing rooms with bounded retries, pinging. */
module Scenario {

  datatype Config = Config(
    lobbyChatCount: int, lobbyChatIntervalMs: int,
    roomChatCount: int, roomChatIntervalMs: int,
    roomActionTimeoutMs: int, maxRoomActionRetries: int,
    pingIntervalMs: int, pingTimeoutMs: int)

  datatype Phase = Handshaking | InLobby | AwaitingRoomEnter | InRoom | AwaitingRoomExit | Stuck

  datatype Action =
    | NoAction | SendLobbyChat | SendRoomEnter | SendRoomChat | SendRoomExit | LogStuckRoomEnter | LogStuckRoomExit

  datatype Progress = Progress(
    phase: Phase, phaseStart: int, lastAction: int, lobbyChats: int, roomChats: int, retries: int)

  /** One tick of the script: the next state and what to send. */
  function Advance(cfg: Config, s: Progress, now: int): (Progress, Action) {
    match s.phase
    case InLobby =>
      if s.lobbyChats < cfg.lobbyChatCount && now - s.lastAction >= cfg.lobbyChatIntervalMs then
        (s.(lobbyChats := s.lobbyChats + 1, lastAction := now), SendLobbyChat)
      else if s.lobbyChats >= cfg.lobbyChatCount then
        (s.(phase := AwaitingRoomEnter, phaseStart := now, retries := 0), SendRoomEnter)
      else (s, NoAction)
    case AwaitingRoomEnter => Retry(cfg, s, now, SendRoomEnter, LogStuckRoomEnter)
    case InRoom =>
      if s.roomChats < cfg.roomChatCount && now - s.lastAction >= cfg.roomChatIntervalMs then
        (s.(roomChats := s.roomChats + 1, lastAction := now), SendRoomChat)
      else if s.roomChats >= cfg.roomChatCount then
        (s.(phase := AwaitingRoomExit, phaseStart := now, retries := 0), SendRoomExit)
      else (s, NoAction)
    case AwaitingRoomExit => Retry(cfg, s, now, SendRoomExit, LogStuckRoomExit)
    case _ => (s, NoAction)
  }

  function Retry(cfg: Config, s: Progress, now: int, again: Action, giveUp: Action): (Progress, Action) {
    if now - s.phaseStart < cfg.roomActionTimeoutMs then (s, NoAction)
    else if s.retries >= cfg.maxRoomActionRetries then (s.(phase := Stuck), giveUp)
    else (s.(retries := s.retries + 1, phaseStart := now), again)
  }

  /** The two legs of the round trip: from the lobby to a room, and back. */
  datatype Leg = ToRoom | ToLobby

  function Place(leg: Leg): Phase { if leg.ToRoom? then InLobby else InRoom }
  function Wait(leg: Leg): Phase { if leg.ToRoom? then AwaitingRoomEnter else AwaitingRoomExit }
  function Chat(leg: Leg): Action { if leg.ToRoom? then SendLobbyChat else SendRoomChat }
  function Move(leg: Leg): Action { if leg.ToRoom? then SendRoomEnter else SendRoomExit }
  function GiveUp(leg: Leg): Action { if leg.ToRoom? then LogStuckRoomEnter else LogStuckRoomExit }
  function ChatCount(cfg: Config, leg: Leg): int { if leg.ToRoom? then cfg.lobbyChatCount else cfg.roomChatCount }
  function ChatInterval(cfg: Config, leg: Leg): int { if leg.ToRoom? then cfg.lobbyChatIntervalMs else cfg.roomChatIntervalMs }
  function Chats(s: Progress, leg: Leg): int { if leg.ToRoom? then s.lobbyChats else s.roomChats }

  /** The server's reply that starts a leg: Res_LobbyEnter, or Noti_RoomEnter for oneself. */
  function Arrived(s: Progress, leg: Leg, now: int): Progress {
    match leg
    case ToRoom => s.(phase := InLobby, phaseStart := now, lastAction := now, lobbyChats := 0)
    case ToLobby => s.(phase := InRoom, phaseStart := now, lastAction := now, roomChats := 0)
  }

  datatype Sent = Sent(time: int, action: Action)

  /** The state and everything done after the given ticks. */
  function Ticks(cfg: Config, s: Progress, nows: seq<int>): (Progress, seq<Sent>) {
    if nows == [] then (s, [])
    else
      var now := nows[|nows| - 1];
      var (p, log) := Ticks(cfg, s, nows[..|nows| - 1]);
      var (q, a) := Advance(cfg, p, now);
      (q, if a.NoAction? then log else log + [Sent(now, a)])
  }

  /** When the given action was taken. */
  function Times(log: seq<Sent>, a: Action): seq<int> {
    if log == [] then []
    else
      var earlier := Times(log[..|log| - 1], a);
      if log[|log| - 1].action == a then earlier + [log[|log| - 1].time] else earlier
  }

  ghost predicate Spaced(times: seq<int>, gap: int) {
    forall i, j | 0 <= i && j == i + 1 < |times| :: times[j] - times[i] >= gap
  }

  lemma TimesSnoc(log: seq<Sent>, e: Sent, a: Action)
    ensures Times(log + [e], a) == if e.action == a then Times(log, a) + [e.time] else Times(log, a)
  {
    assert (log + [e])[..|log|] == log;
  }

  /** A negative count in the configuration acts like 0. */
  function Least0(n: int): nat { if n < 0 then 0 else n }

  /** What has been done at each point of a leg: when the chats, the room requests and the giving up were. */
  ghost predicate LegShape(cfg: Config, leg: Leg, arrived: int, s: Progress, chats: seq<int>, moves: seq<int>, stuck: seq<int>) {
    && |chats| == Chats(s, leg) && Spaced([arrived] + chats, ChatInterval(cfg, leg))
    && s.lastAction == ([arrived] + chats)[|chats|]
    && Spaced(moves, cfg.roomActionTimeoutMs)
    && if s.phase == Place(leg) then moves == [] && stuck == [] && |chats| <= Least0(ChatCount(cfg, leg))
       else
         && |chats| == Least0(ChatCount(cfg, leg))
         && 0 <= s.retries <= Least0(cfg.maxRoomActionRetries)
         && |moves| == s.retries + 1
         && moves[|moves| - 1] == s.phaseStart
         && if s.phase == Wait(leg) then stuck == []
            else s.phase == Stuck && s.retries == Least0(cfg.maxRoomActionRetries) && |stuck| == 1
  }

  ghost predicate LegInv(cfg: Config, leg: Leg, arrived: int, s: Progress, log: seq<Sent>) {
    LegShape(cfg, leg, arrived, s, Times(log, Chat(leg)), Times(log, Move(leg)), Times(log, GiveUp(leg)))
  }

  lemma SpacedSnoc(times: seq<int>, t: int, gap: int)
    requires Spaced(times, gap) && (times != [] ==> t - times[|times| - 1] >= gap)
    ensures Spaced(times + [t], gap)
  {
  }

  lemma ShapeStep(cfg: Config, leg: Leg, arrived: int, s: Progress, now: int, chats: seq<int>, moves: seq<int>, stuck: seq<int>)
    requires LegShape(cfg, leg, arrived, s, chats, moves, stuck)
    ensures var (q, a) := Advance(cfg, s, now);
            && a in {NoAction, Chat(leg), Move(leg), GiveUp(leg)}
            && LegShape(cfg, leg, arrived, q,
                        if a == Chat(leg) then chats + [now] else chats,
                        if a == Move(leg) then moves + [now] else moves,
                        if a == GiveUp(leg) then stuck + [now] else stuck)
  {
    var (q, a) := Advance(cfg, s, now);
    if a == Chat(leg) {
      SpacedSnoc([arrived] + chats, now, ChatInterval(cfg, leg));
      assert [arrived] + (chats + [now]) == ([arrived] + chats) + [now];
    } else if a == Move(leg) {
      SpacedSnoc(moves, now, cfg.roomActionTimeoutMs);
    }
  }

  lemma LegStep(cfg: Config, leg: Leg, arrived: int, s: Progress, log: seq<Sent>, now: int)
    requires LegInv(cfg, leg, arrived, s, log)
    ensures var (q, a) := Advance(cfg, s, now);
            LegInv(cfg, leg, arrived, q, if a.NoAction? then log else log + [Sent(now, a)])
  {
    ShapeStep(cfg, leg, arrived, s, now, Times(log, Chat(leg)), Times(log, Move(leg)), Times(log, GiveUp(leg)));
    var e := Sent(now, Advance(cfg, s, now).1);
    TimesSnoc(log, e, Chat(leg));
    TimesSnoc(log, e, Move(leg));
    TimesSnoc(log, e, GiveUp(leg));
  }

  lemma {:induction false} LegInvariant(cfg: Config, leg: Leg, s: Progress, arrived: int, nows: seq<int>)
    ensures var (q, log) := Ticks(cfg, Arrived(s, leg, arrived), nows); LegInv(cfg, leg, arrived, q, log)
  {
    if nows != [] {
      LegInvariant(cfg, leg, s, arrived, nows[..|nows| - 1]);
      var (p, log) := Ticks(cfg, Arrived(s, leg, arrived), nows[..|nows| - 1]);
      LegStep(cfg, leg, arrived, p, log, nows[|nows| - 1]);
    }
  }

  /**
   * Between two replies of the server, over any ticks: the room request is sent at most
   * 1 + maxRetries times, consecutive requests at least the timeout apart, the first one after
   * exactly the configured number of chats, and those at least their interval apart.
   */
  lemma BetweenReplies(cfg: Config, leg: Leg, s: Progress, arrived: int, nows: seq<int>)
    ensures var log := Ticks(cfg, Arrived(s, leg, arrived), nows).1;
            var chats, moves := Times(log, Chat(leg)), Times(log, Move(leg));
            && |moves| <= 1 + Least0(cfg.maxRoomActionRetries)
            && Spaced(moves, cfg.roomActionTimeoutMs)
            && |chats| <= Least0(ChatCount(cfg, leg)) && (moves != [] ==> |chats| == Least0(ChatCount(cfg, leg)))
            && Spaced([arrived] + chats, ChatInterval(cfg, leg))
  {
    LegInvariant(cfg, leg, s, arrived, nows);
  }

  /** Giving up happens at most once, only after all retries, and nothing is done after it. */
  lemma StuckIsFinal(cfg: Config, leg: Leg, s: Progress, arrived: int, nows: seq<int>, more: seq<int>)
    requires Ticks(cfg, Arrived(s, leg, arrived), nows).0.phase == Stuck
    ensures var p := Arrived(s, leg, arrived);
            && Ticks(cfg, p, nows + more) == Ticks(cfg, p, nows)
            && |Times(Ticks(cfg, p, nows).1, Move(leg))| == 1 + Least0(cfg.maxRoomActionRetries)
            && |Times(Ticks(cfg, p, nows).1, GiveUp(leg))| == 1
    decreases |more|
  {
    LegInvariant(cfg, leg, s, arrived, nows);
    if more != [] {
      StuckIsFinal(cfg, leg, s, arrived, nows, more[..|more| - 1]);
      assert (nows + more)[..|nows + more| - 1] == nows + more[..|more| - 1];
    } else {
      assert nows + more == nows;
    }
  }

  /** What is due at a tick, judged by what has been done on this leg and when. */
  function Due(cfg: Config, leg: Leg, arrived: int, chats: seq<int>, moves: seq<int>, stuck: seq<int>, now: int): Action {
    if stuck != [] then NoAction
    else if moves != [] then
      if now - moves[|moves| - 1] < cfg.roomActionTimeoutMs then NoAction
      else if |moves| <= Least0(cfg.maxRoomActionRetries) then Move(leg)
      else GiveUp(leg)
    else if |chats| < ChatCount(cfg, leg) then
      if now - ([arrived] + chats)[|chats|] < ChatInterval(cfg, leg) then NoAction else Chat(leg)
    else Move(leg)
  }

  lemma DueByShape(cfg: Config, leg: Leg, arrived: int, s: Progress, chats: seq<int>, moves: seq<int>, stuck: seq<int>, now: int)
    requires LegShape(cfg, leg, arrived, s, chats, moves, stuck)
    ensures Advance(cfg, s, now).1 == Due(cfg, leg, arrived, chats, moves, stuck, now)
  {
  }

  /** Whatever is due is done at the next tick, and nothing else. */
  lemma DueIsDone(cfg: Config, leg: Leg, s: Progress, arrived: int, nows: seq<int>, now: int)
    ensures var (q, log) := Ticks(cfg, Arrived(s, leg, arrived), nows);
            var chats, moves, stuck := Times(log, Chat(leg)), Times(log, Move(leg)), Times(log, GiveUp(leg));
            Advance(cfg, q, now).1 == Due(cfg, leg, arrived, chats, moves, stuck, now)
  {
    LegInvariant(cfg, leg, s, arrived, nows);
    var (q, log) := Ticks(cfg, Arrived(s, leg, arrived), nows);
    DueByShape(cfg, leg, arrived, q, Times(log, Chat(leg)), Times(log, Move(leg)), Times(log, GiveUp(leg)), now);
  }

  // ----- pings --------------------------------------------------------------------------

  datatype Ping = Ping(inFlight: bool, sentTime: int, lastSent: int)

  /** After a tick: the state, whether a timeout is to be recorded and whether a ping is to be sent. */
  function PingTick(cfg: Config, p: Ping, now: int): (Ping, bool, bool) {
    var late := p.inFlight && now - p.sentTime >= cfg.pingTimeoutMs;
    var q := if late then p.(inFlight := false) else p;
    var send := !q.inFlight && now - q.lastSent >= cfg.pingIntervalMs;
    (if send then Ping(true, now, now) else q, late, send)
  }

  class ScenarioState {
    var phase: Phase
    var phaseStartTime: int
    var lastActionTime: int
    var lobbyChatsSent: int
    var roomChatsSent: int
    var actionRetries: int
    var pingInFlight: bool
    var pingSentTime: int
    var lastPingSentTime: int

    constructor ()
      ensures View() == Progress(Handshaking, 0, 0, 0, 0, 0) && PingView() == Ping(false, 0, 0)
    {
      phase, phaseStartTime, lastActionTime := Handshaking, 0, 0;
      lobbyChatsSent, roomChatsSent, actionRetries := 0, 0, 0;
      pingInFlight, pingSentTime, lastPingSentTime := false, 0, 0;
    }

    ghost function View(): Progress
      reads this
    {
      Progress(phase, phaseStartTime, lastActionTime, lobbyChatsSent, roomChatsSent, actionRetries)
    }

    ghost function PingView(): Ping
      reads this
    {
      Ping(pingInFlight, pingSentTime, lastPingSentTime)
    }

    method AdvanceScenario(cfg: Config, now: int) returns (action: Action)
      modifies this
      ensures (View(), action) == Advance(cfg, old(View()), now) && PingView() == old(PingView())
    {
      action := NoAction;
      match phase
      case InLobby =>
        if lobbyChatsSent < cfg.lobbyChatCount && now - lastActionTime >= cfg.lobbyChatIntervalMs {
          action := SendLobbyChat;
          lobbyChatsSent := lobbyChatsSent + 1;
          lastActionTime := now;
        } else if lobbyChatsSent >= cfg.lobbyChatCount {
          action := SendRoomEnter;
          phase, phaseStartTime, actionRetries := AwaitingRoomEnter, now, 0;
        }
      case AwaitingRoomEnter =>
        if now - phaseStartTime >= cfg.roomActionTimeoutMs {
          if actionRetries >= cfg.maxRoomActionRetries {
            phase := Stuck;
            action := LogStuckRoomEnter;
          } else {
            action := SendRoomEnter;
            actionRetries := actionRetries + 1;
            phaseStartTime := now;
          }
        }
      case InRoom =>
        if roomChatsSent < cfg.roomChatCount && now - lastActionTime >= cfg.roomChatIntervalMs {
          action := SendRoomChat;
          roomChatsSent := roomChatsSent + 1;
          lastActionTime := now;
        } else if roomChatsSent >= cfg.roomChatCount {
          action := SendRoomExit;
          phase, phaseStartTime, actionRetries := AwaitingRoomExit, now, 0;
        }
      case AwaitingRoomExit =>
        if now - phaseStartTime >= cfg.roomActionTimeoutMs {
          if actionRetries >= cfg.maxRoomActionRetries {
            phase := Stuck;
            action := LogStuckRoomExit;
          } else {
            action := SendRoomExit;
            actionRetries := actionRetries + 1;
            phaseStartTime := now;
          }
        }
      case _ =>
    }

    method HandleResLobbyEnter(now: int)
      modifies this
      ensures View() == Arrived(old(View()), ToRoom, now) && PingView() == old(PingView())
    {
      phase := InLobby;
      phaseStartTime, lastActionTime := now, now;
      lobbyChatsSent := 0;
    }

    /** The announcement of another player's entry is ignored. */
    method HandleNotiRoomEnter(playerId: nat, self: nat, now: int)
      modifies this
      ensures View() == (if playerId == self then Arrived(old(View()), ToLobby, now) else old(View()))
      ensures PingView() == old(PingView())
    {
      if playerId != self {
        return;
      }
      phase := InRoom;
      phaseStartTime, lastActionTime := now, now;
      roomChatsSent := 0;
    }

    /** rtt is recorded iff the ping had not timed out before. */
    method HandleResTest(now: int) returns (record: bool, rtt: int)
      modifies `pingInFlight
      ensures record == old(pingInFlight) && (record ==> rtt == now - pingSentTime) && !pingInFlight
    {
      if !pingInFlight {
        return false, 0;
      }
      record, rtt := true, now - pingSentTime;
      pingInFlight := false;
    }

    method AdvancePing(cfg: Config, now: int) returns (recordTimeout: bool, sendPing: bool)
      modifies this
      ensures (PingView(), recordTimeout, sendPing) == PingTick(cfg, old(PingView()), now) && View() == old(View())
    {
      recordTimeout, sendPing := false, false;
      if pingInFlight && now - pingSentTime >= cfg.pingTimeoutMs {
        recordTimeout := true;
        pingInFlight := false;
      }
      if !pingInFlight && now - lastPingSentTime >= cfg.pingIntervalMs {
        sendPing := true;
        pingInFlight, pingSentTime, lastPingSentTime := true, now, now;
      }
    }
  }

  /** What happens to the pings of one session: ticks, and replies of the server. */
  datatype PingEvent = At(now: int) | Answer

  /** When pings were sent, when timeouts were recorded, and how many replies counted. */
  datatype PingLog = PingLog(sent: seq<int>, late: seq<int>, answered: nat)

  function Pinged(cfg: Config, events: seq<PingEvent>): (Ping, PingLog) {
    if events == [] then (Ping(false, 0, 0), PingLog([], [], 0))
    else
      var (p, log) := Pinged(cfg, events[..|events| - 1]);
      match events[|events| - 1]
      case Answer => if p.inFlight then (p.(inFlight := false), log.(answered := log.answered + 1)) else (p, log)
      case At(now) =>
        var (q, late, send) := PingTick(cfg, p, now);
        (q, log.(sent := if send then log.sent + [now] else log.sent, late := if late then log.late + [now] else log.late))
  }

  /** A ping is out that was neither answered nor given up. */
  predicate Outstanding(log: PingLog) {
    |log.sent| > log.answered + |log.late|
  }

  ghost predicate PingInv(cfg: Config, p: Ping, log: PingLog) {
    && |log.sent| == log.answered + |log.late| + (if p.inFlight then 1 else 0)
    && p.lastSent == ([0] + log.sent)[|log.sent|]
    && (p.inFlight ==> p.sentTime == p.lastSent)
    && Spaced([0] + log.sent, cfg.pingIntervalMs)
  }

  lemma PingStep(cfg: Config, p: Ping, log: PingLog, now: int)
    requires PingInv(cfg, p, log)
    ensures var (q, late, send) := PingTick(cfg, p, now);
            && PingInv(cfg, q, log.(sent := if send then log.sent + [now] else log.sent,
                                    late := if late then log.late + [now] else log.late))
            && (late <==> Outstanding(log) && now - log.sent[|log.sent| - 1] >= cfg.pingTimeoutMs)
            && (send <==> (Outstanding(log) ==> late) && now - ([0] + log.sent)[|log.sent|] >= cfg.pingIntervalMs)
  {
    if PingTick(cfg, p, now).2 {
      SpacedSnoc([0] + log.sent, now, cfg.pingIntervalMs);
      assert [0] + (log.sent + [now]) == ([0] + log.sent) + [now];
    }
  }

  lemma {:induction false} PingInvariant(cfg: Config, events: seq<PingEvent>)
    ensures PingInv(cfg, Pinged(cfg, events).0, Pinged(cfg, events).1)
  {
    if events != [] {
      PingInvariant(cfg, events[..|events| - 1]);
      var (p, log) := Pinged(cfg, events[..|events| - 1]);
      if events[|events| - 1].At? {
        PingStep(cfg, p, log, events[|events| - 1].now);
      }
    }
  }

  /**
   * At every tick of every session: the ping that is out is given up iff its timeout has passed, and
   * a ping is sent iff none is out any more and the interval since the last one has passed.
   */
  lemma PingsWhenDue(cfg: Config, events: seq<PingEvent>, now: int)
    ensures var (p, log) := Pinged(cfg, events);
            var (_, late, send) := PingTick(cfg, p, now);
            && (late <==> Outstanding(log) && now - log.sent[|log.sent| - 1] >= cfg.pingTimeoutMs)
            && (send <==> (Outstanding(log) ==> late) && now - ([0] + log.sent)[|log.sent|] >= cfg.pingIntervalMs)
            && Spaced([0] + log.sent, cfg.pingIntervalMs)
  {
    PingInvariant(cfg, events);
    var (p, log) := Pinged(cfg, events);
    PingStep(cfg, p, log, now);
  }

  type SessionId = nat

  /**
   * The pings of all sessions.  owed: results decided under the registry lock and not yet recorded;
   * dropped: pings in flight whose session was unregistered or registered anew.
   */
  datatype Fleet = Fleet(
    sessions: map<SessionId, Ping>,
    sent: nat, owedRtts: nat, owedTimeouts: nat, rtts: nat, timeouts: nat, dropped: nat)

  datatype Step =
    | Register(k: SessionId)
    | Unregister(k: SessionId)
    | Tick(k: SessionId, now: int)
    | Reply(k: SessionId)
    | RecordRtt
    | RecordTimeout

  predicate Flies(sessions: map<SessionId, Ping>, k: SessionId) {
    k in sessions && sessions[k].inFlight
  }

  function One(b: bool): nat { if b then 1 else 0 }

  function Next(cfg: Config, f: Fleet, step: Step): Fleet {
    match step
    case Register(k) => f.(sessions := f.sessions[k := Ping(false, 0, 0)], dropped := f.dropped + One(Flies(f.sessions, k)))
    case Unregister(k) => f.(sessions := f.sessions - {k}, dropped := f.dropped + One(Flies(f.sessions, k)))
    case Tick(k, now) =>
      if k !in f.sessions then f
      else
        var (p, late, send) := PingTick(cfg, f.sessions[k], now);
        f.(sessions := f.sessions[k := p], owedTimeouts := f.owedTimeouts + One(late), sent := f.sent + One(send))
    case Reply(k) =>
      if !Flies(f.sessions, k) then f
      else f.(sessions := f.sessions[k := f.sessions[k].(inFlight := false)], owedRtts := f.owedRtts + 1)
    case RecordRtt => if f.owedRtts > 0 then f.(owedRtts := f.owedRtts - 1, rtts := f.rtts + 1) else f
    case RecordTimeout => if f.owedTimeouts > 0 then f.(owedTimeouts := f.owedTimeouts - 1, timeouts := f.timeouts + 1) else f
  }

  function Run(cfg: Config, steps: seq<Step>): Fleet {
    if steps == [] then Fleet(map[], 0, 0, 0, 0, 0, 0) else Next(cfg, Run(cfg, steps[..|steps| - 1]), steps[|steps| - 1])
  }

  function InFlight(sessions: map<SessionId, Ping>): set<SessionId> {
    set k | k in sessions && sessions[k].inFlight
  }

  lemma InFlightUpdate(sessions: map<SessionId, Ping>, k: SessionId, p: Ping)
    ensures |InFlight(sessions[k := p])| == |InFlight(sessions)| - One(Flies(sessions, k)) + One(p.inFlight)
  {
    var others := InFlight(sessions) - {k};
    assert InFlight(sessions) == if Flies(sessions, k) then others + {k} else others;
    assert InFlight(sessions[k := p]) == if p.inFlight then others + {k} else others;
  }

  lemma InFlightRemove(sessions: map<SessionId, Ping>, k: SessionId)
    ensures |InFlight(sessions - {k})| == |InFlight(sessions)| - One(Flies(sessions, k))
  {
    var others := InFlight(sessions) - {k};
    assert InFlight(sessions) == if Flies(sessions, k) then others + {k} else others;
    assert InFlight(sessions - {k}) == others;
  }

  /** A reply to a ping that is out is recorded as a round trip, any other reply not at all. */
  lemma ReplyIsRecorded(cfg: Config, f: Fleet, k: SessionId)
    requires f.owedRtts == 0
    ensures var g := Next(cfg, Next(cfg, f, Reply(k)), RecordRtt);
            && g.rtts == f.rtts + One(Flies(f.sessions, k)) && !Flies(g.sessions, k)
            && (g.timeouts, g.sent, g.dropped) == (f.timeouts, f.sent, f.dropped)
            && |InFlight(g.sessions)| == |InFlight(f.sessions)| - One(Flies(f.sessions, k))
  {
    if Flies(f.sessions, k) {
      InFlightUpdate(f.sessions, k, f.sessions[k].(inFlight := false));
    }
  }

  /** Every ping sent is answered, timed out, in flight or dropped with its session, exactly once. */
  lemma {:induction false} PingsAccounted(cfg: Config, steps: seq<Step>)
    ensures var f := Run(cfg, steps);
            f.sent == f.rtts + f.timeouts + f.owedRtts + f.owedTimeouts + f.dropped + |InFlight(f.sessions)|
  {
    if steps != [] {
      PingsAccounted(cfg, steps[..|steps| - 1]);
      var f := Run(cfg, steps[..|steps| - 1]);
      match steps[|steps| - 1]
      case Register(k) => InFlightUpdate(f.sessions, k, Ping(false, 0, 0));
      case Unregister(k) => InFlightRemove(f.sessions, k);
      case Tick(k, now) => if k in f.sessions { InFlightUpdate(f.sessions, k, PingTick(cfg, f.sessions[k], now).0); }
      case Reply(k) => if Flies(f.sessions, k) { InFlightUpdate(f.sessions, k, f.sessions[k].(inFlight := false)); }
      case _ =>
    }
  }
}
