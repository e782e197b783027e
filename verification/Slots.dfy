/** Slot reservation in a room or lobby: lock-free reservations, then jobs run one at a time. */
module Slots {

  type PlayerId = nat
  type ThreadId = nat

  datatype Job = Enter(player: PlayerId) | Leave(player: PlayerId)

  /** How far the job at work has come. */
  datatype Working =
    | Idle
    | Entering(player: PlayerId)   // holds a reservation, has not touched the member map
    | Inserted(player: PlayerId)   // is a member, its session is still to be looked at
    | Returning                    // is about to give one slot back

  /**
   * loaded: threads inside TryReserveSlot that have loaded a positive count;
   * granted: threads that own a reservation and have not queued the Enter job yet.
   */
  datatype Place = Place(
    capacity: nat,
    slots: int,
    players: set<PlayerId>,
    jobs: seq<Job>,
    working: Working,
    loaded: map<ThreadId, int>,
    granted: set<ThreadId>)

  datatype Step =
    | Load(t: ThreadId)
    | Cas(t: ThreadId, spurious: bool)
    | QueueEnter(t: ThreadId, player: PlayerId)
    | QueueLeave(player: PlayerId)
    | StartJob
    | Insert
    | LookAtSession(alive: bool)
    | ReturnSlot

  function Opened(capacity: nat): Place {
    Place(capacity, capacity, {}, [], Idle, map[], {})
  }

  /** checksSize: whether Enter first compares the member count with the capacity, as a room does. */
  function Next(p: Place, step: Step, checksSize: bool): Place {
    match step
    case Load(t) =>
      if t in p.granted then p
      else if p.slots <= 0 then p.(loaded := p.loaded - {t})
      else p.(loaded := p.loaded[t := p.slots])
    case Cas(t, spurious) =>
      if t !in p.loaded then p
      else if p.loaded[t] == p.slots && !spurious
      then p.(slots := p.slots - 1, loaded := p.loaded - {t}, granted := p.granted + {t})
      else p.(loaded := p.loaded - {t})
    case QueueEnter(t, player) =>
      if t in p.granted then p.(granted := p.granted - {t}, jobs := p.jobs + [Enter(player)]) else p
    case QueueLeave(player) => p.(jobs := p.jobs + [Leave(player)])
    case StartJob =>
      if !p.working.Idle? || p.jobs == [] then p
      else (
        var q := p.(jobs := p.jobs[1..]);
        match p.jobs[0]
        case Enter(player) => q.(working := Entering(player))
        case Leave(player) => if player in p.players then q.(players := p.players - {player}, working := Returning) else q
      )
    case Insert =>
      if !p.working.Entering? then p
      else if checksSize && |p.players| >= p.capacity then p.(working := Returning)
      else if p.working.player in p.players then p.(working := Returning)
      else p.(players := p.players + {p.working.player}, working := Inserted(p.working.player))
    case LookAtSession(alive) =>
      if !p.working.Inserted? then p
      else if alive then p.(working := Idle)
      else p.(players := p.players - {p.working.player}, working := Returning)
    case ReturnSlot =>
      if p.working.Returning? then p.(slots := p.slots + 1, working := Idle) else p
  }

  function Run(capacity: nat, checksSize: bool, steps: seq<Step>): Place {
    if steps == [] then Opened(capacity)
    else Next(Run(capacity, checksSize, steps[..|steps| - 1]), steps[|steps| - 1], checksSize)
  }

  function Enters(jobs: seq<Job>): nat {
    if jobs == [] then 0 else (if jobs[0].Enter? then 1 else 0) + Enters(jobs[1..])
  }

  /** Reservations not yet turned into a membership or given back. */
  function Outstanding(p: Place): nat {
    |p.granted| + Enters(p.jobs) + (if p.working.Entering? || p.working.Returning? then 1 else 0)
  }

  ghost predicate Inv(p: Place) {
    && p.slots >= 0
    && p.slots + |p.players| + Outstanding(p) == p.capacity
    && (p.working.Inserted? ==> p.working.player in p.players)
    && (forall t | t in p.loaded :: p.loaded[t] > 0 && t !in p.granted)
  }

  lemma {:induction false} EntersSnoc(jobs: seq<Job>, j: Job)
    ensures Enters(jobs + [j]) == Enters(jobs) + (if j.Enter? then 1 else 0)
  {
    if jobs != [] {
      EntersSnoc(jobs[1..], j);
      assert (jobs + [j])[1..] == jobs[1..] + [j];
    }
  }

  lemma LoadKeeps(p: Place, t: ThreadId, checksSize: bool)
    requires Inv(p)
    ensures Inv(Next(p, Load(t), checksSize))
  {
  }

  lemma CasKeeps(p: Place, t: ThreadId, spurious: bool, checksSize: bool)
    requires Inv(p)
    ensures Inv(Next(p, Cas(t, spurious), checksSize))
  {
    if t in p.loaded {
      assert t !in p.granted && |p.granted + {t}| == |p.granted| + 1;
    }
  }

  lemma QueueKeeps(p: Place, step: Step, checksSize: bool)
    requires Inv(p) && (step.QueueEnter? || step.QueueLeave?)
    ensures Inv(Next(p, step, checksSize))
  {
    EntersSnoc(p.jobs, if step.QueueEnter? then Enter(step.player) else Leave(step.player));
  }

  lemma StartKeeps(p: Place, checksSize: bool)
    requires Inv(p)
    ensures Inv(Next(p, StartJob, checksSize))
  {
  }

  lemma WorkKeeps(p: Place, step: Step, checksSize: bool)
    requires Inv(p) && (step.Insert? || step.LookAtSession? || step.ReturnSlot?)
    ensures Inv(Next(p, step, checksSize))
  {
  }

  lemma NextKeeps(p: Place, step: Step, checksSize: bool)
    requires Inv(p)
    ensures Inv(Next(p, step, checksSize))
  {
    if step.Load? {
      LoadKeeps(p, step.t, checksSize);
    } else if step.Cas? {
      CasKeeps(p, step.t, step.spurious, checksSize);
    } else if step.QueueEnter? || step.QueueLeave? {
      QueueKeeps(p, step, checksSize);
    } else if step.StartJob? {
      StartKeeps(p, checksSize);
    } else {
      WorkKeeps(p, step, checksSize);
    }
  }

  /** Free slots, members and outstanding reservations always add up to the capacity. */
  lemma {:induction false} SlotsConserved(capacity: nat, checksSize: bool, steps: seq<Step>)
    ensures Inv(Run(capacity, checksSize, steps)) && Run(capacity, checksSize, steps).capacity == capacity
  {
    if steps != [] {
      SlotsConserved(capacity, checksSize, steps[..|steps| - 1]);
      NextKeeps(Run(capacity, checksSize, steps[..|steps| - 1]), steps[|steps| - 1], checksSize);
    }
  }

  /** Hence the counter stays in range, and membership never exceeds the capacity. */
  lemma SlotsInRange(capacity: nat, checksSize: bool, steps: seq<Step>)
    ensures var p := Run(capacity, checksSize, steps);
            0 <= p.slots <= capacity && |p.players| <= capacity
  {
    SlotsConserved(capacity, checksSize, steps);
  }

  /** The "room is full" branch of Enter is dead: the job's own reservation keeps a place free. */
  lemma FullBranchUnreachable(capacity: nat, steps: seq<Step>)
    requires Run(capacity, true, steps).working.Entering?
    ensures var p := Run(capacity, true, steps);
            |p.players| < p.capacity && Next(p, Insert, true) == Next(p, Insert, false)
  {
    SlotsConserved(capacity, true, steps);
  }

  /** While an Enter job is at work it owns a reservation, which is what Enter relies on. */
  lemma EnterOwnsReservation(capacity: nat, checksSize: bool, steps: seq<Step>)
    requires Run(capacity, checksSize, steps).working.Entering?
    ensures var p := Run(capacity, checksSize, steps); 0 <= p.slots && p.slots + |p.players| < capacity
  {
    SlotsConserved(capacity, checksSize, steps);
  }

  /** So the size check changes no run at all. */
  lemma {:induction false} SizeCheckRedundant(capacity: nat, steps: seq<Step>)
    ensures Run(capacity, true, steps) == Run(capacity, false, steps)
  {
    if steps != [] {
      var before := steps[..|steps| - 1];
      SizeCheckRedundant(capacity, before);
      if steps[|steps| - 1].Insert? && Run(capacity, true, before).working.Entering? {
        FullBranchUnreachable(capacity, before);
      }
    }
  }

  /**
   * A place at rest, with no reservation under way and no job left, has exactly its free slots:
   * nothing leaked on any path, failed entries included.
   */
  lemma RestHasNoLeak(capacity: nat, checksSize: bool, steps: seq<Step>)
    requires var p := Run(capacity, checksSize, steps); p.granted == {} && p.jobs == [] && p.working.Idle?
    ensures var p := Run(capacity, checksSize, steps); p.slots + |p.players| == capacity
  {
    SlotsConserved(capacity, checksSize, steps);
  }

  // ----- an undisturbed Enter or Leave ------------------------------------------------

  /** What Enter does to (slots, players) when nothing else runs; the caller holds a reservation. */
  function EnterEffect(capacity: nat, checksSize: bool, slots: int, players: set<PlayerId>, x: PlayerId, alive: bool):
    (int, set<PlayerId>)
  {
    if (checksSize && |players| >= capacity) || x in players || !alive then (slots + 1, players)
    else (slots, players + {x})
  }

  function LeaveEffect(slots: int, players: set<PlayerId>, x: PlayerId): (int, set<PlayerId>) {
    if x in players then (slots + 1, players - {x}) else (slots, players)
  }

  /** The steps of one Enter job, run back to back, amount to EnterEffect. */
  lemma EnterSteps(p: Place, x: PlayerId, checksSize: bool, alive: bool)
    requires p.working.Idle? && p.jobs != [] && p.jobs[0] == Enter(x)
    ensures var q := Next(Next(Next(Next(p, StartJob, checksSize), Insert, checksSize), LookAtSession(alive), checksSize), ReturnSlot, checksSize);
            && (q.slots, q.players) == EnterEffect(p.capacity, checksSize, p.slots, p.players, x, alive)
            && q.working.Idle? && q.jobs == p.jobs[1..] && q.granted == p.granted && q.loaded == p.loaded
  {
    assert x !in p.players ==> p.players + {x} - {x} == p.players;
  }

  lemma LeaveSteps(p: Place, x: PlayerId, checksSize: bool)
    requires p.working.Idle? && p.jobs != [] && p.jobs[0] == Leave(x)
    ensures var q := Next(Next(p, StartJob, checksSize), ReturnSlot, checksSize);
            && (q.slots, q.players) == LeaveEffect(p.slots, p.players, x)
            && q.working.Idle? && q.jobs == p.jobs[1..] && q.granted == p.granted
  {
  }

  /** Undisturbed, the load and the compare-exchange of TryReserveSlot take one slot iff one is free. */
  lemma ReserveSteps(p: Place, t: ThreadId, checksSize: bool)
    requires t !in p.granted && t !in p.loaded
    ensures Next(Next(p, Load(t), checksSize), Cas(t, false), checksSize)
         == if p.slots > 0 then p.(slots := p.slots - 1, granted := p.granted + {t}) else p
  {
    assert p.loaded[t := p.slots] - {t} == p.loaded && p.loaded - {t} == p.loaded;
  }

  /** From the reservation to the membership, undisturbed: one slot less, one member more. */
  lemma ReservationBecomesMember(p: Place, t: ThreadId, x: PlayerId, checksSize: bool)
    requires Inv(p) && p.slots > 0 && p.working.Idle? && p.jobs == []
    requires t !in p.granted && t !in p.loaded && x !in p.players
    ensures var reserved := Next(Next(p, Load(t), checksSize), Cas(t, false), checksSize);
            var started := Next(Next(reserved, QueueEnter(t, x), checksSize), StartJob, checksSize);
            Next(Next(started, Insert, checksSize), LookAtSession(true), checksSize)
            == p.(slots := p.slots - 1, players := p.players + {x})
  {
    ReserveSteps(p, t, checksSize);
    var reserved := p.(slots := p.slots - 1, granted := p.granted + {t});
    assert p.granted + {t} - {t} == p.granted;
    assert Next(reserved, QueueEnter(t, x), checksSize) == p.(slots := p.slots - 1, jobs := [Enter(x)]);
    var queued := p.(slots := p.slots - 1, jobs := [Enter(x)]);
    AdmitsNew(queued, x, checksSize);
  }

  lemma AdmitsNew(p: Place, x: PlayerId, checksSize: bool)
    requires p.working.Idle? && p.jobs == [Enter(x)] && x !in p.players && |p.players| < p.capacity
    ensures Next(Next(Next(p, StartJob, checksSize), Insert, checksSize), LookAtSession(true), checksSize)
         == p.(jobs := [], players := p.players + {x})
  {
  }

  // ----- what a queue of jobs amounts to ------------------------------------------------

  /** Slots and members after the jobs, for players whose sessions exist. */
  function AfterJobs(capacity: nat, checksSize: bool, slots: int, players: set<PlayerId>, jobs: seq<Job>): (int, set<PlayerId>)
    decreases |jobs|
  {
    if jobs == [] then (slots, players)
    else
      var (s, p) := match jobs[0]
                    case Enter(x) => EnterEffect(capacity, checksSize, slots, players, x, true)
                    case Leave(x) => LeaveEffect(slots, players, x);
      AfterJobs(capacity, checksSize, s, p, jobs[1..])
  }

  ghost predicate Mentions(jobs: seq<Job>, x: PlayerId) {
    exists i :: 0 <= i < |jobs| && jobs[i].player == x
  }

  /** The last of the jobs that concerns x is an Enter. */
  ghost predicate LastIsEnter(jobs: seq<Job>, x: PlayerId) {
    exists i :: 0 <= i < |jobs| && jobs[i] == Enter(x) && forall j | i < j < |jobs| :: jobs[j].player != x
  }

  lemma MentionsCons(jobs: seq<Job>, x: PlayerId)
    requires jobs != []
    ensures Mentions(jobs, x) <==> jobs[0].player == x || Mentions(jobs[1..], x)
  {
    var rest := jobs[1..];
    if Mentions(rest, x) {
      var i :| 0 <= i < |rest| && rest[i].player == x;
      assert jobs[i + 1].player == x;
    }
    if Mentions(jobs, x) {
      var i :| 0 <= i < |jobs| && jobs[i].player == x;
      assert i > 0 ==> rest[i - 1].player == x;
    }
  }

  lemma LastIsEnterCons(jobs: seq<Job>, x: PlayerId)
    requires jobs != []
    ensures LastIsEnter(jobs, x) <==> if Mentions(jobs[1..], x) then LastIsEnter(jobs[1..], x) else jobs[0] == Enter(x)
  {
    var rest := jobs[1..];
    assert forall j | 0 < j < |jobs| :: jobs[j] == rest[j - 1];
    assert forall j | 0 <= j < |rest| :: rest[j] == jobs[j + 1];
    if LastIsEnter(rest, x) {
      var i :| 0 <= i < |rest| && rest[i] == Enter(x) && forall j | i < j < |rest| :: rest[j].player != x;
      assert jobs[i + 1] == Enter(x) && forall j | i + 1 < j < |jobs| :: jobs[j].player != x;
    }
    if LastIsEnter(jobs, x) {
      var i :| 0 <= i < |jobs| && jobs[i] == Enter(x) && forall j | i < j < |jobs| :: jobs[j].player != x;
      if i > 0 {
        assert rest[i - 1] == Enter(x) && forall j | i - 1 < j < |rest| :: rest[j].player != x;
      } else {
        assert forall j | 0 <= j < |rest| :: rest[j].player != x;
      }
    }
  }

  /**
   * In a balanced place the queued jobs leave as members exactly those whose last job is an Enter and
   * the former members without a job, and every other slot free.
   */
  lemma {:induction false} LastJobDecides(capacity: nat, checksSize: bool, slots: int, players: set<PlayerId>, jobs: seq<Job>, x: PlayerId)
    requires slots >= 0 && slots + |players| + Enters(jobs) == capacity
    ensures var (s, p) := AfterJobs(capacity, checksSize, slots, players, jobs);
            && (x in p <==> if Mentions(jobs, x) then LastIsEnter(jobs, x) else x in players)
            && s >= 0 && s + |p| == capacity
    decreases |jobs|
  {
    if jobs != [] {
      MentionsCons(jobs, x);
      LastIsEnterCons(jobs, x);
      var (s, p) := match jobs[0]
                    case Enter(y) => EnterEffect(capacity, checksSize, slots, players, y, true)
                    case Leave(y) => LeaveEffect(slots, players, y);
      LastJobDecides(capacity, checksSize, s, p, jobs[1..], x);
    }
  }
}
