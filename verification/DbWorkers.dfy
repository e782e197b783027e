/** The database worker threads: draining the task queue, and sharing the connections. */
module DbWorkers {

  import opened Basics

  type Conn = nat

  // ----- the connection pool ----------------------------------------------------------

  /** How the set-up of one connection goes: mysql_init, then up to three attempts to connect. */
  datatype Setup = Setup(initOk: bool, attempts: seq<bool>)

  predicate Connects(s: Setup) {
    s.initOk && exists r :: 0 <= r < 3 && r < |s.attempts| && s.attempts[r]
  }

  /** The connections that come up, in order. */
  function Established(setups: seq<Setup>): seq<Conn> {
    if setups == [] then []
    else Established(setups[..|setups| - 1]) + (if Connects(setups[|setups| - 1]) then [|setups| - 1] else [])
  }

  class DbConnectionPool {
    var connections: seq<Conn>
    var poolSize: nat

    constructor ()
      ensures connections == [] && poolSize == 0
    {
      connections, poolSize := [], 0;
    }

    method Init(setups: seq<Setup>) returns (ready: bool)
      requires connections == [] && poolSize == 0
      modifies this
      ensures connections == Established(setups) && poolSize == |connections|
      ensures ready <==> exists i :: 0 <= i < |setups| && Connects(setups[i])
    {
      for i := 0 to |setups|
        invariant connections == Established(setups[..i]) && poolSize == |connections|
        invariant poolSize > 0 <==> exists j :: 0 <= j < i && Connects(setups[j])
      {
        assert setups[..i + 1][..i] == setups[..i];
        if !setups[i].initOk {
          continue;
        }
        var connected := false;
        for retry := 0 to 3
          invariant connected <==> exists r :: 0 <= r < retry && r < |setups[i].attempts| && setups[i].attempts[r]
        {
          if retry < |setups[i].attempts| && setups[i].attempts[retry] {
            connected := true;
            break;
          }
        }
        assert connected <==> Connects(setups[i]);
        if !connected {
          continue;
        }
        connections := connections + [i];
        poolSize := poolSize + 1;
      }
      assert setups[..|setups|] == setups;
      ready := poolSize > 0;
    }

    method Acquire() returns (conn: Option<Conn>)
      modifies `connections
      ensures conn == if old(connections) == [] then None else Some(old(connections)[0])
      ensures connections == if old(connections) == [] then [] else old(connections)[1..]
    {
      if connections == [] {
        return None;
      }
      conn := Some(connections[0]);
      connections := connections[1..];
    }

    method Release(conn: Option<Conn>)
      modifies `connections
      ensures connections == old(connections) + (if conn.Some? then [conn.value] else [])
    {
      if conn.None? {
        return;
      }
      connections := connections + [conn.value];
    }

    method Shutdown()
      modifies this
      ensures connections == [] && poolSize == 0
    {
      while connections != []
        decreases |connections|
      {
        connections := connections[1..];
      }
      poolSize := 0;
    }
  }

  /** What a worker finds when it looks at the queue under the mutex. */
  datatype Turn = Wait | Leave | Take(task: nat)

  class DbSystem {
    var running: bool
    var tasks: seq<nat>
    /** Tasks run so far, in order. */
    var ran: seq<nat>

    constructor ()
      ensures running && tasks == [] && ran == []
    {
      running, tasks, ran := true, [], [];
    }

    /** A task is dropped without a word once Shutdown has begun. */
    method Execute(task: nat)
      modifies `tasks
      ensures tasks == old(tasks) + (if running then [task] else [])
    {
      if !running {
        return;
      }
      tasks := tasks + [task];
    }

    method LookForTask() returns (turn: Turn)
      modifies `tasks
      ensures turn.Wait? <==> running && old(tasks) == []
      ensures turn.Leave? <==> !running && old(tasks) == []
      ensures old(tasks) == (if turn.Take? then [turn.task] else []) + tasks
    {
      if running && tasks == [] {
        return Wait;
      }
      if !running && tasks == [] {
        return Leave;
      }
      turn := Take(tasks[0]);
      tasks := tasks[1..];
    }

    /** What other threads do between two looks of the worker. */
    method Others(happenings: seq<Happening>)
      modifies `running, `tasks
      ensures tasks == old(tasks) + Admitted(old(running), happenings)
      ensures running == StillRunning(old(running), happenings)
    {
      for i := 0 to |happenings|
        invariant tasks + Admitted(running, happenings[i..]) == old(tasks) + Admitted(old(running), happenings)
        invariant StillRunning(running, happenings[i..]) == StillRunning(old(running), happenings)
      {
        assert happenings[i..][1..] == happenings[i + 1..];
        match happenings[i]
        case Submit(task) => Execute(task);
        case Stop => running := false;
      }
    }

    /** One look after others have acted; it ends with a task run, a wait, or the worker leaving. */
    method LookOnce(happenings: seq<Happening>) returns (left: bool)
      modifies this
      ensures ran + tasks == old(ran) + old(tasks) + Admitted(old(running), happenings)
      ensures running == StillRunning(old(running), happenings)
      ensures left <==> !running && tasks == [] && ran == old(ran)
      ensures var found := old(|tasks|) + |Admitted(old(running), happenings)|;
              && |ran| == old(|ran|) + (if found == 0 then 0 else 1)
              && |tasks| == (if found == 0 then 0 else found - 1)
              && (left <==> !running && found == 0)
    {
      Others(happenings);
      ghost var queued := tasks;
      var turn := LookForTask();
      left := turn.Leave?;
      if turn.Take? {
        assert (ran + [turn.task]) + tasks == ran + queued;
        ran := ran + [turn.task];
      }
      assert old(ran) + queued == old(ran) + old(tasks) + Admitted(old(running), happenings);
    }

    /**
     * A worker over any number of looks at the queue, with whatever other threads do before each.
     * It runs what was accepted, in order, and leaves only after Shutdown has begun and all of it
     * has been run.
     */
    method WorkerThread(looks: seq<seq<Happening>>) returns (left: bool, ghost seen: seq<seq<Happening>>)
      modifies this
      ensures seen <= looks && (!left ==> seen == looks)
      ensures Standing(old(ran + tasks), old(running), old(|tasks|), seen, ran, tasks, running, left)
    {
      left, seen := false, [];
      var i := 0;
      while i < |looks| && !left
        invariant 0 <= i <= |looks| && seen == looks[..i]
        invariant Standing(old(ran + tasks), old(running), old(|tasks|), seen, ran, tasks, running, left)
      {
        ghost var r, q, up := ran, tasks, running;
        left := LookOnce(looks[i]);
        StandingNext(old(ran + tasks), old(running), old(|tasks|), seen, looks[i], r, q, up, ran, tasks, running, left);
        seen := seen + [looks[i]];
        i := i + 1;
      }
    }
  }

  /** The worker has left iff the last look was one to leave at, and none before it was. */
  ghost predicate Standing(all: seq<nat>, running0: bool, queued: nat, seen: seq<seq<Happening>>,
                           ran: seq<nat>, tasks: seq<nat>, running: bool, left: bool)
  {
    && Tracks(all, running0, queued, seen, ran, tasks, running)
    && (left <==> Quits(running0, queued, seen)) && NeverQuit(running0, queued, seen)
    && (left ==> !running && tasks == [])
  }

  lemma StandingNext(all: seq<nat>, running0: bool, queued: nat, seen: seq<seq<Happening>>, look: seq<Happening>,
                     ran: seq<nat>, tasks: seq<nat>, running: bool, ran': seq<nat>, tasks': seq<nat>, running': bool, left: bool)
    requires Standing(all, running0, queued, seen, ran, tasks, running, false)
    requires ran' + tasks' == ran + tasks + Admitted(running, look) && running' == StillRunning(running, look)
    requires var found := |tasks| + |Admitted(running, look)|;
             |tasks'| == (if found == 0 then 0 else found - 1) && (left <==> !running' && found == 0)
    ensures Standing(all, running0, queued, seen + [look], ran', tasks', running', left)
  {
    TracksNext(all, running0, queued, seen, look, ran, tasks, running, ran', tasks', running');
    NeverQuitSnoc(running0, queued, seen, look);
  }

  /** Where a worker stands after the looks: what it has run and what is queued are what there was and what was accepted. */
  ghost predicate Tracks(all: seq<nat>, running0: bool, queued: nat, seen: seq<seq<Happening>>,
                         ran: seq<nat>, tasks: seq<nat>, running: bool)
  {
    && ran + tasks == all + Admitted(running0, AllOf(seen))
    && running == StillRunning(running0, AllOf(seen))
    && |tasks| == LeftOver(running0, queued, seen)
  }

  lemma TracksNext(all: seq<nat>, running0: bool, queued: nat, seen: seq<seq<Happening>>, look: seq<Happening>,
                   ran: seq<nat>, tasks: seq<nat>, running: bool, ran': seq<nat>, tasks': seq<nat>, running': bool)
    requires Tracks(all, running0, queued, seen, ran, tasks, running)
    requires ran' + tasks' == ran + tasks + Admitted(running, look) && running' == StillRunning(running, look)
    requires var found := |tasks| + |Admitted(running, look)|; |tasks'| == if found == 0 then 0 else found - 1
    ensures Tracks(all, running0, queued, seen + [look], ran', tasks', running')
    ensures Quits(running0, queued, seen + [look]) <==> !running' && |tasks| + |Admitted(running, look)| == 0
  {
    FoundSnoc(running0, queued, seen, look);
    AdmittedConcat(running0, AllOf(seen), look);
    assert all + (Admitted(running0, AllOf(seen)) + Admitted(running, look))
        == (all + Admitted(running0, AllOf(seen))) + Admitted(running, look);
  }

  datatype Happening = Submit(task: nat) | Stop

  /** The tasks that Execute accepts. */
  function Admitted(running: bool, hs: seq<Happening>): seq<nat> {
    if hs == [] then []
    else match hs[0]
      case Submit(task) => (if running then [task] else []) + Admitted(running, hs[1..])
      case Stop => Admitted(false, hs[1..])
  }

  function StillRunning(running: bool, hs: seq<Happening>): bool {
    if hs == [] then running else StillRunning(running && !hs[0].Stop?, hs[1..])
  }

  function AllOf(looks: seq<seq<Happening>>): seq<Happening> {
    if looks == [] then [] else AllOf(looks[..|looks| - 1]) + looks[|looks| - 1]
  }

  /** How many tasks are queued when the last of the looks happens. */
  function Found(running: bool, queued: nat, looks: seq<seq<Happening>>): nat
    requires looks != []
    decreases |looks|, 0
  {
    var before := looks[..|looks| - 1];
    LeftOver(running, queued, before) + |Admitted(StillRunning(running, AllOf(before)), looks[|looks| - 1])|
  }

  /** How many are queued after it: every look that finds a task takes one. */
  function LeftOver(running: bool, queued: nat, looks: seq<seq<Happening>>): nat
    decreases |looks|, 1
  {
    if looks == [] then queued
    else var n := Found(running, queued, looks); if n == 0 then 0 else n - 1
  }

  lemma FoundSnoc(running: bool, queued: nat, seen: seq<seq<Happening>>, look: seq<Happening>)
    ensures AllOf(seen + [look]) == AllOf(seen) + look
    ensures Found(running, queued, seen + [look])
         == LeftOver(running, queued, seen) + |Admitted(StillRunning(running, AllOf(seen)), look)|
  {
    assert (seen + [look])[..|seen|] == seen;
  }

  /** The last of the looks finds the system stopped and nothing queued. */
  predicate Quits(running: bool, queued: nat, looks: seq<seq<Happening>>) {
    looks != [] && Found(running, queued, looks) == 0 && !StillRunning(running, AllOf(looks))
  }

  /** No look before the last of those seen was one to leave at. */
  ghost predicate NeverQuit(running: bool, queued: nat, seen: seq<seq<Happening>>) {
    forall k | 0 <= k < |seen| :: !Quits(running, queued, seen[..k])
  }

  lemma NeverQuitSnoc(running: bool, queued: nat, seen: seq<seq<Happening>>, look: seq<Happening>)
    requires NeverQuit(running, queued, seen) && !Quits(running, queued, seen)
    ensures NeverQuit(running, queued, seen + [look])
  {
    var all := seen + [look];
    forall k | 0 <= k < |all| ensures !Quits(running, queued, all[..k]) {
      assert all[..k] == if k < |seen| then seen[..k] else seen;
    }
  }

  lemma {:induction false} AdmittedConcat(running: bool, a: seq<Happening>, b: seq<Happening>)
    ensures Admitted(running, a + b) == Admitted(running, a) + Admitted(StillRunning(running, a), b)
    ensures StillRunning(running, a + b) == StillRunning(StillRunning(running, a), b)
  {
    if a == [] {
      assert a + b == b;
    } else {
      AdmittedConcat(running && !a[0].Stop?, a[1..], b);
      assert (a + b)[1..] == a[1..] + b;
    }
  }

  // ----- the worker system ----------------------------------------------------------------

  /** Tasks are numbered in the order in which Execute accepted them. */
  datatype Worker =
    | Waiting
    | Busy(task: nat)                        // has no connection yet
    | Using(task: nat, conn: Option<Conn>)   // None: the pool was exhausted
    | Done(task: nat)                        // has given its connection back
    | Exited

  datatype Phase = Up | Flagged | Joined

  datatype System = System(
    phase: Phase,
    accepted: nat,
    tasks: seq<nat>,
    taken: nat,
    finished: set<nat>,
    workers: seq<Worker>,
    idle: seq<Conn>)

  datatype Step =
    | Execute
    | Dequeue(i: nat)
    | Acquire(i: nat)
    | Release(i: nat)
    | Finish(i: nat)
    | Exit(i: nat)
    | Flag
    | Join

  predicate AllExited(ws: seq<Worker>) {
    forall i | 0 <= i < |ws| :: ws[i].Exited?
  }

  function At(s: System, i: nat): Worker {
    if i < |s.workers| then s.workers[i] else Exited
  }

  function Set(s: System, i: nat, w: Worker): System
    requires i < |s.workers|
  {
    s.(workers := s.workers[i := w])
  }

  function Next(s: System, step: Step): System {
    match step
    case Execute =>
      if s.phase.Up? then s.(tasks := s.tasks + [s.accepted], accepted := s.accepted + 1) else s
    case Dequeue(i) =>
      if At(s, i).Waiting? && s.tasks != [] then
        Set(s, i, Busy(s.tasks[0])).(tasks := s.tasks[1..], taken := s.taken + 1)
      else s
    case Acquire(i) =>
      if !At(s, i).Busy? then s
      else if s.idle == [] then Set(s, i, Using(At(s, i).task, None))
      else Set(s, i, Using(At(s, i).task, Some(s.idle[0]))).(idle := s.idle[1..])
    case Release(i) =>
      if !At(s, i).Using? then s
      else
        var w := At(s, i);
        Set(s, i, Done(w.task)).(idle := s.idle + (if w.conn.Some? then [w.conn.value] else []))
    case Finish(i) =>
      if At(s, i).Done? then Set(s, i, Waiting).(finished := s.finished + {At(s, i).task}) else s
    case Exit(i) =>
      if At(s, i).Waiting? && !s.phase.Up? && s.tasks == [] then Set(s, i, Exited) else s
    case Flag => if s.phase.Up? then s.(phase := Flagged) else s
    case Join =>
      if s.phase.Flagged? && AllExited(s.workers) then s.(phase := Joined, idle := []) else s
  }

  function Start(workerCount: nat, conns: seq<Conn>): System {
    System(Up, 0, [], 0, {}, seq(workerCount, _ => Waiting), conns)
  }

  function Run(workerCount: nat, conns: seq<Conn>, steps: seq<Step>): System {
    if steps == [] then Start(workerCount, conns)
    else Next(Run(workerCount, conns, steps[..|steps| - 1]), steps[|steps| - 1])
  }

  predicate Carries(w: Worker, t: nat) {
    !w.Waiting? && !w.Exited? && w.task == t
  }

  /** The queue holds the accepted tasks from number taken on, in order. */
  ghost predicate QueueInv(s: System) {
    && s.accepted == s.taken + |s.tasks|
    && (forall j | 0 <= j < |s.tasks| :: s.tasks[j] == s.taken + j)
  }

  /** Every task taken is finished or carried by exactly one worker, and not both. */
  ghost predicate TaskInv(s: System) {
    && (forall t | t in s.finished :: t < s.taken)
    && (forall i | 0 <= i < |s.workers| && !s.workers[i].Waiting? && !s.workers[i].Exited? ::
          s.workers[i].task < s.taken && s.workers[i].task !in s.finished)
    && (forall i, j, t | 0 <= i < j < |s.workers| && Carries(s.workers[i], t) :: !Carries(s.workers[j], t))
    && (forall t: nat | t < s.taken && t !in s.finished :: exists i :: 0 <= i < |s.workers| && Carries(s.workers[i], t))
  }

  ghost predicate ExitInv(s: System) {
    && (forall i | 0 <= i < |s.workers| && s.workers[i].Exited? :: !s.phase.Up? && s.tasks == [])
    && (s.phase.Joined? ==> AllExited(s.workers))
  }

  ghost predicate Inv(s: System) {
    QueueInv(s) && TaskInv(s) && ExitInv(s)
  }

  /** Steps that leave every task with its worker. */
  lemma SameCarriersKeep(s: System, s': System)
    requires TaskInv(s) && s'.taken == s.taken && s'.finished == s.finished && |s'.workers| == |s.workers|
    requires forall i, t | 0 <= i < |s.workers| :: Carries(s'.workers[i], t) <==> Carries(s.workers[i], t)
    ensures TaskInv(s')
  {
    forall i | 0 <= i < |s'.workers| && !s'.workers[i].Waiting? && !s'.workers[i].Exited?
      ensures s'.workers[i].task < s'.taken && s'.workers[i].task !in s'.finished
    {
      assert Carries(s'.workers[i], s'.workers[i].task);
    }
    forall t: nat | t < s'.taken && t !in s'.finished ensures exists i :: 0 <= i < |s'.workers| && Carries(s'.workers[i], t) {
      var i :| 0 <= i < |s.workers| && Carries(s.workers[i], t);
      assert Carries(s'.workers[i], t);
    }
  }

  lemma DequeueKeeps(s: System, i: nat)
    requires QueueInv(s) && TaskInv(s) && At(s, i).Waiting? && s.tasks != []
    ensures TaskInv(Next(s, Dequeue(i)))
  {
    var s' := Next(s, Dequeue(i));
    forall t: nat | t < s'.taken && t !in s'.finished ensures exists j :: 0 <= j < |s'.workers| && Carries(s'.workers[j], t) {
      if t < s.taken {
        var j :| 0 <= j < |s.workers| && Carries(s.workers[j], t);
        assert Carries(s'.workers[j], t);
      } else {
        assert Carries(s'.workers[i], t);
      }
    }
  }

  lemma CarriedOnce(s: System, i: nat, j: nat, a: nat, b: nat)
    requires TaskInv(s) && i < |s.workers| && j < |s.workers| && i != j
    requires Carries(s.workers[i], a) && Carries(s.workers[j], b)
    ensures a != b
  {
    if i < j {
      assert !Carries(s.workers[j], a);
    } else {
      assert !Carries(s.workers[i], b);
    }
  }

  /** No other worker carries the task that worker i has done. */
  lemma FinishedApart(s: System, i: nat)
    requires TaskInv(s) && At(s, i).Done?
    ensures forall j | 0 <= j < |s.workers| && j != i && !s.workers[j].Waiting? && !s.workers[j].Exited? ::
              s.workers[j].task != s.workers[i].task
  {
    forall j | 0 <= j < |s.workers| && j != i && !s.workers[j].Waiting? && !s.workers[j].Exited?
      ensures s.workers[j].task != s.workers[i].task
    {
      CarriedOnce(s, i, j, s.workers[i].task, s.workers[j].task);
    }
  }

  lemma StillCarried(s: System, i: nat, t: nat)
    requires TaskInv(s) && At(s, i).Done? && t < s.taken && t !in s.finished && t != At(s, i).task
    ensures var ws := Next(s, Finish(i)).workers; exists j :: 0 <= j < |ws| && Carries(ws[j], t)
  {
    var j :| 0 <= j < |s.workers| && Carries(s.workers[j], t);
    assert Carries(Next(s, Finish(i)).workers[j], t);
  }

  lemma FinishKeeps(s: System, i: nat)
    requires TaskInv(s) && At(s, i).Done?
    ensures TaskInv(Next(s, Finish(i)))
  {
    var s' := Next(s, Finish(i));
    FinishedApart(s, i);
    forall t: nat | t < s'.taken && t !in s'.finished ensures exists j :: 0 <= j < |s'.workers| && Carries(s'.workers[j], t) {
      StillCarried(s, i, t);
    }
    forall j, k, t | 0 <= j < k < |s'.workers| && Carries(s'.workers[j], t) ensures !Carries(s'.workers[k], t) {
      assert Carries(s.workers[j], t);
    }
  }

  lemma TaskKeeps(s: System, step: Step)
    requires QueueInv(s) && TaskInv(s)
    ensures TaskInv(Next(s, step))
  {
    if step.Dequeue? && At(s, step.i).Waiting? && s.tasks != [] {
      DequeueKeeps(s, step.i);
    } else if step.Finish? && At(s, step.i).Done? {
      FinishKeeps(s, step.i);
    } else {
      SameCarriersKeep(s, Next(s, step));
    }
  }

  lemma NextKeeps(s: System, step: Step)
    requires Inv(s)
    ensures Inv(Next(s, step))
  {
    TaskKeeps(s, step);
  }

  lemma {:induction false} WorkerInvariant(workerCount: nat, conns: seq<Conn>, steps: seq<Step>)
    ensures Inv(Run(workerCount, conns, steps)) && |Run(workerCount, conns, steps).workers| == workerCount
  {
    if steps != [] {
      WorkerInvariant(workerCount, conns, steps[..|steps| - 1]);
      NextKeeps(Run(workerCount, conns, steps[..|steps| - 1]), steps[|steps| - 1]);
    }
  }

  /** When Shutdown has joined the workers, every task ever accepted has been run, exactly once. */
  lemma DrainedAtJoin(workerCount: nat, conns: seq<Conn>, steps: seq<Step>)
    requires workerCount >= 1 && Run(workerCount, conns, steps).phase.Joined?
    ensures var s := Run(workerCount, conns, steps);
            s.tasks == [] && forall t: nat :: t in s.finished <==> t < s.accepted
  {
    WorkerInvariant(workerCount, conns, steps);
    var s := Run(workerCount, conns, steps);
    assert s.workers[0].Exited?;
  }

  /** No task is accepted once Shutdown has begun, whatever else happens. */
  lemma {:induction false} NothingAcceptedAfterFlag(workerCount: nat, conns: seq<Conn>, steps: seq<Step>, more: seq<Step>)
    requires !Run(workerCount, conns, steps).phase.Up?
    ensures var s, s' := Run(workerCount, conns, steps), Run(workerCount, conns, steps + more);
            s'.accepted == s.accepted && !s'.phase.Up?
  {
    if more == [] {
      assert steps + more == steps;
    } else {
      NothingAcceptedAfterFlag(workerCount, conns, steps, more[..|more| - 1]);
      assert (steps + more)[..|steps + more| - 1] == steps + more[..|more| - 1];
    }
  }

  /** How many steps a worker is away from leaving, tasks in the queue aside. */
  function ToGo(w: Worker): nat {
    match w
    case Exited => 0
    case Waiting => 1
    case Done(_) => 2
    case Using(_, _) => 3
    case Busy(_) => 4
  }

  function AllToGo(ws: seq<Worker>): nat {
    if ws == [] then 0 else AllToGo(ws[..|ws| - 1]) + ToGo(ws[|ws| - 1])
  }

  lemma {:induction false} ToGoUpdate(ws: seq<Worker>, i: nat, w: Worker)
    requires i < |ws|
    ensures AllToGo(ws[i := w]) == AllToGo(ws) - ToGo(ws[i]) + ToGo(w)
  {
    var n := |ws| - 1;
    if i < n {
      ToGoUpdate(ws[..n], i, w);
      assert ws[i := w][..n] == ws[..n][i := w];
    } else {
      assert ws[i := w][..n] == ws[..n];
    }
  }

  function Work(s: System): nat {
    4 * |s.tasks| + AllToGo(s.workers)
  }

  /** What worker i does next once the system is stopped. */
  function Onward(s: System, i: nat): Step {
    match At(s, i)
    case Busy(_) => Acquire(i)
    case Using(_, _) => Release(i)
    case Done(_) => Finish(i)
    case Waiting => if s.tasks == [] then Exit(i) else Dequeue(i)
    case Exited => Join
  }

  lemma OnwardHelps(s: System, i: nat)
    requires s.phase.Flagged? && i < |s.workers| && !s.workers[i].Exited?
    ensures var s' := Next(s, Onward(s, i)); s'.phase.Flagged? && Work(s') < Work(s)
  {
    var s' := Next(s, Onward(s, i));
    ToGoUpdate(s.workers, i, s'.workers[i]);
  }

  lemma {:induction false} StoppedFinishes(workerCount: nat, conns: seq<Conn>, steps: seq<Step>) returns (more: seq<Step>)
    requires Run(workerCount, conns, steps).phase.Flagged?
    ensures Run(workerCount, conns, steps + more).phase.Joined?
    decreases Work(Run(workerCount, conns, steps))
  {
    var s := Run(workerCount, conns, steps);
    if AllExited(s.workers) {
      more := [Join];
      RunSnoc(workerCount, conns, steps, Join);
    } else {
      var i: nat :| i < |s.workers| && !s.workers[i].Exited?;
      var a := Onward(s, i);
      OnwardHelps(s, i);
      RunSnoc(workerCount, conns, steps, a);
      var rest := StoppedFinishes(workerCount, conns, steps + [a]);
      more := [a] + rest;
      assert steps + more == steps + [a] + rest;
    }
  }

  /** From every reachable state shutdown can run to its end: no worker is ever in another's way. */
  lemma ShutdownFinishes(workerCount: nat, conns: seq<Conn>, steps: seq<Step>) returns (more: seq<Step>)
    ensures Run(workerCount, conns, steps + more).phase.Joined?
  {
    var s := Run(workerCount, conns, steps);
    if s.phase.Joined? {
      more := [];
      assert steps + more == steps;
    } else if s.phase.Flagged? {
      more := StoppedFinishes(workerCount, conns, steps);
    } else {
      RunSnoc(workerCount, conns, steps, Flag);
      var rest := StoppedFinishes(workerCount, conns, steps + [Flag]);
      more := [Flag] + rest;
      assert steps + more == steps + [Flag] + rest;
    }
  }

  ghost predicate AlwaysDrains(workerCount: nat, conns: seq<Conn>) {
    forall steps | Run(workerCount, conns, steps).phase.Joined? ::
      forall t: nat | t < Run(workerCount, conns, steps).accepted :: t in Run(workerCount, conns, steps).finished
  }

  /** Shutdown loses no task iff there is at least one worker. */
  lemma DrainsIffWorkers(workerCount: nat, conns: seq<Conn>)
    ensures AlwaysDrains(workerCount, conns) <==> workerCount >= 1
  {
    if workerCount >= 1 {
      forall steps | Run(workerCount, conns, steps).phase.Joined?
        ensures forall t: nat | t < Run(workerCount, conns, steps).accepted :: t in Run(workerCount, conns, steps).finished
      {
        DrainedAtJoin(workerCount, conns, steps);
      }
    } else {
      RunSnoc(0, conns, [], Execute);
      RunSnoc(0, conns, [] + [Execute], Flag);
      RunSnoc(0, conns, [] + [Execute] + [Flag], Join);
      var s := Run(0, conns, [] + [Execute] + [Flag] + [Join]);
      assert s.phase.Joined? && s.accepted == 1 && 0 !in s.finished;
    }
  }

  // ----- connections ------------------------------------------------------------------

  predicate HoldsConn(w: Worker) {
    w.Using? && w.conn.Some?
  }

  predicate HoldsThis(w: Worker, x: Conn) {
    HoldsConn(w) && w.conn.value == x
  }

  function Tally(ws: seq<Worker>, f: Worker -> bool): nat {
    if ws == [] then 0 else Tally(ws[..|ws| - 1], f) + (if f(ws[|ws| - 1]) then 1 else 0)
  }

  /** How many workers have borrowed x, and how many have borrowed any connection. */
  function Borrowers(ws: seq<Worker>, x: Conn): nat {
    Tally(ws, w => HoldsThis(w, x))
  }

  function Borrowed(ws: seq<Worker>): nat {
    Tally(ws, w => HoldsConn(w))
  }

  lemma {:induction false} TallyUpdate(ws: seq<Worker>, i: nat, w: Worker, f: Worker -> bool)
    requires i < |ws|
    ensures Tally(ws[i := w], f) == Tally(ws, f) - (if f(ws[i]) then 1 else 0) + (if f(w) then 1 else 0)
  {
    var n := |ws| - 1;
    if i < n {
      TallyUpdate(ws[..n], i, w, f);
      assert ws[i := w][..n] == ws[..n][i := w];
    } else {
      assert ws[i := w][..n] == ws[..n];
    }
  }

  lemma {:induction false} TallyBound(ws: seq<Worker>, f: Worker -> bool)
    ensures Tally(ws, f) <= |ws|
    ensures forall i | 0 <= i < |ws| && !f(ws[i]) :: Tally(ws, f) < |ws|
  {
    if ws != [] {
      TallyBound(ws[..|ws| - 1], f);
      forall i | 0 <= i < |ws| && !f(ws[i]) ensures Tally(ws, f) < |ws| {
        assert i < |ws| - 1 ==> ws[..|ws| - 1][i] == ws[i];
      }
    }
  }

  lemma {:induction false} TallyNone(n: nat, f: Worker -> bool)
    requires !f(Waiting)
    ensures Tally(seq(n, _ => Waiting), f) == 0
  {
    if n > 0 {
      TallyNone(n - 1, f);
      assert seq(n, _ => Waiting)[..n - 1] == seq(n - 1, _ => Waiting);
    }
  }

  lemma FrontCount(s: seq<Conn>, x: Conn)
    requires s != []
    ensures multiset(s)[x] == multiset(s[1..])[x] + (if s[0] == x then 1 else 0)
  {
    assert s == [s[0]] + s[1..];
  }

  ghost function Whereabouts(s: System, x: Conn): (nat, nat) {
    (multiset(s.idle)[x] + Borrowers(s.workers, x), |s.idle| + Borrowed(s.workers))
  }

  lemma TallyBoth(ws: seq<Worker>, i: nat, w: Worker, x: Conn)
    requires i < |ws|
    ensures Borrowers(ws[i := w], x) == Borrowers(ws, x) - One(HoldsThis(ws[i], x)) + One(HoldsThis(w, x))
    ensures Borrowed(ws[i := w]) == Borrowed(ws) - One(HoldsConn(ws[i])) + One(HoldsConn(w))
  {
    TallyUpdate(ws, i, w, v => HoldsThis(v, x));
    TallyUpdate(ws, i, w, v => HoldsConn(v));
  }

  function One(b: bool): int {
    if b then 1 else 0
  }

  lemma AcquireMoves(s: System, i: nat, x: Conn)
    ensures Whereabouts(Next(s, Acquire(i)), x) == Whereabouts(s, x)
  {
    if At(s, i).Busy? {
      TallyBoth(s.workers, i, Next(s, Acquire(i)).workers[i], x);
      if s.idle != [] {
        FrontCount(s.idle, x);
      }
    }
  }

  lemma ReleaseMoves(s: System, i: nat, x: Conn)
    ensures Whereabouts(Next(s, Release(i)), x) == Whereabouts(s, x)
  {
    if At(s, i).Using? {
      TallyBoth(s.workers, i, Next(s, Release(i)).workers[i], x);
    }
  }

  /** One step moves connections only between the pool and a worker. */
  lemma ConnectionsStep(s: System, step: Step, x: Conn)
    requires !Next(s, step).phase.Joined?
    ensures Whereabouts(Next(s, step), x) == Whereabouts(s, x)
  {
    if step.Acquire? {
      AcquireMoves(s, step.i, x);
    } else if step.Release? {
      ReleaseMoves(s, step.i, x);
    } else if Next(s, step).workers != s.workers {
      TallyBoth(s.workers, step.i, Next(s, step).workers[step.i], x);
    }
  }

  /** Idle and borrowed connections are always the connections established, each exactly once. */
  lemma {:induction false} ConnectionsConserved(workerCount: nat, conns: seq<Conn>, steps: seq<Step>, x: Conn)
    requires !Run(workerCount, conns, steps).phase.Joined?
    ensures var s := Run(workerCount, conns, steps);
            && multiset(s.idle)[x] + Borrowers(s.workers, x) == multiset(conns)[x]
            && |s.idle| + Borrowed(s.workers) == |conns|
  {
    if steps == [] {
      TallyNone(workerCount, w => HoldsThis(w, x));
      TallyNone(workerCount, w => HoldsConn(w));
    } else {
      ConnectionsConserved(workerCount, conns, steps[..|steps| - 1], x);
      ConnectionsStep(Run(workerCount, conns, steps[..|steps| - 1]), steps[|steps| - 1], x);
    }
  }

  ghost predicate NeverExhausted(workerCount: nat, conns: seq<Conn>) {
    forall steps, i: nat | At(Run(workerCount, conns, steps), i).Busy? :: Run(workerCount, conns, steps).idle != []
  }

  /** The first k workers each take a task and a connection. */
  function Hungry(k: nat): seq<Step> {
    if k == 0 then [] else Hungry(k - 1) + [Execute, Dequeue(k - 1), Acquire(k - 1)]
  }

  lemma RunSnoc(workerCount: nat, conns: seq<Conn>, steps: seq<Step>, a: Step)
    ensures Run(workerCount, conns, steps + [a]) == Next(Run(workerCount, conns, steps), a)
  {
    assert (steps + [a])[..|steps|] == steps;
  }

  /** Nothing is queued, so many connections are idle, and the workers from k on wait. */
  ghost predicate Fed(s: System, workerCount: nat, idle: nat, k: nat) {
    && s.phase.Up? && s.tasks == [] && |s.idle| == idle && |s.workers| == workerCount
    && forall i | k <= i < workerCount :: s.workers[i].Waiting?
  }

  /** As Fed, but one task is queued. */
  ghost predicate Offered(s: System, workerCount: nat, idle: nat, k: nat) {
    |s.tasks| == 1 && Fed(s.(tasks := []), workerCount, idle, k)
  }

  /** As Fed, but worker k has a task. */
  ghost predicate Served(s: System, workerCount: nat, idle: nat, k: nat) {
    Fed(s, workerCount, idle, k + 1) && At(s, k).Busy?
  }

  lemma Offer(workerCount: nat, conns: seq<Conn>, steps: seq<Step>, idle: nat, k: nat)
    requires Fed(Run(workerCount, conns, steps), workerCount, idle, k)
    ensures Offered(Run(workerCount, conns, steps + [Execute]), workerCount, idle, k)
  {
    RunSnoc(workerCount, conns, steps, Execute);
  }

  lemma Serve(workerCount: nat, conns: seq<Conn>, steps: seq<Step>, idle: nat, k: nat)
    requires Offered(Run(workerCount, conns, steps), workerCount, idle, k) && k < workerCount
    ensures Served(Run(workerCount, conns, steps + [Dequeue(k)]), workerCount, idle, k)
  {
    RunSnoc(workerCount, conns, steps, Dequeue(k));
  }

  lemma Feed(workerCount: nat, conns: seq<Conn>, steps: seq<Step>, idle: nat, k: nat)
    requires Served(Run(workerCount, conns, steps), workerCount, idle, k) && idle > 0
    ensures Fed(Run(workerCount, conns, steps + [Acquire(k)]), workerCount, idle - 1, k + 1)
  {
    RunSnoc(workerCount, conns, steps, Acquire(k));
  }

  lemma {:induction false} HungryTakesAll(workerCount: nat, conns: seq<Conn>, k: nat)
    requires k <= |conns| && k <= workerCount
    ensures Fed(Run(workerCount, conns, Hungry(k)), workerCount, |conns| - k, k)
  {
    if k > 0 {
      var steps, idle := Hungry(k - 1), |conns| - (k - 1);
      HungryTakesAll(workerCount, conns, k - 1);
      Offer(workerCount, conns, steps, idle, k - 1);
      Serve(workerCount, conns, steps + [Execute], idle, k - 1);
      Feed(workerCount, conns, steps + [Execute] + [Dequeue(k - 1)], idle, k - 1);
      assert Hungry(k) == steps + [Execute] + [Dequeue(k - 1)] + [Acquire(k - 1)];
    }
  }

  /**
   * Over all runs, a worker that wants a connection finds one iff there are at least as many
   * connections as workers.
   */
  lemma NeverExhaustedIff(workerCount: nat, conns: seq<Conn>)
    ensures NeverExhausted(workerCount, conns) <==> |conns| >= workerCount
  {
    if |conns| >= workerCount {
      forall steps, i: nat | At(Run(workerCount, conns, steps), i).Busy?
        ensures Run(workerCount, conns, steps).idle != []
      {
        WorkerInvariant(workerCount, conns, steps);
        var s := Run(workerCount, conns, steps);
        ConnectionsConserved(workerCount, conns, steps, 0);
        TallyBound(s.workers, w => HoldsConn(w));
      }
    } else {
      var k := |conns|;
      HungryTakesAll(workerCount, conns, k);
      Offer(workerCount, conns, Hungry(k), 0, k);
      Serve(workerCount, conns, Hungry(k) + [Execute], 0, k);
      var s := Run(workerCount, conns, Hungry(k) + [Execute] + [Dequeue(k)]);
      assert At(s, k).Busy? && s.idle == [];
    }
  }

  /** The n-th task to leave the queue is the n-th task accepted. */
  lemma DequeuedInOrder(workerCount: nat, conns: seq<Conn>, steps: seq<Step>, i: nat)
    requires var s := Run(workerCount, conns, steps); At(s, i).Waiting? && s.tasks != []
    ensures var s := Run(workerCount, conns, steps); At(Next(s, Dequeue(i)), i) == Busy(s.taken)
  {
    WorkerInvariant(workerCount, conns, steps);
  }

  // ----- start-up --------------------------------------------------------------------

  /** One worker for every connection configured, unless none came up. */
  function WorkerCount(setups: seq<Setup>): nat {
    if Established(setups) == [] then 0 else |setups|
  }

  ghost predicate SomeConnect(setups: seq<Setup>) {
    exists i :: 0 <= i < |setups| && Connects(setups[i])
  }

  ghost predicate AllConnect(setups: seq<Setup>) {
    forall i | 0 <= i < |setups| :: Connects(setups[i])
  }

  lemma {:induction false} EstablishedCount(setups: seq<Setup>)
    ensures |Established(setups)| <= |setups|
    ensures |Established(setups)| == |setups| <==> AllConnect(setups)
    ensures Established(setups) != [] <==> SomeConnect(setups)
  {
    if setups != [] {
      var n := |setups| - 1;
      var front := setups[..n];
      EstablishedCount(front);
      assert forall i | 0 <= i < n :: front[i] == setups[i];
      if SomeConnect(setups) && !Connects(setups[n]) {
        var i :| 0 <= i < |setups| && Connects(setups[i]);
        assert Connects(front[i]);
      }
      if SomeConnect(front) {
        var i :| 0 <= i < |front| && Connects(front[i]);
        assert Connects(setups[i]);
      }
      if Connects(setups[n]) && AllConnect(front) {
        forall i | 0 <= i < |setups| ensures Connects(setups[i]) {
          assert i < n ==> Connects(front[i]);
        }
      }
    }
  }

  /** The pool holds exactly the connections that came up, in the order of their set-up. */
  lemma {:induction false} EstablishedExactly(setups: seq<Setup>)
    ensures forall x: Conn :: x in Established(setups) <==> x < |setups| && Connects(setups[x])
    ensures forall i, j | 0 <= i < j < |Established(setups)| :: Established(setups)[i] < Established(setups)[j]
  {
    if setups != [] {
      var n := |setups| - 1;
      EstablishedExactly(setups[..n]);
      assert forall x | 0 <= x < n :: setups[..n][x] == setups[x];
      var front := Established(setups[..n]);
      assert forall i | 0 <= i < |front| :: front[i] in front;
    }
  }

  /** A started system never leaves a worker without a connection iff all connections came up, or none did. */
  lemma StartNeverExhausted(setups: seq<Setup>)
    ensures NeverExhausted(WorkerCount(setups), Established(setups)) <==> AllConnect(setups) || !SomeConnect(setups)
  {
    EstablishedCount(setups);
    NeverExhaustedIff(WorkerCount(setups), Established(setups));
  }

  /** It runs every task it accepts before it is shut down iff some connection came up. */
  lemma StartAlwaysDrains(setups: seq<Setup>)
    ensures AlwaysDrains(WorkerCount(setups), Established(setups)) <==> SomeConnect(setups)
  {
    EstablishedCount(setups);
    DrainsIffWorkers(WorkerCount(setups), Established(setups));
  }
}
