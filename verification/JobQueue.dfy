/** The job queue of a room or lobby: who may run its jobs, and in which order they run. */
module JobQueue {

  type Job = nat
  /** An activation of Push or Execute. */
  type Id = nat

  /** Executor: about to empty the queue, running the i-th job of a batch, or done with a batch. */
  datatype Exec = Top | Running(batch: seq<Job>, i: nat) | Counted

  /**
   * adding: pushes that have raised the count and not yet queued their job;
   * first: the same, for pushes that found the count at 0;
   * ready: pushes that found the count at 0 and have queued their job;
   * handed: how often this queue is in the global queue;
   * order: the jobs in the order in which they were queued.
   */
  datatype State = State(
    count: int,
    queue: seq<Job>,
    adding: map<Id, Job>,
    first: map<Id, Job>,
    ready: set<Id>,
    handed: nat,
    execs: map<Id, Exec>,
    executed: seq<Job>,
    order: seq<Job>)

  const EMPTY := State(0, [], map[], map[], {}, 0, map[], [], [])

  datatype Step =
    | Raise(id: Id, job: Job)          // fetch_add on the count
    | Enqueue(id: Id)                  // push into the locked queue
    | Decide(id: Id, busy: bool)       // busy: the thread already runs some queue
    | TakeOver(id: Id)                 // a worker takes this queue from the global queue
    | PopAll(id: Id)
    | RunNext(id: Id)
    | Lower(id: Id)                    // fetch_sub on the count
    | GoOn(id: Id, late: bool)         // late: the time slice is over

  function Next(s: State, step: Step): State {
    match step
    case Raise(id, job) =>
      if id in s.adding || id in s.first || id in s.ready then s
      else if s.count == 0 then s.(count := 1, first := s.first[id := job])
      else s.(count := s.count + 1, adding := s.adding[id := job])
    case Enqueue(id) =>
      if id in s.adding then
        s.(queue := s.queue + [s.adding[id]], order := s.order + [s.adding[id]], adding := s.adding - {id})
      else if id in s.first then
        s.(queue := s.queue + [s.first[id]], order := s.order + [s.first[id]], first := s.first - {id}, ready := s.ready + {id})
      else s
    case Decide(id, busy) =>
      if id !in s.ready || id in s.execs then s
      else if busy then s.(ready := s.ready - {id}, handed := s.handed + 1)
      else s.(ready := s.ready - {id}, execs := s.execs[id := Top])
    case TakeOver(id) =>
      if s.handed > 0 && id !in s.execs then s.(handed := s.handed - 1, execs := s.execs[id := Top]) else s
    case PopAll(id) =>
      if id in s.execs && s.execs[id].Top? then s.(queue := [], execs := s.execs[id := Running(s.queue, 0)]) else s
    case RunNext(id) =>
      if id in s.execs && s.execs[id].Running? && s.execs[id].i < |s.execs[id].batch| then
        var e := s.execs[id];
        s.(executed := s.executed + [e.batch[e.i]], execs := s.execs[id := Running(e.batch, e.i + 1)])
      else s
    case Lower(id) =>
      if id in s.execs && s.execs[id].Running? && s.execs[id].i >= |s.execs[id].batch| then
        var n := |s.execs[id].batch|;
        s.(count := s.count - n, execs := if s.count == n then s.execs - {id} else s.execs[id := Counted])
      else s
    case GoOn(id, late) =>
      if id in s.execs && s.execs[id].Counted? then
        if late then s.(execs := s.execs - {id}, handed := s.handed + 1) else s.(execs := s.execs[id := Top])
      else s
  }

  function Run(steps: seq<Step>): State {
    if steps == [] then EMPTY else Next(Run(steps[..|steps| - 1]), steps[|steps| - 1])
  }

  /** Jobs taken out of the queue that the count still includes. */
  function Taken(e: Exec): nat {
    if e.Running? then |e.batch| else 0
  }

  function Rest(e: Exec): seq<Job> {
    if e.Running? && e.i <= |e.batch| then e.batch[e.i..] else []
  }

  /** Permissions to run the queue: at most one exists, and one exists iff the count is positive. */
  function Permits(s: State): nat {
    |s.first| + |s.ready| + s.handed + |s.execs|
  }

  ghost predicate Inv(s: State) {
    && s.count >= 0
    && Permits(s) == (if s.count > 0 then 1 else 0)
    && (s.execs == map[] ==> s.count == |s.queue| + |s.adding| + |s.first| && s.order == s.executed + s.queue)
    && (forall e | e in s.execs ::
          && s.count == |s.queue| + |s.adding| + |s.first| + Taken(s.execs[e])
          && s.order == s.executed + Rest(s.execs[e]) + s.queue
          && (s.execs[e].Running? ==> s.execs[e].i <= |s.execs[e].batch|))
  }

  lemma MapGrows<V>(m: map<Id, V>, k: Id, v: V)
    ensures |m[k := v]| == if k in m then |m| else |m| + 1
  {
    assert m[k := v].Keys == m.Keys + {k};
    assert |m[k := v]| == |m[k := v].Keys| && |m| == |m.Keys|;
  }

  lemma MapShrinks<V>(m: map<Id, V>, k: Id)
    requires k in m
    ensures |m - {k}| == |m| - 1
  {
    assert (m - {k}).Keys == m.Keys - {k};
    assert |m - {k}| == |(m - {k}).Keys| && |m| == |m.Keys|;
  }

  lemma OnlyOne<V>(m: map<Id, V>, a: Id, b: Id)
    requires a in m && b in m && |m| <= 1
    ensures a == b
  {
    MapShrinks(m, a);
    assert b in m - {a} || a == b;
  }

  lemma RaiseKeeps(s: State, id: Id, job: Job)
    requires Inv(s)
    ensures Inv(Next(s, Raise(id, job)))
  {
    MapGrows(s.first, id, job);
    MapGrows(s.adding, id, job);
  }

  lemma EnqueueKeeps(s: State, id: Id)
    requires Inv(s)
    ensures Inv(Next(s, Enqueue(id)))
  {
    if id in s.adding {
      MapShrinks(s.adding, id);
      RequeueOrder(s, s.adding[id]);
    } else if id in s.first {
      MapShrinks(s.first, id);
      RequeueOrder(s, s.first[id]);
    }
  }

  lemma RequeueOrder(s: State, job: Job)
    ensures s.executed + (s.queue + [job]) == (s.executed + s.queue) + [job]
    ensures forall e | e in s.execs ::
              s.executed + Rest(s.execs[e]) + (s.queue + [job]) == (s.executed + Rest(s.execs[e]) + s.queue) + [job]
  {
  }

  lemma NoExecutor(s: State)
    requires Inv(s) && (s.ready != {} || s.handed > 0)
    ensures s.execs == map[] && s.count > 0
  {
    assert |s.execs.Keys| == |s.execs|;
    assert s.execs.Keys == {};
  }

  lemma DecideKeeps(s: State, id: Id, busy: bool)
    requires Inv(s)
    ensures Inv(Next(s, Decide(id, busy)))
  {
    if id in s.ready {
      NoExecutor(s);
      MapGrows(s.execs, id, Top);
      assert s.executed + [] + s.queue == s.executed + s.queue;
    }
  }

  lemma TakeOverKeeps(s: State, id: Id)
    requires Inv(s)
    ensures Inv(Next(s, TakeOver(id)))
  {
    if s.handed > 0 {
      NoExecutor(s);
      MapGrows(s.execs, id, Top);
      assert s.executed + [] + s.queue == s.executed + s.queue;
    }
  }

  /** The executor is the only one, so its view decides for the whole queue. */
  lemma Sole(s: State, id: Id)
    requires Inv(s) && id in s.execs
    ensures s.count > 0 && s.execs == map[id := s.execs[id]]
  {
    MapShrinks(s.execs, id);
    forall b | b in s.execs ensures b == id {
      OnlyOne(s.execs, b, id);
    }
  }

  lemma PopAllKeeps(s: State, id: Id)
    requires Inv(s)
    ensures Inv(Next(s, PopAll(id)))
  {
    if id in s.execs && s.execs[id].Top? {
      Sole(s, id);
      assert s.executed + [] + s.queue == s.executed + s.queue + [];
      MapGrows(s.execs, id, Running(s.queue, 0));
    }
  }

  /** What Inv says of a queue with one executor. */
  lemma SoleInv(s: State, id: Id, e: Exec)
    requires s.execs == map[id := e]
    ensures Inv(s) <==>
            && s.count > 0 && |s.first| + |s.ready| + s.handed == 0
            && s.count == |s.queue| + |s.adding| + |s.first| + Taken(e)
            && s.order == s.executed + Rest(e) + s.queue
            && (e.Running? ==> e.i <= |e.batch|)
  {
    assert |s.execs| == 1;
    assert id in s.execs && s.execs[id] == e;
  }

  lemma RestShrinks(executed: seq<Job>, b: seq<Job>, i: nat, queue: seq<Job>)
    requires i < |b|
    ensures executed + b[i..] + queue == (executed + [b[i]]) + b[i + 1..] + queue
  {
    assert b[i..] == [b[i]] + b[i + 1..];
  }

  lemma RunNextKeeps(s: State, id: Id)
    requires Inv(s)
    ensures Inv(Next(s, RunNext(id)))
  {
    if id in s.execs && s.execs[id].Running? && s.execs[id].i < |s.execs[id].batch| {
      var e := s.execs[id];
      Sole(s, id);
      SoleInv(s, id, e);
      RestShrinks(s.executed, e.batch, e.i, s.queue);
      var e' := Running(e.batch, e.i + 1);
      assert s.execs[id := e'] == map[id := e'];
      SoleInv(Next(s, RunNext(id)), id, e');
    }
  }

  lemma LowerKeeps(s: State, id: Id)
    requires Inv(s)
    ensures Inv(Next(s, Lower(id)))
  {
    if id in s.execs && s.execs[id].Running? && s.execs[id].i >= |s.execs[id].batch| {
      Sole(s, id);
      assert Rest(s.execs[id]) == [];
      assert s.executed + [] + s.queue == s.executed + s.queue;
      if s.count == |s.execs[id].batch| {
        MapShrinks(s.execs, id);
        assert s.execs - {id} == map[];
      } else {
        MapGrows(s.execs, id, Counted);
      }
    }
  }

  lemma GoOnKeeps(s: State, id: Id, late: bool)
    requires Inv(s)
    ensures Inv(Next(s, GoOn(id, late)))
  {
    if id in s.execs {
      Sole(s, id);
      MapShrinks(s.execs, id);
      MapGrows(s.execs, id, Top);
      assert s.execs - {id} == map[];
      assert s.executed + [] + s.queue == s.executed + s.queue;
    }
  }

  lemma {:induction false} QueueInvariant(steps: seq<Step>)
    ensures Inv(Run(steps))
  {
    if steps != [] {
      var s := Run(steps[..|steps| - 1]);
      QueueInvariant(steps[..|steps| - 1]);
      match steps[|steps| - 1]
      case Raise(id, job) => RaiseKeeps(s, id, job);
      case Enqueue(id) => EnqueueKeeps(s, id);
      case Decide(id, busy) => DecideKeeps(s, id, busy);
      case TakeOver(id) => TakeOverKeeps(s, id);
      case PopAll(id) => PopAllKeeps(s, id);
      case RunNext(id) => RunNextKeeps(s, id);
      case Lower(id) => LowerKeeps(s, id);
      case GoOn(id, late) => GoOnKeeps(s, id, late);
    }
  }

  /** No two threads ever run jobs of the same queue at once. */
  lemma SingleExecutor(steps: seq<Step>, a: Id, b: Id)
    requires a in Run(steps).execs && b in Run(steps).execs
    ensures a == b
  {
    QueueInvariant(steps);
    OnlyOne(Run(steps).execs, a, b);
  }

  /** Jobs run in the order in which they were queued, none twice and none skipped. */
  lemma RunsInOrder(steps: seq<Step>)
    ensures Run(steps).executed <= Run(steps).order
  {
    QueueInvariant(steps);
    ExecutedFirst(Run(steps));
  }

  lemma ExecutedFirst(s: State)
    requires Inv(s)
    ensures s.executed <= s.order
  {
    if s.execs != map[] {
      var e :| e in s.execs;
      assert s.order == s.executed + Rest(s.execs[e]) + s.queue;
    }
  }

  /** A queued job is never stranded: someone holds the permission to run it. */
  lemma NothingStranded(steps: seq<Step>)
    ensures var s := Run(steps);
            s.queue != [] || s.adding != map[] ==> s.first != map[] || s.ready != {} || s.handed > 0 || s.execs != map[]
    ensures var s := Run(steps); Permits(s) == 0 ==> s.executed == s.order && s.count == 0
  {
    QueueInvariant(steps);
    var s := Run(steps);
    if s.first == map[] && s.ready == {} && s.handed == 0 && s.execs == map[] {
      assert |s.adding| == 0 && |s.queue| == 0;
    }
    if Permits(s) == 0 {
      assert |s.execs.Keys| == |s.execs| == 0;
      assert s.execs.Keys == {};
      assert s.execs == map[];
      assert s.executed + s.queue == s.executed;
    }
  }

  /** An executor that found the queue empty goes round again; it never mistakes 0 for the end. */
  lemma EmptyBatchGoesOn(steps: seq<Step>, id: Id)
    requires id in Run(steps).execs && Run(steps).execs[id] == Running([], 0)
    ensures var s := Next(Run(steps), Lower(id)); id in s.execs && s.execs[id] == Counted
  {
    QueueInvariant(steps);
    MapShrinks(Run(steps).execs, id);
  }

  /**
   * A thread that raised the count from 0 runs the queue itself iff it runs no queue already;
   * otherwise it hands the queue over.
   */
  lemma BusyNeverRuns(steps: seq<Step>, id: Id, busy: bool)
    requires id in Run(steps).ready
    ensures var s := Next(Run(steps), Decide(id, busy));
            && (id in s.execs <==> !busy) && (s.handed == 1 <==> busy) && id !in s.ready
  {
    QueueInvariant(steps);
    NoExecutor(Run(steps));
    ReadyIsOne(Run(steps), id);
  }

  lemma ReadyIsOne(s: State, id: Id)
    requires Inv(s) && id in s.ready
    ensures s.handed == 0
  {
    assert |s.ready| >= 1 by {
      assert {id} <= s.ready;
      assert |s.ready - {id}| == |s.ready| - 1;
    }
  }

  /** An executor with jobs left keeps the queue within its time slice, and hands it over after that. */
  lemma KeepsWithinSlice(steps: seq<Step>, id: Id, late: bool)
    requires id in Run(steps).execs && Run(steps).execs[id].Counted?
    ensures var s := Next(Run(steps), GoOn(id, late));
            && (id in s.execs <==> !late) && (!late ==> s.execs[id].Top?)
            && (s.handed == 1 <==> late) && s.count > 0
  {
    QueueInvariant(steps);
    Sole(Run(steps), id);
    MapShrinks(Run(steps).execs, id);
  }

  /** A handed over queue is taken by whoever asks for it. */
  lemma HandedIsTaken(steps: seq<Step>, id: Id)
    requires Run(steps).handed > 0
    ensures var s := Next(Run(steps), TakeOver(id)); id in s.execs && s.execs[id].Top? && s.handed == 0
  {
    QueueInvariant(steps);
    NoExecutor(Run(steps));
  }

  function RunAll(s: State, id: Id, n: nat): State {
    if n == 0 then s else Next(RunAll(s, id, n - 1), RunNext(id))
  }

  /** s with the executor id after n jobs of the batch b. */
  function Ran(s: State, id: Id, b: seq<Job>, n: nat): State
    requires n <= |b|
  {
    s.(executed := s.executed + b[..n], execs := map[id := Running(b, n)])
  }

  lemma RanOneMore(s: State, id: Id, b: seq<Job>, n: nat)
    requires 0 < n <= |b|
    ensures Next(Ran(s, id, b, n - 1), RunNext(id)) == Ran(s, id, b, n)
  {
    assert (s.executed + b[..n - 1]) + [b[n - 1]] == s.executed + b[..n];
    assert map[id := Running(b, n - 1)][id := Running(b, n)] == map[id := Running(b, n)];
  }

  lemma {:induction false} RunAllRuns(s: State, id: Id, b: seq<Job>, n: nat)
    requires s.execs == map[id := Running(b, 0)] && n <= |b|
    ensures RunAll(s, id, n) == Ran(s, id, b, n)
  {
    if n == 0 {
      assert s.executed + b[..0] == s.executed;
    } else {
      RunAllRuns(s, id, b, n - 1);
      RanOneMore(s, id, b, n);
    }
  }

  lemma LastLowerLeaves(s: State, id: Id, b: seq<Job>)
    requires s.execs == map[id := Running(b, |b|)] && s.count == |b|
    ensures Next(s, Lower(id)) == s.(count := 0, execs := map[])
  {
    assert map[id := Running(b, |b|)] - {id} == map[];
  }

  /**
   * One round of the executor empties the queue: while no push is under way it runs all queued jobs
   * in order, brings the count to 0 and leaves.
   */
  lemma OneRoundDrains(steps: seq<Step>, id: Id)
    requires var s := Run(steps); id in s.execs && s.execs[id].Top? && s.adding == map[]
    ensures var s := Run(steps);
            var r := Next(RunAll(Next(s, PopAll(id)), id, |s.queue|), Lower(id));
            && r.executed == r.order == s.executed + s.queue && r.count == 0
            && r.queue == [] && r.execs == map[] && r.handed == 0
  {
    QueueInvariant(steps);
    var s := Run(steps);
    Sole(s, id);
    LoneCount(s, id);
    var p := s.(queue := [], execs := map[id := Running(s.queue, 0)]);
    assert s.execs[id := Running(s.queue, 0)] == map[id := Running(s.queue, 0)];
    RunAllRuns(p, id, s.queue, |s.queue|);
    assert s.queue[..|s.queue|] == s.queue;
    LastLowerLeaves(Ran(p, id, s.queue, |s.queue|), id, s.queue);
  }

  lemma LoneCount(s: State, id: Id)
    requires Inv(s) && id in s.execs && s.execs[id].Top? && s.adding == map[]
    ensures s.count == |s.queue| && s.handed == 0 && s.order == s.executed + s.queue
  {
    MapShrinks(s.execs, id);
    assert s.executed + [] + s.queue == s.executed + s.queue;
  }
}
