/** The reader-writer spin lock behind READ_LOCK and WRITE_LOCK. */
module RwLock {
  import opened Basics

  /** LThreadId: 0 until the thread has called InitTLS, then a number from an ever growing 32-bit counter. */
  type ThreadId = nat

  const HALF := 65536

  /** Where a thread is inside one of the four lock operations. */
  datatype Pc =
    | WriteRecurse            // found itself the owner
    | WriteSpin
    | WriteOwn                // won the flag, count not yet raised
    | WriteLower              // saw no readers, count not yet lowered
    | WriteStore              // lowered the count to 0, flag not yet cleared
    | ReadNested              // found itself the owner
    | ReadSpin
    | ReadCas(expected: nat)

  /** The 32-bit flag: the owner's id in the upper half, the number of readers in the lower half. */
  datatype Flag = Flag(owner: nat, readers: nat)

  const EMPTY := Flag(0, 0)

  /** Adding 1 to the flag; past 65535 readers the carry changes the owner. */
  function Plus1(f: Flag): Flag {
    if f.readers < HALF - 1 then Flag(f.owner, f.readers + 1)
    else if f.owner < HALF - 1 then Flag(f.owner + 1, 0)
    else EMPTY
  }

  function Minus1(f: Flag): Flag {
    if f.readers > 0 then Flag(f.owner, f.readers - 1)
    else if f.owner > 0 then Flag(f.owner - 1, HALF - 1)
    else Flag(HALF - 1, HALF - 1)
  }

  /** What the upper half of the flag can hold of an id. */
  function Low(t: ThreadId): nat {
    t % HALF
  }

  /** The write count is 16 bits wide. */
  function Up(c: nat): nat {
    if c < HALF - 1 then c + 1 else 0
  }

  function Down(c: nat): nat {
    if c > 0 then c - 1 else HALF - 1
  }

  datatype State = State(
    flag: Flag,
    writeCount: nat,
    pcs: map<ThreadId, Pc>,
    readers: multiset<ThreadId>,   // one entry for each ReadLock that has returned
    writers: multiset<ThreadId>,   // one entry for each WriteLock that has returned
    crashed: bool)

  const FREE := State(EMPTY, 0, map[], multiset{}, multiset{}, false)

  datatype Step =
    | WriteLock(t: ThreadId)     // the first load
    | ReadLock(t: ThreadId)      // the first load
    | Advance(t: ThreadId)       // the next atomic access of the operation at work
    | WriteUnlock(t: ThreadId)   // the first load
    | ReadUnlock(t: ThreadId)

  function Move(s: State, t: ThreadId): State
    requires t in s.pcs
  {
    var done := s.pcs - {t};
    match s.pcs[t]
    case WriteRecurse => s.(writeCount := Up(s.writeCount), pcs := done, writers := s.writers + multiset{t})
    case WriteSpin => if s.flag == EMPTY then s.(flag := Flag(Low(t), 0), pcs := s.pcs[t := WriteOwn]) else s
    case WriteOwn => s.(writeCount := Up(s.writeCount), pcs := done, writers := s.writers + multiset{t})
    case WriteLower =>
      var c := Down(s.writeCount);
      s.(writeCount := c, writers := s.writers - multiset{t}, pcs := if c == 0 then s.pcs[t := WriteStore] else done)
    case WriteStore => s.(flag := EMPTY, pcs := done)
    case ReadNested => s.(flag := Plus1(s.flag), pcs := done, readers := s.readers + multiset{t})
    case ReadSpin => s.(pcs := s.pcs[t := ReadCas(s.flag.readers)])
    case ReadCas(expected) =>
      if s.flag == Flag(0, expected) then s.(flag := Plus1(s.flag), pcs := done, readers := s.readers + multiset{t})
      else s.(pcs := s.pcs[t := ReadSpin])
  }

  function Next(s: State, step: Step): State {
    var t := step.t;
    if s.crashed then s
    else match step
      case WriteLock(_) =>
        if t in s.pcs then s else s.(pcs := s.pcs[t := if s.flag.owner == t then WriteRecurse else WriteSpin])
      case ReadLock(_) =>
        if t in s.pcs then s else s.(pcs := s.pcs[t := if s.flag.owner == t then ReadNested else ReadSpin])
      case Advance(_) => if t in s.pcs then Move(s, t) else s
      case WriteUnlock(_) =>
        if t in s.pcs || t !in s.writers then s
        else if s.flag.readers != 0 then s.(crashed := true)
        else s.(pcs := s.pcs[t := WriteLower])
      case ReadUnlock(_) =>
        if t in s.pcs || t !in s.readers then s
        else if s.flag.readers == 0 then s.(crashed := true)
        else s.(flag := Minus1(s.flag), readers := s.readers - multiset{t})
  }

  function Run(steps: seq<Step>): State {
    if steps == [] then FREE else Next(Run(steps[..|steps| - 1]), steps[|steps| - 1])
  }

  /** A writer shares the lock with no other thread. */
  ghost predicate Exclusive(s: State) {
    forall t, u | t in s.writers && (u in s.writers || u in s.readers) :: t == u
  }

  ghost predicate Over(steps: seq<Step>, ids: set<ThreadId>) {
    forall i | 0 <= i < |steps| :: steps[i].t in ids
  }

  /** No prefix of the run holds the lock more often than its 16-bit counters can count. */
  ghost predicate Bounded(steps: seq<Step>) {
    forall i | 0 <= i <= |steps| :: |Run(steps[..i]).readers| < HALF && |Run(steps[..i]).writers| < HALF
  }

  /** Ids that the upper half of the flag tells apart from 0 and from every other id in use. */
  ghost predicate Proper(ids: set<ThreadId>) {
    forall t | t in ids :: Low(t) != 0 && (t >= HALF ==> Low(t) !in ids)
  }

  /** t owns the flag and is on its way in or out. */
  predicate Claims(pcs: map<ThreadId, Pc>, t: ThreadId) {
    t in pcs && (pcs[t].WriteOwn? || pcs[t].WriteStore?)
  }

  /** t does something that only a writer does. */
  predicate ActsAsWriter(pcs: map<ThreadId, Pc>, t: ThreadId) {
    t in pcs && (pcs[t].WriteRecurse? || pcs[t].ReadNested? || pcs[t].WriteLower?)
  }

  /** No thread has or claims the lock for writing. */
  ghost predicate Unowned(s: State) {
    && s.flag.owner == 0 && s.writers == multiset{}
    && (forall t | t in s.pcs :: !Claims(s.pcs, t) && !ActsAsWriter(s.pcs, t))
  }

  /** h alone has or claims the lock for writing, and the flag names it. */
  ghost predicate OwnedBy(s: State, h: ThreadId) {
    && s.flag.owner == Low(h) != 0
    && (forall t | t in s.writers || t in s.readers :: t == h)
    && (forall t | t in s.pcs && (Claims(s.pcs, t) || ActsAsWriter(s.pcs, t)) :: t == h)
    && (Claims(s.pcs, h) ==> s.writers == multiset{} && s.readers == multiset{})
    && (!Claims(s.pcs, h) ==> h in s.writers)
    && (h in s.pcs && s.pcs[h].WriteLower? ==> s.readers == multiset{})
  }

  ghost predicate Held(s: State, ids: set<ThreadId>, holder: Option<ThreadId>) {
    && s.flag.readers == |s.readers| && s.writeCount == |s.writers|
    && if holder.None? then Unowned(s) else holder.value in ids && OwnedBy(s, holder.value)
  }

  ghost predicate Inv(s: State, ids: set<ThreadId>) {
    exists holder :: Held(s, ids, holder)
  }

  /** A thread that finds its own id in the flag is the holder. */
  lemma OwnerIsHolder(ids: set<ThreadId>, h: ThreadId, t: ThreadId)
    requires Proper(ids) && h in ids && t in ids && Low(h) == t
    ensures h == t
  {
  }

  lemma Unlow(t: ThreadId)
    ensures t < HALF ==> Low(t) == t
  {
  }

  /** A thread may come to any point that is neither a claim nor a writer's doing, or to a writer's if it is one. */
  lemma PointKeeps(s: State, ids: set<ThreadId>, holder: Option<ThreadId>, t: ThreadId, pc: Pc)
    requires Held(s, ids, holder) && !Claims(s.pcs, t) && !ActsAsWriter(s.pcs, t)
    requires pc.WriteSpin? || pc.ReadSpin? || pc.ReadCas? || (holder == Some(t) && (pc.WriteRecurse? || pc.ReadNested?))
    ensures Held(s.(pcs := s.pcs[t := pc]), ids, holder)
  {
    var s' := s.(pcs := s.pcs[t := pc]);
    forall u | u in s'.pcs && (Claims(s'.pcs, u) || ActsAsWriter(s'.pcs, u)) ensures holder == Some(u) {
      if u != t {
        assert u in s.pcs && (Claims(s.pcs, u) || ActsAsWriter(s.pcs, u));
      }
    }
  }

  lemma WriteRecurseKeeps(s: State, ids: set<ThreadId>, holder: Option<ThreadId>, t: ThreadId)
    requires Held(s, ids, holder) && Proper(ids) && t in s.pcs && s.pcs[t].WriteRecurse?
    requires |Move(s, t).readers| < HALF && |Move(s, t).writers| < HALF
    ensures Held(Move(s, t), ids, holder)
  {
  }

  lemma WriteSpinKeeps(s: State, ids: set<ThreadId>, holder: Option<ThreadId>, t: ThreadId)
    requires Held(s, ids, holder) && Proper(ids) && t in ids && t in s.pcs && s.pcs[t].WriteSpin?
    requires |Move(s, t).readers| < HALF && |Move(s, t).writers| < HALF
    ensures Held(Move(s, t), ids, if s.flag == EMPTY then Some(t) else holder)
  {
  }

  lemma WriteOwnKeeps(s: State, ids: set<ThreadId>, holder: Option<ThreadId>, t: ThreadId)
    requires Held(s, ids, holder) && Proper(ids) && t in s.pcs && s.pcs[t].WriteOwn?
    requires |Move(s, t).readers| < HALF && |Move(s, t).writers| < HALF
    ensures Held(Move(s, t), ids, holder)
  {
  }

  lemma WriteLowerKeeps(s: State, ids: set<ThreadId>, holder: Option<ThreadId>, t: ThreadId)
    requires Held(s, ids, holder) && t in s.pcs && s.pcs[t].WriteLower?
    ensures Held(Move(s, t), ids, holder)
  {
    assert holder == Some(t) && t in s.writers && s.readers == multiset{};
    var left := s.writers - multiset{t};
    assert |left| == |s.writers| - 1 && forall u | u in left :: u == t;
    if |left| == 0 {
      assert left == multiset{};
    } else {
      var u :| u in left;
    }
  }

  lemma WriteStoreKeeps(s: State, ids: set<ThreadId>, holder: Option<ThreadId>, t: ThreadId)
    requires Held(s, ids, holder) && Proper(ids) && t in s.pcs && s.pcs[t].WriteStore?
    requires |Move(s, t).readers| < HALF && |Move(s, t).writers| < HALF
    ensures Held(Move(s, t), ids, None)
  {
  }

  lemma ReadNestedKeeps(s: State, ids: set<ThreadId>, holder: Option<ThreadId>, t: ThreadId)
    requires Held(s, ids, holder) && Proper(ids) && t in s.pcs && s.pcs[t].ReadNested?
    requires |Move(s, t).readers| < HALF && |Move(s, t).writers| < HALF
    ensures Held(Move(s, t), ids, holder)
  {
  }

  lemma ReadSpinKeeps(s: State, ids: set<ThreadId>, holder: Option<ThreadId>, t: ThreadId)
    requires Held(s, ids, holder) && t in s.pcs && s.pcs[t].ReadSpin?
    ensures Held(Move(s, t), ids, holder)
  {
    PointKeeps(s, ids, holder, t, ReadCas(s.flag.readers));
  }

  /** A reader gets in only past a flag without owner. */
  lemma ReadCasKeeps(s: State, ids: set<ThreadId>, holder: Option<ThreadId>, t: ThreadId)
    requires Held(s, ids, holder) && t in s.pcs && s.pcs[t].ReadCas?
    requires |Move(s, t).readers| < HALF
    ensures Held(Move(s, t), ids, holder)
  {
    if s.flag == Flag(0, s.pcs[t].expected) {
      assert holder.None?;
      var s' := Move(s, t);
      assert forall u | u in s'.pcs :: u in s.pcs && s'.pcs[u] == s.pcs[u];
      assert forall u | u in s'.pcs :: !Claims(s.pcs, u) && !ActsAsWriter(s.pcs, u);
    } else {
      PointKeeps(s, ids, holder, t, ReadSpin);
    }
  }

  lemma MoveKeeps(s: State, ids: set<ThreadId>, holder: Option<ThreadId>, t: ThreadId)
    requires Held(s, ids, holder) && Proper(ids) && t in ids && t in s.pcs
    requires |Move(s, t).readers| < HALF && |Move(s, t).writers| < HALF
    ensures Inv(Move(s, t), ids)
  {
    match s.pcs[t]
    case WriteRecurse => WriteRecurseKeeps(s, ids, holder, t);
    case WriteSpin => WriteSpinKeeps(s, ids, holder, t);
    case WriteOwn => WriteOwnKeeps(s, ids, holder, t);
    case WriteLower => WriteLowerKeeps(s, ids, holder, t);
    case WriteStore => WriteStoreKeeps(s, ids, holder, t);
    case ReadNested => ReadNestedKeeps(s, ids, holder, t);
    case ReadSpin => ReadSpinKeeps(s, ids, holder, t);
    case ReadCas(_) => ReadCasKeeps(s, ids, holder, t);
  }

  lemma LockKeeps(s: State, ids: set<ThreadId>, holder: Option<ThreadId>, t: ThreadId)
    requires Held(s, ids, holder) && Proper(ids) && t in ids && t !in s.pcs
    ensures Held(s.(pcs := s.pcs[t := if s.flag.owner == t then WriteRecurse else WriteSpin]), ids, holder)
    ensures Held(s.(pcs := s.pcs[t := if s.flag.owner == t then ReadNested else ReadSpin]), ids, holder)
  {
    if s.flag.owner == t {
      ShownIsHolder(s, ids, holder, t);
      PointKeeps(s, ids, holder, t, WriteRecurse);
      PointKeeps(s, ids, holder, t, ReadNested);
    } else {
      PointKeeps(s, ids, holder, t, WriteSpin);
      PointKeeps(s, ids, holder, t, ReadSpin);
    }
  }

  lemma ShownIsHolder(s: State, ids: set<ThreadId>, holder: Option<ThreadId>, t: ThreadId)
    requires Held(s, ids, holder) && Proper(ids) && t in ids && s.flag.owner == t
    ensures holder == Some(t)
  {
    assert Low(t) != 0;
    Unlow(0);
    if holder.Some? {
      OwnerIsHolder(ids, holder.value, t);
    }
  }

  lemma WriteUnlockKeeps(s: State, ids: set<ThreadId>, holder: Option<ThreadId>, t: ThreadId)
    requires Held(s, ids, holder)
    ensures Held(Next(s, WriteUnlock(t)), ids, holder)
  {
  }

  lemma ReadUnlockKeeps(s: State, ids: set<ThreadId>, holder: Option<ThreadId>, t: ThreadId)
    requires Held(s, ids, holder) && !s.crashed
    ensures Held(Next(s, ReadUnlock(t)), ids, holder) && !Next(s, ReadUnlock(t)).crashed
  {
    if t !in s.pcs && t in s.readers {
      assert |s.readers - multiset{t}| == |s.readers| - 1;
      LeaveReading(s, ids, holder, t);
    }
  }

  lemma LeaveReading(s: State, ids: set<ThreadId>, holder: Option<ThreadId>, t: ThreadId)
    requires Held(s, ids, holder) && t !in s.pcs && t in s.readers
    ensures Held(s.(flag := Flag(s.flag.owner, |s.readers| - 1), readers := s.readers - multiset{t}), ids, holder)
  {
    assert forall u | u in s.readers - multiset{t} :: u in s.readers;
    assert |s.readers - multiset{t}| == |s.readers| - 1;
  }

  lemma NextKeeps(s: State, ids: set<ThreadId>, step: Step)
    requires Inv(s, ids) && Proper(ids) && step.t in ids
    requires |Next(s, step).readers| < HALF && |Next(s, step).writers| < HALF
    ensures Inv(Next(s, step), ids)
  {
    var holder :| Held(s, ids, holder);
    if !s.crashed {
      match step
      case WriteLock(t) => if t !in s.pcs { LockKeeps(s, ids, holder, t); }
      case ReadLock(t) => if t !in s.pcs { LockKeeps(s, ids, holder, t); }
      case Advance(t) => if t in s.pcs { MoveKeeps(s, ids, holder, t); }
      case WriteUnlock(t) => WriteUnlockKeeps(s, ids, holder, t);
      case ReadUnlock(t) => ReadUnlockKeeps(s, ids, holder, t);
    }
  }

  lemma BoundedPrefix(steps: seq<Step>)
    requires Bounded(steps) && steps != []
    ensures Bounded(steps[..|steps| - 1])
    ensures |Run(steps).readers| < HALF && |Run(steps).writers| < HALF
  {
    var before := steps[..|steps| - 1];
    forall i | 0 <= i <= |before| ensures |Run(before[..i]).readers| < HALF && |Run(before[..i]).writers| < HALF {
      assert before[..i] == steps[..i];
    }
    assert steps[..|steps|] == steps;
  }

  lemma {:induction false} LockInvariant(steps: seq<Step>, ids: set<ThreadId>)
    requires Over(steps, ids) && Bounded(steps) && Proper(ids)
    ensures Inv(Run(steps), ids)
  {
    if steps == [] {
      assert Held(FREE, ids, None);
    } else {
      BoundedPrefix(steps);
      LockInvariant(steps[..|steps| - 1], ids);
      NextKeeps(Run(steps[..|steps| - 1]), ids, steps[|steps| - 1]);
    }
  }

  lemma InvExcludes(s: State, ids: set<ThreadId>)
    requires Inv(s, ids)
    ensures Exclusive(s)
  {
    var holder :| Held(s, ids, holder);
  }

  // ----- runs that break exclusion ------------------------------------------------------

  lemma RunSnoc(steps: seq<Step>, a: Step)
    ensures Run(steps + [a]) == Next(Run(steps), a)
  {
    assert (steps + [a])[..|steps|] == steps;
  }

  function Holds(s: State): nat {
    |s.readers| + |s.writers|
  }

  /** A step adds at most one hold. */
  lemma StepAddsOne(s: State, step: Step)
    ensures Holds(Next(s, step)) <= Holds(s) + 1
  {
    var t := step.t;
    assert |s.readers + multiset{t}| == |s.readers| + 1 && |s.writers + multiset{t}| == |s.writers| + 1;
    assert |s.readers - multiset{t}| <= |s.readers| && |s.writers - multiset{t}| <= |s.writers|;
  }

  lemma {:induction false} HoldsAtMostSteps(steps: seq<Step>)
    ensures Holds(Run(steps)) <= |steps|
  {
    if steps != [] {
      HoldsAtMostSteps(steps[..|steps| - 1]);
      StepAddsOne(Run(steps[..|steps| - 1]), steps[|steps| - 1]);
    }
  }

  lemma ShortIsBounded(steps: seq<Step>)
    requires |steps| < HALF
    ensures Bounded(steps)
  {
    forall i | 0 <= i <= |steps| ensures |Run(steps[..i]).readers| < HALF && |Run(steps[..i]).writers| < HALF {
      HoldsAtMostSteps(steps[..i]);
    }
  }

  /** The steps of a WriteLock that finds the flag empty. */
  function Entering(t: ThreadId): seq<Step> {
    if t == 0 then [WriteLock(0), Advance(0)] else [WriteLock(t), Advance(t), Advance(t)]
  }

  ghost predicate Quiet(s: State) {
    s.flag == EMPTY && s.pcs == map[] && !s.crashed && s.writeCount < HALF - 1
  }

  /** s after t has come in for writing past an empty flag. */
  function WithWriter(s: State, t: ThreadId): State {
    s.(flag := Flag(Low(t), 0), writeCount := s.writeCount + 1, writers := s.writers + multiset{t})
  }

  lemma RunTwo(steps: seq<Step>, a: Step, b: Step)
    ensures Run(steps + [a, b]) == Next(Next(Run(steps), a), b)
  {
    RunSnoc(steps, a);
    RunSnoc(steps + [a], b);
    assert steps + [a] + [b] == steps + [a, b];
  }

  lemma ZeroEnters(s: State)
    requires Quiet(s)
    ensures Next(Next(s, WriteLock(0)), Advance(0)) == WithWriter(s, 0)
  {
    Unlow(0);
    assert map[0 := WriteRecurse] - {0} == map[];
  }

  lemma OtherEnters(s: State, t: ThreadId)
    requires Quiet(s) && t != 0
    ensures Next(Next(Next(s, WriteLock(t)), Advance(t)), Advance(t)) == WithWriter(s, t)
  {
    assert map[t := WriteOwn] - {t} == map[];
    assert map[t := WriteSpin][t := WriteOwn] == map[t := WriteOwn];
  }

  lemma EntersEmpty(steps: seq<Step>, t: ThreadId)
    requires Quiet(Run(steps))
    ensures Run(steps + Entering(t)) == WithWriter(Run(steps), t)
  {
    if t == 0 {
      RunTwo(steps, WriteLock(0), Advance(0));
      ZeroEnters(Run(steps));
    } else {
      RunTwo(steps, WriteLock(t), Advance(t));
      RunSnoc(steps + [WriteLock(t), Advance(t)], Advance(t));
      assert steps + [WriteLock(t), Advance(t)] + [Advance(t)] == steps + Entering(t);
      OtherEnters(Run(steps), t);
    }
  }

  /** u, whose id the flag shows, comes in as if it were the owner. */
  lemma NamedEnters(s: State, u: ThreadId)
    requires s.flag.owner == u && s.pcs == map[] && !s.crashed && s.writeCount < HALF - 1
    ensures var s' := Next(Next(s, WriteLock(u)), Advance(u));
            s' == s.(writeCount := s.writeCount + 1, writers := s.writers + multiset{u})
  {
    assert map[u := WriteRecurse] - {u} == map[];
  }

  /** A thread whose id the flag cannot hold leaves the flag empty; the next one enters as well. */
  lemma InvisibleWriter(t: ThreadId, u: ThreadId)
    requires Low(t) == 0 && t != u
    ensures var steps := Entering(t) + Entering(u); Bounded(steps) && !Exclusive(Run(steps))
  {
    EntersEmpty([], t);
    assert [] + Entering(t) == Entering(t);
    EntersEmpty(Entering(t), u);
    ShortIsBounded(Entering(t) + Entering(u));
    var s := WithWriter(WithWriter(FREE, t), u);
    assert t in s.writers && u in s.writers;
  }

  /** A thread whose id is the lower half of the owner's takes the lock for its own. */
  lemma MistakenWriter(t: ThreadId, u: ThreadId)
    requires u == Low(t) && t != u
    ensures var steps := Entering(t) + [WriteLock(u), Advance(u)]; Bounded(steps) && !Exclusive(Run(steps))
  {
    EntersEmpty([], t);
    assert [] + Entering(t) == Entering(t);
    RunTwo(Entering(t), WriteLock(u), Advance(u));
    NamedEnters(WithWriter(FREE, t), u);
    var steps := Entering(t) + [WriteLock(u), Advance(u)];
    ShortIsBounded(steps);
    assert t in Run(steps).writers && u in Run(steps).writers;
  }

  // ----- the exact condition -----------------------------------------------------------------

  /** The lock excludes in every run of these threads within its 16-bit counters. */
  ghost predicate AlwaysExclusive(ids: set<ThreadId>) {
    forall steps | Over(steps, ids) && Bounded(steps) :: Exclusive(Run(steps))
  }

  /** A thread that takes no step holds nothing. */
  lemma OutsiderStep(s: State, step: Step, u: ThreadId)
    requires step.t != u && u !in s.writers && u !in s.readers
    ensures u !in Next(s, step).writers && u !in Next(s, step).readers
  {
  }

  lemma {:induction false} OutsiderHoldsNothing(steps: seq<Step>, u: ThreadId)
    requires forall i | 0 <= i < |steps| :: steps[i].t != u
    ensures u !in Run(steps).writers && u !in Run(steps).readers
  {
    if steps != [] {
      OutsiderHoldsNothing(steps[..|steps| - 1], u);
      OutsiderStep(Run(steps[..|steps| - 1]), steps[|steps| - 1], u);
    }
  }

  lemma LoneThreadExclusive(ids: set<ThreadId>)
    requires |ids| <= 1
    ensures AlwaysExclusive(ids)
  {
    forall steps | Over(steps, ids) && Bounded(steps) ensures Exclusive(Run(steps)) {
      var s := Run(steps);
      forall t, u | t in s.writers && (u in s.writers || u in s.readers) ensures t == u {
        HolderIsUser(steps, ids, t);
        HolderIsUser(steps, ids, u);
        if t != u {
          assert {t, u} <= ids;
          SubsetSize({t, u}, ids);
        }
      }
    }
  }

  lemma HolderIsUser(steps: seq<Step>, ids: set<ThreadId>, t: ThreadId)
    requires Over(steps, ids) && (t in Run(steps).writers || t in Run(steps).readers)
    ensures t in ids
  {
    if t !in ids {
      OutsiderHoldsNothing(steps, t);
    }
  }

  lemma {:induction false} SubsetSize(a: set<ThreadId>, b: set<ThreadId>)
    requires a <= b
    ensures |a| <= |b|
  {
    if a != {} {
      var x :| x in a;
      SubsetSize(a - {x}, b - {x});
    }
  }

  lemma AnotherId(ids: set<ThreadId>, t: ThreadId) returns (u: ThreadId)
    requires t in ids && |ids| > 1
    ensures u in ids && u != t
  {
    assert |ids - {t}| == |ids| - 1;
    u :| u in ids - {t};
  }

  lemma ImproperBreaks(ids: set<ThreadId>)
    requires |ids| > 1 && !Proper(ids)
    ensures !AlwaysExclusive(ids)
  {
    var t :| t in ids && (Low(t) == 0 || (t >= HALF && Low(t) in ids));
    if Low(t) == 0 {
      var u := AnotherId(ids, t);
      InvisibleWriter(t, u);
      assert Over(Entering(t) + Entering(u), ids);
    } else {
      MistakenWriter(t, Low(t));
      assert Over(Entering(t) + [WriteLock(Low(t)), Advance(Low(t))], ids);
    }
  }

  /**
   * The lock excludes iff only one thread uses it, or no id is 0 in its lower 16 bits and none has
   * another thread's id as its lower 16 bits.
   */
  lemma ExclusionIffProperIds(ids: set<ThreadId>)
    ensures AlwaysExclusive(ids) <==> |ids| <= 1 || Proper(ids)
  {
    if |ids| <= 1 {
      LoneThreadExclusive(ids);
    } else if Proper(ids) {
      forall steps | Over(steps, ids) && Bounded(steps) ensures Exclusive(Run(steps)) {
        LockInvariant(steps, ids);
        InvExcludes(Run(steps), ids);
      }
    } else {
      ImproperBreaks(ids);
    }
  }

  /** Balanced releases by threads with proper ids never trip the MULTIPLE_UNLOCK check. */
  lemma ReadUnlockNeverCrashes(steps: seq<Step>, ids: set<ThreadId>, t: ThreadId)
    requires Over(steps, ids) && Bounded(steps) && Proper(ids)
    requires !Run(steps).crashed
    ensures !Next(Run(steps), ReadUnlock(t)).crashed
  {
    LockInvariant(steps, ids);
    var holder :| Held(Run(steps), ids, holder);
    ReadUnlockKeeps(Run(steps), ids, holder, t);
  }

  /** A writer's unlock trips the INVALID_UNLOCK_ORDER check iff that thread still holds a nested read lock. */
  lemma WriteUnlockCrashesIffNestedRead(steps: seq<Step>, ids: set<ThreadId>, t: ThreadId)
    requires Over(steps, ids) && Bounded(steps) && Proper(ids)
    requires var s := Run(steps); !s.crashed && t in s.writers && t !in s.pcs
    ensures Next(Run(steps), WriteUnlock(t)).crashed <==> t in Run(steps).readers
  {
    LockInvariant(steps, ids);
    var s := Run(steps);
    var holder :| Held(s, ids, holder);
    if s.readers != multiset{} {
      var r :| r in s.readers;
    }
  }

  // ----- getting in ------------------------------------------------------------------------

  /** A reader gets in past any flag without owner, however many readers there are already. */
  lemma ReaderEnters(s: State, t: ThreadId)
    requires !s.crashed && t in s.pcs && s.pcs[t].ReadSpin?
    requires s.flag.owner == 0 && s.flag.readers < HALF - 1
    ensures Next(Next(s, Advance(t)), Advance(t))
         == s.(flag := Flag(0, s.flag.readers + 1), pcs := s.pcs - {t}, readers := s.readers + multiset{t})
  {
    assert s.pcs[t := ReadCas(s.flag.readers)] - {t} == s.pcs - {t};
  }

  /** A writer gets in past an empty flag. */
  lemma WriterEnters(s: State, t: ThreadId)
    requires !s.crashed && t in s.pcs && s.pcs[t].WriteSpin? && s.flag == EMPTY && s.writeCount < HALF - 1
    ensures Next(Next(s, Advance(t)), Advance(t))
         == s.(flag := Flag(Low(t), 0), writeCount := s.writeCount + 1, pcs := s.pcs - {t}, writers := s.writers + multiset{t})
  {
    assert s.pcs[t := WriteOwn] - {t} == s.pcs - {t};
  }

  /** Nobody gets in while the flag shows an owner, nor a writer while there are readers. */
  lemma OthersWait(s: State, t: ThreadId)
    requires !s.crashed && t in s.pcs && (s.pcs[t].ReadSpin? || s.pcs[t].WriteSpin?)
    requires s.flag.owner != 0 || (s.pcs[t].WriteSpin? && s.flag.readers != 0)
    ensures var s' := Next(Next(s, Advance(t)), Advance(t));
            && s'.flag == s.flag && s'.writeCount == s.writeCount && s'.readers == s.readers && s'.writers == s.writers
            && s'.pcs == s.pcs
  {
    if s.pcs[t].ReadSpin? {
      assert s.pcs[t := ReadCas(s.flag.readers)][t := ReadSpin] == s.pcs;
    }
  }

  /** As soon as no thread holds the lock, or is between flag and count, the lock is as new. */
  lemma RestIsFree(steps: seq<Step>, ids: set<ThreadId>)
    requires Over(steps, ids) && Bounded(steps) && Proper(ids)
    requires var s := Run(steps); s.writers == multiset{} && s.readers == multiset{}
    requires forall t | t in Run(steps).pcs :: !Claims(Run(steps).pcs, t)
    ensures Run(steps).flag == EMPTY && Run(steps).writeCount == 0
  {
    LockInvariant(steps, ids);
    var holder :| Held(Run(steps), ids, holder);
  }

  /** A write unlock takes one hold back, and with the last one the lock is free. */
  lemma WriterLeaves(steps: seq<Step>, ids: set<ThreadId>, t: ThreadId)
    requires Over(steps, ids) && Bounded(steps) && Proper(ids)
    requires var s := Run(steps); !s.crashed && t in s.writers && t !in s.pcs && t !in s.readers
    ensures var s := Run(steps);
            var s' := Next(Next(s, WriteUnlock(t)), Advance(t));
            && !s'.crashed && s'.writers == s.writers - multiset{t} && s'.readers == s.readers
            && if s.writers == multiset{t} then Next(s', Advance(t)) == s.(flag := EMPTY, writeCount := 0, writers := multiset{})
               else s'.flag == s.flag && s'.pcs == s.pcs
  {
    LockInvariant(steps, ids);
    var s := Run(steps);
    WriteUnlockCrashesIffNestedRead(steps, ids, t);
    var holder :| Held(s, ids, holder);
    WriterLeavesStep(s, t);
  }

  lemma WriterLeavesStep(s: State, t: ThreadId)
    requires !s.crashed && t in s.writers && t !in s.pcs && s.flag.readers == 0
    requires s.writeCount == |s.writers| && forall u | u in s.writers :: u == t
    ensures var s' := Next(Next(s, WriteUnlock(t)), Advance(t));
            && !s'.crashed && s'.writers == s.writers - multiset{t} && s'.readers == s.readers
            && if s.writers == multiset{t} then Next(s', Advance(t)) == s.(flag := EMPTY, writeCount := 0, writers := multiset{})
               else s'.flag == s.flag && s'.pcs == s.pcs
  {
    var left := s.writers - multiset{t};
    assert |left| == |s.writers| - 1;
    assert s.pcs[t := WriteLower] - {t} == s.pcs && s.pcs[t := WriteLower][t := WriteStore] - {t} == s.pcs;
    if |left| == 0 {
      assert left == multiset{};
      assert s.writers == left + multiset{t};
    }
  }

  /** The flag shows the lower 16 bits of the writer's id. */
  lemma WriterIsShown(steps: seq<Step>, ids: set<ThreadId>, t: ThreadId)
    requires Over(steps, ids) && Bounded(steps) && Proper(ids) && t in Run(steps).writers
    ensures Run(steps).flag.owner == Low(t) != 0
  {
    LockInvariant(steps, ids);
    var holder :| Held(Run(steps), ids, holder);
  }

  lemma LowIffSmall(t: ThreadId)
    ensures Low(t) == t <==> t < HALF
  {
  }

  lemma RecursesIfShown(s: State, t: ThreadId)
    requires !s.crashed && t !in s.pcs && s.flag.owner != 0
    ensures Next(Next(s, WriteLock(t)), Advance(t)).writers == s.writers + (if s.flag.owner == t then multiset{t} else multiset{})
    ensures Next(Next(s, ReadLock(t)), Advance(t)).readers == s.readers + (if s.flag.owner == t then multiset{t} else multiset{})
    ensures s.flag.owner != t ==> Next(Next(s, WriteLock(t)), Advance(t)).pcs[t] == WriteSpin
  {
  }

  /**
   * A writer that takes the lock again, for writing or for reading, gets it at once iff its id fits
   * 16 bits; otherwise it does not recognise itself and waits for a flag that only it can clear.
   */
  lemma RecursionIffSmallId(steps: seq<Step>, ids: set<ThreadId>, t: ThreadId)
    requires Over(steps, ids) && Bounded(steps) && Proper(ids)
    requires var s := Run(steps); !s.crashed && t in s.writers && t !in s.pcs
    ensures var s := Run(steps);
            && (Next(Next(s, WriteLock(t)), Advance(t)).writers == s.writers + multiset{t} <==> t < HALF)
            && (Next(Next(s, ReadLock(t)), Advance(t)).readers == s.readers + multiset{t} <==> t < HALF)
            && (t >= HALF ==> WaitsForItself(Next(Next(s, WriteLock(t)), Advance(t)), t))
  {
    WriterIsShown(steps, ids, t);
    var s := Run(steps);
    RecursesIfShown(s, t);
    LowIffSmall(t);
    assert (s.writers + multiset{t})[t] == s.writers[t] + 1 && (s.readers + multiset{t})[t] == s.readers[t] + 1;
  }

  /** t holds the lock for writing and waits for it to become free. */
  ghost predicate WaitsForItself(s: State, t: ThreadId) {
    t in s.writers && t in s.pcs && s.pcs[t].WriteSpin? && s.flag.owner != 0
  }

  lemma StillWaits(s: State, ids: set<ThreadId>, step: Step, t: ThreadId)
    requires Inv(s, ids) && WaitsForItself(s, t)
    requires |Next(s, step).readers| < HALF && |Next(s, step).writers| < HALF
    ensures WaitsForItself(Next(s, step), t)
  {
    var holder :| Held(s, ids, holder);
    assert holder == Some(t);
  }

  lemma PrefixOver(steps: seq<Step>, ids: set<ThreadId>)
    requires Over(steps, ids) && Bounded(steps) && steps != []
    ensures Over(steps[..|steps| - 1], ids) && Bounded(steps[..|steps| - 1])
  {
    BoundedPrefix(steps);
  }

  /** Whatever any thread does from then on, it waits: the lock is lost. */
  lemma {:induction false} SelfDeadlock(steps: seq<Step>, more: seq<Step>, ids: set<ThreadId>, t: ThreadId)
    requires Over(steps + more, ids) && Bounded(steps + more) && Proper(ids) && WaitsForItself(Run(steps), t)
    ensures WaitsForItself(Run(steps + more), t)
    decreases |more|
  {
    if more == [] {
      assert steps + more == steps;
    } else {
      var all, front := steps + more, more[..|more| - 1];
      assert all[..|all| - 1] == steps + front;
      PrefixOver(all, ids);
      BoundedPrefix(all);
      SelfDeadlock(steps, front, ids, t);
      LockInvariant(steps + front, ids);
      StillWaits(Run(steps + front), ids, all[|all| - 1], t);
    }
  }
}
