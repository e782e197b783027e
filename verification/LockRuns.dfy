/** Whole runs of the lock-order profiler, over any number of threads. */
module LockRuns {
  import opened LockGraph
  import opened DeadLockProfiler

  datatype Call = Push(thread: ThreadId, name: Name) | Pop(thread: ThreadId, name: Name)
  datatype Outcome = Alive(profile: Profile) | Crashed

  /** One call under the profiler's mutex: the contracts of PushLock and PopLock. */
  ghost function Apply(s: Profile, c: Call): Outcome {
    match c
    case Push(t, name) =>
      if AddsEdge(s, t, name) && HasCycle(Pushed(s, t, name).history) then Crashed else Alive(Pushed(s, t, name))
    case Pop(t, name) =>
      if UnlockVerdict(s, t, name) == Fine then Alive(Popped(s, t, name)) else Crashed
  }

  /** The calls of all threads in the order in which they took the mutex. */
  ghost function Run(calls: seq<Call>): Outcome {
    if calls == [] then Alive(EMPTY_PROFILE)
    else match Run(calls[..|calls| - 1])
      case Alive(s) => Apply(s, calls[|calls| - 1])
      case Crashed => Crashed
  }

  /** No run that is still alive has recorded a cycle, and every stack is a walk of the history. */
  lemma {:induction false} AliveIsCoherent(calls: seq<Call>)
    requires Run(calls).Alive?
    ensures Coherent(Run(calls).profile)
  {
    if calls != [] {
      var before := calls[..|calls| - 1];
      AliveIsCoherent(before);
      var s := Run(before).profile;
      match calls[|calls| - 1]
      case Push(t, name) => PushKeepsCoherence(s, t, name);
      case Pop(t, name) => PopKeepsCoherence(s, t, name);
    } else {
      TopologicalOrderExcludesCycles(map[], []);
    }
  }

  /**
   * Threads ts wait in a ring: each has pushed the lock it waits for, holds held[i], a
   * different lock, deeper in its stack, and waits for the lock the next thread holds.
   */
  ghost predicate WaitRing(s: Profile, ts: seq<ThreadId>, held: seq<nat>) {
    && |ts| == |held| >= 1
    && (forall i | 0 <= i < |ts| :: Waits(StackOf(s, ts[i]), held[i], held[(i + 1) % |ts|]))
  }

  predicate Waits(st: seq<nat>, holds: nat, wants: nat) {
    st != [] && holds in st && holds != wants && st[|st| - 1] == wants
  }

  /** A thread's stack leads from every lock it holds to the different lock it wants. */
  lemma {:induction false} StackReaches(g: Graph, st: seq<nat>, i: nat)
    requires StackRecorded(g, st)
    requires i < |st| && st[i] != st[|st| - 1]
    ensures Reaches(g, st[i], st[|st| - 1])
    decreases |st| - i
  {
    var j := i + 1;
    assert st[i] == st[j] || Edge(g, st[i], st[j]);
    if st[i] != st[j] {
      EdgeReaches(g, st[i], st[j]);
    }
    if st[j] != st[|st| - 1] {
      StackReaches(g, st, j);
      if st[i] != st[j] {
        ReachesTransitive(g, st[i], st[j], st[|st| - 1]);
      }
    }
  }

  lemma {:induction false} RingReaches(s: Profile, ts: seq<ThreadId>, held: seq<nat>, k: nat)
    requires Coherent(s) && WaitRing(s, ts, held)
    requires 1 <= k <= |ts|
    ensures Reaches(s.history, held[0], held[k % |ts|])
  {
    var i := k - 1;
    var st := StackOf(s, ts[i]);
    assert Waits(st, held[i], held[(i + 1) % |ts|]);
    var d :| 0 <= d < |st| && st[d] == held[i];
    StackReaches(s.history, st, d);
    if k > 1 {
      RingReaches(s, ts, held, i);
      assert i % |ts| == i;
      ReachesTransitive(s.history, held[0], held[i], held[k % |ts|]);
    }
  }

  /** A run that was never stopped contains no ring of waiting threads. */
  lemma NoWaitRing(calls: seq<Call>, ts: seq<ThreadId>, held: seq<nat>)
    requires Run(calls).Alive?
    ensures !WaitRing(Run(calls).profile, ts, held)
  {
    AliveIsCoherent(calls);
    var s := Run(calls).profile;
    if WaitRing(s, ts, held) {
      RingReaches(s, ts, held, |ts|);
    }
  }

  // ----- release by name --------------------------------------------------------

  /** Every id in use has a name on record, and that name has this id. */
  ghost predicate IdsNamed(s: Profile) {
    && (forall x | x in s.nameToId :: s.nameToId[x] in s.idToName)
    && (forall t | t in s.stacks :: forall i | i in s.stacks[t] :: i in s.idToName)
    && (forall i | i in s.idToName ::
          i < |s.nameToId| && s.idToName[i] in s.nameToId && s.nameToId[s.idToName[i]] == i)
  }

  /** The two id tables are inverse to each other. */
  ghost predicate NamesFaithful(s: Profile) {
    forall x | x in s.nameToId :: s.nameToId[x] in s.idToName && s.idToName[s.nameToId[x]] == x
  }

  /** No release of the run used a name that the id table did not know yet. */
  ghost predicate KnownReleases(calls: seq<Call>)
    requires Run(calls).Alive?
  {
    calls == [] ||
    var before := calls[..|calls| - 1];
    var last := calls[|calls| - 1];
    KnownReleases(before) && (last.Pop? ==> last.name in Run(before).profile.nameToId)
  }

  /** A push extends the id tables, or leaves them as they are. */
  lemma PushExtendsTables(s: Profile, t: ThreadId, name: Name)
    requires IdsNamed(s)
    ensures var s' := Pushed(s, t, name);
            && (forall x | x in s.nameToId :: x in s'.nameToId && s'.nameToId[x] == s.nameToId[x])
            && (forall i | i in s.idToName :: i in s'.idToName && s'.idToName[i] == s.idToName[i])
            && (forall x | x in s'.nameToId :: x in s.nameToId || x == name)
            && s'.nameToId[name] == LockId(s, name) && LockId(s, name) in s'.idToName
  {
  }

  lemma PushKeepsNames(s: Profile, t: ThreadId, name: Name)
    requires IdsInRange(s) && IdsNamed(s)
    ensures IdsNamed(Pushed(s, t, name))
    ensures NamesFaithful(Pushed(s, t, name)) <==> NamesFaithful(s)
  {
    var s' := Pushed(s, t, name);
    PushKeepsIds(s, t, name);
    PushExtendsTables(s, t, name);
    forall u, i | u in s'.stacks && i in s'.stacks[u] ensures i in s'.idToName {
      assert u == t ==> i in StackOf(s, t) || i == LockId(s, name);
      assert u != t ==> s'.stacks[u] == s.stacks[u];
    }
  }

  lemma PopNames(s: Profile, t: ThreadId, name: Name)
    requires IdsInRange(s) && IdsNamed(s) && UnlockVerdict(s, t, name) == Fine
    ensures IdsNamed(Popped(s, t, name))
    ensures NamesFaithful(Popped(s, t, name)) <==> NamesFaithful(s) && name in s.nameToId
  {
    var s' := Popped(s, t, name);
    PopKeepsIds(s, t, name);
    var st := StackOf(s, t);
    assert st[|st| - 1] in st;
    assert forall x | x in s.nameToId :: x in s'.nameToId && s'.nameToId[x] == s.nameToId[x];
    if name !in s.nameToId {
      assert s'.nameToId[name] == 0 && s.idToName[0] in s.nameToId;
    }
  }

  /** The id tables stay inverse to each other exactly in the runs that release known names only. */
  lemma {:induction false} FaithfulIffKnownReleases(calls: seq<Call>)
    requires Run(calls).Alive?
    ensures IdsNamed(Run(calls).profile)
    ensures NamesFaithful(Run(calls).profile) <==> KnownReleases(calls)
  {
    if calls != [] {
      var before := calls[..|calls| - 1];
      FaithfulIffKnownReleases(before);
      AliveIsCoherent(before);
      var s := Run(before).profile;
      match calls[|calls| - 1]
      case Push(t, name) => PushKeepsNames(s, t, name);
      case Pop(t, name) => PopNames(s, t, name);
    }
  }

  /**
   * In such runs a release is accepted iff it names the innermost lock of its thread, or its name
   * is unknown and the innermost lock has id 0.
   */
  lemma ReleaseByName(calls: seq<Call>, t: ThreadId, name: Name)
    requires Run(calls).Alive? && KnownReleases(calls)
    ensures var s := Run(calls).profile;
            var st := StackOf(s, t);
            UnlockVerdict(s, t, name) == Fine <==>
            && st != []
            && if name in s.nameToId then st[|st| - 1] in s.idToName && s.idToName[st[|st| - 1]] == name
               else st[|st| - 1] == 0
  {
    FaithfulIffKnownReleases(calls);
    var s := Run(calls).profile;
    var st := StackOf(s, t);
    if st != [] && st[|st| - 1] in s.idToName {
      assert s.idToName[st[|st| - 1]] in s.nameToId;
    }
  }

  /** Unlocking under a name that was never locked goes unnoticed when the lock held has id 0. */
  lemma UnknownUnlockAccepted(t: ThreadId, name: Name, other: Name)
    requires name != other
    ensures Run([Push(t, name), Pop(t, other)]).Alive?
    ensures StackOf(Run([Push(t, name), Pop(t, other)]).profile, t) == []
  {
    RunSnoc([], Push(t, name));
    RunSnoc([] + [Push(t, name)], Pop(t, other));
    assert [] + [Push(t, name)] + [Pop(t, other)] == [Push(t, name), Pop(t, other)];
  }

  // ----- rings of lock names --------------------------------------------------------

  /** The names of the locks a thread has pushed and not popped, outermost first. */
  function NameStack(calls: seq<Call>, t: ThreadId): seq<Name> {
    if calls == [] then [] else NamesAfter(NameStack(calls[..|calls| - 1], t), calls[|calls| - 1], t)
  }

  /** Threads ts wait in a ring: each holds one name and waits for a different name that the next one holds. */
  ghost predicate NameRing(calls: seq<Call>, ts: seq<ThreadId>, names: seq<Name>) {
    && |ts| == |names| >= 1
    && (forall i | 0 <= i < |ts| :: Waits(NameStack(calls, ts[i]), names[i], names[(i + 1) % |ts|]))
  }

  lemma RunSnoc(calls: seq<Call>, c: Call)
    ensures Run(calls + [c]) == match Run(calls) case Alive(s) => Apply(s, c) case Crashed => Crashed
  {
    assert (calls + [c])[..|calls|] == calls;
  }

  function NamesAfter(st: seq<Name>, c: Call, t: ThreadId): seq<Name> {
    if c.thread != t then st
    else if c.Push? then st + [c.name]
    else if st == [] then [] else st[..|st| - 1]
  }

  lemma NamesSnoc(calls: seq<Call>, c: Call, t: ThreadId)
    ensures NameStack(calls + [c], t) == NamesAfter(NameStack(calls, t), c, t)
  {
    assert (calls + [c])[..|calls|] == calls;
  }

  /** The stack of ids is the stack of names seen through the id table. */
  ghost predicate Mirrors(s: Profile, st: seq<nat>, names: seq<Name>) {
    && |st| == |names|
    && (forall i | 0 <= i < |st| :: names[i] in s.nameToId && s.nameToId[names[i]] == st[i])
  }

  lemma {:induction false} StacksMirror(calls: seq<Call>, t: ThreadId)
    requires Run(calls).Alive?
    ensures Mirrors(Run(calls).profile, StackOf(Run(calls).profile, t), NameStack(calls, t))
  {
    if calls != [] {
      var before, c := calls[..|calls| - 1], calls[|calls| - 1];
      StacksMirror(before, t);
      assert before + [c] == calls;
      RunSnoc(before, c);
      NamesSnoc(before, c, t);
      StepMirrors(Run(before).profile, c, t, NameStack(before, t));
    }
  }

  lemma StepMirrors(s: Profile, c: Call, t: ThreadId, names: seq<Name>)
    requires Apply(s, c).Alive? && Mirrors(s, StackOf(s, t), names)
    ensures Mirrors(Apply(s, c).profile, StackOf(Apply(s, c).profile, t), NamesAfter(names, c, t))
  {
    var s' := Apply(s, c).profile;
    assert forall x | x in s.nameToId :: x in s'.nameToId && s'.nameToId[x] == s.nameToId[x];
  }

  /** As long as releases use known names, no ring of threads waits, name by name. */
  lemma NoNameRing(calls: seq<Call>, ts: seq<ThreadId>, names: seq<Name>)
    requires Run(calls).Alive? && KnownReleases(calls)
    ensures !NameRing(calls, ts, names)
  {
    if NameRing(calls, ts, names) {
      var s := Run(calls).profile;
      FaithfulIffKnownReleases(calls);
      forall i | 0 <= i < |ts| ensures names[i] in s.nameToId {
        assert Waits(NameStack(calls, ts[i]), names[i], names[(i + 1) % |ts|]);
        StacksMirror(calls, ts[i]);
      }
      var held := seq(|names|, i requires 0 <= i < |names| && names[i] in s.nameToId => s.nameToId[names[i]]);
      forall i | 0 <= i < |ts| ensures Waits(StackOf(s, ts[i]), held[i], held[(i + 1) % |ts|]) {
        NameWaits(calls, ts[i], names[i], names[(i + 1) % |ts|]);
      }
      NoWaitRing(calls, ts, held);
    }
  }

  lemma NameWaits(calls: seq<Call>, t: ThreadId, holds: Name, wants: Name)
    requires Run(calls).Alive? && NamesFaithful(Run(calls).profile)
    requires Waits(NameStack(calls, t), holds, wants)
    ensures var s := Run(calls).profile;
            && holds in s.nameToId && wants in s.nameToId
            && Waits(StackOf(s, t), s.nameToId[holds], s.nameToId[wants])
  {
    StacksMirror(calls, t);
    var s, st := Run(calls).profile, NameStack(calls, t);
    var i :| 0 <= i < |st| && st[i] == holds;
    assert StackOf(s, t)[i] == s.nameToId[holds];
    assert s.idToName[s.nameToId[holds]] == holds && s.idToName[s.nameToId[wants]] == wants;
  }

  /** A thread that has not pushed anything yet. */
  lemma FreshThread(used: set<ThreadId>) returns (t: ThreadId)
    ensures t !in used && forall u | u in used :: u < t
  {
    if used == {} {
      t := 0;
    } else {
      var x :| x in used;
      var k := FreshThread(used - {x});
      t := if x < k then k else x + 1;
      forall u | u in used ensures u < t {
        assert u == x || u in used - {x};
      }
    }
  }

  /** Two fresh threads take two names in opposite order. */
  function Crossing(t1: ThreadId, t2: ThreadId, a: Name, x: Name): seq<Call> {
    [Push(t1, a), Push(t2, x), Push(t1, x), Push(t2, a)]
  }

  /** A push on top of a lock with the same id, or on an empty stack, records nothing. */
  lemma SilentPush(s: Profile, t: ThreadId, name: Name)
    requires name in s.nameToId
    requires var st := StackOf(s, t); st == [] || st[|st| - 1] == s.nameToId[name]
    ensures Apply(s, Push(t, name)) == Alive(s.(stacks := s.stacks[t := StackOf(s, t) + [s.nameToId[name]]]))
  {
    assert s.nameToId[name := s.nameToId[name]] == s.nameToId;
  }

  /** Two names with one id can be taken in opposite order by two threads without an edge being recorded. */
  lemma CrossingUnseen(calls: seq<Call>, t1: ThreadId, t2: ThreadId, a: Name, x: Name)
    requires Run(calls).Alive? && t1 != t2 && a != x
    requires var s := Run(calls).profile;
             && StackOf(s, t1) == [] && StackOf(s, t2) == []
             && a in s.nameToId && x in s.nameToId && s.nameToId[a] == s.nameToId[x]
    ensures Run(calls + Crossing(t1, t2, a, x)).Alive?
    ensures NameRing(calls + Crossing(t1, t2, a, x), [t1, t2], [a, x])
  {
    StacksMirror(calls, t1);
    StacksMirror(calls, t2);
    CrossingRuns(calls, t1, t2, a, x);
    CrossingNames(calls, t1, t2, a, x, t1);
    CrossingNames(calls, t1, t2, a, x, t2);
    CrossedSteps(calls, t1, t2, a, x);
    TwoRing(calls + Crossing(t1, t2, a, x), t1, t2, a, x);
  }

  lemma CrossedSteps(calls: seq<Call>, t1: ThreadId, t2: ThreadId, a: Name, x: Name)
    ensures calls + Crossing(t1, t2, a, x) == calls + [Push(t1, a)] + [Push(t2, x)] + [Push(t1, x)] + [Push(t2, a)]
  {
  }

  lemma TwoRing(calls: seq<Call>, t1: ThreadId, t2: ThreadId, a: Name, x: Name)
    requires a != x && NameStack(calls, t1) == [a, x] && NameStack(calls, t2) == [x, a]
    ensures NameRing(calls, [t1, t2], [a, x])
  {
    assert [a, x][0] == a && [x, a][0] == x;
    assert Waits([a, x], a, x) && Waits([x, a], x, a);
    assert (0 + 1) % 2 == 1 && (1 + 1) % 2 == 0;
  }

  lemma CrossingNames(calls: seq<Call>, t1: ThreadId, t2: ThreadId, a: Name, x: Name, t: ThreadId)
    requires t1 != t2 && (t == t1 || t == t2) && NameStack(calls, t) == []
    ensures NameStack(calls + [Push(t1, a)] + [Push(t2, x)] + [Push(t1, x)] + [Push(t2, a)], t) == if t == t1 then [a, x] else [x, a]
  {
    var c1 := calls + [Push(t1, a)];
    NamesSnoc(calls, Push(t1, a), t);
    var c2 := c1 + [Push(t2, x)];
    NamesSnoc(c1, Push(t2, x), t);
    var c3 := c2 + [Push(t1, x)];
    NamesSnoc(c2, Push(t1, x), t);
    NamesSnoc(c3, Push(t2, a), t);
  }

  lemma CrossingRuns(calls: seq<Call>, t1: ThreadId, t2: ThreadId, a: Name, x: Name)
    requires Run(calls).Alive? && t1 != t2
    requires var s := Run(calls).profile;
             && StackOf(s, t1) == [] && StackOf(s, t2) == []
             && a in s.nameToId && x in s.nameToId && s.nameToId[a] == s.nameToId[x]
    ensures Run(calls + [Push(t1, a)] + [Push(t2, x)] + [Push(t1, x)] + [Push(t2, a)]).Alive?
  {
    var s := Run(calls).profile;
    var c1 := calls + [Push(t1, a)];
    RunSnoc(calls, Push(t1, a));
    SilentPush(s, t1, a);
    var c2 := c1 + [Push(t2, x)];
    RunSnoc(c1, Push(t2, x));
    SilentPush(Run(c1).profile, t2, x);
    var c3 := c2 + [Push(t1, x)];
    RunSnoc(c2, Push(t1, x));
    SilentPush(Run(c2).profile, t1, x);
    RunSnoc(c3, Push(t2, a));
    SilentPush(Run(c3).profile, t2, a);
  }

  /** A ring of names that the profiler lets pass: the release of x gave it the id of a. */
  lemma NameRingUnseen(t: ThreadId, t1: ThreadId, t2: ThreadId, a: Name, x: Name)
    requires t != t1 && t != t2 && t1 != t2 && a != x
    ensures var calls := [Push(t, a), Pop(t, x)] + Crossing(t1, t2, a, x);
            Run(calls).Alive? && NameRing(calls, [t1, t2], [a, x])
  {
    RunSnoc([], Push(t, a));
    RunSnoc([] + [Push(t, a)], Pop(t, x));
    assert [] + [Push(t, a)] + [Pop(t, x)] == [Push(t, a), Pop(t, x)];
    CrossingUnseen([Push(t, a), Pop(t, x)], t1, t2, a, x);
  }

  ghost predicate Pushes(more: seq<Call>) {
    forall i | 0 <= i < |more| :: more[i].Push?
  }

  /** However threads go on to take locks, no ring of names goes unseen. */
  ghost predicate RingsNeverUnseen(calls: seq<Call>) {
    forall more, ts, names | Pushes(more) && Run(calls + more).Alive? :: !NameRing(calls + more, ts, names)
  }

  lemma {:induction false} PushesKeepKnown(calls: seq<Call>, more: seq<Call>)
    requires Pushes(more) && Run(calls + more).Alive?
    ensures Run(calls).Alive? && (KnownReleases(calls) ==> KnownReleases(calls + more))
  {
    if more == [] {
      assert calls + more == calls;
    } else {
      var front := more[..|more| - 1];
      assert (calls + more)[..|calls + more| - 1] == calls + front;
      PushesKeepKnown(calls, front);
    }
  }

  /** Two names that share an id, as long as the tables are not inverse to each other. */
  lemma SharedId(s: Profile) returns (a: Name, x: Name)
    requires IdsNamed(s) && !NamesFaithful(s)
    ensures a != x && a in s.nameToId && x in s.nameToId && s.nameToId[a] == s.nameToId[x]
  {
    x :| x in s.nameToId && s.idToName[s.nameToId[x]] != x;
    a := s.idToName[s.nameToId[x]];
  }

  /** Names that share an id let two fresh threads build a ring that goes unseen. */
  lemma SharedIdHidesRing(calls: seq<Call>, a: Name, x: Name)
    requires Run(calls).Alive? && a != x
    requires var m := Run(calls).profile.nameToId; a in m && x in m && m[a] == m[x]
    ensures !RingsNeverUnseen(calls)
  {
    var t1 := FreshThread(Run(calls).profile.stacks.Keys);
    CrossingUnseen(calls, t1, t1 + 1, a, x);
    RingRefutes(calls, Crossing(t1, t1 + 1, a, x), [t1, t1 + 1], [a, x]);
  }

  lemma RingRefutes(calls: seq<Call>, more: seq<Call>, ts: seq<ThreadId>, names: seq<Name>)
    requires Pushes(more) && Run(calls + more).Alive? && NameRing(calls + more, ts, names)
    ensures !RingsNeverUnseen(calls)
  {
  }

  /** Exactly: the profiler sees every ring of names to come iff every release so far used a known name. */
  lemma RingsSeenIffKnownReleases(calls: seq<Call>)
    requires Run(calls).Alive?
    ensures RingsNeverUnseen(calls) <==> KnownReleases(calls)
  {
    FaithfulIffKnownReleases(calls);
    if KnownReleases(calls) {
      forall more, ts, names | Pushes(more) && Run(calls + more).Alive? ensures !NameRing(calls + more, ts, names) {
        PushesKeepKnown(calls, more);
        NoNameRing(calls + more, ts, names);
      }
    } else {
      var a, x := SharedId(Run(calls).profile);
      SharedIdHidesRing(calls, a, x);
    }
  }
}
