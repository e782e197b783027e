/** The lock-order profiler told by lock names alone: which order it remembers, and what it crashes on. */
module LockNames {
  import opened LockGraph
  import opened DeadLockProfiler
  import opened LockRuns

  /** Call i takes y while x is the innermost lock of the thread. */
  ghost predicate Takes(calls: seq<Call>, i: nat, x: Name, y: Name) {
    && i < |calls| && calls[i].Push? && calls[i].name == y && x != y
    && var st := NameStack(calls[..i], calls[i].thread);
       st != [] && st[|st| - 1] == x
  }

  /** At some time y was taken directly under x. */
  ghost predicate TakenUnder(calls: seq<Call>, x: Name, y: Name) {
    exists i: nat :: Takes(calls, i, x, y)
  }

  ghost predicate NameWalk(calls: seq<Call>, p: seq<Name>) {
    forall i, j | 0 <= i && j == i + 1 < |p| :: TakenUnder(calls, p[i], p[j])
  }

  /** The order in which locks were taken runs in a circle. */
  ghost predicate NameCycle(calls: seq<Call>) {
    exists p :: |p| >= 2 && p[0] == p[|p| - 1] && NameWalk(calls, p)
  }

  /** A lock is taken without closing a circle, or the innermost one is released. */
  ghost predicate InOrder(before: seq<Call>, c: Call) {
    match c
    case Push(_, _) => !NameCycle(before + [c])
    case Pop(t, name) => var st := NameStack(before, t); st != [] && st[|st| - 1] == name
  }

  /** Locks are released innermost first, and never taken in circular order. */
  ghost predicate WellOrdered(calls: seq<Call>) {
    calls == [] || (WellOrdered(calls[..|calls| - 1]) && InOrder(calls[..|calls| - 1], calls[|calls| - 1]))
  }

  /** Every release names a lock that has been taken before. */
  ghost predicate ReleasesTaken(calls: seq<Call>) {
    forall i | 0 <= i < |calls| && calls[i].Pop? :: WasTaken(calls[..i], calls[i].name)
  }

  ghost predicate WasTaken(calls: seq<Call>, name: Name) {
    exists i :: 0 <= i < |calls| && calls[i].Push? && calls[i].name == name
  }

  // ----- the history is the order of the names --------------------------------------------

  lemma TakesSnoc(calls: seq<Call>, c: Call, i: nat, x: Name, y: Name)
    ensures Takes(calls + [c], i, x, y) <==>
            Takes(calls, i, x, y) ||
            (i == |calls| && c.Push? && c.name == y && x != y &&
             var st := NameStack(calls, c.thread); st != [] && st[|st| - 1] == x)
  {
    if i < |calls| {
      assert (calls + [c])[..i] == calls[..i];
    } else if i == |calls| {
      assert (calls + [c])[..i] == calls;
    }
  }

  lemma TakenSnoc(calls: seq<Call>, c: Call, x: Name, y: Name)
    ensures TakenUnder(calls + [c], x, y) <==>
            TakenUnder(calls, x, y) ||
            (c.Push? && c.name == y && x != y &&
             var st := NameStack(calls, c.thread); st != [] && st[|st| - 1] == x)
  {
    if TakenUnder(calls + [c], x, y) {
      var i: nat :| Takes(calls + [c], i, x, y);
      TakesSnoc(calls, c, i, x, y);
    }
    if TakenUnder(calls, x, y) {
      var i: nat :| Takes(calls, i, x, y);
      TakesSnoc(calls, c, i, x, y);
    }
    TakesSnoc(calls, c, |calls|, x, y);
  }

  /** x was taken under y, and their ids are u and v. */
  ghost predicate Shows(s: Profile, calls: seq<Call>, x: Name, y: Name, u: nat, v: nat) {
    && TakenUnder(calls, x, y)
    && x in s.nameToId && y in s.nameToId && s.nameToId[x] == u && s.nameToId[y] == v
  }

  /** Every recorded edge comes from a lock taken under another, and every such event left an edge. */
  ghost predicate EdgesExact(s: Profile, calls: seq<Call>) {
    && (forall x, y | TakenUnder(calls, x, y) :: x in s.nameToId && y in s.nameToId)
    && (forall u, v | Edge(s.history, u, v) :: exists x, y :: Shows(s, calls, x, y, u, v))
    && (forall x, y, u, v | Shows(s, calls, x, y, u, v) && u != v :: Edge(s.history, u, v))
  }

  /** A push of y records x -> y, x being the innermost lock of the thread, and nothing else. */
  lemma PushEdges(s: Profile, t: ThreadId, name: Name, u: nat, v: nat)
    ensures var st, id := StackOf(s, t), LockId(s, name);
            Edge(Pushed(s, t, name).history, u, v) <==>
            Edge(s.history, u, v) || (st != [] && st[|st| - 1] == u && id == v && u != v)
  {
  }

  lemma PushKeepsId(s: Profile, t: ThreadId, name: Name, x: Name)
    ensures x in s.nameToId ==> x in Pushed(s, t, name).nameToId && Pushed(s, t, name).nameToId[x] == s.nameToId[x]
    ensures x in Pushed(s, t, name).nameToId ==> x in s.nameToId || x == name
    ensures name in Pushed(s, t, name).nameToId && Pushed(s, t, name).nameToId[name] == LockId(s, name)
  {
  }

  /** The innermost lock by id is the innermost lock by name. */
  lemma InnermostMirrors(s: Profile, calls: seq<Call>, t: ThreadId)
    requires Mirrors(s, StackOf(s, t), NameStack(calls, t)) && StackOf(s, t) != []
    ensures var st, names := StackOf(s, t), NameStack(calls, t);
            && |st| == |names| && names[|names| - 1] in s.nameToId
            && s.nameToId[names[|names| - 1]] == st[|st| - 1]
  {
  }

  /** What was shown by two names stays shown. */
  lemma PushStillShows(calls: seq<Call>, s: Profile, t: ThreadId, name: Name, x: Name, y: Name, u: nat, v: nat)
    requires Shows(s, calls, x, y, u, v)
    ensures Shows(Pushed(s, t, name), calls + [Push(t, name)], x, y, u, v)
  {
    TakenSnoc(calls, Push(t, name), x, y);
    PushKeepsId(s, t, name, x);
    PushKeepsId(s, t, name, y);
  }

  lemma PushShowsNew(calls: seq<Call>, s: Profile, t: ThreadId, name: Name) returns (x: Name)
    requires Mirrors(s, StackOf(s, t), NameStack(calls, t))
    requires var st := StackOf(s, t); st != [] && st[|st| - 1] != LockId(s, name)
    ensures var st := StackOf(s, t);
            Shows(Pushed(s, t, name), calls + [Push(t, name)], x, name, st[|st| - 1], LockId(s, name))
  {
    InnermostMirrors(s, calls, t);
    var names := NameStack(calls, t);
    x := names[|names| - 1];
    PushKeepsId(s, t, name, x);
    TakenSnoc(calls, Push(t, name), x, name);
  }

  lemma PushEdgeShown(calls: seq<Call>, s: Profile, t: ThreadId, name: Name, u: nat, v: nat) returns (x: Name, y: Name)
    requires Edge(s.history, u, v) ==> exists x, y :: Shows(s, calls, x, y, u, v)
    requires Mirrors(s, StackOf(s, t), NameStack(calls, t)) && Edge(Pushed(s, t, name).history, u, v)
    ensures Shows(Pushed(s, t, name), calls + [Push(t, name)], x, y, u, v)
  {
    PushEdges(s, t, name, u, v);
    if Edge(s.history, u, v) {
      x, y :| Shows(s, calls, x, y, u, v);
      PushStillShows(calls, s, t, name, x, y, u, v);
    } else {
      x := PushShowsNew(calls, s, t, name);
      y := name;
    }
  }

  lemma PushTakenKnown(calls: seq<Call>, s: Profile, t: ThreadId, name: Name, x: Name, y: Name)
    requires EdgesExact(s, calls) && Mirrors(s, StackOf(s, t), NameStack(calls, t))
    requires TakenUnder(calls + [Push(t, name)], x, y)
    ensures var s' := Pushed(s, t, name);
            && x in s'.nameToId && y in s'.nameToId
            && (s'.nameToId[x] != s'.nameToId[y] ==> Edge(s'.history, s'.nameToId[x], s'.nameToId[y]))
  {
    var s' := Pushed(s, t, name);
    TakenSnoc(calls, Push(t, name), x, y);
    PushKeepsId(s, t, name, x);
    PushKeepsId(s, t, name, y);
    if TakenUnder(calls, x, y) {
      assert Shows(s, calls, x, y, s.nameToId[x], s.nameToId[y]);
    } else {
      InnermostMirrors(s, calls, t);
    }
    PushEdges(s, t, name, s'.nameToId[x], s'.nameToId[y]);
  }

  lemma PushExact(calls: seq<Call>, s: Profile, t: ThreadId, name: Name)
    requires EdgesExact(s, calls) && Mirrors(s, StackOf(s, t), NameStack(calls, t))
    ensures EdgesExact(Pushed(s, t, name), calls + [Push(t, name)])
  {
    forall u, v | Edge(Pushed(s, t, name).history, u, v)
      ensures exists x, y :: Shows(Pushed(s, t, name), calls + [Push(t, name)], x, y, u, v)
    {
      var x, y := PushEdgeShown(calls, s, t, name, u, v);
    }
    forall x, y | TakenUnder(calls + [Push(t, name)], x, y)
      ensures var s' := Pushed(s, t, name);
              && x in s'.nameToId && y in s'.nameToId
              && (s'.nameToId[x] != s'.nameToId[y] ==> Edge(s'.history, s'.nameToId[x], s'.nameToId[y]))
    {
      PushTakenKnown(calls, s, t, name, x, y);
    }
  }

  lemma PopExact(calls: seq<Call>, s: Profile, t: ThreadId, name: Name)
    requires EdgesExact(s, calls) && StackOf(s, t) != []
    ensures EdgesExact(Popped(s, t, name), calls + [Pop(t, name)])
  {
    var s', calls' := Popped(s, t, name), calls + [Pop(t, name)];
    forall x, y ensures TakenUnder(calls', x, y) <==> TakenUnder(calls, x, y) {
      TakenSnoc(calls, Pop(t, name), x, y);
    }
    assert forall x | x in s.nameToId :: x in s'.nameToId && s'.nameToId[x] == s.nameToId[x];
    forall u, v | Edge(s'.history, u, v) ensures exists x, y :: Shows(s', calls', x, y, u, v) {
      var x, y :| Shows(s, calls, x, y, u, v);
      assert Shows(s', calls', x, y, u, v);
    }
    forall x, y, u, v | Shows(s', calls', x, y, u, v) && u != v ensures Edge(s'.history, u, v) {
      assert Shows(s, calls, x, y, u, v);
    }
  }

  lemma StepExact(calls: seq<Call>, s: Profile, c: Call)
    requires EdgesExact(s, calls) && Mirrors(s, StackOf(s, c.thread), NameStack(calls, c.thread)) && Apply(s, c).Alive?
    ensures EdgesExact(Apply(s, c).profile, calls + [c])
  {
    match c
    case Push(t, name) => PushExact(calls, s, t, name);
    case Pop(t, name) => PopExact(calls, s, t, name);
  }

  /**
   * In every run still alive the history has an edge between two ids iff they differ and at some
   * time a lock with the second id was taken directly under one with the first.
   */
  lemma {:induction false} HistoryIsOrder(calls: seq<Call>)
    requires Run(calls).Alive?
    ensures EdgesExact(Run(calls).profile, calls)
  {
    if calls != [] {
      var before, c := calls[..|calls| - 1], calls[|calls| - 1];
      assert before + [c] == calls;
      RunSnoc(before, c);
      HistoryIsOrder(before);
      StacksMirror(before, c.thread);
      StepExact(before, Run(before).profile, c);
    }
  }

  /** By name, while releases use known names: an edge from x to y iff y was taken directly under x. */
  lemma EdgeIffTakenUnder(calls: seq<Call>, x: Name, y: Name)
    requires Run(calls).Alive? && KnownReleases(calls)
    ensures var s := Run(calls).profile;
            TakenUnder(calls, x, y) <==>
            x in s.nameToId && y in s.nameToId && Edge(s.history, s.nameToId[x], s.nameToId[y])
  {
    HistoryIsOrder(calls);
    FaithfulIffKnownReleases(calls);
    EdgeByName(Run(calls).profile, calls, x, y);
  }

  lemma EdgeByName(s: Profile, calls: seq<Call>, x: Name, y: Name)
    requires EdgesExact(s, calls) && NamesFaithful(s)
    ensures TakenUnder(calls, x, y) <==>
            x in s.nameToId && y in s.nameToId && Edge(s.history, s.nameToId[x], s.nameToId[y])
  {
    if TakenUnder(calls, x, y) {
      assert Shows(s, calls, x, y, s.nameToId[x], s.nameToId[y]);
      var i: nat :| Takes(calls, i, x, y);
      assert s.idToName[s.nameToId[x]] == x && s.idToName[s.nameToId[y]] == y;
    }
    if x in s.nameToId && y in s.nameToId && Edge(s.history, s.nameToId[x], s.nameToId[y]) {
      var a, b :| Shows(s, calls, a, b, s.nameToId[x], s.nameToId[y]);
      assert s.idToName[s.nameToId[x]] == x && s.idToName[s.nameToId[y]] == y;
      assert s.idToName[s.nameToId[a]] == a && s.idToName[s.nameToId[b]] == b;
    }
  }

  // ----- cycles of names and of ids ----------------------------------------------------------

  lemma NameCycleIsCycle(s: Profile, calls: seq<Call>)
    requires EdgesExact(s, calls) && NamesFaithful(s) && NameCycle(calls)
    ensures HasCycle(s.history)
  {
    var p :| |p| >= 2 && p[0] == p[|p| - 1] && NameWalk(calls, p);
    forall i | 0 <= i < |p| ensures p[i] in s.nameToId {
      if i + 1 < |p| {
        EdgeByName(s, calls, p[i], p[i + 1]);
      } else {
        EdgeByName(s, calls, p[0], p[1]);
      }
    }
    var q := seq(|p|, i requires 0 <= i < |p| && p[i] in s.nameToId => s.nameToId[p[i]]);
    forall i, j | 0 <= i && j == i + 1 < |q| ensures Edge(s.history, q[i], q[j]) {
      EdgeByName(s, calls, p[i], p[j]);
    }
    assert WalkBetween(s.history, q, q[0], q[0]);
    assert Reaches(s.history, q[0], q[0]);
  }

  lemma CycleIsNameCycle(s: Profile, calls: seq<Call>)
    requires EdgesExact(s, calls) && NamesFaithful(s) && HasCycle(s.history)
    ensures NameCycle(calls)
  {
    var u :| Reaches(s.history, u, u);
    var q :| WalkBetween(s.history, q, u, u);
    forall i, j | 0 <= i && j == i + 1 < |q|
      ensures q[i] in s.idToName && q[j] in s.idToName && TakenUnder(calls, s.idToName[q[i]], s.idToName[q[j]])
    {
      assert Edge(s.history, q[i], q[j]);
      var x, y :| Shows(s, calls, x, y, q[i], q[j]);
      assert s.idToName[q[i]] == x && s.idToName[q[j]] == y;
    }
    forall i | 0 <= i < |q| ensures q[i] in s.idToName {
      var k, j := if i == 0 then 0 else i - 1, if i == 0 then 1 else i;
      var a, b := q[k], q[j];
      assert a in s.idToName && b in s.idToName;
    }
    var p := seq(|q|, i requires 0 <= i < |q| && q[i] in s.idToName => s.idToName[q[i]]);
    assert NameWalk(calls, p);
  }

  /** While releases use known names, a push crashes iff it closes a circle in the order of the names. */
  lemma PushCrashesIffNameCycle(calls: seq<Call>, t: ThreadId, name: Name)
    requires Run(calls).Alive? && KnownReleases(calls)
    ensures Run(calls + [Push(t, name)]).Crashed? <==> NameCycle(calls + [Push(t, name)])
  {
    var s := Run(calls).profile;
    var s' := Pushed(s, t, name);
    RunSnoc(calls, Push(t, name));
    AliveIsCoherent(calls);
    HistoryIsOrder(calls);
    FaithfulIffKnownReleases(calls);
    StacksMirror(calls, t);
    PushExact(calls, s, t, name);
    PushKeepsNames(s, t, name);
    if HasCycle(s'.history) {
      CycleIsNameCycle(s', calls + [Push(t, name)]);
    }
    if NameCycle(calls + [Push(t, name)]) {
      NameCycleIsCycle(s', calls + [Push(t, name)]);
    }
  }

  /** The verdict on a release, by name. */
  lemma VerdictByName(calls: seq<Call>, t: ThreadId, name: Name)
    requires Run(calls).Alive? && KnownReleases(calls) && name in Run(calls).profile.nameToId
    ensures var st, v := NameStack(calls, t), UnlockVerdict(Run(calls).profile, t, name);
            && (v == MultipleUnlock <==> st == [])
            && (v == Fine <==> st != [] && st[|st| - 1] == name)
  {
    var s, st := Run(calls).profile, NameStack(calls, t);
    StacksMirror(calls, t);
    FaithfulIffKnownReleases(calls);
    if st != [] {
      var x := st[|st| - 1];
      assert StackOf(s, t)[|st| - 1] == s.nameToId[x];
      assert s.idToName[s.nameToId[x]] == x && s.idToName[s.nameToId[name]] == name;
    }
  }

  // ----- whole runs -----------------------------------------------------------------------------

  lemma WasTakenSnoc(calls: seq<Call>, c: Call, name: Name)
    ensures WasTaken(calls + [c], name) <==> WasTaken(calls, name) || c == Push(c.thread, name)
  {
    var all := calls + [c];
    if WasTaken(calls, name) {
      var i :| 0 <= i < |calls| && calls[i].Push? && calls[i].name == name;
      assert all[i] == calls[i];
    }
    if c == Push(c.thread, name) {
      assert all[|calls|] == c;
    }
  }

  lemma ReleasesSnoc(calls: seq<Call>, c: Call)
    ensures ReleasesTaken(calls + [c]) <==> ReleasesTaken(calls) && (c.Pop? ==> WasTaken(calls, c.name))
  {
    var all := calls + [c];
    assert all[..|calls|] == calls && all[|calls|] == c;
    assert forall i | 0 <= i < |calls| :: all[..i] == calls[..i] && all[i] == calls[i];
    if ReleasesTaken(all) {
      forall i | 0 <= i < |calls| && calls[i].Pop? ensures WasTaken(calls[..i], calls[i].name) {
        assert all[i].Pop? && WasTaken(all[..i], all[i].name);
      }
    }
  }

  /** The names with an id are the names taken, as long as releases name only those. */
  lemma {:induction false} KnownIffTaken(calls: seq<Call>)
    requires Run(calls).Alive?
    ensures KnownReleases(calls) <==> ReleasesTaken(calls)
    ensures KnownReleases(calls) ==> forall x :: x in Run(calls).profile.nameToId <==> WasTaken(calls, x)
  {
    if calls != [] {
      var before, c := calls[..|calls| - 1], calls[|calls| - 1];
      assert before + [c] == calls;
      KnownIffTaken(before);
      ReleasesSnoc(before, c);
      forall x ensures WasTaken(calls, x) <==> WasTaken(before, x) || c == Push(c.thread, x) {
        WasTakenSnoc(before, c, x);
      }
    }
  }

  lemma {:induction false} HeldWasTaken(calls: seq<Call>, t: ThreadId, x: Name)
    requires x in NameStack(calls, t)
    ensures WasTaken(calls, x)
  {
    var before, c := calls[..|calls| - 1], calls[|calls| - 1];
    assert before + [c] == calls;
    NamesSnoc(before, c, t);
    WasTakenSnoc(before, c, x);
    if x in NameStack(before, t) {
      HeldWasTaken(before, t, x);
    }
  }

  lemma PopStep(before: seq<Call>, t: ThreadId, name: Name)
    requires Run(before).Alive? && ReleasesTaken(before)
    ensures var calls := before + [Pop(t, name)];
            InOrder(before, Pop(t, name)) <==> Run(calls).Alive? && ReleasesTaken(calls)
  {
    var st := NameStack(before, t);
    KnownIffTaken(before);
    ReleasesSnoc(before, Pop(t, name));
    RunSnoc(before, Pop(t, name));
    if st != [] && st[|st| - 1] == name {
      HeldWasTaken(before, t, name);
    }
    if WasTaken(before, name) {
      VerdictByName(before, t, name);
    }
  }

  lemma PushStep(before: seq<Call>, t: ThreadId, name: Name)
    requires Run(before).Alive? && ReleasesTaken(before)
    ensures var calls := before + [Push(t, name)];
            InOrder(before, Push(t, name)) <==> Run(calls).Alive? && ReleasesTaken(calls)
  {
    KnownIffTaken(before);
    ReleasesSnoc(before, Push(t, name));
    PushCrashesIffNameCycle(before, t, name);
  }

  lemma CrashStays(before: seq<Call>, c: Call)
    ensures Run(before + [c]).Alive? && ReleasesTaken(before + [c]) ==> Run(before).Alive? && ReleasesTaken(before)
  {
    RunSnoc(before, c);
    ReleasesSnoc(before, c);
  }

  /**
   * Exactly: the profiler lets a run pass, and no release named a lock never taken, iff locks are
   * released innermost first and the order in which they are taken never closes a circle.
   */
  lemma {:induction false} AliveIffWellOrdered(calls: seq<Call>)
    ensures WellOrdered(calls) <==> Run(calls).Alive? && ReleasesTaken(calls)
  {
    if calls != [] {
      var before, c := calls[..|calls| - 1], calls[|calls| - 1];
      assert before + [c] == calls;
      AliveIffWellOrdered(before);
      CrashStays(before, c);
      if Run(before).Alive? && ReleasesTaken(before) {
        match c
        case Push(t, name) => PushStep(before, t, name);
        case Pop(t, name) => PopStep(before, t, name);
      }
    }
  }
}
