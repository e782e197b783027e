/** The lock-order profiler: lock ids, the acquisition history and the cycle search. */
module DeadLockProfiler {
  import opened LockGraph
  import opened Ordered

  /** A lock name is a C string pointer and is compared by address. */
  type Name = nat
  type ThreadId = nat

  datatype Verdict = Fine | MultipleUnlock | InvalidUnlock

  /** The profiler's data between two calls, with every thread's lock stack. */
  datatype Profile = Profile(
    nameToId: map<Name, nat>,
    idToName: map<nat, Name>,
    history: Graph,
    stacks: map<ThreadId, seq<nat>>)

  const EMPTY_PROFILE := Profile(map[], map[], map[], map[])

  function StackOf(s: Profile, t: ThreadId): seq<nat> {
    if t in s.stacks then s.stacks[t] else []
  }

  function LockId(s: Profile, name: Name): nat {
    if name in s.nameToId then s.nameToId[name] else |s.nameToId|
  }

  /** Taking the named lock would record an edge not seen before. */
  predicate AddsEdge(s: Profile, t: ThreadId, name: Name) {
    var st, id := StackOf(s, t), LockId(s, name);
    st != [] && st[|st| - 1] != id && !Edge(s.history, st[|st| - 1], id)
  }

  function WithEdge(g: Graph, u: nat, v: nat): Graph {
    g[u := (if u in g then g[u] else {}) + {v}]
  }

  /** The profile after a push that does not crash. */
  function Pushed(s: Profile, t: ThreadId, name: Name): Profile {
    var st, id := StackOf(s, t), LockId(s, name);
    Profile(s.nameToId[name := id],
            if name in s.nameToId then s.idToName else s.idToName[id := name],
            if AddsEdge(s, t, name) then WithEdge(s.history, st[|st| - 1], id) else s.history,
            s.stacks[t := st + [id]])
  }

  /** Looking up an unknown name in the id table inserts it with id 0. */
  function UnlockId(s: Profile, name: Name): nat {
    if name in s.nameToId then s.nameToId[name] else 0
  }

  function UnlockVerdict(s: Profile, t: ThreadId, name: Name): Verdict {
    var st := StackOf(s, t);
    if st == [] then MultipleUnlock
    else if st[|st| - 1] != UnlockId(s, name) then InvalidUnlock
    else Fine
  }

  function Popped(s: Profile, t: ThreadId, name: Name): Profile
    requires StackOf(s, t) != []
  {
    var st := StackOf(s, t);
    s.(nameToId := s.nameToId[name := UnlockId(s, name)], stacks := s.stacks[t := st[..|st| - 1]])
  }

  /** Adjacent stack entries are the same lock or a recorded edge. */
  ghost predicate StackRecorded(g: Graph, st: seq<nat>) {
    forall i, j | 0 <= i && j == i + 1 < |st| :: st[i] == st[j] || Edge(g, st[i], st[j])
  }

  ghost predicate IdsInRange(s: Profile) {
    && (forall x | x in s.nameToId :: s.nameToId[x] < |s.nameToId|)
    && (forall t | t in s.stacks :: forall i | i in s.stacks[t] :: i < |s.nameToId|)
  }

  /** What holds between any two calls of a run that has not crashed. */
  ghost predicate Coherent(s: Profile) {
    && IdsInRange(s)
    && WellFormed(s.history, |s.nameToId|)
    && !HasCycle(s.history)
    && (forall t | t in s.stacks :: StackRecorded(s.history, s.stacks[t]))
  }

  // ----- state of one search -------------------------------------------------

  ghost predicate Path(g: Graph, disc: seq<int>, par: seq<int>, path: seq<nat>)
    requires |disc| == |par|
  {
    && (forall i | 0 <= i < |path| :: path[i] < |disc|)
    && (forall i, j | 0 <= i < j < |path| :: disc[path[i]] < disc[path[j]])
    && (forall i, j | 0 <= i && j == i + 1 < |path| :: Edge(g, path[i], path[j]) && par[path[j]] == path[i])
  }

  /**
   * path holds the discovered but unfinished ids, outermost first;
   * done holds the finished ids in finishing order.
   */
  ghost predicate Search(g: Graph, disc: seq<int>, cnt: nat, fin: seq<bool>, par: seq<int>,
                         path: seq<nat>, done: seq<nat>)
  {
    && |disc| == |fin| == |par|
    && WellFormed(g, |disc|)
    && (forall u | 0 <= u < |disc| :: disc[u] == -1 || 0 <= disc[u] < cnt)
    && (forall u | 0 <= u < |disc| :: fin[u] <==> u in done)
    && (forall u | 0 <= u < |disc| :: (u in path || u in done) <==> disc[u] != -1)
    && (forall u | u in path :: u !in done)
    && (forall u | u in done :: u < |disc|)
    && Path(g, disc, par, path)
    && TopologicalOrder(g, done)
  }

  ghost function Undiscovered(disc: seq<int>): set<nat> {
    set u: nat | u < |disc| && disc[u] == -1
  }

  /** here may be entered next: it hangs off the innermost unfinished id. */
  ghost predicate Entry(g: Graph, par: seq<int>, path: seq<nat>, here: nat)
    requires here < |par|
  {
    path != [] ==> Edge(g, path[|path| - 1], here) && par[here] == path[|path| - 1]
  }

  /** What a search leaves alone: everything recorded about ids already discovered. */
  ghost predicate Extends(disc0: seq<int>, par0: seq<int>, disc: seq<int>, par: seq<int>) {
    && |disc0| == |par0| == |disc| == |par|
    && (forall u | 0 <= u < |disc| && disc0[u] != -1 :: disc[u] == disc0[u] && par[u] == par0[u])
  }

  lemma Discover(g: Graph, disc: seq<int>, cnt: nat, fin: seq<bool>, par: seq<int>,
                 path: seq<nat>, done: seq<nat>, here: nat)
    requires Search(g, disc, cnt, fin, par, path, done)
    requires here < |disc| && disc[here] == -1 && Entry(g, par, path, here)
    ensures Search(g, disc[here := cnt], cnt + 1, fin, par, path + [here], done)
    ensures Undiscovered(disc[here := cnt]) < Undiscovered(disc)
  {
    var disc', path' := disc[here := cnt], path + [here];
    assert here !in path && here !in done;
    forall u | 0 <= u < |disc| ensures (u in path' || u in done) <==> disc'[u] != -1 {
      assert u in path' <==> u in path || u == here;
    }
    PathGrows(g, disc, cnt, par, path, here);
    assert here in Undiscovered(disc);
  }

  lemma PathGrows(g: Graph, disc: seq<int>, cnt: nat, par: seq<int>, path: seq<nat>, here: nat)
    requires |disc| == |par| && Path(g, disc, par, path)
    requires here < |disc| && here !in path && Entry(g, par, path, here)
    requires forall u | 0 <= u < |disc| :: disc[u] < cnt
    ensures Path(g, disc[here := cnt], par, path + [here])
  {
    var disc', path' := disc[here := cnt], path + [here];
    forall i, j | 0 <= i < j < |path'| ensures disc'[path'[i]] < disc'[path'[j]] {
      assert path[i] in path && path[i] != here;
      assert j < |path| ==> path[j] in path;
    }
  }

  /** All successors of the innermost unfinished id are finished, so it may finish too. */
  lemma Finish(g: Graph, disc: seq<int>, cnt: nat, fin: seq<bool>, par: seq<int>,
               path: seq<nat>, done: seq<nat>, here: nat)
    requires Search(g, disc, cnt, fin, par, path + [here], done)
    requires here < |disc|
    requires forall v | Edge(g, here, v) :: v in done
    ensures Search(g, disc, cnt, fin[here := true], par, path, done + [here])
  {
    var full, done' := path + [here], done + [here];
    assert full[|path|] == here && here in full;
    forall u | u in path ensures u in full && u != here {
      var i :| 0 <= i < |path| && path[i] == u;
      assert full[i] == u && disc[full[i]] < disc[full[|path|]];
    }
    forall u | 0 <= u < |disc| ensures u in full <==> u in path || u == here { }
    forall u | 0 <= u < |disc| ensures u in done' <==> u in done || u == here { }
    assert Path(g, disc, par, path) by {
      forall i | 0 <= i < |path| ensures path[i] == full[i] { }
    }
    assert TopologicalOrder(g, done') by {
      forall i, v | 0 <= i < |done'| && Edge(g, done'[i], v) ensures v in done'[..i] {
        if i < |done| {
          assert done'[..i] == done[..i];
        } else {
          assert done'[..i] == done;
        }
      }
    }
  }

  /** Re-parenting an undiscovered id changes nothing the search relies on. */
  lemma Reparent(g: Graph, disc: seq<int>, cnt: nat, fin: seq<bool>, par: seq<int>,
                 path: seq<nat>, done: seq<nat>, there: nat, here: nat)
    requires Search(g, disc, cnt, fin, par, path, done)
    requires there < |disc| && disc[there] == -1
    ensures Search(g, disc, cnt, fin, par[there := here], path, done)
  {
    forall i | 0 <= i < |path| ensures path[i] != there {
      assert path[i] in path;
    }
  }

  lemma Unstarted(g: Graph, disc: seq<int>, fin: seq<bool>, par: seq<int>)
    requires |disc| == |fin| == |par| && WellFormed(g, |disc|)
    requires forall u | 0 <= u < |disc| :: disc[u] == -1 && !fin[u]
    ensures Search(g, disc, 0, fin, par, [], [])
  {
  }

  lemma Exhausted(g: Graph, disc: seq<int>, cnt: nat, fin: seq<bool>, par: seq<int>, done: seq<nat>)
    requires Search(g, disc, cnt, fin, par, [], done)
    requires forall u | 0 <= u < |disc| :: disc[u] != -1
    ensures !HasCycle(g)
  {
    TopologicalOrderExcludesCycles(g, done);
  }

  /** The edges logged on the way up from the innermost id to path[goal] form a simple cycle. */
  lemma ClosedReport(g: Graph, disc: seq<int>, par: seq<int>, path: seq<nat>, goal: nat, r: seq<(nat, nat)>)
    requires |disc| == |par| && Path(g, disc, par, path)
    requires goal < |path| - 1 && |r| == |path| - goal
    requires r[0] == (path[|path| - 1], path[goal]) && Edge(g, path[|path| - 1], path[goal])
    requires forall i | 1 <= i < |r| :: r[i] == (path[|path| - 1 - i], path[|path| - i])
    ensures CycleReport(g, r)
  {
    forall i | 0 <= i < |r| ensures Edge(g, r[i].0, r[i].1) {
      if i > 0 {
        var a, b := |path| - 1 - i, |path| - i;
        assert b == a + 1 < |path| && Edge(g, path[a], path[b]);
      }
    }
    forall i, j | 0 <= i < j < |r| ensures r[i].0 != r[j].0 {
      assert disc[path[|path| - 1 - j]] < disc[path[|path| - 1 - i]];
    }
  }

  class Profiler {
    var nameToId: map<Name, nat>
    var idToName: map<nat, Name>
    var history: Graph
    /** The thread-local lock stacks, one per thread that ever pushed. */
    var stacks: map<ThreadId, seq<nat>>

    var discoveredOrder: seq<int>
    var discoveredCount: nat
    var finished: seq<bool>
    var parent: seq<int>

    constructor ()
      ensures View() == EMPTY_PROFILE
    {
      nameToId, idToName, history, stacks := map[], map[], map[], map[];
      discoveredOrder, discoveredCount, finished, parent := [], 0, [], [];
    }

    ghost function View(): Profile
      reads this
    {
      Profile(nameToId, idToName, history, stacks)
    }

    /** The walk up the parents that logs the cycle closed by the edge here -> there. */
    method LogCycle(here: nat, there: nat, ghost path: seq<nat>) returns (report: seq<(nat, nat)>)
      requires |discoveredOrder| == |parent| && Path(history, discoveredOrder, parent, path)
      requires path != [] && path[|path| - 1] == here
      requires there in path && there != here && Edge(history, here, there)
      ensures CycleReport(history, report)
    {
      ghost var top := |path| - 1;
      ghost var goal :| 0 <= goal < top && path[goal] == there;
      report := [(here, there)];
      var now := here;
      ghost var k := top;
      while true
        invariant goal < k <= top && path[k] == now
        invariant |report| == |path| - k
        invariant report[0] == (here, there)
        invariant forall i | 1 <= i < |report| :: report[i] == (path[top - i], path[|path| - i])
        decreases k
      {
        ghost var k' := k - 1;
        assert Edge(history, path[k'], path[k]) && parent[path[k]] == path[k'];
        report := report + [(parent[now], now)];
        now := parent[now];
        k := k';
        if now == there {
          break;
        }
        assert path[k] != path[goal];
      }
      ClosedReport(history, discoveredOrder, parent, path, goal, report);
    }

    /** One turn of the search's loop: the edge from here, the innermost unfinished id, to there. */
    method Visit(here: nat, there: nat, ghost path: seq<nat>, ghost done: seq<nat>)
      returns (crashed: bool, report: seq<(nat, nat)>, ghost done': seq<nat>)
      requires Search(history, discoveredOrder, discoveredCount, finished, parent, path, done)
      requires path != [] && path[|path| - 1] == here && Edge(history, here, there)
      modifies `discoveredOrder, `discoveredCount, `finished, `parent
      ensures crashed ==> CycleReport(history, report)
      ensures !crashed ==> Search(history, discoveredOrder, discoveredCount, finished, parent, path, done')
      ensures !crashed ==> done <= done' && there in done'
      ensures !crashed ==> Extends(old(discoveredOrder), old(parent), discoveredOrder, parent)
      decreases Undiscovered(discoveredOrder), 1
    {
      crashed, report, done' := false, [], done;
      if discoveredOrder[there] == -1 {
        Reparent(history, discoveredOrder, discoveredCount, finished, parent, path, done, there, here);
        parent := parent[there := here];
        crashed, report, done' := DFS(there, path, done);
      } else if discoveredOrder[here] < discoveredOrder[there] {
        LaterIsDone(history, discoveredOrder, discoveredCount, finished, parent, path, done, here, there);
      } else if !finished[there] {
        report := LogCycle(here, there, path);
        crashed := true;
      }
    }

    /** The search's loop over the successors of here, the innermost unfinished id, in increasing order. */
    method VisitAll(here: nat, ghost path: seq<nat>, ghost done: seq<nat>)
      returns (crashed: bool, report: seq<(nat, nat)>, ghost done': seq<nat>)
      requires Search(history, discoveredOrder, discoveredCount, finished, parent, path, done)
      requires path != [] && path[|path| - 1] == here && here in history
      modifies `discoveredOrder, `discoveredCount, `finished, `parent
      ensures crashed ==> CycleReport(history, report)
      ensures !crashed ==> Search(history, discoveredOrder, discoveredCount, finished, parent, path, done')
      ensures !crashed ==> done <= done' && forall v | Edge(history, here, v) :: v in done'
      ensures !crashed ==> Extends(old(discoveredOrder), old(parent), discoveredOrder, parent)
      decreases Undiscovered(discoveredOrder), 2
    {
      crashed, report, done' := false, [], done;
      var todo := history[here];
      while todo != {}
        invariant Search(history, discoveredOrder, discoveredCount, finished, parent, path, done')
        invariant todo <= history[here] && done <= done'
        invariant forall v | Edge(history, here, v) && v !in todo :: v in done'
        invariant Extends(old(discoveredOrder), old(parent), discoveredOrder, parent)
        decreases todo
      {
        ghost var least := LeastExists(todo);
        var there :| there in todo && forall x | x in todo :: there <= x;
        assert Edge(history, here, there);
        todo := todo - {there};
        assert Undiscovered(discoveredOrder) <= Undiscovered(old(discoveredOrder));
        crashed, report, done' := Visit(here, there, path, done');
        if crashed {
          return;
        }
      }
    }

    /** Depth-first search from here; it stops at the first edge back into the current path. */
    method DFS(here: nat, ghost path: seq<nat>, ghost done: seq<nat>)
      returns (crashed: bool, report: seq<(nat, nat)>, ghost done': seq<nat>)
      requires Search(history, discoveredOrder, discoveredCount, finished, parent, path, done)
      requires here < |discoveredOrder|
      requires discoveredOrder[here] == -1 ==> Entry(history, parent, path, here)
      modifies `discoveredOrder, `discoveredCount, `finished, `parent
      ensures crashed ==> CycleReport(history, report)
      ensures !crashed ==> Search(history, discoveredOrder, discoveredCount, finished, parent, path, done')
      ensures !crashed ==> done <= done' && here < |discoveredOrder| && discoveredOrder[here] != -1
      ensures !crashed && old(discoveredOrder[here]) == -1 ==> here in done'
      ensures !crashed ==> Extends(old(discoveredOrder), old(parent), discoveredOrder, parent)
      decreases Undiscovered(discoveredOrder), 0
    {
      crashed, report, done' := false, [], done;
      if discoveredOrder[here] != -1 {
        return;
      }
      Discover(history, discoveredOrder, discoveredCount, finished, parent, path, done, here);
      discoveredOrder := discoveredOrder[here := discoveredCount];
      discoveredCount := discoveredCount + 1;
      ghost var full := path + [here];
      assert full[|path|] == here;
      if here !in history {
        Finish(history, discoveredOrder, discoveredCount, finished, parent, path, done', here);
        finished := finished[here := true];
        done' := done' + [here];
        return;
      }
      crashed, report, done' := VisitAll(here, full, done);
      if crashed {
        return;
      }
      Finish(history, discoveredOrder, discoveredCount, finished, parent, path, done', here);
      finished := finished[here := true];
      done' := done' + [here];
    }

    /** Searches from every lock id in turn. */
    method SearchAll() returns (crashed: bool, report: seq<(nat, nat)>)
      requires Search(history, discoveredOrder, discoveredCount, finished, parent, [], [])
      modifies `discoveredOrder, `discoveredCount, `finished, `parent
      ensures crashed <==> HasCycle(history)
      ensures crashed ==> CycleReport(history, report)
    {
      var lockCount := |discoveredOrder|;
      ghost var done: seq<nat> := [];
      crashed, report := false, [];
      for lockId := 0 to lockCount
        invariant |discoveredOrder| == lockCount
        invariant Search(history, discoveredOrder, discoveredCount, finished, parent, [], done)
        invariant forall u | 0 <= u < lockId :: discoveredOrder[u] != -1
      {
        crashed, report, done := DFS(lockId, [], done);
        if crashed {
          ReportIsCycle(history, report);
          return;
        }
      }
      Exhausted(history, discoveredOrder, discoveredCount, finished, parent, done);
    }

    method CheckCycle() returns (crashed: bool, report: seq<(nat, nat)>)
      requires WellFormed(history, |nameToId|)
      modifies `discoveredOrder, `discoveredCount, `finished, `parent
      ensures crashed <==> HasCycle(history)
      ensures crashed ==> CycleReport(history, report)
    {
      var lockCount := |nameToId|;
      discoveredOrder := seq(lockCount, _ => -1);
      discoveredCount := 0;
      finished := seq(lockCount, _ => false);
      parent := seq(lockCount, _ => -1);
      Unstarted(history, discoveredOrder, finished, parent);
      crashed, report := SearchAll();
      if !crashed {
        discoveredOrder, finished, parent := [], [], [];
      }
    }

    /** Records that lockId is taken while prevId is the innermost lock held. */
    method RecordEdge(prevId: nat, lockId: nat) returns (crashed: bool, report: seq<(nat, nat)>)
      requires WellFormed(WithEdge(history, prevId, lockId), |nameToId|)
      modifies `history, `discoveredOrder, `discoveredCount, `finished, `parent
      ensures history == if old(Edge(history, prevId, lockId)) then old(history) else old(WithEdge(history, prevId, lockId))
      ensures crashed <==> !old(Edge(history, prevId, lockId)) && HasCycle(history)
      ensures crashed ==> CycleReport(history, report)
    {
      crashed, report := false, [];
      var next := if prevId in history then history[prevId] else {};
      if lockId !in next {
        history := history[prevId := next + {lockId}];
        crashed, report := CheckCycle();
      }
    }

    /** Finds the id of a name, or issues the next one. */
    method Identify(name: Name) returns (lockId: nat)
      modifies `nameToId, `idToName
      ensures lockId == LockId(old(View()), name) && nameToId == old(nameToId)[name := lockId]
      ensures idToName == if name in old(nameToId) then old(idToName) else old(idToName)[lockId := name]
    {
      if name !in nameToId {
        lockId := |nameToId|;
        nameToId := nameToId[name := lockId];
        idToName := idToName[lockId := name];
      } else {
        lockId := nameToId[name];
      }
    }

    /**
     * Thread t is about to wait for the named lock.  The call crashes exactly when it records
     * a new edge and that edge closes a cycle; otherwise the profile advances.
     */
    method PushLock(t: ThreadId, name: Name) returns (crashed: bool, report: seq<(nat, nat)>)
      requires IdsInRange(View()) && WellFormed(history, |nameToId|)
      modifies this
      ensures crashed <==> AddsEdge(old(View()), t, name) && HasCycle(Pushed(old(View()), t, name).history)
      ensures crashed ==> CycleReport(Pushed(old(View()), t, name).history, report)
      ensures !crashed ==> View() == Pushed(old(View()), t, name)
    {
      ghost var before := View();
      crashed, report := false, [];
      var lockId := Identify(name);
      assert nameToId == Pushed(before, t, name).nameToId;
      var stack := if t in stacks then stacks[t] else [];
      if stack != [] {
        var prevId := stack[|stack| - 1];
        if lockId != prevId {
          EdgeFits(before, t, name);
          crashed, report := RecordEdge(prevId, lockId);
          if crashed {
            return;
          }
        }
      }
      stacks := stacks[t := stack + [lockId]];
    }

    /** Thread t has released the named lock. */
    method PopLock(t: ThreadId, name: Name) returns (verdict: Verdict)
      modifies this
      ensures verdict == UnlockVerdict(old(View()), t, name)
      ensures verdict == Fine ==> View() == Popped(old(View()), t, name)
    {
      if t !in stacks || stacks[t] == [] {
        return MultipleUnlock;
      }
      if name !in nameToId {
        nameToId := nameToId[name := 0];
      }
      var stack := stacks[t];
      if stack[|stack| - 1] != nameToId[name] {
        return InvalidUnlock;
      }
      stacks := stacks[t := stack[..|stack| - 1]];
      return Fine;
    }
  }

  /** An id discovered after the innermost unfinished id is finished already. */
  lemma LaterIsDone(g: Graph, disc: seq<int>, cnt: nat, fin: seq<bool>, par: seq<int>,
                    path: seq<nat>, done: seq<nat>, here: nat, there: nat)
    requires Search(g, disc, cnt, fin, par, path, done)
    requires path != [] && path[|path| - 1] == here
    requires there < |disc| && disc[here] < disc[there]
    ensures there in done
  {
    forall i | 0 <= i < |path| ensures path[i] != there {
      assert i < |path| - 1 ==> disc[path[i]] < disc[here];
    }
    assert path[|path| - 1] in path;
  }

  lemma UpdateSize(m: map<Name, nat>, name: Name, id: nat)
    ensures |m[name := id]| == if name in m then |m| else |m| + 1
  {
    assert m[name := id].Keys == m.Keys + {name};
    assert |m[name := id]| == |m[name := id].Keys| && |m| == |m.Keys|;
  }

  /** New ids are fresh, so an edge into one still fits the id range. */
  lemma EdgeFits(s: Profile, t: ThreadId, name: Name)
    requires IdsInRange(s) && WellFormed(s.history, |s.nameToId|)
    requires StackOf(s, t) != []
    ensures var st, id, n := StackOf(s, t), LockId(s, name), |Pushed(s, t, name).nameToId|;
            st[|st| - 1] != id ==> WellFormed(WithEdge(s.history, st[|st| - 1], id), n)
  {
    var st, id, n := StackOf(s, t), LockId(s, name), |Pushed(s, t, name).nameToId|;
    UpdateSize(s.nameToId, name, id);
    var prev := st[|st| - 1];
    assert prev in s.stacks[t];
    if prev != id {
      var g := WithEdge(s.history, prev, id);
      forall u: nat, v: nat | Edge(g, u, v) ensures v < n && v != u {
        assert Edge(s.history, u, v) || (u == prev && v == id);
      }
    }
  }

  lemma PushKeepsIds(s: Profile, t: ThreadId, name: Name)
    requires IdsInRange(s)
    ensures IdsInRange(Pushed(s, t, name))
    ensures |s.nameToId| <= |Pushed(s, t, name).nameToId|
  {
    var s' := Pushed(s, t, name);
    UpdateSize(s.nameToId, name, LockId(s, name));
    forall u, i | u in s'.stacks && i in s'.stacks[u] ensures i < |s'.nameToId| {
      assert u == t ==> i in StackOf(s, t) || i == LockId(s, name);
    }
  }

  lemma PushKeepsCoherence(s: Profile, t: ThreadId, name: Name)
    requires Coherent(s)
    requires AddsEdge(s, t, name) ==> !HasCycle(Pushed(s, t, name).history)
    ensures Coherent(Pushed(s, t, name))
  {
    var s' := Pushed(s, t, name);
    PushKeepsIds(s, t, name);
    if AddsEdge(s, t, name) {
      EdgeFits(s, t, name);
    }
    assert forall u: nat, v: nat | Edge(s.history, u, v) :: Edge(s'.history, u, v);
    assert StackRecorded(s.history, StackOf(s, t));
    assert StackRecorded(s'.history, s'.stacks[t]);
    forall u | u in s'.stacks ensures StackRecorded(s'.history, s'.stacks[u]) {
      assert u != t ==> s'.stacks[u] == s.stacks[u];
    }
  }

  lemma PopKeepsIds(s: Profile, t: ThreadId, name: Name)
    requires IdsInRange(s) && UnlockVerdict(s, t, name) == Fine
    ensures IdsInRange(Popped(s, t, name))
    ensures |s.nameToId| <= |Popped(s, t, name).nameToId|
  {
    UpdateSize(s.nameToId, name, UnlockId(s, name));
    var s' := Popped(s, t, name);
    var st := StackOf(s, t);
    assert st[|st| - 1] in s.stacks[t];
    forall u, i | u in s'.stacks && i in s'.stacks[u] ensures i in s.stacks[u] {
    }
  }

  lemma PopKeepsCoherence(s: Profile, t: ThreadId, name: Name)
    requires Coherent(s) && UnlockVerdict(s, t, name) == Fine
    ensures Coherent(Popped(s, t, name))
  {
    PopKeepsIds(s, t, name);
    var s' := Popped(s, t, name);
    assert StackRecorded(s.history, s.stacks[t]);
    assert StackRecorded(s'.history, s'.stacks[t]);
  }
}
