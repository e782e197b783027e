/** Any number of threads inside AssignLobby at once, interleaved with the lobbies' own jobs. */
module LobbyAssign {
  import opened Slots
  import Places

  /** Where a call of AssignLobby is; an empty lobby count seen by the fallback scan is kept in seen. */
  datatype Call =
    | Scan(i: nat, best: int, bestCount: int)
    | TryBest(k: nat)
    | Fallback(i: nat, seen: seq<int>)
    | Got(k: nat)
    | GaveUp(seen: seq<int>)

  datatype World = World(lobbies: seq<Place>, calls: map<ThreadId, Call>)

  datatype Step =
    | Begin(t: ThreadId)
    | Look(t: ThreadId)
    | Reserve(t: ThreadId, spurious: bool)
    | Submit(t: ThreadId, player: PlayerId)
    | GiveUp(t: ThreadId)
    | LobbyStep(k: nat, step: Slots.Step)

  /** Steps a lobby takes on its own: its jobs, and exits queued by players. */
  predicate OwnStep(step: Slots.Step) {
    step.QueueLeave? || step.StartJob? || step.Insert? || step.LookAtSession? || step.ReturnSlot?
  }

  /** One turn of the scan for the fullest lobby, or the move past its end. */
  function Looked(lobbies: seq<Place>, c: Call): Call
    requires c.Scan?
  {
    if c.i < |lobbies| then (
      var cnt := lobbies[c.i].capacity - lobbies[c.i].slots;
      if cnt < lobbies[c.i].capacity && cnt > c.bestCount then Scan(c.i + 1, c.i, cnt) else Scan(c.i + 1, c.best, c.bestCount)
    ) else if 0 <= c.best < |lobbies| then TryBest(c.best)
    else Fallback(0, [])
  }

  /** The lobby a call tries to reserve a slot in. */
  function Target(c: Call): nat
    requires c.TryBest? || c.Fallback?
  {
    if c.TryBest? then c.k else c.i
  }

  predicate Trying(c: Call, n: nat) {
    (c.TryBest? || c.Fallback?) && Target(c) < n
  }

  /** The load and the compare-exchange of TryReserveSlot are separate steps. */
  function ReserveStep(w: World, t: ThreadId, spurious: bool): World
    requires t in w.calls && Trying(w.calls[t], |w.lobbies|)
  {
    var c := w.calls[t];
    var k := Target(c);
    var p := w.lobbies[k];
    if t in p.loaded then
      var q := Next(p, Cas(t, spurious), false);
      World(w.lobbies[k := q], if t in q.granted then w.calls[t := Got(k)] else w.calls)
    else
      World(w.lobbies[k := Next(p, Load(t), false)],
            if p.slots > 0 then w.calls
            else if c.TryBest? then w.calls[t := Fallback(0, [])]
            else w.calls[t := Fallback(c.i + 1, c.seen + [p.slots])])
  }

  function Apply(w: World, step: Step): World {
    match step
    case Begin(t) => if t in w.calls then w else w.(calls := w.calls[t := Scan(0, -1, -1)])
    case Look(t) => if t in w.calls && w.calls[t].Scan? then w.(calls := w.calls[t := Looked(w.lobbies, w.calls[t])]) else w
    case Reserve(t, spurious) =>
      if t in w.calls && Trying(w.calls[t], |w.lobbies|) then ReserveStep(w, t, spurious)
      else if t in w.calls && w.calls[t].Fallback? then w.(calls := w.calls[t := GaveUp(w.calls[t].seen)])
      else w
    case Submit(t, player) =>
      if t in w.calls && w.calls[t].Got? && w.calls[t].k < |w.lobbies| then
        var k := w.calls[t].k;
        World(w.lobbies[k := Next(w.lobbies[k], QueueEnter(t, player), false)], w.calls - {t})
      else w
    case GiveUp(t) => if t in w.calls && w.calls[t].GaveUp? then w.(calls := w.calls - {t}) else w
    case LobbyStep(k, s) =>
      if k < |w.lobbies| && OwnStep(s) then w.(lobbies := w.lobbies[k := Next(w.lobbies[k], s, false)]) else w
  }

  function Run(lobbyCount: nat, capacity: nat, steps: seq<Step>): World {
    if steps == [] then World(seq(lobbyCount, _ => Opened(capacity)), map[])
    else Apply(Run(lobbyCount, capacity, steps[..|steps| - 1]), steps[|steps| - 1])
  }

  ghost predicate SawNoSlot(seen: seq<int>, upTo: nat) {
    |seen| == upTo && forall i | 0 <= i < |seen| :: seen[i] <= 0
  }

  ghost predicate CallOk(n: nat, c: Call) {
    match c
    case Scan(i, best, _) => i <= n && best < n
    case TryBest(k) => k < n
    case Fallback(i, seen) => i <= n && SawNoSlot(seen, i)
    case Got(k) => k < n
    case GaveUp(seen) => SawNoSlot(seen, n)
  }

  /** Lobby k is balanced, and its reservations and loads belong to calls that are at lobby k. */
  ghost predicate LobbyOk(p: Place, k: nat, calls: map<ThreadId, Call>) {
    && Slots.Inv(p)
    && (forall t :: t in p.granted <==> t in calls && calls[t] == Got(k))
    && (forall t | t in p.loaded :: t in calls && (calls[t].TryBest? || calls[t].Fallback?) && Target(calls[t]) == k)
  }

  ghost predicate Inv(w: World) {
    && (forall k: nat | k < |w.lobbies| :: LobbyOk(w.lobbies[k], k, w.calls))
    && (forall t | t in w.calls :: CallOk(|w.lobbies|, w.calls[t]))
  }

  lemma OwnStepKeeps(p: Place, k: nat, calls: map<ThreadId, Call>, s: Slots.Step)
    requires LobbyOk(p, k, calls) && OwnStep(s)
    ensures LobbyOk(Next(p, s, false), k, calls)
  {
    NextKeeps(p, s, false);
  }

  /** A lobby does not notice a change of calls that are not at it. */
  lemma ElsewhereKeeps(p: Place, k: nat, calls: map<ThreadId, Call>, calls': map<ThreadId, Call>, t: ThreadId)
    requires LobbyOk(p, k, calls)
    requires forall u | u != t :: (u in calls <==> u in calls') && (u in calls ==> calls[u] == calls'[u])
    requires t !in p.granted && t !in p.loaded
    requires t in calls' ==> calls'[t] != Got(k)
    ensures LobbyOk(p, k, calls')
  {
  }

  lemma LoadKeeps(p: Place, k: nat, calls: map<ThreadId, Call>, t: ThreadId)
    requires LobbyOk(p, k, calls)
    requires t in calls && (calls[t].TryBest? || calls[t].Fallback?) && Target(calls[t]) == k
    ensures var q := Next(p, Load(t), false);
            LobbyOk(q, k, calls) && (p.slots <= 0 ==> t !in q.loaded) && t !in q.granted
  {
    NextKeeps(p, Load(t), false);
  }

  lemma CasKeeps(p: Place, k: nat, calls: map<ThreadId, Call>, t: ThreadId, spurious: bool)
    requires LobbyOk(p, k, calls) && t in p.loaded
    ensures var q := Next(p, Cas(t, spurious), false);
            && t !in q.loaded
            && LobbyOk(q, k, if t in q.granted then calls[t := Got(k)] else calls)
  {
    NextKeeps(p, Cas(t, spurious), false);
  }

  lemma SubmitKeeps(p: Place, k: nat, calls: map<ThreadId, Call>, t: ThreadId, player: PlayerId)
    requires LobbyOk(p, k, calls) && t in calls && calls[t] == Got(k)
    ensures LobbyOk(Next(p, QueueEnter(t, player), false), k, calls - {t})
  {
    NextKeeps(p, QueueEnter(t, player), false);
  }

  lemma ReserveKeeps(w: World, t: ThreadId, spurious: bool)
    requires Inv(w) && t in w.calls && Trying(w.calls[t], |w.lobbies|)
    ensures Inv(ReserveStep(w, t, spurious))
  {
    var w' := ReserveStep(w, t, spurious);
    var k := Target(w.calls[t]);
    var p := w.lobbies[k];
    assert LobbyOk(p, k, w.calls);
    if t in p.loaded {
      CasKeeps(p, k, w.calls, t, spurious);
    } else {
      LoadKeeps(p, k, w.calls, t);
      if p.slots <= 0 {
        ElsewhereKeeps(w'.lobbies[k], k, w.calls, w'.calls, t);
      }
    }
    forall j: nat | j < |w'.lobbies| ensures LobbyOk(w'.lobbies[j], j, w'.calls) {
      if j != k {
        assert LobbyOk(w.lobbies[j], j, w.calls);
        ElsewhereKeeps(w.lobbies[j], j, w.calls, w'.calls, t);
      }
    }
  }

  lemma CallChangeKeeps(w: World, t: ThreadId, c: Call)
    requires Inv(w) && CallOk(|w.lobbies|, c) && !c.Got?
    requires t !in w.calls || w.calls[t].Scan? || (w.calls[t].Fallback? && w.calls[t].i >= |w.lobbies|)
    ensures Inv(w.(calls := w.calls[t := c]))
  {
    var calls' := w.calls[t := c];
    forall j: nat | j < |w.lobbies| ensures LobbyOk(w.lobbies[j], j, calls') {
      assert LobbyOk(w.lobbies[j], j, w.calls);
      ElsewhereKeeps(w.lobbies[j], j, w.calls, calls', t);
    }
  }

  lemma ApplyKeeps(w: World, step: Step)
    requires Inv(w)
    ensures Inv(Apply(w, step))
  {
    match step
    case Begin(t) =>
      if t !in w.calls {
        CallChangeKeeps(w, t, Scan(0, -1, -1));
      }
    case Look(t) =>
      if t in w.calls && w.calls[t].Scan? {
        assert CallOk(|w.lobbies|, w.calls[t]);
        CallChangeKeeps(w, t, Looked(w.lobbies, w.calls[t]));
      }
    case Reserve(t, spurious) =>
      if t in w.calls && Trying(w.calls[t], |w.lobbies|) {
        ReserveKeeps(w, t, spurious);
      } else if t in w.calls && w.calls[t].Fallback? {
        assert CallOk(|w.lobbies|, w.calls[t]);
        CallChangeKeeps(w, t, GaveUp(w.calls[t].seen));
      }
    case Submit(t, player) =>
      if t in w.calls && w.calls[t].Got? && w.calls[t].k < |w.lobbies| {
        SubmitAllKeeps(w, t, player);
      }
    case GiveUp(t) =>
      if t in w.calls && w.calls[t].GaveUp? {
        forall j: nat | j < |w.lobbies| ensures LobbyOk(w.lobbies[j], j, w.calls - {t}) {
          assert LobbyOk(w.lobbies[j], j, w.calls);
          ElsewhereKeeps(w.lobbies[j], j, w.calls, w.calls - {t}, t);
        }
      }
    case LobbyStep(k, s) =>
      if k < |w.lobbies| && OwnStep(s) {
        assert LobbyOk(w.lobbies[k], k, w.calls);
        OwnStepKeeps(w.lobbies[k], k, w.calls, s);
      }
  }

  lemma SubmitAllKeeps(w: World, t: ThreadId, player: PlayerId)
    requires Inv(w) && t in w.calls && w.calls[t].Got? && w.calls[t].k < |w.lobbies|
    ensures Inv(Apply(w, Submit(t, player)))
  {
    var k := w.calls[t].k;
    var w' := Apply(w, Submit(t, player));
    assert LobbyOk(w.lobbies[k], k, w.calls);
    SubmitKeeps(w.lobbies[k], k, w.calls, t, player);
    forall j: nat | j < |w'.lobbies| ensures LobbyOk(w'.lobbies[j], j, w'.calls) {
      if j != k {
        assert LobbyOk(w.lobbies[j], j, w.calls);
        ElsewhereKeeps(w.lobbies[j], j, w.calls, w'.calls, t);
      }
    }
  }

  lemma {:induction false} RunInvariant(lobbyCount: nat, capacity: nat, steps: seq<Step>)
    ensures Inv(Run(lobbyCount, capacity, steps)) && |Run(lobbyCount, capacity, steps).lobbies| == lobbyCount
  {
    if steps != [] {
      RunInvariant(lobbyCount, capacity, steps[..|steps| - 1]);
      ApplyKeeps(Run(lobbyCount, capacity, steps[..|steps| - 1]), steps[|steps| - 1]);
    }
  }

  lemma {:induction false} CapacityFixed(lobbyCount: nat, capacity: nat, steps: seq<Step>)
    ensures |Run(lobbyCount, capacity, steps).lobbies| == lobbyCount
    ensures forall k | 0 <= k < lobbyCount :: Run(lobbyCount, capacity, steps).lobbies[k].capacity == capacity
  {
    if steps != [] {
      CapacityFixed(lobbyCount, capacity, steps[..|steps| - 1]);
    }
  }

  /**
   * In every run, a call that returns a lobby owns a reservation there and nowhere else, and a
   * call that returns null has seen every lobby without a free slot.
   */
  lemma AssignedOwnsOneSlot(lobbyCount: nat, capacity: nat, steps: seq<Step>, t: ThreadId)
    requires t in Run(lobbyCount, capacity, steps).calls
    ensures var w := Run(lobbyCount, capacity, steps);
            && (w.calls[t].Got? ==>
                  w.calls[t].k < |w.lobbies| &&
                  forall k: nat | k < |w.lobbies| :: t in w.lobbies[k].granted <==> k == w.calls[t].k)
            && (w.calls[t].GaveUp? ==>
                  |w.calls[t].seen| == lobbyCount && forall i | 0 <= i < lobbyCount :: w.calls[t].seen[i] <= 0)
  {
    RunInvariant(lobbyCount, capacity, steps);
    var w := Run(lobbyCount, capacity, steps);
    assert CallOk(|w.lobbies|, w.calls[t]);
    forall k: nat | k < |w.lobbies| ensures LobbyOk(w.lobbies[k], k, w.calls) {
    }
  }

  /** Every lobby stays balanced however many threads assign at once. */
  lemma LobbiesConserved(lobbyCount: nat, capacity: nat, steps: seq<Step>, k: nat)
    requires k < lobbyCount
    ensures var w := Run(lobbyCount, capacity, steps);
            && |w.lobbies| == lobbyCount
            && 0 <= w.lobbies[k].slots
            && w.lobbies[k].slots + |w.lobbies[k].players| + Outstanding(w.lobbies[k]) == capacity
  {
    RunInvariant(lobbyCount, capacity, steps);
    CapacityFixed(lobbyCount, capacity, steps);
    var w := Run(lobbyCount, capacity, steps);
    assert LobbyOk(w.lobbies[k], k, w.calls);
  }

  // ----- a call that is alone ---------------------------------------------------------------

  /** The scan after n looks with nothing in between. */
  function Scanned(lobbies: seq<Place>, n: nat): Call {
    if n == 0 then Scan(0, -1, -1)
    else if Scanned(lobbies, n - 1).Scan? then Looked(lobbies, Scanned(lobbies, n - 1))
    else Scanned(lobbies, n - 1)
  }

  function FreeSlots(lobbies: seq<Place>): (s: seq<int>)
    ensures |s| == |lobbies| && forall i | 0 <= i < |s| :: s[i] == lobbies[i].slots
  {
    seq(|lobbies|, i requires 0 <= i < |lobbies| => lobbies[i].slots)
  }

  ghost predicate SomeFree(slots: seq<int>) {
    exists i :: 0 <= i < |slots| && slots[i] > 0
  }

  ghost predicate InRange(lobbies: seq<Place>, capacity: nat) {
    forall k | 0 <= k < |lobbies| :: lobbies[k].capacity == capacity && 0 <= lobbies[k].slots <= capacity
  }

  /** The scan so far has found the fullest of the first k lobbies that are not full. */
  ghost predicate Best(slots: seq<int>, capacity: nat, k: nat, c: Call)
    requires k <= |slots|
  {
    && c.Scan? && c.i == k
    && if c.best == -1 then c.bestCount == -1 && forall i | 0 <= i < k :: slots[i] == 0
       else 0 <= c.best < k && Places.Fullest(slots[..k], c.best) && c.bestCount == capacity - slots[c.best]
  }

  lemma LookKeepsBest(lobbies: seq<Place>, capacity: nat, k: nat, c: Call)
    requires InRange(lobbies, capacity) && k < |lobbies| && Best(FreeSlots(lobbies), capacity, k, c)
    ensures Best(FreeSlots(lobbies), capacity, k + 1, Looked(lobbies, c))
  {
    var slots := FreeSlots(lobbies);
    assert slots[..k + 1] == slots[..k] + [slots[k]];
  }

  lemma {:induction false} ScanFindsBest(lobbies: seq<Place>, capacity: nat, k: nat)
    requires InRange(lobbies, capacity) && k <= |lobbies|
    ensures Best(FreeSlots(lobbies), capacity, k, Scanned(lobbies, k))
  {
    if k > 0 {
      ScanFindsBest(lobbies, capacity, k - 1);
      LookKeepsBest(lobbies, capacity, k - 1, Scanned(lobbies, k - 1));
    }
  }

  /** The whole scan ends at the fullest lobby that is not full, or in the fallback if all are full. */
  lemma ScanPicks(lobbies: seq<Place>, capacity: nat)
    requires InRange(lobbies, capacity)
    ensures var c, slots := Scanned(lobbies, |lobbies| + 1), FreeSlots(lobbies);
            if SomeFree(slots) then c.TryBest? && Places.Fullest(slots, c.k)
            else c == Fallback(0, [])
  {
    ScanFindsBest(lobbies, capacity, |lobbies|);
    var slots := FreeSlots(lobbies);
    assert slots[..|slots|] == slots;
  }

  /** The call after Begin and n looks, nothing else having happened. */
  function Alone(w: World, t: ThreadId, n: nat): World {
    if n == 0 then Apply(w, Begin(t)) else Apply(Alone(w, t, n - 1), Look(t))
  }

  lemma {:induction false} AloneScans(w: World, t: ThreadId, n: nat)
    requires t !in w.calls
    ensures Alone(w, t, n) == w.(calls := w.calls[t := Scanned(w.lobbies, n)])
  {
    if n > 0 {
      AloneScans(w, t, n - 1);
      var c, d := Scanned(w.lobbies, n - 1), Scanned(w.lobbies, n);
      assert w.calls[t := c][t := d] == w.calls[t := d];
    }
  }

  /** w after t has got a slot of lobby k. */
  function WithSlot(w: World, t: ThreadId, k: nat): World
    requires k < |w.lobbies|
  {
    var p := w.lobbies[k];
    World(w.lobbies[k := p.(slots := p.slots - 1, granted := p.granted + {t})], w.calls[t := Got(k)])
  }

  /** Undisturbed, a call takes a slot of the lobby it is at, preferred or met in the fallback scan. */
  lemma ReserveTwice(w: World, t: ThreadId, k: nat)
    requires k < |w.lobbies| && t in w.calls && (w.calls[t].TryBest? || w.calls[t].Fallback?) && Target(w.calls[t]) == k
    requires w.lobbies[k].slots > 0 && t !in w.lobbies[k].granted && t !in w.lobbies[k].loaded
    ensures Apply(Apply(w, Reserve(t, false)), Reserve(t, false)) == WithSlot(w, t, k)
  {
    var p := w.lobbies[k];
    ReserveSteps(p, t, false);
    var q := Next(p, Load(t), false);
    assert w.lobbies[k := q][k := Next(q, Cas(t, false), false)] == w.lobbies[k := Next(q, Cas(t, false), false)];
  }

  lemma AloneReserves(w: World, t: ThreadId, n: nat, k: nat)
    requires Inv(w) && t !in w.calls && k < |w.lobbies| && w.lobbies[k].slots > 0 && Scanned(w.lobbies, n) == TryBest(k)
    ensures Apply(Apply(Alone(w, t, n), Reserve(t, false)), Reserve(t, false)) == WithSlot(w, t, k)
  {
    AloneScans(w, t, n);
    var v := w.(calls := w.calls[t := TryBest(k)]);
    OutsideLobby(w, t, k);
    ReserveTwice(v, t, k);
    SlotAfterTry(w, t, k);
  }

  /** A thread without a call has no business with any lobby. */
  lemma OutsideLobby(w: World, t: ThreadId, k: nat)
    requires Inv(w) && t !in w.calls && k < |w.lobbies|
    ensures t !in w.lobbies[k].granted && t !in w.lobbies[k].loaded
  {
    assert LobbyOk(w.lobbies[k], k, w.calls);
  }

  lemma SlotAfterTry(w: World, t: ThreadId, k: nat)
    requires k < |w.lobbies|
    ensures WithSlot(w.(calls := w.calls[t := TryBest(k)]), t, k) == WithSlot(w, t, k)
  {
    assert w.calls[t := TryBest(k)][t := Got(k)] == w.calls[t := Got(k)];
  }

  lemma RunInRange(lobbyCount: nat, capacity: nat, steps: seq<Step>)
    ensures InRange(Run(lobbyCount, capacity, steps).lobbies, capacity)
  {
    RunInvariant(lobbyCount, capacity, steps);
    CapacityFixed(lobbyCount, capacity, steps);
    var w := Run(lobbyCount, capacity, steps);
    forall k: nat | k < |w.lobbies| ensures 0 <= w.lobbies[k].slots <= capacity {
      assert LobbyOk(w.lobbies[k], k, w.calls);
    }
  }

  /**
   * In every run a call that nothing interferes with takes one slot of the fullest lobby that is
   * not full, the earliest of several, and changes nothing else; if all are full it goes on to the
   * fallback scan.
   */
  lemma AloneGetsFullest(lobbyCount: nat, capacity: nat, steps: seq<Step>, t: ThreadId)
    requires t !in Run(lobbyCount, capacity, steps).calls
    ensures var w := Run(lobbyCount, capacity, steps);
            var slots, looked := FreeSlots(w.lobbies), Alone(w, t, lobbyCount + 1);
            && |w.lobbies| == lobbyCount && t in looked.calls
            && if SomeFree(slots) then
                 exists k: nat :: Places.Fullest(slots, k) && Apply(Apply(looked, Reserve(t, false)), Reserve(t, false)) == WithSlot(w, t, k)
               else looked.calls[t] == Fallback(0, [])
  {
    RunInvariant(lobbyCount, capacity, steps);
    RunInRange(lobbyCount, capacity, steps);
    var w := Run(lobbyCount, capacity, steps);
    AloneScans(w, t, lobbyCount + 1);
    ScanPicks(w.lobbies, capacity);
    var c := Scanned(w.lobbies, lobbyCount + 1);
    if c.TryBest? {
      AloneReserves(w, t, lobbyCount + 1, c.k);
    }
  }
}
