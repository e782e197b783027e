/** Every interleaving of allocations with the two halves of a release. */
module SendPoolRuns {
  import opened SendPool

  type WholePool = p: Pool | |p.senders| == |p.flags| witness Pool([], 0, [])

  /** A run of chunks handed out for a packet of size bytes. */
  datatype Lease = Lease(count: nat, size: nat)

  /**
   * live: handles that are still referenced, by first chunk;
   * releasing: handles whose Sender is cleared but whose chunks are not yet freed.
   */
  datatype System = System(pool: WholePool, live: map<nat, Lease>, releasing: map<nat, Lease>)

  datatype Step = AllocStep(size: Word) | ClearStep(index: nat) | FreeStep(index: nat)
  datatype Outcome = Running(system: System) | Crashed

  function Next(s: System, step: Step): Outcome {
    match step
    case AllocStep(size) => (
      match AllocResult(s.pool, size)
      case NoSpace => Running(s)
      case GrantCrash => Crashed
      case Granted(i, count) => Running(System(Allocated(s.pool, size), s.live[i := Lease(count, size)], s.releasing))
    )
    case ClearStep(i) =>
      if i !in s.live || i >= |s.pool.senders| then Running(s) else (
      match ReleaseResult(s.pool, i)
      case Nothing => Running(s.(live := s.live - {i}))
      case ReleaseCrash => Crashed
      case Taken(index, count) =>
        Running(System(s.pool.(senders := s.pool.senders[i := CLEARED]), s.live - {i},
                       s.releasing[index := Lease(count, s.live[i].size)]))
    )
    case FreeStep(i) =>
      if i !in s.releasing then Running(s) else (
      match FreeResult(s.pool, i, s.releasing[i].count)
      case Done => Running(s.(pool := FreedPool(s.pool, i, s.releasing[i].count), releasing := s.releasing - {i}))
      case _ => Crashed
    )
  }

  function Start(chunkCount: nat): System {
    System(Pool(seq(chunkCount, _ => false), 0, seq(chunkCount, _ => CLEARED)), map[], map[])
  }

  function Run(chunkCount: nat, steps: seq<Step>): Outcome {
    if steps == [] then Running(Start(chunkCount))
    else match Run(chunkCount, steps[..|steps| - 1])
      case Running(s) => Next(s, steps[|steps| - 1])
      case Crashed => Crashed
  }

  // ----- the invariant ----------------------------------------------------------

  /** Leases lie inside the pool, are just large enough for what was asked for and do not overlap. */
  ghost predicate Separate(n: nat, leases: map<nat, Lease>) {
    && (forall i | i in leases ::
          0 < leases[i].count && i + leases[i].count <= n && JustFits(leases[i].count, leases[i].size))
    && (forall a, b | a in leases && b in leases && a < b :: a + leases[a].count <= b)
  }

  predicate Holds(leases: map<nat, Lease>, i: nat, j: nat) {
    i in leases && i <= j < i + leases[i].count
  }

  /** The flags in use are exactly the leased chunks. */
  ghost predicate Covered(flags: seq<bool>, leases: map<nat, Lease>) {
    forall j: nat | j < |flags| :: flags[j] <==> exists i: nat :: Holds(leases, i, j)
  }

  ghost predicate SendersMatch(senders: seq<Sender>, live: map<nat, Lease>) {
    && (forall i: nat | i < |senders| :: senders[i] == if i in live then Sender(i, i, live[i].count) else CLEARED)
    && (forall i | i in live :: i < |senders|)
  }

  ghost predicate Inv(s: System) {
    && s.live.Keys !! s.releasing.Keys
    && Separate(|s.pool.flags|, s.live + s.releasing)
    && Covered(s.pool.flags, s.live + s.releasing)
    && SendersMatch(s.pool.senders, s.live)
    && s.pool.useSize == (Used(s.pool.flags) * CHUNK_SIZE) % WORD
  }

  // ----- counting the chunks in use ------------------------------------------------

  lemma {:induction false} UsedUpdate(flags: seq<bool>, i: nat, b: bool)
    requires i < |flags| && flags[i] != b
    ensures Used(flags[i := b]) == Used(flags) + (if b then 1 else -1)
  {
    var n := |flags| - 1;
    if i < n {
      UsedUpdate(flags[..n], i, b);
      assert flags[i := b][..n] == flags[..n][i := b];
    } else {
      assert flags[i := b][..n] == flags[..n];
    }
  }

  lemma {:induction false} UsedMark(flags: seq<bool>, from: nat, count: nat, b: bool)
    requires from + count <= |flags| && forall j | from <= j < from + count :: flags[j] != b
    ensures Used(Mark(flags, from, count, b)) == Used(flags) + (if b then count as int else -(count as int))
    decreases count
  {
    if count == 0 {
      assert Mark(flags, from, 0, b) == flags;
    } else {
      var m := Mark(flags, from, count - 1, b);
      UsedMark(flags, from, count - 1, b);
      UsedUpdate(m, from + count - 1, b);
      assert Mark(flags, from, count, b) == m[from + count - 1 := b];
    }
  }

  lemma WrapUsed(used: nat, count: int)
    requires used + count >= 0
    ensures ((used * CHUNK_SIZE) % WORD + count * CHUNK_SIZE) % WORD == ((used + count) * CHUNK_SIZE) % WORD
  {
    WrapOnce(used * CHUNK_SIZE, count * CHUNK_SIZE);
    assert used * CHUNK_SIZE + count * CHUNK_SIZE == (used + count) * CHUNK_SIZE;
  }

  // ----- each step keeps the invariant ------------------------------------------------

  lemma FreshRunIsSeparate(flags: seq<bool>, leases: map<nat, Lease>, r: nat, l: Lease)
    requires Separate(|flags|, leases) && Covered(flags, leases)
    requires FreeRun(flags, r, l.count) && 0 < l.count && JustFits(l.count, l.size)
    ensures r !in leases
    ensures Separate(|flags|, leases[r := l]) && Covered(Mark(flags, r, l.count, true), leases[r := l])
  {
    var leases', flags' := leases[r := l], Mark(flags, r, l.count, true);
    forall a | a in leases ensures a + leases[a].count <= r || r + l.count <= a {
      var m := if a < r then r else a;
      if m < r + l.count {
        assert !flags[m];
        assert !Holds(leases, a, m);
      }
    }
    forall j: nat | j < |flags'| ensures flags'[j] <==> exists i: nat :: Holds(leases', i, j) {
      if r <= j < r + l.count {
        assert Holds(leases', r, j);
      } else if flags[j] {
        var i: nat :| Holds(leases, i, j);
        assert Holds(leases', i, j);
      } else {
        forall i: nat ensures !Holds(leases', i, j) {
          assert !Holds(leases, i, j);
        }
      }
    }
  }

  lemma LeasesAfterAlloc(live: map<nat, Lease>, releasing: map<nat, Lease>, r: nat, l: Lease)
    requires r !in live + releasing
    ensures live[r := l] + releasing == (live + releasing)[r := l]
    ensures live.Keys !! releasing.Keys ==> live[r := l].Keys !! releasing.Keys
  {
  }

  lemma AllocKeeps(s: System, size: Word)
    requires Inv(s)
    ensures Next(s, AllocStep(size)).Running? && Inv(Next(s, AllocStep(size)).system)
  {
    var count := ChunksFor(size);
    var r := FindRun(s.pool.flags, count, 0);
    FindRunIsFirst(s.pool.flags, count, 0);
    if r == -1 {
      assert Next(s, AllocStep(size)) == Running(s);
    } else {
      GrantKeeps(s, r, Lease(count, size));
      assert AllocResult(s.pool, size) == Granted(r, count);
    }
  }

  /** Granting a free run never trips over a Sender in use. */
  lemma GrantKeeps(s: System, r: nat, l: Lease)
    requires Inv(s) && FreeRun(s.pool.flags, r, l.count) && 0 < l.count && JustFits(l.count, l.size)
    ensures s.pool.senders[r] == CLEARED
    ensures Inv(System(Pool(Mark(s.pool.flags, r, l.count, true),
                            (s.pool.useSize + l.count * CHUNK_SIZE) % WORD,
                            s.pool.senders[r := Sender(r, r, l.count)]),
                       s.live[r := l], s.releasing))
  {
    FreshRunIsSeparate(s.pool.flags, s.live + s.releasing, r, l);
    LeasesAfterAlloc(s.live, s.releasing, r, l);
    UsedMark(s.pool.flags, r, l.count, true);
    WrapUsed(Used(s.pool.flags), l.count);
    SendersAfterAlloc(s.pool.senders, s.live, r, l);
  }

  lemma SendersAfterAlloc(senders: seq<Sender>, live: map<nat, Lease>, r: nat, l: Lease)
    requires SendersMatch(senders, live) && r < |senders|
    ensures SendersMatch(senders[r := Sender(r, r, l.count)], live[r := l])
  {
  }

  lemma SendersAfterClear(senders: seq<Sender>, live: map<nat, Lease>, i: nat)
    requires SendersMatch(senders, live) && i < |senders|
    ensures SendersMatch(senders[i := CLEARED], live - {i})
  {
  }

  lemma ClearKeeps(s: System, i: nat)
    requires Inv(s)
    ensures Next(s, ClearStep(i)).Running? && Inv(Next(s, ClearStep(i)).system)
  {
    if i in s.live {
      var s' := Next(s, ClearStep(i)).system;
      assert s.live[i] == (s.live + s.releasing)[i];
      assert s'.releasing == s.releasing[i := s.live[i]];
      assert s'.live + s'.releasing == s.live + s.releasing;
      SendersAfterClear(s.pool.senders, s.live, i);
    }
  }

  lemma ReturnKeepsLeases(flags: seq<bool>, leases: map<nat, Lease>, i: nat)
    requires Separate(|flags|, leases) && Covered(flags, leases) && i in leases
    ensures forall j | i <= j < i + leases[i].count :: flags[j]
    ensures Separate(|flags|, leases - {i})
    ensures Covered(Mark(flags, i, leases[i].count, false), leases - {i})
  {
    forall j | i <= j < i + leases[i].count ensures flags[j] {
      assert Holds(leases, i, j);
    }
    var flags', leases' := Mark(flags, i, leases[i].count, false), leases - {i};
    forall j: nat | j < |flags| ensures flags'[j] <==> exists a: nat :: Holds(leases', a, j) {
      if flags[j] {
        var a: nat :| Holds(leases, a, j);
        assert Holds(leases', a, j) <==> a != i;
        forall b: nat | Holds(leases', b, j) ensures b == a {
          assert Holds(leases, b, j);
        }
      } else {
        forall b: nat ensures !Holds(leases', b, j) {
          assert !Holds(leases, b, j);
        }
      }
    }
  }

  lemma FreeKeeps(s: System, i: nat)
    requires Inv(s)
    ensures Next(s, FreeStep(i)).Running? && Inv(Next(s, FreeStep(i)).system)
  {
    if i in s.releasing {
      var leases := s.live + s.releasing;
      var count := s.releasing[i].count;
      assert leases[i] == s.releasing[i];
      ReturnKeepsLeases(s.pool.flags, leases, i);
      FreeSucceeds(s.pool, i, count);
      LeasesAfterFree(s.live, s.releasing, i);
    }
  }

  lemma LeasesAfterFree(live: map<nat, Lease>, releasing: map<nat, Lease>, i: nat)
    requires i in releasing && live.Keys !! releasing.Keys
    ensures live + (releasing - {i}) == (live + releasing) - {i}
    ensures live.Keys !! (releasing - {i}).Keys
  {
  }

  lemma FreeSucceeds(p: WholePool, i: nat, count: nat)
    requires 0 < count && i + count <= |p.flags| && forall j | i <= j < i + count :: p.flags[j]
    requires p.useSize == (Used(p.flags) * CHUNK_SIZE) % WORD
    ensures FreeResult(p, i, count) == Done
    ensures var p' := FreedPool(p, i, count); p'.useSize == (Used(p'.flags) * CHUNK_SIZE) % WORD
  {
    UsedMark(p.flags, i, count, false);
    UsedNonNegative(p.flags, i, count);
    WrapUsed(Used(p.flags), -(count as int));
  }

  lemma UsedNonNegative(flags: seq<bool>, from: nat, count: nat)
    requires from + count <= |flags| && forall j | from <= j < from + count :: flags[j]
    ensures Used(flags) >= count
  {
    UsedMark(flags, from, count, false);
  }

  lemma {:induction false} NoneUsed(n: nat)
    ensures Used(seq(n, _ => false)) == 0
  {
    if n > 0 {
      NoneUsed(n - 1);
      assert seq(n, _ => false)[..n - 1] == seq(n - 1, _ => false);
    }
  }

  /** No interleaving makes an assertion of the pool or of a Sender fire. */
  lemma {:induction false} RunsNeverCrash(chunkCount: nat, steps: seq<Step>)
    ensures Run(chunkCount, steps).Running? && Inv(Run(chunkCount, steps).system)
  {
    if steps == [] {
      NoneUsed(chunkCount);
      var s := Start(chunkCount);
      assert Covered(s.pool.flags, s.live + s.releasing);
    } else {
      RunsNeverCrash(chunkCount, steps[..|steps| - 1]);
      var s := Run(chunkCount, steps[..|steps| - 1]).system;
      match steps[|steps| - 1]
      case AllocStep(size) => AllocKeeps(s, size);
      case ClearStep(i) => ClearKeeps(s, i);
      case FreeStep(i) => FreeKeeps(s, i);
    }
  }

  /** Two leases of a run, live or being released, never share a chunk; together they are the chunks in use. */
  lemma LeasesPartitionUse(chunkCount: nat, steps: seq<Step>)
    ensures Run(chunkCount, steps).Running?
    ensures var s := Run(chunkCount, steps).system;
            var leases := s.live + s.releasing;
            forall j: nat | j < |s.pool.flags| ::
              && (s.pool.flags[j] <==> exists i: nat :: Holds(leases, i, j))
              && (forall a: nat, b: nat | Holds(leases, a, j) && Holds(leases, b, j) :: a == b)
  {
    RunsNeverCrash(chunkCount, steps);
    var s := Run(chunkCount, steps).system;
    var leases := s.live + s.releasing;
    forall j: nat, a: nat, b: nat | Holds(leases, a, j) && Holds(leases, b, j) ensures a == b {
    }
  }

  /**
   * In every run a packet of any size gets the leftmost run of just enough free chunks, and no space
   * iff there is no such run.
   */
  lemma AllocGrants(chunkCount: nat, steps: seq<Step>, size: Word)
    ensures Run(chunkCount, steps).Running?
    ensures var s := Run(chunkCount, steps).system;
            var g := AllocResult(s.pool, size);
            if HasRun(s.pool.flags, size / 1024 + 1) then
              g.Granted? && g.count == size / 1024 + 1 && FirstFit(s.pool.flags, g.count, g.index)
            else g.NoSpace?
  {
    RunsNeverCrash(chunkCount, steps);
    AllocKeeps(Run(chunkCount, steps).system, size);
  }

  /** Both halves of a release together: exactly the lease's chunks are free again, and the lease is gone. */
  lemma ReleaseReturns(chunkCount: nat, steps: seq<Step>, i: nat)
    requires Run(chunkCount, steps).Running? && i in Run(chunkCount, steps).system.live
    ensures var s := Run(chunkCount, steps).system;
            && Next(s, ClearStep(i)).Running?
            && var freed := Next(Next(s, ClearStep(i)).system, FreeStep(i));
               && freed.Running?
               && freed.system.live == s.live - {i} && freed.system.releasing == s.releasing
               && freed.system.pool.flags == Mark(s.pool.flags, i, s.live[i].count, false)
               && freed.system.pool.senders == s.pool.senders[i := CLEARED]
  {
    RunsNeverCrash(chunkCount, steps);
    ReleaseExactly(Run(chunkCount, steps).system, i);
  }

  lemma ClearExactly(s: System, i: nat)
    requires Inv(s) && i in s.live
    ensures Next(s, ClearStep(i)) == Running(System(s.pool.(senders := s.pool.senders[i := CLEARED]),
                                                    s.live - {i}, s.releasing[i := s.live[i]]))
  {
    assert s.live[i] == (s.live + s.releasing)[i];
  }

  lemma FreeExactly(s: System, i: nat)
    requires Inv(s) && i in s.releasing
    ensures Next(s, FreeStep(i)) == Running(s.(pool := FreedPool(s.pool, i, s.releasing[i].count), releasing := s.releasing - {i}))
  {
    FreeKeeps(s, i);
  }

  lemma ReleaseExactly(s: System, i: nat)
    requires Inv(s) && i in s.live
    ensures Next(s, ClearStep(i)).Running?
    ensures var freed := Next(Next(s, ClearStep(i)).system, FreeStep(i));
            && freed.Running?
            && freed.system.live == s.live - {i} && freed.system.releasing == s.releasing
            && freed.system.pool.flags == Mark(s.pool.flags, i, s.live[i].count, false)
            && freed.system.pool.senders == s.pool.senders[i := CLEARED]
  {
    ClearKeeps(s, i);
    ClearExactly(s, i);
    assert s.releasing[i := s.live[i]] - {i} == s.releasing;
    FreeExactly(Next(s, ClearStep(i)).system, i);
  }

  /** The reported usage is exact iff fewer than 64 chunks are in use. */
  lemma UsageExactBelow64(chunkCount: nat, steps: seq<Step>)
    ensures Run(chunkCount, steps).Running?
    ensures var p := Run(chunkCount, steps).system.pool;
            p.useSize == Used(p.flags) * CHUNK_SIZE <==> Used(p.flags) < 64
  {
    RunsNeverCrash(chunkCount, steps);
    WrapsFrom64(Used(Run(chunkCount, steps).system.pool.flags));
  }

  lemma WrapsFrom64(used: nat)
    ensures (used * CHUNK_SIZE) % WORD == used * CHUNK_SIZE <==> used < 64
  {
  }

  /** One lease of 64 chunks is reported as no use at all. */
  lemma UsageWraps()
    ensures var p := Run(64, [AllocStep(65535)]).system.pool;
            Run(64, [AllocStep(65535)]).Running? && Used(p.flags) == 64 && p.useSize == 0
  {
    RunsNeverCrash(64, [AllocStep(65535)]);
    var s0 := Start(64);
    assert [AllocStep(65535)][..0] == [];
    assert FreeRun(s0.pool.flags, 0, 64);
    UsedMark(s0.pool.flags, 0, 64, true);
    NoneUsed(64);
  }
}
