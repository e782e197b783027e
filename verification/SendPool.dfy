/** The send-buffer pool: first-fit allocation of runs of 1 KiB chunks. */
module SendPool {

  const CHUNK_SIZE := 1024
  const WORD := 65536

  /** unsigned short */
  type Word = x: nat | x < WORD

  /** A pool entry; chunk is the index of the chunk pointed to, -1 for a null pointer. */
  datatype Sender = Sender(chunk: int, index: int, count: nat)

  const CLEARED := Sender(-1, -1, 0)

  datatype Pool = Pool(flags: seq<bool>, useSize: Word, senders: seq<Sender>)

  datatype Grant = NoSpace | Granted(index: nat, count: nat) | GrantCrash
  datatype Release = Nothing | Taken(index: nat, count: nat) | ReleaseCrash
  datatype Freed = Done | NotInUse | FreeCrash

  function ChunksFor(size: Word): nat {
    size / CHUNK_SIZE + 1
  }

  /** count chunks are more than size bytes, and one chunk less would not be. */
  predicate JustFits(count: int, size: nat) {
    (count - 1) * 1024 <= size < count * 1024
  }

  predicate FreeRun(flags: seq<bool>, i: int, count: nat) {
    0 <= i && i + count <= |flags| && forall j | i <= j < i + count :: !flags[j]
  }

  ghost predicate HasRun(flags: seq<bool>, count: nat) {
    exists i :: FreeRun(flags, i, count)
  }

  /** r starts the leftmost run of count free chunks, or is -1 and there is no such run. */
  ghost predicate FirstFit(flags: seq<bool>, count: nat, r: int) {
    if r == -1 then forall i :: !FreeRun(flags, i, count)
    else FreeRun(flags, r, count) && forall i | i < r :: !FreeRun(flags, i, count)
  }

  function FindRun(flags: seq<bool>, count: nat, from: nat): int
    decreases |flags| - from
  {
    if from + count > |flags| then -1
    else if FreeRun(flags, from, count) then from
    else if from == |flags| then -1
    else FindRun(flags, count, from + 1)
  }

  lemma {:induction false} FindRunIsFirst(flags: seq<bool>, count: nat, from: nat)
    requires forall i | i < from :: !FreeRun(flags, i, count)
    ensures FirstFit(flags, count, FindRun(flags, count, from))
    decreases |flags| - from
  {
    if from + count <= |flags| && from < |flags| && !FreeRun(flags, from, count) {
      FindRunIsFirst(flags, count, from + 1);
    }
  }

  lemma FirstFitUnique(flags: seq<bool>, count: nat, r: int)
    requires FirstFit(flags, count, r)
    ensures r == FindRun(flags, count, 0)
  {
    FindRunIsFirst(flags, count, 0);
  }

  function Mark(flags: seq<bool>, from: nat, count: nat, used: bool): (r: seq<bool>)
    ensures |r| == |flags|
  {
    seq(|flags|, j requires 0 <= j < |flags| => if from <= j < from + count then used else flags[j])
  }

  function Used(flags: seq<bool>): nat {
    if flags == [] then 0 else Used(flags[..|flags| - 1]) + (if flags[|flags| - 1] then 1 else 0)
  }

  // ----- one critical section each --------------------------------------------

  function AllocResult(p: Pool, size: Word): (g: Grant)
    requires |p.senders| == |p.flags|
    ensures g.Granted? ==> FirstFit(p.flags, g.count, g.index) && JustFits(g.count, size)
    ensures g.NoSpace? <==> !HasRun(p.flags, size / 1024 + 1)
    ensures g.GrantCrash? ==> exists i :: 0 <= i < |p.senders| && !p.flags[i] && p.senders[i].chunk != -1
  {
    var count := ChunksFor(size);
    var i := FindRun(p.flags, count, 0);
    FindRunIsFirst(p.flags, count, 0);
    if i == -1 then NoSpace
    else if p.senders[i].chunk != -1 then GrantCrash
    else Granted(i, count)
  }

  function Allocated(p: Pool, size: Word): Pool
    requires |p.senders| == |p.flags|
  {
    match AllocResult(p, size)
    case Granted(i, count) =>
      Pool(Mark(p.flags, i, count, true),
           (p.useSize + count * CHUNK_SIZE) % WORD,
           p.senders[i := Sender(i, i, count)])
    case _ => p
  }

  /** A grant puts exactly its chunks to use and is entered with its Sender; a refusal changes nothing. */
  lemma AllocatedExactly(p: Pool, size: Word)
    requires |p.senders| == |p.flags|
    ensures var g, q := AllocResult(p, size), Allocated(p, size);
            if g.Granted? then
              && |q.flags| == |p.flags|
              && (forall j | 0 <= j < |p.flags| :: q.flags[j] <==> p.flags[j] || g.index <= j < g.index + g.count)
              && q.senders == p.senders[g.index := Sender(g.index, g.index, g.count)]
              && q.useSize == (p.useSize + g.count * 1024) % 65536
            else q == p
  {
  }

  function ReleaseResult(p: Pool, i: nat): Release
    requires i < |p.senders|
  {
    var s := p.senders[i];
    if s.chunk == -1 then Nothing
    else if s.index < 0 || s.count == 0 then ReleaseCrash
    else Taken(s.index, s.count)
  }

  /** What the freeing loop leaves when it stops at the first chunk not in use. */
  function FreeResult(p: Pool, index: nat, count: nat): Freed {
    if count > |p.flags| || index >= |p.flags| then FreeCrash
    else if exists k :: index <= k < index + count && k < |p.flags| && !p.flags[k] then NotInUse
    else if index + count > |p.flags| then FreeCrash
    else Done
  }

  /** The freeing loop stopped at chunk k, the first that was not in use, with those before it freed. */
  ghost predicate StoppedAt(p: Pool, p': Pool, index: nat, count: nat, k: nat) {
    && index <= k < index + count && k < |p.flags| && !p.flags[k]
    && (forall j | index <= j < k :: p.flags[j])
    && p' == FreedPool(p, index, k - index)
  }

  function FreedPool(p: Pool, index: nat, count: nat): Pool
  {
    p.(flags := Mark(p.flags, index, count, false), useSize := (p.useSize - count * CHUNK_SIZE) % WORD)
  }

  lemma WrapOnce(a: int, b: int)
    ensures ((a % WORD) + b) % WORD == (a + b) % WORD
  {
    var q := a / WORD;
    assert a == q * WORD + a % WORD;
    var x := (a % WORD) + b;
    assert x == (x / WORD) * WORD + x % WORD;
    assert a + b == (q + x / WORD) * WORD + x % WORD;
  }

  class Pools {
    var useFlag: seq<bool>
    var senderList: seq<Sender>
    var useSize: Word

    /** The pool after Init(chunkCount). */
    constructor (chunkCount: nat)
      ensures View() == Pool(seq(chunkCount, _ => false), 0, seq(chunkCount, _ => CLEARED))
    {
      useFlag := [];
      senderList := [];
      useSize := 0;
      new;
      for i := 0 to chunkCount
        invariant useFlag == seq(i, _ => false) && senderList == seq(i, _ => CLEARED)
        invariant useSize == 0
      {
        useFlag := useFlag + [false];
        senderList := senderList + [CLEARED];
      }
    }

    ghost function View(): Pool
      reads this
    {
      Pool(useFlag, useSize, senderList)
    }

    /** The scan with a running length; count is at least 1 in every call of Alloc. */
    method GetAllocIndex(count: nat) returns (allocIndex: int)
      ensures count >= 1 ==> FirstFit(useFlag, count, allocIndex)
      ensures count == 0 ==> allocIndex == -1
    {
      var maxCount := 0;
      allocIndex := -1;
      var flagIndex := 0;
      while flagIndex < |useFlag|
        invariant 0 <= flagIndex <= |useFlag| && 0 <= maxCount <= flagIndex
        invariant count >= 1 ==> maxCount < count
        invariant allocIndex == if maxCount == 0 then -1 else flagIndex - maxCount
        invariant forall j | flagIndex - maxCount <= j < flagIndex :: !useFlag[j]
        invariant flagIndex - maxCount > 0 ==> useFlag[flagIndex - maxCount - 1]
        invariant count >= 1 ==> forall i | i < flagIndex - maxCount :: !FreeRun(useFlag, i, count)
      {
        if !useFlag[flagIndex] {
          maxCount := maxCount + 1;
          if allocIndex == -1 {
            allocIndex := flagIndex;
          }
          if maxCount == count {
            break;
          }
        } else {
          forall i | i < flagIndex + 1 && count >= 1 ensures !FreeRun(useFlag, i, count) {
            assert i >= flagIndex - maxCount && FreeRun(useFlag, i, count) ==> i <= flagIndex < i + count;
          }
          maxCount := 0;
          allocIndex := -1;
        }
        flagIndex := flagIndex + 1;
      }
      if allocIndex != -1 && maxCount != count {
        allocIndex := -1;
      }
    }

    /** The loop of Alloc that sets the flags. */
    method TakeChunks(index: nat, count: nat)
      requires index + count <= |useFlag|
      modifies `useFlag
      ensures useFlag == Mark(old(useFlag), index, count, true)
    {
      for i := index to index + count
        invariant useFlag == Mark(old(useFlag), index, i - index, true)
      {
        useFlag := useFlag[i := true];
      }
    }

    /** One Alloc call; everything up to the handle is built under the pool's lock. */
    method Alloc(size: Word) returns (g: Grant)
      requires |senderList| == |useFlag|
      modifies this
      ensures g == AllocResult(old(View()), size)
      ensures View() == Allocated(old(View()), size)
      ensures g.NoSpace? <==> !HasRun(old(useFlag), size / 1024 + 1)
      ensures g.Granted? ==> (g.count - 1) * 1024 <= size < g.count * 1024 && FirstFit(old(useFlag), g.count, g.index)
    {
      var count := size / CHUNK_SIZE + 1;
      var index := GetAllocIndex(count);
      FirstFitUnique(useFlag, count, index);
      if index == -1 {
        return NoSpace;
      }
      if senderList[index].chunk != -1 {
        return GrantCrash;
      }
      TakeChunks(index, count);
      useSize := (useSize + count * CHUNK_SIZE) % WORD;
      senderList := senderList[index := Sender(index, index, count)];
      g := Granted(index, count);
    }

    /** The half of Sender::DeAlloc that runs before the pool's lock is taken. */
    method ClearSender(i: nat) returns (r: Release)
      requires i < |senderList|
      modifies `senderList
      ensures r == ReleaseResult(old(View()), i)
      ensures senderList == if r.Taken? then old(senderList)[i := CLEARED] else old(senderList)
    {
      var s := senderList[i];
      if s.chunk == -1 {
        return Nothing;
      }
      if s.index < 0 || s.count == 0 {
        return ReleaseCrash;
      }
      senderList := senderList[i := CLEARED];
      r := Taken(s.index, s.count);
    }

    /** SendPool::DeAlloc; the loop gives up at the first chunk that is not in use. */
    method DeAlloc(index: nat, count: nat) returns (r: Freed)
      modifies `useFlag, `useSize
      ensures r == FreeResult(old(View()), index, count)
      ensures r == Done ==> View() == FreedPool(old(View()), index, count)
      ensures r == NotInUse ==> exists k :: StoppedAt(old(View()), View(), index, count, k)
    {
      if count > |useFlag| || index >= |useFlag| {
        return FreeCrash;
      }
      var i := index;
      while i < index + count
        invariant index <= i <= index + count && i <= |useFlag| == |old(useFlag)|
        invariant forall k | index <= k < i :: old(useFlag)[k]
        invariant useFlag == Mark(old(useFlag), index, i - index, false)
        invariant useSize == (old(useSize) - (i - index) * CHUNK_SIZE) % WORD
      {
        if i == |useFlag| {
          return FreeCrash;  // reads past the flag vector
        }
        if !useFlag[i] {
          assert StoppedAt(old(View()), View(), index, count, i);
          return NotInUse;
        }
        useFlag := useFlag[i := false];
        WrapOnce(old(useSize) - (i - index) * CHUNK_SIZE, -CHUNK_SIZE);
        useSize := (useSize - CHUNK_SIZE) % WORD;
        i := i + 1;
      }
      r := Done;
    }
  }
}
