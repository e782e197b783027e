/** The send half of a session: a queue, one batch in flight and the registered flag. */
module SendPipeline {

  /** A packet handed to Send. */
  type Item = nat

  datatype Phase = New | Up | Down

  /** What WSASend reports: accepted (now or pending), or an error; a reset error closes the session. */
  datatype Posting = Accepted | Failed(reset: bool)

  datatype Half = Half(phase: Phase, queue: seq<Item>, registered: bool, batch: seq<Item>)

  /** The session after RegisterSend; the posted batch is batch + queue of s. */
  function Register(s: Half, os: Posting): Half {
    if !s.phase.Up? then s
    else match os
      case Accepted => s.(queue := [], batch := s.batch + s.queue)
      case Failed(reset) => s.(phase := if reset then Down else Up, queue := [], registered := false, batch := [])
  }

  function AfterSend(s: Half, x: Item, os: Posting): Half {
    var q := s.(queue := s.queue + [x]);
    if s.registered then q else Register(q.(registered := true), os)
  }

  /** A completion first drops the batch, outside the lock. */
  function AfterClear(s: Half, zero: bool): Half {
    s.(batch := [], phase := if zero && s.phase.Up? then Down else s.phase)
  }

  /** Then, under the lock, it posts the next batch or gives the flag back. */
  function AfterLock(s: Half, os: Posting): Half {
    if s.queue == [] then s.(registered := false) else Register(s, os)
  }

  class Session {
    var phase: Phase
    var senderQueue: seq<Item>
    var sendRegistered: bool
    var senders: seq<Item>

    constructor ()
      ensures View() == Half(New, [], false, [])
    {
      phase, senderQueue, sendRegistered, senders := New, [], false, [];
    }

    ghost function View(): Half
      reads this
    {
      Half(phase, senderQueue, sendRegistered, senders)
    }

    method Disconnect()
      modifies `phase
      ensures phase == if old(phase).Up? then Down else old(phase)
    {
      if !phase.Up? {
        return;
      }
      phase := Down;
    }

    /** posted is the batch handed to WSASend. */
    method RegisterSend(os: Posting) returns (posted: seq<Item>)
      modifies this
      ensures View() == Register(old(View()), os)
      ensures posted == if old(phase).Up? then old(senders + senderQueue) else []
    {
      if !phase.Up? {
        return [];
      }
      while senderQueue != []
        invariant senders + senderQueue == old(senders + senderQueue)
        invariant phase == old(phase) && sendRegistered == old(sendRegistered)
        decreases |senderQueue|
      {
        senders := senders + [senderQueue[0]];
        senderQueue := senderQueue[1..];
      }
      posted := senders;
      if os.Failed? {
        if os.reset {
          Disconnect();
        }
        senders := [];
        sendRegistered := false;
      }
    }

    method Send(x: Item, os: Posting)
      modifies this
      ensures View() == AfterSend(old(View()), x, os)
    {
      senderQueue := senderQueue + [x];
      var was := sendRegistered;
      sendRegistered := true;
      if !was {
        var posted := RegisterSend(os);
      }
    }

    /** ProcessSend up to the lock; more says whether it goes on to the lock. */
    method ClearSent(numOfBytes: nat) returns (more: bool)
      modifies this
      ensures View() == AfterClear(old(View()), numOfBytes == 0) && more == (numOfBytes != 0)
    {
      senders := [];
      if numOfBytes == 0 {
        Disconnect();
        return false;
      }
      return true;
    }

    /** The rest of ProcessSend. */
    method SendNext(os: Posting)
      modifies this
      ensures View() == AfterLock(old(View()), os)
    {
      if senderQueue == [] {
        sendRegistered := false;
      } else {
        var posted := RegisterSend(os);
      }
    }
  }

  // ----- runs -----------------------------------------------------------------------

  datatype Fate = InFlight | Completed | Lost
  datatype Entry = Entry(batch: seq<Item>, fate: Fate)

  /**
   * log: every batch ever posted, in order;
   * handlers: completions that have dropped the batch and not yet taken the lock;
   * sent: the arguments of all Send calls, in order.
   */
  datatype System = System(half: Half, log: seq<Entry>, handlers: nat, sent: seq<Item>)

  datatype Step =
    | Connect
    | Close
    | SendCall(x: Item, os: Posting)
    | Complete(i: nat, zero: bool)
    | TakeLock(os: Posting)

  /** The log after RegisterSend ran on s. */
  function Posted(s: Half, log: seq<Entry>, os: Posting): seq<Entry> {
    if s.phase.Up? then log + [Entry(s.batch + s.queue, if os.Accepted? then InFlight else Lost)] else log
  }

  function Next(s: System, step: Step): System {
    var h := s.half;
    match step
    case Connect => if h.phase.New? then s.(half := h.(phase := Up)) else s
    case Close => if h.phase.Up? then s.(half := h.(phase := Down)) else s
    case SendCall(x, os) =>
      System(AfterSend(h, x, os),
             if h.registered then s.log else Posted(h.(queue := h.queue + [x]), s.log, os),
             s.handlers, s.sent + [x])
    case Complete(i, zero) =>
      if i < |s.log| && s.log[i].fate.InFlight? then
        System(AfterClear(h, zero), s.log[i := s.log[i].(fate := if zero then Lost else Completed)],
               if zero then s.handlers else s.handlers + 1, s.sent)
      else s
    case TakeLock(os) =>
      if s.handlers > 0 then
        System(AfterLock(h, os), if h.queue == [] then s.log else Posted(h, s.log, os), s.handlers - 1, s.sent)
      else s
  }

  function Run(steps: seq<Step>): System {
    if steps == [] then System(Half(New, [], false, []), [], 0, [])
    else Next(Run(steps[..|steps| - 1]), steps[|steps| - 1])
  }

  function Items(log: seq<Entry>): seq<Item> {
    if log == [] then [] else Items(log[..|log| - 1]) + log[|log| - 1].batch
  }

  function Flying(log: seq<Entry>): seq<Item> {
    if log != [] && log[|log| - 1].fate.InFlight? then log[|log| - 1].batch else []
  }

  /** A send is posted and not completed. */
  predicate Busy(s: System) {
    s.log != [] && s.log[|s.log| - 1].fate.InFlight?
  }

  /** A packet was sent before the connection was up. */
  predicate EarlySend(steps: seq<Step>) {
    exists i :: 0 <= i < |steps| && steps[i].SendCall? && Run(steps[..i]).half.phase.New?
  }

  /** No step lost a batch. */
  predicate Lossless(steps: seq<Step>) {
    forall i | 0 <= i < |steps| ::
      match steps[i]
      case SendCall(_, os) => os.Accepted?
      case TakeLock(os) => os.Accepted?
      case Complete(_, zero) => !zero
      case _ => true
  }

  ghost predicate Inv(s: System) {
    && (forall i | 0 <= i < |s.log| - 1 :: !s.log[i].fate.InFlight?)
    && (Busy(s) || s.handlers > 0 ==> s.half.registered)
    && s.handlers <= (if Busy(s) then 0 else 1)
    && s.half.batch == Flying(s.log)
    && (s.half.queue != [] ==> s.half.registered)
    && s.sent == Items(s.log) + s.half.queue
  }

  /** Whether the flag was taken by a Send that found no connection. */
  ghost predicate Wedged(s: System) {
    s.half.registered && s.half.queue != [] && s.log == [] && s.handlers == 0
  }

  ghost predicate FlagInv(s: System, early: bool) {
    && (early ==> Wedged(s))
    && (!early && s.half.phase.New? ==> !s.half.registered && s.log == [] && s.handlers == 0 && s.half.queue == [])
    && (!early && s.half.phase.Up? && s.half.registered ==> Busy(s) || s.handlers > 0)
  }

  lemma PostedKeeps(h: Half, log: seq<Entry>, os: Posting)
    requires h.batch == [] && (forall i | 0 <= i < |log| :: !log[i].fate.InFlight?) && h.registered
    ensures var log', h' := Posted(h, log, os), Register(h, os);
            && Items(log') + h'.queue == Items(log) + h.queue
            && h'.batch == Flying(log')
            && (h'.queue != [] ==> h'.registered)
            && (forall i | 0 <= i < |log'| - 1 :: !log'[i].fate.InFlight?)
  {
    if h.phase.Up? {
      var log' := Posted(h, log, os);
      assert log'[..|log'| - 1] == log;
      assert h.batch + h.queue == h.queue;
    }
  }

  lemma {:induction false} ItemsIgnoreFate(log: seq<Entry>, i: nat, f: Fate)
    requires i < |log|
    ensures Items(log[i := log[i].(fate := f)]) == Items(log)
  {
    var log' := log[i := log[i].(fate := f)];
    if i < |log| - 1 {
      ItemsIgnoreFate(log[..|log| - 1], i, f);
      assert log'[..|log| - 1] == log[..|log| - 1][i := log[i].(fate := f)];
    } else {
      assert log'[..|log| - 1] == log[..|log| - 1];
    }
  }

  lemma QueueKeeps(s: System, x: Item, os: Posting)
    requires Inv(s) && s.half.registered
    ensures Inv(Next(s, SendCall(x, os)))
  {
    assert Items(s.log) + (s.half.queue + [x]) == s.sent + [x];
  }

  /** A Send that takes the flag finds nothing queued, in flight or being completed. */
  lemma FirstSendKeeps(s: System, x: Item, os: Posting)
    requires Inv(s) && !s.half.registered
    ensures Inv(Next(s, SendCall(x, os)))
  {
    var h := s.half.(queue := s.half.queue + [x], registered := true);
    assert s.half.queue == [] && s.half.batch == [] && s.handlers == 0;
    assert Items(s.log) + h.queue == s.sent + [x];
    PostedKeeps(h, s.log, os);
    var s' := Next(s, SendCall(x, os));
    assert s'.log == Posted(h, s.log, os) && s'.half == Register(h, os);
  }

  lemma SendKeeps(s: System, x: Item, os: Posting)
    requires Inv(s)
    ensures Inv(Next(s, SendCall(x, os)))
  {
    if s.half.registered {
      QueueKeeps(s, x, os);
    } else {
      FirstSendKeeps(s, x, os);
    }
  }

  lemma CompleteKeeps(s: System, i: nat, zero: bool)
    requires Inv(s)
    ensures Inv(Next(s, Complete(i, zero)))
  {
    if i < |s.log| && s.log[i].fate.InFlight? {
      ItemsIgnoreFate(s.log, i, if zero then Lost else Completed);
    }
  }

  lemma LockKeeps(s: System, os: Posting)
    requires Inv(s)
    ensures Inv(Next(s, TakeLock(os)))
  {
    if s.handlers > 0 && s.half.queue != [] {
      PostedKeeps(s.half, s.log, os);
    }
  }

  lemma NextKeeps(s: System, step: Step)
    requires Inv(s)
    ensures Inv(Next(s, step))
  {
    match step
    case SendCall(x, os) => SendKeeps(s, x, os);
    case Complete(i, zero) => CompleteKeeps(s, i, zero);
    case TakeLock(os) => LockKeeps(s, os);
    case _ =>
  }

  /**
   * In every run at most one send is outstanding, a non-empty queue means the flag is taken,
   * and the batches posted, in order, followed by the queue are the packets sent, in order.
   */
  lemma {:induction false} PipelineInvariant(steps: seq<Step>)
    ensures Inv(Run(steps))
  {
    if steps != [] {
      PipelineInvariant(steps[..|steps| - 1]);
      NextKeeps(Run(steps[..|steps| - 1]), steps[|steps| - 1]);
    }
  }

  lemma {:induction false} NothingLost(steps: seq<Step>)
    requires Lossless(steps)
    ensures forall i | 0 <= i < |Run(steps).log| :: !Run(steps).log[i].fate.Lost?
  {
    if steps != [] {
      var before := steps[..|steps| - 1];
      assert forall i | 0 <= i < |before| :: before[i] == steps[i];
      NothingLost(before);
    }
  }

  /** Completed, then in flight, then queued: exactly the packets sent, in order. */
  lemma NoLossNoReorder(steps: seq<Step>)
    requires Lossless(steps)
    ensures var s := Run(steps);
            var done := if Busy(s) then s.log[..|s.log| - 1] else s.log;
            && (forall i | 0 <= i < |done| :: done[i].fate.Completed?)
            && s.sent == Items(done) + Flying(s.log) + s.half.queue
  {
    PipelineInvariant(steps);
    NothingLost(steps);
    var s := Run(steps);
    assert !Busy(s) ==> Items(s.log) + Flying(s.log) == Items(s.log);
  }

  lemma EarlySendSnoc(steps: seq<Step>)
    requires steps != []
    ensures var before, last := steps[..|steps| - 1], steps[|steps| - 1];
            EarlySend(steps) <==> EarlySend(before) || (last.SendCall? && Run(before).half.phase.New?)
  {
    var before, last := steps[..|steps| - 1], steps[|steps| - 1];
    if EarlySend(before) {
      var i :| 0 <= i < |before| && before[i].SendCall? && Run(before[..i]).half.phase.New?;
      assert before[..i] == steps[..i] && steps[i] == before[i];
    }
    if EarlySend(steps) {
      var i :| 0 <= i < |steps| && steps[i].SendCall? && Run(steps[..i]).half.phase.New?;
      if i < |before| {
        assert before[..i] == steps[..i] && steps[i] == before[i];
      }
    }
  }

  lemma FlagStep(s: System, step: Step, early: bool)
    requires Inv(s) && FlagInv(s, early)
    ensures FlagInv(Next(s, step), early || (step.SendCall? && s.half.phase.New?))
  {
  }

  lemma {:induction false} FlagInvariant(steps: seq<Step>)
    ensures FlagInv(Run(steps), EarlySend(steps))
  {
    if steps != [] {
      var before := steps[..|steps| - 1];
      FlagInvariant(before);
      PipelineInvariant(before);
      EarlySendSnoc(steps);
      FlagStep(Run(before), steps[|steps| - 1], EarlySend(before));
    }
  }

  /**
   * A connected session leaves packets queued with nothing in flight and no completion at work
   * iff a packet was sent before the connection was up.
   */
  lemma StuckIffEarlySend(steps: seq<Step>)
    requires Run(steps).half.phase.Up?
    ensures var s := Run(steps);
            s.half.queue != [] && !Busy(s) && s.handlers == 0 <==> EarlySend(steps)
  {
    FlagInvariant(steps);
    PipelineInvariant(steps);
  }

  /** The shortest such run: one packet, then the connection; nothing will ever post the packet. */
  lemma EarlySendSticks(x: Item, os: Posting)
    ensures var s := Run([SendCall(x, os), Connect]);
            s.half == Half(Up, [x], true, []) && s.log == [] && s.handlers == 0
  {
    var one := [SendCall(x, os)];
    assert one[..0] == [];
    assert Run(one).half == Half(New, [] + [x], true, []);
    assert [SendCall(x, os), Connect][..1] == one;
  }

  // ----- when the session is connected ------------------------------------------------

  /** This step closes a connected session: by request, by an empty completion, or by a reset connection. */
  predicate Closes(s: System, step: Step) {
    match step
    case Connect => false
    case Close => true
    case SendCall(_, os) => os == Failed(true) && !s.half.registered
    case Complete(i, zero) => zero && i < |s.log| && s.log[i].fate.InFlight?
    case TakeLock(os) => os == Failed(true) && s.handlers > 0 && s.half.queue != []
  }

  /** The step reports one of the three things that can close a session. */
  predicate Reports(step: Step) {
    match step
    case Connect => false
    case Close => true
    case SendCall(_, os) => os == Failed(true)
    case Complete(_, zero) => zero
    case TakeLock(os) => os == Failed(true)
  }

  ghost predicate Connected(steps: seq<Step>) {
    exists i :: 0 <= i < |steps| && steps[i].Connect?
  }

  ghost predicate ClosedAt(steps: seq<Step>, j: nat) {
    j < |steps| && Connected(steps[..j]) && Closes(Run(steps[..j]), steps[j])
  }

  /** Once connected, some step closed the session. */
  ghost predicate WasClosed(steps: seq<Step>) {
    exists j: nat :: ClosedAt(steps, j)
  }

  lemma ConnectedSnoc(steps: seq<Step>)
    requires steps != []
    ensures Connected(steps) <==> Connected(steps[..|steps| - 1]) || steps[|steps| - 1].Connect?
  {
    var before := steps[..|steps| - 1];
    if Connected(before) {
      var i :| 0 <= i < |before| && before[i].Connect?;
      assert steps[i].Connect?;
    }
  }

  lemma WasClosedSnoc(steps: seq<Step>)
    requires steps != []
    ensures var before := steps[..|steps| - 1];
            WasClosed(steps) <==> WasClosed(before) || (Connected(before) && Closes(Run(before), steps[|steps| - 1]))
  {
    var before := steps[..|steps| - 1];
    assert forall j: nat | j < |before| :: before[..j] == steps[..j] && before[j] == steps[j];
    if WasClosed(before) {
      var j: nat :| ClosedAt(before, j);
      assert ClosedAt(steps, j);
    }
    if WasClosed(steps) {
      var j: nat :| ClosedAt(steps, j);
      assert j < |before| ==> ClosedAt(before, j);
    }
    if Connected(before) && Closes(Run(before), steps[|steps| - 1]) {
      assert ClosedAt(steps, |before|);
    }
  }

  /** The phase moves from New to Up by connecting and from Up to Down by a closing step, and in no other way. */
  lemma PhaseStep(s: System, step: Step)
    ensures Next(s, step).half.phase ==
            match s.half.phase
            case New => if step.Connect? then Up else New
            case Up => if Closes(s, step) then Down else Up
            case Down => Down
  {
  }

  /** In every run: New iff never connected, Down iff closed since. */
  lemma {:induction false} PhaseExactly(steps: seq<Step>)
    ensures Run(steps).half.phase == if !Connected(steps) then New else if WasClosed(steps) then Down else Up
    ensures WasClosed(steps) ==> Connected(steps)
  {
    if steps != [] {
      var before := steps[..|steps| - 1];
      PhaseExactly(before);
      ConnectedSnoc(steps);
      WasClosedSnoc(steps);
      PhaseStep(Run(before), steps[|steps| - 1]);
    }
  }

  ghost predicate Undisturbed(steps: seq<Step>) {
    forall i | 0 <= i < |steps| :: !Reports(steps[i])
  }

  /** A connected session stays connected until it is closed, a completion is empty, or the peer resets. */
  lemma StaysUp(steps: seq<Step>)
    requires Connected(steps) && Undisturbed(steps)
    ensures Run(steps).half.phase.Up?
  {
    PhaseExactly(steps);
  }

  /** In such a run without an early send, packets queued are always about to be posted. */
  lemma KeepsMoving(steps: seq<Step>)
    requires Connected(steps) && Undisturbed(steps) && !EarlySend(steps)
    ensures Run(steps).half.queue != [] ==> Busy(Run(steps)) || Run(steps).handlers > 0
  {
    StaysUp(steps);
    StuckIffEarlySend(steps);
  }

  /** The batch in flight, if any, is completed, and the completion takes the lock. */
  function Settle(s: System): System {
    Next(Next(s, Complete(if s.log == [] then 0 else |s.log| - 1, false)), TakeLock(Accepted))
  }

  ghost predicate Idle(s: System) {
    s.half.phase.Up? && !s.half.registered && s.half.queue == [] && s.handlers == 0 && !Busy(s)
  }

  lemma SettleStep(s: System)
    requires Inv(s) && FlagInv(s, false) && s.half.phase.Up? && s.handlers == 0
    ensures var s' := Settle(s);
            && s'.half.phase.Up? && s'.half.queue == [] && s'.handlers == 0
            && (s.half.queue == [] ==> Idle(s'))
            && Inv(s') && FlagInv(s', false) && s'.sent == s.sent
  {
    var i := if s.log == [] then 0 else |s.log| - 1;
    NextKeeps(s, Complete(i, false));
    NextKeeps(Next(s, Complete(i, false)), TakeLock(Accepted));
  }

  /**
   * From every reachable state of a connected session without an early send, two completions are
   * enough to get everything out: nothing queued, nothing in flight, and the flag free again.
   */
  lemma TwoCompletionsFlush(steps: seq<Step>)
    requires Run(steps).half.phase.Up? && !EarlySend(steps)
    ensures var s := Settle(Settle(Next(Run(steps), TakeLock(Accepted))));
            Idle(s) && s.sent == Run(steps).sent == Items(s.log)
  {
    PipelineInvariant(steps);
    FlagInvariant(steps);
    var s := Next(Run(steps), TakeLock(Accepted));
    NextKeeps(Run(steps), TakeLock(Accepted));
    SettleStep(s);
    SettleStep(Settle(s));
    var r := Settle(Settle(s));
    assert Items(r.log) + r.half.queue == Items(r.log);
  }
}
