/** A client session and a server session over two first-in first-out channels. */
module Handshake {
  import opened Basics
  import opened Framing
  import opened AesGcm
  import opened Sessions

  /**
   * cSent, sSent: all packets a side has put on the wire; cRead of the client's have reached the
   * server, sRead of the server's the client.  cItems, sItems: the arguments of Send.
   * sGot, cGot: the inner packets handed to the packet handler of a side.
   */
  datatype World = World(
    client: Client, server: Server,
    cPriv: nat, sPriv: nat,
    cSent: seq<Packet>, cRead: nat,
    sSent: seq<Packet>, sRead: nat,
    cItems: seq<Item>, sItems: seq<Item>,
    sGot: seq<seq<Byte>>, cGot: seq<seq<Byte>>)

  const START := World(Fresh, Awaiting, 0, 0, [], 0, [], 0, [], [], [], [])

  datatype Step =
    | Connect(priv: nat)
    | ClientSends(item: Item)
    | ServerSends(item: Item)      // by any thread of the server
    | ServerReads(priv: nat)
    | ServerAnswers                // the second half of HandleKeyExchange
    | ClientReads

  function Next(c: Crypto, w: World, step: Step): World {
    match step
    case Connect(priv) =>
      if w.client.Fresh? then
        w.(client := Waiting(priv), cPriv := priv, cSent := w.cSent + [KeyPacket(REQ_KEY_EXCHANGE, c.pub(priv))])
      else w
    case ClientSends(item) => w.(cSent := w.cSent + ClientSend(c, w.client, item), cItems := w.cItems + [item])
    case ServerSends(item) => w.(sSent := w.sSent + ServerSend(c, w.server, item), sItems := w.sItems + [item])
    case ServerReads(priv) =>
      if w.cRead < |w.cSent| && !w.server.Answering? && |w.cSent[w.cRead]| >= HEADER_SIZE then
        var (s, inner) := ServerRecv(c, w.server, w.cSent[w.cRead], priv);
        w.(server := s, cRead := w.cRead + 1, sGot := w.sGot + inner, sPriv := if w.server.Awaiting? then priv else w.sPriv)
      else w
    case ServerAnswers =>
      if w.server.Answering? then w.(server := Secured(w.server.key), sSent := w.sSent + [w.server.answer]) else w
    case ClientReads =>
      if w.sRead < |w.sSent| && |w.sSent[w.sRead]| >= HEADER_SIZE then
        var (s, inner) := ClientRecv(c, w.client, w.sSent[w.sRead]);
        w.(client := s, sRead := w.sRead + 1, cGot := w.cGot + inner)
      else w
  }

  function Run(c: Crypto, steps: seq<Step>): World {
    if steps == [] then START else Next(c, Run(c, steps[..|steps| - 1]), steps[|steps| - 1])
  }

  /** Application packets wait: the client's for its handshake flag, the server's until its answer is out. */
  predicate PoliteStep(w: World, step: Step) {
    match step
    case ClientSends(_) => w.client.Keyed?
    case ServerSends(_) => w.server.Secured?
    case _ => true
  }

  predicate Polite(c: Crypto, steps: seq<Step>) {
    steps == [] ||
    (Polite(c, steps[..|steps| - 1]) && PoliteStep(Run(c, steps[..|steps| - 1]), steps[|steps| - 1]))
  }

  function Wire(c: Crypto, key: Key, items: seq<Item>): seq<Packet> {
    if items == [] then [] else Wire(c, key, items[..|items| - 1]) + Sealed(c, key, items[|items| - 1])
  }

  /** The application packets of a size that can be sent. */
  function Texts(items: seq<Item>): seq<seq<Byte>> {
    if items == [] then []
    else Texts(items[..|items| - 1]) + (if Sendable(items[|items| - 1].plain) then [items[|items| - 1].plain] else [])
  }

  lemma {:induction false} WireCarriesTexts(c: Crypto, key: Key, items: seq<Item>)
    requires Lawful(c)
    ensures |Wire(c, key, items)| == |Texts(items)|
    ensures forall i | 0 <= i < |Texts(items)| ::
              && |Wire(c, key, items)[i]| >= HEADER_SIZE
              && PacketNum(Wire(c, key, items)[i]) == ENCRYPTED
              && Unsealed(c, key, Wire(c, key, items)[i]) == Plain(Texts(items)[i])
  {
    if items != [] {
      WireCarriesTexts(c, key, items[..|items| - 1]);
      if Sendable(items[|items| - 1].plain) {
        UnsealSealed(c, key, items[|items| - 1]);
      }
    }
  }

  lemma WireSnoc(c: Crypto, key: Key, items: seq<Item>, item: Item)
    ensures Wire(c, key, items + [item]) == Wire(c, key, items) + Sealed(c, key, item)
    ensures Texts(items) <= Texts(items + [item])
  {
    assert (items + [item])[..|items|] == items;
  }

  ghost function Request(c: Crypto, w: World): Packet {
    KeyPacket(REQ_KEY_EXCHANGE, c.pub(w.cPriv))
  }

  ghost function Answer(c: Crypto, w: World): Packet {
    KeyPacket(RES_KEY_EXCHANGE, c.pub(w.sPriv))
  }

  ghost function Secret(c: Crypto, w: World): seq<Byte> {
    var s := c.shared(w.sPriv, c.pub(w.cPriv));
    if s.Some? then s.value else []
  }

  ghost function SessionKey(c: Crypto, w: World): Key {
    c.kdf(Secret(c, w))
  }

  ghost predicate ClientOk(c: Crypto, w: World) {
    match w.client
    case Fresh => w.cSent == [] && w.cItems == [] && w.sRead == 0
    case Waiting(priv) => priv == w.cPriv && w.cSent == [Request(c, w)] && w.cItems == [] && w.sRead == 0
    case Keyed(key) =>
      key == SessionKey(c, w) && w.server == Secured(key) && w.sRead >= 1 && w.cSent == [Request(c, w)] + Wire(c, key, w.cItems)
    case Lost => false
  }

  ghost predicate ServerOk(c: Crypto, w: World) {
    match w.server
    case Awaiting => w.cRead == 0 && w.sSent == [] && w.sItems == []
    case Answering(key, answer) =>
      w.cRead == 1 && w.sSent == [] && w.sItems == [] && key == SessionKey(c, w) && answer == Answer(c, w)
    case Secured(key) => w.cRead >= 1 && key == SessionKey(c, w) && w.sSent == [Answer(c, w)] + Wire(c, key, w.sItems)
    case Dropped => false
  }

  ghost predicate Delivered(got: seq<seq<Byte>>, items: seq<Item>, read: nat) {
    if read == 0 then got == [] else read - 1 <= |Texts(items)| && got == Texts(items)[..read - 1]
  }

  ghost predicate Inv(c: Crypto, w: World) {
    && w.cRead <= |w.cSent| && w.sRead <= |w.sSent|
    && ClientOk(c, w) && ServerOk(c, w)
    && Delivered(w.sGot, w.cItems, w.cRead)
    && Delivered(w.cGot, w.sItems, w.sRead)
  }

  lemma KeyPacketParts(num: nat, pub: seq<Byte>)
    requires num < 65536 && |pub| == PUB_KEY_SIZE
    ensures var p := KeyPacket(num, pub); Framed(p) && PacketNum(p) == num && KeyField(p) == pub
  {
  }

  lemma ClientSendsKeeps(c: Crypto, w: World, item: Item)
    requires Lawful(c) && Inv(c, w) && w.client.Keyed?
    ensures Inv(c, Next(c, w, ClientSends(item)))
  {
    WireSnoc(c, w.client.key, w.cItems, item);
    assert [Request(c, w)] + (Wire(c, w.client.key, w.cItems) + Sealed(c, w.client.key, item))
        == ([Request(c, w)] + Wire(c, w.client.key, w.cItems)) + Sealed(c, w.client.key, item);
  }

  lemma ServerSendsKeeps(c: Crypto, w: World, item: Item)
    requires Lawful(c) && Inv(c, w) && w.server.Secured?
    ensures Inv(c, Next(c, w, ServerSends(item)))
  {
    WireSnoc(c, w.server.key, w.sItems, item);
    assert [Answer(c, w)] + (Wire(c, w.server.key, w.sItems) + Sealed(c, w.server.key, item))
        == ([Answer(c, w)] + Wire(c, w.server.key, w.sItems)) + Sealed(c, w.server.key, item);
  }

  /** The i-th packet behind the key packet opens to the i-th text. */
  lemma WirePacket(c: Crypto, key: Key, first: Packet, items: seq<Item>, i: nat)
    requires Lawful(c) && i < |Wire(c, key, items)|
    ensures i < |Texts(items)|
    ensures var p := ([first] + Wire(c, key, items))[i + 1]; |p| >= HEADER_SIZE && Unsealed(c, key, p) == Plain(Texts(items)[i])
    ensures Texts(items)[..i] + [Texts(items)[i]] == Texts(items)[..i + 1]
  {
    WireCarriesTexts(c, key, items);
    assert ([first] + Wire(c, key, items))[i + 1] == Wire(c, key, items)[i];
  }

  lemma ServerReadsKeeps(c: Crypto, w: World, priv: nat)
    requires Lawful(c) && Inv(c, w)
    ensures Inv(c, Next(c, w, ServerReads(priv)))
  {
    if w.cRead < |w.cSent| && !w.server.Answering? {
      if w.server.Secured? {
        assert w.client.Keyed?;
        WirePacket(c, w.client.key, Request(c, w), w.cItems, w.cRead - 1);
      } else {
        KeyPacketParts(REQ_KEY_EXCHANGE, c.pub(w.cPriv));
        assert w.client.Waiting?;
      }
    }
  }

  lemma ClientReadsKeeps(c: Crypto, w: World)
    requires Lawful(c) && Inv(c, w)
    ensures Inv(c, Next(c, w, ClientReads))
  {
    if w.sRead < |w.sSent| {
      assert w.server.Secured?;
      if w.client.Keyed? {
        WirePacket(c, w.server.key, Answer(c, w), w.sItems, w.sRead - 1);
      } else {
        FirstReadKeeps(c, w);
      }
    }
  }

  /** The client's first read is the answer, and gives it the server's key. */
  lemma FirstReadKeeps(c: Crypto, w: World)
    requires Lawful(c) && Inv(c, w) && w.server.Secured? && !w.client.Keyed?
    ensures Inv(c, Next(c, w, ClientReads))
  {
    KeyPacketParts(RES_KEY_EXCHANGE, c.pub(w.sPriv));
    assert w.client.Waiting? && w.sSent[0] == Answer(c, w);
    assert [Request(c, w)] + [] == [Request(c, w)];
  }

  lemma {:induction false} HandshakeInvariant(c: Crypto, steps: seq<Step>)
    requires Lawful(c) && Polite(c, steps)
    ensures Inv(c, Run(c, steps))
  {
    if steps != [] {
      var before := steps[..|steps| - 1];
      HandshakeInvariant(c, before);
      var w := Run(c, before);
      match steps[|steps| - 1]
      case Connect(priv) =>
      case ClientSends(item) => ClientSendsKeeps(c, w, item);
      case ServerSends(item) => ServerSendsKeeps(c, w, item);
      case ServerReads(priv) => ServerReadsKeeps(c, w, priv);
      case ServerAnswers => assert [Answer(c, w)] + [] == [Answer(c, w)];
      case ClientReads => ClientReadsKeeps(c, w);
    }
  }

  /** No polite run takes a violation branch on either side. */
  lemma NoViolation(c: Crypto, steps: seq<Step>)
    requires Lawful(c) && Polite(c, steps)
    ensures !Run(c, steps).server.Dropped? && !Run(c, steps).client.Lost?
  {
    HandshakeInvariant(c, steps);
  }

  /** Once the client is done so is the server, and both hold the same key. */
  lemma KeysAgree(c: Crypto, steps: seq<Step>)
    requires Lawful(c) && Polite(c, steps)
    ensures var w := Run(c, steps); w.client.Keyed? ==> w.server == Secured(w.client.key)
  {
    HandshakeInvariant(c, steps);
  }

  /** In each direction the first packet is the one plain key packet and all others are encrypted. */
  lemma OnePlainPacketEach(c: Crypto, steps: seq<Step>)
    requires Lawful(c) && Polite(c, steps)
    ensures var w := Run(c, steps);
            && (forall i | 0 <= i < |w.cSent| :: |w.cSent[i]| >= HEADER_SIZE &&
                  PacketNum(w.cSent[i]) == if i == 0 then REQ_KEY_EXCHANGE else ENCRYPTED)
            && (forall i | 0 <= i < |w.sSent| :: |w.sSent[i]| >= HEADER_SIZE &&
                  PacketNum(w.sSent[i]) == if i == 0 then RES_KEY_EXCHANGE else ENCRYPTED)
  {
    HandshakeInvariant(c, steps);
    var w := Run(c, steps);
    KeyPacketParts(REQ_KEY_EXCHANGE, c.pub(w.cPriv));
    KeyPacketParts(RES_KEY_EXCHANGE, c.pub(w.sPriv));
    if w.client.Keyed? {
      WireCarriesTexts(c, w.client.key, w.cItems);
    }
    if w.server.Secured? {
      WireCarriesTexts(c, w.server.key, w.sItems);
    }
  }

  /** What a side hands on is a prefix of what the other side sent, bit for bit and in order. */
  lemma DeliveredExactly(c: Crypto, steps: seq<Step>)
    requires Lawful(c) && Polite(c, steps)
    ensures var w := Run(c, steps);
            && w.sGot <= Texts(w.cItems) && w.cGot <= Texts(w.sItems)
            && (w.client.Keyed? && w.cRead == |w.cSent| ==> w.sGot == Texts(w.cItems))
            && (w.server.Secured? && w.sRead == |w.sSent| ==> w.cGot == Texts(w.sItems))
  {
    HandshakeInvariant(c, steps);
    var w := Run(c, steps);
    if w.client.Keyed? {
      WireCarriesTexts(c, w.client.key, w.cItems);
    }
    if w.server.Secured? {
      WireCarriesTexts(c, w.server.key, w.sItems);
    }
  }

  /** A server that has handed on a request has its answer out: replying to requests is polite. */
  lemma RepliesArePolite(c: Crypto, steps: seq<Step>)
    requires Lawful(c) && Polite(c, steps) && Run(c, steps).sGot != []
    ensures Run(c, steps).server.Secured?
  {
    HandshakeInvariant(c, steps);
  }

  /** Nothing on the wire is ever in the way: a side that can read takes the next packet. */
  lemma ReadsGoOn(c: Crypto, steps: seq<Step>, priv: nat)
    requires Lawful(c) && Polite(c, steps)
    ensures var w := Run(c, steps);
            && (w.cRead < |w.cSent| && !w.server.Answering? ==> Next(c, w, ServerReads(priv)).cRead == w.cRead + 1)
            && (w.sRead < |w.sSent| ==> Next(c, w, ClientReads).sRead == w.sRead + 1)
  {
    OnePlainPacketEach(c, steps);
  }

  ghost predicate Established(w: World) {
    w.client.Keyed? && w.server == Secured(w.client.key)
  }

  lemma ServerGetsOn(c: Crypto, w: World, priv: nat)
    requires Lawful(c) && Inv(c, w) && !w.client.Fresh?
    ensures var w' := Next(c, Next(c, w, ServerReads(priv)), ServerAnswers);
            w'.server.Secured? && w'.client == w.client && w'.sRead == w.sRead && w'.sSent != []
  {
    KeyPacketParts(REQ_KEY_EXCHANGE, c.pub(w.cPriv));
    ServerReadsKeeps(c, w, priv);
  }

  /** From every polite run, connecting, one read of the server, its answer and one read of the client finish the handshake. */
  lemma HandshakeCompletes(c: Crypto, steps: seq<Step>, a: nat, b: nat)
    requires Lawful(c) && Polite(c, steps)
    ensures var w := Run(c, steps + [Connect(a)] + [ServerReads(b)] + [ServerAnswers] + [ClientReads]); Established(w)
  {
    var s1 := steps + [Connect(a)];
    PoliteSnoc(c, steps, Connect(a));
    var s2 := s1 + [ServerReads(b)];
    PoliteSnoc(c, s1, ServerReads(b));
    var s3 := s2 + [ServerAnswers];
    PoliteSnoc(c, s2, ServerAnswers);
    PoliteSnoc(c, s3, ClientReads);
    HandshakeInvariant(c, s1);
    ServerGetsOn(c, Run(c, s1), b);
    HandshakeInvariant(c, s3);
    ReadsGoOn(c, s3, 0);
    HandshakeInvariant(c, s3 + [ClientReads]);
  }

  lemma PoliteSnoc(c: Crypto, steps: seq<Step>, step: Step)
    requires Polite(c, steps) && PoliteStep(Run(c, steps), step)
    ensures Polite(c, steps + [step]) && Run(c, steps + [step]) == Next(c, Run(c, steps), step)
  {
    assert (steps + [step])[..|steps|] == steps;
  }

  // ----- the exact condition ---------------------------------------------------------

  /** A packet of the application: it has a header, fits an encrypted packet and is none of the handshake's. */
  predicate Application(item: Item) {
    && Sendable(item.plain) && |item.plain| >= HEADER_SIZE
    && PacketNum(item.plain) !in {REQ_KEY_EXCHANGE, RES_KEY_EXCHANGE, ENCRYPTED}
  }

  predicate SendsApplication(step: Step) {
    (step.ClientSends? || step.ServerSends?) ==> Application(step.item)
  }

  ghost predicate AllApplication(steps: seq<Step>) {
    forall i | 0 <= i < |steps| :: SendsApplication(steps[i])
  }

  /** Nobody sends anything of the application. */
  ghost predicate Silent(steps: seq<Step>) {
    forall i | 0 <= i < |steps| :: !steps[i].ClientSends? && !steps[i].ServerSends?
  }

  predicate Broken(w: World) {
    w.server.Dropped? || w.client.Lost?
  }

  predicate IsApplication(p: Packet) {
    |p| >= HEADER_SIZE && PacketNum(p) !in {REQ_KEY_EXCHANGE, RES_KEY_EXCHANGE, ENCRYPTED}
  }

  /** The server will read an application packet where a key request ought to be. */
  ghost predicate FirstIsWrong(w: World) {
    w.server.Awaiting? && w.cRead == 0 && |w.cSent| >= 1 && IsApplication(w.cSent[0])
  }

  /** The server will read an application packet in the clear right after the key request. */
  ghost predicate SecondIsPlain(c: Crypto, w: World) {
    && |w.cSent| >= 2 && w.cSent[0] == Request(c, w) && IsApplication(w.cSent[1])
    && if w.server.Awaiting? then w.cRead == 0 else (w.server.Answering? || w.server.Secured?) && w.cRead == 1
  }

  /** The client will read something other than the key answer first. */
  ghost predicate AnswerIsLate(w: World) {
    && (w.client.Fresh? || w.client.Waiting?)
    && w.sRead == 0 && |w.sSent| >= 1 && |w.sSent[0]| >= HEADER_SIZE && PacketNum(w.sSent[0]) != RES_KEY_EXCHANGE
  }

  /** A packet sent already is bound to break the connection when it is read. */
  ghost predicate Doomed(c: Crypto, w: World) {
    Broken(w) || FirstIsWrong(w) || (SecondIsPlain(c, w) && !w.client.Fresh?) || AnswerIsLate(w)
  }

  lemma BrokenStays(c: Crypto, w: World, step: Step)
    requires Broken(w)
    ensures Broken(Next(c, w, step))
  {
  }

  lemma FirstStaysWrong(c: Crypto, w: World, step: Step)
    requires FirstIsWrong(w)
    ensures Broken(Next(c, w, step)) || FirstIsWrong(Next(c, w, step))
    ensures step.ServerReads? ==> Broken(Next(c, w, step))
  {
  }

  lemma SecondStaysPlain(c: Crypto, w: World, step: Step)
    requires Lawful(c) && SecondIsPlain(c, w) && !w.client.Fresh?
    ensures var w' := Next(c, w, step); Broken(w') || (SecondIsPlain(c, w') && !w'.client.Fresh?)
  {
    KeyPacketParts(REQ_KEY_EXCHANGE, c.pub(w.cPriv));
  }

  lemma AnswerStaysLate(c: Crypto, w: World, step: Step)
    requires AnswerIsLate(w)
    ensures Broken(Next(c, w, step)) || AnswerIsLate(Next(c, w, step))
    ensures step.ClientReads? ==> Next(c, w, step).client.Lost?
  {
  }

  lemma DoomedStays(c: Crypto, w: World, step: Step)
    requires Lawful(c) && Doomed(c, w)
    ensures Doomed(c, Next(c, w, step))
  {
    if Broken(w) {
      BrokenStays(c, w, step);
    } else if FirstIsWrong(w) {
      FirstStaysWrong(c, w, step);
    } else if AnswerIsLate(w) {
      AnswerStaysLate(c, w, step);
    } else {
      SecondStaysPlain(c, w, step);
    }
  }

  lemma AnswerOvertaken(c: Crypto, w: World, item: Item)
    requires Lawful(c) && Inv(c, w) && !w.server.Secured? && Application(item)
    ensures AnswerIsLate(Next(c, w, ServerSends(item)))
  {
    assert w.sSent == [] && w.sRead == 0;
    if w.server.Answering? {
      UnsealSealed(c, w.server.key, item);
    }
  }

  /** The first impolite packet of a run dooms the connection. */
  lemma ImpoliteDooms(c: Crypto, w: World, step: Step)
    requires Lawful(c) && Inv(c, w) && SendsApplication(step) && !PoliteStep(w, step)
    ensures Doomed(c, Next(c, w, step))
  {
    if step.ClientSends? {
      assert w.client.Fresh? || w.client.Waiting?;
    } else {
      AnswerOvertaken(c, w, step.item);
    }
  }

  lemma {:induction false} RudeIsDoomed(c: Crypto, steps: seq<Step>)
    requires Lawful(c) && AllApplication(steps) && !Polite(c, steps)
    ensures Doomed(c, Run(c, steps))
  {
    var before, last := steps[..|steps| - 1], steps[|steps| - 1];
    if Polite(c, before) {
      HandshakeInvariant(c, before);
      ImpoliteDooms(c, Run(c, before), last);
    } else {
      RudeIsDoomed(c, before);
      DoomedStays(c, Run(c, before), last);
    }
  }

  lemma RunSnoc(c: Crypto, steps: seq<Step>, step: Step)
    ensures Run(c, steps + [step]) == Next(c, Run(c, steps), step)
  {
    assert (steps + [step])[..|steps|] == steps;
  }

  /** Both sides read on: the server its first two packets, answering in between, the client its first. */
  const READ_ON: seq<Step> := [ServerReads(0), ServerAnswers, ServerReads(0), ClientReads]

  lemma ReadingOn(c: Crypto, steps: seq<Step>)
    ensures Run(c, steps + READ_ON)
         == Next(c, Next(c, Next(c, Next(c, Run(c, steps), ServerReads(0)), ServerAnswers), ServerReads(0)), ClientReads)
  {
    RunSnoc(c, steps, ServerReads(0));
    RunSnoc(c, steps + [ServerReads(0)], ServerAnswers);
    RunSnoc(c, steps + [ServerReads(0)] + [ServerAnswers], ServerReads(0));
    RunSnoc(c, steps + [ServerReads(0)] + [ServerAnswers] + [ServerReads(0)], ClientReads);
    assert steps + READ_ON == steps + [ServerReads(0)] + [ServerAnswers] + [ServerReads(0)] + [ClientReads];
  }

  lemma SecondIsReached(c: Crypto, w: World)
    requires Lawful(c) && SecondIsPlain(c, w)
    ensures Next(c, Next(c, Next(c, w, ServerReads(0)), ServerAnswers), ServerReads(0)).server.Dropped?
  {
    KeyPacketParts(REQ_KEY_EXCHANGE, c.pub(w.cPriv));
  }

  /** A doomed connection breaks as soon as both sides read on. */
  lemma DoomedBreaks(c: Crypto, w: World)
    requires Lawful(c) && Doomed(c, w)
    ensures Broken(Next(c, Next(c, Next(c, Next(c, w, ServerReads(0)), ServerAnswers), ServerReads(0)), ClientReads))
  {
    var w1 := Next(c, w, ServerReads(0));
    var w2 := Next(c, w1, ServerAnswers);
    var w3 := Next(c, w2, ServerReads(0));
    if SecondIsPlain(c, w) {
      SecondIsReached(c, w);
    } else if FirstIsWrong(w) {
      FirstStaysWrong(c, w, ServerReads(0));
      BrokenStays(c, w1, ServerAnswers);
      BrokenStays(c, w2, ServerReads(0));
    } else if Broken(w) {
      BrokenStays(c, w, ServerReads(0));
      BrokenStays(c, w1, ServerAnswers);
      BrokenStays(c, w2, ServerReads(0));
    } else {
      LateAnswerReached(c, w);
      return;
    }
    BrokenStays(c, w3, ClientReads);
  }

  lemma LateAnswerReached(c: Crypto, w: World)
    requires AnswerIsLate(w)
    ensures Broken(Next(c, Next(c, Next(c, Next(c, w, ServerReads(0)), ServerAnswers), ServerReads(0)), ClientReads))
  {
    var w1 := Next(c, w, ServerReads(0));
    var w2 := Next(c, w1, ServerAnswers);
    var w3 := Next(c, w2, ServerReads(0));
    AnswerStaysLate(c, w, ServerReads(0));
    assert AnswerIsLate(w1) && AnswerIsLate(w2) && AnswerIsLate(w3);
    AnswerStaysLate(c, w3, ClientReads);
  }

  /** However both sides go on reading, answering and connecting, no violation occurs. */
  ghost predicate NeverBreaks(c: Crypto, steps: seq<Step>) {
    forall more | Silent(more) :: !Broken(Run(c, steps + more))
  }

  lemma {:induction false} SilenceIsPolite(c: Crypto, steps: seq<Step>, more: seq<Step>)
    requires Polite(c, steps) && Silent(more)
    ensures Polite(c, steps + more)
  {
    if more == [] {
      assert steps + more == steps;
    } else {
      SilenceIsPolite(c, steps, more[..|more| - 1]);
      assert (steps + more)[..|steps + more| - 1] == steps + more[..|more| - 1];
    }
  }

  /** Exactly: a run of application packets never leads to a violation iff every packet waited for its handshake. */
  lemma PoliteIffNeverBreaks(c: Crypto, steps: seq<Step>)
    requires Lawful(c) && AllApplication(steps)
    ensures Polite(c, steps) <==> NeverBreaks(c, steps)
  {
    if Polite(c, steps) {
      forall more | Silent(more) ensures !Broken(Run(c, steps + more)) {
        SilenceIsPolite(c, steps, more);
        NoViolation(c, steps + more);
      }
    } else {
      RudeIsDoomed(c, steps);
      ReadingOn(c, steps);
      DoomedBreaks(c, Run(c, steps));
      assert Silent(READ_ON);
    }
  }

  /** A client packet that goes out before the client is done gets the session dropped when the server reads on. */
  lemma EarlyPacketDropsSession(c: Crypto, steps: seq<Step>, item: Item)
    requires Lawful(c) && Polite(c, steps) && !Run(c, steps).client.Keyed? && Application(item)
    ensures var w := Next(c, Run(c, steps), ClientSends(item));
            Next(c, Next(c, Next(c, w, ServerReads(0)), ServerAnswers), ServerReads(0)).server.Dropped?
  {
    HandshakeInvariant(c, steps);
    var w := Next(c, Run(c, steps), ClientSends(item));
    if FirstIsWrong(w) {
      assert Next(c, w, ServerReads(0)).server.Dropped?;
    } else {
      SecondIsReached(c, w);
    }
  }

  /** A server packet that overtakes the answer costs the client its session at the next read. */
  lemma EarlyServerPacketLosesClient(c: Crypto, steps: seq<Step>, item: Item)
    requires Lawful(c) && Polite(c, steps) && !Run(c, steps).server.Secured? && Application(item)
    ensures Next(c, Next(c, Run(c, steps), ServerSends(item)), ClientReads).client.Lost?
  {
    HandshakeInvariant(c, steps);
    AnswerOvertaken(c, Run(c, steps), item);
    AnswerStaysLate(c, Next(c, Run(c, steps), ServerSends(item)), ClientReads);
  }
}
