/** The key exchange and encrypted sending, seen from the server's and from the client's session. */
module Sessions {
  import opened Basics
  import opened Framing
  import opened AesGcm

  const REQ_KEY_EXCHANGE := 1
  const RES_KEY_EXCHANGE := 2
  const ENCRYPTED := 3

  /** An application packet and the nonce drawn for it. */
  datatype Item = Item(nonce: Nonce, plain: seq<Byte>)

  function Header(num: nat, size: nat): (h: seq<Byte>)
    requires num < 65536 && size < 65536
    ensures |h| == HEADER_SIZE && DeclaredSize(h) == size && h[0] as int + 256 * (h[1] as int) == num
  {
    [num % 256, num / 256, size % 256, size / 256]
  }

  function PacketNum(p: Packet): nat
    requires |p| >= HEADER_SIZE
  {
    p[0] as int + 256 * (p[1] as int)
  }

  function KeyPacket(num: nat, pub: seq<Byte>): Packet
    requires num < 65536
  {
    Header(num, HEADER_SIZE + PUB_KEY_SIZE) + pub
  }

  /** The public key field of a key exchange packet, as far as the packet goes. */
  function KeyField(p: Packet): seq<Byte>
    requires |p| >= HEADER_SIZE
  {
    if |p| >= HEADER_SIZE + PUB_KEY_SIZE then p[HEADER_SIZE..HEADER_SIZE + PUB_KEY_SIZE] else p[HEADER_SIZE..]
  }

  /** 69 bytes on the wire: the number and the size, low byte first, then the key. */
  lemma KeyPacketLayout(num: nat, pub: seq<Byte>)
    requires num < 65536 && |pub| == 65
    ensures KeyPacket(num, pub) == [num % 256, num / 256, 69, 0] + pub && KeyField(KeyPacket(num, pub)) == pub
  {
  }

  predicate Sendable(plain: seq<Byte>) {
    0 < |plain| <= MAX_PLAIN_PACKET_SIZE
  }

  /** SendEncrypted: a packet of an unsuitable size is dropped without a word. */
  function Sealed(c: Crypto, key: Key, item: Item): seq<Packet> {
    if Sendable(item.plain) && |Pack(c, key, item.nonce, item.plain)| < 65536 - HEADER_SIZE then
      var payload := Pack(c, key, item.nonce, item.plain);
      [Header(ENCRYPTED, HEADER_SIZE + |payload|) + payload]
    else []
  }

  /** The checks both sides make on a packet once their handshake is done. */
  function Unsealed(c: Crypto, key: Key, p: Packet): Opened
    requires |p| >= HEADER_SIZE
  {
    if PacketNum(p) != ENCRYPTED then Refused
    else if |p| - HEADER_SIZE < OVERHEAD || |p| - HEADER_SIZE > MAX_PLAIN_PACKET_SIZE + OVERHEAD then Refused
    else Unpack(c, key, p[HEADER_SIZE..])
  }

  /** An encrypted packet of a permitted size whose payload the cipher vouches for. */
  ghost predicate Vouched(c: Crypto, key: Key, p: Packet)
    requires |p| >= HEADER_SIZE
  {
    PacketNum(p) == 3 && 4 + 28 <= |p| <= 4 + 28 + 1280 && Authentic(c, key, p[4..])
  }

  /** Exactly such packets are opened, and to nothing but the text the cipher vouches for. */
  lemma UnsealedExactly(c: Crypto, key: Key, p: Packet)
    requires |p| >= HEADER_SIZE
    ensures Unsealed(c, key, p) == if Vouched(c, key, p) then Plain(Text(c, key, p[4..])) else Refused
  {
    UnpackExactly(c, key, p[HEADER_SIZE..]);
  }

  lemma UnsealSealed(c: Crypto, key: Key, item: Item)
    requires Lawful(c) && Sendable(item.plain)
    ensures var ps := Sealed(c, key, item);
            |ps| == 1 && Framed(ps[0]) && PacketNum(ps[0]) == ENCRYPTED && Unsealed(c, key, ps[0]) == Plain(item.plain)
  {
    UnpackPack(c, key, item.nonce, item.plain);
    var payload := Pack(c, key, item.nonce, item.plain);
    var p := Header(ENCRYPTED, HEADER_SIZE + |payload|) + payload;
    assert p[HEADER_SIZE..] == payload;
  }

  /** Every packet that passes the size checks opens to a text that fits the plain-text buffer. */
  lemma OpenedFits(c: Crypto, key: Key, p: Packet)
    requires Lawful(c) && |p| >= HEADER_SIZE && Unsealed(c, key, p).Plain?
    ensures |p| - HEADER_SIZE <= MAX_PLAIN_PACKET_SIZE + OVERHEAD
    ensures |Unsealed(c, key, p).text| == |p| - HEADER_SIZE - OVERHEAD <= MAX_PLAIN_PACKET_SIZE
  {
    UnpackLength(c, key, p[HEADER_SIZE..]);
  }

  /** Dropped: the session has been closed for a violation. */
  datatype Server =
    | Awaiting
    | Answering(key: Key, answer: Packet)  // handshake flag set, reply not yet sent
    | Secured(key: Key)
    | Dropped

  datatype Client = Fresh | Waiting(priv: nat) | Keyed(key: Key) | Lost

  /** What OnRecv of the server makes of a packet: the next state and the packet handed on, if any. */
  function ServerRecv(c: Crypto, s: Server, p: Packet, priv: nat): (Server, seq<seq<Byte>>)
    requires |p| >= HEADER_SIZE
  {
    match s
    case Awaiting =>
      if PacketNum(p) == REQ_KEY_EXCHANGE && c.shared(priv, KeyField(p)).Some?
      then (Answering(c.kdf(c.shared(priv, KeyField(p)).value), KeyPacket(RES_KEY_EXCHANGE, c.pub(priv))), [])
      else (Dropped, [])
    case Secured(key) => (
      match Unsealed(c, key, p)
      case Plain(x) => (s, [x])
      case Refused => (Dropped, [])
    )
    case _ => (s, [])
  }

  function ClientRecv(c: Crypto, s: Client, p: Packet): (Client, seq<seq<Byte>>)
    requires |p| >= HEADER_SIZE
  {
    match s
    case Waiting(priv) =>
      if PacketNum(p) == RES_KEY_EXCHANGE && c.shared(priv, KeyField(p)).Some?
      then (Keyed(c.kdf(c.shared(priv, KeyField(p)).value)), [])
      else (Lost, [])
    case Keyed(key) => (
      match Unsealed(c, key, p)
      case Plain(x) => (s, [x])
      case Refused => (Lost, [])
    )
    case Fresh => (Lost, [])
    case Lost => (s, [])
  }

  /** Send: encrypted once the handshake flag is set, as it is before that. */
  function ServerSend(c: Crypto, s: Server, item: Item): seq<Packet> {
    match s
    case Awaiting => [item.plain]
    case Answering(key, _) => Sealed(c, key, item)
    case Secured(key) => Sealed(c, key, item)
    case Dropped => []
  }

  function ClientSend(c: Crypto, s: Client, item: Item): seq<Packet> {
    match s
    case Keyed(key) => Sealed(c, key, item)
    case Lost => []
    case _ => [item.plain]
  }

  class GameSession {
    const crypto: Crypto
    var handshakeDone: bool
    var cipher: Key
    var connected: bool
    /** Packets passed to Session::Send, oldest first. */
    var outbox: seq<Packet>
    /** Inner packets passed to the packet handler. */
    var handled: seq<seq<Byte>>

    constructor (c: Crypto)
      ensures crypto == c && View() == Awaiting && outbox == [] && handled == []
    {
      crypto := c;
      handshakeDone, cipher, connected, outbox, handled := false, [], true, [], [];
    }

    ghost function View(): Server
      reads this
    {
      if !connected then Dropped else if handshakeDone then Secured(cipher) else Awaiting
    }

    /**
     * keys: the generated private key, None if generation failed.  The flag is set before the reply
     * goes out, in the clear.
     */
    method HandleKeyExchange(p: Packet, keys: Option<nat>)
      requires |p| >= HEADER_SIZE
      modifies `handshakeDone, `cipher, `outbox, `connected
      ensures var done := keys.Some? && crypto.shared(keys.value, KeyField(p)).Some?;
              && connected == (old(connected) && done)
              && handshakeDone == (old(handshakeDone) || done)
              && (done ==> cipher == crypto.kdf(crypto.shared(keys.value, KeyField(p)).value))
              && (!done ==> cipher == old(cipher))
              && outbox == old(outbox) + (if done then [KeyPacket(RES_KEY_EXCHANGE, crypto.pub(keys.value))] else [])
    {
      if keys.None? {
        connected := false;
        return;
      }
      var secret := crypto.shared(keys.value, KeyField(p));
      if secret.None? {
        connected := false;
        return;
      }
      var res := KeyPacket(RES_KEY_EXCHANGE, crypto.pub(keys.value));
      cipher := crypto.kdf(secret.value);
      handshakeDone := true;
      outbox := outbox + [res];
    }

    /**
     * accepts: the packet handler's answer.  A refusal of any kind closes the session, here or in
     * the receive loop; a failed key exchange closes it although the packet counts as handled.
     */
    method OnRecv(p: Packet, keys: Option<nat>, accepts: bool) returns (ok: bool)
      requires |p| >= HEADER_SIZE
      modifies this
      ensures !old(connected) ==> !connected
      ensures old(connected) ==>
              var before := old(View());
              var first := before.Awaiting? && PacketNum(p) == REQ_KEY_EXCHANGE;
              var (next, inner) := if first && keys.None? then (Dropped, [])
                                   else ServerRecv(crypto, before, p, if keys.Some? then keys.value else 0);
              && ok == (first || (inner != [] && accepts))
              && View() == (if next.Answering? then Secured(next.key) else if inner != [] && !accepts then Dropped else next)
              && outbox == old(outbox) + (if next.Answering? then [next.answer] else [])
              && handled == old(handled) + inner
      ensures old(connected && !handshakeDone) ==>
              var request := PacketNum(p) == 1;
              var done := request && keys.Some? && crypto.shared(keys.value, KeyField(p)).Some?;
              && ok == request && connected == handshakeDone == done && handled == old(handled)
              && (done ==> cipher == crypto.kdf(crypto.shared(keys.value, KeyField(p)).value))
              && outbox == old(outbox) + (if done then [KeyPacket(2, crypto.pub(keys.value))] else [])
      ensures old(connected && handshakeDone) ==>
              var vouched := Vouched(crypto, old(cipher), p);
              && ok == connected == (vouched && accepts)
              && handled == old(handled) + (if vouched then [Text(crypto, old(cipher), p[4..])] else [])
              && outbox == old(outbox) && cipher == old(cipher) && handshakeDone
    {
      UnsealedExactly(crypto, cipher, p);
      if !handshakeDone {
        if PacketNum(p) == REQ_KEY_EXCHANGE {
          HandleKeyExchange(p, keys);
          return true;
        }
        connected := false;
        return false;
      }
      if PacketNum(p) != ENCRYPTED {
        connected := false;
        return false;
      }
      var payloadLen := |p| - HEADER_SIZE;
      if payloadLen < OVERHEAD || payloadLen > MAX_PLAIN_PACKET_SIZE + OVERHEAD {
        connected := false;
        return false;
      }
      var inner := Unpack(crypto, cipher, p[HEADER_SIZE..]);
      if inner.Refused? {
        connected := false;
        return false;
      }
      handled := handled + [inner.text];
      if !accepts {
        connected := false;
      }
      return accepts;
    }

    method Send(item: Item)
      modifies `outbox
      ensures connected ==> outbox == old(outbox) + ServerSend(crypto, View(), item)
    {
      if handshakeDone {
        outbox := outbox + Sealed(crypto, cipher, item);
      } else {
        outbox := outbox + [item.plain];
      }
    }
  }

  class ServerSession {
    const crypto: Crypto
    var handshakeDone: bool
    var cipher: Key
    var myPrivKey: Option<nat>
    var connected: bool
    var outbox: seq<Packet>
    var handled: seq<seq<Byte>>

    constructor (c: Crypto)
      ensures crypto == c && Valid() && View() == Fresh && outbox == [] && handled == []
    {
      crypto := c;
      handshakeDone, cipher, myPrivKey, connected, outbox, handled := false, [], None, true, [], [];
    }

    ghost predicate Valid()
      reads this
    {
      handshakeDone ==> myPrivKey == None
    }

    ghost function View(): Client
      reads this
    {
      if !connected then Lost
      else if handshakeDone then Keyed(cipher)
      else match myPrivKey case None => Fresh case Some(k) => Waiting(k)
    }

    /** keys: the generated private key, None if generation failed. */
    method OnConnected(keys: Option<nat>)
      requires View() == Fresh && Valid()
      modifies `myPrivKey, `outbox, `connected
      ensures Valid() && View() == (if keys.Some? then Waiting(keys.value) else Lost)
      ensures outbox == old(outbox) + (if keys.Some? then [KeyPacket(REQ_KEY_EXCHANGE, crypto.pub(keys.value))] else [])
    {
      if keys.None? {
        connected := false;
        return;
      }
      myPrivKey := keys;
      outbox := outbox + [KeyPacket(REQ_KEY_EXCHANGE, crypto.pub(keys.value))];
    }

    /**
     * After the key exchange the first encrypted packet is the login.  accepts: the packet handler's
     * answer.  A refusal closes the session in the receive loop; that is included here.  Without a
     * private key the key exchange fails.
     */
    method OnRecv(p: Packet, login: Item, accepts: bool) returns (ok: bool)
      requires |p| >= HEADER_SIZE && Valid()
      modifies this
      ensures Valid() && (!old(connected) ==> !connected)
      ensures old(connected) ==>
              var before := old(View());
              var (next, inner) := ClientRecv(crypto, before, p);
              && ok == ((!before.Keyed? && PacketNum(p) == RES_KEY_EXCHANGE) || (inner != [] && accepts))
              && View() == (if inner != [] && !accepts then Lost else next)
              && handled == old(handled) + inner
              && outbox == old(outbox) + (if before.Waiting? && next.Keyed? then ClientSend(crypto, next, login) else [])
      ensures old(connected && !handshakeDone) ==>
              var answer, priv := PacketNum(p) == 2, old(myPrivKey);
              var done := answer && priv.Some? && crypto.shared(priv.value, KeyField(p)).Some?;
              && ok == answer && connected == handshakeDone == done && handled == old(handled)
              && (done ==> cipher == crypto.kdf(crypto.shared(priv.value, KeyField(p)).value) && myPrivKey == None)
              && outbox == old(outbox) + (if done then Sealed(crypto, cipher, login) else [])
      ensures old(connected && handshakeDone) ==>
              var vouched := Vouched(crypto, old(cipher), p);
              && ok == connected == (vouched && accepts)
              && handled == old(handled) + (if vouched then [Text(crypto, old(cipher), p[4..])] else [])
              && outbox == old(outbox) && cipher == old(cipher) && handshakeDone
    {
      UnsealedExactly(crypto, cipher, p);
      if !handshakeDone {
        if PacketNum(p) == RES_KEY_EXCHANGE {
          var secret := if myPrivKey.None? then None else crypto.shared(myPrivKey.value, KeyField(p));
          if secret.None? {
            connected := false;
            return true;
          }
          cipher := crypto.kdf(secret.value);
          myPrivKey := None;
          handshakeDone := true;
          outbox := outbox + Sealed(crypto, cipher, login);
          return true;
        }
        connected := false;
        return false;
      }
      var inner := Unsealed(crypto, cipher, p);
      if inner.Refused? {
        connected := false;
        return false;
      }
      handled := handled + [inner.text];
      if !accepts {
        connected := false;
      }
      return accepts;
    }

    method Send(item: Item)
      modifies `outbox
      ensures connected ==> outbox == old(outbox) + ClientSend(crypto, View(), item)
    {
      if handshakeDone {
        outbox := outbox + Sealed(crypto, cipher, item);
      } else {
        outbox := outbox + [item.plain];
      }
    }
  }
}
