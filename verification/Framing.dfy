/** Cutting the byte stream of a connection into packets. */
module Framing {

  import opened Basics

  type Packet = seq<Byte>

  /** The content layer's answer to the newest of the packets delivered so far. */
  type Handler = seq<Packet> -> bool

  datatype Cause = RecvZero | WriteOverflow | InvalidSize | Rejected
  datatype Stream =
    | Open(delivered: seq<Packet>, pending: seq<Byte>)
    | Closed(delivered: seq<Packet>, cause: Cause)

  /** The header is the packet number, then the size of the whole packet, both little-endian. */
  function DeclaredSize(b: seq<Byte>): nat
    requires |b| >= HEADER_SIZE
  {
    b[2] as int + 256 * (b[3] as int)
  }

  /** What the receive loop does with the bytes pending. */
  function Drain(h: Handler, delivered: seq<Packet>, pending: seq<Byte>): Stream
    decreases |pending|
  {
    if |pending| < HEADER_SIZE then Open(delivered, pending)
    else
      var n := DeclaredSize(pending);
      if n < HEADER_SIZE then Closed(delivered, InvalidSize)
      else if |pending| < n then Open(delivered, pending)
      else
        var d := delivered + [pending[..n]];
        if h(d) then Drain(h, d, pending[n..]) else Closed(d, Rejected)
  }

  /** One receive completion that brought the given bytes. */
  function Feed(h: Handler, st: Stream, bytes: seq<Byte>): Stream {
    match st
    case Open(d, p) => Drain(h, d, p + bytes)
    case Closed(_, _) => st
  }

  function FeedAll(h: Handler, st: Stream, chunks: seq<seq<Byte>>): Stream
    decreases |chunks|
  {
    if chunks == [] then st else FeedAll(h, Feed(h, st, chunks[0]), chunks[1..])
  }

  function Flat(parts: seq<seq<Byte>>): seq<Byte> {
    if parts == [] then [] else parts[0] + Flat(parts[1..])
  }

  lemma {:induction false} DrainSplit(h: Handler, d: seq<Packet>, a: seq<Byte>, b: seq<Byte>)
    ensures Drain(h, d, a + b) == Feed(h, Drain(h, d, a), b)
    decreases |a|
  {
    if |a| >= HEADER_SIZE {
      var n := DeclaredSize(a);
      assert DeclaredSize(a + b) == n;
      if HEADER_SIZE <= n <= |a| {
        assert (a + b)[..n] == a[..n];
        assert (a + b)[n..] == a[n..] + b;
        DrainSplit(h, d + [a[..n]], a[n..], b);
      }
    }
  }

  /** A drained stream is a fixed point: draining it again delivers nothing. */
  lemma {:induction false} DrainIdempotent(h: Handler, d: seq<Packet>, p: seq<Byte>)
    ensures Feed(h, Drain(h, d, p), []) == Drain(h, d, p)
  {
    DrainSplit(h, d, p, []);
    assert p + [] == p;
  }

  /** However the stream is cut into completions, the outcome is that of the whole stream. */
  lemma {:induction false} SplitIndependent(h: Handler, st: Stream, chunks: seq<seq<Byte>>)
    requires Feed(h, st, []) == st
    ensures FeedAll(h, st, chunks) == Feed(h, st, Flat(chunks))
    decreases |chunks|
  {
    if chunks != [] && st.Open? {
      var rest := Flat(chunks[1..]);
      DrainIdempotent(h, st.delivered, st.pending + chunks[0]);
      SplitIndependent(h, Feed(h, st, chunks[0]), chunks[1..]);
      DrainSplit(h, st.delivered, st.pending + chunks[0], rest);
      assert st.pending + (chunks[0] + rest) == (st.pending + chunks[0]) + rest;
    } else if chunks != [] {
      SplitIndependent(h, st, chunks[1..]);
    }
  }

  /** The statement above for a fresh connection. */
  lemma ConnectionSplitIndependent(h: Handler, chunks: seq<seq<Byte>>)
    ensures FeedAll(h, Open([], []), chunks) == Drain(h, [], Flat(chunks))
  {
    SplitIndependent(h, Open([], []), chunks);
    assert [] + Flat(chunks) == Flat(chunks);
  }

  // ----- what a correct cut is, without the loop ------------------------------------

  predicate Framed(p: Packet) {
    |p| >= HEADER_SIZE && DeclaredSize(p) == |p|
  }

  /** No packet can be cut off the front and the front is not malformed. */
  predicate Incomplete(b: seq<Byte>) {
    |b| < HEADER_SIZE || (HEADER_SIZE <= DeclaredSize(b) && |b| < DeclaredSize(b))
  }

  ghost predicate Accepted(h: Handler, base: seq<Packet>, ps: seq<Packet>) {
    forall i | 0 < i <= |ps| :: h(base + ps[..i])
  }

  ghost predicate AllFramed(ps: seq<Packet>) {
    forall i | 0 <= i < |ps| :: Framed(ps[i])
  }

  /** st is the outcome of reading bytes in a stream that has delivered base before. */
  ghost predicate Parsed(h: Handler, base: seq<Packet>, bytes: seq<Byte>, st: Stream) {
    exists ps, rest :: ParsedAs(h, base, bytes, st, ps, rest)
  }

  ghost predicate ParsedAs(h: Handler, base: seq<Packet>, bytes: seq<Byte>, st: Stream,
                           ps: seq<Packet>, rest: seq<Byte>)
  {
    && st.delivered == base + ps
    && bytes == Flat(ps) + rest
    && AllFramed(ps)
    && match st
       case Open(_, pending) => Accepted(h, base, ps) && pending == rest && Incomplete(rest)
       case Closed(_, InvalidSize) => Accepted(h, base, ps) && |rest| >= HEADER_SIZE && DeclaredSize(rest) < HEADER_SIZE
       case Closed(_, Rejected) => ps != [] && Accepted(h, base, ps[..|ps| - 1]) && !h(base + ps)
       case Closed(_, _) => false
  }

  lemma AcceptedCons(h: Handler, base: seq<Packet>, ps: seq<Packet>)
    requires ps != []
    ensures Accepted(h, base, ps) <==> h(base + [ps[0]]) && Accepted(h, base + [ps[0]], ps[1..])
  {
    var base', tail := base + [ps[0]], ps[1..];
    assert forall i | 0 < i <= |tail| :: base' + tail[..i] == base + ps[..i + 1];
    assert ps[..1] == [ps[0]];
    if h(base') && Accepted(h, base', tail) {
      forall i | 0 < i <= |ps| ensures h(base + ps[..i]) {
        assert i > 1 ==> base' + tail[..i - 1] == base + ps[..i];
      }
    }
    if Accepted(h, base, ps) {
      assert h(base + ps[..1]);
      forall i | 0 < i <= |tail| ensures h(base' + tail[..i]) {
        assert h(base + ps[..i + 1]);
      }
    }
  }

  /** The loop finds a correct cut. */
  lemma {:induction false} DrainParses(h: Handler, base: seq<Packet>, bytes: seq<Byte>)
    ensures Parsed(h, base, bytes, Drain(h, base, bytes))
    decreases |bytes|
  {
    var st := Drain(h, base, bytes);
    if Incomplete(bytes) || DeclaredSize(bytes) < HEADER_SIZE {
      assert ParsedAs(h, base, bytes, st, [], bytes);
    } else {
      var n := DeclaredSize(bytes);
      var p := bytes[..n];
      assert Framed(p) && bytes == p + bytes[n..];
      if h(base + [p]) {
        DrainParses(h, base + [p], bytes[n..]);
        var ps, rest :| ParsedAs(h, base + [p], bytes[n..], st, ps, rest);
        ParsedCons(h, base, p, bytes[n..], st, ps, rest);
      } else {
        assert Flat([p]) == p + [];
        var none: seq<Packet> := [p][..0];
        assert none == [];
        assert ParsedAs(h, base, bytes, st, [p], bytes[n..]);
      }
    }
  }

  lemma ParsedCons(h: Handler, base: seq<Packet>, p: Packet, bytes: seq<Byte>, st: Stream,
                   ps: seq<Packet>, rest: seq<Byte>)
    requires ParsedAs(h, base + [p], bytes, st, ps, rest) && Framed(p) && h(base + [p])
    ensures ParsedAs(h, base, p + bytes, st, [p] + ps, rest)
  {
    var all := [p] + ps;
    assert all[1..] == ps && all[0] == p;
    assert base + all == base + [p] + ps;
    AcceptedCons(h, base, all);
    if ps != [] {
      var front := all[..|all| - 1];
      assert front[1..] == ps[..|ps| - 1] && front[0] == p;
      AcceptedCons(h, base, front);
    }
  }

  /** There is only one correct cut. */
  lemma {:induction false} ParseUnique(h: Handler, base: seq<Packet>, bytes: seq<Byte>, st: Stream,
                                       ps: seq<Packet>, rest: seq<Byte>)
    requires ParsedAs(h, base, bytes, st, ps, rest)
    ensures st == Drain(h, base, bytes)
    decreases |ps|
  {
    if ps == [] {
      assert bytes == rest;
    } else {
      var p, tail := ps[0], ps[1..];
      var n := |p|;
      var bytes' := Flat(tail) + rest;
      assert bytes == p + bytes';
      assert DeclaredSize(bytes) == n && bytes[..n] == p && bytes[n..] == bytes';
      assert base + ps == (base + [p]) + tail;
      AcceptedCons(h, base, ps);
      if h(base + [p]) && tail != [] {
        assert ps[..|ps| - 1][1..] == tail[..|tail| - 1] && ps[..|ps| - 1][0] == p;
        AcceptedCons(h, base, ps[..|ps| - 1]);
      }
      if tail == [] {
        assert base + ps == base + [p];
        assert ps[..|ps| - 1] == [];
      }
      if h(base + [p]) {
        assert ParsedAs(h, base + [p], bytes', st, tail, rest);
        ParseUnique(h, base + [p], bytes', st, tail, rest);
      } else {
        assert !Accepted(h, base, ps);
        if tail != [] {
          AcceptedCons(h, base, ps[..|ps| - 1]);
        }
      }
    }
  }

  /** The outcome of a connection is the one correct cut of everything it received. */
  lemma ConnectionParses(h: Handler, chunks: seq<seq<Byte>>, st: Stream)
    ensures FeedAll(h, Open([], []), chunks) == st <==> Parsed(h, [], Flat(chunks), st)
  {
    ConnectionSplitIndependent(h, chunks);
    DrainParses(h, [], Flat(chunks));
    if Parsed(h, [], Flat(chunks), st) {
      var ps, rest :| ParsedAs(h, [], Flat(chunks), st, ps, rest);
      ParseUnique(h, [], Flat(chunks), st, ps, rest);
    }
  }

  /** What stays pending fits the 64 KiB a receive must have room for. */
  lemma {:induction false} LeftoverShort(h: Handler, d: seq<Packet>, p: seq<Byte>)
    ensures var st := Drain(h, d, p);
            st.Open? ==> Incomplete(st.pending) && |st.pending| < 65536 && |st.pending| <= |p|
    decreases |p|
  {
    if |p| >= HEADER_SIZE && HEADER_SIZE <= DeclaredSize(p) <= |p| {
      var n := DeclaredSize(p);
      LeftoverShort(h, d + [p[..n]], p[n..]);
    }
  }
}
