/** The receive half of a session: a cursor buffer and the loop that drains it. */
module RecvSession {
  import opened Basics
  import opened Framing

  const BUFFER_SIZE := 0x10000
  const BUFFER_COUNT := 10

  class RecvBuffer {
    const bufferSize: nat
    const buffer: array<Byte>
    var readPos: nat
    var writePos: nat

    ghost predicate Valid()
      reads this
    {
      && bufferSize > 0
      && buffer.Length == bufferSize * BUFFER_COUNT
      && readPos <= writePos <= buffer.Length
    }

    /** The bytes received and not yet read. */
    ghost function Pending(): seq<Byte>
      requires Valid()
      reads this, buffer
    {
      buffer[readPos..writePos]
    }

    constructor (size: nat)
      requires size > 0
      ensures Valid() && bufferSize == size && Pending() == [] && fresh(buffer)
      ensures FreeSize() == size * BUFFER_COUNT
    {
      bufferSize := size;
      buffer := new Byte[size * BUFFER_COUNT];
      readPos, writePos := 0, 0;
    }

    function DataSize(): nat
      requires Valid()
      reads this
    {
      writePos - readPos
    }

    function FreeSize(): nat
      requires Valid()
      reads this
    {
      buffer.Length - writePos
    }

    /** memcpy to the front of the buffer: the two ranges must not overlap. */
    method CopyToFront(from: nat, count: nat)
      requires from + count <= buffer.Length && count <= from
      modifies buffer
      ensures buffer[..count] == old(buffer[from..from + count])
    {
      for i := 0 to count
        invariant buffer[..i] == old(buffer[from..from + i])
        invariant buffer[from..from + count] == old(buffer[from..from + count])
      {
        assert buffer[from + i] == buffer[from..from + count][i];
        assert old(buffer[from..from + count])[i] == old(buffer[from + i]);
        buffer[i] := buffer[from + i];
      }
    }

    /**
     * Keeps the pending bytes; if less than one buffer of them is left, a whole buffer becomes free.
     * The precondition is that of memcpy, whose ranges must not overlap.
     */
    method Clean()
      requires Valid()
      requires DataSize() > 0 && FreeSize() < bufferSize ==> DataSize() <= readPos
      modifies `readPos, `writePos, buffer
      ensures Valid() && Pending() == old(Pending())
      ensures old(DataSize()) < bufferSize ==> FreeSize() >= bufferSize
    {
      var dataSize := DataSize();
      if dataSize == 0 {
        readPos, writePos := 0, 0;
      } else if FreeSize() < bufferSize {
        CopyToFront(readPos, dataSize);
        readPos, writePos := 0, dataSize;
      }
    }

    method OnRead(n: nat) returns (ok: bool)
      requires Valid()
      modifies `readPos
      ensures Valid() && ok == (n <= old(|Pending()|)) && (ok ==> readPos == old(readPos) + n)
      ensures Pending() == if ok then old(Pending()[n..]) else old(Pending())
    {
      if n > DataSize() {
        return false;
      }
      readPos := readPos + n;
      return true;
    }

    method OnWrite(n: nat) returns (ok: bool)
      requires Valid()
      modifies `writePos
      ensures Valid() && ok == (n <= old(FreeSize()))
      ensures Pending() == if ok then old(Pending() + buffer[writePos..writePos + n]) else old(Pending())
    {
      if n > FreeSize() {
        return false;
      }
      writePos := writePos + n;
      return true;
    }
  }

  class Session {
    const handler: Handler
    const recvBuffer: RecvBuffer
    var connected: bool
    var cause: Cause
    /** The packets handed to OnRecv, oldest first. */
    var delivered: seq<Packet>

    ghost predicate Valid()
      reads this, recvBuffer
    {
      recvBuffer.Valid() && recvBuffer.bufferSize == BUFFER_SIZE
    }

    /** A posted receive has room for a whole buffer. */
    ghost predicate Receiving()
      requires Valid()
      reads this, recvBuffer
    {
      connected ==> recvBuffer.FreeSize() >= BUFFER_SIZE
    }

    ghost function View(): Stream
      requires Valid()
      reads this, recvBuffer, recvBuffer.buffer
    {
      if connected then Open(delivered, recvBuffer.Pending()) else Closed(delivered, cause)
    }

    constructor (h: Handler)
      ensures Valid() && fresh(recvBuffer) && fresh(recvBuffer.buffer)
      ensures handler == h && View() == Open([], []) && Receiving()
    {
      handler := h;
      recvBuffer := new RecvBuffer(BUFFER_SIZE);
      connected, delivered, cause := true, [], RecvZero;
    }

    method Disconnect(why: Cause)
      modifies `connected, `cause
      ensures !connected && (old(connected) ==> cause == why) && (!old(connected) ==> cause == old(cause))
    {
      if !connected {
        return;
      }
      connected, cause := false, why;
    }

    /** The outcome of a drain; stop is None if the loop ran out of whole packets. */
    ghost function Outcome(stop: Option<Cause>): Stream
      requires Valid()
      reads this, recvBuffer, recvBuffer.buffer
    {
      if stop.None? then Open(delivered, recvBuffer.Pending()) else Closed(delivered, stop.value)
    }

    /**
     * One turn of the loop of ProcessRecv; more says whether the loop goes on, stop why the
     * session is to be closed.  Every packet it takes is at least a header long.
     */
    method TakePacket() returns (more: bool, stop: Option<Cause>)
      requires Valid()
      modifies `delivered, recvBuffer`readPos
      ensures Valid() && (more ==> recvBuffer.readPos >= old(recvBuffer.readPos) + HEADER_SIZE)
      ensures (if more then Drain(handler, delivered, recvBuffer.Pending()) else Outcome(stop))
           == Drain(handler, old(delivered), old(recvBuffer.Pending()))
    {
      ghost var pending := recvBuffer.Pending();
      if recvBuffer.DataSize() < HEADER_SIZE {
        return false, None;
      }
      var head := recvBuffer.buffer[recvBuffer.readPos..recvBuffer.readPos + HEADER_SIZE];
      assert head == pending[..HEADER_SIZE];
      var dataSize := DeclaredSize(head);
      assert dataSize == DeclaredSize(pending);
      if dataSize < HEADER_SIZE {
        return false, Some(InvalidSize);
      }
      if recvBuffer.DataSize() < dataSize {
        return false, None;
      }
      var packet := recvBuffer.buffer[recvBuffer.readPos..recvBuffer.readPos + dataSize];
      assert packet == pending[..dataSize];
      delivered := delivered + [packet];
      if !handler(delivered) {
        return false, Some(Rejected);
      }
      var ok := recvBuffer.OnRead(dataSize);
      assert ok;  // so the "OnRead Overflow" branch is dead
      return true, None;
    }

    /** The loop of ProcessRecv. */
    method DrainBuffer() returns (stop: Option<Cause>)
      requires Valid()
      modifies `delivered, recvBuffer`readPos
      ensures Valid() && Outcome(stop) == Drain(handler, old(delivered), old(recvBuffer.Pending()))
    {
      var more := true;
      stop := None;
      while more
        invariant Valid()
        invariant (if more then Drain(handler, delivered, recvBuffer.Pending()) else Outcome(stop))
               == Drain(handler, old(delivered), old(recvBuffer.Pending()))
        decreases more, recvBuffer.DataSize()
      {
        more, stop := TakePacket();
      }
    }

    /**
     * A receive completion: the system has put n bytes behind the write cursor.
     * A completion that fits the posted buffer never overflows it, and afterwards a whole buffer is
     * free again.  On a session that was closed meanwhile the packets are still handed on.
     */
    method ProcessRecv(n: nat)
      requires Valid()
      modifies this, recvBuffer, recvBuffer.buffer
      ensures Valid() && Receiving()
      ensures !old(connected) ==> !connected && cause == old(cause)
      ensures n == 0 || n > old(recvBuffer.FreeSize()) ==>
                !connected && delivered == old(delivered) && (old(connected) ==> cause == if n == 0 then RecvZero else WriteOverflow)
      ensures 0 < n <= old(recvBuffer.FreeSize()) ==>
                var bytes := old(recvBuffer.buffer[recvBuffer.writePos..recvBuffer.writePos + n]);
                var whole := Drain(handler, old(delivered), old(recvBuffer.Pending()) + bytes);
                delivered == whole.delivered && (old(connected) ==> View() == whole == Feed(handler, old(View()), bytes))
    {
      if n == 0 {
        Disconnect(RecvZero);
        return;
      }
      var ok := recvBuffer.OnWrite(n);
      if !ok {
        Disconnect(WriteOverflow);
        return;
      }
      ghost var pending := recvBuffer.Pending();
      var stop := DrainBuffer();
      LeftoverShort(handler, old(delivered), pending);
      if stop.Some? {
        Disconnect(stop.value);
        return;
      }
      recvBuffer.Clean();
    }
  }
}
