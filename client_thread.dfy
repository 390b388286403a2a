/**
 * The per-connection pump of the collector: a fixed byte buffer that a loop
 * fills from the router's socket and drains, in blocks of at most 8192
 * bytes, into the pipe the BMP reader thread consumes; and the `closing`
 * guard that makes connection teardown run once.
 *
 * The cursor arithmetic is stated on the value `Cursors` by pure functions
 * and lemmas; the class `SocketBuffer` holds the buffer and cursors and its
 * methods are proved against them.
 */
module ClientThread {

  newtype byte = x: int | 0 <= x < 256

  /** CLIENT_WRITE_BUFFER_BLOCK_SIZE: the most bytes handed to the reader pipe per write. */
  const BlockSize: nat := 8192

  function Min(a: int, b: int): int {
    if a < b then a else b
  }

  /** `write_buf_pos`, `read_buf_pos` and `wrap_state` of the pump loop. */
  datatype Cursors = Cursors(writePos: int, readPos: int, wrapped: bool)

  /** What the loop keeps true of the cursors of a buffer of `size` bytes:
      both lie in [0, size]; unwrapped, the reader trails the writer; wrapped,
      the writer trails the reader and has not reached the end of the buffer. */
  predicate CursorInv(size: nat, c: Cursors) {
    && 0 <= c.writePos <= size
    && 0 <= c.readPos <= size
    && (if c.wrapped then c.writePos <= c.readPos && (c.writePos < size || size == 0)
        else c.readPos <= c.writePos)
  }

  /** Number of bytes buffered and not yet handed to the reader. */
  function Buffered(size: nat, c: Cursors): (n: int)
    requires CursorInv(size, c)
    ensures 0 <= n <= size
  {
    if c.wrapped then size - c.readPos + c.writePos else c.writePos - c.readPos
  }

  /** The guard of the fill phase: there is contiguous free space after the write cursor. */
  predicate CanFill(size: nat, c: Cursors) {
    (c.wrapped && c.writePos + 1 < c.readPos) || (!c.wrapped && c.writePos < size)
  }

  /** The length the fill phase asks `read` for. */
  function FillSpan(size: nat, c: Cursors): (n: int)
    requires CursorInv(size, c) && CanFill(size, c)
    ensures 0 < n <= size - Buffered(size, c)
    ensures c.writePos + n <= size
    ensures c.wrapped ==> c.writePos + n < c.readPos
  {
    if !c.wrapped then size - c.writePos else c.readPos - c.writePos - 1
  }

  /** The guard of the drain phase: there are unread bytes before the end of the buffer. */
  predicate CanDrain(size: nat, c: Cursors) {
    (!c.wrapped && c.readPos < c.writePos) || (c.wrapped && c.readPos < size)
  }

  /** The length the drain phase hands to `write`. */
  function DrainLimit(size: nat, c: Cursors): (n: int)
    requires CursorInv(size, c) && CanDrain(size, c)
    ensures 0 < n <= BlockSize
    ensures n <= Buffered(size, c)
    ensures c.readPos + n <= size
    ensures n == BlockSize || c.readPos + n == (if c.wrapped then size else c.writePos)
  {
    var avail := if !c.wrapped then c.writePos - c.readPos else size - c.readPos;
    if avail > BlockSize then BlockSize else avail
  }

  /** A read-cursor wrap keeps the buffered bytes only if the reader is not
      sitting at the end of an unwrapped, non-empty buffer. */
  predicate ReadWrapSafe(size: nat, c: Cursors) {
    c.wrapped || c.readPos < size || size == 0
  }

  /** The buffered bytes, oldest first, as they lie in `buf`. */
  function Live(buf: seq<byte>, c: Cursors): (q: seq<byte>)
    requires CursorInv(|buf|, c)
    ensures |q| == Buffered(|buf|, c)
  {
    if c.wrapped then buf[c.readPos..] + buf[..c.writePos] else buf[c.readPos..c.writePos]
  }

  /** `buf` after `read` has placed `bytes` at position `at`. */
  function Overwrite(buf: seq<byte>, at: nat, bytes: seq<byte>): (r: seq<byte>)
    requires at + |bytes| <= |buf|
    ensures |r| == |buf|
  {
    buf[..at] + bytes + buf[at + |bytes|..]
  }

  /** A fill within the span appends exactly the bytes read to the queue,
      keeps the invariant, and never lets a wrapped writer reach the reader. */
  lemma {:induction false} FillAppends(buf: seq<byte>, c: Cursors, bytes: seq<byte>)
    requires CursorInv(|buf|, c) && CanFill(|buf|, c)
    requires 0 < |bytes| <= FillSpan(|buf|, c)
    ensures CursorInv(|buf|, c.(writePos := c.writePos + |bytes|))
    ensures c.wrapped ==> c.writePos + |bytes| < c.readPos
    ensures Buffered(|buf|, c.(writePos := c.writePos + |bytes|)) == Buffered(|buf|, c) + |bytes|
    ensures Live(Overwrite(buf, c.writePos, bytes), c.(writePos := c.writePos + |bytes|))
         == Live(buf, c) + bytes
  {
    var w, r, n := c.writePos, c.readPos, |bytes|;
    var b := Overwrite(buf, w, bytes);
    var c' := c.(writePos := w + n);
    assert b[w..w + n] == bytes;
    assert b[..w] == buf[..w];
    if c.wrapped {
      assert b[r..] == buf[r..];
      assert b[..w + n] == buf[..w] + bytes;
      assert Live(b, c') == buf[r..] + (buf[..w] + bytes);
    } else {
      assert b[r..w] == buf[r..w];
      assert b[r..w + n] == b[r..w] + b[w..w + n];
    }
  }

  /** A drain within the limit hands out the oldest bytes of the queue and
      leaves the rest, in order. */
  lemma {:induction false} DrainTakesOldest(buf: seq<byte>, c: Cursors, n: int)
    requires CursorInv(|buf|, c) && CanDrain(|buf|, c)
    requires 0 < n <= DrainLimit(|buf|, c)
    ensures CursorInv(|buf|, c.(readPos := c.readPos + n))
    ensures Buffered(|buf|, c.(readPos := c.readPos + n)) == Buffered(|buf|, c) - n
    ensures buf[c.readPos..c.readPos + n] == Live(buf, c)[..n]
    ensures Live(buf, c.(readPos := c.readPos + n)) == Live(buf, c)[n..]
  {
    var r := c.readPos;
    if c.wrapped {
      assert buf[r..] == buf[r..r + n] + buf[r + n..];
      assert Live(buf, c) == buf[r..r + n] + (buf[r + n..] + buf[..c.writePos]);
    } else {
      assert buf[r..c.writePos] == buf[r..r + n] + buf[r + n..c.writePos];
    }
  }

  /** Wrapping the write cursor (no fill possible, writer at the end) keeps the queue. */
  lemma {:induction false} WriteWrapKeeps(buf: seq<byte>, c: Cursors)
    requires CursorInv(|buf|, c) && !CanFill(|buf|, c) && c.writePos >= |buf|
    ensures CursorInv(|buf|, Cursors(0, c.readPos, true))
    ensures Live(buf, Cursors(0, c.readPos, true)) == Live(buf, c)
  {
    assert buf[..0] == [];
    if c.wrapped {
      assert buf[c.readPos..] == [];
    } else {
      assert buf[c.readPos..] + buf[..0] == buf[c.readPos..c.writePos];
    }
  }

  /** Wrapping the read cursor (no drain possible, reader at the end) keeps the
      queue, provided the reader is not at the end of an unwrapped buffer. */
  lemma {:induction false} ReadWrapKeeps(buf: seq<byte>, c: Cursors)
    requires CursorInv(|buf|, c) && !CanDrain(|buf|, c) && c.readPos >= |buf|
    requires ReadWrapSafe(|buf|, c)
    ensures CursorInv(|buf|, Cursors(c.writePos, 0, false))
    ensures Live(buf, Cursors(c.writePos, 0, false)) == Live(buf, c)
  {
    if c.wrapped {
      assert buf[c.readPos..] == [];
      assert buf[0..c.writePos] == buf[..c.writePos];
    }
  }

  /** Without the fill phase running first, a read wrap at the end of a
      drained, unwrapped buffer would turn stale bytes into queued ones. */
  lemma UnguardedReadWrapResurrects(buf: seq<byte>)
    requires |buf| > 0
    ensures CursorInv(|buf|, Cursors(|buf|, |buf|, false))
    ensures !CanDrain(|buf|, Cursors(|buf|, |buf|, false))
    ensures !ReadWrapSafe(|buf|, Cursors(|buf|, |buf|, false))
    ensures Live(buf, Cursors(|buf|, |buf|, false)) == []
    ensures Live(buf, Cursors(|buf|, 0, false)) == buf
  {
  }

  /** The unwrapped buffer holds all `size` bytes at once, not `size - 1`. */
  lemma FullBufferHoldsSize(size: nat)
    ensures CursorInv(size, Cursors(size, 0, false))
    ensures Buffered(size, Cursors(size, 0, false)) == size
    ensures !CanFill(size, Cursors(size, 0, false))
  {
  }

  /** What `poll` and `read` report on the router's socket in one fill phase:
      nothing within the timeout, POLLHUP/POLLERR, or readable, in which case
      `read` returns the first of the `offered` bytes, up to the length asked
      for (none: end of stream or a failed read). */
  datatype SocketEvent = SocketIdle | SocketHangup | SocketReadable(offered: seq<byte>)

  /** What `poll` and `write` report on the reader pipe in one drain phase:
      nothing within the timeout, POLLHUP/POLLERR, or writable, in which case
      `write` accepts at most `room` bytes of those offered (0 covers a failed write). */
  datatype PipeEvent = PipeIdle | PipeHangup | PipeWritable(room: nat)

  /** One turn of the `while (bmp_run)` loop, or a cancellation of the thread
      while the router socket descriptor is `clientSock`. */
  datatype Tick = Poll(socket: SocketEvent, pipe: PipeEvent) | CancelRequest(clientSock: int)

  /** The buffer `sock_buf` with its cursors, and the descriptors the loop closes. */
  class SocketBuffer {
    const size: nat
    const data: array<byte>
    var writePos: int
    var readPos: int
    var wrapped: bool
    var running: bool      // bmp_run
    var socketOpen: bool   // the client socket
    var pipeOpen: bool     // both ends of the socket pair to the reader
    ghost var Contents: seq<byte>

    function Pos(): Cursors
      reads this
    {
      Cursors(writePos, readPos, wrapped)
    }

    ghost predicate Valid()
      reads this, data
    {
      && data.Length == size
      && CursorInv(size, Pos())
      && Contents == Live(data[..], Pos())
    }

    constructor (bufferSize: nat)
      ensures Valid() && fresh(data) && size == bufferSize
      ensures Pos() == Cursors(0, 0, false) && Contents == []
      ensures running && socketOpen && pipeOpen
    {
      size := bufferSize;
      data := new byte[bufferSize];
      writePos, readPos, wrapped := 0, 0, false;
      running, socketOpen, pipeOpen := true, true, true;
      Contents := [];
    }

    /** Closes both pipe ends and the client socket and stops the loop. */
    method Close()
      modifies this
      ensures !running && !socketOpen && !pipeOpen
      ensures Pos() == old(Pos()) && Contents == old(Contents)
    {
      running, socketOpen, pipeOpen := false, false, false;
    }

    /** `read` placed `bytes` at the write cursor; the cursor advances past them. */
    method Store(bytes: seq<byte>)
      requires Valid() && CanFill(size, Pos()) && 0 < |bytes| <= FillSpan(size, Pos())
      modifies this, data
      ensures Valid()
      ensures Pos() == old(Pos()).(writePos := old(writePos) + |bytes|)
      ensures Contents == old(Contents) + bytes
      ensures running == old(running) && socketOpen == old(socketOpen) && pipeOpen == old(pipeOpen)
    {
      ghost var before := data[..];
      forall i | 0 <= i < |bytes| {
        data[writePos + i] := bytes[i];
      }
      assert data[..] == Overwrite(before, writePos, bytes);
      FillAppends(before, Pos(), bytes);
      writePos := writePos + |bytes|;
      Contents := Contents + bytes;
    }

    /** `write` took `n` bytes from the read cursor; the cursor advances past them. */
    method Take(n: int) returns (sent: seq<byte>)
      requires Valid() && CanDrain(size, Pos()) && 0 < n <= DrainLimit(size, Pos())
      modifies this
      ensures Valid()
      ensures sent == old(Contents)[..n] && Contents == old(Contents)[n..]
      ensures Pos() == old(Pos()).(readPos := old(readPos) + n)
      ensures running == old(running) && socketOpen == old(socketOpen) && pipeOpen == old(pipeOpen)
    {
      DrainTakesOldest(data[..], Pos(), n);
      sent := data[readPos..readPos + n];
      readPos := readPos + n;
      Contents := Contents[n..];
    }

    /** The write cursor reached the end of the buffer: it restarts at 0 and the buffer is wrapped. */
    method WrapWrite()
      requires Valid() && !CanFill(size, Pos()) && writePos >= size
      modifies this
      ensures Valid()
      ensures Pos() == Cursors(0, old(readPos), true) && Contents == old(Contents)
      ensures running == old(running) && socketOpen == old(socketOpen) && pipeOpen == old(pipeOpen)
    {
      WriteWrapKeeps(data[..], Pos());
      writePos, wrapped := 0, true;
    }

    /** The read cursor reached the end of the buffer: it restarts at 0 and the wrap is cleared. */
    method WrapRead()
      requires Valid() && !CanDrain(size, Pos()) && readPos >= size
      requires ReadWrapSafe(size, Pos())
      modifies this
      ensures Valid()
      ensures Pos() == Cursors(old(writePos), 0, false) && Contents == old(Contents)
      ensures running == old(running) && socketOpen == old(socketOpen) && pipeOpen == old(pipeOpen)
    {
      ReadWrapKeeps(data[..], Pos());
      readPos, wrapped := 0, false;
    }

    /** The first half of a loop turn: read from the socket if there is
        contiguous space, otherwise wrap the write cursor if it is at the end. */
    method FillPhase(ev: SocketEvent) returns (got: seq<byte>)
      requires Valid() && running
      modifies this, data
      ensures Valid()
      ensures Contents == old(Contents) + got
      ensures !CanFill(size, old(Pos())) ==>
        && got == [] && running
        && Pos() == (if old(writePos) >= size then Cursors(0, old(readPos), true) else old(Pos()))
      ensures CanFill(size, old(Pos())) && ev.SocketIdle? ==>
        got == [] && running && Pos() == old(Pos())
      ensures CanFill(size, old(Pos())) && ev.SocketHangup? ==>
        got == [] && !running && Pos() == old(Pos())
      ensures CanFill(size, old(Pos())) && ev.SocketReadable? ==>
        && got == ev.offered[..Min(|ev.offered|, FillSpan(size, old(Pos())))]
        && (running <==> got != [])
        && Pos() == old(Pos()).(writePos := old(writePos) + |got|)
      ensures running ==> socketOpen == old(socketOpen) && pipeOpen == old(pipeOpen)
      ensures !running ==> !socketOpen && !pipeOpen
      ensures running ==> ReadWrapSafe(size, Pos())
    {
      got := [];
      if CanFill(size, Pos()) {
        match ev
        case SocketIdle =>
        case SocketHangup =>
          Close();
        case SocketReadable(offered) =>
          var bytesRead := Min(|offered|, FillSpan(size, Pos()));
          if bytesRead <= 0 {
            Close();
          } else {
            got := offered[..bytesRead];
            Store(got);
          }
      } else if writePos >= size {
        WrapWrite();
      }
    }

    /** The second half of a loop turn: hand buffered bytes to the reader pipe
        if there are any before the end, otherwise wrap the read cursor if it is at the end. */
    method DrainPhase(ev: PipeEvent) returns (sent: seq<byte>)
      requires Valid() && running && ReadWrapSafe(size, Pos())
      modifies this
      ensures Valid()
      ensures old(Contents) == sent + Contents
      ensures !CanDrain(size, old(Pos())) ==>
        && sent == [] && running
        && Pos() == (if old(readPos) >= size then Cursors(old(writePos), 0, false) else old(Pos()))
      ensures CanDrain(size, old(Pos())) && ev.PipeIdle? ==>
        sent == [] && running && Pos() == old(Pos())
      ensures CanDrain(size, old(Pos())) && ev.PipeHangup? ==>
        sent == [] && !running && Pos() == old(Pos())
      ensures CanDrain(size, old(Pos())) && ev.PipeWritable? ==>
        && |sent| == Min(ev.room, DrainLimit(size, old(Pos())))
        && running
        && Pos() == old(Pos()).(readPos := old(readPos) + |sent|)
      ensures running ==> socketOpen == old(socketOpen) && pipeOpen == old(pipeOpen)
      ensures !running ==> !socketOpen && !pipeOpen
    {
      sent := [];
      if CanDrain(size, Pos()) {
        match ev
        case PipeIdle =>
        case PipeHangup =>
          Close();
        case PipeWritable(room) =>
          var bytesWritten := Min(room, DrainLimit(size, Pos()));
          if bytesWritten > 0 {
            sent := Take(bytesWritten);
          }
      } else if readPos >= size {
        WrapRead();
      }
    }

    /** One turn of the `while (bmp_run)` loop: the fill phase, then, unless
        it closed the connection, the drain phase. */
    method Turn(socketEvent: SocketEvent, pipeEvent: PipeEvent) returns (got: seq<byte>, sent: seq<byte>)
      requires Valid() && running
      modifies this, data
      ensures Valid()
      ensures old(Contents) + got == sent + Contents
      ensures !running ==> !socketOpen && !pipeOpen
      ensures running ==> socketOpen == old(socketOpen) && pipeOpen == old(pipeOpen)
    {
      got := FillPhase(socketEvent);
      sent := [];
      if running {
        sent := DrainPhase(pipeEvent);
      }
    }
  }

  /** `bmp_reader_thread`: not yet assigned (it is not initialised before the
      reader thread is created), a running thread, or released and NULL. */
  datatype ReaderPointer = Unset | Running | Null

  /** The teardown state of a connection thread (`ClientThreadInfo`). The
      descriptors it closes are the `socketOpen` and `pipeOpen` flags of the
      connection's `SocketBuffer`. */
  class ClientThreadInfo {
    var closing: bool
    var reader: ReaderPointer
    var readerJoined: bool
    var threadRunning: bool    // ThreadMgmt::running
    ghost var teardowns: nat   // how many times a teardown path has run

    ghost predicate Valid()
      reads this
    {
      teardowns == (if closing then 1 else 0)
    }

    constructor ()
      ensures Valid() && !closing && teardowns == 0
      ensures reader == Unset && !readerJoined && threadRunning
    {
      closing := false;
      reader, readerJoined, threadRunning := Unset, false, true;
      teardowns := 0;
    }

    /** The reader thread is created and its pointer stored. */
    method AttachReader()
      requires reader == Unset
      modifies this
      ensures reader == Running
      ensures closing == old(closing) && readerJoined == old(readerJoined)
      ensures threadRunning == old(threadRunning) && teardowns == old(teardowns)
    {
      reader := Running;
    }

    /** ClientThread_cancel: the cleanup handler run when the thread is
        cancelled. `clientSock` is the router socket descriptor at that
        moment; it is 0 once DisconnectBMP has closed the socket. */
    method Cancel(buf: SocketBuffer, clientSock: int)
      requires Valid()
      requires !closing ==> reader != Unset
      modifies this, buf
      ensures Valid() && closing && teardowns == 1
      ensures teardowns == old(teardowns) + (if old(closing) then 0 else 1)
      ensures threadRunning == old(threadRunning)
      ensures buf.running == old(buf.running) && buf.Pos() == old(buf.Pos()) && buf.Contents == old(buf.Contents)
      ensures old(closing) ==>
        && reader == old(reader) && readerJoined == old(readerJoined)
        && buf.socketOpen == old(buf.socketOpen) && buf.pipeOpen == old(buf.pipeOpen)
      ensures !old(closing) ==>
        && !buf.pipeOpen
        && buf.socketOpen == (old(buf.socketOpen) && clientSock == 0)
        && reader == Null
        && readerJoined == (old(readerJoined) || old(reader) == Running)
    {
      if !closing {
        closing := true;
        teardowns := teardowns + 1;
        if clientSock != 0 {
          buf.socketOpen := false;
        }
        buf.pipeOpen := false;
        if reader == Running {
          readerJoined := true;
        }
        reader := Null;
      }
    }

    /** The end of ClientThread: mark the thread stopped, then join and
        release the reader thread unless the cancel path already did. */
    method Finish()
      requires Valid()
      requires !closing ==> reader != Unset
      modifies this
      ensures Valid() && closing && teardowns == 1 && !threadRunning
      ensures teardowns == old(teardowns) + (if old(closing) then 0 else 1)
      ensures old(closing) ==> reader == old(reader) && readerJoined == old(readerJoined)
      ensures !old(closing) ==>
        reader == Null && readerJoined == (old(readerJoined) || old(reader) == Running)
    {
      threadRunning := false;
      if !closing {
        closing := true;
        teardowns := teardowns + 1;
        if reader == Running {
          readerJoined := true;
        }
        reader := Null;
      }
    }
  }

  /** The body of ClientThread: pump the socket through a buffer of
      `bufferSize` bytes into the reader pipe for as many loop turns as
      `ticks` describes, then tear down. `bmp_run` is shared with the reader
      thread, which may clear it between turns: the end of `ticks` also
      stands for that stop, which closes nothing. `received` is every byte
      read from the socket, `delivered` every byte written to the pipe, in order. */
  method RunClientThread(bufferSize: nat, ticks: seq<Tick>)
    returns (received: seq<byte>, delivered: seq<byte>, cancelled: bool, ghost teardowns: nat)
    ensures delivered <= received
    ensures |received| - |delivered| <= bufferSize
    ensures teardowns == 1
  {
    var info := new ClientThreadInfo();
    info.AttachReader();
    var buf := new SocketBuffer(bufferSize);
    received, delivered, cancelled := [], [], false;
    var i := 0;
    while i < |ticks| && buf.running
      invariant 0 <= i <= |ticks|
      invariant buf.Valid() && buf.size == bufferSize
      invariant received == delivered + buf.Contents
      invariant info.Valid() && !info.closing && info.reader == Running
    {
      match ticks[i]
      case CancelRequest(clientSock) =>
        info.Cancel(buf, clientSock);
        cancelled := true;
        break;
      case Poll(socketEvent, pipeEvent) =>
        ghost var queued := buf.Contents;
        var got, sent := buf.Turn(socketEvent, pipeEvent);
        assert received + got == delivered + (queued + got);
        received := received + got;
        delivered := delivered + sent;
        i := i + 1;
    }
    if !cancelled {
      info.Finish();
    }
    teardowns := info.teardowns;
  }
}
