/** The TCP connection class, its output side proved against the steps in Output. */
module TcpConnectionModule {
  import opened Bytes
  import opened BufferModule
  import opened Output

  const MIN_WRITABLE_SIZE: nat := 512
  const READ_BUFFER_SIZE: nat := 4096

  class TcpConnection {
    const buf: Buffer
    const outputBuf: Buffer
    var state: Output.State
    var isLastWrite: bool
    var lastWrite: nat
    var bytesRead: nat
    var bytesWritten: nat
    // libuv's side: the writes handed over, oldest first, and the bytes of those that completed.
    ghost var pending: seq<seq<byte>>
    ghost var done: seq<byte>
    ghost var closes: nat

    ghost predicate Valid()
      reads this, buf, outputBuf
    {
      buf != outputBuf && buf.Valid() && outputBuf.Valid()
    }

    ghost function Abs(): Conn
      requires Valid()
      reads this, buf, outputBuf
    {
      Conn(state, outputBuf.View(), isLastWrite, lastWrite, bytesWritten, pending, done, closes)
    }

    /** `lastWrite_` is left uninitialised by the code: it starts as anything. */
    constructor (lastWrite: nat)
      ensures Valid() && fresh(buf) && fresh(outputBuf) && buf.View() == [] && bytesRead == 0
      ensures Abs() == Conn(Connecting, [], false, lastWrite, 0, [], [], 0)
    {
      buf := new Buffer(READ_BUFFER_SIZE);
      outputBuf := new Buffer(INITIAL_SIZE);
      state, isLastWrite, this.lastWrite, bytesRead, bytesWritten := Connecting, false, lastWrite, 0, 0;
      pending, done, closes := [], [], 0;
    }

    method ConnectionEstablished()
      requires Valid()
      modifies this`state
      ensures Valid() && Abs() == old(Abs()).(state := Connected)
    {
      state := Connected;
    }

    /** `send(const char*, size_t)`; libuv takes the bytes as they are now. */
    method Send(bytes: seq<byte>)
      requires Valid() && (state == Writing || state == Connected)
      modifies this`state, this`lastWrite, this`pending, outputBuf
      ensures Valid() && Abs() == Output.Send(old(Abs()), bytes)
    {
      if state == Writing {
        outputBuf.Write(bytes);
        return;
      }
      lastWrite := |bytes|;
      state := Writing;
      pending := pending + [bytes];
    }

    /** `send(Buffer&)`. */
    method SendBuffer(src: Buffer)
      requires Valid() && src.Valid() && src != buf && src != outputBuf
      requires state == Writing || state == Connected
      modifies this`state, this`lastWrite, this`pending, outputBuf, src`readIndex
      ensures Valid() && src.Valid() && src.View() == []
      ensures Abs() == Output.Send(old(Abs()), old(src.View()))
    {
      var readable := src.ReadableBytes();
      Send(src.View());
      src.Retrieve(readable);
    }

    /** `send(Buffer&, String&&)`. */
    method SendTwo(header: Buffer, body: seq<byte>)
      requires Valid() && header.Valid() && header != buf && header != outputBuf
      modifies this`pending, outputBuf, header`readIndex
      ensures Valid() && header.Valid() && header.View() == []
      ensures Abs() == Output.SendTwo(old(Abs()), old(header.View()), body)
    {
      if state == Writing {
        outputBuf.WriteFrom(header, header.ReadableBytes());
        outputBuf.Write(body);
        return;
      }
      pending := pending + [header.View() + body];
      header.Retrieve(header.ReadableBytes());
    }

    /** `handleClose`, which `close` calls. */
    method HandleClose()
      requires Valid() && (state == Writing || state == Connected || state == Connecting)
      modifies this`state, this`closes
      ensures Valid() && Abs() == Output.HandleClose(old(Abs()))
    {
      if state == Writing {
        state := Disconnecting;
        return;
      }
      state := Disconnected;
      closes := closes + 1;
    }

    /** `handleWrite(lastWrite())` and `resetLastWrite()`, as libuv reports the oldest write complete. */
    method HandleWrite()
      requires Valid() && pending != []
      modifies this`done, this`pending, this`bytesWritten, this`lastWrite
      ensures Valid()
      ensures var c := old(Abs()); Abs() == c.(done := c.done + c.pending[0], pending := c.pending[1..],
        bytesWritten := c.bytesWritten + c.lastWrite, lastWrite := 0)
    {
      done, pending := done + pending[0], pending[1..];
      bytesWritten := bytesWritten + lastWrite;
      lastWrite := 0;
    }

    /** The completion callback of the oldest write. */
    method OnWriteComplete()
      requires Valid() && pending != []
      modifies this, outputBuf
      ensures Valid() && Abs() == Output.Complete(old(Abs())) && bytesRead == old(bytesRead)
    {
      HandleWrite();
      if isLastWrite {
        state := Connected;
        HandleClose();
        isLastWrite := false;
        return;
      }
      if state == Disconnecting {
        state := Connected;
        if outputBuf.ReadableBytes() > 0 {
          isLastWrite := true;
        } else {
          HandleClose();
          return;
        }
      }
      state := Connected;
      SendQueued();
    }

    method SendQueued()
      requires Valid() && state == Connected
      modifies this`state, this`lastWrite, this`pending, outputBuf
      ensures Valid()
      ensures Abs() == if old(outputBuf.View()) == [] then old(Abs()) else Output.Send(old(Abs()), old(outputBuf.View())).(out := [])
    {
      if outputBuf.ReadableBytes() > 0 {
        Send(outputBuf.View());
        outputBuf.Retrieve(outputBuf.ReadableBytes());
      }
    }

    /** `on_uv_alloc`: how many bytes libuv may place at `writeStart()`. */
    method OnAlloc() returns (len: nat)
      requires Valid()
      modifies buf
      ensures Valid() && Abs() == old(Abs())
      ensures MIN_WRITABLE_SIZE <= len <= buf.Remaining() && buf.View() == old(buf.View())
    {
      len := buf.EnsureSpace(MIN_WRITABLE_SIZE);
    }

    /** `on_uv_read` for `nread > 0` bytes that libuv placed behind the write index. */
    method OnRead(nread: nat)
      requires Valid() && 0 < nread <= buf.Remaining()
      modifies this`bytesRead, buf
      ensures Valid() && Abs() == old(Abs()) && bytesRead == old(bytesRead) + nread
      ensures buf.View() == old(buf.View()) + old(buf.buf[buf.writeIndex..buf.writeIndex + nread])
    {
      buf.UpdateWriteIndex(nread);
      bytesRead := bytesRead + nread;
    }

    /** A whole read: bytes that libuv fits into the offered space become readable behind the rest. */
    method ReadCycle(data: seq<byte>) returns (len: nat)
      requires Valid() && 0 < |data|
      modifies this`bytesRead, buf
      ensures Valid() && Abs() == old(Abs()) && MIN_WRITABLE_SIZE <= len
      ensures buf.View() == old(buf.View()) + if |data| <= len then data else data[..len]
    {
      len := OnAlloc();
      var placed := if |data| <= len then data else data[..len];
      buf.PlaceAtWriteStart(placed);
      OnRead(|placed|);
    }
  }
}
