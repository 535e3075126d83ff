/** send.c: the reusable send buffer of `struct udtcp_send_s` and the two sends. */
module Send {
  import opened Wire
  import opened Types
  import opened Sockets
  import opened Buffers

  /** The slot can take a payload of this size: the header still fits in 32 bits, and
      an empty payload needs a buffer left by an earlier one. */
  predicate Sendable(size: nat, hasBuffer: bool) {
    WORD_SIZE + size < LIMIT32 && (size > 0 || hasBuffer)
  }

  /** How many bytes the buffer of a slot holds once `buffer_copy` has made room for `size`
      bytes of payload: the size asked for is truncated to 32 bits. */
  function RoomAfter(bufferSize: nat, hasBuffer: bool, size: nat): nat {
    if bufferSize < size then (size + WORD_SIZE) % LIMIT32
    else if hasBuffer then WORD_SIZE + bufferSize
    else 0
  }

  /** `buffer_copy` stays inside its buffer exactly for the sizes that are `Sendable`. */
  lemma RoomIffSendable(bufferSize: nat, hasBuffer: bool, size: nat)
    requires hasBuffer <==> bufferSize > 0
    requires size < LIMIT32 && WORD_SIZE + bufferSize < LIMIT32
    ensures WORD_SIZE + size <= RoomAfter(bufferSize, hasBuffer, size) <==> Sendable(size, hasBuffer)
  {
    if WORD_SIZE + size >= LIMIT32 {
      assert (size + WORD_SIZE) % LIMIT32 == size + WORD_SIZE - LIMIT32;
    }
  }

  /** From `a` to `b` a send of `n` bytes has been made, with result `ret`: the lock is taken,
      then, unless the allocation is refused, the bytes are sent; 0 if one of the first two
      failed, -1 if the last did. */
  predicate SendAnswered(a: seq<Call>, b: seq<Call>, task: Task, refused: bool, ret: int, n: nat) {
    && a <= b && |a| < |b| && b[|a|].Tried? && b[|a|].task == TakeLock
    && if !b[|a|].ok || refused then |b| == |a| + 1 && ret == 0 && !(refused && !b[|a|].ok)
       else && |b| == |a| + 2 && b[|a| + 1].Tried? && b[|a| + 1].task == task
            && ret == if b[|a| + 1].ok then n else -1
  }

  class SendSlot {
    var bufferSize: nat
    var buffer: array?<byte>
    const alloc: Allocator

    ghost predicate Valid()
      reads this, alloc
    {
      && (buffer == null <==> bufferSize == 0)
      && (buffer != null ==> buffer.Length == WORD_SIZE + bufferSize && buffer in alloc.live)
    }

    ghost function Block(): set<array<byte>>
      reads this
    {
      if buffer == null then {} else {buffer}
    }

    ghost predicate IsNew(alloc: Allocator)
      reads this
    {
      this.alloc == alloc && buffer == null && bufferSize == 0
    }

    constructor (alloc: Allocator)
      ensures IsNew(alloc)
    {
      this.alloc := alloc;
      this.bufferSize := 0;
      this.buffer := null;
    }

    /** Lays out the frame of `data` in the buffer, which grows when it is too small;
        the capacity never shrinks and a growth frees exactly the previous buffer. */
    method BufferCopy(data: seq<byte>) returns (ok: bool)
      requires Valid() && Sendable(|data|, buffer != null)
      modifies this, Block(), alloc`live, alloc`refused
      ensures Valid()
      ensures ok ==> && buffer != null && WORD_SIZE + |data| <= buffer.Length
                     && buffer[..WORD_SIZE + |data|] == Encode(data)
      ensures !ok ==> unchanged(this) && unchanged(Block()) && |data| > bufferSize && !alloc.reliable
      ensures alloc.refused == old(alloc.refused) + if ok then 0 else 1
      ensures bufferSize == if ok && |data| > old(bufferSize) then |data| else old(bufferSize)
      ensures buffer == old(buffer) || (buffer != null && fresh(buffer))
      ensures |data| <= old(bufferSize) ==> buffer == old(buffer)
      ensures alloc.live == old(alloc.live) - old(Block()) + Block()
    {
      if bufferSize < |data| {
        var newBuffer := alloc.New(|data| + WORD_SIZE);
        if newBuffer == null {
          return false;
        }
        if buffer != null {
          alloc.Free(buffer);
        }
        buffer := newBuffer;
        bufferSize := |data|;
      }
      LayOut(buffer, data);
      return true;
    }

    /** The two `memcpy` at the end of `buffer_copy`. */
    static method LayOut(buffer: array<byte>, data: seq<byte>)
      requires |data| < LIMIT32 && WORD_SIZE + |data| <= buffer.Length
      modifies buffer
      ensures buffer[..WORD_SIZE + |data|] == Encode(data)
    {
      var header := Header(|data|);
      forall i | 0 <= i < WORD_SIZE {
        buffer[i] := header[i];
      }
      forall i | 0 <= i < |data| {
        buffer[WORD_SIZE + i] := data[i];
      }
      assert buffer[..WORD_SIZE] == header;
      assert buffer[WORD_SIZE..WORD_SIZE + |data|] == data;
      assert buffer[..WORD_SIZE + |data|] == buffer[..WORD_SIZE] + buffer[WORD_SIZE..WORD_SIZE + |data|];
    }

    /** `udtcp_send_tcp`: the connection gets exactly the frame of `data`, or nothing.
        The result is 0 when the lock or the allocation fails and -1 when the send does. */
    method SendTcp(k: Kernel, fd: int, data: seq<byte>) returns (ret: int)
      requires Valid() && Sendable(|data|, buffer != null)
      requires k.Valid() && fd in k.fdConn
      modifies this, Block(), alloc`live, alloc`refused, k`conns, k`calls
      ensures Valid() && k.Valid()
      ensures ret in {-1, 0, WORD_SIZE + |data|}
      ensures SendAnswered(old(k.calls), k.calls, SendFrame, alloc.refused > old(alloc.refused), ret,
                           WORD_SIZE + |data|)
      ensures k.faultless && alloc.reliable ==> ret == WORD_SIZE + |data|
      ensures k.conns == if ret > 0 then Output(old(k.conns), k.fdConn[fd], Encode(data)) else old(k.conns)
      ensures bufferSize >= old(bufferSize)
      ensures buffer == old(buffer) || (buffer != null && fresh(buffer))
      ensures alloc.live == old(alloc.live) - old(Block()) + Block()
    {
      var locked := k.Try(TakeLock);
      if !locked {
        return 0;
      }
      var ok := BufferCopy(data);
      if !ok {
        return 0;
      }
      ret := k.Send(fd, buffer, WORD_SIZE + |data|);
    }

    /** `udtcp_send_udp`: one datagram with exactly the frame of `data`, or nothing. */
    method SendUdp(k: Kernel, socket: int, dest: Addr, data: seq<byte>) returns (ret: int)
      requires Valid() && Sendable(|data|, buffer != null)
      modifies this, Block(), alloc`live, alloc`refused, k`sent, k`calls
      ensures Valid()
      ensures ret in {-1, 0, WORD_SIZE + |data|}
      ensures SendAnswered(old(k.calls), k.calls, SendDatagram, alloc.refused > old(alloc.refused), ret,
                           WORD_SIZE + |data|)
      ensures k.faultless && alloc.reliable ==> ret == WORD_SIZE + |data|
      ensures k.sent == if ret > 0 then old(k.sent) + [Sent(socket, dest, Encode(data))] else old(k.sent)
      ensures bufferSize >= old(bufferSize)
      ensures buffer == old(buffer) || (buffer != null && fresh(buffer))
      ensures alloc.live == old(alloc.live) - old(Block()) + Block()
    {
      var locked := k.Try(TakeLock);
      if !locked {
        return 0;
      }
      var ok := BufferCopy(data);
      if !ok {
        return 0;
      }
      ret := k.SendTo(socket, buffer, WORD_SIZE + |data|, dest);
    }
  }
}
