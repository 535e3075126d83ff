/**
 The receive side shared by udtcp_server and udtcp_client: the growable buffer
 `buffer_data` / `buffer_size` and the parts of `receive_tcp` and `receive_udp`
 that server_poll.c and client_poll.c have in common.
 */
module Receive {
  import opened Wire
  import opened Types
  import opened Sockets
  import opened Buffers

  /** How one read of a TCP frame ends. */
  datatype TcpRead = Frame(size: nat) | Ended | Error

  /** How one read of the UDP socket ends. */
  datatype UdpRead = Message(source: Addr, size: nat) | NoData | Refused

  /** The datagram carries at least the payload its header declares. */
  predicate WellFormed(d: Datagram) {
    !Incomplete(d.data)
  }

  function Declared(d: Datagram): seq<byte>
    requires WellFormed(d)
  {
    d.data[WORD_SIZE..WORD_SIZE + Word(d.data[..WORD_SIZE])]
  }

  /** Header and payload together are shorter than 4 GiB. */
  predicate Fits(d: Datagram) {
    |d.data| >= WORD_SIZE ==> WORD_SIZE + Word(d.data[..WORD_SIZE]) < LIMIT32
  }

  /** The receive buffer holds a datagram with its header exactly if that is so: the size
      asked of the allocation is truncated to 32 bits. */
  lemma RoomIffFits(size: nat, d: Datagram)
    requires size < LIMIT32 && |d.data| >= WORD_SIZE
    ensures var need := WORD_SIZE + Word(d.data[..WORD_SIZE]);
            need <= (if need > size then need % LIMIT32 else size) <==> Fits(d)
  {
    var need := WORD_SIZE + Word(d.data[..WORD_SIZE]);
    if need >= LIMIT32 {
      assert need % LIMIT32 == need - LIMIT32;
    }
  }

  /** The bytes begin with a whole frame whose payload is not empty. */
  predicate StartsWithMessage(s: seq<byte>) {
    Frames(s) != [] && Frames(s)[0] != []
  }

  /** What a read of a TCP frame took from the connection, by how it ended. */
  predicate ReadOf(r: TcpRead, taken: seq<byte>) {
    match r
    case Frame(n) => 0 < n < LIMIT32 && |taken| == WORD_SIZE + n && taken == Encode(taken[WORD_SIZE..])
    case Ended => Incomplete(taken) || taken == Header(0)
    case Error => Incomplete(taken)
  }

  /** A read that meets `s`, all that has arrived of a frame, takes `s` and is mistaken for
      "nothing to read": only the header is there, or a part of it and `errno` says so
      already. */
  predicate Stalls(s: seq<byte>, ended: bool, errno: Errno) {
    || (0 < |s| < WORD_SIZE && errno == WouldBlock)
    || (|s| == WORD_SIZE && Incomplete(s) && !ended)
  }

  /** All that has arrived behind the last whole frame is `s`; the next read finds that there
      is nothing to read, or it is mistaken for that. */
  predicate Stays(s: seq<byte>, ended: bool, errno: Errno) {
    (s == [] && !ended) || Stalls(s, ended, errno)
  }

  /** How a read looks to its caller that fails for want of data. */
  predicate NothingToRead(r: TcpRead, errno: Errno) {
    r == TcpRead.Error && errno == WouldBlock
  }

  /** In an orderly environment: `s` is what had arrived when the read ended, `ended` says
      whether that was the end of the stream, `before` and `after` are the values of
      `errno`. */
  predicate OrderlyRead(s: seq<byte>, ended: bool, before: Errno, r: TcpRead, taken: seq<byte>, after: Errno) {
    && taken <= s
    && (r.Frame? ==> after == before)
    && (NothingToRead(r, after) && taken != [] ==> taken == s && Stalls(s, ended, before))
  }

  /** In a faultless one, when the allocation succeeds: a message that has arrived is
      reported, and what else the read finds is exactly what has arrived. */
  predicate FaultlessRead(s: seq<byte>, ended: bool, before: Errno, r: TcpRead, taken: seq<byte>, after: Errno) {
    && (StartsWithMessage(s) ==> r.Frame?)
    && (s != [] ==> taken != [])
    && (!r.Frame? ==> (NothingToRead(r, after) <==> Stays(s, ended, before)))
  }

  /** What has been read and what is there make up what has arrived. */
  lemma ReadAndHere(ps: seq<Payload>, c: Conn, arrived: nat, limit: nat)
    requires c.Valid() && EncodeAll(ps) == c.Read() && c.pos <= arrived <= |c.peer.wire| && Sized(c.peer.wire, limit)
    ensures Frames(c.peer.wire[..arrived]) == ps + Frames(c.Here(arrived))
    ensures Rest(c.peer.wire[..arrived]) == Rest(c.Here(arrived))
    ensures Sized(c.Here(arrived), limit)
  {
    hide EncodeAll;
    hide Sized;
    var here := c.Here(arrived);
    assert c.peer.wire[..arrived] == c.Read() + here;
    FramesSoFar(ps, c.Read(), here);
    SizedMonotone(c.peer.wire[..arrived], c.peer.wire, limit);
    SizedTail(ps, c.peer.wire[..arrived], here, limit);
  }

  lemma SizedTail(ps: seq<Payload>, s: seq<byte>, tail: seq<byte>, limit: nat)
    requires Frames(s) == ps + Frames(tail) && Sized(s, limit)
    ensures Sized(tail, limit)
  {
    assert forall p | p in Frames(tail) :: p in ps + Frames(tail);
  }

  lemma ReportedFirst(here: seq<byte>, taken: seq<byte>, r: TcpRead, limit: nat)
    requires ReadOf(r, taken) && taken <= here && r.Frame? && Sized(here, limit)
    ensures r.size < limit
  {
    ReadOne(taken[WORD_SIZE..], here[|taken|..]);
    assert here == taken + here[|taken|..];
    assert Frames(here)[0] in Frames(here);
  }

  lemma NothingWhole(here: seq<byte>, limit: nat)
    requires Sized(here, limit) && !StartsWithMessage(here)
    ensures Frames(here) == [] && Rest(here) == here
  {
    FirstIn(Frames(here));
  }

  lemma FirstIn(ps: seq<Payload>)
    ensures ps != [] ==> ps[0] in ps
  {
  }

  /** A drain of a stream without empty or too long messages ends, in a faultless
      environment, exactly when all whole frames that have arrived have been reported; what
      decides about its end is the rest. */
  lemma DrainEnds(ps: seq<Payload>, c: Conn, arrived: nat, limit: nat, r: TcpRead, taken: seq<byte>,
                  before: Errno, after: Errno)
    requires c.Valid() && EncodeAll(ps) == c.Read() && c.pos <= arrived <= |c.peer.wire| && Sized(c.peer.wire, limit)
    requires ReadOf(r, taken) && taken <= c.Here(arrived)
    requires FaultlessRead(c.Here(arrived), Over(c.peer, arrived), before, r, taken, after)
    ensures r.Frame? ==> r.size < limit
    ensures !r.Frame? ==> && Frames(c.peer.wire[..arrived]) == ps && Rest(c.peer.wire[..arrived]) == c.Here(arrived)
                          && (NothingToRead(r, after) <==>
                                Stays(Rest(c.peer.wire[..arrived]), Over(c.peer, arrived), before))
                          && (taken == [] <==> Rest(c.peer.wire[..arrived]) == [])
  {
    hide Sized;
    hide StartsWithMessage;
    hide Stays;
    hide EncodeAll;
    ReadAndHere(ps, c, arrived, limit);
    if r.Frame? {
      ReportedFirst(c.Here(arrived), taken, r, limit);
    } else {
      NothingWhole(c.Here(arrived), limit);
      assert ps + [] == ps;
    }
  }

  /** What is known of a read of connection `c` that has ended in `r`: the bytes taken, how
      many had arrived by then, and `errno` before and after it. */
  predicate Known(c: Conn, orderly: bool, r: TcpRead, taken: seq<byte>, arrived: nat, before: Errno, after: Errno) {
    && ReadOf(r, taken) && c.pos <= arrived <= |c.peer.wire| && taken <= c.Here(arrived)
    && (c.peer.whole ==> StopsWell(c.peer.wire[..arrived]))
    && (orderly ==> OrderlyRead(c.Here(arrived), Over(c.peer, arrived), before, r, taken, after))
  }

  /** ... and in a faultless environment, when the allocation has succeeded. */
  predicate KnownFaultless(c: Conn, r: TcpRead, taken: seq<byte>, arrived: nat, before: Errno, after: Errno) {
    c.pos <= arrived <= |c.peer.wire| && FaultlessRead(c.Here(arrived), Over(c.peer, arrived), before, r, taken, after)
  }

  class ReceiveBuffer {
    var data: array?<byte>
    var size: nat
    const alloc: Allocator

    ghost predicate Valid()
      reads this, alloc
    {
      && (data == null <==> size == 0)
      && (data != null ==> data.Length == size && data in alloc.live)
    }

    ghost function Block(): set<array<byte>>
      reads this
    {
      if data == null then {} else {data}
    }

    /** The buffer holds `p` from there on. */
    ghost predicate Holds(p: seq<byte>, from: nat)
      reads this, data
    {
      data != null && from + |p| <= data.Length && data[from..from + |p|] == p
    }

    constructor (alloc: Allocator)
      ensures this.alloc == alloc && data == null && size == 0
    {
      this.alloc := alloc;
      this.data := null;
      this.size := 0;
    }

    /** Makes room for `need` bytes to be read from `fd`, giving back the previous buffer. */
    method Grow(k: Kernel, fd: int, need: nat) returns (ok: bool)
      requires Valid() && need < LIMIT32
      modifies this, alloc`live, alloc`refused, k`calls
      ensures Valid()
      ensures ok ==> need <= size && k.errno() == old(k.errno())
      ensures !ok ==> unchanged(this) && need > size && !alloc.reliable && k.errno() == NoMemory
      ensures k.calls == if ok then old(k.calls) else old(k.calls) + [Denied(fd, NoMemory)]
      ensures alloc.refused == old(alloc.refused) + if ok then 0 else 1
      ensures size == if ok && need > old(size) then need else old(size)
      ensures need <= old(size) ==> data == old(data)
      ensures data != old(data) ==> data != null && fresh(data)
      ensures alloc.live == old(alloc.live) - old(Block()) + Block()
    {
      if need > size {
        var newData := alloc.New(need);
        if newData == null {
          k.Deny(fd);
          return false;
        }
        if data != null {
          alloc.Free(data);
        }
        data := newData;
        size := need;
      }
      return true;
    }

    /** One call of `receive_tcp` up to the callback.  The bytes it takes from the
        connection are exactly one frame when it reports one, and otherwise stop
        inside a frame or are the header of an empty one. */
    method ReceiveTcp(k: Kernel, fd: int) returns (r: TcpRead, ghost taken: seq<byte>)
      requires Valid() && k.Valid() && fd in k.fdConn
      modifies this, alloc`live, alloc`refused, Block(), k`conns, k`news, k`calls
      ensures Valid() && k.Valid() && More(old(k.news), k.news)
      ensures size >= old(size)
      ensures data == old(data) || (data != null && fresh(data))
      ensures alloc.live == old(alloc.live) - old(Block()) + Block()
      ensures k.conns == Advance(old(k.conns), k.fdConn[fd], |taken|)
      ensures ReadOf(r, taken) && Answered(old(k.calls), k.calls, fd, r.Frame?, r.Ended?)
      ensures alloc.refused == old(alloc.refused) + if LastCall(k.calls).Denied? then 1 else 0
      ensures r.Frame? ==> r.size == |taken| - WORD_SIZE && Holds(taken[WORD_SIZE..], 0)
      ensures var h := k.fdConn[fd];
              var here, ended := old(k.conns)[h].Here(k.news.arrived[h]), Over(k.peers[h], k.news.arrived[h]);
              && taken <= here
              && (k.orderly ==> OrderlyRead(here, ended, old(k.errno()), r, taken, k.errno()))
              && (k.faultless && alloc.reliable ==> FaultlessRead(here, ended, old(k.errno()), r, taken, k.errno()))
    {
      hide Kernel.Valid;
      hide More;
      hide ReadOf;
      hide OrderlyRead;
      hide FaultlessRead;
      hide NothingToRead;
      hide Incomplete;
      hide Over;
      hide Answered;
      hide GoneOn;
      hide LastCall;
      k.Bounds(fd);
      NothingNew(k.news);
      ghost var before := k.calls;
      ghost var h := k.fdConn[fd];
      ghost var c, ended := k.conns[h], Over(k.peers[h], k.news.arrived[h]);
      var done, dataSize;
      done, r, dataSize, taken := ReadHeader(k, fd);
      if done {
        OnlyHeaderRead(c.Here(k.news.arrived[h]), ended, old(k.errno()), taken, r, k.errno(),
                       k.orderly, k.faultless && alloc.reliable);
        return;
      }
      ghost var word, body, between := taken, [], k.calls;
      r, body := ReceivePayload(k, fd, dataSize);
      ThenAnswered(before, between, k.calls, fd, r.Frame?, r.Ended?);
      k.Bounds(fd);
      BehindHeader(old(k.conns), h, k.news.arrived[h], word, body);
      taken := word + body;
      BothReads(c.Here(k.news.arrived[h]), Over(k.peers[h], k.news.arrived[h]), old(k.errno()),
                word, body, dataSize, r, k.errno(),
                k.orderly, k.faultless && alloc.reliable);
    }

    /** A read that is done with the header, or with a part of it. */
    lemma OnlyHeaderRead(here: seq<byte>, ended: bool, before: Errno, word: seq<byte>, r: TcpRead, after: Errno,
                         orderly: bool, faultless: bool)
      requires word <= here && r in {TcpRead.Ended, TcpRead.Error} && Incomplete(word)
      requires orderly && NothingToRead(r, after) && word != [] ==>
                 word == here && |here| < WORD_SIZE && before == WouldBlock
      requires faultless ==>
                 && |here| < WORD_SIZE && (here != [] ==> word != [])
                 && (NothingToRead(r, after) <==> (here == [] && !ended) || (here != [] && before == WouldBlock))
      ensures ReadOf(r, word)
      ensures orderly ==> OrderlyRead(here, ended, before, r, word, after)
      ensures faultless ==> FaultlessRead(here, ended, before, r, word, after)
    {
    }

    /** The header of a frame and what follows it, read one after the other. */
    lemma BothReads(here: seq<byte>, ended: bool, before: Errno,
                    word: seq<byte>, body: seq<byte>, dataSize: nat, r: TcpRead,
                    after: Errno, orderly: bool, faultless: bool)
      requires |word| == WORD_SIZE && dataSize < LIMIT32 && word == Header(dataSize)
      requires word <= here && body <= here[WORD_SIZE..]
      requires r in {Frame(dataSize), Ended, Error}
      requires r.Frame? ==> 0 < dataSize && |body| == dataSize && after == before
      requires !r.Frame? ==> |body| < dataSize || (r.Ended? && dataSize == 0 && body == [])
      requires orderly && NothingToRead(r, after) ==> here[WORD_SIZE..] == [] && !ended
      requires faultless ==> && orderly
                             && (dataSize > 0 && here[WORD_SIZE..] == [] && !ended ==> NothingToRead(r, after))
                             && (0 < dataSize <= |here[WORD_SIZE..]| ==> r.Frame?)
      ensures ReadOf(r, word + body) && (word + body)[WORD_SIZE..] == body
      ensures orderly ==> OrderlyRead(here, ended, before, r, word + body, after)
      ensures faultless ==> FaultlessRead(here, ended, before, r, word + body, after)
    {
      WordOfHeader(dataSize);
      assert (word + body)[..WORD_SIZE] == word == here[..WORD_SIZE];
      if dataSize > 0 && here[WORD_SIZE..] == [] {
        assert here == word == word + body && Incomplete(here);
      }
    }

    /** What is known of a read of the header that has met `here`; `over` says that the stream
        ends behind that. */
    predicate HeadKnown(here: seq<byte>, over: bool, done: bool, r: TcpRead, word: seq<byte>, before: Errno,
                        after: Errno,
                        orderly: bool, faultless: bool) {
      && (orderly && done && NothingToRead(r, after) && word != [] ==>
            word == here && |here| < WORD_SIZE && before == WouldBlock)
      && (faultless ==>
            && (done <==> |here| < WORD_SIZE) && (here != [] ==> word != [])
            && (done ==> (NothingToRead(r, after) <==>
                            (here == [] && !over) || (here != [] && before == WouldBlock))))
    }

    /** The start of `receive_tcp`: it is done when the read of the header fails. */
    method ReadWord(k: Kernel, fd: int) returns (done: bool, r: TcpRead, word: seq<byte>)
      requires k.Valid() && fd in k.fdConn
      modifies k`conns, k`calls
      ensures k.Valid() && |word| <= WORD_SIZE && word <= old(k.Waiting(fd))
      ensures k.conns == Advance(old(k.conns), k.fdConn[fd], |word|)
      ensures if done then Answered(old(k.calls), k.calls, fd, false, r.Ended?) else GoneOn(old(k.calls), k.calls, fd)
      ensures !LastCall(k.calls).Denied?
      ensures if done then r in {Ended, Error} && |word| < WORD_SIZE
              else |word| == WORD_SIZE && k.errno() == old(k.errno())
      ensures HeadKnown(old(k.Waiting(fd)), Over(k.peers[k.fdConn[fd]], k.news.arrived[k.fdConn[fd]]), done, r, word,
                        old(k.errno()), k.errno(), k.orderly, k.faultless)
    {
      hide GoneOn;
      hide Answered;
      hide Kernel.errno;
      ghost var before := k.calls;
      r, done := Error, true;
      var ret, data := k.RecvWord(fd);
      GoneOnOnce(before, HeadRead(fd, ret, k.errno()));
      word := data;
      if ret < 0 {
        return;
      }
      if ret == 0 {
        r := Ended;
        return;
      }
      done := ret != WORD_SIZE;
    }

    /** The start of `receive_tcp`, up to the growth of the buffer: it is done when the read
        or the growth fails. */
    method ReadHeader(k: Kernel, fd: int) returns (done: bool, r: TcpRead, dataSize: nat, ghost word: seq<byte>)
      requires Valid() && k.Valid() && fd in k.fdConn
      modifies this, alloc`live, alloc`refused, k`conns, k`calls
      ensures Valid() && k.Valid()
      ensures size >= old(size)
      ensures data == old(data) || (data != null && fresh(data))
      ensures alloc.live == old(alloc.live) - old(Block()) + Block()
      ensures k.conns == Advance(old(k.conns), k.fdConn[fd], |word|)
      ensures done ==> r in {Ended, Error} && Incomplete(word)
      ensures !done ==> && |word| == WORD_SIZE && dataSize < LIMIT32 && word == Header(dataSize)
                        && dataSize <= size && k.errno() == old(k.errno())
      ensures word <= old(k.Waiting(fd))
      ensures if done then Answered(old(k.calls), k.calls, fd, false, r.Ended?) else GoneOn(old(k.calls), k.calls, fd)
      ensures !done ==> alloc.refused == old(alloc.refused)
      ensures done ==> alloc.refused == old(alloc.refused) + if LastCall(k.calls).Denied? then 1 else 0
      ensures HeadKnown(old(k.Waiting(fd)), Over(k.peers[k.fdConn[fd]], k.news.arrived[k.fdConn[fd]]), done, r, word,
                        old(k.errno()), k.errno(), k.orderly, k.faultless && alloc.reliable)
    {
      hide Kernel.Valid;
      hide GoneOn;
      hide Answered;
      hide Kernel.errno;
      hide LastCall;
      ghost var before := k.calls;
      var read;
      done, r, read := ReadWord(k, fd);
      word, dataSize := read, 0;
      if done {
        return;
      }
      HeaderOfWord(read);
      dataSize := Word(read);
      ghost var between := k.calls;
      var ok := Grow(k, fd, dataSize);
      WordOfHeader(dataSize);
      done := !ok;
      if done {
        r := Error;
        GoneOnOnce(between, Denied(fd, NoMemory));
        ThenAnswered(before, between, k.calls, fd, false, false);
      }
    }

    /** What is there behind a header that has been read. */
    lemma BehindHeader(conns: seq<Conn>, h: nat, arrived: nat, word: seq<byte>, body: seq<byte>)
      requires h < |conns| && |word| == WORD_SIZE && conns[h].pos + WORD_SIZE <= arrived <= |conns[h].peer.wire|
      requires word <= conns[h].Unread() && body <= conns[h].(pos := conns[h].pos + WORD_SIZE).Here(arrived)
      ensures Advance(Advance(conns, h, |word|), h, |body|) == Advance(conns, h, |word + body|)
      ensures var c := conns[h];
              && word <= c.Here(arrived) && word + body <= c.Here(arrived)
              && c.Here(arrived)[WORD_SIZE..] == c.(pos := c.pos + WORD_SIZE).Here(arrived)
    {
      var c := conns[h];
      assert c.Here(arrived) == c.Unread()[..WORD_SIZE] + c.(pos := c.pos + WORD_SIZE).Here(arrived);
      assert word == c.Unread()[..WORD_SIZE];
    }

    /** `recv` into the buffer, from `off` on. */
    method Fill(k: Kernel, fd: int, off: nat, len: nat) returns (ret: int, ghost piece: seq<byte>)
      requires Valid() && k.Valid() && fd in k.fdConn && off + len <= size
      modifies Block(), k`conns, k`calls
      ensures k.Valid()
      ensures -1 <= ret <= len && |piece| == (if ret > 0 then ret else 0) && piece <= old(k.Waiting(fd))
      ensures k.conns == Advance(old(k.conns), k.fdConn[fd], |piece|)
      ensures size > 0 ==> data[..off + |piece|] == old(data[..off]) + piece
      ensures if ret > 0 then GoneOn(old(k.calls), k.calls, fd)
              else Answered(old(k.calls), k.calls, fd, false, ret == 0)
      ensures !LastCall(k.calls).Denied? && (ret >= 0 ==> k.errno() == old(k.errno())) && (len == 0 ==> ret == 0)
      ensures k.orderly && ret < 0 && k.errno() == WouldBlock ==>
                old(k.Waiting(fd)) == [] && !Over(k.peers[k.fdConn[fd]], k.news.arrived[k.fdConn[fd]])
      ensures && k.faultless && len > 0 && old(k.Waiting(fd)) == []
              && !Over(k.peers[k.fdConn[fd]], k.news.arrived[k.fdConn[fd]])
              ==> ret < 0 && k.errno() == WouldBlock
      ensures k.faultless && len > 0 && old(k.Waiting(fd)) != [] ==> ret > 0
    {
      k.Bounds(fd);
      hide Kernel.Valid;
      hide Kernel.errno;
      hide Over;
      ghost var before, waiting, calls := if data == null then [] else data[..off], k.Waiting(fd), k.calls;
      ret := k.Recv(fd, data, off, len);
      GoneOnOnce(calls, BodyRead(fd, ret, k.errno()));
      piece := if ret > 0 then waiting[..ret] else [];
      if data != null {
        assert data[..off] == before;
        assert data[..off + |piece|] == data[..off] + data[off..off + |piece|];
      }
    }

    /** What is known of a read of `dataSize` bytes of payload from connection `c`, of whose
        stream `arrived` bytes have arrived in the end. */
    predicate BodyKnown(c: Conn, arrived: nat, dataSize: nat, r: TcpRead, taken: seq<byte>, after: Errno,
                        orderly: bool, faultless: bool) {
      && c.pos <= arrived <= |c.peer.wire|
      && var here, ended := c.Here(arrived), Over(c.peer, arrived);
         && taken <= here
         && (dataSize == 0 ==> r.Ended?)
         && (orderly && NothingToRead(r, after) ==> here == [] && !ended)
         && (faultless && dataSize > 0 && here == [] && !ended ==> NothingToRead(r, after))
         && (faultless && 0 < dataSize <= |here| ==> r.Frame?)
    }

    /** One call of `recv` has ended the read. */
    lemma BodyFilled(c: Conn, arrived: nat, dataSize: nat, ret: int, taken: seq<byte>, after: Errno,
                     orderly: bool, faultless: bool)
      requires c.pos <= arrived <= |c.peer.wire| && taken <= c.Here(arrived)
      requires -1 <= ret <= dataSize && (dataSize == 0 ==> ret == 0)
      requires orderly && ret < 0 && after == WouldBlock ==> c.Here(arrived) == [] && !Over(c.peer, arrived)
      requires faultless && dataSize > 0 && c.Here(arrived) == [] && !Over(c.peer, arrived) ==>
                 ret < 0 && after == WouldBlock
      requires faultless && dataSize > 0 && c.Here(arrived) != [] ==> ret > 0
      ensures var r := if ret < 0 then TcpRead.Error else if ret == 0 then Ended else Frame(dataSize);
              BodyKnown(c, arrived, dataSize, r, taken, after, orderly, faultless)
    {
      hide Over;
    }

    /** Further calls have read `more`, or nothing has been missing. */
    lemma BodyGathered(c: Conn, arrived: nat, dataSize: nat, r: TcpRead, first: seq<byte>, more: seq<byte>,
                       after: Errno,
                       orderly: bool, faultless: bool)
      requires c.Valid() && first != [] && first <= c.Unread() && more <= c.Unread()[|first|..] && dataSize > 0
      requires c.pos + |first + more| <= arrived <= |c.peer.wire|
      requires orderly ==> !NothingToRead(r, after)
      requires faultless && |c.Unread()| >= dataSize ==> r.Frame?
      ensures BodyKnown(c, arrived, dataSize, r, first + more, after, orderly, faultless)
    {
      hide Over;
      assert c.Unread() == c.Unread()[..|first|] + c.Unread()[|first|..];
      ReadHasArrived(c, first + more, arrived);
    }

    /** The rest of `receive_tcp` once the header has been read. */
    method ReceivePayload(k: Kernel, fd: int, dataSize: nat) returns (r: TcpRead, ghost taken: seq<byte>)
      requires Valid() && k.Valid() && fd in k.fdConn
      requires dataSize <= size
      modifies Block(), k`conns, k`news, k`calls
      ensures k.Valid() && More(old(k.news), k.news)
      ensures k.conns == Advance(old(k.conns), k.fdConn[fd], |taken|)
      ensures r in {Frame(dataSize), Ended, Error}
      ensures Answered(old(k.calls), k.calls, fd, r.Frame?, r.Ended?) && !LastCall(k.calls).Denied?
      ensures r.Frame? ==> 0 < dataSize && data[..dataSize] == taken && k.errno() == old(k.errno())
      ensures !r.Frame? ==> |taken| < dataSize || (r.Ended? && dataSize == 0 && taken == [])
      ensures k.fdConn[fd] < |k.news.arrived|
      ensures BodyKnown(old(k.conns[k.fdConn[fd]]), k.news.arrived[k.fdConn[fd]], dataSize, r, taken, k.errno(),
                        k.orderly, k.faultless)
    {
      hide Kernel.Valid;
      hide More;
      k.Bounds(fd);
      ghost var h := k.fdConn[fd];
      ghost var c := k.conns[h];
      hide GoneOn;
      hide Answered;
      hide Kernel.errno;
      hide LastCall;
      hide Over;
      hide BodyKnown;
      ghost var before := k.calls;
      NothingNew(k.news);
      var ret;
      ret, taken := Fill(k, fd, 0, dataSize);
      BodyFilled(c, k.news.arrived[h], dataSize, ret, taken, k.errno(), k.orderly, k.faultless);
      if ret < 0 {
        return Error, taken;
      }
      if ret == 0 {
        return Ended, taken;
      }
      r, taken := Complete(k, fd, ret, dataSize, before, old(k.conns), taken);
    }

    /** The rest of a payload of which `received` bytes are there, if any is missing. */
    method Complete(k: Kernel, fd: int, received: nat, dataSize: nat, ghost before: seq<Call>, ghost conns: seq<Conn>,
                    ghost first: seq<byte>) returns (r: TcpRead, ghost taken: seq<byte>)
      requires Valid() && k.Valid() && fd in k.fdConn && GoneOn(before, k.calls, fd)
      requires |first| == received && 0 < received <= dataSize <= size && data[..received] == first
      requires k.fdConn[fd] < |conns| == |k.conns| && k.conns == Advance(conns, k.fdConn[fd], |first|)
      requires conns[k.fdConn[fd]].Valid() && first <= conns[k.fdConn[fd]].Unread()
      modifies Block(), k`conns, k`news, k`calls
      ensures k.Valid() && More(old(k.news), k.news)
      ensures k.conns == Advance(conns, k.fdConn[fd], |taken|)
      ensures r in {Frame(dataSize), Ended, Error}
      ensures Answered(before, k.calls, fd, r.Frame?, r.Ended?) && !LastCall(k.calls).Denied?
      ensures if r.Frame? then data[..dataSize] == taken && k.errno() == old(k.errno()) else |taken| < dataSize
      ensures k.fdConn[fd] < |k.news.arrived|
      ensures BodyKnown(conns[k.fdConn[fd]], k.news.arrived[k.fdConn[fd]], dataSize, r, taken, k.errno(),
                        k.orderly, k.faultless)
    {
      hide Kernel.Valid;
      hide More;
      hide GoneOn;
      hide Answered;
      hide Kernel.errno;
      hide Over;
      hide BodyKnown;
      k.Bounds(fd);
      ghost var h, more, between := k.fdConn[fd], [], k.calls;
      NothingNew(k.news);
      GoneOnAnswered(before, k.calls, fd);
      hide LastCall;
      r := Frame(dataSize);
      if received != dataSize {
        r, more := Reassemble(k, fd, received, dataSize);
        ThenAnswered(before, between, k.calls, fd, r.Frame?, r.Ended?);
        k.Bounds(fd);
      }
      ReadAfter(conns, h, first, more);
      taken := first + more;
      BodyGathered(conns[h], k.news.arrived[h], dataSize, r, first, more, k.errno(), k.orderly, k.faultless);
    }

    /** One round of the reassembly loop: waits for the socket, then reads on. */
    method ReadOn(k: Kernel, fd: int, off: nat, len: nat) returns (ret: int, ghost piece: seq<byte>)
      requires Valid() && k.Valid() && fd in k.fdConn
      requires 0 < len && off + len <= size
      modifies Block(), k`conns, k`news, k`calls
      ensures k.Valid() && More(old(k.news), k.news)
      ensures -1 <= ret <= len && |piece| == (if ret > 0 then ret else 0)
      ensures if ret > 0 then GoneOn(old(k.calls), k.calls, fd)
              else Answered(old(k.calls), k.calls, fd, false, ret == 0)
      ensures !LastCall(k.calls).Denied?
      ensures piece <= old(k.conns[k.fdConn[fd]].Unread())
      ensures k.conns == Advance(old(k.conns), k.fdConn[fd], |piece|)
      ensures data[..off + |piece|] == old(data[..off]) + piece
      ensures ret > 0 ==> k.errno() == old(k.errno())
      ensures k.orderly && ret < 0 ==> k.errno() != WouldBlock
      ensures k.faultless && old(k.conns[k.fdConn[fd]].Unread()) != [] ==> ret > 0
    {
      hide Kernel.Valid;
      k.Bounds(fd);
      hide GoneOn;
      hide Answered;
      hide Kernel.errno;
      ghost var calls := k.calls;
      piece := [];
      var ready := k.PollOne(fd);
      GoneOnOnce(calls, Awaited(fd, ready, k.errno()));
      k.Bounds(fd);
      if ready <= 0 {
        return -1, piece;
      }
      hide More;
      ghost var between := k.calls;
      ret, piece := Fill(k, fd, off, len);
      if ret > 0 {
        GoneOnThen(calls, between, k.calls, fd);
      } else {
        ThenAnswered(calls, between, k.calls, fd, false, ret == 0);
      }
    }

    /** Since the connections were `conns`, `taken` has been read from connection `h`; with
        what there was before, `first`, it makes up `bytes`. */
    predicate Gathered(conns: seq<Conn>, now: seq<Conn>, h: nat, first: seq<byte>, taken: seq<byte>, bytes: seq<byte>) {
      && h < |conns| && conns[h].Valid() && taken <= conns[h].Unread()
      && bytes == first + taken && now == Advance(conns, h, |taken|)
    }

    lemma GatheredNone(conns: seq<Conn>, h: nat, first: seq<byte>)
      requires h < |conns| && conns[h].Valid()
      ensures Gathered(conns, conns, h, first, [], first)
    {
    }

    lemma GatheredMore(conns: seq<Conn>, now: seq<Conn>, h: nat, first: seq<byte>, taken: seq<byte>, bytes: seq<byte>,
                       piece: seq<byte>)
      requires Gathered(conns, now, h, first, taken, bytes)
      requires h < |now| && now[h].Valid() && piece <= now[h].Unread()
      ensures Gathered(conns, Advance(now, h, |piece|), h, first, taken + piece, bytes + piece)
      ensures |now[h].Unread()| == |conns[h].Unread()| - |taken|
    {
    }

    lemma GatheredAll(conns: seq<Conn>, now: seq<Conn>, h: nat, first: seq<byte>, taken: seq<byte>, bytes: seq<byte>)
      requires Gathered(conns, now, h, first, taken, bytes)
      ensures h < |conns| && conns[h].Valid() && taken <= conns[h].Unread()
      ensures bytes == first + taken && now == Advance(conns, h, |taken|)
    {
    }

    /** What has been read had arrived. */
    lemma ReadHasArrived(c: Conn, taken: seq<byte>, arrived: nat)
      requires c.Valid() && taken <= c.Unread() && c.pos + |taken| <= arrived <= |c.peer.wire|
      ensures taken <= c.Here(arrived)
    {
    }

    /** The reassembly loop of `receive_tcp`: the buffer holds the first `received`
        bytes of the payload; reads the others behind them, piece by piece. */
    method Reassemble(k: Kernel, fd: int, received: nat, dataSize: nat) returns (r: TcpRead, ghost taken: seq<byte>)
      requires Valid() && k.Valid() && fd in k.fdConn
      requires 0 < received < dataSize <= size
      modifies Block(), k`conns, k`news, k`calls
      ensures k.Valid() && More(old(k.news), k.news)
      ensures k.conns == Advance(old(k.conns), k.fdConn[fd], |taken|)
      ensures r in {Frame(dataSize), Ended, Error}
      ensures Answered(old(k.calls), k.calls, fd, r.Frame?, r.Ended?) && !LastCall(k.calls).Denied?
      ensures r.Frame? ==> data[..dataSize] == old(data[..received]) + taken && k.errno() == old(k.errno())
      ensures !r.Frame? ==> received + |taken| < dataSize
      ensures k.orderly ==> !NothingToRead(r, k.errno())
      ensures taken <= old(k.conns[k.fdConn[fd]].Unread())
      ensures k.faultless && |old(k.conns[k.fdConn[fd]].Unread())| >= dataSize - received ==> r.Frame?
    {
      hide Kernel.Valid;
      hide More;
      hide Over;
      hide GoneOn;
      hide Answered;
      hide LastCall;
      hide Kernel.errno;
      k.Bounds(fd);
      ghost var h, first := k.fdConn[fd], data[..received];
      ghost var conns := k.conns;
      NothingNew(k.news);
      taken := [];
      GatheredNone(conns, h, first);
      hide Advance;
      hide Gathered;
      var bufferSize := received;
      while bufferSize != dataSize
        invariant received <= bufferSize <= dataSize
        invariant k.Valid() && More(old(k.news), k.news) && k.errno() == old(k.errno())
        invariant if bufferSize == received then k.calls == old(k.calls) else GoneOn(old(k.calls), k.calls, fd)
        invariant |taken| == bufferSize - received && Gathered(conns, k.conns, h, first, taken, data[..bufferSize])
        decreases dataSize - bufferSize
      {
        k.Bounds(fd);
        ghost var news, calls, now, bytes := k.news, k.calls, k.conns, data[..bufferSize];
        var ret;
        ghost var piece;
        ret, piece := ReadOn(k, fd, bufferSize, dataSize - bufferSize);
        MoreOn(old(k.news), news, k.news);
        GatheredMore(conns, now, h, first, taken, bytes, piece);
        if ret <= 0 {
          ThenAnswered(old(k.calls), calls, k.calls, fd, false, ret == 0);
          assert taken + piece == taken && bytes + piece == bytes;
          GatheredAll(conns, k.conns, h, first, taken, bytes);
          return if ret == 0 then Ended else Error, taken;
        }
        GoneOnThen(old(k.calls), calls, k.calls, fd);
        taken := taken + piece;
        bufferSize := bufferSize + ret;
      }
      GoneOnAnswered(old(k.calls), k.calls, fd);
      GatheredAll(conns, k.conns, h, first, taken, data[..bufferSize]);
      return Frame(dataSize), taken;
    }

    /** One call of `receive_udp` up to the search for the sender.  A datagram leaves
        the queue exactly when it holds a whole word and neither the allocation nor
        the read fails; it is reported when it is well formed. */
    method ReceiveUdp(k: Kernel) returns (r: UdpRead, ghost taken: bool)
      requires Valid() && k.Valid()
      requires forall d | d in k.datagrams :: Fits(d)
      modifies this, alloc`live, alloc`refused, Block(), k`next, k`calls
      ensures Valid() && k.Valid()
      ensures size >= old(size)
      ensures data == old(data) || (data != null && fresh(data))
      ensures alloc.live == old(alloc.live) - old(Block()) + Block()
      ensures k.next == old(k.next) + if taken then 1 else 0
      ensures taken ==> old(k.next) < k.news.queued <= |k.datagrams| && |k.datagrams[old(k.next)].data| >= WORD_SIZE
      ensures k.faultless && alloc.reliable && old(k.next) < k.news.queued <= |k.datagrams|
              ==> (taken <==> |k.datagrams[old(k.next)].data| >= WORD_SIZE)
      ensures r.Message? <==> taken && WellFormed(k.datagrams[old(k.next)])
      ensures Answered(old(k.calls), k.calls, -1, r.Message?, r == NoData)
      ensures alloc.refused == old(alloc.refused) + if LastCall(k.calls).Denied? then 1 else 0
      ensures taken <==> LastCall(k.calls).Pulled? && LastCall(k.calls).answer >= 0
      ensures taken ==> r != NoData
      ensures var c := LastCall(k.calls);
              && (c.Peeked? && c.answer >= 0 ==> (r == NoData <==> c.answer == 0))
              && (c.Peeked? || c.Pulled? || c.Denied?) && (c.Denied? ==> !alloc.reliable)
              && (k.faultless && old(k.next) < k.news.queued && !c.Denied? ==> c.answer >= 0)
              && ((c.Peeked? || c.Pulled?) && c.answer >= 0 ==> k.errno() == old(k.errno()))
              && (c.Peeked? && c.answer >= 0 ==>
                    old(k.next) < |k.datagrams| && c.answer == |k.datagrams[old(k.next)].data| < WORD_SIZE)
      ensures r.Message? ==> && r.source == k.datagrams[old(k.next)].source
                             && r.size == |Declared(k.datagrams[old(k.next)])| < LIMIT32
                             && Holds(Declared(k.datagrams[old(k.next)]), WORD_SIZE)
      ensures k.faultless && old(k.next) == k.news.queued ==> r == Refused && k.errno() == WouldBlock
    {
      hide Kernel.Valid;
      hide GoneOn;
      hide Answered;
      hide Kernel.errno;
      k.QueueBound();
      ghost var next, before := k.next, k.calls;
      taken := false;
      var ret, word := k.PeekWord();
      GoneOnOnce(before, Peeked(ret, k.errno()));
      if ret < 0 {
        return Refused, taken;
      }
      if ret == 0 {
        return NoData, taken;
      }
      if ret != WORD_SIZE {
        return Refused, taken;
      }
      ghost var d := k.datagrams[next];
      assert d in k.datagrams && word == d.data[..WORD_SIZE];
      var dataSize := Word(word);
      ghost var peeked := k.calls;
      var ok := Grow(k, -1, WORD_SIZE + dataSize);
      if !ok {
        GoneOnOnce(peeked, Denied(-1, NoMemory));
        ThenAnswered(before, peeked, k.calls, -1, false, false);
        return Refused, taken;
      }
      r, taken := Take(k, dataSize);
      ThenAnswered(before, peeked, k.calls, -1, r.Message?, r == NoData);
    }

    /** The end of `receive_udp`: reads the datagram whose header has been seen. */
    method Take(k: Kernel, dataSize: nat) returns (r: UdpRead, ghost taken: bool)
      requires Valid() && k.Valid() && WORD_SIZE + dataSize <= size && WORD_SIZE + dataSize < LIMIT32
      requires k.next < k.news.queued <= |k.datagrams| && |k.datagrams[k.next].data| >= WORD_SIZE
      requires dataSize == Word(k.datagrams[k.next].data[..WORD_SIZE])
      modifies Block(), k`next, k`calls
      ensures k.Valid() && k.next == old(k.next) + if taken then 1 else 0
      ensures k.faultless ==> taken
      ensures r.Message? <==> taken && WellFormed(k.datagrams[old(k.next)])
      ensures taken ==> r != NoData
      ensures Answered(old(k.calls), k.calls, -1, r.Message?, r == NoData) && LastCall(k.calls).Pulled?
      ensures taken <==> LastCall(k.calls).answer >= 0
      ensures r.Message? ==> && r.source == k.datagrams[old(k.next)].source && r.size == dataSize
                             && data[WORD_SIZE..WORD_SIZE + r.size] == Declared(k.datagrams[old(k.next)])
      ensures k.errno() == old(k.errno()) || !taken
    {
      hide Kernel.Valid;
      hide GoneOn;
      hide Answered;
      hide Kernel.errno;
      ghost var d, before := k.datagrams[k.next], k.calls;
      taken := false;
      var ret, source := k.RecvFrom(data, WORD_SIZE + dataSize);
      GoneOnOnce(before, Pulled(WORD_SIZE + dataSize, ret, k.errno()));
      if ret < 0 {
        return Refused, taken;
      }
      taken := true;
      if ret == 0 {
        return NoData, taken;
      }
      if ret - WORD_SIZE != dataSize {
        return Refused, taken;
      }
      assert data[WORD_SIZE..ret] == data[..ret][WORD_SIZE..] == d.data[..ret][WORD_SIZE..] == Declared(d);
      return Message(source, dataSize), taken;
    }
  }
}
