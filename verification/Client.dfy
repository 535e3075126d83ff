/**
 client_poll.c, connect_client.c and the thread body of client_start_stop.c: the
 client with its connection to one server.
 */
module Client {
  import opened Wire
  import opened Types
  import opened Sockets
  import opened Buffers
  import opened Receive
  import opened Trace
  import opened Wiring
  import opened ClientModel

  /** How `connect` and the wait for it end, by the calls made. */
  predicate DialAnswered(m: seq<Call>, ret: ConnectResult) {
    && |m| >= 1 && m[0].Tried? && m[0].task == Task.Dial
    && if m[0].ok then |m| == 1 && ret == ConnectSuccess
       else if m[0].errno != InProgress then |m| == 1 && ret == ConnectError
       else && |m| >= 2 && m[1].Dialled?
            && if m[1].answer < 0 then |m| == 2 && ret == ConnectError
               else if m[1].answer == 0 then |m| == 3 && m[2] == Assigned(TimedOut) && ret == ConnectTimeout
               else if m[1].hungUp then |m| == 3 && m[2] == Assigned(ConnRefused) && ret == ConnectError
               else |m| == 2 && ret == ConnectSuccess
  }

  /** How the client's half of the handshake ends, by the calls made. */
  predicate GreetAnswered(m: seq<Call>, ret: ConnectResult) {
    && |m| >= 1 && m[0].Waited?
    && if m[0].answer < 0 then |m| == 1 && ret == ConnectError
       else if m[0].answer == 0 then |m| == 2 && m[1] == Assigned(TimedOut) && ret == ConnectError
       else && |m| >= 2 && m[1].Replied?
            && match m[1].reply
               case Record(_) => && |m| == 3 && m[2].Tried? && m[2].task == SendRecord
                                 && ret == if m[2].ok then ConnectSuccess else ConnectError
               case OneByte(_) => |m| == 2 && ret == ConnectTooMany
               case _ => |m| == 2 && ret == ConnectError
  }

  /** What the handshake leaves of the entry `server`. */
  function Greeted(m: seq<Call>, server: Infos): Infos {
    if |m| >= 2 && m[1].Replied? then
      match m[1].reply
      case Record(record) => record
      case OneByte(idField) => server.(id := idField)
      case Part(mixed) => mixed
      case _ => server
    else server
  }

  /** How connecting ends, by the calls made: a socket, what readies it, `connect`, the
      handshake; each only if the one before has succeeded. */
  predicate ConnectAnswered(m: seq<Call>, known: bool, ret: ConnectResult) {
    && |m| >= 1 && m[0].Opened?
    && if m[0].fd == -1 then |m| == 1 && ret == ConnectError
       else && |m| >= 2 && m[1].Tried? && m[1].task == Ready
            && if !m[1].ok || !known then |m| == 2 && ret == ConnectError
               else || (ret != ConnectSuccess && DialAnswered(m[2..], ret))
                    || exists n | 2 < n <= |m| :: DialAnswered(m[2..n], ConnectSuccess) && GreetAnswered(m[n..], ret)
  }

  /** The result of a poll, by the answer of `poll`, whether the connection was then lost, and
      whether the loop flag stayed on. */
  predicate PollAnswered(c: Call, ret: PollResult, gone: bool, on: bool) {
    && c.Tabled?
    && if c.answer < 0 then !gone && ret == if c.errno == Interrupted then PollSignal else PollError
       else if c.answer == 0 then !gone && ret == PollTimeout
       else if gone then ret == PollError
       else if Trouble in c.marks then ret in {PollError, PollSuccess} && (on ==> ret == PollError)
       else ret == PollSuccess
  }

  /** After such a call the thread of a client polls no more. */
  predicate Stops(c: Call) {
    Halts(c) || Dismisses(c) || (c.Tabled? && c.answer > 0 && Trouble in c.marks)
  }

  class UdtcpClient {
    const k: Kernel
    const alloc: Allocator
    /** `buffer_data` and `buffer_size` */
    const buffer: ReceiveBuffer
    const pollFds: array<PollFd>
    /** `client_infos` and `server_infos` */
    var own: Infos
    var server: Infos
    var pollLoop: bool

    ghost var trace: seq<Event>
    ghost var cut: bool
    ghost var torn: bool
    /** the index of the connection to the server */
    ghost var link: nat
    /** how many datagrams had been taken when it was made */
    ghost var start: nat

    ghost predicate Shape()
      reads this`own, pollFds, k`news, k`next, k`conns, k`fdConn, k`own, k`unused
    {
      && k.Valid()
      && (forall d | d in k.datagrams :: Fits(d))
      && pollFds.Length == 2
      && own.udpServerSocket in k.own && own.udpServerSocket in k.receiving
      && pollFds[0].fd != -1 && pollFds[0].fd != own.udpServerSocket && pollFds[1].fd == own.udpServerSocket
    }

    /** The socket is the open one of the connection, or it has been closed. */
    ghost predicate Linked()
      reads this`own, this`server, this`link, k`conns, k`fdConn
    {
      && link < |k.conns| && own.tcpSocket == k.conns[link].fd
      && (own.tcpSocket != -1 ==>
            server.tcpSocket == own.tcpSocket && own.tcpSocket in k.fdConn && k.fdConn[own.tcpSocket] == link)
    }

    ghost predicate BufferInv()
      reads buffer, alloc
    {
      buffer.alloc == alloc && buffer.Valid() && alloc.live == buffer.Block()
    }

    /** The client is in state `v`. */
    ghost predicate At(v: View)
      reads this`own, this`server, this`link, this`start, this`trace, this`cut, this`torn, pollFds
      reads k`news, k`next, k`conns, k`fdConn, k`own, k`unused, buffer, alloc
    {
      && Shape() && Linked() && BufferInv() && start <= k.next
      && v == View(k.orderly, k.conns[link], cut, torn, k.datagrams[start..], k.next - start, trace)
    }

    /** The state `udtcp_create_client` leaves: the sockets of its record are in the poll
        table, the TCP one already closed again, and there is no buffer. */
    constructor (k: Kernel, alloc: Allocator, own: Infos)
      requires k.Valid() && (forall d | d in k.datagrams :: Fits(d)) && alloc.live == {}
      requires own.udpServerSocket in k.own && own.udpServerSocket in k.receiving
      requires own.tcpSocket != own.udpServerSocket && own.tcpSocket != -1
      ensures Shape() && BufferInv() && buffer.Block() == {}
      ensures this.k == k && this.alloc == alloc && this.own == own && pollFds[0].fd == own.tcpSocket && trace == []
      ensures fresh(buffer) && fresh(pollFds)
    {
      this.k := k;
      this.alloc := alloc;
      var receive := new ReceiveBuffer(alloc);
      this.buffer := receive;
      var fds := new PollFd[2](_ => PollFd(own.udpServerSocket, Quiet));
      fds[0] := PollFd(own.tcpSocket, Quiet);
      this.pollFds := fds;
      this.own := own;
      this.server := own;
      this.pollLoop := false;
      this.trace, this.cut, this.torn, this.link, this.start := [], false, false, 0, 0;
    }

    /** `create_tcp_socket`; a failure leaves the number of a closed socket, or -1. */
    method CreateTcpSocket() returns (ok: bool)
      requires Shape()
      modifies this`own, k`conns, k`fdConn, k`news, k`unused, k`calls
      ensures Shape() && own == old(own).(tcpSocket := own.tcpSocket)
      ensures ok ==> SocketOpen(old(k.conns), old(k.fdConn))
      ensures !ok ==> SocketClosed(old(k.conns), old(k.fdConn))
      ensures old(k.calls) <= k.calls && |old(k.calls)| < |k.calls|
      ensures var m := Since(old(k.calls), k.calls);
              && m[0].Opened?
              && if m[0].fd == -1 then |m| == 1 && !ok
                 else |m| == 2 && m[1].Tried? && m[1].task == Ready && ok == m[1].ok
    {
      hide Kernel.Valid;
      hide Kernel.Made;
      hide Fits;
      hide SocketOpen;
      hide SocketClosed;
      ghost var conns, fdConn, news := k.conns, k.fdConn, k.news;
      NotOpen();
      var fd := k.Socket();
      own := own.(tcpSocket := fd);
      if own.tcpSocket == -1 {
        NothingMade(conns, fdConn);
        return false;
      }
      MadeIsOpen(conns, fdConn, news);
      ok := k.Try(Ready);
      if !ok {
        CloseTcpSocket(conns, fdConn);
      }
    }

    lemma NothingMade(conns: seq<Conn>, fdConn: map<int, nat>)
      requires own.tcpSocket !in fdConn && k.conns == conns && k.fdConn == fdConn
      ensures SocketClosed(conns, fdConn)
    {
    }

    lemma MadeIsOpen(conns: seq<Conn>, fdConn: map<int, nat>, news: News)
      requires k.Made(own.tcpSocket, conns, fdConn, news)
      ensures SocketOpen(conns, fdConn)
    {
    }

    /** Without a socket there is nothing to close. */
    lemma NotOpen()
      requires k.Valid()
      ensures -1 !in k.fdConn
    {
    }

    /** The socket of this connect attempt is the last connection, and open. */
    ghost predicate SocketOpen(conns: seq<Conn>, fdConn: map<int, nat>)
      reads this`own, k`conns, k`fdConn
    {
      && |k.conns| == |conns| + 1 && k.conns[..|conns|] == conns
      && own.tcpSocket >= 0 && own.tcpSocket !in fdConn && k.fdConn == fdConn[own.tcpSocket := |conns|]
      && var c := k.conns[|conns|]; c == Conn(c.peer, 0, [], own.tcpSocket, 0)
    }

    /** The socket of this connect attempt, if there was one, has been closed once. */
    ghost predicate SocketClosed(conns: seq<Conn>, fdConn: map<int, nat>)
      reads this`own, k`conns, k`fdConn
    {
      && k.fdConn == fdConn && own.tcpSocket !in fdConn && conns <= k.conns && |k.conns| <= |conns| + 1
      && (|k.conns| == |conns| + 1 ==> k.conns[|conns|].closes == 1 && k.conns[|conns|].fd == -1)
    }

    /** `close_tcp_socket`. */
    method CloseTcpSocket(ghost conns: seq<Conn>, ghost fdConn: map<int, nat>)
      requires Shape() && SocketOpen(conns, fdConn)
      modifies k`conns, k`fdConn
      ensures Shape() && SocketClosed(conns, fdConn)
    {
      k.CloseConn(own.tcpSocket);
      assert k.fdConn == fdConn;
    }

    /** `initialize_connection`: reads the server's record, then sends the client's.  It
        succeeds exactly with a whole record and a record sent, and reports a full server
        exactly when it has read one byte. */
    method InitializeConnection() returns (ret: ConnectResult)
      requires k.Valid()
      modifies this`server, k`news, k`calls
      ensures k.Valid() && More(old(k.news), k.news)
      ensures old(k.calls) <= k.calls && GreetAnswered(Since(old(k.calls), k.calls), ret)
      ensures server == Greeted(Since(old(k.calls), k.calls), old(server))
    {
      hide Kernel.errno;
      ghost var start := k.calls;
      var ready := k.Wait();
      SinceSnoc(start, start, Waited(ready, k.errno()));
      ghost var waited := k.calls;
      if ready < 0 {
        return ConnectError;
      } else if ready == 0 {
        k.Assign(TimedOut);
        SinceSnoc(start, waited, Assigned(TimedOut));
        return ConnectError;
      }
      var read := k.RecvReply();
      SinceSnoc(start, waited, Replied(read, k.errno()));
      ghost var replied := k.calls;
      match read {
        case NoReply => return ConnectError;
        case ReplyFailed => return ConnectError;
        case Part(mixed) =>
          server := mixed;
          return ConnectError;
        case OneByte(idField) =>
          server := server.(id := idField);
          return ConnectTooMany;
        case Record(record) =>
          server := record;
      }
      var ok := k.Try(SendRecord);
      SinceSnoc(start, replied, Tried(SendRecord, ok, k.errno()));
      return if ok then ConnectSuccess else ConnectError;
    }

    /** `connect`, and the wait for it if it takes time. */
    method Dial() returns (ret: ConnectResult)
      requires k.Valid()
      modifies k`news, k`calls
      ensures k.Valid() && More(old(k.news), k.news)
      ensures old(k.calls) <= k.calls && DialAnswered(Since(old(k.calls), k.calls), ret)
    {
      var connected := k.Try(Task.Dial);
      if connected {
        return ConnectSuccess;
      }
      if k.errno() != InProgress {
        return ConnectError;
      }
      var ready, hungUp := k.WaitDial();
      if ready < 0 {
        return ConnectError;
      } else if ready == 0 {
        k.Assign(TimedOut);
        return ConnectTimeout;
      }
      if hungUp {
        k.Assign(ConnRefused);
        return ConnectError;
      }
      return ConnectSuccess;
    }

    /** The last call has readied the socket. */
    ghost predicate Readied(calls: seq<Call>) {
      LastCall(calls).Tried? && LastCall(calls).task == Ready && LastCall(calls).ok
    }

    /** `udtcp_connect_client` up to the end of the handshake. */
    method Establish(host: Option<int>, tcpPort: int) returns (ret: ConnectResult)
      requires Shape()
      modifies this`own, this`server, k`conns, k`fdConn, k`news, k`unused, k`calls
      ensures Shape() && own == old(own).(tcpSocket := own.tcpSocket)
      ensures if ret == ConnectSuccess || (host == None && Readied(k.calls))
              then SocketOpen(old(k.conns), old(k.fdConn))
              else SocketClosed(old(k.conns), old(k.fdConn))
      ensures old(k.calls) <= k.calls && ConnectAnswered(Since(old(k.calls), k.calls), host.Some?, ret)
      ensures ret == ConnectSuccess ==> host.Some? && RecordReceived(k.calls, server)
    {
      hide Kernel.Valid;
      hide DialAnswered;
      hide GreetAnswered;
      ghost var start := k.calls;
      var ok := CreateTcpSocket();
      if !ok {
        return ConnectError;
      }
      if host == None {
        return ConnectError;
      }
      server := server.(tcpAddr := Addr(host.value, tcpPort));
      ghost var before, dialled := k.calls, [];
      ret := Dial();
      dialled := k.calls;
      if ret == ConnectSuccess {
        ret := InitializeConnection();
        BothHalves(start, before, dialled, k.calls, ret);
        if ret == ConnectSuccess {
          GreetedRecord(dialled, k.calls);
        }
      } else {
        OnlyDialled(start, before, dialled, ret);
      }
      if ret != ConnectSuccess {
        CloseTcpSocket(old(k.conns), old(k.fdConn));
      }
    }

    /** The record read last but one call ago. */
    ghost predicate RecordReceived(calls: seq<Call>, record: Infos) {
      |calls| >= 2 && calls[|calls| - 2].Replied? && calls[|calls| - 2].reply == Record(record)
    }

    lemma GreetedRecord(a: seq<Call>, b: seq<Call>)
      requires a <= b && GreetAnswered(Since(a, b), ConnectSuccess)
      ensures forall server :: RecordReceived(b, Greeted(Since(a, b), server))
    {
    }

    lemma BothHalves(start: seq<Call>, before: seq<Call>, dialled: seq<Call>, end: seq<Call>, ret: ConnectResult)
      requires start <= before <= dialled <= end && |before| == |start| + 2
      requires before[|start|].Opened? && before[|start|].fd != -1
      requires before[|start| + 1].Tried? && before[|start| + 1].task == Ready && before[|start| + 1].ok
      requires DialAnswered(Since(before, dialled), ConnectSuccess) && GreetAnswered(Since(dialled, end), ret)
      ensures ConnectAnswered(Since(start, end), true, ret)
    {
      var m, n := Since(start, end), |dialled| - |start|;
      assert m[2..n] == Since(before, dialled) && m[n..] == Since(dialled, end);
      assert |Since(before, dialled)| >= 1;
    }

    lemma OnlyDialled(start: seq<Call>, before: seq<Call>, dialled: seq<Call>, ret: ConnectResult)
      requires start <= before <= dialled && |before| == |start| + 2 && ret != ConnectSuccess
      requires before[|start|].Opened? && before[|start|].fd != -1
      requires before[|start| + 1].Tried? && before[|start| + 1].task == Ready && before[|start| + 1].ok
      requires DialAnswered(Since(before, dialled), ret)
      ensures ConnectAnswered(Since(start, dialled), true, ret)
    {
      assert Since(start, dialled)[2..] == Since(before, dialled);
    }

    /** `udtcp_connect_client`.  On success the client is connected, at the start of the
        stream, and its entry for the server is the received record with the server's
        address and the client's own sockets crossed over.  On failure nothing is
        announced, and the socket made for the attempt has been closed, except when the
        host name is unknown: then it stays open. */
    method Connect(host: Option<int>, tcpPort: int) returns (ret: ConnectResult, ghost w: View, ghost record: Infos)
      requires Shape() && BufferInv()
      modifies this`own, this`server, this`trace, this`cut, this`torn, this`link, this`start
      modifies k`conns, k`fdConn, k`news, k`unused, k`calls
      ensures Shape() && BufferInv() && own == old(own).(tcpSocket := own.tcpSocket)
      ensures if ret == ConnectSuccess || (host == None && Readied(k.calls))
              then SocketOpen(old(k.conns), old(k.fdConn))
              else SocketClosed(old(k.conns), old(k.fdConn))
      ensures ret == ConnectSuccess ==> && At(w) && Inv(w) && w.trace == [Event.Connect(0)]
                                        && !w.cut && !w.torn && w.taken == 0
                                        && w.conn.pos == 0 && own.tcpSocket != -1 && host.Some?
                                        && server == ClientEntry(record, host.value, own)
      ensures ret != ConnectSuccess ==> trace == old(trace)
      ensures old(k.calls) <= k.calls && ConnectAnswered(Since(old(k.calls), k.calls), host.Some?, ret)
      ensures ret == ConnectSuccess ==> RecordReceived(k.calls, record)
    {
      hide Kernel.Valid;
      hide BufferInv;
      hide Fits;
      hide Inv;
      hide ConnectAnswered;
      ret := Establish(host, tcpPort);
      record := server;
      w := View(k.orderly, Conn(Remote(Addr(0, 0), [], false, false), 0, [], -1, 0), false, false, [], 0, []);
      if ret == ConnectSuccess {
        w := Enter(host.value, old(k.conns), old(k.fdConn));
      }
    }

    /** The end of `udtcp_connect_client`: the record is rewired and the connection announced. */
    method Enter(host: int, ghost conns: seq<Conn>, ghost fdConn: map<int, nat>) returns (ghost w: View)
      requires Shape() && BufferInv() && SocketOpen(conns, fdConn)
      modifies this`server, this`trace, this`cut, this`torn, this`link, this`start
      ensures At(w) && Inv(w) && w.trace == [Event.Connect(0)] && !w.cut && !w.torn && w.taken == 0 && w.conn.pos == 0
      ensures server == ClientEntry(old(server), host, own)
    {
      hide Kernel.Valid;
      hide BufferInv;
      hide Fits;
      hide Inv;
      Rewire(host);
      link, start, cut, torn, trace := |k.conns| - 1, k.next, false, false, [Event.Connect(0)];
      k.QueueBound();
      w := View(k.orderly, k.conns[link], false, false, k.datagrams[start..], 0, trace);
      NewConnection(w);
    }

    /** The end of `udtcp_connect_client`. */
    method Rewire(host: int)
      modifies this`server
      ensures server == ClientEntry(old(server), host, own)
    {
      server := server.(tcpAddr := server.tcpAddr.(ip := host));
      server := server.(udpServerAddr := server.udpServerAddr.(ip := host));
      server := server.(udpClientAddr := server.udpClientAddr.(ip := host));
      server := server.(tcpSocket := own.tcpSocket);
      server := server.(udpServerSocket := own.udpClientSocket);
      server := server.(udpClientSocket := own.udpServerSocket);
      server := server.(send := 0);
      server := server.(id := 0);
    }

    lemma NewConnection(w: View)
      requires w.trace == [Event.Connect(0)] && !w.cut && !w.torn && w.taken == 0 && w.conn.pos == 0
      ensures Inv(w)
    {
      assert [Event.Connect(0)] == [] + [Event.Connect(0)];
      Snoc([], Event.Connect(0));
    }

    /** Reads `poll_loop`, which another thread may clear at any moment. */
    method LoopFlag() returns (on: bool)
      modifies this`pollLoop, k`calls
      ensures on == pollLoop && DrainedBy(old(k.calls), k.calls, old(pollLoop), pollLoop, true)
      ensures k.errno() == old(k.errno()) && (on ==> k.calls == old(k.calls))
    {
      var cleared := k.Interference(pollLoop);
      if cleared {
        pollLoop := false;
      }
      on := pollLoop;
    }

    /** How much of the server's stream has arrived. */
    ghost predicate HasArrived(arrived: nat)
      reads this`link, k`news
    {
      link < |k.news.arrived| && arrived == k.news.arrived[link]
    }

    /** Reads a frame of the server's stream through the receive buffer. */
    method ReadFrame(ghost v: View) returns (r: TcpRead, ghost taken: seq<byte>, ghost arrived: nat)
      requires At(v) && Inv(v) && own.tcpSocket != -1
      modifies buffer, buffer.Block(), alloc`live, alloc`refused, k`conns, k`news, k`calls
      ensures More(old(k.news), k.news) && HasArrived(arrived)
      ensures Known(v.conn, v.orderly, r, taken, arrived, old(k.errno()), k.errno())
      ensures k.faultless && alloc.reliable ==> KnownFaultless(v.conn, r, taken, arrived, old(k.errno()), k.errno())
      ensures Answered(old(k.calls), k.calls, own.tcpSocket, r.Frame?, r.Ended?)
      ensures At(v.(conn := v.conn.(pos := v.conn.pos + |taken|)))
      ensures r.Frame? ==> r.size == |taken| - WORD_SIZE && buffer.Holds(taken[WORD_SIZE..], 0)
      ensures buffer.data == old(buffer.data) || (buffer.data != null && fresh(buffer.data))
    {
      hide Kernel.Valid;
      hide Inv;
      hide ReadOf;
      hide OrderlyRead;
      hide FaultlessRead;
      hide Answered;
      k.Bounds(server.tcpSocket);
      r, taken := buffer.ReceiveTcp(k, server.tcpSocket);
      k.Bounds(server.tcpSocket);
      arrived := k.news.arrived[link];
    }

    /** `receive_tcp`: reports the next frame of the server's stream, or nothing. */
    method ReceiveTcp(ghost v: View) returns (ret: int, ghost r: TcpRead, ghost taken: seq<byte>, ghost arrived: nat)
      requires At(v) && Inv(v) && own.tcpSocket != -1 && !v.torn
      modifies this`trace, this`torn, buffer, buffer.Block(), alloc`live, alloc`refused, k`conns, k`news, k`calls
      ensures More(old(k.news), k.news) && HasArrived(arrived)
      ensures Known(v.conn, v.orderly, r, taken, arrived, old(k.errno()), k.errno())
      ensures k.faultless && alloc.reliable ==> KnownFaultless(v.conn, r, taken, arrived, old(k.errno()), k.errno())
      ensures Answered(old(k.calls), k.calls, own.tcpSocket, r.Frame?, r.Ended?)
      ensures At(AfterRead(v, r, taken)) && Inv(AfterRead(v, r, taken))
      ensures ret == match r { case Frame(_) => 1 case Ended => 0 case Error => -1 }
      ensures buffer.data == old(buffer.data) || (buffer.data != null && fresh(buffer.data))
    {
      hide Kernel.Valid;
      hide Inv;
      hide OrderlyRead;
      hide KnownFaultless;
      hide Answered;
      hide BufferInv;
      hide Shape;
      var read;
      read, taken, arrived := ReadFrame(v);
      assert v.conn.Here(arrived) <= v.conn.Unread();
      AfterReadKeepsInv(v, read, taken);
      r := read;
      match read {
        case Frame(size) =>
          trace := trace + [TcpData(0, buffer.data[..size])];
          ret := 1;
        case Ended =>
          torn := torn || taken != [];
          ret := 0;
        case Error =>
          torn := torn || taken != [];
          ret := -1;
      }
    }

    /** Reads the next datagram through the receive buffer. */
    method ReadDatagram(ghost v: View) returns (r: UdpRead, ghost taken: bool)
      requires At(v) && Inv(v)
      modifies buffer, buffer.Block(), alloc`live, alloc`refused, k`next, k`calls
      ensures taken ==> v.taken < |v.queue| && |v.queue[v.taken].data| >= WORD_SIZE
      ensures At(if taken then v.(taken := v.taken + 1) else v)
      ensures k.faultless && alloc.reliable && start + v.taken < k.news.queued && v.taken < |v.queue|
              ==> (taken <==> |v.queue[v.taken].data| >= WORD_SIZE)
      ensures r.Message? <==> taken && WellFormed(v.queue[v.taken])
      ensures Answered(old(k.calls), k.calls, -1, r.Message?, r == NoData)
      ensures QueueRefused(v, taken, r == NoData, old(k.errno()))
      ensures r.Message? ==> && r.size == |Declared(v.queue[v.taken])|
                             && buffer.Holds(Declared(v.queue[v.taken]), WORD_SIZE)
      ensures buffer.data == old(buffer.data) || (buffer.data != null && fresh(buffer.data))
    {
      hide Kernel.Valid;
      hide WellFormed;
      hide Fits;
      hide Answered;
      k.QueueBound();
      QueueRead(v);
      hide Inv;
      r, taken := buffer.ReceiveUdp(k);
    }

    /** `receive_udp`: reports the payload of the datagram taken, if it is well formed. */
    method ReceiveUdp(ghost v: View) returns (ret: int, ghost taken: bool)
      requires At(v) && Inv(v)
      modifies this`trace, buffer, buffer.Block(), alloc`live, alloc`refused, k`next, k`calls
      ensures taken ==> v.taken < |v.queue| && |v.queue[v.taken].data| >= WORD_SIZE
      ensures At(if taken then Taken(v) else v) && Inv(if taken then Taken(v) else v)
      ensures ret > 0 <==> taken && WellFormed(v.queue[v.taken])
      ensures -1 <= ret <= 1 && Answered(old(k.calls), k.calls, -1, ret > 0, ret == 0)
      ensures QueueRefused(v, taken, ret == 0, old(k.errno()))
      ensures k.faultless && alloc.reliable && start + v.taken < k.news.queued && v.taken < |v.queue|
              ==> (taken <==> |v.queue[v.taken].data| >= WORD_SIZE)
      ensures buffer.data == old(buffer.data) || (buffer.data != null && fresh(buffer.data))
    {
      hide Shape;
      hide BufferInv;
      hide WellFormed;
      hide Inv;
      hide Answered;
      if v.taken < |v.queue| {
        TakenKeepsInv(v);
      }
      var read;
      read, taken := ReadDatagram(v);
      assert v.trace + [] == v.trace;
      match read {
        case NoData => ret := 0;
        case Refused => ret := -1;
        case Message(_, size) =>
          trace := trace + [UdpData(0, buffer.data[WORD_SIZE..WORD_SIZE + size])];
          ret := 1;
      }
    }

    /** How `errno` and the result tell, in a faultless environment, what the queue held. */
    ghost predicate QueueRefused(v: View, taken: bool, ended: bool, before: Errno)
      reads k`news, k`calls, this`start
    {
      && (taken ==> !ended && k.errno() == before)
      && (k.faultless && alloc.reliable && start + v.taken >= k.news.queued ==> !ended && k.errno() == WouldBlock)
      && (k.faultless && alloc.reliable && start + v.taken < k.news.queued && v.taken < |v.queue| && !taken ==>
            k.errno() == before && (ended <==> |v.queue[v.taken].data| == 0))
    }

    lemma QueueRead(v: View)
      requires At(v) && Inv(v)
      ensures v.taken <= |v.queue| == |k.datagrams| - start && k.next == start + v.taken
      ensures k.news.queued <= start + |v.queue|
      ensures forall n | 0 <= n < |v.queue| :: v.queue[n] == k.datagrams[start + n]
    {
    }

    /** `disconnect`. */
    method Disconnect(ghost v: View)
      requires At(v) && Inv(v)
      modifies this`own, this`trace, this`torn, k`conns, k`fdConn
      ensures At(Dropped(v)) && Inv(Dropped(v)) && own == old(own).(tcpSocket := -1)
    {
      hide Inv;
      hide Kernel.Valid;
      hide BufferInv;
      hide Fits;
      DroppedKeepsInv(v);
      AtShape(v);
      if own.tcpSocket != -1 {
        k.CloseConn(own.tcpSocket);
      }
      own := own.(tcpSocket := -1);
      torn := false;
      trace := trace + [Event.Disconnect(0)];
    }

    /** Notes, for the statements only, that the connection stays. */
    ghost method Keep(v: View)
      requires At(v)
      modifies this`torn, this`cut
      ensures At(Kept(v))
    {
      cut, torn := cut || torn, false;
    }

    /** `receive_tcp` has been called in state `u` and has ended in `r` with result `ret`;
        since `v` only whole frames had been read. */
    ghost predicate LastRead(v: View, u: View, ret: int, r: TcpRead, taken: seq<byte>, arrived: nat, before: Errno,
                             after: Errno, left: nat)
      reads this`own, this`server, this`link, this`start, this`trace, this`cut, this`torn, pollFds
      reads k`news, k`next, k`conns, k`fdConn, k`own, k`unused, buffer, alloc
    {
      && own.tcpSocket != -1 && u.conn.fd != -1
      && Inv(u) && !u.torn && Continues(v, u, false) && u.cut == v.cut && u.taken == v.taken
      && left == |u.conn.Unread()|
      && HasArrived(arrived)
      && Known(u.conn, u.orderly, r, taken, arrived, before, after)
      && At(AfterRead(u, r, taken)) && Inv(AfterRead(u, r, taken))
      && ret == (match r { case Frame(_) => 1 case Ended => 0 case Error => -1 })
      && (k.faultless && alloc.reliable ==> KnownFaultless(u.conn, r, taken, arrived, before, after))
    }

    /** The first call of `receive_tcp` in the drain loop, or the next one. */
    method ReadNext(ghost v: View, ghost u: View)
      returns (ret: int, ghost r: TcpRead, ghost taken: seq<byte>, ghost arrived: nat)
      requires At(u) && Inv(u) && !u.torn && Continues(v, u, false) && u.cut == v.cut && u.taken == v.taken
      requires own.tcpSocket != -1
      modifies this`trace, this`torn, buffer, buffer.Block(), alloc`live, alloc`refused, k`conns, k`news, k`calls
      ensures u.conn.Valid() && LastRead(v, u, ret, r, taken, arrived, old(k.errno()), k.errno(), |u.conn.Unread()|)
      ensures More(old(k.news), k.news)
      ensures k.orderly && ret > 0 ==> k.errno() == old(k.errno())
      ensures Answered(old(k.calls), k.calls, own.tcpSocket, ret > 0, ret == 0)
      ensures buffer.data == old(buffer.data) || (buffer.data != null && fresh(buffer.data))
    {
      hide Inv;
      hide At;
      hide Continues;
      hide KnownFaultless;
      AtShape(u);
      ret, r, taken, arrived := ReceiveTcp(u);
      ValidConn(u);
    }

    lemma ValidConn(u: View)
      requires Inv(u)
      ensures u.conn.Valid()
    {
    }

    lemma ReadOnTo(v: View, u: View, ret: int, r: TcpRead, taken: seq<byte>, arrived: nat, before: Errno,
                   after: Errno, left: nat)
      returns (w: View)
      requires LastRead(v, u, ret, r, taken, arrived, before, after, left) && ret > 0
      ensures At(w) && Inv(w) && !w.torn && Continues(v, w, false) && w.cut == v.cut && w.taken == v.taken
      ensures own.tcpSocket != -1
      ensures w.conn.Valid() && |w.conn.Unread()| < left
    {
      hide Inv;
      hide At;
      hide Continues;
      hide OrderlyRead;
      hide KnownFaultless;
      w := AfterRead(u, r, taken);
      FrameContinues(u, r, taken);
      ContinuesOn(v, u, w, false);
      ValidConn(w);
    }

    /** One call of `receive_tcp` in the drain that began with the calls `start`, and the test
        of the loop flag behind it. */
    method ReadAndTest(ghost v: View, ghost u: View, ghost start: seq<Call>, ghost was: bool)
      returns (ret: int, on: bool, ghost r: TcpRead, ghost taken: seq<byte>, ghost arrived: nat)
      requires At(u) && Inv(u) && !u.torn && Continues(v, u, false) && u.cut == v.cut && u.taken == v.taken
      requires own.tcpSocket != -1 && DrainedBy(start, k.calls, was, pollLoop, true)
      modifies this`trace, this`torn, this`pollLoop, buffer, buffer.Block()
      modifies alloc`live, alloc`refused, k`conns, k`news, k`calls
      ensures u.conn.Valid() && More(old(k.news), k.news)
      ensures LastRead(v, u, ret, r, taken, arrived, old(k.errno()), k.errno(), |u.conn.Unread()|)
      ensures k.orderly && ret > 0 ==> k.errno() == old(k.errno())
      ensures on == pollLoop && (on && ret <= 0 ==> !Fine(LastCall(k.calls)))
      ensures DrainedBy(start, k.calls, was, on, ret > 0 || (ret != 0 && k.errno() == WouldBlock))
      ensures buffer.data == old(buffer.data) || (buffer.data != null && fresh(buffer.data))
    {
      hide Inv;
      hide At;
      hide Continues;
      hide LastRead;
      hide Answered;
      hide DrainedBy;
      hide Fine;
      ghost var between := k.calls;
      ret, r, taken, arrived := ReadNext(v, u);
      ghost var read := k.calls;
      on := LoopFlag();
      DrainedMore(start, between, read, k.calls, was, old(pollLoop), on, own.tcpSocket, ret > 0, ret == 0);
    }

    /** The drain loop: `receive_tcp` until it fails, ends, or the loop flag drops.  `u` is
        the state before the last call, which ended in `r`. */
    method DrainTcp(ghost v: View)
      returns (ret: int, ghost u: View, ghost r: TcpRead, ghost taken: seq<byte>, ghost arrived: nat,
               ghost before: Errno, ghost left: nat)
      requires At(v) && Inv(v) && own.tcpSocket != -1 && !v.torn
      modifies this`trace, this`torn, this`pollLoop, buffer, buffer.Block()
      modifies alloc`live, alloc`refused, k`conns, k`news, k`calls
      ensures LastRead(v, u, ret, r, taken, arrived, before, k.errno(), left) && More(old(k.news), k.news)
      ensures k.orderly ==> before == old(k.errno())
      ensures DrainedBy(old(k.calls), k.calls, old(pollLoop), pollLoop,
                        ret > 0 || (ret != 0 && k.errno() == WouldBlock))
      ensures pollLoop ==> ret <= 0 && !Fine(LastCall(k.calls))
      ensures buffer.data == old(buffer.data) || (buffer.data != null && fresh(buffer.data))
    {
      hide Inv;
      hide At;
      hide Continues;
      hide LastRead;
      hide DrainedBy;
      hide Fine;
      hide LastCall;
      hide Kernel.errno;
      ghost var start := k.calls;
      ValidConn(v);
      ContinuesSelf(v);
      DrainedNone(start, pollLoop);
      u, left, before := v, |v.conn.Unread()|, k.errno();
      var on;
      ret, on, r, taken, arrived := ReadAndTest(v, u, start, pollLoop);
      while on && ret > 0
        invariant LastRead(v, u, ret, r, taken, arrived, before, k.errno(), left) && More(old(k.news), k.news)
        invariant k.orderly ==> before == old(k.errno()) && (ret > 0 ==> k.errno() == before)
        invariant on == pollLoop && (on && ret <= 0 ==> !Fine(LastCall(k.calls)))
        invariant DrainedBy(start, k.calls, old(pollLoop), on, ret > 0 || (ret != 0 && k.errno() == WouldBlock))
        invariant buffer.data == old(buffer.data) || (buffer.data != null && fresh(buffer.data))
        decreases left
      {
        u := ReadOnTo(v, u, ret, r, taken, arrived, before, k.errno(), left);
        left, before := |u.conn.Unread()|, k.errno();
        ret, on, r, taken, arrived := ReadAndTest(v, u, start, old(pollLoop));
      }
    }

    lemma ContinuesSelf(v: View)
      requires !v.torn
      ensures Continues(v, v, false)
    {
    }

    /** The drain loop of the TCP socket and what follows it: a stream that ends, or fails
        for another reason than "nothing to read", is disconnected.  `arrived` bytes of it
        have arrived in the end. */
    method ServeTcp(ghost v: View) returns (gone: bool, ghost w: View, ghost arrived: nat)
      requires At(v) && Inv(v) && own.tcpSocket != -1 && !v.torn
      modifies this`trace, this`cut, this`torn, this`own, this`pollLoop
      modifies buffer, buffer.Block(), alloc`live, alloc`refused, k`conns, k`news, k`fdConn, k`calls
      ensures At(w) && Inv(w) && Continues(v, w, gone) && w.taken == v.taken
      ensures own == if gone then old(own).(tcpSocket := -1) else old(own)
      ensures HasArrived(arrived) && More(old(k.news), k.news)
      ensures k.orderly ==> CutOnlyThen(v, w, arrived, old(k.errno()))
      ensures k.faultless && alloc.reliable && pollLoop ==> DrainedExactly(v, w, arrived, old(k.errno()), gone)
      ensures DrainedBy(old(k.calls), k.calls, old(pollLoop), pollLoop, !gone)
      ensures pollLoop ==> !Fine(LastCall(k.calls))
      ensures buffer.data == old(buffer.data) || (buffer.data != null && fresh(buffer.data))
    {
      hide Inv;
      hide At;
      hide Continues;
      hide Known;
      hide KnownFaultless;
      hide CutOnlyThen;
      hide DrainedExactly;
      hide DrainedBy;
      hide Fine;
      hide Kept;
      hide Dropped;
      AtShape(v);
      ghost var u, r, taken, before, left;
      var ret;
      ret, u, r, taken, arrived, before, left := DrainTcp(v);
      EndOfDrain(v, u, r, taken, arrived, before, k.errno());
      w := AfterRead(u, r, taken);
      gone := ret == 0 || (ret < 0 && k.errno() != WouldBlock);
      if k.faultless && alloc.reliable && pollLoop {
        DrainEndsExactly(v, u, r, taken, arrived, before, k.errno());
      }
      if gone {
        Disconnect(w);
        w := Dropped(w);
        NotCut(v, w, arrived, before);
      } else {
        Keep(w);
        w := Kept(w);
      }
    }

    lemma NotCut(v: View, w: View, arrived: nat, before: Errno)
      requires w.cut == v.cut
      ensures CutOnlyThen(v, w, arrived, before)
    {
    }

    /** A drain of the queue that began in `v` can go on: all it has taken was reported. */
    ghost predicate GoesOn(v: View, u: View) {
      && Inv(u) && OnlyDatagrams(v, u) && u.queue == v.queue && u.taken <= |u.queue|
      && (v.taken < u.taken ==> WellFormed(u.queue[u.taken - 1]))
    }

    /** One call of `receive_udp` in that drain, and the test of the loop flag behind it. */
    method TakeAndTest(ghost v: View, ghost u: View, ghost calls: seq<Call>, ghost was: bool)
      returns (ret: int, on: bool, ghost w: View)
      requires At(u) && GoesOn(v, u) && DrainedBy(calls, k.calls, was, pollLoop, true)
      modifies this`trace, this`pollLoop, buffer, buffer.Block(), alloc`live, alloc`refused, k`next, k`calls
      ensures At(w) && Inv(w) && OnlyDatagrams(v, w) && -1 <= ret <= 1 && w.taken >= u.taken
      ensures on == pollLoop && (on && ret <= 0 ==> !Fine(LastCall(k.calls)))
      ensures DrainedBy(calls, k.calls, was, on, ret > 0 || (ret != 0 && k.errno() == WouldBlock))
      ensures ret > 0 ==> k.errno() == old(k.errno()) && GoesOn(v, w) && w.taken > u.taken
      ensures k.faultless && alloc.reliable && ret <= 0 ==>
                QueueDrained(v, w, k.news.queued - start, old(k.errno()), ret == 0 || k.errno() != WouldBlock)
      ensures buffer.data == old(buffer.data) || (buffer.data != null && fresh(buffer.data))
    {
      hide At;
      hide Inv;
      hide Answered;
      hide DrainedBy;
      hide Fine;
      hide QueueRefused;
      hide QueueDrained;
      hide OnlyDatagrams;
      hide WellFormed;
      ghost var between := k.calls;
      QueueRead(u);
      ghost var taken;
      ret, taken := ReceiveUdp(u);
      w := AfterUdp(v, u, taken);
      DrainStopped(v, u, w, taken, ret, old(k.errno()));
      ghost var read := k.calls;
      on := LoopFlag();
      DrainedMore(calls, between, read, k.calls, was, old(pollLoop), on, -1, ret > 0, ret == 0);
    }

    /** The drain loop of the UDP socket: takes datagrams until one is not reported. */
    method DrainUdp(ghost v: View) returns (ret: int, ghost w: View)
      requires At(v) && Inv(v) && !v.torn
      modifies this`trace, this`pollLoop, buffer, buffer.Block(), alloc`live, alloc`refused, k`next, k`calls
      ensures At(w) && Inv(w) && OnlyDatagrams(v, w) && -1 <= ret <= 1
      ensures DrainedBy(old(k.calls), k.calls, old(pollLoop), pollLoop,
                        ret > 0 || (ret != 0 && k.errno() == WouldBlock))
      ensures pollLoop ==> ret <= 0 && !Fine(LastCall(k.calls))
      ensures k.faultless && alloc.reliable && pollLoop ==>
                QueueDrained(v, w, k.news.queued - start, old(k.errno()), ret == 0 || k.errno() != WouldBlock)
      ensures buffer.data == old(buffer.data) || (buffer.data != null && fresh(buffer.data))
    {
      hide At;
      hide Inv;
      hide DrainedBy;
      hide Fine;
      hide LastCall;
      hide Kernel.errno;
      hide QueueDrained;
      hide OnlyDatagrams;
      hide GoesOn;
      DrainBegins(v);
      ghost var calls := k.calls;
      DrainedNone(calls, pollLoop);
      var on;
      ret, on, w := TakeAndTest(v, v, calls, pollLoop);
      while on && ret > 0
        invariant At(w) && Inv(w) && OnlyDatagrams(v, w) && -1 <= ret <= 1
        invariant on == pollLoop && (on && ret <= 0 ==> !Fine(LastCall(k.calls)))
        invariant DrainedBy(calls, k.calls, old(pollLoop), on, ret > 0 || (ret != 0 && k.errno() == WouldBlock))
        invariant ret > 0 ==> k.errno() == old(k.errno()) && GoesOn(v, w)
        invariant k.faultless && alloc.reliable && ret <= 0 ==>
                    QueueDrained(v, w, k.news.queued - start, old(k.errno()), ret == 0 || k.errno() != WouldBlock)
        invariant buffer.data == old(buffer.data) || (buffer.data != null && fresh(buffer.data))
        decreases |v.queue| - w.taken + if ret > 0 then 1 else 0
      {
        StillTakes(v, w);
        ret, on, w := TakeAndTest(v, w, calls, old(pollLoop));
        StillTakes(v, w);
      }
    }

    lemma DrainBegins(v: View)
      requires At(v) && Inv(v) && !v.torn
      ensures GoesOn(v, v)
    {
      QueueRead(v);
    }

    lemma StillTakes(v: View, w: View)
      ensures GoesOn(v, w) ==> w.taken <= |v.queue|
    {
    }

    /** One call of `receive_udp` in the drain, made in state `u`: the drain goes on with
        `errno` as it was, or it is over. */
    lemma DrainStopped(v: View, u: View, w: View, taken: bool, ret: int, before: Errno)
      requires OnlyDatagrams(v, u) && -1 <= ret <= 1 && (taken ==> u.taken < |u.queue|)
      requires w == if taken then Taken(u) else u
      requires QueueRefused(u, taken, ret == 0, before) && (ret > 0 <==> taken && WellFormed(u.queue[u.taken]))
      requires k.faultless && alloc.reliable && start + u.taken < k.news.queued && u.taken < |u.queue|
               ==> (taken <==> |u.queue[u.taken].data| >= WORD_SIZE)
      requires k.news.queued <= start + |u.queue| && u.taken <= |u.queue|
      requires v.taken < u.taken ==> WellFormed(u.queue[u.taken - 1])
      ensures ret > 0 ==> && k.errno() == before && v.taken < w.taken <= |w.queue|
                          && WellFormed(w.queue[w.taken - 1])
      ensures k.faultless && alloc.reliable && ret <= 0 ==>
                QueueDrained(v, w, k.news.queued - start, before, ret == 0 || k.errno() != WouldBlock)
    {
      InOrder(v, u);
      hide OnlyDatagrams;
      hide WellFormed;
    }

    /** The UDP socket is readable: drains it; what follows is as for TCP. */
    method ServeUdp(ghost v: View) returns (gone: bool, ghost w: View)
      requires At(v) && Inv(v) && !v.torn
      modifies this`trace, this`torn, this`own, this`pollLoop
      modifies buffer, buffer.Block(), alloc`live, alloc`refused, k`next, k`conns, k`fdConn, k`calls
      ensures At(w) && Inv(w) && Continues(v, w, gone)
      ensures own == if gone then old(own).(tcpSocket := -1) else old(own)
      ensures StreamUntouched(v, w)
      ensures k.faultless && alloc.reliable && pollLoop ==>
                QueueDrained(v, w, k.news.queued - start, old(k.errno()), gone)
      ensures DrainedBy(old(k.calls), k.calls, old(pollLoop), pollLoop, !gone)
      ensures pollLoop ==> !Fine(LastCall(k.calls))
      ensures buffer.data == old(buffer.data) || (buffer.data != null && fresh(buffer.data))
    {
      hide At;
      hide Inv;
      hide Continues;
      hide WellFormed;
      hide DrainedBy;
      hide Fine;
      hide QueueDrained;
      var ret;
      ret, w := DrainUdp(v);
      gone := ret == 0 || (ret < 0 && k.errno() != WouldBlock);
      if gone {
        ghost var u := w;
        Disconnect(u);
        w := Dropped(u);
        DropAfterDatagrams(v, u);
        SameQueue(v, u, k.news.queued - start, old(k.errno()), gone);
      }
    }

    lemma SameQueue(v: View, u: View, queued: int, before: Errno, gone: bool)
      ensures QueueDrained(v, u, queued, before, gone) ==> QueueDrained(v, Dropped(u), queued, before, gone)
    {
    }

    lemma DropAfterDatagrams(v: View, u: View)
      requires OnlyDatagrams(v, u)
      ensures Continues(v, Dropped(u), true) && StreamUntouched(v, Dropped(u))
    {
      hide Continues;
      InOrder(v, u);
      DisconnectContinues(u);
      ContinuesOn(v, u, Dropped(u), true);
      DroppedStream(u);
      SamePeer(v, u);
    }

    lemma SamePeer(v: View, u: View)
      requires Continues(v, u, false)
      ensures u.conn.peer == v.conn.peer
    {
    }

    lemma DroppedStream(u: View)
      ensures TcpOf(Dropped(u).trace, 0) == TcpOf(u.trace, 0)
    {
      Snoc(u.trace, Event.Disconnect(0));
    }

    lemma TornNot(v: View, w: View)
      requires Continues(v, w, false)
      ensures !w.torn
    {
    }

    /** From `v` to `w` only datagrams have been taken. */
    ghost predicate OnlyDatagrams(v: View, w: View) {
      && Continues(v, w, false)
      && w.cut == v.cut && TcpOf(w.trace, 0) == TcpOf(v.trace, 0) && w.conn == v.conn
    }

    lemma AfterUdp(v: View, u: View, taken: bool) returns (w: View)
      requires OnlyDatagrams(v, u) && (taken ==> u.taken < |u.queue|)
      ensures w == if taken then Taken(u) else u
      ensures OnlyDatagrams(v, w)
      ensures w.taken == u.taken + (if taken then 1 else 0) && v.taken <= u.taken && w.queue == u.queue == v.queue
    {
      InOrder(v, u);
      hide Continues;
      w := u;
      if taken {
        w := Taken(u);
        TakenContinues(u);
        ContinuesOn(v, u, w, false);
        TakenStream(u);
        hide Taken;
      }
    }

    lemma InOrder(v: View, u: View)
      requires Continues(v, u, false)
      ensures !u.torn && v.taken <= u.taken && u.queue == v.queue
    {
    }

    lemma TakenStream(u: View)
      requires u.taken < |u.queue|
      ensures var w := Taken(u);
              && TcpOf(w.trace, 0) == TcpOf(u.trace, 0)
              && w.taken == u.taken + 1 && w.queue == u.queue && w.cut == u.cut && w.conn == u.conn
    {
      var d := u.queue[u.taken];
      if WellFormed(d) {
        Snoc(u.trace, UdpData(0, Declared(d)));
      } else {
        assert u.trace + [] == u.trace;
      }
    }

    lemma AtShape(v: View)
      requires At(v)
      ensures Shape() && v.torn == torn && v.orderly == k.orderly
      ensures own.tcpSocket != own.udpServerSocket
      ensures own.tcpSocket != -1 ==> own.tcpSocket in k.fdConn && k.fdConn[own.tcpSocket] == link && v.conn.fd != -1
      ensures start <= k.next && v.conn == k.conns[link]
      ensures v.taken == k.next - start && |v.queue| == |k.datagrams| - start
      ensures link < |k.conns| == |k.news.arrived|
    {
    }

    /** The wait at the start of a poll touches only `revents`; a stream that it does not
        report, in a faultless environment, has been read as far as it has arrived. */
    method WaitForEvents(ghost v: View) returns (ret: int)
      requires At(v)
      modifies pollFds, k`news, k`ready, k`calls
      ensures At(v) && More(old(k.news), k.news)
      ensures ret >= 0 ==> k.errno() == old(k.errno())
      ensures k.calls == old(k.calls) + [Tabled(ret, if ret < 0 then [] else Marks(pollFds[..2]), k.errno())]
      ensures ret >= 0 ==> forall j | 0 <= j < 2 :: pollFds[j].revents == Readable <==> pollFds[j].fd in k.ready
      ensures ret == 0 ==> forall j | 0 <= j < 2 :: pollFds[j].revents == Quiet
      ensures ret >= 0 && k.faultless ==> NotReadyMeansRead(v, k.news)
      ensures k.faultless ==> ret >= 0 && (UnreadNow(v, k.news) && pollFds[0].fd == own.tcpSocket ==> ret > 0)
      ensures k.faultless && start + v.taken < k.news.queued ==> ret > 0 && pollFds[1].fd in k.ready
      ensures forall j | 0 <= j < 2 :: pollFds[j].fd == old(pollFds[j].fd)
    {
      hide BufferInv;
      AtShape(v);
      ret := k.Poll(pollFds, 2);
      EventsCount(Marks(pollFds[..2]));
      assert ret >= 0 ==> forall j | 0 <= j < 2 :: Marks(pollFds[..2])[j] == pollFds[j].revents;
    }

    /** Bytes of the server's stream have arrived that have not been read. */
    ghost predicate UnreadNow(v: View, news: News)
      reads this`own, this`link
    {
      own.tcpSocket != -1 && link < |news.arrived| && v.conn.pos < news.arrived[link]
    }

    ghost predicate NotReadyMeansRead(v: View, news: News)
      reads this`own, this`link, k`ready
    {
      own.tcpSocket != -1 && own.tcpSocket !in k.ready && link < |news.arrived| ==> news.arrived[link] <= v.conn.pos
    }

    /** A readable entry of the poll table, dispatched by its descriptor. */
    method ServeEntry(i: nat, ghost v: View, ghost heard: News) returns (gone: bool, ghost w: View)
      requires At(v) && Inv(v) && !v.torn && i < 2 && More(heard, k.news) && link < |heard.arrived|
      modifies this`trace, this`cut, this`torn, this`own, this`pollLoop
      modifies buffer, buffer.Block(), alloc`live, alloc`refused, k`news, k`next, k`conns, k`fdConn, k`calls
      ensures At(w) && Inv(w) && Continues(v, w, gone) && pollFds.Length == 2 && More(heard, k.news)
      ensures own == if gone then old(own).(tcpSocket := -1) else old(own)
      ensures i == 0 ==> w.taken == v.taken
      ensures i == 0 && pollFds[0].fd == old(own).tcpSocket && k.faultless && alloc.reliable && pollLoop
              ==> Told(v, w, heard.arrived[link])
      ensures i == 1 || pollFds[0].fd != old(own).tcpSocket ==> StreamUntouched(v, w)
      ensures i == 1 && k.faultless && alloc.reliable && pollLoop ==> QueueStops(v, w, heard.queued - start)
      ensures DrainedBy(old(k.calls), k.calls, old(pollLoop), pollLoop, !gone)
      ensures buffer.data == old(buffer.data) || (buffer.data != null && fresh(buffer.data))
    {
      hide At;
      hide Inv;
      hide Continues;
      hide DrainedExactly;
      hide CutOnlyThen;
      hide Told;
      hide DrainedBy;
      hide Fine;
      AtShape(v);
      ContinuesSelf(v);
      DrainedNone(k.calls, pollLoop);
      gone, w := false, v;
      if pollFds[i].fd == own.tcpSocket {
        ghost var arrived;
        ghost var before := k.errno();
        gone, w, arrived := ServeTcp(v);
        if k.faultless && alloc.reliable && pollLoop {
          ExactlyTold(v, w, arrived, before, gone, heard.arrived[link]);
        }
      } else if pollFds[i].fd == own.udpServerSocket {
        gone, w := ServeUdp(v);
      }
    }

    /** Of the stream nothing has been read. */
    ghost predicate StreamUntouched(v: View, w: View) {
      TcpOf(w.trace, 0) == TcpOf(v.trace, 0) && w.conn.pos == v.conn.pos && w.conn.peer == v.conn.peer && w.cut == v.cut
    }

    /** `udtcp_client_poll`.  The history grows by data, and at its very end by a
        disconnect only if the poll fails.  Its result is that of `PollAnswered`: an error
        exactly for a failed wait, an entry in trouble, or a lost connection, and it is lost
        exactly if one of the reads made demands it.  In a faultless run in which the loop
        flag stays on, every message that had arrived when the wait ended (`heard`) is
        reported, even if the connection is then lost, and a readable UDP socket is drained;
        but the TCP socket is served at all only if its number is still the one in the poll
        table. */
    method Poll(ghost v: View) returns (ret: PollResult, ghost w: View, ghost gone: bool, ghost heard: News)
      requires At(v) && Inv(v) && !v.torn
      modifies this`trace, this`cut, this`torn, this`own, this`pollLoop, pollFds
      modifies buffer, buffer.Block(), alloc`live, alloc`refused
      modifies k`news, k`next, k`conns, k`fdConn, k`calls, k`ready
      ensures At(w) && Inv(w) && Continues(v, w, gone)
      ensures PollCalls(old(k.calls), k.calls, old(pollLoop), pollLoop, !gone)
      ensures PollAnswered(k.calls[|old(k.calls)|], ret, gone, pollLoop)
      ensures ret == PollSignal || ret == PollTimeout ==> w == v
      ensures own == if gone then old(own).(tcpSocket := -1) else old(own)
      ensures pollFds.Length == 2 && pollFds[0].fd == old(pollFds[0].fd) && pollFds[1].fd == old(pollFds[1].fd)
      ensures pollFds[0].fd != old(own.tcpSocket) || pollFds[0].fd !in k.ready ==> StreamUntouched(v, w)
      ensures pollFds[1].fd !in k.ready ==> w.taken == v.taken
      ensures More(old(k.news), heard) && link < |heard.arrived|
      ensures k.faultless && alloc.reliable && pollLoop && pollFds[0].fd == old(own.tcpSocket) ==>
                && Told(v, w, heard.arrived[link])
                && (v.conn.pos < heard.arrived[link] ==> ret in {PollSuccess, PollError})
      ensures k.faultless && start + v.taken < heard.queued ==>
                ret in {PollSuccess, PollError} && pollFds[1].fd in k.ready
      ensures k.faultless && alloc.reliable && pollLoop && ret == PollSuccess && pollFds[1].fd in k.ready
              ==> QueueStops(v, w, heard.queued - start)
      ensures buffer.data == old(buffer.data) || (buffer.data != null && fresh(buffer.data))
    {
      hide At;
      hide Inv;
      hide Continues;
      hide Told;
      hide DrainedBy;
      hide NotReadyMeansRead;
      AtShape(v);
      ContinuesSelf(v);
      w, gone := v, false;
      ghost var start := k.calls;
      var ready := WaitForEvents(v);
      heard := k.news;
      ghost var waited := k.calls;
      DrainedNone(waited, pollLoop);
      assert waited[..|start| + 1] == waited;
      if ready <= 0 {
        if ready == 0 && k.faultless && pollFds[0].fd == own.tcpSocket {
          QuietMeansTold(v, heard);
        }
        ret := if ready == 0 then PollTimeout else if k.errno() == Interrupted then PollSignal else PollError;
        return ret, w, gone, heard;
      }
      ret, w, gone := ServeEntries(v, heard);
      DrainedPrefix(waited, k.calls, old(pollLoop), pollLoop, !gone);
      assert k.calls[..|start| + 1] == waited && waited[|start|].marks == Marks(pollFds[..2]);
      TroubleInMarks();
    }

    lemma TroubleInMarks()
      requires pollFds.Length == 2
      ensures Trouble in Marks(pollFds[..2]) <==> pollFds[0].revents == Trouble || pollFds[1].revents == Trouble
    {
      assert Marks(pollFds[..2])[0] == pollFds[0].revents && Marks(pollFds[..2])[1] == pollFds[1].revents;
    }

    /** What the first `i` entries of a pass that began in `v` have achieved, when the socket
        was `socket`. */
    ghost predicate Achieved(v: View, w: View, i: nat, heard: News, socket: int)
      reads this`link, this`start, pollFds, k`ready
    {
      && pollFds.Length == 2 && link < |heard.arrived|
      && (i > 0 && pollFds[0].fd == socket ==> Told(v, w, heard.arrived[link]))
      && (i > 1 && pollFds[1].fd in k.ready ==> QueueStops(v, w, heard.queued - start))
    }

    /** What is not readable, or not yet visited, has not been read. */
    ghost predicate Visited(v: View, w: View, i: nat, socket: int)
      reads pollFds, k`ready
    {
      && pollFds.Length == 2
      && (i == 0 ==> w == v)
      && (i <= 1 || pollFds[1].fd !in k.ready ==> w.taken == v.taken)
      && (pollFds[0].fd != socket || pollFds[0].fd !in k.ready ==> StreamUntouched(v, w))
    }

    /** The state of a pass that goes on with entry `i`. */
    ghost predicate Passing(v: View, u: View, i: nat, heard: News)
      reads this`own, this`link, pollFds, k`news, k`ready
    {
      && Inv(u) && Continues(v, u, false) && Visited(v, u, i, own.tcpSocket)
      && More(heard, k.news) && link < |heard.arrived|
    }

    /** Entry `i` of the table, readable or not. */
    method VisitEntry(i: nat, ghost v: View, ghost u: View, ghost heard: News)
      returns (bad: bool, gone: bool, ghost w: View)
      requires At(u) && Passing(v, u, i, heard) && i < 2
      requires pollFds[i].revents == Readable <==> pollFds[i].fd in k.ready
      requires k.faultless ==> NotReadyMeansRead(v, heard)
      requires k.faultless && alloc.reliable ==> Achieved(v, u, i, heard, own.tcpSocket)
      modifies this`trace, this`cut, this`torn, this`own, this`pollLoop
      modifies buffer, buffer.Block(), alloc`live, alloc`refused, k`news, k`next, k`conns, k`fdConn, k`calls
      ensures At(w) && Inv(w) && Continues(v, w, gone) && (gone ==> bad)
      ensures own == if gone then old(own).(tcpSocket := -1) else old(own)
      ensures if bad then Visited(v, w, 2, old(own).tcpSocket) else Passing(v, w, i + 1, heard)
      ensures bad && !gone <==> pollFds[i].revents == Trouble
      ensures pollFds[i].revents != Readable ==> w == u && !gone && k.calls == old(k.calls)
      ensures DrainedBy(old(k.calls), k.calls, old(pollLoop), pollLoop, !gone)
      ensures k.faultless && alloc.reliable && pollLoop
              ==> Achieved(v, w, if gone then 1 else if bad then i else i + 1, heard, old(own).tcpSocket)
      ensures k.faultless && alloc.reliable && pollLoop && i == 0 ==> Achieved(v, w, 1, heard, old(own).tcpSocket)
      ensures buffer.data == old(buffer.data) || (buffer.data != null && fresh(buffer.data))
    {
      hide At;
      hide Inv;
      hide Continues;
      hide Told;
      hide QueueStops;
      hide StreamUntouched;
      hide NotReadyMeansRead;
      hide DrainedBy;
      AtShape(u);
      TornNot(v, u);
      DrainedNone(k.calls, pollLoop);
      bad, gone, w := false, false, u;
      if k.faultless && i == 0 && pollFds[0].revents != Readable && pollFds[0].fd == own.tcpSocket {
        QuietMeansTold(v, heard);
      }
      if pollFds[i].revents == Trouble {
        bad := true;
      } else if pollFds[i].revents == Readable {
        gone, w := ServeEntry(i, u, heard);
        ContinuesOn(v, u, w, gone);
        EntryServed(v, u, w, heard.arrived[link], heard.queued - start);
        bad := gone;
      }
    }

    /** The loop of `udtcp_client_poll` over its two entries. */
    method ServeEntries(ghost v: View, ghost heard: News) returns (ret: PollResult, ghost w: View, ghost gone: bool)
      requires At(v) && Inv(v) && !v.torn && pollFds.Length == 2 && heard == k.news
      requires forall j | 0 <= j < 2 :: pollFds[j].revents == Readable <==> pollFds[j].fd in k.ready
      requires k.faultless ==> NotReadyMeansRead(v, heard)
      modifies this`trace, this`cut, this`torn, this`own, this`pollLoop
      modifies buffer, buffer.Block(), alloc`live, alloc`refused, k`news, k`next, k`conns, k`fdConn, k`calls
      ensures At(w) && Inv(w) && Continues(v, w, gone) && (gone ==> ret == PollError)
      ensures ret == PollSuccess || ret == PollError
      ensures own == if gone then old(own).(tcpSocket := -1) else old(own)
      ensures Visited(v, w, 2, old(own).tcpSocket)
      ensures DrainedBy(old(k.calls), k.calls, old(pollLoop), pollLoop, !gone)
      ensures ret == PollError && !gone ==> pollFds[0].revents == Trouble || pollFds[1].revents == Trouble
      ensures pollLoop && ret == PollSuccess ==> pollFds[0].revents != Trouble && pollFds[1].revents != Trouble
      ensures k.faultless && alloc.reliable && pollLoop
              ==> Achieved(v, w, if ret == PollSuccess then 2 else 1, heard, old(own).tcpSocket)
      ensures buffer.data == old(buffer.data) || (buffer.data != null && fresh(buffer.data))
    {
      hide At;
      hide Inv;
      hide Continues;
      hide Achieved;
      hide Passing;
      hide Visited;
      hide NotReadyMeansRead;
      hide DrainedBy;
      hide Kernel.errno;
      ghost var start := k.calls;
      FirstEntry(v, heard);
      w, gone := v, false;
      var i := 0;
      var on := LoopFlag();
      while on && i < 2
        invariant 0 <= i <= 2 && At(w) && Passing(v, w, i, heard) && own == old(own) && !gone
        invariant on == pollLoop && DrainedBy(start, k.calls, old(pollLoop), on, true)
        invariant forall j | 0 <= j < i :: pollFds[j].revents != Trouble
        invariant k.faultless && alloc.reliable && on ==> Achieved(v, w, i, heard, own.tcpSocket)
        invariant buffer.data == old(buffer.data) || (buffer.data != null && fresh(buffer.data))
      {
        var bad;
        bad, on, gone, w := VisitAndTest(i, v, w, heard, start, old(pollLoop));
        if bad {
          return PollError, w, gone;
        }
        i := i + 1;
      }
      LastEntry(v, w, i, heard);
      return PollSuccess, w, gone;
    }

    /** Visits an entry, and tests the loop flag if that goes well. */
    method VisitAndTest(i: nat, ghost v: View, ghost u: View, ghost heard: News, ghost start: seq<Call>,
                        ghost was: bool)
      returns (bad: bool, on: bool, ghost gone: bool, ghost w: View)
      requires At(u) && Passing(v, u, i, heard) && i < 2 && pollLoop
      requires pollFds[i].revents == Readable <==> pollFds[i].fd in k.ready
      requires k.faultless ==> NotReadyMeansRead(v, heard)
      requires k.faultless && alloc.reliable ==> Achieved(v, u, i, heard, own.tcpSocket)
      requires DrainedBy(start, k.calls, was, true, true)
      modifies this`trace, this`cut, this`torn, this`own, this`pollLoop
      modifies buffer, buffer.Block(), alloc`live, alloc`refused, k`news, k`next, k`conns, k`fdConn, k`calls
      ensures At(w) && (gone ==> bad) && (bad ==> Inv(w) && Continues(v, w, gone))
      ensures own == if gone then old(own).(tcpSocket := -1) else old(own)
      ensures if bad then Visited(v, w, 2, old(own).tcpSocket) else on == pollLoop && Passing(v, w, i + 1, heard)
      ensures bad && !gone <==> pollFds[i].revents == Trouble
      ensures DrainedBy(start, k.calls, was, pollLoop, !gone)
      ensures k.faultless && alloc.reliable && pollLoop
              ==> Achieved(v, w, if bad then 1 else i + 1, heard, old(own).tcpSocket)
      ensures buffer.data == old(buffer.data) || (buffer.data != null && fresh(buffer.data))
    {
      hide At;
      hide Inv;
      hide Continues;
      hide Passing;
      hide Visited;
      hide NotReadyMeansRead;
      hide DrainedBy;
      hide Told;
      hide QueueStops;
      ghost var before := k.calls;
      bad, gone, w := VisitEntry(i, v, u, heard);
      ghost var after, still := k.calls, pollLoop;
      DrainedThen(start, before, after, was, true, still, true, !gone);
      on := false;
      if !bad {
        on := LoopFlag();
        DrainedThen(start, after, k.calls, was, still, on, true, true);
      }
    }

    lemma FirstEntry(v: View, heard: News)
      requires At(v) && Inv(v) && !v.torn && heard == k.news
      ensures Passing(v, v, 0, heard) && Achieved(v, v, 0, heard, own.tcpSocket)
    {
    }

    lemma LastEntry(v: View, w: View, i: nat, heard: News)
      requires Passing(v, w, i, heard)
      ensures Inv(w) && Continues(v, w, false) && Visited(v, w, 2, own.tcpSocket)
    {
    }

    lemma QuietMeansTold(v: View, heard: News)
      requires At(v) && Inv(v) && !v.torn && NotReadyMeansRead(v, heard) && link < |heard.arrived|
      requires own.tcpSocket != -1 && own.tcpSocket !in k.ready
      ensures Told(v, v, heard.arrived[link])
    {
      hide Inv;
      AtShape(v);
      ReadBefore(v, heard.arrived[link]);
    }

    /** What an entry achieves is achieved for the pass. */
    lemma EntryServed(v: View, u: View, w: View, heard: nat, queued: int)
      ensures Told(v, u, heard) && StreamUntouched(u, w) ==> Told(v, w, heard)
      ensures StreamUntouched(v, u) && StreamUntouched(u, w) ==> StreamUntouched(v, w)
      ensures u.taken == v.taken && QueueStops(u, w, queued) ==> QueueStops(v, w, queued)
    {
    }

    /** A run of the thread has made `n` polls from `a` to `b`, the last one with result `ret`:
        none after the flag was cleared, an entry was in trouble, a read demanded that the
        connection be given up, or a wait failed. */
    predicate Ran(a: seq<Call>, b: seq<Call>, was: bool, now: bool, gone: bool, n: int, ret: PollResult) {
      && RunCalls(a, b, was, now, !gone)
      && Polls(b) == Polls(a) + n && (n > 0 ==> exists on :: PollAnswered(LastTabled(b), ret, gone, on))
      && (forall i, j | |a| <= i < j < |b| && b[j].Tabled? :: !Stops(b[i]))
      && (now && (n > 0 ==> ret !in {PollError, PollSignal}) ==> forall i | |a| <= i < |b| :: !Stops(b[i]))
    }

    /** One run of `thread_client_poll`, of at most `rounds` polls: it makes at most one
        disconnect callback, as its last callback, and nothing is delivered after it.  It
        ends before its last round only if the loop flag has been cleared or its last poll
        (`ret`) was an error or interrupted, and then it does end. */
    method ThreadRun(rounds: nat, ghost v: View) returns (ret: PollResult, ghost w: View, ghost gone: bool)
      requires At(v) && Inv(v) && !v.torn
      modifies this`trace, this`cut, this`torn, this`own, this`pollLoop, pollFds
      modifies buffer, buffer.Block(), alloc`live, alloc`refused
      modifies k`news, k`next, k`conns, k`fdConn, k`calls, k`ready
      ensures At(w) && Inv(w) && Continues(v, w, gone)
      ensures Polls(old(k.calls)) <= Polls(k.calls) <= Polls(old(k.calls)) + rounds
      ensures Ran(old(k.calls), k.calls, old(pollLoop), pollLoop, gone, Polls(k.calls) - Polls(old(k.calls)), ret)
      ensures pollLoop && Polls(k.calls) < Polls(old(k.calls)) + rounds ==>
                Polls(k.calls) > Polls(old(k.calls)) && ret in {PollError, PollSignal}
      ensures own == if gone then old(own).(tcpSocket := -1) else old(own)
      ensures pollFds.Length == 2 && (pollFds[0].fd != old(own.tcpSocket) ==> TcpOf(w.trace, 0) == TcpOf(v.trace, 0))
    {
      hide At;
      hide Inv;
      hide Continues;
      hide DrainedBy;
      AtShape(v);
      ContinuesSelf(v);
      w, gone, ret := v, false, PollSuccess;
      ghost var start := k.calls;
      RanNone(start, pollLoop, ret);
      hide Ran;
      hide Polls;
      var left := rounds;
      var on := LoopFlag();
      RanFlag(start, start, k.calls, old(pollLoop), old(pollLoop), on, 0, ret);
      while on && left > 0
        invariant At(w) && Inv(w) && Continues(v, w, gone)
        invariant own == if gone then old(own).(tcpSocket := -1) else old(own)
        invariant if on then pollLoop && ret !in {PollError, PollSignal} && !gone
                  else pollLoop ==> left < rounds && ret in {PollError, PollSignal}
        invariant Ran(start, k.calls, old(pollLoop), pollLoop, gone, rounds - left, ret) && 0 <= left <= rounds
        invariant pollFds.Length == 2 && pollFds[0].fd == old(pollFds[0].fd)
        invariant pollFds[0].fd != old(own.tcpSocket) ==> TcpOf(w.trace, 0) == TcpOf(v.trace, 0)
        invariant buffer.data == old(buffer.data) || (buffer.data != null && fresh(buffer.data))
      {
        ret, on, w, gone := PollAndTest(v, w, start, old(pollLoop), rounds - left, ret);
        left := left - 1;
      }
      RanPolls(start, k.calls, old(pollLoop), pollLoop, gone, rounds - left, ret);
    }

    /** One more poll in such a run, and the test of the loop flag behind it. */
    method PollAndTest(ghost v: View, ghost u: View, ghost start: seq<Call>, ghost was: bool, ghost n: int,
                       ghost last: PollResult) returns (ret: PollResult, on: bool, ghost w: View, ghost gone: bool)
      requires At(u) && Inv(u) && Continues(v, u, false) && n >= 0 && pollLoop
      requires Ran(start, k.calls, was, true, false, n, last) && last !in {PollError, PollSignal}
      modifies this`trace, this`cut, this`torn, this`own, this`pollLoop, pollFds
      modifies buffer, buffer.Block(), alloc`live, alloc`refused
      modifies k`news, k`next, k`conns, k`fdConn, k`calls, k`ready
      ensures At(w) && Inv(w) && Continues(v, w, gone)
      ensures Ran(start, k.calls, was, pollLoop, gone, n + 1, ret)
      ensures if on then pollLoop && ret !in {PollError, PollSignal} && !gone
              else pollLoop ==> ret in {PollError, PollSignal}
      ensures own == if gone then old(own).(tcpSocket := -1) else old(own)
      ensures pollFds.Length == 2 && pollFds[0].fd == old(pollFds[0].fd)
      ensures pollFds[0].fd != old(own.tcpSocket) ==> TcpOf(w.trace, 0) == TcpOf(u.trace, 0)
      ensures buffer.data == old(buffer.data) || (buffer.data != null && fresh(buffer.data))
    {
      hide At;
      hide Inv;
      hide Continues;
      hide Ran;
      hide DrainedBy;
      ret, w, gone := PollAgain(v, u, start, was, n, last);
      ghost var after, still := k.calls, pollLoop;
      on := false;
      if ret != PollError && ret != PollSignal {
        on := LoopFlag();
        RanFlag(start, after, k.calls, was, still, on, n + 1, ret);
      }
    }

    /** The poll itself. */
    method PollAgain(ghost v: View, ghost u: View, ghost start: seq<Call>, ghost was: bool, ghost n: int,
                     ghost last: PollResult) returns (ret: PollResult, ghost w: View, ghost gone: bool)
      requires At(u) && Inv(u) && Continues(v, u, false) && n >= 0 && pollLoop
      requires Ran(start, k.calls, was, true, false, n, last) && last !in {PollError, PollSignal}
      modifies this`trace, this`cut, this`torn, this`own, this`pollLoop, pollFds
      modifies buffer, buffer.Block(), alloc`live, alloc`refused
      modifies k`news, k`next, k`conns, k`fdConn, k`calls, k`ready
      ensures At(w) && Inv(w) && Continues(v, w, gone)
      ensures Ran(start, k.calls, was, pollLoop, gone, n + 1, ret) && (gone ==> ret == PollError)
      ensures own == if gone then old(own).(tcpSocket := -1) else old(own)
      ensures pollFds.Length == 2 && pollFds[0].fd == old(pollFds[0].fd)
      ensures pollFds[0].fd != old(own.tcpSocket) ==> TcpOf(w.trace, 0) == TcpOf(u.trace, 0)
      ensures buffer.data == old(buffer.data) || (buffer.data != null && fresh(buffer.data))
    {
      hide At;
      hide Inv;
      hide Continues;
      hide Told;
      hide QueueStops;
      hide Ran;
      hide PollAnswered;
      hide PollCalls;
      hide StreamUntouched;
      hide More;
      TornNot(v, u);
      ghost var before := k.calls;
      ghost var heard;
      ret, w, gone, heard := Poll(u);
      RanPoll(start, before, k.calls, was, pollLoop, gone, n, last, ret);
      SameReports(u, w);
      ContinuesOn(v, u, w, gone);
    }

    lemma RanNone(a: seq<Call>, was: bool, ret: PollResult)
      ensures Ran(a, a, was, was, false, 0, ret)
    {
    }

    lemma RanPolls(a: seq<Call>, b: seq<Call>, was: bool, now: bool, gone: bool, n: int, ret: PollResult)
      requires Ran(a, b, was, now, gone, n, ret)
      ensures Polls(b) == Polls(a) + n
    {
    }

    lemma RanFlag(a: seq<Call>, b: seq<Call>, c: seq<Call>, was: bool, between: bool, now: bool, n: int,
                  ret: PollResult)
      requires Ran(a, b, was, between, false, n, ret) && ret !in {PollError, PollSignal}
      requires DrainedBy(b, c, between, now, true)
      ensures Ran(a, c, was, now, false, n, ret)
    {
      NoPoll(b, c);
      CallsOn(a, b, c);
      assert forall i | 0 <= i < |b| :: c[i] == b[i];
    }

    lemma RanPoll(a: seq<Call>, b: seq<Call>, c: seq<Call>, was: bool, now: bool, gone: bool, n: int, last: PollResult,
                  ret: PollResult)
      requires Ran(a, b, was, true, false, n, last) && last !in {PollError, PollSignal} && n >= 0
      requires PollCalls(b, c, true, now, !gone) && PollAnswered(c[|b|], ret, gone, now)
      ensures Ran(a, c, was, now, gone, n + 1, ret) && (gone ==> ret == PollError)
    {
      OnePoll(b, c, true, now, !gone);
      RunThen(a, b, c, was, true, now, true, !gone);
      assert forall i | 0 <= i < |b| :: c[i] == b[i];
      PollStops(b, c, now, gone, ret);
    }

    lemma PollStops(b: seq<Call>, c: seq<Call>, now: bool, gone: bool, ret: PollResult)
      requires PollCalls(b, c, true, now, !gone) && PollAnswered(c[|b|], ret, gone, now)
      ensures now && ret !in {PollError, PollSignal} ==> forall i | |b| <= i < |c| :: !Stops(c[i])
      ensures forall i | |b| < i < |c| :: !c[i].Tabled?
    {
    }

    lemma SameReports(u: View, w: View)
      ensures StreamUntouched(u, w) ==> TcpOf(w.trace, 0) == TcpOf(u.trace, 0)
    {
    }

    /** `udtcp_delete_client` for a client that has been connected: a socket that is still
        open is closed and announced, and the buffer is freed. */
    method Delete(ghost v: View)
      requires At(v) && own.udpClientSocket in k.own && own.udpClientSocket != own.udpServerSocket
      modifies this`trace, alloc`live, k`own, k`conns, k`fdConn
      ensures k.Valid() && link < |k.conns| && k.conns[link].fd == -1 && k.conns[link].closes == 1
      ensures k.conns[link].peer == v.conn.peer && k.conns[link].pos == v.conn.pos
      ensures k.own == old(k.own) - {own.udpServerSocket, own.udpClientSocket} && own.tcpSocket !in k.fdConn
      ensures trace == if own.tcpSocket != -1 then v.trace + [Event.Disconnect(0)] else v.trace
      ensures alloc.live == {}
    {
      if own.tcpSocket != -1 {
        k.CloseConn(own.tcpSocket);
      }
      k.CloseOwn(own.udpServerSocket);
      k.CloseOwn(own.udpClientSocket);
      if own.tcpSocket != -1 {
        trace := trace + [Event.Disconnect(0)];
      }
      if buffer.size > 0 {
        alloc.Free(buffer.data);
      }
    }

    /** A client's life: one connection, one run of the thread, deletion.  If the connection
        succeeds, the callbacks are one connect, data, and exactly one disconnect at the
        end, whether the run or the deletion makes it, and the socket is closed once.  What
        is reported was read from the connection, and in an orderly environment, if no
        header of the server arrives without a byte of its payload, it is, in order, the
        first of what the server sent. */
    method WholeLife(host: Option<int>, tcpPort: int, rounds: nat) returns (ret: ConnectResult)
      requires Shape() && BufferInv() && own.udpClientSocket in k.own && own.udpClientSocket != own.udpServerSocket
      modifies this`own, this`server, this`trace, this`cut, this`torn, this`link, this`start, this`pollLoop, pollFds
      modifies buffer, buffer.Block(), alloc`live, alloc`refused
      modifies k`own, k`conns, k`fdConn, k`news, k`unused, k`next, k`calls, k`ready
      ensures ret == ConnectSuccess ==> && Completed(trace) && alloc.live == {}
                                        && link < |k.conns| && k.conns[link].closes == 1
      ensures ret == ConnectSuccess ==> link < |k.conns| && Faithful(k.conns[link])
      ensures ret != ConnectSuccess ==> trace == old(trace)
    {
      hide Inv;
      hide At;
      hide Continues;
      hide Faithful;
      ghost var v, w, record, gone;
      ret, v, record := Connect(host, tcpPort);
      if ret != ConnectSuccess {
        return;
      }
      pollLoop := true;
      var last;
      last, w, gone := ThreadRun(rounds, v);
      RunProtocol(v, w, gone);
      CompletedSnoc(w.trace, Event.Disconnect(0));
      AtSocket(w);
      Delete(w);
      InTheEnd(w, k.conns[link]);
    }

    /** The TCP reports are those of a stream that the connection carried. */
    ghost predicate Faithful(conn: Conn)
      reads this`trace
    {
      && conn.Valid() && Within(TcpOf(trace, 0), conn.Read())
      && forall sent | k.orderly && conn.peer.whole && conn.peer.wire <= EncodeAll(sent) :: TcpOf(trace, 0) <= sent
    }

    lemma InTheEnd(w: View, conn: Conn)
      requires Inv(w) && w.orderly == k.orderly && conn.peer == w.conn.peer && conn.pos == w.conn.pos
      requires trace == w.trace || trace == w.trace + [Event.Disconnect(0)]
      ensures Faithful(conn)
    {
      Snoc(w.trace, Event.Disconnect(0));
      ReportsAreRead(w);
      forall sent | k.orderly && conn.peer.whole && conn.peer.wire <= EncodeAll(sent)
        ensures TcpOf(trace, 0) <= sent
      {
        FifoFromServer(w, sent);
      }
    }

    lemma AtSocket(v: View)
      requires At(v)
      ensures own.udpServerSocket in k.own && v.orderly == k.orderly && (own.tcpSocket == -1 <==> v.conn.fd == -1)
      ensures v.trace == trace
    {
    }
  }
}
