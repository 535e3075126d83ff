/**
 server_poll.c and delete_server.c: the server with its connection table, its poll
 pass and its deletion.
 */
module Server {
  import opened Wire
  import opened Types
  import opened Sockets
  import opened Buffers
  import opened Receive
  import opened Send
  import opened Trace
  import opened ServerModel
  import opened ServerSteps
  import opened ServerRuns
  import opened ServerPass
  import opened ServerTheorems
  import opened Compaction
  import opened Wiring

  method NewSlots(alloc: Allocator, n: nat) returns (slots: seq<SendSlot>)
    ensures |slots| == n
    ensures forall j | 0 <= j < n :: fresh(slots[j]) && slots[j].IsNew(alloc)
    ensures forall j, l | 0 <= j < l < n :: slots[j] != slots[l]
  {
    slots := [];
    for i := 0 to n
      invariant |slots| == i
      invariant forall j | 0 <= j < i :: fresh(slots[j]) && slots[j].IsNew(alloc)
      invariant forall j, l | 0 <= j < l < i :: slots[j] != slots[l]
    {
      var slot := new SendSlot(alloc);
      slots := slots + [slot];
    }
  }

  function Union(bs: seq<set<array<byte>>>): set<array<byte>> {
    if bs == [] then {} else bs[0] + Union(bs[1..])
  }

  /** No buffer is owned twice. */
  predicate Apart(b: set<array<byte>>, bs: seq<set<array<byte>>>) {
    && (forall j | 0 <= j < |bs| :: bs[j] !! b)
    && (forall i, j | 0 <= i < j < |bs| :: bs[i] !! bs[j])
  }

  lemma {:induction false} UnionApart(b: set<array<byte>>, bs: seq<set<array<byte>>>)
    requires forall j | 0 <= j < |bs| :: bs[j] !! b
    ensures Union(bs) !! b
  {
    if bs != [] {
      UnionApart(b, bs[1..]);
    }
  }

  lemma {:induction false} UnionChanged(bs: seq<set<array<byte>>>, m: nat, b: set<array<byte>>)
    requires m < |bs| && forall i, j | 0 <= i < j < |bs| :: bs[i] !! bs[j]
    ensures Union(bs[m := b]) == Union(bs) - bs[m] + b
  {
    if m == 0 {
      UnionApart(bs[0], bs[1..]);
      assert bs[0 := b][1..] == bs[1..];
    } else {
      UnionChanged(bs[1..], m - 1, b);
      assert bs[m := b][1..] == bs[1..][m - 1 := b];
    }
  }

  lemma {:induction false} NoBlocks(bs: seq<set<array<byte>>>)
    requires forall j | 0 <= j < |bs| :: bs[j] == {}
    ensures Union(bs) == {}
  {
    if bs != [] {
      NoBlocks(bs[1..]);
    }
  }

  /** How the server's half of the handshake ends, by the calls made: it sends its record,
      waits, and reads; each only if the one before has succeeded. */
  predicate ShakeAnswered(m: seq<Call>, ok: bool) {
    && |m| >= 1 && m[0].Tried? && m[0].task == SendRecord
    && if !m[0].ok then |m| == 1 && !ok
       else && |m| >= 2 && m[1].Waited?
            && if m[1].answer <= 0 then |m| == 2 && !ok
               else |m| == 3 && m[2].Shaken? && (ok <==> m[2].read.Whole?)
  }

  /** How accepting ends, by the calls made, if there is room in the table or not. */
  predicate AcceptAnswered(m: seq<Call>, room: bool, accepted: bool) {
    && |m| >= 1 && m[0].Opened?
    && if m[0].fd == -1 then |m| == 1 && !accepted
       else && |m| >= 2 && m[1].Tried?
            && if !room then |m| == 2 && m[1].task == SendZero && !accepted
               else && m[1].task == Ready
                    && if !m[1].ok then |m| == 2 && !accepted else ShakeAnswered(m[2..], accepted)
  }

  /** A call that ends the accepting. */
  predicate Refusing(c: Call) {
    || (c.Opened? && c.fd == -1)
    || (c.Tried? && (!c.ok || c.task == SendZero))
    || (c.Waited? && c.answer <= 0)
    || (c.Shaken? && !c.read.Whole?)
  }

  /** The records of the clients that have been added are those read whole. */
  predicate RecordsAdded(a: seq<Call>, b: seq<Call>, v: View, w: View) {
    v.records <= w.records && RecordsIn(b) == RecordsIn(a) + w.records[|v.records|..]
  }

  lemma RecordsThen(a: seq<Call>, b: seq<Call>, c: seq<Call>, u: View, v: View, w: View)
    requires RecordsAdded(a, b, u, v) && RecordsAdded(b, c, v, w)
    ensures RecordsAdded(a, c, u, w)
  {
    assert w.records[|u.records|..] == v.records[|u.records|..] + w.records[|v.records|..];
  }

  lemma AcceptedCalls(a: seq<Call>, b: seq<Call>, room: bool, accepted: bool)
    requires a <= b && AcceptAnswered(Since(a, b), room, accepted)
    ensures PassCalls(a, b, true, true) && PassCalls(a, b, false, false) && On(a, b, -1)
    ensures !accepted ==> Refusing(LastCall(b)) && RecordsIn(b) == RecordsIn(a)
    ensures accepted ==> && LastCall(b).Shaken? && LastCall(b).read.Whole?
                         && RecordsIn(b) == RecordsIn(a) + [LastCall(b).read.record]
  {
    var m := Since(a, b);
    AcceptedShape(m, room, accepted);
    hide AcceptAnswered;
    assert b == a + m;
    CountRecords(a, m, |m| - 1);
    assert a + m == (a + m[..|m| - 1]) + [m[|m| - 1]];
    RecordsSnoc(a + m[..|m| - 1], m[|m| - 1]);
    hide RecordsIn;
    assert forall i | |a| <= i < |b| :: b[i] == m[i - |a|];
  }

  lemma AcceptedShape(m: seq<Call>, room: bool, accepted: bool)
    requires AcceptAnswered(m, room, accepted)
    ensures m != [] && forall i | 0 <= i < |m| :: !m[i].Tabled? && !m[i].Cleared? && SocketOf(m[i]) == -1
    ensures forall i | 0 <= i < |m| - 1 :: !m[i].Shaken?
    ensures if accepted then m[|m| - 1].Shaken? && m[|m| - 1].read.Whole? else Refusing(m[|m| - 1])
  {
    if |m| > 2 {
      assert forall i | 2 <= i < |m| :: m[i] == m[2..][i - 2];
    }
  }

  lemma {:induction false} CountRecords(a: seq<Call>, m: seq<Call>, n: nat)
    requires n <= |m| && forall i | 0 <= i < n :: !(m[i].Shaken? && m[i].read.Whole?)
    ensures RecordsIn(a + m[..n]) == RecordsIn(a)
    decreases n
  {
    if n == 0 {
      assert a + m[..0] == a;
    } else {
      CountRecords(a, m, n - 1);
      assert a + m[..n] == (a + m[..n - 1]) + [m[n - 1]];
      RecordsSnoc(a + m[..n - 1], m[n - 1]);
    }
  }

  /** The result of a poll is decided by the answer of `poll`. */
  predicate PollAnswered(c: Call, ret: PollResult) {
    && c.Tabled?
    && ret == if c.answer < 0 then if c.errno == Interrupted then PollSignal else PollError
              else if c.answer == 0 then PollTimeout
              else PollSuccess
  }

  class UdtcpServer {
    /** UDTCP_POLL_TABLE_SIZE */
    const tableSize: nat
    const k: Kernel
    const alloc: Allocator
    /** `buffer_data` and `buffer_size` */
    const buffer: ReceiveBuffer
    const sends: seq<SendSlot>
    /** One element longer than the table, for what follows it in memory. */
    const pollFds: array<PollFd>
    const infos: array<Infos>
    var pollNfds: nat
    var countId: nat
    var pollLoop: bool

    ghost var trace: seq<Event>
    ghost var connOf: seq<nat>
    ghost var records: seq<Infos>
    /** The server's own record, in slot 0. */
    ghost const self: Infos
    ghost var damaged: set<nat>
    ghost var torn: nat
    ghost var owners: seq<Option<nat>>
    ghost var moments: seq<nat>

    /** Slots 0 and 1 are the server's own sockets, open and distinct. */
    ghost predicate Reserved()
      reads pollFds, infos, k`own
    {
      && pollFds.Length >= 2 && infos.Length >= 2 && infos[0] == self
      && infos[0].tcpSocket in k.own && infos[0].udpServerSocket in k.own && infos[0].udpClientSocket in k.own
      && infos[0].tcpSocket != infos[0].udpServerSocket
      && infos[0].udpClientSocket !in {infos[0].tcpSocket, infos[0].udpServerSocket}
      && infos[0].tcpSocket in k.listening && infos[0].udpServerSocket in k.receiving
      && pollFds[0].fd == infos[0].tcpSocket
      && pollFds[1].fd == infos[0].udpServerSocket
    }

    ghost predicate QueueFits() {
      forall d | d in k.datagrams :: Fits(d)
    }

    ghost predicate Shape()
      reads this`pollNfds, this`owners, pollFds, infos, k`news, k`next, k`conns, k`fdConn, k`own, k`unused
    {
      && pollFds.Length == infos.Length == tableSize + 1
      && 2 <= pollNfds <= tableSize
      && |owners| == k.next
      && k.Valid()
      && QueueFits()
      && Reserved()
    }

    ghost predicate BuffersShape() {
      && buffer.alloc == alloc
      && |sends| == tableSize >= 2
      && (forall j | 0 <= j < |sends| :: sends[j].alloc == alloc)
      && (forall i, j | 0 <= i < j < |sends| :: sends[i] != sends[j])
    }

    /** The allocated buffers are the receive buffer and those of the send slots, each
        owned once. */
    ghost predicate BufferInv()
      reads buffer, alloc, sends
    {
      && BuffersShape()
      && buffer.Valid()
      && (forall j | 0 <= j < |sends| :: sends[j].Valid())
      && sends[0].buffer == null && sends[1].buffer == null
      && Apart(buffer.Block(), Blocks())
      && alloc.live == buffer.Block() + Union(Blocks())
    }

    /** The buffers of the send slots. */
    ghost function Blocks(): (bs: seq<set<array<byte>>>)
      reads sends
      ensures |bs| == |sends| && forall j | 0 <= j < |sends| :: bs[j] == sends[j].Block()
    {
      seq(|sends|, j requires 0 <= j < |sends| reads sends => sends[j].Block())
    }

    ghost function State(): View
      requires Shape()
      reads this`pollNfds, this`countId
      reads this`trace, this`connOf, this`records, this`damaged, this`torn, this`owners, this`moments
      reads pollFds, infos, k`news, k`next, k`conns, k`fdConn, k`own, k`unused
    {
      View(tableSize, k.orderly, self, Rows(pollFds, infos, 2, pollNfds), countId, trace, connOf, records,
           damaged, torn,
           k.conns, k.fdConn, k.datagrams, owners, moments)
    }

    lemma NoBuffers()
      requires BuffersShape() && buffer.data == null && buffer.size == 0 && alloc.live == {}
      requires forall j | 0 <= j < |sends| :: sends[j].buffer == null && sends[j].bufferSize == 0
      ensures BufferInv()
    {
      NoBlocks(Blocks());
    }

    /** The state `udtcp_create_server` leaves: the two reserved slots, no client, the
        first id 1, no buffer. */
    constructor (k: Kernel, alloc: Allocator, maxConnection: nat, self: Infos)
      requires k.Valid() && k.conns == [] && k.fdConn == map[] && k.next == 0 && alloc.live == {}
      requires forall d | d in k.datagrams :: Fits(d)
      requires self.tcpSocket in k.own && self.udpServerSocket in k.own && self.udpClientSocket in k.own
      requires self.tcpSocket != self.udpServerSocket
      requires self.udpClientSocket !in {self.tcpSocket, self.udpServerSocket}
      requires self.tcpSocket in k.listening && self.udpServerSocket in k.receiving
      ensures var v := Initial(tableSize, k.orderly, self, k.datagrams); At(v) && Settled(v)
      ensures fresh(buffer) && fresh(pollFds) && fresh(infos)
      ensures buffer.Block() == {} && forall s | s in sends :: fresh(s) && s.Block() == {}
      ensures this.k == k && this.alloc == alloc && tableSize == 2 + maxConnection && pollNfds == 2
      ensures this.self == self
    {
      hide Inv;
      hide Shaped;
      hide BufferInv;
      hide Kernel.Valid;
      this.tableSize := 2 + maxConnection;
      this.k := k;
      this.self := self;
      this.alloc := alloc;
      var receive := new ReceiveBuffer(alloc);
      this.buffer := receive;
      var slots := NewSlots(alloc, 2 + maxConnection);
      this.sends := slots;
      var fds := new PollFd[3 + maxConnection](_ => PollFd(0, Quiet));
      fds[0], fds[1] := PollFd(self.tcpSocket, Quiet), PollFd(self.udpServerSocket, Quiet);
      this.pollFds := fds;
      var records := new Infos[3 + maxConnection](_ => self);
      this.infos := records;
      this.pollNfds := 2;
      this.countId := 1;
      this.pollLoop := false;
      this.trace, this.connOf, this.records, this.damaged, this.torn := [], [0], [self], {}, 0;
      this.owners, this.moments := [], [];
      new;
      assert pollFds.Length == infos.Length == tableSize + 1;
      assert infos[0] == self;
      assert pollFds[0].fd == infos[0].tcpSocket;
      assert pollFds[1].fd == infos[0].udpServerSocket;
      assert k.Valid();
      assert Shape();
      NoBuffers();
      InitialSettled(tableSize, k.orderly, self, k.datagrams);
    }

    /** The end of `initialize_connection`: the received record gets the address and the
        sockets of this side. */
    method ApplyDistant(save: Infos)
      requires Shape() && pollNfds < tableSize
      modifies infos
      ensures Shape() && State() == old(State())
      ensures forall id, slot :: infos[pollNfds].(id := id, send := slot)
                            == ServerEntry(old(infos[pollNfds]), save.tcpAddr, save.tcpSocket, self, id, slot)
    {
      hide Kernel.Valid;
      hide QueueFits;
      hide Zip;
      infos[pollNfds] := infos[pollNfds].(tcpAddr := infos[pollNfds].tcpAddr.(ip := save.tcpAddr.ip));
      infos[pollNfds] := infos[pollNfds].(udpServerAddr := infos[pollNfds].udpServerAddr.(ip := save.tcpAddr.ip));
      infos[pollNfds] := infos[pollNfds].(udpClientAddr := infos[pollNfds].udpClientAddr.(ip := save.tcpAddr.ip));
      infos[pollNfds] := infos[pollNfds].(tcpSocket := save.tcpSocket);
      infos[pollNfds] := infos[pollNfds].(udpServerSocket := infos[0].udpClientSocket);
      infos[pollNfds] := infos[pollNfds].(udpClientSocket := infos[0].udpServerSocket);
    }

    /** `initialize_connection`: sends the server's record and reads the client's into
        the entry behind the last one. */
    method InitializeConnection() returns (ok: bool, ghost record: Infos)
      requires Shape() && pollNfds < tableSize
      modifies infos, k`news, k`calls
      ensures Shape() && State() == old(State()) && More(old(k.news), k.news)
      ensures old(k.calls) <= k.calls && ShakeAnswered(Since(old(k.calls), k.calls), ok)
      ensures infos[pollNfds].tcpSocket == old(infos[pollNfds].tcpSocket)
      ensures ok ==> && LastCall(k.calls).Shaken? && LastCall(k.calls).read == Whole(record)
                     && var peer, socket := old(infos[pollNfds].tcpAddr), old(infos[pollNfds].tcpSocket);
                        forall id, slot :: infos[pollNfds].(id := id, send := slot)
                                           == ServerEntry(record, peer, socket, self, id, slot)
    {
      hide Kernel.Valid;
      hide QueueFits;
      hide Zip;
      hide Kernel.errno;
      ghost var start := k.calls;
      record := infos[0];
      ok := k.Try(SendRecord);
      SinceSnoc(start, start, Tried(SendRecord, ok, k.errno()));
      if !ok {
        return;
      }
      ghost var sent := k.calls;
      var ready := k.Wait();
      SinceSnoc(start, sent, Waited(ready, k.errno()));
      if ready <= 0 {
        ok := false;
        return;
      }
      ghost var waited := k.calls;
      var read := k.RecvRecord(infos[pollNfds].tcpSocket);
      SinceSnoc(start, waited, Shaken(read, k.errno()));
      ok := TakeRecord(read);
      if read.Whole? {
        record := read.record;
      }
    }

    /** The end of `initialize_connection`: what the read has left of the entry. */
    method TakeRecord(read: RecordRead) returns (ok: bool)
      requires Shape() && pollNfds < tableSize
      requires read.Misfit? ==> read.left.tcpSocket == infos[pollNfds].tcpSocket
      modifies infos
      ensures Shape() && State() == old(State()) && (ok <==> read.Whole?)
      ensures infos[pollNfds].tcpSocket == old(infos[pollNfds].tcpSocket)
      ensures ok ==> var peer, socket := old(infos[pollNfds].tcpAddr), old(infos[pollNfds].tcpSocket);
                     forall id, slot :: infos[pollNfds].(id := id, send := slot)
                                        == ServerEntry(read.record, peer, socket, self, id, slot)
    {
      hide Kernel.Valid;
      hide QueueFits;
      hide Zip;
      var save := infos[pollNfds];
      match read {
        case Closed => ok := false;
        case Failed => ok := false;
        case Misfit(left, behind) =>
          infos[pollNfds] := left;
          if behind.Some? {
            infos[pollNfds + 1] := infos[pollNfds + 1].(id := behind.value);
          }
          ok := false;
        case Whole(received) =>
          infos[pollNfds] := received;
          ApplyDistant(save);
          ok := true;
      }
    }

    /** Closes the connection just accepted; to the table it never existed. */
    method RefuseLast(fd: int, ghost v: View) returns (ghost w: View)
      requires Shape() && Inv(v) && v.torn == 0 && |k.conns| == |v.conns| + 1
      requires State() == Arrived(v, fd, k.conns[|v.conns|])
      requires fd !in v.fdConn && k.conns[|v.conns|].closes == 0 && k.conns[|v.conns|].pos == 0
      requires k.conns[|v.conns|].out in {[], [0]}
      modifies k`conns, k`fdConn
      ensures Shape() && State() == w && Inv(w) && Calm(v, w)
      ensures exists conn: Conn :: conn.closes == 1 && conn.out == old(k.conns)[|v.conns|].out && w == Rejected(v, conn)
      ensures |w.conns| == |v.conns| + 1
    {
      hide Inv;
      hide Shaped;
      hide Calm;
      ghost var conn := k.conns[|v.conns|].(fd := -1, closes := 1);
      k.CloseConn(fd);
      w := Rejected(v, conn);
      assert k.fdConn == v.fdConn && k.conns == v.conns + [conn];
      RejectedKeepsInv(v, conn);
      RejectedCalm(v, conn);
    }

    /** A connection has been closed to which a zero byte was sent, if that went well. */
    ghost predicate Turned(v: View, w: View, sending: Call) {
      && sending.Tried?
      && exists conn: Conn :: conn.closes == 1 && conn.out == (if sending.ok then [0] else []) && w == Rejected(v, conn)
    }

    /** The start of `accept_client` when the table is full. */
    method TurnAway(ghost v: View) returns (ghost w: View)
      requires At(v) && Inv(v) && v.torn == 0
      modifies k`conns, k`fdConn, k`news, k`unused, k`calls
      ensures At(w) && Inv(w) && Calm(v, w) && More(old(k.news), k.news)
      ensures old(k.calls) <= k.calls && AcceptAnswered(Since(old(k.calls), k.calls), false, false)
      ensures w == v <==> k.calls[|old(k.calls)|].fd == -1
      ensures w == v || Turned(v, w, LastCall(k.calls))
      ensures w == v || |w.conns| == |v.conns| + 1
      ensures k.faultless && w == v ==> |v.conns| == k.news.knocked
    {
      hide Inv;
      hide Shaped;
      hide Calm;
      hide BufferInv;
      hide QueueFits;
      hide Reserved;
      hide Kernel.Valid;
      hide Zip;
      hide Kernel.errno;
      CalmSelf(v);
      w := v;
      ghost var start := k.calls;
      var fd, _ := k.Accept();
      SinceSnoc(start, start, Opened(fd, k.errno()));
      if fd != -1 {
        SendZeroByte(fd, v);
        w := RefuseLast(fd, v);
      }
    }

    method SendZeroByte(fd: int, ghost v: View)
      requires Shape() && |k.conns| == |v.conns| + 1 && State() == Arrived(v, fd, k.conns[|v.conns|]) && fd !in v.fdConn
      requires k.conns[|v.conns|].out == []
      modifies k`conns, k`calls
      ensures Shape() && |k.conns| == |v.conns| + 1 && State() == Arrived(v, fd, k.conns[|v.conns|])
      ensures |k.calls| == |old(k.calls)| + 1 && old(k.calls) <= k.calls
      ensures var c := LastCall(k.calls);
              && c.Tried? && c.task == SendZero
              && k.conns[|v.conns|] == old(k.conns[|v.conns|]).(out := if c.ok then [0] else [])
    {
      hide Kernel.Valid;
      hide QueueFits;
      hide Zip;
      k.SendByte(fd);
      assert k.conns == v.conns + [k.conns[|v.conns|]] && [] + [0 as byte] == [0];
    }

    /** Enters the client whose record is behind the last entry. */
    method Register(ghost v: View, ghost fd: int, ghost record: Infos, ghost conn: Conn)
      requires Shape() && State() == Arrived(v, fd, conn)
      requires pollNfds < tableSize
      requires infos[pollNfds].(id := countId, send := pollNfds) == NewEntry(v, fd, record, conn)
      modifies this`pollNfds, this`countId, this`trace, this`connOf, this`records, pollFds, infos
      ensures Shape() && State() == Accepted(v, fd, record, conn)
      ensures pollNfds == old(pollNfds) + 1
      ensures forall j | 0 <= j < old(pollNfds) :: pollFds[j] == old(pollFds[j])
    {
      hide Inv;
      hide Shaped;
      hide Zip;
      hide Kernel.Valid;
      hide QueueFits;
      infos[pollNfds] := infos[pollNfds].(send := pollNfds);
      infos[pollNfds] := infos[pollNfds].(id := countId);
      pollFds[pollNfds] := pollFds[pollNfds].(fd := infos[pollNfds].tcpSocket);
      trace := trace + [Connect(infos[pollNfds].id)];
      connOf := connOf + [|v.conns|];
      records := records + [record];
      pollNfds := pollNfds + 1;
      countId := countId + 1;
      hide ServerEntry;
      assert State() == Accepted(v, fd, record, conn);
    }

    /** The middle of `accept_client`: takes a connection into the entry behind the last
        one and tries the handshake on it. */
    method TakeConnection(ghost v: View) returns (fd: int, ok: bool, ghost record: Infos)
      requires Shape() && State() == v && pollNfds < tableSize
      modifies infos, k`conns, k`fdConn, k`news, k`unused, k`calls
      ensures Shape() && More(old(k.news), k.news)
      ensures old(k.calls) <= k.calls && AcceptAnswered(Since(old(k.calls), k.calls), true, ok)
      ensures fd == k.calls[|old(k.calls)|].fd
      ensures ok ==> LastCall(k.calls).Shaken? && LastCall(k.calls).read == Whole(record)
      ensures fd == -1 ==> State() == v && (k.faultless ==> |v.conns| == k.news.knocked)
      ensures fd != -1 ==> && |k.conns| == |v.conns| + 1
                           && var conn := k.conns[|v.conns|];
                              && State() == Arrived(v, fd, conn) && fd >= 0 && fd !in v.fdConn
                              && conn == Conn(conn.peer, 0, [], fd, 0)
                              && infos[pollNfds].tcpSocket == fd
                              && (ok ==> infos[pollNfds].(id := countId, send := pollNfds)
                                         == NewEntry(v, fd, record, conn))
    {
      hide Kernel.Valid;
      hide QueueFits;
      hide Zip;
      hide ShakeAnswered;
      hide Kernel.errno;
      ghost var start := k.calls;
      record := infos[0];
      ok := false;
      var peer;
      fd, peer := k.Accept();
      SinceSnoc(start, start, Opened(fd, k.errno()));
      infos[pollNfds] := infos[pollNfds].(tcpSocket := fd);
      if fd == -1 {
        return;
      }
      infos[pollNfds] := infos[pollNfds].(tcpAddr := peer);
      ghost var made := k.calls;
      ok := k.Try(Ready);
      SinceSnoc(start, made, Tried(Ready, ok, k.errno()));
      if ok {
        ghost var readied := k.calls;
        ok, record := InitializeConnection();
        assert Since(start, k.calls)[2..] == Since(readied, k.calls);
      }
    }

    /** `accept_client`.  On success the new client is the last slot: its entry is made
        from the record it sent, its id is the next one, and it is announced.  On failure
        table, ids and trace are as before, and an accepted connection has been closed;
        nothing has been written to it but, if the table was full, a zero byte. */
    method AcceptClient(ghost v: View) returns (ret: int, ghost w: View, ghost record: Infos)
      requires At(v) && Inv(v) && v.torn == 0
      modifies this`pollNfds, this`countId, this`trace, this`connOf, this`records, pollFds, infos
      modifies k`conns, k`fdConn, k`news, k`unused, k`calls
      ensures At(w) && Inv(w) && Calm(v, w)
      ensures ret == 0 || ret == -1
      ensures old(k.calls) <= k.calls
      ensures AcceptAnswered(Since(old(k.calls), k.calls), |v.slots| + 2 < tableSize, ret == 0)
      ensures ret == 0 ==> LastCall(k.calls).Shaken? && LastCall(k.calls).read == Whole(record)
      ensures w == v <==> k.calls[|old(k.calls)|].fd == -1
      ensures ret == 0 ==> && |v.slots| + 2 < tableSize && |w.conns| == |v.conns| + 1
                           && var conn := w.conns[|v.conns|];
                              && conn == Conn(conn.peer, 0, [], conn.fd, 0) && conn.fd >= 0 && conn.fd !in v.fdConn
                              && w == Accepted(v, conn.fd, record, conn)
      ensures ret == -1 ==> w == v || exists conn: Conn ::
                                        && conn.closes == 1 && w == Rejected(v, conn)
                                        && conn.out in if |v.slots| + 2 < tableSize then {[]} else {[], [0]}
      ensures w.owners == v.owners
      ensures ret == 0 || w != v ==> |w.conns| == |v.conns| + 1
      ensures k.faultless && w == v ==> |v.conns| == k.news.knocked
      ensures More(old(k.news), k.news) && pollNfds >= old(pollNfds)
      ensures forall j | 0 <= j < old(pollNfds) :: pollFds[j] == old(pollFds[j])
    {
      hide Inv;
      hide Shaped;
      hide Calm;
      hide BufferInv;
      hide QueueFits;
      hide Reserved;
      hide Kernel.Valid;
      hide Zip;
      hide ShakeAnswered;
      CalmSelf(v);
      AtBounds(v);
      if pollNfds >= tableSize {
        w := TurnAway(v);
        return -1, w, infos[0];
      }
      var fd, ok;
      fd, ok, record := TakeConnection(v);
      if fd == -1 {
        return -1, v, record;
      }
      if !ok {
        w := RefuseLast(infos[pollNfds].tcpSocket, v);
        return -1, w, record;
      }
      ghost var conn := k.conns[|v.conns|];
      Register(v, fd, record, conn);
      AcceptedKeepsInv(v, fd, record, conn);
      w := Accepted(v, fd, record, conn);
      AcceptedCalm(v, fd, record, conn);
      return 0, w, record;
    }

    /** The receive buffer may have been replaced; every other buffer is as before. */
    twostate lemma BufferReplaced()
      requires old(BufferInv()) && buffer.Valid()
      requires forall s | s in sends :: unchanged(s)
      requires buffer.data == old(buffer.data) || (buffer.data != null && fresh(buffer.data))
      requires alloc.live == old(alloc.live) - old(buffer.Block()) + buffer.Block()
      ensures BufferInv()
    {
      forall j | 0 <= j < |sends|
        ensures sends[j].Valid() && sends[j].Block() !! buffer.Block() && sends[j].Block() == old(sends[j].Block())
      {
        assert sends[j] in sends && old(sends[j].Valid());
        assert old(Blocks()[j] !! buffer.Block());
      }
      assert Blocks() == old(Blocks());
      UnionApart(old(buffer.Block()), Blocks());
    }

    /** The server is in state `v`. */
    ghost predicate At(v: View)
      reads this`pollNfds, this`countId
      reads this`trace, this`connOf, this`records, this`damaged, this`torn, this`owners, this`moments
      reads pollFds, infos, k`news, k`next, k`conns, k`fdConn, k`own, k`unused, buffer, alloc, sends
    {
      Shape() && BufferInv() && State() == v
    }

    /** How much of the stream of the client in slot `j` has arrived. */
    ghost predicate HasArrived(v: View, j: nat, arrived: nat)
      requires Inv(v) && j < |v.slots|
      reads k`news
    {
      ConnAt(v, j) < |k.news.arrived| && arrived == k.news.arrived[ConnAt(v, j)]
    }

    /** Reads a frame of the client in slot `i` through the receive buffer. */
    method ReadFrame(i: nat, ghost v: View) returns (r: TcpRead, ghost taken: seq<byte>, ghost arrived: nat)
      requires At(v) && Inv(v)
      requires 2 <= i < pollNfds && pollFds[i].fd != -1
      modifies buffer, buffer.Block(), alloc`live, alloc`refused, k`conns, k`news, k`calls
      ensures More(old(k.news), k.news) && HasArrived(v, i - 2, arrived)
      ensures ReadKnown(v, i - 2, r, taken, arrived, old(k.errno()), k.errno())
      ensures k.faultless && alloc.reliable ==> ReadFaultless(v, i - 2, r, taken, arrived, old(k.errno()), k.errno())
      ensures Answered(old(k.calls), k.calls, infos[i].tcpSocket, r.Frame?, r.Ended?)
      ensures At(v.(conns := Advance(v.conns, ConnAt(v, i - 2), |taken|)))
      ensures r.Frame? ==> r.size == |taken| - WORD_SIZE && buffer.Holds(taken[WORD_SIZE..], 0)
      ensures buffer.data == old(buffer.data) || (buffer.data != null && fresh(buffer.data))
    {
      hide Inv;
      hide Shaped;
      hide Kernel.Valid;
      hide Reserved;
      hide QueueFits;
      hide ReadOf;
      hide OrderlyRead;
      hide FaultlessRead;
      hide Answered;
      hide Kernel.errno;
      hide LastCall;
      hide ReceiveBuffer.Holds;
      hide Zip;
      assert v.slots[i - 2] == Slot(pollFds[i].fd, infos[i]);
      LiveSlot(v, i - 2);
      k.Bounds(infos[i].tcpSocket);
      r, taken := buffer.ReceiveTcp(k, infos[i].tcpSocket);
      k.Bounds(infos[i].tcpSocket);
      arrived := k.news.arrived[ConnAt(v, i - 2)];
      BufferReplaced();
    }

    /** `receive_tcp` for the client in slot `i`: it reports the next frame of that
        client's connection, or nothing. */
    method ReceiveTcp(i: nat, ghost v: View)
      returns (ret: int, ghost r: TcpRead, ghost taken: seq<byte>, ghost arrived: nat)
      requires At(v) && Inv(v)
      requires 2 <= i < pollNfds && pollFds[i].fd != -1 && torn == 0
      modifies this`trace, this`torn, buffer, buffer.Block(), alloc`live, alloc`refused, k`conns, k`news, k`calls
      ensures More(old(k.news), k.news) && HasArrived(v, i - 2, arrived)
      ensures ReadKnown(v, i - 2, r, taken, arrived, old(k.errno()), k.errno())
      ensures k.faultless && alloc.reliable ==> ReadFaultless(v, i - 2, r, taken, arrived, old(k.errno()), k.errno())
      ensures Answered(old(k.calls), k.calls, infos[i].tcpSocket, r.Frame?, r.Ended?)
      ensures At(AfterRead(v, i - 2, r, taken)) && Inv(AfterRead(v, i - 2, r, taken))
      ensures ret == match r { case Frame(n) => Int32(n) case Ended => 0 case Error => -1 }
      ensures buffer.data == old(buffer.data) || (buffer.data != null && fresh(buffer.data))
    {
      hide Inv;
      hide Shaped;
      hide At;
      hide ReadKnown;
      hide ReadFaultless;
      hide Answered;
      SlotAt(i, v);
      var read;
      read, taken, arrived := ReadFrame(i, v);
      KnownPrefix(v, i - 2, read, taken, arrived, old(k.errno()), k.errno());
      ret := NoteRead(i, v, read, taken);
      r := read;
      AfterReadKeepsInv(v, i - 2, r, taken);
    }

    /** The end of `receive_tcp`: the callback, and the result. */
    method NoteRead(i: nat, ghost v: View, read: TcpRead, ghost taken: seq<byte>) returns (ret: int)
      requires Inv(v) && 2 <= i < 2 + |v.slots| && v.torn == 0 && ReadOf(read, taken)
      requires At(v.(conns := Advance(v.conns, ConnAt(v, i - 2), |taken|)))
      requires read.Frame? ==> read.size == |taken| - WORD_SIZE && buffer.Holds(taken[WORD_SIZE..], 0)
      modifies this`trace, this`torn
      ensures At(AfterRead(v, i - 2, read, taken))
      ensures ret == match read { case Frame(n) => Int32(n) case Ended => 0 case Error => -1 }
    {
      hide Inv;
      hide Shaped;
      hide Kernel.Valid;
      hide Reserved;
      hide QueueFits;
      hide BufferInv;
      hide Zip;
      assert v.slots[i - 2].info == infos[i];
      match read {
        case Frame(size) =>
          trace := trace + [TcpData(infos[i].id, buffer.data[..size])];
          ret := Int32(size);
        case Ended =>
          torn := if |taken| > 0 then infos[i].id else torn;
          ret := 0;
        case Error =>
          torn := if |taken| > 0 then infos[i].id else torn;
          ret := -1;
      }
    }

    /** `udtcp_get_infos`: the first entry whose client sends its datagrams from there. */
    method GetInfos(source: Addr) returns (i: int)
      requires Shape()
      ensures i == match Find(State().slots, source) { case None => -1 case Some(j) => j + 2 }
      ensures i == -1 || 2 <= i < pollNfds
    {
      hide Kernel.Valid;
      ghost var slots := State().slots;
      i := 2;
      while i < pollNfds
        invariant 2 <= i <= pollNfds
        invariant forall j | 0 <= j < i - 2 :: slots[j].info.udpClientAddr != source
      {
        assert slots[i - 2].info == infos[i];
        if infos[i].udpClientAddr == source {
          return i;
        }
        i := i + 1;
      }
      return -1;
    }

    /** Reads the next datagram through the receive buffer. */
    method ReadDatagram(ghost v: View) returns (r: UdpRead, ghost taken: bool)
      requires At(v)
      modifies this`owners, this`moments, buffer, buffer.Block(), alloc`live, alloc`refused, k`next, k`calls
      ensures taken ==> |v.owners| < k.news.queued && |v.owners| < |v.queue| && |v.queue[|v.owners|].data| >= WORD_SIZE
      ensures At(if taken then Pulled(v) else v)
      ensures k.faultless && alloc.reliable && |v.owners| < k.news.queued && |v.owners| < |v.queue|
              ==> (taken <==> |v.queue[|v.owners|].data| >= WORD_SIZE)
      ensures r.Message? <==> taken && WellFormed(v.queue[|v.owners|])
      ensures Answered(old(k.calls), k.calls, -1, r.Message?, r == NoData)
      ensures r.Message? ==> && r.source == v.queue[|v.owners|].source
                             && r.size == |Declared(v.queue[|v.owners|])| < LIMIT32
                             && buffer.Holds(Declared(v.queue[|v.owners|]), WORD_SIZE)
      ensures buffer.data == old(buffer.data) || (buffer.data != null && fresh(buffer.data))
    {
      hide Kernel.Valid;
      hide Reserved;
      hide WellFormed;
      hide Zip;
      hide Owner;
      hide Answered;
      hide Kernel.errno;
      hide LastCall;
      hide ReceiveBuffer.Holds;
      hide QueueFits;
      hide BufferInv;
      hide Declared;
      r, taken := PullDatagram(v.queue, |v.owners|);
      if taken {
        NoteDatagram(v);
      }
    }

    /** The call of `receive_udp` for the `n`-th datagram. */
    method PullDatagram(ghost queue: seq<Datagram>, ghost n: nat) returns (r: UdpRead, ghost taken: bool)
      requires k.Valid() && QueueFits() && BufferInv() && queue == k.datagrams && n == k.next
      modifies buffer, buffer.Block(), alloc`live, alloc`refused, k`next, k`calls
      ensures k.Valid() && BufferInv() && k.next == n + if taken then 1 else 0
      ensures taken ==> n < k.news.queued && n < |queue| && |queue[n].data| >= WORD_SIZE
      ensures k.faultless && alloc.reliable && n < k.news.queued && n < |queue| ==>
                (taken <==> |queue[n].data| >= WORD_SIZE)
      ensures r.Message? <==> taken && WellFormed(queue[n])
      ensures Answered(old(k.calls), k.calls, -1, r.Message?, r == NoData)
      ensures r.Message? ==> && r.source == queue[n].source && r.size == |Declared(queue[n])| < LIMIT32
                             && buffer.Holds(Declared(queue[n]), WORD_SIZE)
      ensures buffer.data == old(buffer.data) || (buffer.data != null && fresh(buffer.data))
    {
      hide Kernel.Valid;
      hide WellFormed;
      hide Answered;
      hide Kernel.errno;
      hide LastCall;
      hide ReceiveBuffer.Holds;
      k.QueueBound();
      r, taken := buffer.ReceiveUdp(k);
      BufferReplaced();
    }

    /** Notes, for the statements only, to whom the datagram just taken belongs. */
    ghost method NoteDatagram(v: View)
      requires pollFds.Length == infos.Length == tableSize + 1 && 2 <= pollNfds <= tableSize
      requires k.next == |v.owners| + 1 && |v.owners| < |v.queue|
      requires k.Valid() && QueueFits() && Reserved() && BufferInv()
      requires v == View(tableSize, k.orderly, self, Rows(pollFds, infos, 2, pollNfds), countId, trace, connOf, records,
                         damaged, torn, k.conns, k.fdConn, k.datagrams, owners, moments)
      modifies this`owners, this`moments
      ensures At(Pulled(v))
    {
      hide Kernel.Valid;
      hide QueueFits;
      hide Reserved;
      hide BufferInv;
      hide Zip;
      hide Owner;
      owners := owners + [Owner(v.slots, v.queue[|v.owners|].source)];
      moments := moments + [|trace|];
    }

    /** A datagram has left the queue, its owner is noted, but no callback is made yet. */
    ghost function Pulled(v: View): View
      requires |v.owners| < |v.queue|
    {
      v.(owners := v.owners + [Owner(v.slots, v.queue[|v.owners|].source)], moments := v.moments + [|v.trace|])
    }

    /** The end of `receive_udp`: finds the sender of a well formed datagram and reports
        the payload, which lies behind the header in the receive buffer. */
    method Report(source: Addr, size: nat, ghost v: View) returns (ret: int)
      requires |v.owners| < |v.queue| && At(Pulled(v)) && WellFormed(v.queue[|v.owners|])
      requires source == v.queue[|v.owners|].source && size < LIMIT32
      requires size == |Declared(v.queue[|v.owners|])| && buffer.Holds(Declared(v.queue[|v.owners|]), WORD_SIZE)
      modifies this`trace
      ensures At(Taken(v))
      ensures ret == if Owner(v.slots, source) == None then -1 else Int32(size)
    {
      hide Kernel.Valid;
      hide Reserved;
      hide QueueFits;
      hide BufferInv;
      hide WellFormed;
      hide Zip;
      var i := GetInfos(source);
      assert v.trace + [] == v.trace;
      if i == -1 {
        return -1;
      }
      assert infos[i] == v.slots[i - 2].info;
      trace := trace + [UdpData(infos[i].id, buffer.data[WORD_SIZE..WORD_SIZE + size])];
      return Int32(size);
    }

    /** `receive_udp`: a datagram taken from the queue is reported, if it is well formed,
        under the client that sends from its source address. */
    method ReceiveUdp(ghost v: View) returns (ret: int, ghost taken: bool)
      requires At(v) && Inv(v) && AllLive(v.slots)
      modifies this`trace, this`owners, this`moments, buffer, buffer.Block(), alloc`live, alloc`refused, k`next, k`calls
      ensures taken ==> |v.owners| < k.news.queued && |v.owners| < |v.queue| && |v.queue[|v.owners|].data| >= WORD_SIZE
      ensures At(if taken then Taken(v) else v) && Inv(if taken then Taken(v) else v)
      ensures k.faultless && alloc.reliable && |v.owners| < k.news.queued && |v.owners| < |v.queue|
              ==> (taken <==> |v.queue[|v.owners|].data| >= WORD_SIZE)
      ensures ret > 0 <==> taken && Accepts(v.slots, v.queue[|v.owners|])
      ensures exists got, ended :: Answered(old(k.calls), k.calls, -1, got, ended)
      ensures buffer.data == old(buffer.data) || (buffer.data != null && fresh(buffer.data))
    {
      hide Inv;
      hide Shaped;
      hide At;
      hide WellFormed;
      hide Answered;
      var read;
      read, taken := ReadDatagram(v);
      assert Answered(old(k.calls), k.calls, -1, read.Message?, read == NoData);
      if taken {
        TakenKeepsInv(v);
      }
      match read {
        case NoData =>
          NotReported(v, taken);
          return 0, taken;
        case Refused =>
          NotReported(v, taken);
          return -1, taken;
        case Message(source, size) =>
          ret := Report(source, size, v);
      }
    }

    lemma NotReported(v: View, taken: bool)
      requires taken ==> |v.owners| < |v.queue| && !WellFormed(v.queue[|v.owners|]) && At(Pulled(v))
      ensures taken ==> At(Taken(v))
    {
      assert v.trace + [] == v.trace;
    }

    /** Reads `poll_loop`, which another thread may clear at any moment. */
    method LoopFlag() returns (on: bool)
      modifies this`pollLoop, k`calls
      ensures on == pollLoop && DrainedBy(old(k.calls), k.calls, old(pollLoop), pollLoop, true)
      ensures k.errno() == old(k.errno()) && (on ==> k.calls == old(k.calls))
      ensures forall fd :: On(old(k.calls), k.calls, fd)
    {
      var cleared := k.Interference(pollLoop);
      if cleared {
        pollLoop := false;
      }
      on := pollLoop;
    }

    /** `disconnect` and the mark its caller then puts on the entry. */
    method Disconnect(i: nat, ghost v: View)
      requires At(v) && Inv(v) && 2 <= i < pollNfds && pollFds[i].fd != -1
      requires v.torn == 0 || v.torn == infos[i].id
      modifies this`trace, this`torn, pollFds, k`conns, k`fdConn
      ensures At(Dropped(v, i - 2)) && Inv(Dropped(v, i - 2))
      ensures forall j | 0 <= j < pollFds.Length && j != i :: pollFds[j] == old(pollFds[j])
    {
      hide Inv;
      hide Shaped;
      hide BufferInv;
      hide QueueFits;
      hide Kernel.Valid;
      hide Zip;
      assert v.slots[i - 2] == Slot(pollFds[i].fd, infos[i]);
      LiveSlot(v, i - 2);
      k.CloseConn(infos[i].tcpSocket);
      trace := trace + [Event.Disconnect(infos[i].id)];
      pollFds[i] := pollFds[i].(fd := -1);
      torn := 0;
      DroppedKeepsInv(v, i - 2);
    }

    /** `receive_tcp` has been called for the client in slot `i` in state `u` and has
        ended in `r` with result `ret`; since `v` only whole frames had been read. */
    ghost predicate LastRead(v: View, u: View, i: nat, ret: int, r: TcpRead, taken: seq<byte>, arrived: nat,
                             before: Errno, after: Errno, left: nat)
      reads this`pollNfds, this`countId
      reads this`trace, this`connOf, this`records, this`damaged, this`torn, this`owners, this`moments
      reads pollFds, infos, k`news, k`next, k`conns, k`fdConn, k`own, k`unused, buffer, alloc, sends
    {
      && 2 <= i < pollNfds == 2 + |v.slots| && i < pollFds.Length && pollFds[i].fd != -1 && v.slots[i - 2].fd != -1
      && Inv(v) && Draining(v, u, i - 2)
      && left == |UnreadAt(u, i - 2)|
      && HasArrived(u, i - 2, arrived)
      && ReadKnown(u, i - 2, r, taken, arrived, before, after)
      && At(AfterRead(u, i - 2, r, taken)) && Inv(AfterRead(u, i - 2, r, taken))
      && ret == (match r { case Frame(n) => Int32(n) case Ended => 0 case Error => -1 })
      && (k.faultless && alloc.reliable ==> ReadFaultless(u, i - 2, r, taken, arrived, before, after))
    }

    /** The first call of `receive_tcp` in the drain loop, or the next one. */
    method ReadNext(i: nat, ghost v: View, ghost u: View)
      returns (ret: int, ghost r: TcpRead, ghost taken: seq<byte>, ghost arrived: nat)
      requires At(u) && Inv(v) && |v.slots| == |u.slots| == pollNfds - 2
      requires 2 <= i < pollNfds && pollFds[i].fd != -1 && Draining(v, u, i - 2)
      modifies this`trace, this`torn, buffer, buffer.Block(), alloc`live, alloc`refused, k`conns, k`news, k`calls
      ensures LastRead(v, u, i, ret, r, taken, arrived, old(k.errno()), k.errno(), |UnreadAt(u, i - 2)|)
      ensures More(old(k.news), k.news) && Answered(old(k.calls), k.calls, infos[i].tcpSocket, r.Frame?, r.Ended?)
      ensures k.orderly && ret > 0 ==> k.errno() == old(k.errno())
      ensures buffer.data == old(buffer.data) || (buffer.data != null && fresh(buffer.data))
    {
      hide Inv;
      hide Shaped;
      hide At;
      hide Later;
      hide OnlyClient;
      hide ReadFaultless;
      hide Answered;
      SlotAt(i, u);
      AtOrderly(u);
      ret, r, taken, arrived := ReceiveTcp(i, u);
    }

    lemma ReadOnTo(v: View, u: View, i: nat, ret: int, r: TcpRead, taken: seq<byte>, arrived: nat, before: Errno,
                   after: Errno, left: nat)
      returns (w: View)
      requires LastRead(v, u, i, ret, r, taken, arrived, before, after, left) && ret > 0
      ensures 2 <= i < pollNfds == 2 + |v.slots| && i < pollFds.Length && pollFds[i].fd != -1 && r.Frame?
      ensures At(w) && Inv(v) && Draining(v, w, i - 2) && |w.slots| == |v.slots| && |UnreadAt(w, i - 2)| < left
    {
      hide Inv;
      hide Shaped;
      hide At;
      hide Later;
      hide OnlyClient;
      hide ReadFaultless;
      KnownPrefix(u, i - 2, r, taken, arrived, before, after);
      w := AfterRead(u, i - 2, r, taken);
      DrainFrame(v, u, i - 2, taken[WORD_SIZE..]);
      DrainShrinks(u, i - 2, taken[WORD_SIZE..]);
    }

    /** One call of `receive_tcp` in the drain that began with the calls `start`, and the test
        of the loop flag behind it. */
    method ReadAndTest(i: nat, ghost v: View, ghost u: View, ghost start: seq<Call>, ghost was: bool)
      returns (ret: int, on: bool, ghost r: TcpRead, ghost taken: seq<byte>, ghost arrived: nat)
      requires At(u) && Inv(v) && |v.slots| == |u.slots| == pollNfds - 2
      requires 2 <= i < pollNfds && pollFds[i].fd != -1 && Draining(v, u, i - 2)
      requires DrainedBy(start, k.calls, was, pollLoop, true) && On(start, k.calls, infos[i].tcpSocket)
      modifies this`trace, this`torn, this`pollLoop, buffer, buffer.Block()
      modifies alloc`live, alloc`refused, k`conns, k`news, k`calls
      ensures LastRead(v, u, i, ret, r, taken, arrived, old(k.errno()), k.errno(), |UnreadAt(u, i - 2)|)
      ensures More(old(k.news), k.news)
      ensures k.orderly && ret > 0 ==> k.errno() == old(k.errno())
      ensures on == pollLoop && (on ==> (r.Frame? <==> Fine(LastCall(k.calls))))
      ensures DrainedBy(start, k.calls, was, on, r.Frame? || (!r.Ended? && k.errno() == WouldBlock))
      ensures On(start, k.calls, infos[i].tcpSocket) && Touched(start, k.calls, infos[i].tcpSocket)
      ensures buffer.data == old(buffer.data) || (buffer.data != null && fresh(buffer.data))
    {
      hide Inv;
      hide Shaped;
      hide At;
      hide Draining;
      hide LastRead;
      hide Answered;
      hide DrainedBy;
      hide Fine;
      hide On;
      hide Touched;
      SlotAt(i, u);
      ghost var between := k.calls;
      ret, r, taken, arrived := ReadNext(i, v, u);
      ghost var read := k.calls;
      on := LoopFlag();
      DrainedMore(start, between, read, k.calls, was, old(pollLoop), on, infos[i].tcpSocket, r.Frame?, r.Ended?);
    }

    /** The drain loop of a client: `receive_tcp` until it fails, ends, or the loop flag
        drops.  `u` is the state before the last call, which ended in `r`. */
    method DrainTcp(i: nat, ghost v: View)
      returns (ret: int, ghost u: View, ghost r: TcpRead, ghost taken: seq<byte>, ghost arrived: nat,
               ghost before: Errno, ghost left: nat)
      requires At(v) && Inv(v) && 2 <= i < pollNfds && pollFds[i].fd != -1 && v.torn == 0
      modifies this`trace, this`torn, this`pollLoop, buffer, buffer.Block()
      modifies alloc`live, alloc`refused, k`conns, k`news, k`calls
      ensures LastRead(v, u, i, ret, r, taken, arrived, before, k.errno(), left) && More(old(k.news), k.news)
      ensures k.orderly ==> before == old(k.errno())
      ensures DrainedBy(old(k.calls), k.calls, old(pollLoop), pollLoop,
                        r.Frame? || (!r.Ended? && k.errno() == WouldBlock))
      ensures pollLoop ==> ret <= 0 && (r.Frame? <==> Fine(LastCall(k.calls)))
      ensures On(old(k.calls), k.calls, infos[i].tcpSocket) && Touched(old(k.calls), k.calls, infos[i].tcpSocket)
      ensures buffer.data == old(buffer.data) || (buffer.data != null && fresh(buffer.data))
    {
      hide Inv;
      hide Shaped;
      hide At;
      hide Later;
      hide OnlyClient;
      hide LastRead;
      hide DrainedBy;
      hide Fine;
      hide LastCall;
      hide Kernel.errno;
      ghost var start := k.calls;
      SlotAt(i, v);
      StartDraining(v, i - 2);
      DrainedNone(start, pollLoop);
      assert On(start, start, infos[i].tcpSocket);
      hide On;
      hide Touched;
      hide Draining;
      u, left, before := v, |UnreadAt(v, i - 2)|, k.errno();
      var on;
      ret, on, r, taken, arrived := ReadAndTest(i, v, u, start, pollLoop);
      while on && ret > 0
        invariant LastRead(v, u, i, ret, r, taken, arrived, before, k.errno(), left) && More(old(k.news), k.news)
        invariant k.orderly ==> before == old(k.errno()) && (ret > 0 ==> k.errno() == before)
        invariant on == pollLoop && (on ==> (r.Frame? <==> Fine(LastCall(k.calls))))
        invariant DrainedBy(start, k.calls, old(pollLoop), on, r.Frame? || (!r.Ended? && k.errno() == WouldBlock))
        invariant On(start, k.calls, infos[i].tcpSocket) && Touched(start, k.calls, infos[i].tcpSocket)
        invariant buffer.data == old(buffer.data) || (buffer.data != null && fresh(buffer.data))
        decreases left
      {
        u := ReadOnTo(v, u, i, ret, r, taken, arrived, before, k.errno(), left);
        left, before := |UnreadAt(u, i - 2)|, k.errno();
        ret, on, r, taken, arrived := ReadAndTest(i, v, u, start, old(pollLoop));
      }
    }

    lemma AtOrderly(v: View)
      requires At(v)
      ensures v.orderly == k.orderly && |v.owners| == k.next && (k.faultless ==> k.orderly)
    {
    }

    lemma AtBounds(v: View)
      requires At(v)
      ensures pollFds.Length == infos.Length == tableSize + 1 && 2 <= pollNfds == 2 + |v.slots| <= tableSize
      ensures v.queue == k.datagrams
      ensures forall j | 0 <= j < |v.slots| :: v.slots[j].fd == pollFds[j + 2].fd
    {
    }

    lemma SlotAt(i: nat, v: View)
      requires At(v) && 2 <= i < pollNfds
      ensures i < pollFds.Length == infos.Length && i - 2 < |v.slots| && v.slots[i - 2] == Slot(pollFds[i].fd, infos[i])
      ensures v.torn == torn && v.owners == owners && v.queue == k.datagrams && |v.slots| == pollNfds - 2
    {
    }

    /** Notes, for the statements only, that the client of the last read stays. */
    ghost method Keep(v: View)
      requires At(v)
      modifies this`torn, this`damaged
      ensures At(Kept(v))
    {
      hide BufferInv;
      hide Kernel.Valid;
      hide Reserved;
      hide QueueFits;
      damaged := if torn == 0 then damaged else damaged + {torn};
      torn := 0;
    }

    /** A readable client: drains it, and drops it when the last call of `receive_tcp`
        reports the end of the stream or fails for another reason than "nothing to read".
        `arrived` bytes of its stream have arrived in the end. */
    method ServeClient(i: nat, ghost v: View) returns (dropped: bool, ghost w: View, ghost arrived: nat)
      requires 2 <= i < pollNfds && i < pollFds.Length && pollFds[i].fd != -1
      requires At(v) && Inv(v) && v.torn == 0
      modifies this`trace, this`torn, this`damaged, this`pollLoop, pollFds
      modifies buffer, buffer.Block(), alloc`live, alloc`refused, k`conns, k`news, k`fdConn, k`calls
      ensures At(w) && Served(v, w, i - 2, dropped)
      ensures i - 2 < |v.slots| && HasArrived(v, i - 2, arrived) && More(old(k.news), k.news)
      ensures k.orderly ==> CutOnlyThen(v, w, i - 2, arrived, old(k.errno()))
      ensures k.faultless && alloc.reliable && pollLoop ==> ServedExactly(v, w, i - 2, arrived, old(k.errno()), dropped)
      ensures DrainedBy(old(k.calls), k.calls, old(pollLoop), pollLoop, Harmless(old(k.calls), k.calls))
      ensures var reported := TcpOf(w.trace, v.slots[i - 2].info.id);
              && (dropped <==> || !Harmless(old(k.calls), k.calls)
                               || (TooLong(reported) && k.errno() != WouldBlock))
              && (pollLoop ==> !Fine(LastCall(k.calls)) || TooLong(reported))
      ensures On(old(k.calls), k.calls, infos[i].tcpSocket) && Touched(old(k.calls), k.calls, infos[i].tcpSocket)
      ensures forall j | 0 <= j < pollFds.Length && j != i :: pollFds[j] == old(pollFds[j])
      ensures buffer.data == old(buffer.data) || (buffer.data != null && fresh(buffer.data))
    {
      hide Inv;
      hide Shaped;
      hide At;
      hide On;
      hide Touched;
      hide LastRead;
      hide Served;
      hide CutOnlyThen;
      hide ServedExactly;
      hide HasArrived;
      hide DrainedBy;
      hide Harmless;
      hide Fine;
      hide LastCall;
      hide TooLong;
      hide Kernel.errno;
      AtOrderly(v);
      ghost var start := k.calls;
      ghost var u, r, taken, before, left;
      var ret;
      ret, u, r, taken, arrived, before, left := DrainTcp(i, v);
      KeptMeansHarmless(start, k.calls, old(pollLoop), pollLoop, r.Frame? || (!r.Ended? && k.errno() == WouldBlock));
      w := DrainOver(v, u, i, ret, r, taken, arrived, before, k.errno(), left,
                     k.faultless && alloc.reliable && pollLoop);
      dropped := ret == 0 || (ret < 0 && k.errno() != WouldBlock);
      if dropped {
        Disconnect(i, w);
        w := Dropped(w, i - 2);
      } else {
        Keep(w);
        w := Kept(w);
      }
    }

    lemma KeptMeansHarmless(a: seq<Call>, b: seq<Call>, was: bool, now: bool, kept: bool)
      requires DrainedBy(a, b, was, now, kept)
      ensures (kept <==> Harmless(a, b)) && DrainedBy(a, b, was, now, Harmless(a, b))
    {
    }

    /** The client in slot `k`, in state `w` after a drain whose last read has ended in `r` with
        result `ret` and `errno` at `after`, goes exactly if the read demands it, or has
        reported a payload whose size is not positive as an `int`. */
    ghost predicate GoesExactly(w: View, k: nat, ret: int, r: TcpRead, after: Errno, dropped: bool) {
      && Shaped(w) && k < |w.slots| && w.slots[k].fd != -1
      && var reported := TcpOf((if dropped then Dropped(w, k) else Kept(w)).trace, w.slots[k].info.id);
         && (dropped <==> || !(r.Frame? || (!r.Ended? && after == WouldBlock))
                          || (TooLong(reported) && after != WouldBlock))
         && (r.Frame? && ret <= 0 ==> TooLong(reported))
    }

    lemma LastReported(u: View, k: nat, ret: int, r: TcpRead, taken: seq<byte>, after: Errno, dropped: bool)
      requires Inv(u) && k < |u.slots| && u.slots[k].fd != -1 && ReadOf(r, taken) && Inv(AfterRead(u, k, r, taken))
      requires ret == (match r { case Frame(n) => Int32(n) case Ended => 0 case Error => -1 })
      requires dropped == (ret == 0 || (ret < 0 && after != WouldBlock))
      ensures GoesExactly(AfterRead(u, k, r, taken), k, ret, r, after, dropped)
    {
      hide Inv;
      hide Shaped;
      var w, id := AfterRead(u, k, r, taken), u.slots[k].info.id;
      if r.Frame? {
        Snoc(u.trace, TcpData(id, taken[WORD_SIZE..]));
      }
      Snoc(w.trace, Event.Disconnect(id));
    }

    /** What is known when the drain of a client is over; `inFull` says that nothing but its
        stream has ended it. */
    lemma DrainOver(v: View, u: View, i: nat, ret: int, r: TcpRead, taken: seq<byte>, arrived: nat, before: Errno,
                    after: Errno, left: nat, inFull: bool) returns (w: View)
      requires LastRead(v, u, i, ret, r, taken, arrived, before, after, left)
      requires inFull ==> k.faultless && alloc.reliable && ret <= 0
      ensures At(w) && Inv(w) && Inv(v)
      ensures 2 <= i < pollNfds == 2 + |v.slots| && pollNfds == 2 + |w.slots| && i < pollFds.Length && i < infos.Length
      ensures pollFds[i].fd != -1 && w.slots[i - 2].fd != -1 && (w.torn == 0 || w.torn == infos[i].id)
      ensures w.slots[i - 2].info.id == v.slots[i - 2].info.id
      ensures GoesExactly(w, i - 2, ret, r, after, ret == 0 || (ret < 0 && after != WouldBlock))
      ensures HasArrived(v, i - 2, arrived)
      ensures Concluded(v, w, i - 2, arrived, before, ret == 0 || (ret < 0 && after != WouldBlock), inFull)
    {
      hide Inv;
      hide Shaped;
      hide At;
      hide Draining;
      hide Served;
      hide ReadKnown;
      hide ReadFaultless;
      hide CutOnlyThen;
      hide ServedExactly;
      DrainingSlots(v, u, i - 2);
      DrainingConn(v, u, i - 2);
      EndOfDrain(v, u, i - 2, r, taken, arrived, before, after);
      ConcludedSo(v, u, i - 2, ret, r, taken, arrived, before, after, inFull);
      hide Concluded;
      w := AfterRead(u, i - 2, r, taken);
      SlotAt(i, w);
      LastReported(u, i - 2, ret, r, taken, after, ret == 0 || (ret < 0 && after != WouldBlock));
      hide GoesExactly;
    }

    /** From `a` to `b` a pass has led from `v` to `w`: `poll` has not been called again, and
        exactly the clients whose records have been read whole have been added. */
    ghost predicate Did(a: seq<Call>, b: seq<Call>, was: bool, now: bool, v: View, w: View) {
      PassCalls(a, b, was, now) && RecordsAdded(a, b, v, w)
    }

    lemma DidNothing(a: seq<Call>, was: bool, v: View)
      ensures Did(a, a, was, was, v, v)
    {
    }

    lemma DidThen(a: seq<Call>, b: seq<Call>, c: seq<Call>, was: bool, between: bool, now: bool, u: View, v: View,
                  w: View)
      requires Did(a, b, was, between, u, v) && Did(b, c, between, now, v, w)
      ensures Did(a, c, was, now, u, w)
    {
      PassThen(a, b, c, was, between, now);
      RecordsThen(a, b, c, u, v, w);
    }

    lemma DidDrain(a: seq<Call>, b: seq<Call>, was: bool, now: bool, kept: bool, v: View, w: View)
      requires DrainedBy(a, b, was, now, kept) && w.records == v.records
      ensures Did(a, b, was, now, v, w)
    {
      PassDrained(a, b, was, now, kept);
      assert w.records[|v.records|..] == [];
    }

    lemma DidAccept(a: seq<Call>, b: seq<Call>, room: bool, on: bool, v: View, w: View)
      requires a <= b && (AcceptAnswered(Since(a, b), room, true) || AcceptAnswered(Since(a, b), room, false))
      requires AcceptAnswered(Since(a, b), room, true) ==>
                 LastCall(b).Shaken? && LastCall(b).read.Whole? && w.records == v.records + [LastCall(b).read.record]
      requires AcceptAnswered(Since(a, b), room, false) ==> w.records == v.records
      ensures Did(a, b, on, on, v, w)
    {
      AcceptedCalls(a, b, room, AcceptAnswered(Since(a, b), room, true));
      hide AcceptAnswered;
      assert w.records[|v.records|..] == if w.records == v.records then [] else [LastCall(b).read.record];
    }

    /** Accepts one client, and tests the loop flag. */
    method AcceptAndTest(ghost v: View, ghost u: View, ghost start: seq<Call>, ghost was: bool)
      returns (ret: int, on: bool, ghost w: View)
      requires At(u) && Inv(u) && u.torn == 0 && Calm(v, u) && |v.conns| <= |u.conns|
      requires Did(start, k.calls, was, pollLoop, v, u) && On(start, k.calls, -1)
      modifies this`pollNfds, this`countId, this`trace, this`connOf, this`records, this`pollLoop, pollFds, infos
      modifies k`conns, k`fdConn, k`news, k`unused, k`calls
      ensures At(w) && Inv(w) && Calm(v, w) && w.torn == 0 && w.owners == u.owners
      ensures (ret == 0 || ret == -1) && |u.conns| <= |w.conns| <= |k.peers| && (ret == 0 ==> |u.conns| < |w.conns|)
      ensures k.faultless && |w.conns| == |u.conns| ==> |u.conns| == k.news.knocked
      ensures k.faultless && ret == -1 ==> TakesWaiting(v, w, k.news.knocked)
      ensures Did(start, k.calls, was, on, v, w) && On(start, k.calls, -1)
      ensures on == pollLoop && (on && ret == -1 ==> Refusing(LastCall(k.calls)))
      ensures More(old(k.news), k.news) && pollNfds >= old(pollNfds)
      ensures forall j | 0 <= j < old(pollNfds) :: pollFds[j] == old(pollFds[j])
    {
      hide Inv;
      hide Shaped;
      hide At;
      hide Calm;
      hide LastRefused;
      hide DrainedBy;
      hide AcceptAnswered;
      hide Did;
      hide On;
      hide Touched;
      hide Kernel.errno;
      ghost var between, room := k.calls, |u.slots| + 2 < tableSize;
      ghost var record;
      ret, w, record := AcceptClient(u);
      AtPeers(w);
      RefusedOrNothing(u, w, ret);
      CalmAfterCalm(v, u, w);
      CalmTorn(v, w);
      AnsweredOnce(between, k.calls, room, ret == 0);
      DidAccept(between, k.calls, room, pollLoop, u, w);
      ghost var accepted := k.calls;
      AcceptedCalls(between, accepted, room, ret == 0);
      OnThen(start, between, accepted, -1);
      on := LoopFlag();
      OnThen(start, accepted, k.calls, -1);
      DidDrain(accepted, k.calls, old(pollLoop), on, true, w, w);
      DidThen(between, accepted, k.calls, old(pollLoop), old(pollLoop), on, u, w, w);
      DidThen(start, between, k.calls, was, old(pollLoop), on, v, u, w);
    }

    lemma AnsweredOnce(a: seq<Call>, b: seq<Call>, room: bool, accepted: bool)
      requires a <= b && AcceptAnswered(Since(a, b), room, accepted)
      ensures !AcceptAnswered(Since(a, b), room, !accepted)
    {
    }

    /** The listening socket is readable: accepts clients until that fails. */
    method ServeListener(ghost v: View) returns (ghost w: View)
      requires At(v) && Inv(v) && v.torn == 0
      modifies this`pollNfds, this`countId, this`trace, this`connOf, this`records, this`pollLoop, pollFds, infos
      modifies k`conns, k`fdConn, k`news, k`unused, k`calls
      ensures At(w) && Inv(w) && Calm(v, w) && w.owners == v.owners && |v.conns| <= |w.conns|
      ensures k.faultless ==> TakesConnection(v, w, old(k.news.knocked))
      ensures k.faultless && pollLoop ==> TakesWaiting(v, w, k.news.knocked)
      ensures Did(old(k.calls), k.calls, old(pollLoop), pollLoop, v, w) && On(old(k.calls), k.calls, -1)
      ensures pollLoop ==> Refusing(LastCall(k.calls))
      ensures More(old(k.news), k.news)
      ensures pollNfds >= old(pollNfds)
      ensures forall j | 0 <= j < old(pollNfds) :: pollFds[j] == old(pollFds[j])
    {
      hide Inv;
      hide Shaped;
      hide At;
      hide Calm;
      hide LastRefused;
      hide TakesWaiting;
      hide Did;
      hide Refusing;
      hide LastCall;
      hide More;
      AtBounds(v);
      CalmSelf(v);
      ghost var start := k.calls;
      DidNothing(start, pollLoop, v);
      assert On(start, start, -1);
      hide On;
      var ret, on;
      ret, on, w := AcceptAndTest(v, v, start, pollLoop);
      KnockedBefore(old(k.news), k.news);
      while on && ret == 0
        invariant At(w) && Inv(w) && Calm(v, w) && w.owners == v.owners && (ret == 0 || ret == -1) && w.torn == 0
        invariant |v.conns| <= |w.conns| <= |k.peers| && (ret == 0 ==> |v.conns| < |w.conns|)
        invariant k.faultless ==> TakesConnection(v, w, old(k.news.knocked))
        invariant More(old(k.news), k.news)
        invariant k.faultless && ret == -1 ==> TakesWaiting(v, w, k.news.knocked)
        invariant Did(start, k.calls, old(pollLoop), on, v, w) && On(start, k.calls, -1)
        invariant pollNfds >= old(pollNfds) && on == pollLoop && (on && ret == -1 ==> Refusing(LastCall(k.calls)))
        invariant forall j | 0 <= j < old(pollNfds) :: pollFds[j] == old(pollFds[j])
        decreases |k.peers| - |w.conns| + if ret == 0 then 1 else 0
      {
        ghost var u, news := w, k.news;
        ret, on, w := AcceptAndTest(v, u, start, old(pollLoop));
        MoreOn(old(k.news), news, k.news);
      }
    }

    lemma KnockedBefore(a: News, b: News)
      requires More(a, b)
      ensures a.knocked <= b.knocked
    {
    }

    lemma AtPeers(v: View)
      requires At(v)
      ensures |v.conns| <= |k.peers|
    {
    }

    lemma CalmTorn(v: View, w: View)
      requires Calm(v, w)
      ensures w.torn == v.torn
    {
    }

    lemma RefusedOrNothing(v: View, w: View, ret: int)
      requires Inv(v) && (ret == -1 ==> w == v || exists conn: Conn :: conn.closes == 1 && w == Rejected(v, conn))
      ensures ret == -1 && w != v ==> |w.conns| == |v.conns| + 1 && LastRefused(w)
    {
    }

    /** The UDP socket is readable: takes datagrams until one is not reported. */
    method ServeUdp(ghost v: View) returns (ghost w: View)
      requires At(v) && Inv(v) && AllLive(v.slots) && v.torn == 0
      modifies this`trace, this`owners, this`moments, this`pollLoop
      modifies buffer, buffer.Block(), alloc`live, alloc`refused, k`next, k`calls
      ensures At(w) && Inv(w) && Calm(v, w) && w.slots == v.slots && w.connOf == v.connOf && |w.conns| == |v.conns|
      ensures k.faultless && alloc.reliable && pollLoop ==> StopsProperly(v, w, k.news.queued)
      ensures DrainedBy(old(k.calls), k.calls, old(pollLoop), pollLoop, Harmless(old(k.calls), k.calls))
      ensures On(old(k.calls), k.calls, -1)
      ensures buffer.data == old(buffer.data) || (buffer.data != null && fresh(buffer.data))
    {
      hide Inv;
      hide Shaped;
      hide At;
      hide Calm;
      hide StopsProperly;
      hide DrainedBy;
      hide Harmless;
      CalmSelf(v);
      ghost var start := k.calls;
      DrainedNone(start, pollLoop);
      KeptMeansHarmless(start, start, pollLoop, pollLoop, true);
      assert On(start, start, -1);
      hide On;
      var ret, on;
      ret, on, w := TakeAndTest(v, v, start, pollLoop);
      while on && ret > 0
        invariant At(w) && Inv(w) && w.torn == 0 && Calm(v, w) && w.slots == v.slots && w.queue == v.queue
        invariant w.connOf == v.connOf && |w.conns| == |v.conns|
        invariant on == pollLoop && DrainedBy(start, k.calls, old(pollLoop), on, Harmless(start, k.calls))
        invariant On(start, k.calls, -1)
        invariant k.faultless && alloc.reliable && ret <= 0 ==> StopsProperly(v, w, k.news.queued)
        invariant ret > 0 ==> |w.owners| <= |w.queue|
        invariant buffer.data == old(buffer.data) || (buffer.data != null && fresh(buffer.data))
        decreases |w.queue| - |w.owners| + if ret > 0 then 1 else 0
      {
        ret, on, w := TakeAndTest(v, w, start, old(pollLoop));
      }
    }

    /** One call of `receive_udp` in that drain, and the test of the loop flag behind it. */
    method TakeAndTest(ghost v: View, ghost u: View, ghost start: seq<Call>, ghost was: bool)
      returns (ret: int, on: bool, ghost w: View)
      requires At(u) && Inv(u) && u.torn == 0 && Calm(v, u) && u.slots == v.slots && u.queue == v.queue
      requires AllLive(v.slots) && DrainedBy(start, k.calls, was, pollLoop, Harmless(start, k.calls))
      requires On(start, k.calls, -1)
      modifies this`trace, this`owners, this`moments, this`pollLoop
      modifies buffer, buffer.Block(), alloc`live, alloc`refused, k`next, k`calls
      ensures At(w) && Inv(w) && w.torn == 0 && Calm(v, w) && w.slots == v.slots && w.queue == v.queue
      ensures w.connOf == u.connOf && |w.conns| == |u.conns| && |w.owners| >= |u.owners|
      ensures on == pollLoop && DrainedBy(start, k.calls, was, on, Harmless(start, k.calls)) && On(start, k.calls, -1)
      ensures k.faultless && alloc.reliable && ret <= 0 ==> StopsProperly(v, w, k.news.queued)
      ensures ret > 0 ==> |u.owners| < |w.owners| <= |w.queue|
      ensures buffer.data == old(buffer.data) || (buffer.data != null && fresh(buffer.data))
    {
      hide Inv;
      hide Shaped;
      hide At;
      hide Calm;
      hide Accepts;
      hide StopsProperly;
      hide Taken;
      hide Answered;
      hide DrainedBy;
      hide Harmless;
      hide On;
      ghost var between, taken := k.calls, false;
      ret, taken := ReceiveUdp(u);
      ghost var got, ended :| Answered(between, k.calls, -1, got, ended);
      w := AfterUdp(v, u, taken, ret > 0, k.news.queued);
      ghost var read := k.calls;
      on := LoopFlag();
      AnyRead(start, between, read, k.calls, was, old(pollLoop), on, got, ended);
    }

    lemma AnyRead(a: seq<Call>, b: seq<Call>, c: seq<Call>, d: seq<Call>, was: bool, between: bool, now: bool,
                  got: bool, ended: bool)
      requires DrainedBy(a, b, was, between, Harmless(a, b)) && Answered(b, c, -1, got, ended)
      requires DrainedBy(c, d, between, now, true)
      ensures DrainedBy(a, d, was, now, Harmless(a, d))
      ensures On(a, b, -1) && On(c, d, -1) ==> On(a, d, -1)
    {
      DrainedOn(a, b, c, d, -1, got, ended);
      hide DrainedBy;
      hide On;
      DrainedRead(b, c, -1, got, ended, between);
      var kept := got || (!ended && LastCall(c).errno == WouldBlock);
      DrainedThen(a, b, c, was, between, between, Harmless(a, b), kept);
      DrainedThen(a, c, d, was, between, now, Harmless(a, b) && kept, true);
      KeptMeansHarmless(a, d, was, now, Harmless(a, b) && kept);
    }

    /** One call of `receive_udp` in the drain, which goes on if it has reported something. */
    lemma AfterUdp(v: View, u: View, taken: bool, more: bool, queued: nat) returns (w: View)
      requires Inv(u) && u.torn == 0 && Calm(v, u) && u.slots == v.slots && u.queue == v.queue && AllLive(v.slots)
      requires taken ==> |u.owners| < |u.queue| && |u.queue[|u.owners|].data| >= WORD_SIZE
      requires more <==> taken && Accepts(u.slots, u.queue[|u.owners|])
      ensures w == if taken then Taken(u) else u
      ensures Calm(v, w) && w.slots == v.slots && w.queue == v.queue && w.torn == 0
      ensures w.connOf == u.connOf && |w.conns| == |u.conns|
      ensures |w.owners| == |u.owners| + (if taken then 1 else 0) && |w.owners| >= |v.owners|
      ensures more ==> taken && |w.owners| <= |w.queue|
      ensures && !more
              && (|u.owners| < queued && |u.owners| < |u.queue| ==>
                    (taken <==> |u.queue[|u.owners|].data| >= WORD_SIZE))
              ==> StopsProperly(v, w, queued)
    {
      hide Inv;
      hide Shaped;
      hide Reaches;
      w := u;
      if taken {
        w := Taken(u);
        TakenCalm(u);
        CalmAfterCalm(v, u, w);
      }
    }

    /** Which socket an entry of the table is. */
    lemma WhichSocket(i: nat, v: View)
      requires At(v) && Inv(v) && i < pollNfds && (i >= 2 ==> pollFds[i].fd != -1)
      ensures i == 0 <==> pollFds[i].fd == infos[0].tcpSocket
      ensures i == 1 <==> pollFds[i].fd == infos[0].udpServerSocket
    {
      hide Inv;
      hide Shaped;
      hide BufferInv;
      hide QueueFits;
      hide Zip;
      if i >= 2 {
        SlotAt(i, v);
        LiveSlot(v, i - 2);
        NotOwn(pollFds[i].fd);
      }
      hide Kernel.Valid;
    }

    lemma NotOwn(fd: int)
      requires k.Valid() && fd in k.fdConn
      ensures fd !in k.own
    {
    }

    /** One readable entry of the table, dispatched by its descriptor. */
    method ServeEntry(i: nat, ghost v: View, ghost u: View, ghost heard: seq<nat>)
      returns (dropped: bool, ghost w: View)
      requires Inv(v) && At(u) && Passing(v, u, i) && i < pollNfds
      requires HeardBefore(heard)
      modifies this`pollNfds, this`countId, this`pollLoop
      modifies this`trace, this`connOf, this`records, this`damaged, this`torn, this`owners, this`moments
      modifies pollFds, infos, buffer, buffer.Block(), alloc`live, alloc`refused
      modifies k`news, k`next, k`conns, k`fdConn, k`unused, k`calls
      ensures At(w) && Passing(v, w, i + 1) && Later(u, w)
      ensures if i == 1 then k.faultless && alloc.reliable && pollLoop ==> StopsProperly(u, w, old(k.news.queued))
              else w.owners == u.owners
      ensures if i == 0 then k.faultless && pollLoop ==> TakesWaiting(u, w, old(k.news.knocked))
              else |w.conns| == |u.conns| && w.connOf == u.connOf
      ensures !dropped ==> (AllLive(u.slots) ==> AllLive(w.slots))
      ensures k.faultless && alloc.reliable && pollLoop && ToldUpTo(v, u, i, heard) ==> ToldUpTo(v, w, i + 1, heard)
      ensures NewsGrew(old(k.news))
      ensures Did(old(k.calls), k.calls, old(pollLoop), pollLoop, u, w)
      ensures Attending(true, old(k.calls), k.calls, u, w, i)
      ensures pollNfds >= old(pollNfds)
      ensures forall j | i < j < old(pollNfds) :: pollFds[j] == old(pollFds[j])
      ensures buffer.data == old(buffer.data) || (buffer.data != null && fresh(buffer.data))
    {
      hide Inv;
      hide Shaped;
      hide At;
      hide Later;
      hide Served;
      hide ServedExactly;
      hide CutOnlyThen;
      hide Calm;
      hide ToldUpTo;
      hide Untouched;
      hide StopsProperly;
      hide LastRefused;
      hide DrainedBy;
      hide Did;
      hide Harmless;
      hide Kernel.errno;
      ghost var start := k.calls;
      AtBounds(u);
      if i >= 2 {
        SlotAt(i, u);
      }
      WhichSocket(i, u);
      dropped := false;
      if pollFds[i].fd == infos[0].tcpSocket {
        w := ServeListener(u);
        PassCalm(v, u, w, i, heard);
        CalmIsLater(u, w);
      } else if pollFds[i].fd == infos[0].udpServerSocket {
        w := ServeUdp(u);
        PassCalm(v, u, w, i, heard);
        CalmIsLater(u, w);
        LaterRecords(u, w);
        DidDrain(start, k.calls, old(pollLoop), pollLoop, Harmless(start, k.calls), u, w);
      } else {
        ghost var arrived;
        dropped, w, arrived := ServeClient(i, u);
        ServedOwners(u, w, i - 2, dropped);
        ClientAttended(start, k.calls, u, w, i - 2, dropped);
        PassServed(v, u, w, i, dropped);
        LaterRecords(u, w);
        DidDrain(start, k.calls, old(pollLoop), pollLoop, Harmless(start, k.calls), u, w);
        if k.faultless && alloc.reliable && pollLoop && ToldUpTo(v, u, i, heard) {
          ToldServed(v, u, w, i, dropped, arrived, old(k.errno()), heard);
        }
      }
    }

    /** Without a new client there is no new record. */
    lemma LaterRecords(u: View, w: View)
      requires Inv(u) && Inv(w) && Later(u, w) && w.connOf == u.connOf
      ensures w.records == u.records
    {
      hide Reaches;
    }

    /** What had arrived of the connections at some earlier moment. */
    ghost predicate HeardBefore(heard: seq<nat>)
      reads k`news
    {
      |heard| <= |k.news.arrived| && forall h | 0 <= h < |heard| :: heard[h] <= k.news.arrived[h]
    }

    /** Nothing that had arrived has been taken back. */
    ghost predicate NewsGrew(before: News)
      reads k`news
    {
      More(before, k.news)
    }

    /** Entry `i` of the table, readable or not. */
    method VisitEntry(i: nat, ghost v: View, ghost u: View, ghost due: Due) returns (dropped: bool, ghost w: View)
      requires At(u) && Settled(v) && Passing(v, u, i) && i < pollNfds
      requires pollFds.Length == tableSize + 1 && (pollFds[i].revents == Readable || !due.At(v, i))
      requires NewsGrew(due.news)
      requires k.faultless && alloc.reliable ==> NotDueMeansRead(v, due.ready, due.news) && Pace(v, u, i, due)
      modifies this`pollNfds, this`countId, this`pollLoop
      modifies this`trace, this`connOf, this`records, this`damaged, this`torn, this`owners, this`moments
      modifies pollFds, infos, buffer, buffer.Block(), alloc`live, alloc`refused
      modifies k`news, k`next, k`conns, k`fdConn, k`unused, k`calls
      ensures At(w) && Passing(v, w, i + 1) && Later(u, w)
      ensures !dropped ==> (AllLive(u.slots) ==> AllLive(w.slots))
      ensures k.faultless && alloc.reliable && pollLoop ==> Pace(v, w, i + 1, due)
      ensures NewsGrew(due.news)
      ensures Did(old(k.calls), k.calls, old(pollLoop), pollLoop, u, w)
      ensures Attending(old(pollFds[i].revents) == Readable, old(k.calls), k.calls, u, w, i)
      ensures pollNfds >= old(pollNfds)
      ensures forall j | i < j < old(pollNfds) :: pollFds[j] == old(pollFds[j])
      ensures buffer.data == old(buffer.data) || (buffer.data != null && fresh(buffer.data))
    {
      hide Inv;
      hide Shaped;
      hide At;
      hide Passing;
      hide ToldUpTo;
      hide Later;
      hide NotDueMeansRead;
      hide Did;
      AtBounds(u);
      dropped, w := false, u;
      LaterSelf(u);
      DidNothing(k.calls, pollLoop, u);
      StillLive(v, u, i);
      NotAttending(k.calls, u, i);
      hide Attending;
      if pollFds[i].revents == Readable {
        dropped, w := ServeEntry(i, v, u, due.news.arrived);
        AtBounds(w);
      } else {
        PassSkip(v, u, i);
        if k.faultless && alloc.reliable {
          ToldSkipped(v, u, i, due);
        }
      }
      if k.faultless && alloc.reliable && pollLoop {
        if i == 1 && due.receives {
          StopsFor(u, u, w, due.news.queued, old(k.news.queued));
        }
        PaceKept(v, u, w, i, due);
      }
    }

    lemma StillLive(v: View, u: View, i: nat)
      requires Inv(v) && Passing(v, u, i)
      ensures 2 <= i < 2 + |u.slots| ==> u.slots[i - 2].fd != -1
    {
    }

    /** The first test of the loop flag in a pass. */
    method StartPass(ghost v: View, ghost due: Due) returns (on: bool)
      requires At(v) && Settled(v) && due.news == k.news
      modifies this`pollLoop, k`calls
      ensures At(v) && Passing(v, v, 0) && NewsGrew(due.news) && Pace(v, v, 0, due)
      ensures on == pollLoop && Did(old(k.calls), k.calls, old(pollLoop), on, v, v)
      ensures Attended(old(k.calls), k.calls, due.ready, v, v, 0)
    {
      hide Inv;
      hide Shaped;
      hide At;
      hide Passing;
      hide Pace;
      hide Did;
      hide DrainedBy;
      ghost var start := k.calls;
      PassStart(v, due);
      NewsNow();
      on := LoopFlag();
      DidDrain(start, k.calls, old(pollLoop), on, true, v, v);
      assert On(start, k.calls, -1);
    }

    /** The loop of `udtcp_server_poll` over the table. */
    method ServePass(ghost v: View, ghost due: Due) returns (organise: bool, ghost u: View, ghost i: nat)
      requires At(v) && Settled(v)
      requires forall j | 0 <= j < pollNfds :: pollFds[j].revents == Readable <==> pollFds[j].fd in k.ready
      requires due.ready == k.ready && due.news == k.news
      requires due.listens ==> pollFds[0].fd in k.ready
      requires due.receives ==> pollFds[1].fd in k.ready
      requires k.faultless ==> NotDueMeansRead(v, due.ready, due.news)
      modifies this`pollNfds, this`countId, this`pollLoop
      modifies this`trace, this`connOf, this`records, this`damaged, this`torn, this`owners, this`moments
      modifies pollFds, infos, buffer, buffer.Block(), alloc`live, alloc`refused
      modifies k`news, k`next, k`conns, k`fdConn, k`unused, k`calls
      ensures At(u) && Passing(v, u, i) && (!organise ==> AllLive(u.slots))
      ensures k.faultless && alloc.reliable && pollLoop ==> Pace(v, u, i, due)
      ensures Did(old(k.calls), k.calls, old(pollLoop), pollLoop, v, u)
      ensures Attended(old(k.calls), k.calls, due.ready, v, u, i)
      ensures pollLoop ==> i >= 2 + |v.slots|
      ensures buffer.data == old(buffer.data) || (buffer.data != null && fresh(buffer.data))
    {
      hide Inv;
      hide Shaped;
      hide At;
      hide Passing;
      hide Later;
      hide Pace;
      hide NotDueMeansRead;
      hide NewsGrew;
      hide Did;
      hide Attended;
      ghost var start := k.calls;
      AtBounds(v);
      organise := false;
      u := v;
      var index := 0;
      var on := StartPass(v, due);
      while on && index < pollNfds
        invariant At(u) && Passing(v, u, index) && (!organise ==> AllLive(u.slots)) && NewsGrew(due.news)
        invariant 2 + |v.slots| <= pollNfds && pollFds.Length == tableSize + 1
        invariant on == pollLoop && Did(start, k.calls, old(pollLoop), on, v, u)
        invariant Attended(start, k.calls, due.ready, v, u, index)
        invariant forall j | index <= j < 2 + |v.slots| :: pollFds[j] == old(pollFds[j])
        invariant k.faultless && alloc.reliable && on ==> Pace(v, u, index, due)
        invariant buffer.data == old(buffer.data) || (buffer.data != null && fresh(buffer.data))
        decreases tableSize - index
      {
        AtBounds(u);
        var dropped;
        dropped, on, u := VisitAndTest(index, v, u, due, start, old(pollLoop));
        organise := organise || dropped;
        index := index + 1;
      }
      i := index;
    }

    /** Visits an entry, and tests the loop flag. */
    method VisitAndTest(i: nat, ghost v: View, ghost u: View, ghost due: Due, ghost start: seq<Call>, ghost was: bool)
      returns (dropped: bool, on: bool, ghost w: View)
      requires At(u) && Settled(v) && Passing(v, u, i) && i < pollNfds
      requires pollFds.Length == tableSize + 1 && (pollFds[i].revents == Readable || !due.At(v, i))
      requires NewsGrew(due.news)
      requires k.faultless && alloc.reliable ==> NotDueMeansRead(v, due.ready, due.news) && Pace(v, u, i, due)
      requires Did(start, k.calls, was, pollLoop, v, u) && Attended(start, k.calls, due.ready, v, u, i)
      requires 2 <= i < 2 + |v.slots| ==> (pollFds[i].revents == Readable <==> v.slots[i - 2].fd in due.ready)
      modifies this`pollNfds, this`countId, this`pollLoop
      modifies this`trace, this`connOf, this`records, this`damaged, this`torn, this`owners, this`moments
      modifies pollFds, infos, buffer, buffer.Block(), alloc`live, alloc`refused
      modifies k`news, k`next, k`conns, k`fdConn, k`unused, k`calls
      ensures At(w) && Passing(v, w, i + 1)
      ensures !dropped ==> (AllLive(u.slots) ==> AllLive(w.slots))
      ensures on == pollLoop && (k.faultless && alloc.reliable && on ==> Pace(v, w, i + 1, due))
      ensures NewsGrew(due.news) && Did(start, k.calls, was, on, v, w)
      ensures Attended(start, k.calls, due.ready, v, w, i + 1)
      ensures pollNfds >= old(pollNfds)
      ensures forall j | i < j < old(pollNfds) :: pollFds[j] == old(pollFds[j])
      ensures buffer.data == old(buffer.data) || (buffer.data != null && fresh(buffer.data))
    {
      hide Inv;
      hide Shaped;
      hide At;
      hide Passing;
      hide Later;
      hide Pace;
      hide NotDueMeansRead;
      hide NewsGrew;
      hide Did;
      hide DrainedBy;
      hide On;
      AtBounds(u);
      ghost var between, readable := k.calls, pollFds[i].revents == Readable;
      dropped, w := VisitEntry(i, v, u, due);
      ghost var visited, still := k.calls, pollLoop;
      AttendedOn(start, between, visited, due.ready, v, u, w, i, readable);
      hide Attending;
      on := LoopFlag();
      AttendedFlag(start, visited, k.calls, due.ready, v, w, i + 1);
      DidDrain(visited, k.calls, still, on, true, w, w);
      DidThen(start, between, visited, was, old(pollLoop), still, v, u, w);
      DidThen(start, visited, k.calls, was, still, on, v, w, w);
    }

    lemma NewsNow()
      ensures NewsGrew(k.news)
    {
    }

    /** The wait at the start of a poll touches only `revents`. */
    method WaitForEvents(ghost v: View) returns (ret: int)
      requires At(v) && Settled(v)
      modifies pollFds, k`news, k`ready, k`calls
      ensures At(v) && More(old(k.news), k.news)
      ensures |k.calls| == |old(k.calls)| + 1 && old(k.calls) <= k.calls
      ensures var c := k.calls[|old(k.calls)|]; c.Tabled? && c.answer == ret && c.errno == k.errno()
      ensures ret >= 0 ==> forall j | 0 <= j < pollNfds :: pollFds[j].revents == Readable <==> pollFds[j].fd in k.ready
      ensures ret == 0 ==> forall j | 0 <= j < pollNfds :: pollFds[j].fd !in k.ready
      ensures k.faultless ==> && ret >= 0 && NotDueMeansRead(v, k.ready, k.news)
                              && (Unread(v, k.news) ==> ret > 0)
                              && (|v.conns| < k.news.knocked ==> pollFds[0].fd in k.ready)
                              && (|v.owners| < k.news.queued ==> pollFds[1].fd in k.ready)
      ensures forall j | 0 <= j < pollFds.Length :: pollFds[j].fd == old(pollFds[j].fd)
    {
      hide Inv;
      hide Shaped;
      hide BufferInv;
      hide QueueFits;
      hide Zip;
      ret := k.Poll(pollFds, pollNfds);
      if ret >= 0 {
        EventsCount(Marks(pollFds[..pollNfds]));
        assert forall j | 0 <= j < pollNfds :: Marks(pollFds[..pollNfds])[j] == pollFds[j].revents;
      }
      if k.faultless {
        forall j | 0 <= j < |v.slots| && ConnAt(v, j) < |k.news.arrived|
          ensures v.slots[j].fd == pollFds[j + 2].fd
          ensures v.slots[j].fd !in k.ready ==> k.news.arrived[ConnAt(v, j)] <= v.conns[ConnAt(v, j)].pos
        {
          assert v.slots[j].fd != -1;
          LiveSlot(v, j);
        }
      }
    }

    /** Of the stream of some client bytes have arrived that have not been read. */
    ghost predicate Unread(v: View, news: News)
      requires Inv(v)
    {
      exists j | 0 <= j < |v.slots| ::
        ConnAt(v, j) < |news.arrived| && v.conns[ConnAt(v, j)].pos < news.arrived[ConnAt(v, j)]
    }

    /** The compaction after a pass that dropped a client: it reads behind the table exactly
        if the table was full and a client other than the last was dropped. */
    method CompactTable(ghost u: View) returns (ghost reach: nat)
      requires At(u)
      modifies this`pollNfds, pollFds, infos
      ensures At(Compacted(u))
      ensures reach > tableSize <==> 2 + |u.slots| == tableSize && DroppedInside(u.slots)
    {
      hide Inv;
      hide Shaped;
      hide BufferInv;
      hide Kernel.Valid;
      hide QueueFits;
      hide Zip;
      ghost var reachInfos;
      pollNfds, reach, reachInfos := Compaction.Compact(pollFds, infos, pollNfds);
      assert infos[0] == infos[..2][0] && pollFds[0] == pollFds[..2][0] && pollFds[1] == pollFds[..2][1];
    }

    /** `udtcp_server_poll`.  Between two polls every slot is live and the invariant
        holds; the history only grows, by steps of the server, and nothing is written to a
        client.  The answer of `poll` decides the result; without an event nothing changes;
        and exactly the clients whose records have been read whole are added.  In a faultless
        run in which the loop flag stays on, every client whose stream has not been cut before
        and carries only messages of 1 to 2^31-1 bytes has then been told of all that had
        arrived when the wait ended (`heard`), a readable queue has been drained as far as
        `StopsProperly` says, and at a readable listening socket the waiting connections have
        been accepted, up to one that was refused.  `u` is the state before the compaction,
        `reach` one more than the highest index it reads. */
    method Poll(ghost v: View)
      returns (ret: PollResult, ghost w: View, ghost u: View, ghost heard: News, ghost reach: nat)
      requires At(v) && Settled(v)
      modifies this`pollNfds, this`countId, this`pollLoop
      modifies this`trace, this`connOf, this`records, this`damaged, this`torn, this`owners, this`moments
      modifies pollFds, infos, buffer, buffer.Block(), alloc`live, alloc`refused
      modifies k`news, k`next, k`ready, k`conns, k`fdConn, k`unused, k`calls
      ensures At(w) && Settled(w) && Later(v, w)
      ensures |old(k.calls)| < |k.calls| && PollAnswered(k.calls[|old(k.calls)|], ret)
      ensures old(k.calls) <= k.calls && Did(k.calls[..|old(k.calls)| + 1], k.calls, old(pollLoop), pollLoop, v, w)
      ensures EachAttended(k.calls[..|old(k.calls)| + 1], k.calls, k.ready, v, u,
                           pollLoop && ret in {PollSuccess, PollTimeout})
      ensures ret != PollSuccess ==> w == v
      ensures More(old(k.news), heard)
      ensures k.faultless && (Unread(v, heard) || |v.conns| < heard.knocked || |v.owners| < heard.queued) ==>
                ret == PollSuccess
      ensures k.faultless && |v.conns| < heard.knocked ==> old(pollFds[0].fd) in k.ready
      ensures k.faultless && |v.owners| < heard.queued ==> old(pollFds[1].fd) in k.ready
      ensures k.faultless && alloc.reliable && pollLoop
              ==> var due := Due(k.ready, old(pollFds[0].fd) in k.ready, old(pollFds[1].fd) in k.ready, heard);
                  EveryoneServed(v, w, due)
      ensures Later(v, u) && w == Compacted(u)
      ensures reach > tableSize <==> 2 + |u.slots| == tableSize && DroppedInside(u.slots)
      ensures buffer.data == old(buffer.data) || (buffer.data != null && fresh(buffer.data))
    {
      hide Inv;
      hide Shaped;
      hide At;
      hide Later;
      hide EveryoneServed;
      hide DroppedInside;
      hide NotDueMeansRead;
      hide Unread;
      hide Did;
      hide Kernel.errno;
      LaterSelf(v);
      w, u, reach := v, v, 0;
      SettledCompact(v);
      AtBounds(v);
      ghost var before := k.calls;
      var ready := WaitForEvents(v);
      heard := k.news;
      ghost var waited := k.calls;
      assert waited[..|before| + 1] == waited;
      DidNothing(waited, pollLoop, v);
      NobodyReadable(waited, k.ready, v, pollLoop && ready == 0);
      hide EachAttended;
      ghost var due := Due(k.ready, pollFds[0].fd in k.ready, pollFds[1].fd in k.ready, k.news);
      if ready <= 0 {
        if k.faultless {
          NothingDue(v, due);
        }
        ret := if ready == 0 then PollTimeout else if k.errno() == Interrupted then PollSignal else PollError;
        return ret, w, u, heard, reach;
      }
      w, u, reach := PassAndCompact(v, due);
      DidPrefix(waited, k.calls, old(pollLoop), pollLoop, v, w);
      assert k.calls[..|before| + 1] == waited;
      return PollSuccess, w, u, heard, reach;
    }

    lemma DidPrefix(a: seq<Call>, b: seq<Call>, was: bool, now: bool, v: View, w: View)
      requires Did(a, b, was, now, v, w)
      ensures a <= b
    {
    }

    /** The pass over the table, and the compaction if it has dropped a client. */
    method PassAndCompact(ghost v: View, ghost due: Due) returns (ghost w: View, ghost u: View, ghost reach: nat)
      requires At(v) && Settled(v)
      requires forall j | 0 <= j < pollNfds :: pollFds[j].revents == Readable <==> pollFds[j].fd in k.ready
      requires due.ready == k.ready && due.news == k.news
      requires due.listens ==> pollFds[0].fd in k.ready
      requires due.receives ==> pollFds[1].fd in k.ready
      requires k.faultless ==> NotDueMeansRead(v, due.ready, due.news)
      modifies this`pollNfds, this`countId, this`pollLoop
      modifies this`trace, this`connOf, this`records, this`damaged, this`torn, this`owners, this`moments
      modifies pollFds, infos, buffer, buffer.Block(), alloc`live, alloc`refused
      modifies k`news, k`next, k`conns, k`fdConn, k`unused, k`calls
      ensures At(w) && Settled(w) && Later(v, w) && Later(v, u) && w == Compacted(u)
      ensures Did(old(k.calls), k.calls, old(pollLoop), pollLoop, v, w)
      ensures EachAttended(old(k.calls), k.calls, due.ready, v, u, pollLoop)
      ensures k.faultless && alloc.reliable && pollLoop ==> EveryoneServed(v, w, due)
      ensures reach > tableSize <==> 2 + |u.slots| == tableSize && DroppedInside(u.slots)
      ensures buffer.data == old(buffer.data) || (buffer.data != null && fresh(buffer.data))
    {
      hide Inv;
      hide Shaped;
      hide At;
      hide Later;
      hide Passing;
      hide EveryoneServed;
      hide Pace;
      hide DroppedInside;
      hide NotDueMeansRead;
      hide Attended;
      ghost var start := k.calls;
      AtBounds(v);
      reach := 0;
      var organise;
      ghost var i;
      organise, u, i := ServePass(v, due);
      PassEnd(v, u, i, due, k.faultless && alloc.reliable && pollLoop);
      AttendedAll(start, k.calls, due.ready, v, u, i, pollLoop);
      hide EachAttended;
      w := Compacted(u);
      if organise {
        reach := CompactTable(u);
      } else {
        SettledCompact(u);
      }
    }

    lemma SettledCompact(v: View)
      requires AllLive(v.slots)
      ensures Compacted(v) == v && !DroppedInside(v.slots)
    {
      LiveOfAllLive(v.slots);
    }

    /** Each send slot has the buffer it had, or one allocated since. */
    twostate predicate SendBuffersKept()
      reads sends
    {
      forall s | s in sends :: s.buffer == old(s.buffer) || (s.buffer != null && fresh(s.buffer))
    }

    /** Send slot `m` may have replaced its buffer; every other buffer is as before. */
    twostate lemma SlotReplaced(m: nat)
      requires 2 <= m < |sends| && old(BufferInv()) && sends[m].Valid() && unchanged(buffer)
      requires forall s | s in sends && s != sends[m] :: unchanged(s)
      requires sends[m].buffer == old(sends[m].buffer) || (sends[m].buffer != null && fresh(sends[m].buffer))
      requires alloc.live == old(alloc.live) - old(sends[m].Block()) + sends[m].Block()
      ensures BufferInv()
    {
      ghost var before, b := old(Blocks()), sends[m].Block();
      forall j | 0 <= j < |sends| && j != m
        ensures sends[j].Valid() && sends[j].Block() == before[j] && before[j] !! b
      {
        assert sends[j] in sends && old(sends[j].Valid());
        assert before[j] !! before[m];
      }
      assert buffer.Block() !! before[m];
      assert Blocks() == before[m := b];
      UnionChanged(before, m, b);
    }

    /** `udtcp_send_tcp` through slot `m`. */
    method TransmitTcp(m: nat, fd: int, data: seq<byte>) returns (ret: int)
      requires BufferInv() && 2 <= m < |sends| && Sendable(|data|, sends[m].buffer != null)
      requires k.Valid() && fd in k.fdConn
      modifies sends[m], sends[m].Block(), alloc`live, alloc`refused, k`conns, k`calls
      ensures BufferInv() && SendBuffersKept() && k.Valid()
      ensures ret in {-1, 0, WORD_SIZE + |data|}
      ensures SendAnswered(old(k.calls), k.calls, SendFrame, alloc.refused > old(alloc.refused), ret,
                           WORD_SIZE + |data|)
      ensures k.faultless && alloc.reliable ==> ret == WORD_SIZE + |data|
      ensures k.conns == if ret > 0 then Output(old(k.conns), k.fdConn[fd], Encode(data)) else old(k.conns)
    {
      hide Kernel.Valid;
      assert sends[m].Valid() && sends[m].alloc == alloc && BuffersShape();
      hide BufferInv;
      ret := sends[m].SendTcp(k, fd, data);
      SlotReplaced(m);
    }

    /** `udtcp_send_udp` through slot `m`. */
    method TransmitUdp(m: nat, socket: int, dest: Addr, data: seq<byte>) returns (ret: int)
      requires BufferInv() && 2 <= m < |sends| && Sendable(|data|, sends[m].buffer != null)
      modifies sends[m], sends[m].Block(), alloc`live, alloc`refused, k`sent, k`calls
      ensures BufferInv() && SendBuffersKept()
      ensures ret in {-1, 0, WORD_SIZE + |data|}
      ensures SendAnswered(old(k.calls), k.calls, SendDatagram, alloc.refused > old(alloc.refused), ret,
                           WORD_SIZE + |data|)
      ensures k.faultless && alloc.reliable ==> ret == WORD_SIZE + |data|
      ensures k.sent == if ret > 0 then old(k.sent) + [Sent(socket, dest, Encode(data))] else old(k.sent)
    {
      assert sends[m].Valid() && sends[m].alloc == alloc && BuffersShape();
      hide BufferInv;
      ret := sends[m].SendUdp(k, socket, dest, data);
      SlotReplaced(m);
    }

    /** The send slot of a client is one of the table's. */
    lemma SlotInTable(i: nat, v: View)
      requires At(v) && Inv(v) && 2 <= i < pollNfds && pollFds[i].fd != -1
      ensures i < infos.Length && 2 <= infos[i].send < |sends|
    {
      hide Inv;
      hide Shaped;
      hide Kernel.Valid;
      SlotAt(i, v);
      LiveSlot(v, i - 2);
    }

    /** `udtcp_send_tcp` to the client in entry `i`: its connection gets exactly the frame
        of the payload, or nothing; no other connection and no callback is affected,
        whoever shares the send slot. */
    method SendTcp(i: nat, data: seq<byte>, ghost v: View) returns (ret: int, ghost w: View)
      requires At(v) && Settled(v) && 2 <= i < pollNfds
      requires 2 <= infos[i].send < |sends| && Sendable(|data|, sends[infos[i].send].buffer != null)
      modifies sends[infos[i].send], sends[infos[i].send].Block(), alloc`live, alloc`refused, k`conns, k`calls
      ensures At(w) && Settled(w)
      ensures ret in {-1, 0, WORD_SIZE + |data|}
      ensures SendAnswered(old(k.calls), k.calls, SendFrame, alloc.refused > old(alloc.refused), ret,
                           WORD_SIZE + |data|)
      ensures k.faultless && alloc.reliable ==> ret == WORD_SIZE + |data|
      ensures |data| < LIMIT32 && w == if ret > 0 then Written(v, ConnAt(v, i - 2), Encode(data)) else v
      ensures SendBuffersKept()
    {
      hide Inv;
      hide Shaped;
      hide Kernel.Valid;
      hide QueueFits;
      hide Reserved;
      hide Zip;
      hide Encode;
      hide SendAnswered;
      hide Unwritten;
      SlotAt(i, v);
      LiveSlot(v, i - 2);
      hide BufferInv;
      ret := TransmitTcp(infos[i].send, infos[i].tcpSocket, data);
      w := if ret > 0 then Written(v, ConnAt(v, i - 2), Encode(data)) else v;
      if ret > 0 {
        WrittenKeepsInv(v, ConnAt(v, i - 2), data);
      }
    }

    /** `udtcp_send_udp` to the client in entry `i`: one datagram with the frame, from the
        server's sending socket to the address the client receives on, or nothing. */
    method SendUdp(i: nat, data: seq<byte>, ghost v: View) returns (ret: int)
      requires At(v) && Settled(v) && 2 <= i < pollNfds
      requires 2 <= infos[i].send < |sends| && Sendable(|data|, sends[infos[i].send].buffer != null)
      modifies sends[infos[i].send], sends[infos[i].send].Block(), alloc`live, alloc`refused, k`sent, k`calls
      ensures At(v)
      ensures ret in {-1, 0, WORD_SIZE + |data|}
      ensures SendAnswered(old(k.calls), k.calls, SendDatagram, alloc.refused > old(alloc.refused), ret,
                           WORD_SIZE + |data|)
      ensures k.faultless && alloc.reliable ==> ret == WORD_SIZE + |data|
      ensures |data| < LIMIT32
              && k.sent == if ret > 0
                           then old(k.sent) + [Sent(infos[i].udpServerSocket, infos[i].udpServerAddr, Encode(data))]
                           else old(k.sent)
      ensures SendBuffersKept()
    {
      hide Inv;
      hide Shaped;
      hide Kernel.Valid;
      hide QueueFits;
      hide Reserved;
      hide Zip;
      hide BufferInv;
      ret := TransmitUdp(infos[i].send, infos[i].udpServerSocket, infos[i].udpServerAddr, data);
    }

    /** The start of `udtcp_delete_server`. */
    method CloseSockets()
      requires k.Valid() && Reserved()
      modifies k`own
      ensures k.Valid()
      ensures k.own == old(k.own) - {self.tcpSocket, self.udpServerSocket, self.udpClientSocket}
    {
      if infos[0].tcpSocket != -1 {
        k.CloseOwn(infos[0].tcpSocket);
      }
      if infos[0].udpServerSocket != -1 {
        k.CloseOwn(infos[0].udpServerSocket);
      }
      if infos[0].udpClientSocket != -1 {
        k.CloseOwn(infos[0].udpClientSocket);
      }
    }

    /** The first loop of `udtcp_delete_server`. */
    method FreeSends()
      requires BufferInv()
      modifies alloc`live
      ensures alloc.live == buffer.Block() && buffer.Valid()
    {
      ghost var bs := Blocks();
      assert bs[0] == bs[1] == {} && bs[1..][1..] == bs[2..];
      assert Union(bs) == Union(bs[2..]);
      for i := 2 to |sends|
        invariant alloc.live == buffer.Block() + Union(bs[i..])
      {
        UnionApart(bs[i], bs[i + 1..]);
        assert bs[i..][0] == bs[i] && bs[i..][1..] == bs[i + 1..];
        if sends[i].bufferSize > 0 {
          alloc.Free(sends[i].buffer);
        }
      }
    }

    /** The second loop of `udtcp_delete_server`: closes every client and announces it. */
    method CloseClients(ghost v: View) returns (ghost u: View)
      requires k.Valid() && Settled(v) && 2 <= pollNfds < pollFds.Length == infos.Length
      requires v.slots == Rows(pollFds, infos, 2, pollNfds)
      requires trace == v.trace && k.conns == v.conns && k.fdConn == v.fdConn
      modifies this`trace, k`conns, k`fdConn
      ensures k.Valid() && Closing(v, u, |v.slots|)
      ensures trace == u.trace && k.conns == u.conns && k.fdConn == u.fdConn
    {
      hide Inv;
      hide Shaped;
      hide Kernel.Valid;
      hide Closing;
      u := v;
      ClosingStart(v);
      for i := 2 to pollNfds
        invariant k.Valid() && Closing(v, u, i - 2)
        invariant trace == u.trace && k.conns == u.conns && k.fdConn == u.fdConn
      {
        ClosingSlot(v, u, i - 2);
        assert v.slots[i - 2] == Slot(pollFds[i].fd, infos[i]);
        LiveSlot(u, i - 2);
        if pollFds[i].fd != -1 {
          k.CloseConn(pollFds[i].fd);
          trace := trace + [Event.Disconnect(infos[i].id)];
        }
        CloseNext(v, u, i - 2);
        u := Dropped(u, i - 2);
      }
    }

    /** `udtcp_delete_server`: afterwards every accepted connection has been closed exactly
        once, every buffer has been freed, every client has had its disconnect, and what
        was delivered is as before. */
    method Delete(ghost v: View)
      requires At(v) && Settled(v)
      modifies this`trace, alloc`live, k`own, k`conns, k`fdConn
      ensures k.own == old(k.own) - {self.tcpSocket, self.udpServerSocket, self.udpClientSocket}
      ensures k.Valid() && k.fdConn == map[] && forall h | 0 <= h < |k.conns| :: k.conns[h].closes == 1
      ensures alloc.live == {}
      ensures v.trace <= trace
      ensures forall id: nat :: PhaseOf(trace, id) == if 1 <= id < v.countId then Done else Unborn
      ensures (forall id: nat :: TcpOf(trace, id) == TcpOf(v.trace, id)) && UdpOf(trace) == UdpOf(v.trace)
      ensures |k.conns| == |v.conns|
      ensures forall h | 0 <= h < |k.conns| :: k.conns[h].peer == v.conns[h].peer && k.conns[h].pos == v.conns[h].pos
      ensures forall h | 0 <= h < |k.conns| :: k.conns[h].out == v.conns[h].out
      ensures |k.conns| <= |k.peers| && forall h | 0 <= h < |k.conns| :: k.conns[h].peer == k.peers[h]
    {
      hide Inv;
      hide Shaped;
      hide Kernel.Valid;
      hide QueueFits;
      CloseSockets();
      FreeSends();
      hide BufferInv;
      ghost var u := CloseClients(v);
      if buffer.size > 0 {
        alloc.Free(buffer.data);
      }
      ClosedAll(v, u);
      k.AllClosed();
      k.InOrder();
    }

    /** A run of the thread has made `n` polls from `a` to `b`, the last one with result `ret`:
        none after the flag was cleared or a poll was an error or interrupted. */
    predicate Ran(a: seq<Call>, b: seq<Call>, was: bool, now: bool, n: int, ret: PollResult) {
      && a <= b && (now <==> was && Undisturbed(a, b))
      && Polls(b) == Polls(a) + n && (n > 0 ==> PollAnswered(LastTabled(b), ret))
      && PollsWhileRunning(a, b) && (now && (n > 0 ==> ret !in {PollError, PollSignal}) ==> Running(a, b))
    }

    /** One run of `thread_server_poll`, of at most `rounds` polls.  It ends before its last
        round only if the loop flag has been cleared or its last poll (`ret`) was an error or
        interrupted, and then it does end. */
    method ThreadRun(rounds: nat, ghost v: View) returns (ret: PollResult, ghost w: View)
      requires At(v) && Settled(v)
      modifies this`pollNfds, this`countId, this`pollLoop
      modifies this`trace, this`connOf, this`records, this`damaged, this`torn, this`owners, this`moments
      modifies pollFds, infos, buffer, buffer.Block(), alloc`live, alloc`refused
      modifies k`news, k`next, k`ready, k`conns, k`fdConn, k`unused, k`calls
      ensures At(w) && Settled(w) && Later(v, w)
      ensures Polls(old(k.calls)) <= Polls(k.calls) <= Polls(old(k.calls)) + rounds
      ensures Ran(old(k.calls), k.calls, old(pollLoop), pollLoop, Polls(k.calls) - Polls(old(k.calls)), ret)
      ensures pollLoop && Polls(k.calls) < Polls(old(k.calls)) + rounds ==>
                Polls(k.calls) > Polls(old(k.calls)) && ret in {PollError, PollSignal}
      ensures buffer.data == old(buffer.data) || (buffer.data != null && fresh(buffer.data))
    {
      hide Inv;
      hide Shaped;
      hide At;
      hide Later;
      hide DrainedBy;
      hide AllLive;
      LaterSelf(v);
      w, ret := v, PollSuccess;
      ghost var start := k.calls;
      RanNone(start, pollLoop, ret);
      hide Ran;
      hide Polls;
      var left := rounds;
      var on := LoopFlag();
      RanFlag(start, start, k.calls, old(pollLoop), old(pollLoop), on, 0, ret);
      while on && left > 0
        invariant At(w) && Settled(w) && Later(v, w)
        invariant if on then pollLoop && ret !in {PollError, PollSignal}
                  else pollLoop ==> left < rounds && ret in {PollError, PollSignal}
        invariant Ran(start, k.calls, old(pollLoop), pollLoop, rounds - left, ret) && 0 <= left <= rounds
        invariant buffer.data == old(buffer.data) || (buffer.data != null && fresh(buffer.data))
      {
        ret, on, w := PollAndTest(v, w, start, old(pollLoop), rounds - left, ret);
        left := left - 1;
      }
      RanPolls(start, k.calls, old(pollLoop), pollLoop, rounds - left, ret);
    }

    /** One more poll in such a run, and the test of the loop flag behind it. */
    method PollAndTest(ghost v: View, ghost u: View, ghost start: seq<Call>, ghost was: bool, ghost n: int,
                       ghost last: PollResult) returns (ret: PollResult, on: bool, ghost w: View)
      requires At(u) && Settled(u) && Later(v, u) && n >= 0 && pollLoop
      requires Ran(start, k.calls, was, true, n, last) && last !in {PollError, PollSignal}
      modifies this`pollNfds, this`countId, this`pollLoop
      modifies this`trace, this`connOf, this`records, this`damaged, this`torn, this`owners, this`moments
      modifies pollFds, infos, buffer, buffer.Block(), alloc`live, alloc`refused
      modifies k`news, k`next, k`ready, k`conns, k`fdConn, k`unused, k`calls
      ensures At(w) && Settled(w) && Later(v, w) && Ran(start, k.calls, was, pollLoop, n + 1, ret)
      ensures if on then pollLoop && ret !in {PollError, PollSignal} else pollLoop ==> ret in {PollError, PollSignal}
      ensures buffer.data == old(buffer.data) || (buffer.data != null && fresh(buffer.data))
    {
      hide At;
      hide Settled;
      hide Later;
      hide Ran;
      hide DrainedBy;
      ret, w := PollAgain(v, u, start, was, n, last);
      ghost var after, still := k.calls, pollLoop;
      on := false;
      if ret != PollError && ret != PollSignal {
        on := LoopFlag();
        RanFlag(start, after, k.calls, was, still, on, n + 1, ret);
      }
    }

    /** The poll itself. */
    method PollAgain(ghost v: View, ghost u: View, ghost start: seq<Call>, ghost was: bool, ghost n: int,
                     ghost last: PollResult) returns (ret: PollResult, ghost w: View)
      requires At(u) && Settled(u) && Later(v, u) && n >= 0 && pollLoop
      requires Ran(start, k.calls, was, true, n, last) && last !in {PollError, PollSignal}
      modifies this`pollNfds, this`countId, this`pollLoop
      modifies this`trace, this`connOf, this`records, this`damaged, this`torn, this`owners, this`moments
      modifies pollFds, infos, buffer, buffer.Block(), alloc`live, alloc`refused
      modifies k`news, k`next, k`ready, k`conns, k`fdConn, k`unused, k`calls
      ensures At(w) && Settled(w) && Later(v, w) && Ran(start, k.calls, was, pollLoop, n + 1, ret)
      ensures buffer.data == old(buffer.data) || (buffer.data != null && fresh(buffer.data))
    {
      hide Inv;
      hide Shaped;
      hide At;
      hide Later;
      hide Did;
      hide Ran;
      hide PollAnswered;
      hide EveryoneServed;
      hide EachAttended;
      hide Unread;
      hide More;
      hide Compacted;
      hide DroppedInside;
      ghost var before := k.calls;
      ghost var between, heard, reach;
      ret, w, between, heard, reach := Poll(u);
      RanPoll(start, before, k.calls, was, pollLoop, n, last, ret, u, w);
      LaterTransitive(v, u, w);
    }

    lemma RanNone(a: seq<Call>, was: bool, ret: PollResult)
      ensures Ran(a, a, was, was, 0, ret)
    {
    }

    lemma RanPolls(a: seq<Call>, b: seq<Call>, was: bool, now: bool, n: int, ret: PollResult)
      requires Ran(a, b, was, now, n, ret)
      ensures Polls(b) == Polls(a) + n
    {
    }

    lemma RanFlag(a: seq<Call>, b: seq<Call>, c: seq<Call>, was: bool, between: bool, now: bool, n: int,
                  ret: PollResult)
      requires Ran(a, b, was, between, n, ret) && ret !in {PollError, PollSignal} && DrainedBy(b, c, between, now, true)
      ensures Ran(a, c, was, now, n, ret)
    {
      NoPoll(b, c);
      CallsOn(a, b, c);
      assert forall i | 0 <= i < |b| :: c[i] == b[i];
    }

    lemma RanPoll(a: seq<Call>, b: seq<Call>, c: seq<Call>, was: bool, now: bool, n: int, last: PollResult,
                  ret: PollResult, u: View, w: View)
      requires Ran(a, b, was, true, n, last) && last !in {PollError, PollSignal}
      requires b <= c && |b| < |c| && PollAnswered(c[|b|], ret) && Did(c[..|b| + 1], c, true, now, u, w)
      ensures n >= 0 ==> Ran(a, c, was, now, n + 1, ret)
    {
      OnePass(b, c, true, now);
      CallsOn(a, b, c);
      assert forall i | 0 <= i < |b| :: c[i] == b[i];
    }

    /** Any number of polls and sends in any order. */
    method Serve(rounds: nat, ghost v: View) returns (ghost w: View)
      requires At(v) && Settled(v)
      modifies this`pollNfds, this`countId, this`pollLoop
      modifies this`trace, this`connOf, this`records, this`damaged, this`torn, this`owners, this`moments
      modifies pollFds, infos, buffer, buffer.Block(), alloc`live, alloc`refused
      modifies sends, set s, b | s in sends && b in s.Block() :: b
      modifies k`news, k`next, k`ready, k`conns, k`fdConn, k`unused, k`calls, k`sent
      ensures At(w) && Settled(w) && Onward(v, w)
    {
      hide Inv;
      hide Shaped;
      hide At;
      hide Onward;
      hide Unwritten;
      AtBounds(v);
      OnwardSelf(v);
      w := v;
      for round := 0 to rounds
        invariant At(w) && Settled(w) && Onward(v, w)
        invariant buffer.data == old(buffer.data) || (buffer.data != null && fresh(buffer.data))
        invariant SendBuffersKept()
      {
        ghost var u := w;
        var send: bool, started: bool := *, *;
        if started {
          pollLoop := true;
        }
        if send {
          assert forall s, b | s in sends && b in s.Block() :: b in old(s.Block()) || fresh(b);
          w := SendSomething(u);
        } else {
          var ret;
          ghost var before, heard, reach;
          ret, w, before, heard, reach := Poll(u);
        }
        OnwardTransitive(v, u, w);
      }
    }

    /** The rest of the life of a server: any number of polls and sends, then the deletion.
        `w` is its state before that. */
    method LiveOn(rounds: nat, ghost v: View) returns (ghost w: View)
      requires At(v) && Settled(v)
      modifies this`pollNfds, this`countId, this`pollLoop
      modifies this`trace, this`connOf, this`records, this`damaged, this`torn, this`owners, this`moments
      modifies pollFds, infos, buffer, buffer.Block(), alloc`live, alloc`refused
      modifies sends, set s, b | s in sends && b in s.Block() :: b
      modifies k`news, k`next, k`ready, k`conns, k`fdConn, k`unused, k`calls, k`sent, k`own
      ensures Settled(w) && Onward(v, w) && LifeOver(w, trace)
      ensures k.fdConn == map[] && forall h | 0 <= h < |k.conns| :: k.conns[h].closes == 1
      ensures k.own == old(k.own) - {self.tcpSocket, self.udpServerSocket, self.udpClientSocket}
      ensures alloc.live == {}
      ensures |w.conns| == |k.conns| <= |k.peers|
      ensures forall h | 0 <= h < |w.conns| :: w.conns[h].peer == k.peers[h] && w.conns[h].out == k.conns[h].out
    {
      hide Inv;
      hide Shaped;
      hide At;
      hide Onward;
      hide LifeOver;
      hide Kernel.Valid;
      w := Serve(rounds, v);
      Delete(w);
      LifeEnds(w, trace);
    }

    /** A send of any payload to any client. */
    method SendSomething(ghost v: View) returns (ghost w: View)
      requires At(v) && Settled(v)
      modifies alloc`live, alloc`refused, sends, set s, b | s in sends && b in s.Block() :: b
      modifies k`conns, k`calls, k`sent
      ensures At(w) && Settled(w) && Onward(v, w)
      ensures SendBuffersKept()
    {
      hide Inv;
      hide Shaped;
      hide At;
      hide Onward;
      hide Unwritten;
      OnwardSelf(v);
      w := v;
      var tcp: bool, i: nat, data: seq<byte> := *, *, *;
      if 2 <= i < pollNfds && 0 < |data| < LIMIT31 {
        SlotAt(i, v);
        assert pollFds[i].fd != -1;
        SlotInTable(i, v);
        ghost var slot := sends[infos[i].send];
        assert slot in sends;
        var ret;
        if tcp {
          ret, w := SendTcp(i, data, v);
          WrittenOnward(v, ConnAt(v, i - 2), data);
        } else {
          ret := SendUdp(i, data, v);
        }
      }
    }
  }

  /** A whole life: a server is created, polled and sent through any number of times in
      any order, and deleted.  Its state before the deletion is reached by steps of the
      server from the initial one.  In the end every accepted connection has been closed
      exactly once, every buffer has been freed, and the callbacks are as `LifeOver` says of
      the connections made, which are those of the waiting parties in their order. */
  method WholeLife(k: Kernel, alloc: Allocator, maxConnection: nat, self: Infos, rounds: nat)
    returns (ghost v: View, ghost trace: seq<Event>)
    requires k.Valid() && k.conns == [] && k.fdConn == map[] && k.next == 0 && alloc.live == {}
    requires forall d | d in k.datagrams :: Fits(d)
    requires self.tcpSocket in k.own && self.udpServerSocket in k.own && self.udpClientSocket in k.own
    requires self.tcpSocket != self.udpServerSocket
    requires self.udpClientSocket !in {self.tcpSocket, self.udpServerSocket}
    requires self.tcpSocket in k.listening && self.udpServerSocket in k.receiving
    modifies k, alloc
    ensures Reaches(Initial(2 + maxConnection, k.orderly, self, k.datagrams), v)
    ensures LifeOver(v, trace)
    ensures k.fdConn == map[] && forall h | 0 <= h < |k.conns| :: k.conns[h].closes == 1
    ensures k.own == old(k.own) - {self.tcpSocket, self.udpServerSocket, self.udpClientSocket}
    ensures alloc.live == {}
    ensures |v.conns| == |k.conns| <= |k.peers|
    ensures forall h | 0 <= h < |v.conns| :: v.conns[h].peer == k.peers[h] && v.conns[h].out == k.conns[h].out
  {
    hide Inv;
    hide Shaped;
    hide LifeOver;
    hide Reaches;
    hide Kernel.Valid;
    hide Grows;
    var server := new UdtcpServer(k, alloc, maxConnection, self);
    v := server.LiveOn(rounds, Initial(2 + maxConnection, k.orderly, self, k.datagrams));
    trace := server.trace;
  }
}
