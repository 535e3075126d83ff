/**
 What the invariant of a server means for those who use it: statements about every
 state that polls, sends and the final deletion can reach.
 */
module ServerTheorems {
  import opened Wire
  import opened Types
  import opened Sockets
  import opened Receive
  import opened Trace
  import opened Wiring
  import opened ServerModel
  import opened ServerSteps
  import opened ServerRuns
  import opened ServerPass

  /** `sent` is what the peer of connection `h` sent, of which the wire may carry only
      the first bytes. */
  predicate Carries(v: View, h: nat, sent: seq<Payload>) {
    h < |v.conns| && v.conns[h].peer.wire <= EncodeAll(sent)
  }

  lemma FifoUncut(v: View, id: nat, sent: seq<Payload>)
    requires Inv(v) && 1 <= id < v.countId && id !in v.damaged
    requires Carries(v, v.connOf[id], sent)
    ensures TcpOf(v.trace, id) <= sent
  {
    assert StreamOk(v, id);
    var conn := v.conns[v.connOf[id]];
    assert EncodeAll(TcpOf(v.trace, id)) <= conn.Read() <= conn.peer.wire;
    EncodingIsPrefixFree(TcpOf(v.trace, id), sent);
  }

  /** First in, first out: if no header of this client ever arrives without a byte of its
      payload, what is reported under its id is, in order, the first of the payloads sent
      on its own connection, whatever else was accepted, dropped or compacted meanwhile,
      and whatever the other clients do. */
  lemma FifoPerConnection(v: View, id: nat, sent: seq<Payload>)
    requires Inv(v) && 1 <= id < v.countId
    requires v.orderly && v.conns[v.connOf[id]].peer.whole
    requires Carries(v, v.connOf[id], sent)
    ensures TcpOf(v.trace, id) <= sent
  {
    assert id !in v.damaged;
    FifoUncut(v, id, sent);
  }

  /** And for every client in every environment: nothing is reported that was not read on
      its own connection, and it is reported in order, each byte at most once. */
  lemma ReportsAreRead(v: View, id: nat)
    requires Inv(v) && 1 <= id < v.countId
    ensures Within(TcpOf(v.trace, id), v.conns[v.connOf[id]].Read())
    ensures v.conns[v.connOf[id]].Read() <= v.conns[v.connOf[id]].peer.wire
  {
    assert StreamOk(v, id);
  }

  /** In this run a read of client `id` has met a part of a frame, `Stalls`, and has been
      taken for one that found nothing. */
  ghost predicate CutIn(v: View, run: seq<Step>, id: nat)
    requires Possible(v, run)
    decreases |run|
  {
    run != [] && (|| (run[0].Stall? && run[0].taken != [] && v.slots[run[0].k].info.id == id)
                  || CutIn(Do(v, run[0]), run[1..], id))
  }

  lemma {:induction false} DamagedExactly(v: View, run: seq<Step>, id: nat)
    requires Possible(v, run)
    ensures id in After(v, run).damaged <==> id in v.damaged || CutIn(v, run, id)
    decreases |run|
  {
    if run != [] {
      DamagedStep(v, run[0], id);
      hide Enabled;
      hide Do;
      DamagedExactly(Do(v, run[0]), run[1..], id);
    }
  }

  lemma DamagedStep(v: View, s: Step, id: nat)
    requires Enabled(v, s)
    ensures id in Do(v, s).damaged <==> id in v.damaged || (s.Stall? && s.taken != [] && v.slots[s.k].info.id == id)
  {
    hide StallsOrderly;
    if s.Stall? {
      assert v.slots[s.k].info.id != 0;
    }
    hide Inv;
    hide Shaped;
  }

  /** After any run of the server, the stream of a client in the table stands at a frame
      boundary, with exactly the reported payloads read, if and only if no read of it has
      been mistaken in that way. */
  lemma FrameBoundaryIff(start: View, run: seq<Step>, k: nat)
    requires Inv(start) && start.torn == 0 && start.damaged == {} && Possible(start, run)
    requires k < |After(start, run).slots| && After(start, run).slots[k].fd != -1
    ensures var v := After(start, run);
            && Inv(v)
            && (EncodeAll(TcpOf(v.trace, v.slots[k].info.id)) == v.conns[ConnAt(v, k)].Read()
                <==> !CutIn(start, run, v.slots[k].info.id))
  {
    EveryRun(start, run);
    var v := After(start, run);
    var id := v.slots[k].info.id;
    DamagedExactly(start, run, id);
    if id !in v.damaged {
      LiveReported(v, k);
    } else {
      assert StreamOk(v, id);
    }
  }

  /** When all that was sent has arrived and been read, exactly that has been reported. */
  lemma ReadToTheEnd(v: View, k: nat, sent: seq<Payload>)
    requires Settled(v) && k < |v.slots|
    requires v.orderly && v.conns[ConnAt(v, k)].peer.whole
    requires v.conns[ConnAt(v, k)].peer.wire == EncodeAll(sent)
    ensures TcpOf(v.trace, v.slots[k].info.id) == sent <==> UnreadAt(v, k) == []
  {
    var id := v.slots[k].info.id;
    assert id !in v.damaged;
    LiveReported(v, k);
    FifoPerConnection(v, id, sent);
    hide Inv;
    hide Shaped;
    var conn := v.conns[ConnAt(v, k)];
    if UnreadAt(v, k) == [] {
      assert conn.Read() == conn.peer.wire;
      EncodingIsPrefixFree(sent, TcpOf(v.trace, id));
    } else {
      assert |conn.Read()| < |conn.peer.wire|;
    }
  }

  /** No two clients report from the same connection. */
  lemma OwnConnection(v: View, id: nat, other: nat)
    requires Inv(v) && 1 <= id < v.countId && 1 <= other < v.countId
    ensures v.connOf[id] == v.connOf[other] <==> id == other
  {
  }

  /** Without that provision the order is not kept, even in an orderly environment.  In
      this run the client sends one payload of five bytes; its header is read when nothing
      else has arrived, the client stays, and the payload is then taken for a header and
      its last byte for a payload. */
  lemma StrayHeaderBreaksFifo(self: Infos, record: Infos, capacity: nat) returns (run: seq<Step>, sent: seq<Payload>)
    requires capacity >= 3
    ensures Possible(Initial(capacity, true, self, []), run)
    ensures var v := After(Initial(capacity, true, self, []), run);
            && v.countId == 2 && |v.connOf| == 2 && Carries(v, v.connOf[1], sent) && sent == [[1, 0, 0, 0, 9]]
            && TcpOf(v.trace, 1) == [[9]] && !(TcpOf(v.trace, 1) <= sent)
  {
    hide Do;
    hide Enabled;
    hide OneClient;
    var p: Payload := [1, 0, 0, 0, 9];
    sent := [p];
    assert EncodeAll(sent) == Encode(p) + [];
    var conn := Conn(Remote(Addr(0, 0), Encode(p), false, false), 0, [], 7, 0);
    var start := Initial(capacity, true, self, []);
    var a := FirstClient(start, record, conn);
    var c := HeaderTaken(a, p, conn);
    var w := TakenForFrame(c, p, conn.(pos := WORD_SIZE));
    run := ThreeSteps(start, Admit(7, record, conn), Stall(0, Header(5), 4, Other), Report(0, [9]));
  }

  /** A server in an orderly environment with one client, of which nothing is reported. */
  ghost predicate OneClient(v: View, conn: Conn) {
    && Shaped(v) && v.torn == 0 && v.orderly
    && |v.slots| == 1 && v.slots[0].fd != -1 && v.slots[0].info.id == 1
    && v.countId == 2 && v.connOf == [0, 0] && v.conns == [conn] && TcpOf(v.trace, 1) == []
  }

  lemma FirstClient(start: View, record: Infos, conn: Conn) returns (a: View)
    requires start == Initial(start.capacity, true, start.self, []) && start.capacity >= 3
    requires conn == Conn(conn.peer, 0, [], 7, 0)
    ensures Enabled(start, Admit(7, record, conn)) && a == Do(start, Admit(7, record, conn)) && OneClient(a, conn)
  {
    NothingReported();
    hide TcpOf;
    a := Do(start, Admit(7, record, conn));
    assert a.trace == [Connect(1)];
  }

  lemma NothingReported()
    ensures TcpOf([Connect(1)], 1) == []
  {
    assert [] + [Connect(1)] == [Connect(1)];
    Snoc([], Connect(1));
  }

  lemma HeaderTaken(a: View, p: Payload, conn: Conn) returns (c: View)
    requires OneClient(a, conn) && conn.peer.wire == Encode(p) && conn.pos == 0 && !conn.peer.whole && |p| == 5
    ensures var stall := Stall(0, Header(5), 4, Other);
            Enabled(a, stall) && c == Do(a, stall) && OneClient(c, conn.(pos := WORD_SIZE))
  {
    OnlyHeader(p, conn);
    c := Do(a, Stall(0, Header(5), 4, Other));
  }

  /** What remains of the frame is taken for a frame itself. */
  lemma TakenForFrame(c: View, p: Payload, conn: Conn) returns (w: View)
    requires OneClient(c, conn) && conn.peer.wire == Encode(p) && conn.pos == WORD_SIZE && p == [1, 0, 0, 0, 9]
    ensures Enabled(c, Report(0, [9])) && w == Do(c, Report(0, [9]))
    ensures w.countId == 2 && w.connOf == [0, 0] && |w.conns| == 1 && w.conns[0].peer == conn.peer
    ensures TcpOf(w.trace, 1) == [[9]]
  {
    assert conn.Unread() == p == Encode([9]);
    w := Do(c, Report(0, [9]));
    Snoc(c.trace, TcpData(1, [9]));
  }

  /** Of a frame only the header has arrived. */
  lemma OnlyHeader(p: Payload, c: Conn)
    requires c.peer.wire == Encode(p) && c.pos == 0 && !c.peer.whole && p != []
    ensures Header(|p|) <= c.Unread() && Incomplete(Header(|p|))
    ensures StallsOrderly(c, Header(|p|), WORD_SIZE, Other)
  {
    WordOfHeader(|p|);
    assert c.Here(WORD_SIZE) == Header(|p|);
  }

  lemma ThreeSteps(v: View, a: Step, b: Step, c: Step) returns (run: seq<Step>)
    requires Enabled(v, a) && Enabled(Do(v, a), b) && Enabled(Do(Do(v, a), b), c)
    ensures Possible(v, run) && After(v, run) == Do(Do(Do(v, a), b), c)
  {
    hide Do;
    hide Enabled;
    var u, w := Do(v, a), Do(Do(v, a), b);
    assert [c][1..] == [] && [b, c][1..] == [c] && [a, b, c][1..] == [b, c];
    assert Possible(Do(w, c), []) && After(Do(w, c), []) == Do(w, c);
    assert Possible(w, [c]) && After(w, [c]) == Do(w, c);
    assert Possible(u, [b, c]) && After(u, [b, c]) == Do(w, c);
    run := [a, b, c];
  }

  /** The table between two polls: within its bounds, every entry live, descriptors and
      ids distinct, and as many entries as connects minus disconnects. */
  lemma TableAtBoundary(v: View)
    requires Settled(v)
    ensures 2 <= 2 + |v.slots| <= v.capacity && |v.slots| == Net(v.trace)
    ensures forall k | 0 <= k < |v.slots| :: v.slots[k].fd == v.slots[k].info.tcpSocket != -1
    ensures forall j, k | 0 <= j < k < |v.slots| ::
              v.slots[j].fd != v.slots[k].fd && v.slots[j].info.id < v.slots[k].info.id
    ensures forall k | 0 <= k < |v.slots| :: 1 <= v.slots[k].info.id < v.countId
  {
    LiveOfAllLive(v.slots);
    forall j, k | 0 <= j < k < |v.slots|
      ensures v.slots[j].fd != v.slots[k].fd
    {
      assert v.connOf[v.slots[j].info.id] != v.connOf[v.slots[k].info.id];
    }
  }

  /** The open accepted descriptors between two polls are those of the live entries. */
  lemma OpenAtBoundary(v: View, fd: int)
    requires Settled(v)
    ensures fd in v.fdConn <==> exists k :: 0 <= k < |v.slots| && v.slots[k].fd == fd
  {
    assert fd in v.fdConn.Keys <==> fd in LiveFds(v.slots);
  }

  /** The callbacks of every client at every moment: none for an id not yet given out,
      one connect and then only data while the client is in the table, and the same
      closed by one disconnect afterwards. */
  lemma CallbackProtocol(v: View, id: nat)
    requires Inv(v)
    ensures id in LiveIds(v.slots) <==> Begun(Of(v.trace, id))
    ensures 1 <= id < v.countId && id !in LiveIds(v.slots) <==> Completed(Of(v.trace, id))
    ensures id == 0 || id >= v.countId <==> Of(v.trace, id) == []
  {
    PhaseMeaning(v.trace, id);
    if id in LiveIds(v.slots) {
      var k :| 0 <= k < |v.slots| && v.slots[k].fd != -1 && v.slots[k].info.id == id;
    }
  }

  lemma {:induction false} Deliveries(queue: seq<Datagram>, owners: seq<Option<nat>>, m: nat) returns (n: nat)
    requires |owners| <= |queue| && m < |UdpSpec(queue, owners)|
    ensures n < |owners| && WellFormed(queue[n])
    ensures owners[n].Some? && UdpSpec(queue, owners)[m] == (owners[n].value, Declared(queue[n]))
    ensures UdpSpec(queue, owners[..n]) == UdpSpec(queue, owners)[..m]
    decreases |owners|
  {
    n := |owners| - 1;
    var before := UdpSpec(queue, owners[..n]);
    if m < |before| {
      var last := n;
      n := Deliveries(queue, owners[..last], m);
      assert owners[..last][..n] == owners[..n];
    }
  }

  lemma {:induction false} DeliveredThen(queue: seq<Datagram>, owners: seq<Option<nat>>, n: nat)
    requires n < |owners| <= |queue| && WellFormed(queue[n]) && owners[n].Some?
    ensures |UdpSpec(queue, owners[..n])| < |UdpSpec(queue, owners)|
    ensures UdpSpec(queue, owners)[|UdpSpec(queue, owners[..n])|] == (owners[n].value, Declared(queue[n]))
    decreases |owners|
  {
    var last := |owners| - 1;
    if n < last {
      DeliveredThen(queue, owners[..last], n);
      assert owners[..last][..n] == owners[..n];
    }
  }

  /** Whatever is reported by UDP, over any run: the `m`-th report is the payload that a well
      formed datagram of the queue declares, for the first client that was then in the table
      and sends from that datagram's source; the earlier reports come from earlier datagrams. */
  lemma UdpReportsRight(v: View, m: nat) returns (n: nat)
    requires Inv(v) && m < |UdpOf(v.trace)|
    ensures |v.moments| == |v.owners| <= |v.queue| && n < |v.owners| && v.moments[n] <= |v.trace|
    ensures var id := UdpOf(v.trace)[m].0;
            && 1 <= id < v.countId && Claims(v, n, id) && (forall j | 1 <= j < id :: !Claims(v, n, j))
            && WellFormed(v.queue[n]) && UdpOf(v.trace)[m].1 == Declared(v.queue[n])
    ensures UdpOf(v.trace[..v.moments[n]]) == UdpOf(v.trace)[..m]
    ensures v.moments[n] < |v.trace| && v.trace[v.moments[n]] == UdpData(UdpOf(v.trace)[m].0, UdpOf(v.trace)[m].1)
  {
    n := Deliveries(v.queue, v.owners, m);
    assert Accounted(v, n);
  }

  /** And nothing is left out: of the datagrams taken, exactly those are reported that are
      well formed and whose source belonged then to a client in the table. */
  lemma UdpReportsAll(v: View, n: nat)
    requires Inv(v) && n < |v.owners|
    ensures |v.moments| == |v.owners| <= |v.queue| && v.moments[n] <= |v.trace|
    ensures (exists id | 1 <= id < v.countId :: Claims(v, n, id)) <==> v.owners[n].Some?
    ensures forall id | 1 <= id < v.countId && Claims(v, n, id) && (forall j | 1 <= j < id :: !Claims(v, n, j)) ::
              v.owners[n] == Some(id)
    ensures var before := UdpOf(v.trace[..v.moments[n]]);
            WellFormed(v.queue[n]) && v.owners[n].Some? ==>
              && |before| < |UdpOf(v.trace)| && before == UdpOf(v.trace)[..|before|]
              && UdpOf(v.trace)[|before|] == (v.owners[n].value, Declared(v.queue[n]))
              && v.moments[n] < |v.trace| && v.trace[v.moments[n]] == UdpData(v.owners[n].value, Declared(v.queue[n]))
  {
    assert Accounted(v, n);
    if WellFormed(v.queue[n]) && v.owners[n].Some? {
      DeliveredThen(v.queue, v.owners, n);
      SpecPrefix(v.queue, v.owners, n);
    }
  }

  lemma {:induction false} SpecPrefix(queue: seq<Datagram>, owners: seq<Option<nat>>, n: nat)
    requires n <= |owners| <= |queue|
    ensures UdpSpec(queue, owners[..n]) <= UdpSpec(queue, owners)
    decreases |owners|
  {
    if n == |owners| {
      assert owners[..n] == owners;
    } else {
      SpecPrefix(queue, owners[..|owners| - 1], n);
      assert owners[..|owners| - 1][..n] == owners[..n];
    }
  }

  /** A datagram sent by a client is attributed to that client exactly when no earlier
      entry of the table belongs to a client that sends from the same address. */
  lemma UdpAttribution(v: View, k: nat)
    requires Inv(v) && k < |v.slots|
    ensures Owner(v.slots, Box(v, v.slots[k].info.id)) == Some(v.slots[k].info.id)
            <==> forall j | 0 <= j < k :: Box(v, v.slots[j].info.id) != Box(v, v.slots[k].info.id)
  {
    forall j | 0 <= j < |v.slots|
      ensures v.slots[j].info.udpClientAddr == Box(v, v.slots[j].info.id)
    {
      assert v.slots[j].info == EntryFor(v, v.slots[j].info);
    }
    IdsIncrease(v);
    hide Inv;
    hide Shaped;
  }

  lemma IdsIncrease(v: View)
    requires Inv(v)
    ensures forall j, k | 0 <= j < k < |v.slots| :: v.slots[j].info.id < v.slots[k].info.id
    ensures forall k | 0 <= k < |v.slots| :: 1 <= v.slots[k].info.id < v.countId
  {
  }

  lemma TakenAreLong(v: View)
    requires Inv(v)
    ensures |v.owners| <= |v.queue| && forall i | 0 <= i < |v.owners| :: |v.queue[i].data| >= WORD_SIZE
  {
    forall i | 0 <= i < |v.owners|
      ensures |v.queue[i].data| >= WORD_SIZE
    {
      assert Accounted(v, i);
    }
  }

  /** A datagram shorter than a header is never taken: `receive_udp` fails on it and
      leaves it at the head of the queue, so nothing from there on is ever delivered. */
  lemma ShortDatagramBlocks(v: View, n: nat)
    requires Inv(v) && n < |v.queue| && |v.queue[n].data| < WORD_SIZE
    ensures |v.owners| <= n
    ensures UdpOf(v.trace) == UdpSpec(v.queue[..n], v.owners)
  {
    TakenAreLong(v);
    UdpSpecPrefix(v.queue, v.queue[..n], v.owners);
  }

  lemma {:induction false} UdpSpecPrefix(queue: seq<Datagram>, front: seq<Datagram>, owners: seq<Option<nat>>)
    requires front <= queue && |owners| <= |front|
    ensures UdpSpec(queue, owners) == UdpSpec(front, owners)
    decreases |owners|
  {
    if owners != [] {
      UdpSpecPrefix(queue, front, owners[..|owners| - 1]);
    }
  }

  /** After the deletion: the callbacks of every client ever accepted are complete; in an
      orderly environment the payloads of every client whose headers do not arrive alone are
      a first part of what it sent; every report was read on the client's own connection;
      what was written to it is whole frames; and the datagrams reported are those the
      specification names, each with its owner. */
  ghost predicate LifeOver(v: View, trace: seq<Event>) {
    && ConnInv(v) && UdpInv(v) && OutInv(v) && v.trace <= trace
    && (forall id: nat :: if 1 <= id < v.countId then Completed(Of(trace, id)) else Of(trace, id) == [])
    && (forall id, sent | 1 <= id < v.countId && v.orderly && v.conns[v.connOf[id]].peer.whole
                          && Carries(v, v.connOf[id], sent) ::
          TcpOf(trace, id) <= sent)
    && (forall id | 1 <= id < v.countId :: Within(TcpOf(trace, id), v.conns[v.connOf[id]].Read()))
    && UdpOf(trace) == UdpSpec(v.queue, v.owners)
  }

  lemma LifeEnds(v: View, trace: seq<Event>)
    requires Settled(v) && v.trace <= trace
    requires forall id: nat :: PhaseOf(trace, id) == if 1 <= id < v.countId then Done else Unborn
    requires forall id: nat :: TcpOf(trace, id) == TcpOf(v.trace, id)
    requires UdpOf(trace) == UdpOf(v.trace)
    ensures LifeOver(v, trace)
  {
    forall id: nat
      ensures if 1 <= id < v.countId then Completed(Of(trace, id)) else Of(trace, id) == []
    {
      PhaseMeaning(trace, id);
    }
    forall id, sent | 1 <= id < v.countId && v.orderly && v.conns[v.connOf[id]].peer.whole
                      && Carries(v, v.connOf[id], sent)
      ensures TcpOf(trace, id) <= sent
    {
      FifoPerConnection(v, id, sent);
    }
    forall id | 1 <= id < v.countId
      ensures Within(TcpOf(trace, id), v.conns[v.connOf[id]].Read())
    {
      ReportsAreRead(v, id);
    }
  }
}
