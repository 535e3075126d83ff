/**
 From the calls of `udtcp_send_tcp` and `udtcp_send_udp` at one end to the callbacks at
 the other.
 */
module EndToEnd {
  import opened Wire
  import opened Types
  import opened Wiring
  import opened Trace
  import Sockets
  import Receive
  import Senders
  import ServerModel
  import ServerTheorems
  import ClientModel

  /** The payloads sent on connection `c` in a run of concurrent senders. */
  ghost function SentIn(slots: nat, run: seq<Senders.Action>, c: nat): seq<Payload>
    requires Senders.Bounds(Senders.Start(slots)) && Senders.Possible(Senders.Start(slots), run)
    requires Senders.Listed(Senders.After(Senders.Start(slots), run))
  {
    var w := Senders.After(Senders.Start(slots), run);
    Senders.SentTo(w.calls, w.order, c, true)
  }

  /** In an orderly environment, what the server reports under an id is, in order, the first
      of the payloads that some threads of its client have sent, in the order in which they
      took the lock, if no header of that client arrives without a byte of its payload;
      however the network cuts the stream into pieces, and whatever the other clients do. */
  lemma ClientToServer(slots: nat, run: seq<Senders.Action>, c: nat, v: ServerModel.View, id: nat)
    requires Senders.Bounds(Senders.Start(slots)) && Senders.Possible(Senders.Start(slots), run)
    requires c < |Senders.After(Senders.Start(slots), run).out|
    requires ServerModel.Inv(v) && 1 <= id < v.countId
    requires v.orderly && v.conns[v.connOf[id]].peer.whole
    requires v.conns[v.connOf[id]].peer.wire <= Senders.After(Senders.Start(slots), run).out[c]
    ensures Senders.Listed(Senders.After(Senders.Start(slots), run))
    ensures TcpOf(v.trace, id) <= SentIn(slots, run, c)
  {
    assert v.connOf[id] < |v.conns|;
    hide ServerModel.Inv;
    Senders.WholeFramesInLockOrder(slots, run, c);
    ServerTheorems.FifoPerConnection(v, id, SentIn(slots, run, c));
  }

  /** The same for what a client reports of the payloads that threads of the server have
      sent to it, even if it shares its send slot with other clients. */
  lemma ServerToClient(slots: nat, run: seq<Senders.Action>, c: nat, v: ClientModel.View)
    requires Senders.Bounds(Senders.Start(slots)) && Senders.Possible(Senders.Start(slots), run)
    requires c < |Senders.After(Senders.Start(slots), run).out|
    requires ClientModel.Inv(v) && v.orderly && v.conn.peer.whole
    requires v.conn.peer.wire <= Senders.After(Senders.Start(slots), run).out[c]
    ensures Senders.Listed(Senders.After(Senders.Start(slots), run))
    ensures TcpOf(v.trace, 0) <= SentIn(slots, run, c)
  {
    Senders.WholeFramesInLockOrder(slots, run, c);
    ClientModel.FifoFromServer(v, SentIn(slots, run, c));
  }

  /** What `udtcp_send_udp` sends for `p` through an entry. */
  function Through(entry: Infos, p: Payload): Sockets.Sent {
    Sockets.Sent(entry.udpServerSocket, entry.udpServerAddr, Encode(p))
  }

  /** The datagram that arrives when a party with record `own` sends: it comes from the port
      that the socket used is bound to, at the address `ip` under which the receiver sees
      that party. */
  function Carried(own: Infos, ip: int, sent: Sockets.Sent): Datagram {
    Datagram(if sent.socket == own.udpClientSocket then Outbox(own, ip) else Inbox(own, ip), sent.data)
  }

  lemma SentIsWellFormed(source: Addr, p: Payload)
    ensures var d := Datagram(source, Encode(p)); Receive.WellFormed(d) && Receive.Declared(d) == p
  {
    assert Encode(p)[..WORD_SIZE] == Header(|p|);
    WordOfHeader(|p|);
    assert Encode(p)[WORD_SIZE..WORD_SIZE + |p|] == p;
  }

  /** Client `id` is in the table when datagram `n` is taken. */
  predicate InTableAt(v: ServerModel.View, n: nat, id: nat) {
    n < |v.moments| && v.moments[n] <= |v.trace| && PhaseOf(v.trace[..v.moments[n]], id) == Open
  }

  /** A datagram that a client sends through its entry for the server goes to the address
      where the server receives.  When the server has taken it, it has been reported under
      that client, with exactly the payload sent and behind what the datagrams before it
      deliver, if and only if the client was then in the table and no client with a smaller
      id was there that sends from the same address. */
  lemma DatagramToServer(v: ServerModel.View, id: nat, host: int, p: Payload, n: nat)
    requires ServerModel.Inv(v) && 1 <= id < v.countId && n < |v.owners| <= |v.queue|
    requires v.queue[n] == Carried(v.records[id], v.conns[v.connOf[id]].peer.addr.ip,
                                   Through(ClientEntry(v.self, host, v.records[id]), p))
    ensures Through(ClientEntry(v.self, host, v.records[id]), p).dest == Inbox(v.self, host)
    ensures v.owners[n] == Some(id) <==>
              InTableAt(v, n, id)
              && forall j | 1 <= j < id && InTableAt(v, n, j) :: ServerModel.Box(v, j) != ServerModel.Box(v, id)
    ensures n < |v.moments| && v.moments[n] <= |v.trace|
    ensures var before := UdpOf(v.trace[..v.moments[n]]);
            v.owners[n] == Some(id) ==>
              |before| < |UdpOf(v.trace)| && before == UdpOf(v.trace)[..|before|] && UdpOf(v.trace)[|before|] == (id, p)
  {
    assert v.queue[n] == Datagram(ServerModel.Box(v, id), Encode(p));
    SentIsWellFormed(ServerModel.Box(v, id), p);
    assert ServerModel.Accounted(v, n) && ServerModel.RightOwner(v, n);
    ClaimedBy(v, n, id);
    ServerTheorems.UdpReportsAll(v, n);
  }

  /** Datagram `n`, if it comes from where client `id` sends, belongs to that client exactly
      if it claims it and no earlier client does. */
  lemma ClaimedBy(v: ServerModel.View, n: nat, id: nat)
    requires ServerModel.ConnInv(v) && 1 <= id < v.countId && n < |v.owners| && n < |v.moments| && n < |v.queue|
    requires v.moments[n] <= |v.trace| && ServerModel.RightOwner(v, n) && v.queue[n].source == ServerModel.Box(v, id)
    ensures v.owners[n] == Some(id) <==>
              InTableAt(v, n, id)
              && forall j | 1 <= j < id && InTableAt(v, n, j) :: ServerModel.Box(v, j) != ServerModel.Box(v, id)
  {
    hide ServerModel.Box;
    forall j | 1 <= j < v.countId
      ensures ServerModel.Claims(v, n, j) <==> InTableAt(v, n, j) && ServerModel.Box(v, j) == ServerModel.Box(v, id)
    {
    }
  }

  /** A datagram that the server sends through its entry for a client leaves the socket that
      the client expects it from, for the address where the client receives.  When the client
      has taken it, it has been reported with exactly the payload sent, behind what the
      datagrams before it deliver. */
  lemma DatagramToClient(v: ServerModel.View, k: nat, host: int, w: ClientModel.View, p: Payload, n: nat)
    requires ServerModel.Inv(v) && k < |v.slots|
    requires ClientModel.Inv(w) && n < w.taken <= |w.queue|
    requires w.queue[n] == Carried(v.self, host, Through(v.slots[k].info, p))
    ensures var id := v.slots[k].info.id;
            && 1 <= id < v.countId
            && Through(v.slots[k].info, p).dest == Inbox(v.records[id], v.conns[v.connOf[id]].peer.addr.ip)
            && w.queue[n].source == ClientEntry(v.self, host, v.records[id]).udpClientAddr
    ensures var before := ClientModel.Messages(w.queue, n);
            && |before| < |UdpOf(w.trace)| && before == UdpOf(w.trace)[..|before|]
            && UdpOf(w.trace)[|before|] == (0, p)
  {
    assert v.slots[k].info == ServerModel.EntryFor(v, v.slots[k].info);
    SentIsWellFormed(w.queue[n].source, p);
    MessageAt(w.queue, n, w.taken);
  }

  lemma {:induction false} MessageAt(queue: seq<Datagram>, n: nat, taken: nat)
    requires n < taken <= |queue| && Receive.WellFormed(queue[n])
    ensures var before, all := ClientModel.Messages(queue, n), ClientModel.Messages(queue, taken);
            |before| < |all| && before == all[..|before|] && all[|before|] == (0, Receive.Declared(queue[n]))
    decreases taken
  {
    if n < taken - 1 {
      MessageAt(queue, n, taken - 1);
    }
  }
}
