/**
 The state of a server between two steps of its poll pass, as a value: the client
 slots of its table, the callbacks made, and the accounts of the connections in the
 kernel.  `Inv` is what every step keeps; each step is a function on this value with
 a lemma that it keeps `Inv`.
 */
module ServerModel {
  import opened Wire
  import opened Types
  import opened Sockets
  import opened Receive
  import opened Trace
  import opened Wiring

  /** A client's entries in `poll_fds` and `infos`; `fd` is -1 once it is dropped. */
  datatype Slot = Slot(fd: int, info: Infos)

  /** The entries that compaction keeps, in order. */
  function Live(s: seq<Slot>): seq<Slot> {
    if s == [] then []
    else (if s[0].fd == -1 then [] else [s[0]]) + Live(s[1..])
  }

  predicate AllLive(s: seq<Slot>) {
    forall k | 0 <= k < |s| :: s[k].fd != -1
  }

  function LiveIds(s: seq<Slot>): set<nat> {
    set k | 0 <= k < |s| && s[k].fd != -1 :: s[k].info.id
  }

  function LiveFds(s: seq<Slot>): set<int> {
    set k | 0 <= k < |s| && s[k].fd != -1 :: s[k].fd
  }

  /** The first slot whose client sends its datagrams from `source`. */
  function Find(s: seq<Slot>, source: Addr): (r: Option<nat>)
    ensures r.Some? ==> r.value < |s| && s[r.value].info.udpClientAddr == source
    ensures forall k | 0 <= k < if r.Some? then r.value else |s| :: s[k].info.udpClientAddr != source
  {
    if s == [] then None
    else if s[0].info.udpClientAddr == source then Some(0)
    else match Find(s[1..], source)
      case None => None
      case Some(k) => Some(k + 1)
  }

  function Owner(s: seq<Slot>, source: Addr): Option<nat> {
    match Find(s, source)
    case None => None
    case Some(k) => Some(s[k].info.id)
  }

  datatype View = View(
    capacity: nat,
    /** the streams behave as TCP does */
    orderly: bool,
    /** the server's own record */
    self: Infos,
    slots: seq<Slot>,
    countId: nat,
    trace: seq<Event>,
    /** for each id, the index of its connection and the record its peer sent */
    connOf: seq<nat>,
    records: seq<Infos>,
    /** ids of live clients that a read left in the middle of a frame */
    damaged: set<nat>,
    /** the id whose last read broke off in a frame, until that is dealt with */
    torn: nat,
    conns: seq<Conn>,
    fdConn: map<int, nat>,
    queue: seq<Datagram>,
    /** for each datagram taken, the client it belonged to, and how many callbacks had been
        made when it was taken */
    owners: seq<Option<nat>>,
    moments: seq<nat>)

  predicate TableInv(v: View) {
    && 2 + |v.slots| <= v.capacity
    && v.countId >= 1
    && (forall k | 0 <= k < |v.slots| :: 1 <= v.slots[k].info.id < v.countId && 2 <= v.slots[k].info.send < v.capacity)
    && (forall j, k | 0 <= j < k < |v.slots| :: v.slots[j].info.id < v.slots[k].info.id)
  }

  predicate ConnInv(v: View) {
    && |v.connOf| == |v.records| == v.countId
    && (forall i | 1 <= i < |v.connOf| :: v.connOf[i] < |v.conns|)
    && (forall i, j | 1 <= i < j < |v.connOf| :: v.connOf[i] != v.connOf[j])
    && (forall h | 0 <= h < |v.conns| :: v.conns[h].Valid())
    && (forall id | id in v.damaged :: 1 <= id < v.countId)
    && v.torn < v.countId
  }

  /** The open descriptors are those of the live slots, each for its own connection. */
  predicate FdInv(v: View)
    requires ConnInv(v) && TableInv(v)
  {
    && v.fdConn.Keys == LiveFds(v.slots)
    && (forall k | 0 <= k < |v.slots| && v.slots[k].fd != -1 ::
          && v.slots[k].fd == v.slots[k].info.tcpSocket
          && v.slots[k].fd in v.fdConn
          && v.fdConn[v.slots[k].fd] == v.connOf[v.slots[k].info.id])
  }

  /** Every entry was made from the record received on the client's own connection. */
  predicate EntryInv(v: View)
    requires ConnInv(v) && TableInv(v)
  {
    forall k | 0 <= k < |v.slots| :: v.slots[k].info == EntryFor(v, v.slots[k].info)
  }

  function EntryFor(v: View, info: Infos): Infos
    requires ConnInv(v) && 1 <= info.id < v.countId
  {
    ServerEntry(v.records[info.id], v.conns[v.connOf[info.id]].peer.addr, info.tcpSocket, v.self, info.id, info.send)
  }

  ghost predicate PhaseInv(v: View) {
    && (forall id: nat :: PhaseOf(v.trace, id) == if id in LiveIds(v.slots) then Open
                                             else if 1 <= id < v.countId then Done
                                             else Unborn)
    && Net(v.trace) == |Live(v.slots)|
  }

  /** What has been reported under `id` against what has been read from its connection:
      every report is a frame that was read there, in order, and without damage there is
      nothing between them. */
  ghost predicate StreamOk(v: View, id: nat)
    requires ConnInv(v) && 1 <= id < v.countId
  {
    var reported, read := EncodeAll(TcpOf(v.trace, id)), v.conns[v.connOf[id]].Read();
    && Within(TcpOf(v.trace, id), read)
    && if id in v.damaged then |reported| < |read|
       else reported <= read && (id in LiveIds(v.slots) && id != v.torn ==> reported == read)
  }

  ghost predicate StreamInv(v: View)
    requires ConnInv(v)
  {
    forall id | 1 <= id < v.countId :: StreamOk(v, id)
  }

  /** In an orderly environment a peer whose headers do not arrive alone is never damaged. */
  predicate CutInv(v: View)
    requires ConnInv(v)
  {
    v.orderly ==> forall id | id in v.damaged :: !v.conns[v.connOf[id]].peer.whole
  }

  /** What has been written to a client is whole frames. */
  predicate OutInv(v: View)
    requires ConnInv(v)
  {
    forall id | 1 <= id < v.countId :: Rest(v.conns[v.connOf[id]].out) == []
  }

  /** The address from which client `id` sends its datagrams. */
  function Box(v: View, id: nat): Addr
    requires ConnInv(v) && 1 <= id < v.countId
  {
    Outbox(v.records[id], v.conns[v.connOf[id]].peer.addr.ip)
  }

  /** When datagram `i` was taken, client `id` was in the table, and it sends from there. */
  predicate Claims(v: View, i: nat, id: nat)
    requires ConnInv(v) && 1 <= id < v.countId && i < |v.moments| && i < |v.queue| && v.moments[i] <= |v.trace|
  {
    PhaseOf(v.trace[..v.moments[i]], id) == Open && Box(v, id) == v.queue[i].source
  }

  /** Datagram `i` belonged to the first client that claims it, or to none. */
  predicate RightOwner(v: View, i: nat)
    requires ConnInv(v) && i < |v.owners| && i < |v.moments| && i < |v.queue| && v.moments[i] <= |v.trace|
  {
    match v.owners[i]
    case Some(id) => 1 <= id < v.countId && Claims(v, i, id) && forall j | 1 <= j < id :: !Claims(v, i, j)
    case None => forall j | 1 <= j < v.countId :: !Claims(v, i, j)
  }

  /** Datagram `i` is reported: it is well formed and has an owner. */
  predicate Reported(v: View, i: nat)
    requires i < |v.owners| && i < |v.queue|
  {
    WellFormed(v.queue[i]) && v.owners[i].Some?
  }

  /** Datagram `i` was long enough to be taken, it was taken when what the ones before it
      deliver had been delivered, it has its owner, and its report was then the next event. */
  predicate Accounted(v: View, i: nat)
    requires ConnInv(v) && i < |v.owners| == |v.moments| <= |v.queue|
  {
    && |v.queue[i].data| >= WORD_SIZE
    && v.moments[i] <= |v.trace|
    && UdpOf(v.trace[..v.moments[i]]) == UdpSpec(v.queue, v.owners[..i])
    && RightOwner(v, i)
    && (Reported(v, i) ==> && v.moments[i] < |v.trace|
                           && v.trace[v.moments[i]] == UdpData(v.owners[i].value, Declared(v.queue[i])))
  }

  predicate UdpInv(v: View)
    requires ConnInv(v)
  {
    && |v.moments| == |v.owners| <= |v.queue|
    && (forall i, j | 0 <= i < j < |v.moments| :: v.moments[i] <= v.moments[j])
    && (forall i | 0 <= i < |v.owners| :: Accounted(v, i))
    && UdpOf(v.trace) == UdpSpec(v.queue, v.owners)
  }

  /** The table, its ids and the connections fit together: what the steps need to be steps. */
  predicate Shaped(v: View) {
    TableInv(v) && ConnInv(v)
  }

  ghost predicate Inv(v: View): (r: bool)
    ensures r ==> Shaped(v)
  {
    && TableInv(v)
    && ConnInv(v)
    && FdInv(v)
    && EntryInv(v)
    && PhaseInv(v)
    && StreamInv(v)
    && CutInv(v)
    && OutInv(v)
    && UdpInv(v)
  }

  /** The state at the boundaries of `udtcp_server_poll`. */
  ghost predicate Settled(v: View) {
    Inv(v) && AllLive(v.slots) && v.torn == 0
  }

  /** A server without clients, in front of a queue of datagrams. */
  function Initial(capacity: nat, orderly: bool, self: Infos, queue: seq<Datagram>): View {
    View(capacity, orderly, self, [], 1, [], [0], [self], {}, 0, [], map[], queue, [], [])
  }

  /** The index of the connection of the client in slot `k`. */
  function ConnAt(v: View, k: nat): (h: nat)
    requires Shaped(v) && k < |v.slots|
    ensures h < |v.conns| && v.conns[h].Valid()
  {
    v.connOf[v.slots[k].info.id]
  }

  // ---------- the steps ----------

  /** The entry of a client that is added now. */
  function NewEntry(v: View, fd: int, record: Infos, conn: Conn): Infos {
    ServerEntry(record, conn.peer.addr, fd, v.self, v.countId, 2 + |v.slots|)
  }

  /** `accept_client` adds a client: the slot behind the last one, the next id. */
  function Accepted(v: View, fd: int, record: Infos, conn: Conn): View {
    v.(slots := v.slots + [Slot(fd, NewEntry(v, fd, record, conn))],
       countId := v.countId + 1,
       trace := v.trace + [Connect(v.countId)],
       connOf := v.connOf + [|v.conns|],
       records := v.records + [record],
       conns := v.conns + [conn],
       fdConn := v.fdConn[fd := |v.conns|])
  }

  /** The kernel has accepted a connection that the table does not know yet. */
  function Arrived(v: View, fd: int, conn: Conn): View {
    v.(conns := v.conns + [conn], fdConn := v.fdConn[fd := |v.conns|])
  }

  /** A connection is accepted and closed again, because the table is full or the
      handshake fails. */
  function Rejected(v: View, conn: Conn): View {
    v.(conns := v.conns + [conn])
  }

  /** `receive_tcp` reports a frame of the client in slot `k`. */
  function Delivered(v: View, k: nat, p: Payload): View
    requires Shaped(v) && k < |v.slots|
  {
    var id := v.slots[k].info.id;
    v.(trace := v.trace + [TcpData(id, p)],
       conns := Advance(v.conns, ConnAt(v, k), |Encode(p)|))
  }

  /** `receive_tcp` fails after taking `n` bytes. */
  function BrokenOff(v: View, k: nat, n: nat): View
    requires Shaped(v) && k < |v.slots|
  {
    var id := v.slots[k].info.id;
    v.(conns := Advance(v.conns, ConnAt(v, k), n),
       torn := if n > 0 then id else v.torn)
  }

  /** What one call of `receive_tcp` does when it ends in `r` having taken `taken`. */
  function AfterRead(v: View, k: nat, r: TcpRead, taken: seq<byte>): View
    requires Shaped(v) && k < |v.slots| && ReadOf(r, taken)
  {
    if r.Frame? then Delivered(v, k, taken[WORD_SIZE..]) else BrokenOff(v, k, |taken|)
  }

  /** The failure is taken for "nothing to read": the client stays. */
  function Kept(v: View): View {
    v.(damaged := if v.torn == 0 then v.damaged else v.damaged + {v.torn}, torn := 0)
  }

  /** `disconnect`, and the slot is marked. */
  function Dropped(v: View, k: nat): View
    requires Shaped(v) && k < |v.slots| && v.slots[k].fd != -1
  {
    var s := v.slots[k];
    v.(slots := v.slots[k := s.(fd := -1)],
       trace := v.trace + [Disconnect(s.info.id)],
       conns := Close(v.conns, ConnAt(v, k)),
       fdConn := v.fdConn - {s.fd},
       torn := 0)
  }

  /** `receive_udp` takes the next datagram. */
  function Taken(v: View): View
    requires |v.owners| < |v.queue|
  {
    var d := v.queue[|v.owners|];
    var owner := Owner(v.slots, d.source);
    v.(owners := v.owners + [owner],
       moments := v.moments + [|v.trace|],
       trace := v.trace + if WellFormed(d) && owner.Some? then [UdpData(owner.value, Declared(d))] else [])
  }

  function Compacted(v: View): View {
    v.(slots := Live(v.slots))
  }

  /** Bytes are written to the connection with index `h`; a send writes a frame. */
  function Written(v: View, h: nat, data: seq<byte>): View
    requires h < |v.conns|
  {
    v.(conns := Output(v.conns, h, data))
  }

  // ---------- Live ----------

  lemma {:induction false} LiveAppend(s: seq<Slot>, t: seq<Slot>)
    ensures Live(s + t) == Live(s) + Live(t)
  {
    if s == [] {
      assert s + t == t;
    } else {
      assert (s + t)[1..] == s[1..] + t;
      LiveAppend(s[1..], t);
    }
  }

  lemma {:induction false} LiveOfAllLive(s: seq<Slot>)
    requires AllLive(s)
    ensures Live(s) == s
  {
    if s != [] {
      LiveOfAllLive(s[1..]);
    }
  }

  /** The filter keeps exactly the live slots: nothing is lost, nothing added. */
  lemma {:induction false} LiveKeeps(s: seq<Slot>)
    ensures AllLive(Live(s)) && |Live(s)| <= |s|
    ensures forall x :: x in Live(s) <==> x in s && x.fd != -1
    ensures LiveIds(Live(s)) == LiveIds(s) && LiveFds(Live(s)) == LiveFds(s)
  {
    if s != [] {
      LiveKeeps(s[1..]);
      assert forall x :: x in s <==> x == s[0] || x in s[1..];
    }
    assert forall id: nat :: id in LiveIds(s) <==> exists x :: x in s && x.fd != -1 && x.info.id == id;
    assert forall id: nat :: id in LiveIds(Live(s)) <==> exists x :: x in Live(s) && x.fd != -1 && x.info.id == id;
    assert forall fd :: fd in LiveFds(s) <==> exists x :: x in s && x.fd != -1 && x.fd == fd;
    assert forall fd :: fd in LiveFds(Live(s)) <==> exists x :: x in Live(s) && x.fd != -1 && x.fd == fd;
  }
}
