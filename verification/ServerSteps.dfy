/** Every step of a server keeps `Inv`. */
module ServerSteps {
  import opened Wire
  import opened Types
  import opened Sockets
  import opened Receive
  import opened Trace
  import opened ServerModel

  lemma InitialSettled(capacity: nat, orderly: bool, self: Infos, queue: seq<Datagram>)
    requires capacity >= 2
    ensures Settled(Initial(capacity, orderly, self, queue))
  {
  }

  lemma LiveSlot(v: View, k: nat)
    requires Inv(v) && k < |v.slots| && v.slots[k].fd != -1
    ensures v.slots[k].fd == v.slots[k].info.tcpSocket
    ensures v.slots[k].fd in v.fdConn && v.fdConn[v.slots[k].fd] == ConnAt(v, k)
    ensures 1 <= v.slots[k].info.id < v.countId && 2 <= v.slots[k].info.send < v.capacity
  {
  }

  lemma SnocSets(s: seq<Slot>, x: Slot)
    requires x.fd != -1
    ensures LiveIds(s + [x]) == LiveIds(s) + {x.info.id}
    ensures LiveFds(s + [x]) == LiveFds(s) + {x.fd}
    ensures Live(s + [x]) == Live(s) + [x]
  {
    var t := s + [x];
    assert t[|s|] == x && forall k | 0 <= k < |s| :: t[k] == s[k];
    LiveAppend(s, [x]);
    assert Live([x]) == [x];
  }

  // ---------- what a step leaves alone ----------

  /** No connection has changed hands, and none has been forgotten. */
  predicate SamePeers(v: View, w: View) {
    && v.connOf <= w.connOf && v.records <= w.records && v.countId <= w.countId
    && |v.conns| <= |w.conns| && forall h | 0 <= h < |v.conns| :: v.conns[h].peer == w.conns[h].peer
  }

  lemma EntriesKept(v: View, w: View)
    requires TableInv(v) && ConnInv(v) && EntryInv(v)
    requires TableInv(w) && ConnInv(w) && SamePeers(v, w) && v.self == w.self
    requires |w.slots| == |v.slots| && forall k | 0 <= k < |v.slots| :: w.slots[k].info == v.slots[k].info
    ensures EntryInv(w)
  {
    forall k | 0 <= k < |w.slots|
      ensures w.slots[k].info == EntryFor(w, w.slots[k].info)
    {
      assert v.slots[k].info == EntryFor(v, v.slots[k].info);
    }
  }

  lemma CutsKept(v: View, w: View)
    requires ConnInv(v) && CutInv(v) && ConnInv(w) && SamePeers(v, w)
    requires w.orderly == v.orderly && w.damaged == v.damaged
    ensures CutInv(w)
  {
  }

  lemma OutsKept(v: View, w: View)
    requires ConnInv(v) && OutInv(v) && ConnInv(w) && w.connOf == v.connOf && |w.conns| >= |v.conns|
    requires forall h | 0 <= h < |v.conns| :: w.conns[h].out == v.conns[h].out
    ensures OutInv(w)
  {
    hide Rest;
    forall id | 1 <= id < w.countId
      ensures Rest(w.conns[w.connOf[id]].out) == []
    {
    }
  }

  lemma {:induction false} UnbornBefore(t: seq<Event>, n: nat, id: nat)
    requires n <= |t| && PhaseOf(t, id) == Unborn
    ensures PhaseOf(t[..n], id) == Unborn
  {
    if n < |t| {
      UnbornBefore(t[..|t| - 1], n, id);
      assert t[..|t| - 1][..n] == t[..n];
    } else {
      assert t[..n] == t;
    }
  }

  /** The account of the datagrams taken does not depend on what comes after. */
  lemma OwnerKept(v: View, w: View, i: nat)
    requires ConnInv(v) && UdpInv(v) && ConnInv(w) && SamePeers(v, w) && i < |v.owners|
    requires w.queue == v.queue && w.owners == v.owners && w.moments == v.moments && v.trace <= w.trace
    requires forall id | v.countId <= id < w.countId :: PhaseOf(v.trace, id) == Unborn
    ensures Accounted(w, i)
  {
    assert Accounted(v, i);
    var t := v.trace[..v.moments[i]];
    assert w.trace[..w.moments[i]] == t;
    forall j | 1 <= j < w.countId
      ensures Claims(w, i, j) <==> j < v.countId && Claims(v, i, j)
    {
      if j >= v.countId {
        UnbornBefore(v.trace, v.moments[i], j);
      }
    }
    assert RightOwner(v, i);
  }

  lemma UdpKept(v: View, w: View)
    requires ConnInv(v) && UdpInv(v) && ConnInv(w) && SamePeers(v, w)
    requires w.queue == v.queue && w.owners == v.owners && w.moments == v.moments && v.trace <= w.trace
    requires UdpOf(w.trace) == UdpOf(v.trace)
    requires forall id | v.countId <= id < w.countId :: PhaseOf(v.trace, id) == Unborn
    ensures UdpInv(w)
  {
    hide Accounted;
    forall i | 0 <= i < |w.owners|
      ensures Accounted(w, i)
    {
      OwnerKept(v, w, i);
    }
  }

  lemma SameStreams(v: View, w: View)
    requires ConnInv(v) && StreamInv(v) && ConnInv(w)
    requires w.countId == v.countId && w.connOf == v.connOf && |w.conns| >= |v.conns|
    requires forall h | 0 <= h < |v.conns| :: w.conns[h].Read() == v.conns[h].Read()
    requires LiveIds(w.slots) <= LiveIds(v.slots)
    requires w.damaged == v.damaged && (w.torn == v.torn || (w.torn == 0 && v.torn !in LiveIds(w.slots)))
    requires forall id: nat :: TcpOf(w.trace, id) == TcpOf(v.trace, id)
    ensures StreamInv(w)
  {
    forall id | 1 <= id < w.countId
      ensures StreamOk(w, id)
    {
      assert StreamOk(v, id);
    }
  }

  // ---------- every step keeps the invariant ----------

  ghost predicate CanAccept(v: View, fd: int, conn: Conn) {
    && Shaped(v) && 2 + |v.slots| < v.capacity
    && fd != -1 && fd !in v.fdConn
    && conn.Valid() && conn.pos == 0 && conn.out == []
  }

  lemma AcceptedTable(v: View, fd: int, record: Infos, conn: Conn)
    requires Inv(v) && CanAccept(v, fd, conn)
    ensures var w := Accepted(v, fd, record, conn); TableInv(w) && ConnInv(w) && SamePeers(v, w)
  {
    hide PhaseInv;
    hide StreamInv;
    hide UdpInv;
    hide FdInv;
    hide EntryInv;
    hide CutInv;
    hide OutInv;
    var w := Accepted(v, fd, record, conn);
    assert forall k | 0 <= k < |v.slots| :: w.slots[k] == v.slots[k];
  }

  lemma AcceptedEntries(v: View, fd: int, record: Infos, conn: Conn)
    requires Inv(v) && CanAccept(v, fd, conn)
    requires var w := Accepted(v, fd, record, conn); TableInv(w) && ConnInv(w) && SamePeers(v, w)
    ensures EntryInv(Accepted(v, fd, record, conn))
  {
    hide PhaseInv;
    hide StreamInv;
    hide UdpInv;
    hide FdInv;
    hide CutInv;
    hide OutInv;
    var w := Accepted(v, fd, record, conn);
    forall k | 0 <= k < |w.slots|
      ensures w.slots[k].info == EntryFor(w, w.slots[k].info)
    {
      if k < |v.slots| {
        assert w.slots[k] == v.slots[k];
      }
    }
  }

  lemma AcceptedFds(v: View, fd: int, record: Infos, conn: Conn)
    requires Inv(v) && CanAccept(v, fd, conn)
    requires var w := Accepted(v, fd, record, conn); TableInv(w) && ConnInv(w)
    ensures FdInv(Accepted(v, fd, record, conn))
  {
    assert FdInv(v);
    hide Inv;
    var w, x := Accepted(v, fd, record, conn), Slot(fd, NewEntry(v, fd, record, conn));
    SnocSets(v.slots, x);
    assert w.fdConn.Keys == v.fdConn.Keys + {fd};
    hide LiveFds;
    hide LiveIds;
    hide Live;
    forall k | 0 <= k < |w.slots| && w.slots[k].fd != -1
      ensures w.slots[k].fd == w.slots[k].info.tcpSocket && w.slots[k].fd in w.fdConn
      ensures w.fdConn[w.slots[k].fd] == w.connOf[w.slots[k].info.id]
    {
      if k < |v.slots| {
        assert w.slots[k] == v.slots[k];
      }
    }
  }

  lemma AcceptedPhases(v: View, fd: int, record: Infos, conn: Conn)
    requires Inv(v) && CanAccept(v, fd, conn)
    ensures PhaseInv(Accepted(v, fd, record, conn)) && PhaseOf(v.trace, v.countId) == Unborn
  {
    hide StreamInv;
    hide UdpInv;
    hide EntryInv;
    hide CutInv;
    hide OutInv;
    SnocSets(v.slots, Slot(fd, NewEntry(v, fd, record, conn)));
    Snoc(v.trace, Connect(v.countId));
    hide Live;
  }

  lemma AcceptedStreams(v: View, fd: int, record: Infos, conn: Conn)
    requires Inv(v) && CanAccept(v, fd, conn) && PhaseOf(v.trace, v.countId) == Unborn
    requires ConnInv(Accepted(v, fd, record, conn))
    ensures StreamInv(Accepted(v, fd, record, conn))
  {
    hide PhaseInv;
    hide UdpInv;
    hide EntryInv;
    hide CutInv;
    hide OutInv;
    hide FdInv;
    var w := Accepted(v, fd, record, conn);
    SnocSets(v.slots, Slot(fd, NewEntry(v, fd, record, conn)));
    Snoc(v.trace, Connect(v.countId));
    forall id | 1 <= id < w.countId
      ensures StreamOk(w, id)
    {
      if id == v.countId {
        UnbornHasNothing(v.trace, id);
      } else {
        assert StreamOk(v, id);
      }
    }
  }

  lemma AcceptedOuts(v: View, fd: int, record: Infos, conn: Conn)
    requires CanAccept(v, fd, conn) && OutInv(v) && ConnInv(Accepted(v, fd, record, conn))
    ensures OutInv(Accepted(v, fd, record, conn))
  {
    var w := Accepted(v, fd, record, conn);
    forall id | 1 <= id < w.countId
      ensures Rest(w.conns[w.connOf[id]].out) == []
    {
      if id < v.countId {
        assert Rest(v.conns[v.connOf[id]].out) == [];
      }
    }
  }

  lemma AcceptedKeepsInv(v: View, fd: int, record: Infos, conn: Conn)
    requires Inv(v) && CanAccept(v, fd, conn)
    ensures Inv(Accepted(v, fd, record, conn))
  {
    hide TableInv;
    hide PhaseInv;
    hide StreamInv;
    hide UdpInv;
    hide EntryInv;
    hide CutInv;
    hide OutInv;
    hide FdInv;
    hide SamePeers;
    AcceptedTable(v, fd, record, conn);
    AcceptedEntries(v, fd, record, conn);
    AcceptedFds(v, fd, record, conn);
    AcceptedPhases(v, fd, record, conn);
    AcceptedStreams(v, fd, record, conn);
    Snoc(v.trace, Connect(v.countId));
    CutsKept(v, Accepted(v, fd, record, conn));
    AcceptedOuts(v, fd, record, conn);
    UdpKept(v, Accepted(v, fd, record, conn));
  }

  lemma {:induction false} UnbornHasNothing(t: seq<Event>, id: nat)
    requires PhaseOf(t, id) == Unborn
    ensures TcpOf(t, id) == []
  {
    if t != [] {
      UnbornHasNothing(t[..|t| - 1], id);
    }
  }

  lemma RejectedKeepsInv(v: View, conn: Conn)
    requires Inv(v) && conn.Valid()
    ensures Inv(Rejected(v, conn))
  {
    hide StreamInv;
    hide UdpInv;
    hide CutInv;
    hide OutInv;
    hide PhaseOf;
    var w := Rejected(v, conn);
    EntriesKept(v, w);
    SameStreams(v, w);
    CutsKept(v, w);
    OutsKept(v, w);
    UdpKept(v, w);
  }

  /** Reading from one connection leaves the streams of all others as they were. */
  lemma OthersUntouched(v: View, w: View, id: nat)
    requires ConnInv(v) && StreamInv(v) && ConnInv(w) && 1 <= id < v.countId
    requires w.countId == v.countId && w.connOf == v.connOf && w.damaged == v.damaged && w.slots == v.slots
    requires |w.conns| == |v.conns|
    requires forall h | 0 <= h < |v.conns| && h != v.connOf[id] :: w.conns[h] == v.conns[h]
    requires forall i: nat | i != id :: TcpOf(w.trace, i) == TcpOf(v.trace, i)
    requires w.torn == v.torn || w.torn == id || v.torn == 0
    requires v.torn == 0 || v.torn == id
    ensures forall i | 1 <= i < v.countId && i != id :: StreamOk(w, i)
  {
    forall i | 1 <= i < v.countId && i != id
      ensures StreamOk(w, i)
    {
      assert StreamOk(v, i);
      assert v.connOf[i] != v.connOf[id];
    }
  }

  /** The reader of client `id`'s stream moves on by `more`, of which `p` is reported, if anything. */
  lemma ReadMore(ps: seq<Payload>, read: seq<byte>, p: Payload)
    requires Within(ps, read)
    ensures Within(ps + [p], read + Encode(p))
    ensures EncodeAll(ps + [p]) == EncodeAll(ps) + Encode(p)
    ensures EncodeAll(ps) == read ==> EncodeAll(ps + [p]) == read + Encode(p)
  {
    WithinSnoc(ps, read, p);
    EncodeAllSnoc(ps, p);
  }

  lemma DeliveredStream(v: View, k: nat, p: Payload)
    requires Inv(v) && k < |v.slots| && v.slots[k].fd != -1 && v.torn == 0
    requires Encode(p) <= v.conns[ConnAt(v, k)].Unread()
    requires ConnInv(Delivered(v, k, p))
    ensures StreamOk(Delivered(v, k, p), v.slots[k].info.id)
  {
    hide PhaseInv;
    hide UdpInv;
    hide EntryInv;
    hide CutInv;
    hide OutInv;
    hide FdInv;
    hide Within;
    hide EncodeAll;
    hide Encode;
    var w, id := Delivered(v, k, p), v.slots[k].info.id;
    var h := v.connOf[id];
    Snoc(v.trace, TcpData(id, p));
    assert StreamOk(v, id);
    assert w.conns[h].Read() == v.conns[h].Read() + Encode(p);
    ReadMore(TcpOf(v.trace, id), v.conns[h].Read(), p);
    assert id in LiveIds(v.slots);
  }

  lemma DeliveredTable(v: View, k: nat, p: Payload)
    requires Inv(v) && k < |v.slots| && v.slots[k].fd != -1
    requires Encode(p) <= v.conns[ConnAt(v, k)].Unread()
    ensures var w := Delivered(v, k, p); ConnInv(w) && TableInv(w) && FdInv(w) && SamePeers(v, w)
  {
    hide PhaseInv;
    hide UdpInv;
    hide EntryInv;
    hide CutInv;
    hide OutInv;
    hide StreamInv;
    hide Encode;
  }

  lemma DeliveredKeepsInv(v: View, k: nat, p: Payload)
    requires Inv(v) && k < |v.slots| && v.slots[k].fd != -1 && v.torn == 0
    requires Encode(p) <= v.conns[ConnAt(v, k)].Unread()
    ensures Inv(Delivered(v, k, p))
  {
    hide FdInv;
    hide UdpInv;
    hide EntryInv;
    hide CutInv;
    hide OutInv;
    hide Encode;
    hide StreamOk;
    var w, id := Delivered(v, k, p), v.slots[k].info.id;
    DeliveredTable(v, k, p);
    DeliveredStream(v, k, p);
    Snoc(v.trace, TcpData(id, p));
    OthersUntouched(v, w, id);
    EntriesKept(v, w);
    CutsKept(v, w);
    OutsKept(v, w);
    UdpKept(v, w);
    assert id in LiveIds(v.slots);
  }

  lemma BrokenOffStream(v: View, k: nat, n: nat)
    requires Inv(v) && k < |v.slots| && v.slots[k].fd != -1 && v.torn == 0
    requires n <= |v.conns[ConnAt(v, k)].Unread()| && ConnInv(BrokenOff(v, k, n))
    ensures StreamOk(BrokenOff(v, k, n), v.slots[k].info.id)
  {
    hide PhaseInv;
    hide UdpInv;
    hide EntryInv;
    hide CutInv;
    hide OutInv;
    hide FdInv;
    hide Within;
    var w, id := BrokenOff(v, k, n), v.slots[k].info.id;
    var h := v.connOf[id];
    assert StreamOk(v, id);
    assert w.conns[h].Read() == v.conns[h].Read() + v.conns[h].Unread()[..n];
    WithinMore(TcpOf(v.trace, id), v.conns[h].Read(), w.conns[h].Read());
  }

  lemma BrokenOffTable(v: View, k: nat, n: nat)
    requires Inv(v) && k < |v.slots| && v.slots[k].fd != -1
    requires n <= |v.conns[ConnAt(v, k)].Unread()|
    ensures var w := BrokenOff(v, k, n); ConnInv(w) && TableInv(w) && FdInv(w) && SamePeers(v, w)
  {
    hide PhaseInv;
    hide UdpInv;
    hide EntryInv;
    hide CutInv;
    hide OutInv;
    hide StreamInv;
  }

  lemma BrokenOffKeepsInv(v: View, k: nat, n: nat)
    requires Inv(v) && k < |v.slots| && v.slots[k].fd != -1 && v.torn == 0
    requires n <= |v.conns[ConnAt(v, k)].Unread()|
    ensures Inv(BrokenOff(v, k, n))
  {
    hide FdInv;
    hide UdpInv;
    hide EntryInv;
    hide CutInv;
    hide OutInv;
    hide StreamOk;
    var w, id := BrokenOff(v, k, n), v.slots[k].info.id;
    BrokenOffTable(v, k, n);
    BrokenOffStream(v, k, n);
    OthersUntouched(v, w, id);
    EntriesKept(v, w);
    CutsKept(v, w);
    OutsKept(v, w);
    UdpKept(v, w);
  }

  lemma AfterReadKeepsInv(v: View, k: nat, r: TcpRead, taken: seq<byte>)
    requires Inv(v) && k < |v.slots| && v.slots[k].fd != -1 && v.torn == 0
    requires ReadOf(r, taken) && taken <= v.conns[ConnAt(v, k)].Unread()
    ensures Inv(AfterRead(v, k, r, taken))
  {
    hide Inv;
    hide Shaped;
    if r.Frame? {
      DeliveredKeepsInv(v, k, taken[WORD_SIZE..]);
    } else {
      BrokenOffKeepsInv(v, k, |taken|);
    }
  }

  lemma KeptKeepsInv(v: View)
    requires Inv(v)
    requires v.torn != 0 ==> |EncodeAll(TcpOf(v.trace, v.torn))| < v.conns[v.connOf[v.torn]].pos
    requires v.torn != 0 && v.orderly ==> !v.conns[v.connOf[v.torn]].peer.whole
    ensures Inv(Kept(v))
  {
    hide FdInv;
    hide UdpInv;
    hide EntryInv;
    hide PhaseInv;
    var w := Kept(v);
    assert TableInv(w) && ConnInv(w) && SamePeers(v, w);
    assert FdInv(w) && PhaseInv(w) by {
      KeptTable(v);
    }
    EntriesKept(v, w);
    OutsKept(v, w);
    hide PhaseOf;
    UdpKept(v, w);
    forall id | 1 <= id < w.countId
      ensures StreamOk(w, id)
    {
      assert StreamOk(v, id);
    }
  }

  lemma KeptTable(v: View)
    requires TableInv(v) && ConnInv(v) && FdInv(v) && PhaseInv(v) && ConnInv(Kept(v)) && TableInv(Kept(v))
    ensures FdInv(Kept(v)) && PhaseInv(Kept(v))
  {
  }

  lemma DroppedLive(s: seq<Slot>, k: nat)
    requires k < |s| && s[k].fd != -1
    ensures |Live(s[k := s[k].(fd := -1)])| == |Live(s)| - 1
  {
    var x, y := s[k], s[k].(fd := -1);
    assert s == s[..k] + ([x] + s[k + 1..]);
    assert s[k := y] == s[..k] + ([y] + s[k + 1..]);
    LiveAppend(s[..k], [x] + s[k + 1..]);
    LiveAppend(s[..k], [y] + s[k + 1..]);
    assert ([x] + s[k + 1..])[1..] == s[k + 1..] == ([y] + s[k + 1..])[1..];
  }

  lemma DroppedIds(s: seq<Slot>, k: nat)
    requires k < |s| && s[k].fd != -1
    requires forall j | 0 <= j < |s| && j != k :: s[j].info.id != s[k].info.id
    ensures LiveIds(s[k := s[k].(fd := -1)]) == LiveIds(s) - {s[k].info.id}
  {
    var t := s[k := s[k].(fd := -1)];
    forall id: nat
      ensures id in LiveIds(t) <==> id in LiveIds(s) && id != s[k].info.id
    {
      if id in LiveIds(s) && id != s[k].info.id {
        var j :| 0 <= j < |s| && s[j].fd != -1 && s[j].info.id == id;
        assert t[j] == s[j];
      }
    }
  }

  lemma DroppedFds(s: seq<Slot>, k: nat)
    requires k < |s| && s[k].fd != -1
    requires forall j | 0 <= j < |s| && j != k :: s[j].fd != s[k].fd
    ensures LiveFds(s[k := s[k].(fd := -1)]) == LiveFds(s) - {s[k].fd}
  {
    var t := s[k := s[k].(fd := -1)];
    forall fd
      ensures fd in LiveFds(t) <==> fd in LiveFds(s) && fd != s[k].fd
    {
      if fd in LiveFds(s) && fd != s[k].fd {
        var j :| 0 <= j < |s| && s[j].fd != -1 && s[j].fd == fd;
        assert t[j] == s[j];
      }
    }
  }

  lemma DroppedAccounts(v: View, k: nat)
    requires TableInv(v) && ConnInv(v) && FdInv(v) && k < |v.slots| && v.slots[k].fd != -1
    ensures var s := v.slots[k := v.slots[k].(fd := -1)];
            && LiveIds(s) == LiveIds(v.slots) - {v.slots[k].info.id}
            && LiveFds(s) == LiveFds(v.slots) - {v.slots[k].fd}
            && |Live(s)| == |Live(v.slots)| - 1
  {
    forall j | 0 <= j < |v.slots| && j != k
      ensures v.slots[j].info.id != v.slots[k].info.id && v.slots[j].fd != v.slots[k].fd
    {
      assert v.connOf[v.slots[j].info.id] != v.connOf[v.slots[k].info.id];
    }
    DroppedIds(v.slots, k);
    DroppedFds(v.slots, k);
    DroppedLive(v.slots, k);
  }

  lemma DroppedTable(v: View, k: nat)
    requires Inv(v) && k < |v.slots| && v.slots[k].fd != -1
    ensures var w := Dropped(v, k); ConnInv(w) && TableInv(w) && SamePeers(v, w)
    ensures forall h | 0 <= h < |v.conns| :: Dropped(v, k).conns[h].Read() == v.conns[h].Read()
  {
    hide PhaseInv;
    hide StreamInv;
    hide UdpInv;
    hide EntryInv;
    hide FdInv;
    hide CutInv;
    hide OutInv;
  }

  lemma DroppedFdInv(v: View, k: nat)
    requires Inv(v) && k < |v.slots| && v.slots[k].fd != -1
    requires ConnInv(Dropped(v, k)) && TableInv(Dropped(v, k))
    ensures FdInv(Dropped(v, k))
  {
    hide PhaseInv;
    hide StreamInv;
    hide UdpInv;
    hide EntryInv;
    hide CutInv;
    hide OutInv;
    var w := Dropped(v, k);
    DroppedAccounts(v, k);
    forall j | 0 <= j < |w.slots| && w.slots[j].fd != -1
      ensures w.slots[j] == v.slots[j] && w.slots[j].fd in LiveFds(w.slots)
    {
    }
  }

  lemma DroppedPhases(v: View, k: nat)
    requires Inv(v) && k < |v.slots| && v.slots[k].fd != -1
    ensures PhaseInv(Dropped(v, k))
  {
    hide StreamInv;
    hide UdpInv;
    hide EntryInv;
    hide CutInv;
    hide OutInv;
    DroppedAccounts(v, k);
    Snoc(v.trace, Disconnect(v.slots[k].info.id));
    assert v.slots[k].info.id in LiveIds(v.slots);
  }

  lemma DroppedKeepsInv(v: View, k: nat)
    requires Inv(v) && k < |v.slots| && v.slots[k].fd != -1
    requires v.torn == 0 || v.torn == v.slots[k].info.id
    ensures Inv(Dropped(v, k))
  {
    hide StreamInv;
    hide FdInv;
    hide EntryInv;
    hide PhaseInv;
    hide UdpInv;
    hide CutInv;
    hide OutInv;
    hide SamePeers;
    var w := Dropped(v, k);
    DroppedTable(v, k);
    DroppedFdInv(v, k);
    DroppedPhases(v, k);
    DroppedAccounts(v, k);
    Snoc(v.trace, Disconnect(v.slots[k].info.id));
    SameStreams(v, w);
    EntriesKept(v, w);
    CutsKept(v, w);
    OutsKept(v, w);
    UdpKept(v, w);
  }

  /** The first slot with that source address is the first client that claims it. */
  lemma FirstClaim(v: View)
    requires Inv(v) && AllLive(v.slots) && |v.owners| < |v.queue|
    requires |v.moments| == |v.owners| && ConnInv(Taken(v)) && v.trace <= Taken(v).trace
    ensures RightOwner(Taken(v), |v.owners|)
  {
    hide StreamInv;
    hide UdpInv;
    hide CutInv;
    hide OutInv;
    hide FdInv;
    var w, n, source := Taken(v), |v.owners|, v.queue[|v.owners|].source;
    assert w.trace[..w.moments[n]] == v.trace;
    forall k | 0 <= k < |v.slots|
      ensures v.slots[k].info.udpClientAddr == Box(v, v.slots[k].info.id)
    {
      assert v.slots[k].info == EntryFor(v, v.slots[k].info);
    }
    forall id | 1 <= id < v.countId
      ensures Claims(w, n, id) <==> id in LiveIds(v.slots) && Box(v, id) == source
    {
    }
    forall k | 0 <= k < |v.slots|
      ensures v.slots[k].info.id in LiveIds(v.slots)
    {
    }
  }

  lemma TakenTrace(v: View)
    requires Inv(v) && AllLive(v.slots) && |v.owners| < |v.queue|
    ensures PhaseInv(Taken(v)) && v.trace <= Taken(v).trace
    ensures UdpOf(Taken(v).trace) == UdpSpec(v.queue, Taken(v).owners)
    ensures forall id: nat :: TcpOf(Taken(v).trace, id) == TcpOf(v.trace, id)
  {
    hide StreamInv;
    hide FdInv;
    hide EntryInv;
    hide CutInv;
    hide OutInv;
    hide RightOwner;
    var w := Taken(v);
    var d, owner := v.queue[|v.owners|], Owner(v.slots, v.queue[|v.owners|].source);
    assert w.owners[..|v.owners|] == v.owners;
    if WellFormed(d) && owner.Some? {
      Snoc(v.trace, UdpData(owner.value, Declared(d)));
      assert owner.value in LiveIds(v.slots);
    } else {
      assert w.trace == v.trace;
    }
  }

  lemma SameOwner(v: View, w: View, i: nat)
    requires ConnInv(v) && UdpInv(v) && ConnInv(w) && i < |v.owners|
    requires w.connOf == v.connOf && w.records == v.records && w.conns == v.conns && w.countId == v.countId
    requires w.queue == v.queue && v.owners <= w.owners && v.moments <= w.moments && v.trace <= w.trace
    requires |w.owners| == |w.moments| <= |w.queue|
    ensures Accounted(w, i)
  {
    assert Accounted(v, i);
    assert w.owners[..i] == v.owners[..i];
    assert w.trace[..w.moments[i]] == v.trace[..v.moments[i]];
    assert RightOwner(v, i) && (Reported(w, i) <==> Reported(v, i));
    assert forall j | 1 <= j < v.countId :: Claims(w, i, j) <==> Claims(v, i, j);
  }

  lemma MomentsOrdered(v: View, w: View)
    requires ConnInv(v) && UdpInv(v) && w.moments == v.moments + [|v.trace|]
    ensures forall i, j | 0 <= i < j < |w.moments| :: w.moments[i] <= w.moments[j]
  {
    forall i, j | 0 <= i < j < |w.moments|
      ensures w.moments[i] <= w.moments[j]
    {
      assert Accounted(v, i);
    }
  }

  lemma TakenUdp(v: View, w: View)
    requires ConnInv(v) && UdpInv(v) && ConnInv(w) && |v.owners| < |v.queue| && |v.queue[|v.owners|].data| >= WORD_SIZE
    requires w.connOf == v.connOf && w.records == v.records && w.conns == v.conns && w.countId == v.countId
    requires w.queue == v.queue && v.trace <= w.trace && w.moments == v.moments + [|v.trace|]
    requires v.owners <= w.owners && |w.owners| == |v.owners| + 1
    requires UdpOf(w.trace) == UdpSpec(v.queue, w.owners)
    requires RightOwner(w, |v.owners|)
    requires Reported(w, |v.owners|) ==>
               w.trace == v.trace + [UdpData(w.owners[|v.owners|].value, Declared(v.queue[|v.owners|]))]
    ensures UdpInv(w)
  {
    hide Claims;
    hide RightOwner;
    MomentsOrdered(v, w);
    var n := |v.owners|;
    assert w.owners[..n] == v.owners && w.trace[..w.moments[n]] == v.trace;
    assert Accounted(w, n);
    hide Accounted;
    forall i | 0 <= i < n
      ensures Accounted(w, i)
    {
      SameOwner(v, w, i);
    }
  }

  lemma UdpLengths(v: View)
    requires Inv(v)
    ensures |v.moments| == |v.owners| <= |v.queue|
  {
  }

  lemma TakenKeepsInv(v: View)
    requires Inv(v) && AllLive(v.slots) && |v.owners| < |v.queue| && |v.queue[|v.owners|].data| >= WORD_SIZE
    ensures Inv(Taken(v))
  {
    hide PhaseInv;
    hide UdpInv;
    hide StreamInv;
    hide Owner;
    hide RightOwner;
    TakenTrace(v);
    UdpLengths(v);
    FirstClaim(v);
    TakenUdp(v, Taken(v));
    SameStreams(v, Taken(v));
    OutsKept(v, Taken(v));
  }

  lemma {:induction false} LiveOrdered(s: seq<Slot>)
    requires forall j, k | 0 <= j < k < |s| :: s[j].info.id < s[k].info.id
    ensures forall j, k | 0 <= j < k < |Live(s)| :: Live(s)[j].info.id < Live(s)[k].info.id
  {
    if s != [] {
      LiveOrdered(s[1..]);
      LiveKeeps(s[1..]);
      forall x | x in Live(s[1..])
        ensures s[0].info.id < x.info.id
      {
        assert x in s[1..];
      }
    }
  }

  lemma CompactedTable(v: View)
    requires Inv(v)
    ensures var w := Compacted(v); TableInv(w) && ConnInv(w) && FdInv(w) && EntryInv(w)
  {
    hide PhaseInv;
    hide StreamInv;
    hide UdpInv;
    hide CutInv;
    hide OutInv;
    hide Live;
    var w := Compacted(v);
    LiveOrdered(v.slots);
    LiveKeeps(v.slots);
    forall k | 0 <= k < |w.slots|
      ensures w.slots[k] in v.slots
    {
      assert w.slots[k] in w.slots;
    }
  }

  lemma CompactedKeepsInv(v: View)
    requires Inv(v)
    ensures Inv(Compacted(v)) && AllLive(Compacted(v).slots)
  {
    hide FdInv;
    hide EntryInv;
    hide TableInv;
    hide StreamInv;
    hide UdpInv;
    hide PhaseOf;
    var w := Compacted(v);
    CompactedTable(v);
    LiveKeeps(v.slots);
    LiveOfAllLive(w.slots);
    SameStreams(v, w);
    OutsKept(v, w);
    UdpKept(v, w);
  }

  lemma WrittenOuts(v: View, h: nat, p: Payload)
    requires ConnInv(v) && OutInv(v) && h < |v.conns| && ConnInv(Written(v, h, Encode(p)))
    ensures OutInv(Written(v, h, Encode(p)))
  {
    hide Rest;
    hide Encode;
    var w := Written(v, h, Encode(p));
    forall id | 1 <= id < w.countId
      ensures Rest(w.conns[w.connOf[id]].out) == []
    {
      OneMoreFrame(v.conns[v.connOf[id]].out, p);
    }
  }

  lemma WrittenKeepsInv(v: View, h: nat, p: Payload)
    requires Inv(v) && h < |v.conns|
    ensures Inv(Written(v, h, Encode(p)))
  {
    hide Encode;
    hide StreamInv;
    hide UdpInv;
    hide CutInv;
    hide OutInv;
    hide PhaseOf;
    var w := Written(v, h, Encode(p));
    SameStreams(v, w);
    EntriesKept(v, w);
    CutsKept(v, w);
    WrittenOuts(v, h, p);
    UdpKept(v, w);
  }
}
