/** What a whole drain loop of the poll pass does to the state of a server. */
module ServerPass {
  import opened Wire
  import opened Types
  import opened Sockets
  import opened Receive
  import opened Trace
  import opened ServerModel
  import opened ServerSteps
  import opened ServerRuns

  /** From `v` to `w` callbacks, ids and connections are only added, and from a connection
      only more is read. */
  predicate Grows(v: View, w: View) {
    && v.capacity == w.capacity && v.orderly == w.orderly && v.self == w.self && v.queue == w.queue
    && v.trace <= w.trace && v.owners <= w.owners && v.moments <= w.moments && v.damaged <= w.damaged
    && SamePeers(v, w)
    && forall h | 0 <= h < |v.conns| :: v.conns[h].pos <= w.conns[h].pos
  }

  /** Nothing has been written to the connections of `v`. */
  predicate Unwritten(v: View, w: View) {
    |v.conns| <= |w.conns| && forall h | 0 <= h < |v.conns| :: w.conns[h].out == v.conns[h].out
  }

  /** `w` continues the history of `v`: it is reached by steps of the server. */
  ghost predicate Onward(v: View, w: View) {
    Grows(v, w) && Reaches(v, w)
  }

  lemma OnwardSelf(v: View)
    ensures Onward(v, v)
  {
    ReachSelf(v);
  }

  lemma OnwardTransitive(u: View, v: View, w: View)
    requires Onward(u, v) && Onward(v, w)
    ensures Onward(u, w)
  {
    hide Reaches;
    ReachTransitive(u, v, w);
  }

  /** ... and nothing is sent to a client on the way. */
  ghost predicate Later(v: View, w: View) {
    Onward(v, w) && Unwritten(v, w)
  }

  lemma LaterSelf(v: View)
    ensures Later(v, v)
  {
    ReachSelf(v);
  }

  lemma LaterTransitive(u: View, v: View, w: View)
    requires Later(u, v) && Later(v, w)
    ensures Later(u, w)
  {
    OnwardTransitive(u, v, w);
    hide Onward;
  }

  /** One more step. */
  lemma LaterStep(u: View, v: View, s: Step)
    requires Later(u, v) && Enabled(v, s) && Grows(v, Do(v, s)) && Unwritten(v, Do(v, s))
    ensures Later(u, Do(v, s))
  {
    hide Reaches;
    hide Do;
    hide Enabled;
    ReachStep(v, s);
    LaterTransitive(u, v, Do(v, s));
  }

  lemma WrittenOnward(v: View, h: nat, p: Payload)
    requires Inv(v) && v.torn == 0 && h < |v.conns|
    ensures Onward(v, Written(v, h, Encode(p)))
  {
    hide Reaches;
    hide Inv;
    hide Shaped;
    hide Encode;
    ReachStep(v, Write(h, p));
  }

  ghost function UnreadAt(v: View, k: nat): seq<byte>
    requires Inv(v) && k < |v.slots|
  {
    v.conns[ConnAt(v, k)].Unread()
  }

  /** Only the client in slot `k` has been served between `v` and `w`. */
  ghost predicate OnlyClient(v: View, w: View, k: nat)
    requires Inv(v) && k < |v.slots|
  {
    && w.countId == v.countId && w.connOf == v.connOf && w.owners == v.owners
    && |w.conns| == |v.conns|
    && (forall h | 0 <= h < |v.conns| && h != ConnAt(v, k) :: w.conns[h] == v.conns[h])
    && (forall id: nat | id != v.slots[k].info.id :: TcpOf(w.trace, id) == TcpOf(v.trace, id))
    && w.damaged <= v.damaged + {v.slots[k].info.id}
  }

  // ---------- one client ----------

  /** Between `v` and `u` whole frames of the client in slot `k` have been delivered. */
  ghost predicate Draining(v: View, u: View, k: nat)
    requires Inv(v) && k < |v.slots|
  {
    && Inv(u) && u.torn == 0 && u.slots == v.slots && u.damaged == v.damaged && u.fdConn == v.fdConn
    && Later(v, u) && OnlyClient(v, u, k)
  }

  lemma StartDraining(v: View, k: nat)
    requires Inv(v) && k < |v.slots| && v.torn == 0
    ensures Draining(v, v, k)
  {
    LaterSelf(v);
  }

  lemma DrainShrinks(u: View, k: nat, p: Payload)
    requires Inv(u) && k < |u.slots| && Encode(p) <= UnreadAt(u, k) && Inv(Delivered(u, k, p))
    ensures |UnreadAt(Delivered(u, k, p), k)| < |UnreadAt(u, k)|
  {
    hide Inv;
    hide Shaped;
    ReadAfter(u.conns, ConnAt(u, k), Encode(p), []);
  }

  lemma DrainFrame(v: View, u: View, k: nat, p: Payload)
    requires Inv(v) && k < |v.slots| && v.slots[k].fd != -1 && Draining(v, u, k)
    requires p != [] && Encode(p) <= UnreadAt(u, k)
    ensures Draining(v, Delivered(u, k, p), k)
  {
    hide Inv;
    hide Shaped;
    hide Reaches;
    hide Encode;
    DeliveredKeepsInv(u, k, p);
    Snoc(u.trace, TcpData(v.slots[k].info.id, p));
    LaterStep(v, u, Report(k, p));
  }

  /** The client in slot `k` has been served, and dropped or kept. */
  ghost predicate Served(v: View, w: View, k: nat, dropped: bool) {
    && Inv(v) && k < |v.slots| && v.slots[k].fd != -1
    && Inv(w) && w.torn == 0 && Later(v, w) && OnlyClient(v, w, k)
    && w.slots == if dropped then v.slots[k := v.slots[k].(fd := -1)] else v.slots
  }

  lemma ServedDraining(v: View, u: View, k: nat)
    requires Inv(v) && k < |v.slots| && v.slots[k].fd != -1 && Draining(v, u, k)
    ensures Served(v, u, k, false)
  {
    hide Inv;
    hide Shaped;
    hide Later;
  }

  /** A failed read has been mistaken for "nothing to read". */
  lemma ServedStalled(v: View, u: View, k: nat, taken: seq<byte>, arrived: nat, before: Errno)
    requires Inv(v) && k < |v.slots| && v.slots[k].fd != -1 && Draining(v, u, k)
    requires Enabled(u, Stall(k, taken, arrived, before))
    ensures Served(v, Kept(BrokenOff(u, k, |taken|)), k, false)
  {
    hide Inv;
    hide Shaped;
    hide Reaches;
    hide StallsOrderly;
    StallStep(u, k, taken, arrived, before);
    TornIsShort(u, k, |taken|);
    LaterStep(v, u, Stall(k, taken, arrived, before));
  }

  /** The client is dropped after a failed read or the end of its stream. */
  lemma ServedDropped(v: View, u: View, k: nat, taken: seq<byte>)
    requires Inv(v) && k < |v.slots| && v.slots[k].fd != -1 && Draining(v, u, k)
    requires taken <= UnreadAt(u, k) && (Incomplete(taken) || taken == Header(0))
    ensures Inv(BrokenOff(u, k, |taken|)) && Served(v, Dropped(BrokenOff(u, k, |taken|), k), k, true)
  {
    hide Inv;
    hide Shaped;
    hide Reaches;
    hide Incomplete;
    BrokenOffKeepsInv(u, k, |taken|);
    DroppedKeepsInv(BrokenOff(u, k, |taken|), k);
    Snoc(u.trace, Disconnect(v.slots[k].info.id));
    LaterStep(v, u, ServerRuns.Drop(k, taken));
  }

  /** What is known about a read of the client in slot `k` that has ended in `r`. */
  ghost predicate ReadKnown(u: View, k: nat, r: TcpRead, taken: seq<byte>, arrived: nat, before: Errno, after: Errno)
    requires Inv(u) && k < |u.slots|
  {
    Known(u.conns[ConnAt(u, k)], u.orderly, r, taken, arrived, before, after)
  }

  ghost predicate ReadFaultless(u: View, k: nat, r: TcpRead, taken: seq<byte>, arrived: nat,
                                before: Errno, after: Errno)
    requires Inv(u) && k < |u.slots|
  {
    KnownFaultless(u.conns[ConnAt(u, k)], r, taken, arrived, before, after)
  }

  lemma KnownPrefix(u: View, k: nat, r: TcpRead, taken: seq<byte>, arrived: nat, before: Errno, after: Errno)
    requires Inv(u) && k < |u.slots| && ReadKnown(u, k, r, taken, arrived, before, after)
    ensures ReadOf(r, taken) && taken <= UnreadAt(u, k)
    ensures r.Frame? ==> taken == Encode(taken[WORD_SIZE..]) && taken[WORD_SIZE..] != []
  {
    hide Inv;
    hide Shaped;
    var c := u.conns[ConnAt(u, k)];
    assert c.Here(arrived) <= c.Unread();
  }

  /** However the last read ended, keeping the client is a proper end if the read reported a
      frame or seemed to find nothing, and dropping it always is. */
  lemma EndOfDrain(v: View, u: View, k: nat, r: TcpRead, taken: seq<byte>, arrived: nat, before: Errno, after: Errno)
    requires Inv(v) && k < |v.slots| && v.slots[k].fd != -1 && Draining(v, u, k)
    requires ReadKnown(u, k, r, taken, arrived, before, after)
    ensures ReadOf(r, taken)
    ensures var w := AfterRead(u, k, r, taken);
            && Inv(w) && w.slots == v.slots && (w.torn == 0 || w.torn == v.slots[k].info.id)
            && (r.Frame? || NothingToRead(r, after) ==> Served(v, Kept(w), k, false))
            && Served(v, Dropped(w, k), k, true)
  {
    hide Inv;
    hide Shaped;
    hide Draining;
    hide Served;
    hide Encode;
    DrainingSlots(v, u, k);
    KnownPrefix(u, k, r, taken, arrived, before, after);
    if r.Frame? {
      DrainFrame(v, u, k, taken[WORD_SIZE..]);
      var w := Delivered(u, k, taken[WORD_SIZE..]);
      ServedDraining(v, w, k);
      EndOfDrainFrame(v, u, w, k);
      assert Kept(AfterRead(u, k, r, taken)) == w;
    } else {
      BrokenOffSlots(v, u, k, taken);
      ServedDropped(v, u, k, taken);
      if NothingToRead(r, after) {
        StallKnown(v, u, k, r, taken, arrived, before, after);
        ServedStalled(v, u, k, taken, arrived, before);
      }
    }
  }

  lemma BrokenOffSlots(v: View, u: View, k: nat, taken: seq<byte>)
    requires Inv(v) && k < |v.slots| && Draining(v, u, k)
    ensures BrokenOff(u, k, |taken|).slots == v.slots && BrokenOff(u, k, |taken|).torn in {0, v.slots[k].info.id}
  {
    hide Inv;
    hide Shaped;
    hide Later;
  }

  lemma StallKnown(v: View, u: View, k: nat, r: TcpRead, taken: seq<byte>, arrived: nat, before: Errno, after: Errno)
    requires Inv(v) && k < |v.slots| && v.slots[k].fd != -1 && Draining(v, u, k)
    requires ReadKnown(u, k, r, taken, arrived, before, after) && NothingToRead(r, after)
    ensures Enabled(u, Stall(k, taken, arrived, before))
  {
    hide Inv;
    hide Shaped;
    hide Later;
    KnownPrefix(u, k, r, taken, arrived, before, after);
  }

  lemma EndOfDrainFrame(v: View, u: View, w: View, k: nat)
    requires Inv(v) && k < |v.slots| && v.slots[k].fd != -1 && Draining(v, w, k)
    ensures Inv(w) && w.slots == v.slots && w.torn == 0 && Served(v, Dropped(w, k), k, true)
  {
    hide Inv;
    hide Shaped;
    hide Reaches;
    ServedDropped(v, w, k, []);
    assert BrokenOff(w, k, 0) == w;
  }

  /** In an orderly environment the client's stream is cut only inside a frame of which no
      more than the header has arrived. */
  ghost predicate CutOnlyThen(v: View, w: View, k: nat, arrived: nat, before: Errno) {
    Inv(v) && k < |v.slots| && v.slots[k].info.id !in v.damaged && v.slots[k].info.id in w.damaged ==>
      var peer := v.conns[ConnAt(v, k)].peer;
      arrived <= |peer.wire| && Stalls(Rest(peer.wire[..arrived]), Over(peer, arrived), before)
  }

  /** What exactly becomes, in a faultless environment, of a client whose stream has not
      been cut and carries only messages of 1 to 2^31-1 bytes: every message that has
      arrived is reported; the client stays exactly if nothing is left and the stream has
      not ended, or what is left is mistaken for that; and in the latter case, and only
      then, its stream is cut. */
  ghost predicate ServedExactly(v: View, w: View, k: nat, arrived: nat, before: Errno, dropped: bool) {
    Inv(v) && k < |v.slots| && v.slots[k].info.id !in v.damaged && Sized(v.conns[ConnAt(v, k)].peer.wire, LIMIT31) ==>
      var id, peer := v.slots[k].info.id, v.conns[ConnAt(v, k)].peer;
      && v.conns[ConnAt(v, k)].pos <= arrived <= |peer.wire|
      && TcpOf(w.trace, id) == Frames(peer.wire[..arrived])
      && (dropped <==> !Stays(Rest(peer.wire[..arrived]), Over(peer, arrived), before))
      && (!dropped ==> (id in w.damaged <==> Rest(peer.wire[..arrived]) != []))
  }

  lemma DrainingReported(v: View, u: View, k: nat)
    requires Inv(v) && k < |v.slots| && v.slots[k].fd != -1 && Draining(v, u, k) && v.slots[k].info.id !in v.damaged
    ensures ConnAt(u, k) == ConnAt(v, k) < |v.conns| && u.conns[ConnAt(u, k)].peer == v.conns[ConnAt(v, k)].peer
    ensures u.conns[ConnAt(u, k)].pos >= v.conns[ConnAt(v, k)].pos
    ensures EncodeAll(TcpOf(u.trace, v.slots[k].info.id)) == u.conns[ConnAt(u, k)].Read()
  {
    hide Inv;
    hide Shaped;
    hide Reaches;
    LiveReported(u, k);
  }

  lemma CutEnd(v: View, u: View, k: nat, r: TcpRead, taken: seq<byte>, arrived: nat, before: Errno, after: Errno)
    requires Inv(v) && k < |v.slots| && v.slots[k].fd != -1 && Draining(v, u, k) && v.orderly
    requires ReadKnown(u, k, r, taken, arrived, before, after)
    requires ReadOf(r, taken) && (r.Frame? || NothingToRead(r, after))
    ensures CutOnlyThen(v, Kept(AfterRead(u, k, r, taken)), k, arrived, before)
  {
    hide Inv;
    hide Shaped;
    hide Encode;
    var id := v.slots[k].info.id;
    if id !in v.damaged && id in Kept(AfterRead(u, k, r, taken)).damaged {
      DrainingReported(v, u, k);
      var c := u.conns[ConnAt(u, k)];
      assert c.peer.wire[..arrived] == c.Read() + c.Here(arrived);
      FramesSoFar(TcpOf(u.trace, id), c.Read(), c.Here(arrived));
      assert u.orderly by {
        DrainingOrderly(v, u, k);
      }
    }
  }

  lemma DrainingOrderly(v: View, u: View, k: nat)
    requires Inv(v) && k < |v.slots| && Draining(v, u, k)
    ensures u.orderly == v.orderly
  {
    hide Inv;
    hide Shaped;
    hide Reaches;
  }

  lemma ExactEnd(v: View, u: View, k: nat, r: TcpRead, taken: seq<byte>, arrived: nat, before: Errno, after: Errno)
    requires Inv(v) && k < |v.slots| && v.slots[k].fd != -1 && Draining(v, u, k)
    requires v.slots[k].info.id !in v.damaged && Sized(v.conns[ConnAt(v, k)].peer.wire, LIMIT31)
    requires ReadKnown(u, k, r, taken, arrived, before, after)
    requires ReadFaultless(u, k, r, taken, arrived, before, after)
    ensures ReadOf(r, taken) && (r.Frame? ==> r.size < LIMIT31)
    ensures !r.Frame? ==> && Inv(AfterRead(u, k, r, taken))
                          && ServedExactly(v, if NothingToRead(r, after) then Kept(AfterRead(u, k, r, taken))
                                              else Dropped(AfterRead(u, k, r, taken), k),
                                           k, arrived, before, !NothingToRead(r, after))
  {
    hide Inv;
    hide Shaped;
    hide Encode;
    hide Draining;
    hide FaultlessRead;
    hide Stays;
    DrainingSlots(v, u, k);
    KnownPrefix(u, k, r, taken, arrived, before, after);
    DrainingReported(v, u, k);
    var id, c := v.slots[k].info.id, u.conns[ConnAt(u, k)];
    DrainEnds(TcpOf(u.trace, id), c, arrived, LIMIT31, r, taken, before, after);
    if !r.Frame? {
      BrokenOffKeepsInv(u, k, |taken|);
      ExactOutcome(v, u, k, taken, arrived, before, !NothingToRead(r, after));
    }
  }

  lemma ExactOutcome(v: View, u: View, k: nat, taken: seq<byte>, arrived: nat, before: Errno, dropped: bool)
    requires Inv(v) && k < |v.slots| && v.slots[k].fd != -1 && v.slots[k].info.id !in v.damaged
    requires Inv(u) && u.slots == v.slots && u.damaged == v.damaged && u.torn == 0 && Inv(BrokenOff(u, k, |taken|))
    requires var id, c := v.slots[k].info.id, v.conns[ConnAt(v, k)];
             && c.pos <= arrived <= |c.peer.wire| && Frames(c.peer.wire[..arrived]) == TcpOf(u.trace, id)
             && (dropped <==> !Stays(Rest(c.peer.wire[..arrived]), Over(c.peer, arrived), before))
             && (taken == [] <==> Rest(c.peer.wire[..arrived]) == [])
    ensures var w := BrokenOff(u, k, |taken|);
            ServedExactly(v, if dropped then Dropped(w, k) else Kept(w), k, arrived, before, dropped)
  {
    hide Inv;
    hide Shaped;
    hide Stays;
    hide Frames;
    hide Rest;
    LiveSlot(v, k);
    Snoc(u.trace, Disconnect(v.slots[k].info.id));
  }

  lemma DrainingSlots(v: View, u: View, k: nat)
    requires Inv(v) && k < |v.slots| && Draining(v, u, k)
    ensures Inv(u) && u.torn == 0 && u.slots == v.slots && u.damaged == v.damaged
  {
  }

  lemma DrainingConn(v: View, u: View, k: nat)
    requires Inv(v) && k < |v.slots| && Draining(v, u, k)
    ensures Inv(u) && k < |u.slots| && ConnAt(u, k) == ConnAt(v, k)
  {
    hide Inv;
    hide Shaped;
    hide Later;
  }

  /** A drain that the loop flag has not ended has done all it had to do. */
  lemma ServedInFull(v: View, u: View, k: nat, ret: int, r: TcpRead, taken: seq<byte>, arrived: nat,
                     before: Errno, after: Errno)
    requires Inv(v) && k < |v.slots| && v.slots[k].fd != -1 && Draining(v, u, k)
    requires ReadKnown(u, k, r, taken, arrived, before, after)
    requires ReadFaultless(u, k, r, taken, arrived, before, after)
    requires ret == (match r { case Frame(n) => Int32(n) case Ended => 0 case Error => -1 }) && ret <= 0
    ensures ReadOf(r, taken) && Inv(AfterRead(u, k, r, taken))
    ensures var w, dropped := AfterRead(u, k, r, taken), ret == 0 || (ret < 0 && after != WouldBlock);
            ServedExactly(v, if dropped then Dropped(w, k) else Kept(w), k, arrived, before, dropped)
  {
    hide Inv;
    hide Shaped;
    hide Draining;
    hide FaultlessRead;
    hide ServedExactly;
    DrainingSlots(v, u, k);
    KnownPrefix(u, k, r, taken, arrived, before, after);
    EndOfDrain(v, u, k, r, taken, arrived, before, after);
    var w, dropped := AfterRead(u, k, r, taken), ret == 0 || (ret < 0 && after != WouldBlock);
    if v.slots[k].info.id !in v.damaged && Sized(v.conns[ConnAt(v, k)].peer.wire, LIMIT31) {
      ExactEnd(v, u, k, r, taken, arrived, before, after);
    } else {
      NoClaim(v, if dropped then Dropped(w, k) else Kept(w), k, arrived, before, dropped);
    }
  }

  lemma NoClaim(v: View, w: View, k: nat, arrived: nat, before: Errno, dropped: bool)
    requires Inv(v) && k < |v.slots|
    requires v.slots[k].info.id in v.damaged || !Sized(v.conns[ConnAt(v, k)].peer.wire, LIMIT31)
    ensures ServedExactly(v, w, k, arrived, before, dropped)
  {
    hide Inv;
    hide Shaped;
  }

  lemma DroppedNotCut(v: View, u: View, k: nat, r: TcpRead, taken: seq<byte>, arrived: nat, before: Errno)
    requires Inv(v) && k < |v.slots| && v.slots[k].fd != -1 && Draining(v, u, k)
    requires ReadOf(r, taken) && Inv(AfterRead(u, k, r, taken))
    ensures CutOnlyThen(v, Dropped(AfterRead(u, k, r, taken), k), k, arrived, before)
  {
    DrainingSlots(v, u, k);
    hide Inv;
    hide Shaped;
    hide Draining;
  }

  /** After its last read, which led to `w`, the client is dropped or kept, with all that is
      said of either. */
  ghost predicate Concluded(v: View, w: View, k: nat, arrived: nat, before: Errno, dropped: bool, inFull: bool) {
    && Inv(w) && k < |w.slots| && w.slots[k].fd != -1
    && var x := if dropped then Dropped(w, k) else Kept(w);
       && Served(v, x, k, dropped)
       && (v.orderly ==> CutOnlyThen(v, x, k, arrived, before))
       && (inFull ==> ServedExactly(v, x, k, arrived, before, dropped))
  }

  lemma ConcludedSo(v: View, u: View, k: nat, ret: int, r: TcpRead, taken: seq<byte>, arrived: nat, before: Errno,
                    after: Errno, inFull: bool)
    requires Inv(v) && k < |v.slots| && v.slots[k].fd != -1 && Draining(v, u, k)
    requires ReadKnown(u, k, r, taken, arrived, before, after)
    requires inFull ==> ret <= 0 && ReadFaultless(u, k, r, taken, arrived, before, after)
    requires ret == match r { case Frame(n) => Int32(n) case Ended => 0 case Error => -1 }
    ensures ReadOf(r, taken)
    ensures Concluded(v, AfterRead(u, k, r, taken), k, arrived, before,
                      ret == 0 || (ret < 0 && after != WouldBlock), inFull)
  {
    hide Inv;
    hide Shaped;
    hide Draining;
    hide Served;
    hide ReadKnown;
    hide ReadFaultless;
    hide CutOnlyThen;
    hide ServedExactly;
    DrainingSlots(v, u, k);
    DrainingConn(v, u, k);
    EndOfDrain(v, u, k, r, taken, arrived, before, after);
    if ret == 0 || (ret < 0 && after != WouldBlock) {
      DroppedNotCut(v, u, k, r, taken, arrived, before);
    } else if v.orderly {
      CutEnd(v, u, k, r, taken, arrived, before, after);
    }
    if inFull {
      ServedInFull(v, u, k, ret, r, taken, arrived, before, after);
    }
  }

  // ---------- the server's own sockets ----------

  /** Nothing has happened to the clients of `v`: others may have been added, callbacks
      for connects and datagrams made. */
  ghost predicate Calm(v: View, w: View) {
    && Later(v, w) && w.torn == v.torn && w.damaged == v.damaged
    && v.slots <= w.slots && v.conns <= w.conns
    && (AllLive(v.slots) ==> AllLive(w.slots))
    && (forall id: nat :: TcpOf(w.trace, id) == TcpOf(v.trace, id))
  }

  lemma CalmAfterCalm(u: View, v: View, w: View)
    requires Calm(u, v) && Calm(v, w)
    ensures Calm(u, w)
  {
    hide Later;
    LaterTransitive(u, v, w);
  }

  lemma CalmSelf(v: View)
    ensures Calm(v, v)
  {
    LaterSelf(v);
  }

  lemma AcceptedCalm(v: View, fd: int, record: Infos, conn: Conn)
    requires Enabled(v, Admit(fd, record, conn))
    ensures Calm(v, Accepted(v, fd, record, conn))
  {
    hide Inv;
    hide Shaped;
    hide Reaches;
    Snoc(v.trace, Connect(v.countId));
    LaterSelf(v);
    LaterStep(v, v, Admit(fd, record, conn));
  }

  lemma RejectedCalm(v: View, conn: Conn)
    requires Enabled(v, Refuse(conn))
    ensures Calm(v, Rejected(v, conn))
  {
    hide Inv;
    hide Shaped;
    hide Reaches;
    LaterSelf(v);
    LaterStep(v, v, Refuse(conn));
  }

  lemma TakenCalm(v: View)
    requires Enabled(v, Take)
    ensures Calm(v, Taken(v))
  {
    hide Inv;
    hide Shaped;
    hide Reaches;
    var d := v.queue[|v.owners|];
    var owner := Owner(v.slots, d.source);
    if WellFormed(d) && owner.Some? {
      Snoc(v.trace, UdpData(owner.value, Declared(d)));
    } else {
      assert v.trace + [] == v.trace;
    }
    LaterSelf(v);
    LaterStep(v, v, Take);
  }

  lemma CalmIsLater(v: View, w: View)
    requires Calm(v, w)
    ensures Later(v, w) && |v.conns| <= |w.conns| && w.queue == v.queue
    ensures AllLive(v.slots) ==> AllLive(w.slots)
  {
  }

  /** A datagram that `receive_udp` reports and after which the drain goes on. */
  predicate Accepts(slots: seq<Slot>, d: Datagram) {
    WellFormed(d) && Owner(slots, d.source).Some? && 0 < |Declared(d)| < LIMIT31
  }

  /** Where a faultless drain of the queue may stop: at the end of what has arrived, behind
      a datagram taken since `v` that was not reported or whose payload is empty or of 2^31
      bytes or more, or in front of one too short to be read, which stays for ever. */
  predicate StopsProperly(v: View, w: View, queued: nat) {
    var n := |w.owners|;
    || n >= queued || n >= |w.queue|
    || (|v.owners| < n && !(Reported(w, n - 1) && 0 < |Declared(w.queue[n - 1])| < LIMIT31))
    || |w.queue[n].data| < WORD_SIZE
  }

  lemma StopsFor(v: View, u: View, w: View, queued: nat, later: nat)
    requires StopsProperly(u, w, later) && queued <= later && u.owners == v.owners
    ensures StopsProperly(v, w, queued)
  {
  }

  /** At least one waiting connection has been accepted. */
  predicate TakesConnection(v: View, w: View, knocked: nat) {
    |v.conns| < knocked ==> |v.conns| < |w.conns|
  }

  /** The connection made last belongs to no client. */
  predicate LastRefused(w: View) {
    w.conns != [] && forall id | 1 <= id < |w.connOf| :: w.connOf[id] != |w.conns| - 1
  }

  /** All waiting connections have been accepted, or all up to one that was refused. */
  predicate TakesWaiting(v: View, w: View, knocked: nat) {
    |w.conns| >= knocked || (|v.conns| < |w.conns| && LastRefused(w))
  }

  // ---------- the pass ----------

  /** Since `v` nothing has happened to the client in slot `k`. */
  ghost predicate Untouched(v: View, u: View, k: nat)
    requires Inv(v) && k < |v.slots|
  {
    && k < |u.slots| && u.slots[k] == v.slots[k]
    && ConnAt(v, k) < |u.conns| && u.conns[ConnAt(v, k)] == v.conns[ConnAt(v, k)]
    && TcpOf(u.trace, v.slots[k].info.id) == TcpOf(v.trace, v.slots[k].info.id)
    && (v.slots[k].info.id in u.damaged ==> v.slots[k].info.id in v.damaged)
  }

  /** The poll pass that began in `v` has come to entry `i` of the table: entries from
      there on are live, and the clients of `v` among them untouched. */
  ghost predicate Passing(v: View, u: View, i: nat)
    requires Inv(v)
  {
    && Inv(u) && u.torn == 0 && Later(v, u) && |v.slots| <= |u.slots|
    && (forall k | 0 <= k < |u.slots| && i <= k + 2 :: u.slots[k].fd != -1)
    && (forall k | 0 <= k < |v.slots| :: u.slots[k].info == v.slots[k].info)
    && (forall k | 0 <= k < |v.slots| && i <= k + 2 :: Untouched(v, u, k))
  }

  /** The client in slot `k` of `v` has been told of every message that had arrived when
      `heard` was noted, unless its stream was cut before or carries other messages than
      those of 1 to 2^31-1 bytes. */
  ghost predicate Told(v: View, u: View, k: nat, heard: seq<nat>)
    requires Inv(v) && k < |v.slots|
  {
    var id, peer := v.slots[k].info.id, v.conns[ConnAt(v, k)].peer;
    id !in v.damaged && Sized(peer.wire, LIMIT31) && ConnAt(v, k) < |heard| && heard[ConnAt(v, k)] <= |peer.wire|
    ==> Frames(peer.wire[..heard[ConnAt(v, k)]]) <= TcpOf(u.trace, id)
  }

  ghost predicate ToldUpTo(v: View, u: View, i: nat, heard: seq<nat>)
    requires Inv(v)
  {
    forall k | 0 <= k < |v.slots| && k + 2 < i :: Told(v, u, k, heard)
  }

  /** What `poll` has reported before a pass: the readable descriptors, whether the server's
      two sockets are among them, and what had arrived then. */
  datatype Due = Due(ready: set<int>, listens: bool, receives: bool, news: News) {
    /** Entry `i` of the table is due to be served. */
    predicate At(v: View, i: nat) {
      if i == 0 then listens
      else if i == 1 then receives
      else i - 2 < |v.slots| && v.slots[i - 2].fd in ready
    }
  }

  /** Where the client in slot `k` is not due, all that had arrived has been read. */
  ghost predicate NotDueMeansRead(v: View, ready: set<int>, news: News)
    requires Inv(v)
  {
    forall k | 0 <= k < |v.slots| && v.slots[k].fd !in ready && ConnAt(v, k) < |news.arrived| ::
      news.arrived[ConnAt(v, k)] <= v.conns[ConnAt(v, k)].pos
  }

  /** A faultless pass that has come to entry `i` has done what was due before. */
  ghost predicate Pace(v: View, u: View, i: nat, due: Due)
    requires Inv(v)
  {
    && ToldUpTo(v, u, i, due.news.arrived)
    && (if i == 0 then |u.conns| == |v.conns| else due.listens ==> TakesWaiting(v, u, due.news.knocked))
    && (if i <= 1 then u.owners == v.owners else due.receives ==> StopsProperly(v, u, due.news.queued))
  }

  /** The last payload reported is too long for its size to be returned as a positive `int`. */
  predicate TooLong(reported: seq<Payload>) {
    reported != [] && |reported[|reported| - 1]| >= LIMIT31
  }

  /** What the calls from `a` to `b` have to do with the client in slot `k`: it has been
      dropped exactly if one of the reads of its connection demands it, unless a payload was
      reported whose size is not positive as an `int`. */
  ghost predicate GoneIffDismissed(a: seq<Call>, b: seq<Call>, w: View, k: nat)
    requires k < |w.slots|
  {
    var info := w.slots[k].info;
    TooLong(TcpOf(w.trace, info.id)) || (w.slots[k].fd == -1 <==> Dismissed(a, b, info.tcpSocket))
  }

  /** Entry `i` of the table has been visited between `a` and `b`: nothing has happened if it
      is not readable; otherwise a client's connection, and no other, has been read. */
  ghost predicate Attending(readable: bool, a: seq<Call>, b: seq<Call>, u: View, w: View, i: nat) {
    && a <= b && (!readable ==> w == u && b == a)
    && if i < 2 then On(a, b, -1)
       else && i - 2 < |u.slots| == |w.slots| && On(a, b, u.slots[i - 2].info.tcpSocket)
            && (readable ==> Touched(a, b, u.slots[i - 2].info.tcpSocket))
            && GoneIffDismissed(a, b, w, i - 2)
            && (forall j | 0 <= j < |u.slots| :: w.slots[j].info == u.slots[j].info)
            && (forall j | 0 <= j < |u.slots| && j != i - 2 ::
                  w.slots[j] == u.slots[j] && TcpOf(w.trace, u.slots[j].info.id) == TcpOf(u.trace, u.slots[j].info.id))
  }

  lemma NotAttending(a: seq<Call>, u: View, i: nat)
    requires i >= 2 ==> i - 2 < |u.slots| && u.slots[i - 2].fd != -1
    ensures Attending(false, a, a, u, u, i)
  {
  }

  lemma ClientAttended(a: seq<Call>, b: seq<Call>, u: View, w: View, k: nat, dropped: bool)
    requires Served(u, w, k, dropped) && On(a, b, u.slots[k].info.tcpSocket) && Touched(a, b, u.slots[k].info.tcpSocket)
    requires TooLong(TcpOf(w.trace, u.slots[k].info.id)) || (dropped <==> !Harmless(a, b))
    ensures Attending(true, a, b, u, w, k + 2)
  {
    hide Inv;
    hide Shaped;
    hide Later;
    OnHarmless(a, b, u.slots[k].info.tcpSocket);
    forall j | 0 <= j < |u.slots| && j != k
      ensures u.slots[j].info.id != u.slots[k].info.id
    {
      if j < k {
        OwnConnections(u, j, k);
      } else {
        OwnConnections(u, k, j);
      }
    }
  }

  /** What the pass has done by now to the client in slot `k` of `u`. */
  ghost predicate Account(a: seq<Call>, b: seq<Call>, ready: set<int>, n: nat, u: View, k: nat, i: nat)
    requires k < |u.slots|
  {
    var socket := u.slots[k].info.tcpSocket;
    if k + 2 < i then
      GoneIffDismissed(a, b, u, k) && (k < n ==> (socket in ready <==> Touched(a, b, socket)))
    else !Touched(a, b, socket)
  }

  /** A pass that has come to entry `i` has read from the clients before that, of those that
      were there when it began (`v`) exactly from the readable ones. */
  ghost predicate Attended(a: seq<Call>, b: seq<Call>, ready: set<int>, v: View, u: View, i: nat) {
    && a <= b
    && if i <= 2 then On(a, b, -1)
       else && SocketsApart(u.slots)
            && forall k | 0 <= k < |u.slots| :: Account(a, b, ready, |v.slots|, u, k, i)
  }

  /** The sockets are distinct. */
  predicate SocketsApart(slots: seq<Slot>) {
    && (forall k | 0 <= k < |slots| :: slots[k].info.tcpSocket != -1)
    && forall j, k | 0 <= j < k < |slots| :: slots[j].info.tcpSocket != slots[k].info.tcpSocket
  }

  lemma LiveSockets(v: View)
    requires Inv(v) && AllLive(v.slots)
    ensures SocketsApart(v.slots)
  {
    hide Inv;
    hide Shaped;
    forall j, k | 0 <= j < k < |v.slots|
      ensures v.slots[j].info.tcpSocket != v.slots[k].info.tcpSocket
    {
      LiveSlot(v, j);
      LiveSlot(v, k);
      OwnConnections(v, j, k);
    }
    forall k | 0 <= k < |v.slots|
      ensures v.slots[k].info.tcpSocket != -1
    {
      LiveSlot(v, k);
    }
  }

  lemma OwnConnections(v: View, j: nat, k: nat)
    requires Inv(v) && j < k < |v.slots|
    ensures ConnAt(v, j) != ConnAt(v, k) && v.slots[j].info.id != v.slots[k].info.id
  {
    hide StreamInv;
    hide UdpInv;
    hide CutInv;
    hide PhaseInv;
  }

  /** Before the first client is visited none has been read from. */
  lemma NobodyYet(a: seq<Call>, b: seq<Call>, ready: set<int>, v: View, u: View)
    requires Inv(v) && Passing(v, u, 2) && On(a, b, -1)
    ensures SocketsApart(u.slots) && forall k | 0 <= k < |u.slots| :: Account(a, b, ready, |v.slots|, u, k, 2)
  {
    hide Inv;
    hide Shaped;
    hide Later;
    hide Untouched;
    LiveSockets(u);
  }

  lemma AttendedOn(a: seq<Call>, b: seq<Call>, c: seq<Call>, ready: set<int>, v: View, u: View, w: View, i: nat,
                   readable: bool)
    requires Inv(v) && Passing(v, u, i) && i < 2 + |u.slots|
    requires Attended(a, b, ready, v, u, i) && Attending(readable, b, c, u, w, i)
    requires i >= 2 && i - 2 < |v.slots| ==> (readable <==> v.slots[i - 2].fd in ready)
    ensures Attended(a, c, ready, v, w, i + 1)
  {
    hide Inv;
    hide Shaped;
    hide Later;
    hide Passing;
    hide TooLong;
    if i < 2 {
      OnThen(a, b, c, -1);
    } else {
      if i == 2 {
        NobodyYet(a, b, ready, v, u);
      }
      SameEntry(v, u, i);
      hide On;
      hide Touched;
      hide Dismissed;
      var next := i + 1;
      forall k | 0 <= k < |w.slots|
        ensures Account(a, c, ready, |v.slots|, w, k, next)
      {
        assert Account(a, b, ready, |v.slots|, u, k, i);
        Elsewhere(a, b, c, u.slots[i - 2].info.tcpSocket, u.slots[k].info.tcpSocket);
        if k == i - 2 && !readable {
          NotTouched(b, u.slots[k].info.tcpSocket);
        }
      }
    }
  }

  lemma NotTouched(a: seq<Call>, fd: int)
    ensures !Touched(a, a, fd) && !Dismissed(a, a, fd)
  {
  }

  lemma SameEntry(v: View, u: View, i: nat)
    requires Inv(v) && Passing(v, u, i) && 2 <= i < 2 + |u.slots|
    ensures u.slots[i - 2].fd != -1 && u.slots[i - 2].info.tcpSocket == u.slots[i - 2].fd
    ensures i - 2 < |v.slots| ==> v.slots[i - 2] == u.slots[i - 2]
  {
    hide Inv;
    hide Shaped;
    hide Later;
    LiveSlot(u, i - 2);
    if i - 2 < |v.slots| {
      assert Untouched(v, u, i - 2);
    }
  }

  /** The loop flag is tested. */
  lemma AttendedFlag(a: seq<Call>, b: seq<Call>, c: seq<Call>, ready: set<int>, v: View, u: View, i: nat)
    requires Attended(a, b, ready, v, u, i) && On(b, c, -1)
    ensures Attended(a, c, ready, v, u, i)
  {
    if i <= 2 {
      OnThen(a, b, c, -1);
    } else {
      hide On;
      hide Touched;
      hide Dismissed;
      forall k | 0 <= k < |u.slots|
        ensures Account(a, c, ready, |v.slots|, u, k, i)
      {
        assert Account(a, b, ready, |v.slots|, u, k, i);
        Elsewhere(a, b, c, -1, u.slots[k].info.tcpSocket);
      }
      OnPrefix(a, b, c);
    }
  }

  lemma OnPrefix(a: seq<Call>, b: seq<Call>, c: seq<Call>)
    requires a <= b && On(b, c, -1)
    ensures a <= c
  {
  }

  /** What a pass has done to the clients, `u` being the state after it, before the compaction:
      one goes exactly if a read of its connection demands it, with the proviso of `TooLong`;
      if the loop flag stayed on, exactly the connections of the readable ones are read. */
  ghost predicate EachAttended(a: seq<Call>, b: seq<Call>, ready: set<int>, v: View, u: View, on: bool) {
    && |v.slots| <= |u.slots|
    && (forall k | 0 <= k < |u.slots| :: GoneIffDismissed(a, b, u, k))
    && (forall k | 0 <= k < |v.slots| && on :: v.slots[k].fd in ready <==> Touched(a, b, v.slots[k].fd))
  }

  lemma AttendedAll(a: seq<Call>, b: seq<Call>, ready: set<int>, v: View, u: View, i: nat, on: bool)
    requires Settled(v) && Passing(v, u, i) && Attended(a, b, ready, v, u, i)
    requires on ==> i >= 2 + |v.slots|
    ensures EachAttended(a, b, ready, v, u, on)
  {
    hide Inv;
    hide Shaped;
    hide Later;
    hide Untouched;
    if i <= 2 {
      LiveSockets(u);
    }
    forall k | 0 <= k < |u.slots|
      ensures GoneIffDismissed(a, b, u, k)
    {
      if i > 2 {
        assert Account(a, b, ready, |v.slots|, u, k, i);
      }
    }
    forall k | 0 <= k < |v.slots| && on
      ensures v.slots[k].fd in ready <==> Touched(a, b, v.slots[k].fd)
    {
      LiveSlot(v, k);
      assert u.slots[k].info == v.slots[k].info;
      assert i > 2 && Account(a, b, ready, |v.slots|, u, k, i);
    }
  }

  /** No client was readable. */
  lemma NobodyReadable(a: seq<Call>, ready: set<int>, v: View, on: bool)
    requires AllLive(v.slots) && (on ==> forall k | 0 <= k < |v.slots| :: v.slots[k].fd !in ready)
    ensures EachAttended(a, a, ready, v, v, on)
  {
  }

  lemma PassStart(v: View, due: Due)
    requires Settled(v)
    ensures Passing(v, v, 0) && Pace(v, v, 0, due)
  {
    LaterSelf(v);
  }

  lemma PaceKept(v: View, u: View, w: View, i: nat, due: Due)
    requires Inv(v) && Passing(v, u, i) && Pace(v, u, i, due) && ToldUpTo(v, w, i + 1, due.news.arrived)
    requires u.queue == w.queue
    requires if i == 0 then due.listens ==> TakesWaiting(u, w, due.news.knocked)
             else |w.conns| == |u.conns| && w.connOf == u.connOf
    requires if i == 1 then due.receives ==> StopsProperly(u, w, due.news.queued) else w.owners == u.owners
    ensures Pace(v, w, i + 1, due)
  {
    hide Inv;
    hide Shaped;
    hide ToldUpTo;
    hide Reaches;
  }

  /** The server's own sockets, entries 0 and 1. */
  lemma PassCalm(v: View, u: View, w: View, i: nat, heard: seq<nat>)
    requires Inv(v) && Passing(v, u, i) && i < 2 && Inv(w) && Calm(u, w)
    ensures Passing(v, w, i + 1) && ToldUpTo(v, w, i + 1, heard)
  {
    hide Inv;
    hide Shaped;
    hide Later;
    LaterTransitive(v, u, w);
    forall k | 0 <= k < |v.slots| && i + 1 <= k + 2
      ensures Untouched(v, w, k)
    {
      assert Untouched(v, u, k);
    }
  }

  /** The slots of `v` are in `u` where they were, each with its connection. */
  lemma SlotsKept(v: View, u: View, i: nat, j: nat)
    requires Inv(v) && Passing(v, u, i) && j < |v.slots|
    ensures u.slots[j].info == v.slots[j].info && ConnAt(u, j) == ConnAt(v, j)
    ensures u.conns[ConnAt(u, j)].peer == v.conns[ConnAt(v, j)].peer
    ensures forall k | 0 <= k < |u.slots| && k != j ::
              u.slots[k].info.id != v.slots[j].info.id && ConnAt(u, k) != ConnAt(v, j)
  {
    hide StreamInv;
    hide UdpInv;
    hide CutInv;
    hide PhaseInv;
    hide Reaches;
    assert u.slots[j].info == v.slots[j].info;
  }

  lemma PassServed(v: View, u: View, w: View, i: nat, dropped: bool)
    requires Inv(v) && Passing(v, u, i) && 2 <= i < 2 + |u.slots| && Served(u, w, i - 2, dropped)
    ensures Passing(v, w, i + 1)
  {
    hide Inv;
    hide Shaped;
    hide Later;
    var k := i - 2;
    LaterTransitive(v, u, w);
    forall j | 0 <= j < |v.slots| && i + 1 <= j + 2
      ensures Untouched(v, w, j)
    {
      assert Untouched(v, u, j);
      SlotsKept(v, u, i, j);
    }
  }

  lemma ToldOthers(v: View, u: View, w: View, i: nat, dropped: bool, heard: seq<nat>, j: nat)
    requires Inv(v) && Passing(v, u, i) && 2 <= i < 2 + |u.slots| && Served(u, w, i - 2, dropped)
    requires j < |v.slots| && j + 2 < i && Told(v, u, j, heard)
    ensures Told(v, w, j, heard)
  {
    hide Inv;
    hide Shaped;
    hide Later;
    hide Sized;
    hide Frames;
    SlotsKept(v, u, i, j);
  }

  /** What the served client has been told, and nothing is taken from the others. */
  lemma ToldServed(v: View, u: View, w: View, i: nat, dropped: bool, arrived: nat, before: Errno, heard: seq<nat>)
    requires Inv(v) && Passing(v, u, i) && 2 <= i < 2 + |u.slots| && Served(u, w, i - 2, dropped)
    requires ToldUpTo(v, u, i, heard) && ServedExactly(u, w, i - 2, arrived, before, dropped)
    requires Inv(u) && (ConnAt(u, i - 2) < |heard| ==> heard[ConnAt(u, i - 2)] <= arrived)
    ensures ToldUpTo(v, w, i + 1, heard)
  {
    hide Inv;
    hide Shaped;
    hide Later;
    hide Served;
    hide ServedExactly;
    hide Told;
    hide Untouched;
    forall j | 0 <= j < |v.slots| && j + 2 < i + 1
      ensures Told(v, w, j, heard)
    {
      if j + 2 < i {
        ToldOthers(v, u, w, i, dropped, heard, j);
      } else {
        SlotsKept(v, u, i, j);
        ToldNow(v, u, w, j, dropped, arrived, before, heard);
      }
    }
  }

  lemma ToldNow(v: View, u: View, w: View, k: nat, dropped: bool, arrived: nat, before: Errno, heard: seq<nat>)
    requires Inv(v) && Inv(u) && k < |v.slots| && Untouched(v, u, k) && ConnAt(u, k) == ConnAt(v, k)
    requires ServedExactly(u, w, k, arrived, before, dropped)
    requires ConnAt(u, k) < |heard| ==> heard[ConnAt(u, k)] <= arrived
    ensures Told(v, w, k, heard)
  {
    hide Inv;
    hide Shaped;
    var peer := v.conns[ConnAt(v, k)].peer;
    if && v.slots[k].info.id !in v.damaged && Sized(peer.wire, LIMIT31)
       && ConnAt(v, k) < |heard| && heard[ConnAt(v, k)] <= |peer.wire| {
      FramesMonotone(peer.wire[..heard[ConnAt(v, k)]], peer.wire[..arrived]);
    }
  }

  /** An entry that is not readable is passed over. */
  lemma PassSkip(v: View, u: View, i: nat)
    requires Inv(v) && Passing(v, u, i)
    ensures Passing(v, u, i + 1)
  {
    hide Inv;
    hide Shaped;
    hide Later;
  }

  lemma ToldSkipped(v: View, u: View, i: nat, due: Due)
    requires Inv(v) && v.torn == 0 && AllLive(v.slots) && Passing(v, u, i) && ToldUpTo(v, u, i, due.news.arrived)
    requires NotDueMeansRead(v, due.ready, due.news) && !due.At(v, i)
    ensures ToldUpTo(v, u, i + 1, due.news.arrived)
  {
    hide Inv;
    hide Shaped;
    hide Later;
    forall j | 0 <= j < |v.slots| && j + 2 < i + 1
      ensures Told(v, u, j, due.news.arrived)
    {
      if j + 2 == i && v.slots[j].info.id !in v.damaged && ConnAt(v, j) < |due.news.arrived| {
        assert Untouched(v, u, j);
        LiveReported(v, j);
        var conn := v.conns[ConnAt(v, j)];
        assert due.news.arrived[ConnAt(v, j)] <= conn.pos;
        FramesOfRead(TcpOf(v.trace, v.slots[j].info.id), conn, due.news.arrived[ConnAt(v, j)]);
      }
    }
  }

  lemma FramesOfRead(ps: seq<Payload>, conn: Conn, n: nat)
    requires conn.Valid() && EncodeAll(ps) == conn.Read() && n <= conn.pos
    ensures Frames(conn.peer.wire[..n]) <= ps
  {
    FramesOfEncodeAll(ps, []);
    assert EncodeAll(ps) + [] == conn.peer.wire[..conn.pos];
    FramesMonotone(conn.peer.wire[..n], conn.peer.wire[..conn.pos]);
  }

  /** What a pass over the whole table achieves: every client has been told of what had
      arrived, with the provisos of `Told`, the UDP queue has been drained as far as
      `StopsProperly` says, and the waiting connections have been accepted, or all up to one
      that was refused. */
  ghost predicate EveryoneServed(v: View, w: View, due: Due)
    requires Inv(v)
  {
    && (forall k | 0 <= k < |v.slots| :: Told(v, w, k, due.news.arrived))
    && (due.listens ==> TakesWaiting(v, w, due.news.knocked))
    && (due.receives ==> StopsProperly(v, w, due.news.queued))
  }

  /** Without an event nothing was due. */
  lemma NothingDue(v: View, due: Due)
    requires Settled(v) && NotDueMeansRead(v, due.ready, due.news) && !due.listens && !due.receives
    requires forall k | 0 <= k < |v.slots| :: v.slots[k].fd !in due.ready
    ensures EveryoneServed(v, v, due)
  {
    hide Inv;
    hide Shaped;
    forall k | 0 <= k < |v.slots|
      ensures Told(v, v, k, due.news.arrived)
    {
      if v.slots[k].info.id !in v.damaged && ConnAt(v, k) < |due.news.arrived| {
        LiveReported(v, k);
        FramesOfRead(TcpOf(v.trace, v.slots[k].info.id), v.conns[ConnAt(v, k)], due.news.arrived[ConnAt(v, k)]);
      }
    }
  }

  /** The pass is over: compaction settles the state and changes nothing else. */
  lemma PassEnd(v: View, u: View, i: nat, due: Due, served: bool)
    requires Settled(v) && Passing(v, u, i)
    requires served ==> i >= 2 + |v.slots| && Pace(v, u, i, due)
    ensures Settled(Compacted(u)) && Later(v, u) && Later(v, Compacted(u))
    ensures served ==> EveryoneServed(v, Compacted(u), due)
  {
    hide Inv;
    hide Shaped;
    hide Reaches;
    CompactedKeepsInv(u);
    LaterStep(v, u, ServerRuns.Compact);
    if served {
      forall k | 0 <= k < |v.slots|
        ensures Told(v, Compacted(u), k, due.news.arrived)
      {
        assert Told(v, u, k, due.news.arrived);
      }
    }
  }

  lemma ServedOwners(v: View, w: View, k: nat, dropped: bool)
    requires Served(v, w, k, dropped)
    ensures w.owners == v.owners && |w.conns| == |v.conns| && w.connOf == v.connOf && w.queue == v.queue && Later(v, w)
    ensures !dropped ==> w.slots == v.slots
  {
    hide Inv;
    hide Shaped;
    hide Reaches;
  }

  // ---------- the end ----------

  /** The first `n` clients of `v` have been disconnected. */
  ghost predicate Closing(v: View, u: View, n: nat) {
    && Inv(u) && Later(v, u) && u.torn == 0 && u.countId == v.countId && u.damaged == v.damaged
    && |u.slots| == |v.slots| && n <= |v.slots| && |u.conns| == |v.conns|
    && (forall k | 0 <= k < n :: u.slots[k].fd == -1)
    && (forall k | n <= k < |v.slots| :: u.slots[k] == v.slots[k])
    && (forall id: nat :: TcpOf(u.trace, id) == TcpOf(v.trace, id)) && UdpOf(u.trace) == UdpOf(v.trace)
    && u.connOf == v.connOf
    && (forall h | 0 <= h < |v.conns| :: u.conns[h].pos == v.conns[h].pos && u.conns[h].peer == v.conns[h].peer)
  }

  lemma ClosingStart(v: View)
    requires Settled(v)
    ensures Closing(v, v, 0)
  {
    LaterSelf(v);
  }

  lemma ClosingSlot(v: View, u: View, n: nat)
    requires Settled(v) && Closing(v, u, n) && n < |v.slots|
    ensures Inv(u) && n < |u.slots| && u.slots[n] == v.slots[n] && u.slots[n].fd != -1
  {
    hide Inv;
    hide Later;
  }

  lemma CloseNext(v: View, u: View, n: nat)
    requires Settled(v) && Closing(v, u, n) && n < |v.slots|
    ensures Closing(v, Dropped(u, n), n + 1)
  {
    hide Inv;
    hide Shaped;
    hide Reaches;
    assert u.slots[n].fd != -1;
    DroppedKeepsInv(u, n);
    Snoc(u.trace, Disconnect(u.slots[n].info.id));
    BrokenOffKeepsInv(u, n, 0);
    assert BrokenOff(u, n, 0) == u;
    LaterStep(v, u, ServerRuns.Drop(n, []));
  }

  /** When all are disconnected, every client ever announced is done, and no accepted
      connection is open. */
  lemma ClosedAll(v: View, u: View)
    requires Closing(v, u, |v.slots|)
    ensures u.fdConn == map[]
    ensures forall id: nat :: PhaseOf(u.trace, id) == if 1 <= id < v.countId then Done else Unborn
  {
    hide Reaches;
    assert LiveIds(u.slots) == {};
    assert LiveFds(u.slots) == {};
    assert u.fdConn.Keys == {};
  }
}
