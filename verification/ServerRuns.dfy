/**
 A server as a transition system: the steps it can make, and the states it can reach by
 them.  Every step keeps `Inv`.
 */
module ServerRuns {
  import opened Wire
  import opened Types
  import opened Sockets
  import opened Receive
  import opened Trace
  import opened ServerModel
  import opened ServerSteps

  datatype Step =
    /** a client enters the table */
    | Admit(fd: int, record: Infos, conn: Conn)
    /** a connection is accepted and closed again */
    | Refuse(conn: Conn)
    /** a frame of the client in slot `k` is read and reported */
    | Report(k: nat, p: Payload)
    /** a read of that client takes `taken` and fails, and the client stays; `arrived` bytes
        of its stream had arrived, and `errno` was `before` */
    | Stall(k: nat, taken: seq<byte>, arrived: nat, before: Errno)
    /** a read of that client takes `taken` and fails or meets the end, and the client goes */
    | Drop(k: nat, taken: seq<byte>)
    /** a datagram is taken, and reported if it is well formed and has an owner */
    | Take
    /** the table is compacted */
    | Compact
    /** a frame is written to connection `h` */
    | Write(h: nat, p: Payload)

  ghost predicate Seated(v: View, k: nat) {
    k < |v.slots| && v.slots[k].fd != -1
  }

  /** What an orderly environment allows of a read that is mistaken for "nothing to read". */
  predicate StallsOrderly(c: Conn, taken: seq<byte>, arrived: nat, before: Errno) {
    && c.pos <= arrived <= |c.peer.wire|
    && (c.peer.whole ==> StopsWell(c.peer.wire[..arrived]))
    && (taken != [] ==> taken == c.Here(arrived) && Stalls(taken, Over(c.peer, arrived), before))
  }

  ghost predicate Enabled(v: View, s: Step) {
    && Shaped(v) && v.torn == 0
    && match s
       case Admit(fd, _, conn) => CanAccept(v, fd, conn) && fd >= 0 && conn == Conn(conn.peer, 0, [], fd, 0)
       case Refuse(conn) =>
         conn.Valid() && conn.pos == 0 && conn.fd == -1 && conn.closes == 1 && conn.out in {[], [0]}
       case Report(k, p) => Seated(v, k) && p != [] && Encode(p) <= v.conns[ConnAt(v, k)].Unread()
       case Stall(k, taken, arrived, before) =>
         && Seated(v, k) && taken <= v.conns[ConnAt(v, k)].Unread() && Incomplete(taken)
         && (v.orderly ==> StallsOrderly(v.conns[ConnAt(v, k)], taken, arrived, before))
       case Drop(k, taken) =>
         Seated(v, k) && taken <= v.conns[ConnAt(v, k)].Unread() && (Incomplete(taken) || taken == Header(0))
       case Take => AllLive(v.slots) && |v.owners| < |v.queue| && |v.queue[|v.owners|].data| >= WORD_SIZE
       case Compact => true
       case Write(h, _) => h < |v.conns|
  }

  lemma BrokenOffShaped(v: View, k: nat, n: nat)
    requires Shaped(v) && k < |v.slots| && n <= |v.conns[ConnAt(v, k)].Unread()|
    ensures Shaped(BrokenOff(v, k, n))
  {
  }

  ghost function Do(v: View, s: Step): View
    requires Enabled(v, s)
  {
    match s
    case Admit(fd, record, conn) => Accepted(v, fd, record, conn)
    case Refuse(conn) => Rejected(v, conn)
    case Report(k, p) => Delivered(v, k, p)
    case Stall(k, taken, _, _) => Kept(BrokenOff(v, k, |taken|))
    case Drop(k, taken) => BrokenOffShaped(v, k, |taken|); Dropped(BrokenOff(v, k, |taken|), k)
    case Take => Taken(v)
    case Compact => Compacted(v)
    case Write(h, p) => Written(v, h, Encode(p))
  }

  lemma LiveReported(v: View, k: nat)
    requires Inv(v) && k < |v.slots| && v.slots[k].fd != -1 && v.torn == 0 && v.slots[k].info.id !in v.damaged
    ensures EncodeAll(TcpOf(v.trace, v.slots[k].info.id)) == v.conns[ConnAt(v, k)].Read()
  {
    var id := v.slots[k].info.id;
    assert StreamOk(v, id) && id in LiveIds(v.slots);
  }

  lemma TornIsShort(u: View, k: nat, n: nat)
    requires Inv(u) && k < |u.slots| && u.slots[k].fd != -1 && u.torn == 0
    requires n <= |u.conns[ConnAt(u, k)].Unread()|
    ensures var w := BrokenOff(u, k, n);
            Inv(w) && (w.torn != 0 ==> && w.torn == u.slots[k].info.id && w.connOf[w.torn] == ConnAt(u, k)
                                       && |EncodeAll(TcpOf(w.trace, w.torn))| < w.conns[w.connOf[w.torn]].pos)
  {
    BrokenOffKeepsInv(u, k, n);
    var id := u.slots[k].info.id;
    assert id in LiveIds(u.slots);
    assert StreamOk(u, id);
  }

  /** A stream that stops well is never mistaken for one that has nothing to read. */
  lemma WellStoppedNeverStalls(ps: seq<Payload>, c: Conn, taken: seq<byte>, arrived: nat, before: Errno)
    requires c.Valid() && EncodeAll(ps) == c.Read() && StallsOrderly(c, taken, arrived, before) && taken != []
    ensures !c.peer.whole
  {
    assert c.peer.wire[..arrived] == c.Read() + c.Here(arrived);
    FramesSoFar(ps, c.Read(), c.Here(arrived));
  }

  lemma StallNotWhole(v: View, k: nat, taken: seq<byte>, arrived: nat, before: Errno)
    requires Inv(v) && Enabled(v, Stall(k, taken, arrived, before)) && taken != [] && v.orderly
    ensures !v.conns[ConnAt(v, k)].peer.whole
  {
    if v.slots[k].info.id !in v.damaged {
      LiveReported(v, k);
      WellStoppedNeverStalls(TcpOf(v.trace, v.slots[k].info.id), v.conns[ConnAt(v, k)], taken, arrived, before);
    }
  }

  lemma StallStep(v: View, k: nat, taken: seq<byte>, arrived: nat, before: Errno)
    requires Inv(v) && Enabled(v, Stall(k, taken, arrived, before))
    ensures Inv(Kept(BrokenOff(v, k, |taken|)))
  {
    hide Inv;
    hide Shaped;
    hide StallsOrderly;
    TornIsShort(v, k, |taken|);
    if v.orderly && taken != [] {
      StallNotWhole(v, k, taken, arrived, before);
    }
    KeptKeepsInv(BrokenOff(v, k, |taken|));
  }

  lemma EveryStep(v: View, s: Step)
    requires Inv(v) && Enabled(v, s)
    ensures Inv(Do(v, s)) && Do(v, s).torn == 0
  {
    hide Inv;
    hide Shaped;
    hide StallsOrderly;
    match s
    case Admit(fd, record, conn) => AcceptedKeepsInv(v, fd, record, conn);
    case Refuse(conn) => RejectedKeepsInv(v, conn);
    case Report(k, p) => DeliveredKeepsInv(v, k, p);
    case Stall(k, taken, arrived, before) => StallStep(v, k, taken, arrived, before);
    case Drop(k, taken) =>
      BrokenOffKeepsInv(v, k, |taken|);
      DroppedKeepsInv(BrokenOff(v, k, |taken|), k);
    case Take => TakenKeepsInv(v);
    case Compact => CompactedKeepsInv(v);
    case Write(h, p) => WrittenKeepsInv(v, h, p);
  }

  ghost predicate Possible(v: View, run: seq<Step>)
    decreases |run|
  {
    run == [] || (Enabled(v, run[0]) && Possible(Do(v, run[0]), run[1..]))
  }

  ghost function After(v: View, run: seq<Step>): View
    requires Possible(v, run)
    decreases |run|
  {
    if run == [] then v else After(Do(v, run[0]), run[1..])
  }

  lemma {:induction false} EveryRun(v: View, run: seq<Step>)
    requires Inv(v) && v.torn == 0 && Possible(v, run)
    ensures Inv(After(v, run)) && After(v, run).torn == 0
    decreases |run|
  {
    hide Inv;
    hide Shaped;
    hide Do;
    hide Enabled;
    if run != [] {
      EveryStep(v, run[0]);
      EveryRun(Do(v, run[0]), run[1..]);
    }
  }

  /** `w` can be reached from `v`. */
  ghost predicate Reaches(v: View, w: View) {
    exists run :: Possible(v, run) && After(v, run) == w
  }

  lemma ReachSelf(v: View)
    ensures Reaches(v, v)
  {
    assert Possible(v, []) && After(v, []) == v;
  }

  lemma {:induction false} RunAppend(v: View, run: seq<Step>, more: seq<Step>)
    requires Possible(v, run) && Possible(After(v, run), more)
    ensures Possible(v, run + more) && After(v, run + more) == After(After(v, run), more)
    decreases |run|
  {
    hide Do;
    hide Enabled;
    if run == [] {
      assert run + more == more;
    } else {
      RunAppend(Do(v, run[0]), run[1..], more);
      assert (run + more)[1..] == run[1..] + more;
    }
  }

  lemma ReachTransitive(u: View, v: View, w: View)
    requires Reaches(u, v) && Reaches(v, w)
    ensures Reaches(u, w)
  {
    hide Possible;
    hide After;
    var run :| Possible(u, run) && After(u, run) == v;
    var more :| Possible(v, more) && After(v, more) == w;
    RunAppend(u, run, more);
  }

  lemma ReachStep(v: View, s: Step)
    requires Enabled(v, s)
    ensures Reaches(v, Do(v, s))
  {
    hide Do;
    hide Enabled;
    var w := Do(v, s);
    assert Possible(w, []) && After(w, []) == w;
    assert [s][1..] == [];
    assert Possible(v, [s]) && After(v, [s]) == w;
  }
}
