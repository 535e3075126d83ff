/**
 The state of a connected client between two steps of its poll, as a value, and the
 steps on it, each with a lemma that it keeps `Inv`.
 */
module ClientModel {
  import opened Wire
  import opened Types
  import opened Sockets
  import opened Receive
  import opened Trace

  datatype View = View(
    /** the stream behaves as TCP does */
    orderly: bool,
    /** the connection to the server */
    conn: Conn,
    /** a failed read that was taken for "nothing to read" has left the stream inside a frame */
    cut: bool,
    /** the last read failed inside a frame, and that has not been dealt with */
    torn: bool,
    queue: seq<Datagram>,
    /** datagrams taken from the queue */
    taken: nat,
    trace: seq<Event>)

  /** What the first `n` datagrams of a queue deliver to a client, which does not look at
      their source. */
  function Messages(queue: seq<Datagram>, n: nat): seq<(nat, seq<byte>)>
    requires n <= |queue|
  {
    if n == 0 then []
    else Messages(queue, n - 1) + if WellFormed(queue[n - 1]) then [(0, Declared(queue[n - 1]))] else []
  }

  /** Every report is a frame that was read, in order, and without a cut there is nothing
      between them. */
  ghost predicate StreamInv(v: View) {
    && v.conn.Valid()
    && Within(TcpOf(v.trace, 0), v.conn.Read())
    && (v.orderly && v.cut ==> !v.conn.peer.whole)
    && var reported := EncodeAll(TcpOf(v.trace, 0));
       if v.cut then |reported| < |v.conn.Read()|
       else reported <= v.conn.Read() && (v.conn.fd != -1 && !v.torn ==> reported == v.conn.Read())
  }

  ghost predicate Inv(v: View) {
    && StreamInv(v)
    && v.taken <= |v.queue|
    && UdpOf(v.trace) == Messages(v.queue, v.taken)
  }

  // ---------- the steps ----------

  /** What one call of `receive_tcp` does when it ends in `r` having taken `taken`. */
  function AfterRead(v: View, r: TcpRead, taken: seq<byte>): View
    requires ReadOf(r, taken)
  {
    var conn := v.conn.(pos := v.conn.pos + |taken|);
    if r.Frame? then v.(conn := conn, trace := v.trace + [TcpData(0, taken[WORD_SIZE..])])
    else v.(conn := conn, torn := v.torn || taken != [])
  }

  /** The failure is taken for "nothing to read". */
  function Kept(v: View): View {
    v.(cut := v.cut || v.torn, torn := false)
  }

  /** `receive_udp` takes the next datagram. */
  function Taken(v: View): View
    requires v.taken < |v.queue|
  {
    var d := v.queue[v.taken];
    v.(taken := v.taken + 1,
       trace := v.trace + if WellFormed(d) then [UdpData(0, Declared(d))] else [])
  }

  /** `disconnect`; the socket is closed if it was still open. */
  function Dropped(v: View): View {
    v.(trace := v.trace + [Disconnect(0)], torn := false,
       conn := if v.conn.fd == -1 then v.conn else v.conn.(fd := -1, closes := v.conn.closes + 1))
  }

  lemma AfterReadKeepsInv(v: View, r: TcpRead, taken: seq<byte>)
    requires Inv(v) && v.conn.fd != -1 && !v.torn && ReadOf(r, taken) && taken <= v.conn.Unread()
    ensures Inv(AfterRead(v, r, taken))
  {
    assert v.conn.(pos := v.conn.pos + |taken|).Read() == v.conn.Read() + taken;
    if r.Frame? {
      FrameKeepsInv(v, r, taken);
    } else {
      WithinMore(TcpOf(v.trace, 0), v.conn.Read(), v.conn.Read() + taken);
    }
  }

  lemma FrameKeepsInv(v: View, r: TcpRead, taken: seq<byte>)
    requires Inv(v) && v.conn.fd != -1 && !v.torn && ReadOf(r, taken) && taken <= v.conn.Unread() && r.Frame?
    ensures Inv(AfterRead(v, r, taken))
  {
    hide Within;
    hide EncodeAll;
    hide Encode;
    var reported, p := TcpOf(v.trace, 0), taken[WORD_SIZE..];
    assert v.conn.(pos := v.conn.pos + |taken|).Read() == v.conn.Read() + taken;
    Snoc(v.trace, TcpData(0, p));
    EncodeAllSnoc(reported, p);
    WithinSnoc(reported, v.conn.Read(), p);
  }

  /** A read is kept that found nothing, or that an orderly environment lets be mistaken for
      one that did. */
  lemma KeptKeepsInv(v: View, r: TcpRead, taken: seq<byte>, arrived: nat, before: Errno, after: Errno)
    requires Inv(v) && v.conn.fd != -1 && !v.torn
    requires Known(v.conn, v.orderly, r, taken, arrived, before, after) && NothingToRead(r, after)
    ensures ReadOf(r, taken) && Inv(Kept(AfterRead(v, r, taken)))
    ensures v.orderly && !v.cut && taken != [] ==>
              && taken == v.conn.Here(arrived) == Rest(v.conn.peer.wire[..arrived])
              && Stalls(taken, Over(v.conn.peer, arrived), before)
  {
    assert v.conn.Here(arrived) <= v.conn.Unread();
    AfterReadKeepsInv(v, r, taken);
    if v.orderly && !v.cut && taken != [] {
      assert v.conn.peer.wire[..arrived] == v.conn.Read() + v.conn.Here(arrived);
      FramesSoFar(TcpOf(v.trace, 0), v.conn.Read(), v.conn.Here(arrived));
    }
  }

  lemma TakenKeepsInv(v: View)
    requires Inv(v) && v.taken < |v.queue|
    ensures Inv(Taken(v))
  {
    hide Within;
    var d := v.queue[v.taken];
    if WellFormed(d) {
      Snoc(v.trace, UdpData(0, Declared(d)));
    } else {
      assert v.trace + [] == v.trace;
    }
  }

  lemma DroppedKeepsInv(v: View)
    requires Inv(v)
    ensures Inv(Dropped(v))
  {
    hide Within;
    Snoc(v.trace, Disconnect(0));
  }

  // ---------- a run of the thread ----------

  /** From `v` to `w`, in one run of the thread, the history has grown by data only, and, if
      `dropped`, by one disconnect at the very end. */
  predicate Continues(v: View, w: View, dropped: bool) {
    && v.orderly == w.orderly && v.queue == w.queue && v.taken <= w.taken
    && v.conn.peer == w.conn.peer && v.conn.pos <= w.conn.pos && (v.cut ==> w.cut) && !w.torn
    && v.trace <= w.trace
    && (dropped ==> |v.trace| < |w.trace| && w.trace[|w.trace| - 1] == Disconnect(0))
    && (forall k | |v.trace| <= k < if dropped then |w.trace| - 1 else |w.trace| :: Received(w.trace[k]))
  }

  lemma ContinuesOn(u: View, v: View, w: View, dropped: bool)
    requires Continues(u, v, false) && Continues(v, w, dropped)
    ensures Continues(u, w, dropped)
  {
  }

  lemma FrameContinues(v: View, r: TcpRead, taken: seq<byte>)
    requires !v.torn && ReadOf(r, taken) && r.Frame?
    ensures Continues(v, AfterRead(v, r, taken), false)
  {
  }

  lemma KeptContinues(v: View, r: TcpRead, taken: seq<byte>)
    requires !v.torn && ReadOf(r, taken)
    ensures Continues(v, Kept(AfterRead(v, r, taken)), false)
  {
  }

  lemma TakenContinues(v: View)
    requires !v.torn && v.taken < |v.queue|
    ensures Continues(v, Taken(v), false)
  {
  }

  lemma DroppedContinues(v: View, r: TcpRead, taken: seq<byte>)
    requires !v.torn && ReadOf(r, taken)
    ensures Continues(v, Dropped(AfterRead(v, r, taken)), true)
  {
  }

  lemma DisconnectContinues(v: View)
    requires !v.torn
    ensures Continues(v, Dropped(v), true)
  {
  }

  /** In an orderly environment the stream is cut only inside a frame of which no more than
      the header has arrived. */
  predicate CutOnlyThen(v: View, w: View, arrived: nat, before: Errno) {
    !v.cut && w.cut ==>
      arrived <= |v.conn.peer.wire|
      && Stalls(Rest(v.conn.peer.wire[..arrived]), Over(v.conn.peer, arrived), before)
  }

  /** What exactly becomes, in a faultless environment, of a stream that has not been cut and
      carries no empty messages: every message that has arrived is reported; the client
      stays exactly if nothing is left and the stream has not ended, or what is left is
      mistaken for that; and in the latter case, and only then, the stream is cut. */
  predicate DrainedExactly(v: View, w: View, arrived: nat, before: Errno, gone: bool) {
    !v.cut && Sized(v.conn.peer.wire, LIMIT32) ==>
      && v.conn.pos <= arrived <= |v.conn.peer.wire|
      && TcpOf(w.trace, 0) == Frames(v.conn.peer.wire[..arrived])
      && (gone <==> !Stays(Rest(v.conn.peer.wire[..arrived]), Over(v.conn.peer, arrived), before))
      && (!gone ==> (w.cut <==> Rest(v.conn.peer.wire[..arrived]) != []))
  }

  lemma DrainEndsExactly(v: View, u: View, r: TcpRead, taken: seq<byte>, arrived: nat, before: Errno, after: Errno)
    requires Inv(u) && u.conn.fd != -1 && !u.torn && Continues(v, u, false) && u.cut == v.cut
    requires Known(u.conn, u.orderly, r, taken, arrived, before, after) && !r.Frame?
    requires KnownFaultless(u.conn, r, taken, arrived, before, after)
    ensures var w, gone := AfterRead(u, r, taken), !NothingToRead(r, after);
            DrainedExactly(v, if gone then Dropped(w) else Kept(w), arrived, before, gone)
  {
    hide Stays;
    hide FaultlessRead;
    hide OrderlyRead;
    hide Within;
    if !v.cut && Sized(v.conn.peer.wire, LIMIT32) {
      DrainEnds(TcpOf(u.trace, 0), u.conn, arrived, LIMIT32, r, taken, before, after);
      Snoc(u.trace, Disconnect(0));
    }
  }

  /** However the last read of a drain has ended, keeping or dropping the connection leads to
      a proper state. */
  lemma EndOfDrain(v: View, u: View, r: TcpRead, taken: seq<byte>, arrived: nat, before: Errno, after: Errno)
    requires Inv(u) && u.conn.fd != -1 && !u.torn && Continues(v, u, false) && u.cut == v.cut && u.taken == v.taken
    requires Known(u.conn, u.orderly, r, taken, arrived, before, after)
    ensures ReadOf(r, taken)
    ensures r.Frame? || NothingToRead(r, after) ==>
              var w := Kept(AfterRead(u, r, taken));
              && Inv(w) && Continues(v, w, false) && w.taken == v.taken
              && (v.orderly ==> CutOnlyThen(v, w, arrived, before))
    ensures var w := Dropped(AfterRead(u, r, taken));
            Inv(w) && Continues(v, w, true) && w.taken == v.taken && w.cut == v.cut
  {
    hide Inv;
    hide Stalls;
    hide OrderlyRead;
    assert u.conn.Here(arrived) <= u.conn.Unread();
    AfterReadKeepsInv(u, r, taken);
    DroppedKeepsInv(AfterRead(u, r, taken));
    KeptContinues(u, r, taken);
    DroppedContinues(u, r, taken);
    ContinuesOn(v, u, Kept(AfterRead(u, r, taken)), false);
    ContinuesOn(v, u, Dropped(AfterRead(u, r, taken)), true);
    if NothingToRead(r, after) {
      KeptKeepsInv(u, r, taken, arrived, before, after);
    }
  }

  /** Everything that had arrived when `heard` bytes had has been reported. */
  predicate Told(v: View, w: View, heard: nat) {
    !v.cut && Sized(v.conn.peer.wire, LIMIT32) && heard <= |v.conn.peer.wire|
    ==> Frames(v.conn.peer.wire[..heard]) <= TcpOf(w.trace, 0)
  }

  lemma ExactlyTold(v: View, w: View, arrived: nat, before: Errno, gone: bool, heard: nat)
    requires DrainedExactly(v, w, arrived, before, gone) && heard <= arrived
    ensures Told(v, w, heard)
  {
    if !v.cut && Sized(v.conn.peer.wire, LIMIT32) && heard <= |v.conn.peer.wire| {
      FramesMonotone(v.conn.peer.wire[..heard], v.conn.peer.wire[..arrived]);
    }
  }

  lemma ReadBefore(v: View, heard: nat)
    requires Inv(v) && v.conn.fd != -1 && !v.torn && heard <= v.conn.pos
    ensures Told(v, v, heard)
  {
    if !v.cut {
      var ps, wire := TcpOf(v.trace, 0), v.conn.peer.wire;
      FramesOfEncodeAll(ps, []);
      assert EncodeAll(ps) + [] == wire[..v.conn.pos];
      FramesMonotone(wire[..heard], wire[..v.conn.pos]);
    }
  }

  /** Where a faultless drain of the queue may stop: at the end of what has arrived, behind a
      datagram that is not well formed, or in front of one too short to be read. */
  predicate QueueStops(v: View, w: View, queued: int) {
    || w.taken >= queued || w.taken >= |w.queue|
    || (v.taken < w.taken && !WellFormed(w.queue[w.taken - 1]))
    || |w.queue[w.taken].data| < WORD_SIZE
  }

  /** How exactly a faultless drain of the queue ends, if `errno` was `before`: when the queue
      is used up the connection stays; behind a datagram that is not well formed, or in front
      of one with a part of a header, it goes unless `errno` happens to be EWOULDBLOCK; in
      front of an empty one it goes. */
  predicate QueueDrained(v: View, w: View, queued: int, before: Errno, gone: bool) {
    && QueueStops(v, w, queued)
    && (gone <==>
          if v.taken < w.taken && w.taken <= |w.queue| && !WellFormed(w.queue[w.taken - 1]) then before != WouldBlock
          else w.taken < queued && w.taken < |w.queue| && (w.queue[w.taken].data == [] || before != WouldBlock))
  }

  // ---------- what follows ----------

  /** If no header from the server ever arrives without a byte of its payload, what a client
      reports is, in order, the first of what the server sent. */
  lemma FifoFromServer(v: View, sent: seq<Payload>)
    requires Inv(v) && v.orderly && v.conn.peer.whole && v.conn.peer.wire <= EncodeAll(sent)
    ensures TcpOf(v.trace, 0) <= sent
  {
    assert EncodeAll(TcpOf(v.trace, 0)) <= v.conn.Read() <= v.conn.peer.wire;
    EncodingIsPrefixFree(TcpOf(v.trace, 0), sent);
  }

  /** In every environment what it reports was read, in order, each byte at most once. */
  lemma ReportsAreRead(v: View)
    requires Inv(v)
    ensures v.conn.Valid() && Within(TcpOf(v.trace, 0), v.conn.Read())
  {
  }

  /** The callbacks of a client that has been connected: one connect, data, and at most
      one disconnect, which ends them for the run. */
  lemma RunProtocol(v: View, w: View, dropped: bool)
    requires Begun(v.trace) && Continues(v, w, dropped)
    ensures if dropped then Completed(w.trace) else Begun(w.trace)
  {
    var n := if dropped then |w.trace| - 1 else |w.trace|;
    forall k | 1 <= k < n
      ensures Received(w.trace[k])
    {
      if k < |v.trace| {
        assert w.trace[k] == v.trace[k];
      }
    }
  }
}
