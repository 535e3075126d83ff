/**
 Concurrent calls of `udtcp_send_tcp` and `udtcp_send_udp`, interleaved at every step:
 taking the mutex, the allocation, each byte copied into the send buffer, the send,
 the release.  Several connections may share a send slot in any way.
 */
module Senders {
  import opened Wire
  import opened Types
  import opened Send

  /** Where a call stands: before the lock; holding it, before the buffer is known to be
      large enough; with `copied` bytes of the frame copied; after the send or a failure,
      still holding the lock; returned. */
  datatype Stage = Waiting | Locked | Copying(copied: nat) | Leaving(result: int) | Returned(result: int)

  datatype Call = Call(conn: nat, tcp: bool, data: seq<byte>, stage: Stage) {
    predicate Holds() {
      stage.Locked? || stage.Copying? || stage.Leaving?
    }

    /** The frame has been sent. */
    predicate Sent() {
      (stage.Leaving? || stage.Returned?) && stage.result > 0
    }
  }

  /** The mutex's owner, `buffer_size`, and the address of the buffer. */
  datatype Slot = Slot(owner: Option<nat>, size: nat, buffer: Option<nat>)

  datatype World = World(
    slots: seq<Slot>,
    /** the allocated buffers by address */
    heap: map<nat, seq<byte>>,
    /** for each connection, its send slot */
    slotOf: seq<nat>,
    calls: seq<Call>,
    /** the calls in the order in which they took their locks */
    order: seq<nat>,
    /** for each connection, the bytes written to it */
    out: seq<seq<byte>>,
    /** for each connection, the datagrams sent to it */
    datagrams: seq<seq<seq<byte>>>)

  datatype Action =
    | Connect(slot: nat)
    | Enter(conn: nat, tcp: bool, data: seq<byte>)
    | Lock(i: nat)
    | LockFails(i: nat)
    | LargeEnough(i: nat)
    | Allocate(i: nat, address: nat, garbage: seq<byte>)
    | AllocationFails(i: nat)
    | CopyByte(i: nat)
    | Transmit(i: nat, ok: bool)
    | Release(i: nat)

  function Start(slots: nat): World {
    World(seq(slots, _ => Slot(None, 0, None)), map[], [], [], [], [], [])
  }

  predicate Bounds(w: World) {
    && |w.out| == |w.datagrams| == |w.slotOf|
    && (forall c | 0 <= c < |w.slotOf| :: w.slotOf[c] < |w.slots|)
    && (forall i | 0 <= i < |w.calls| :: w.calls[i].conn < |w.slotOf| && |w.calls[i].data| < LIMIT32)
  }

  function SlotIndex(w: World, i: nat): (s: nat)
    requires Bounds(w) && i < |w.calls|
    ensures s < |w.slots|
  {
    w.slotOf[w.calls[i].conn]
  }

  function SlotFor(w: World, i: nat): Slot
    requires Bounds(w) && i < |w.calls|
  {
    w.slots[SlotIndex(w, i)]
  }

  /** The bytes of the buffer that a call copies into. */
  predicate HasBuffer(w: World, i: nat)
    requires Bounds(w) && i < |w.calls|
  {
    SlotFor(w, i).buffer.Some? && SlotFor(w, i).buffer.value in w.heap
  }

  function BufferOf(w: World, i: nat): seq<byte>
    requires Bounds(w) && i < |w.calls| && HasBuffer(w, i)
  {
    w.heap[SlotFor(w, i).buffer.value]
  }

  /** The sizes `buffer_copy` is written for: see `Send.RoomIffSendable`. */
  predicate MaySend(w: World, i: nat)
    requires Bounds(w) && i < |w.calls|
  {
    Sendable(|w.calls[i].data|, SlotFor(w, i).buffer.Some?)
  }

  predicate Enabled(w: World, a: Action)
    requires Bounds(w)
  {
    match a
    case Connect(s) => s < |w.slots|
    case Enter(c, _, data) => c < |w.slotOf| && |data| < LIMIT32
    case Lock(i) => i < |w.calls| && w.calls[i].stage.Waiting? && SlotFor(w, i).owner == None
    case LockFails(i) => i < |w.calls| && w.calls[i].stage.Waiting?
    case LargeEnough(i) =>
      i < |w.calls| && w.calls[i].stage.Locked? && MaySend(w, i) && |w.calls[i].data| <= SlotFor(w, i).size
    case Allocate(i, address, garbage) =>
      && i < |w.calls| && w.calls[i].stage.Locked? && MaySend(w, i) && |w.calls[i].data| > SlotFor(w, i).size
      && address !in w.heap && |garbage| == WORD_SIZE + |w.calls[i].data|
    case AllocationFails(i) => i < |w.calls| && w.calls[i].stage.Locked? && |w.calls[i].data| > SlotFor(w, i).size
    case CopyByte(i) =>
      && i < |w.calls| && w.calls[i].stage.Copying? && w.calls[i].stage.copied < WORD_SIZE + |w.calls[i].data|
      && HasBuffer(w, i) && w.calls[i].stage.copied < |BufferOf(w, i)|
    case Transmit(i, _) =>
      && i < |w.calls| && w.calls[i].stage.Copying? && w.calls[i].stage.copied == WORD_SIZE + |w.calls[i].data|
      && HasBuffer(w, i) && WORD_SIZE + |w.calls[i].data| <= |BufferOf(w, i)|
    case Release(i) => i < |w.calls| && w.calls[i].stage.Leaving?
  }

  function At(w: World, i: nat, stage: Stage): seq<Call>
    requires i < |w.calls|
  {
    w.calls[i := w.calls[i].(stage := stage)]
  }

  function Do(w: World, a: Action): World
    requires Bounds(w) && Enabled(w, a)
  {
    match a
    case Connect(s) => w.(slotOf := w.slotOf + [s], out := w.out + [[]], datagrams := w.datagrams + [[]])
    case Enter(c, tcp, data) => w.(calls := w.calls + [Call(c, tcp, data, Waiting)])
    case Lock(i) =>
      w.(calls := At(w, i, Locked), order := w.order + [i],
         slots := w.slots[SlotIndex(w, i) := SlotFor(w, i).(owner := Some(i))])
    case LockFails(i) => w.(calls := At(w, i, Returned(0)))
    case LargeEnough(i) => w.(calls := At(w, i, Copying(0)))
    case Allocate(i, address, garbage) =>
      var previous := SlotFor(w, i).buffer;
      w.(calls := At(w, i, Copying(0)),
         heap := (if previous.Some? then w.heap - {previous.value} else w.heap)[address := garbage],
         slots := w.slots[SlotIndex(w, i) := SlotFor(w, i).(size := |w.calls[i].data|, buffer := Some(address))])
    case AllocationFails(i) => w.(calls := At(w, i, Leaving(0)))
    case CopyByte(i) =>
      var n := w.calls[i].stage.copied;
      w.(calls := At(w, i, Copying(n + 1)),
         heap := w.heap[SlotFor(w, i).buffer.value := BufferOf(w, i)[n := Encode(w.calls[i].data)[n]]])
    case Transmit(i, ok) =>
      var c, n := w.calls[i].conn, WORD_SIZE + |w.calls[i].data|;
      if !ok then w.(calls := At(w, i, Leaving(-1)))
      else if w.calls[i].tcp then w.(calls := At(w, i, Leaving(n)), out := w.out[c := w.out[c] + BufferOf(w, i)[..n]])
      else w.(calls := At(w, i, Leaving(n)), datagrams := w.datagrams[c := w.datagrams[c] + [BufferOf(w, i)[..n]]])
    case Release(i) =>
      w.(calls := At(w, i, Returned(w.calls[i].stage.result)),
         slots := w.slots[SlotIndex(w, i) := SlotFor(w, i).(owner := None)])
  }

  /** The mutexes: a slot's owner is the one call that holds its lock. */
  predicate LockInv(w: World)
    requires Bounds(w)
  {
    && (forall i | 0 <= i < |w.calls| :: w.calls[i].Holds() <==> SlotFor(w, i).owner == Some(i))
    && (forall s | 0 <= s < |w.slots| && w.slots[s].owner.Some? ::
          w.slots[s].owner.value < |w.calls| && SlotIndex(w, w.slots[s].owner.value) == s)
  }

  /** The account of the buffers: each slot's buffer is allocated, has its size and is no
      other slot's, and nothing else is allocated. */
  predicate HeapInv(w: World) {
    && (forall s | 0 <= s < |w.slots| :: w.slots[s].buffer == None <==> w.slots[s].size == 0)
    && (forall s | 0 <= s < |w.slots| && w.slots[s].buffer.Some? ::
          w.slots[s].buffer.value in w.heap && |w.heap[w.slots[s].buffer.value]| == WORD_SIZE + w.slots[s].size)
    && (forall s, t | 0 <= s < t < |w.slots| && w.slots[s].buffer.Some? :: w.slots[s].buffer != w.slots[t].buffer)
    && NothingElse(w)
  }

  predicate NothingElse(w: World) {
    forall address | address in w.heap :: exists s :: 0 <= s < |w.slots| && w.slots[s].buffer == Some(address)
  }

  /** A call that copies has so far copied the first bytes of its own frame. */
  predicate CopyInv(w: World)
    requires Bounds(w)
  {
    forall i | 0 <= i < |w.calls| && w.calls[i].stage.Copying? ::
      && HasBuffer(w, i)
      && w.calls[i].stage.copied <= WORD_SIZE + |w.calls[i].data| <= |BufferOf(w, i)|
      && BufferOf(w, i)[..w.calls[i].stage.copied] == Encode(w.calls[i].data)[..w.calls[i].stage.copied]
  }

  /** Only calls that have had their lock are in the order, each once. */
  predicate Listed(w: World) {
    && (forall i | 0 <= i < |w.calls| :: |w.calls[i].data| < LIMIT32)
    && (forall p | 0 <= p < |w.order| :: w.order[p] < |w.calls| && !w.calls[w.order[p]].stage.Waiting?)
    && (forall p, q | 0 <= p < q < |w.order| :: w.order[p] != w.order[q])
  }

  /** Nobody has sent on a connection after the call that holds the lock for it. */
  predicate OrderInv(w: World)
    requires Bounds(w)
  {
    forall i | 0 <= i < |w.calls| && w.calls[i].Holds() :: LastOn(w, i)
  }

  predicate LastOn(w: World, i: nat)
    requires Bounds(w) && i < |w.calls|
  {
    exists p :: 0 <= p < |w.order| && w.order[p] == i
                && forall q | p < q < |w.order| :: w.order[q] < |w.calls| && w.calls[w.order[q]].conn != w.calls[i].conn
  }

  /** The payloads sent to connection `c`, by TCP or by UDP, by the given calls in their order. */
  function SentTo(calls: seq<Call>, order: seq<nat>, c: nat, tcp: bool): seq<Payload>
    requires forall p | 0 <= p < |order| :: order[p] < |calls|
    requires forall i | 0 <= i < |calls| :: |calls[i].data| < LIMIT32
  {
    if order == [] then []
    else
      var last := calls[order[|order| - 1]];
      SentTo(calls, order[..|order| - 1], c, tcp)
      + if last.conn == c && last.tcp == tcp && last.Sent() then [last.data] else []
  }

  function EncodeEach(ps: seq<Payload>): seq<seq<byte>> {
    seq(|ps|, k requires 0 <= k < |ps| => Encode(ps[k]))
  }

  /** What has left on each connection. */
  predicate OutInv(w: World)
    requires Listed(w) && |w.out| == |w.datagrams|
  {
    forall c | 0 <= c < |w.out| ::
      && w.out[c] == EncodeAll(SentTo(w.calls, w.order, c, true))
      && w.datagrams[c] == EncodeEach(SentTo(w.calls, w.order, c, false))
  }

  predicate Inv(w: World) {
    Bounds(w) && LockInv(w) && HeapInv(w) && CopyInv(w) && Listed(w) && OrderInv(w) && OutInv(w)
  }

  // ---------- what a step leaves alone ----------

  /** The same calls and slots, and perhaps new connections and a new call. */
  predicate Alike(w: World, v: World) {
    && Bounds(w) && Bounds(v)
    && |w.slots| == |v.slots| && w.slotOf <= v.slotOf && |w.calls| <= |v.calls|
    && (forall i | 0 <= i < |w.calls| ::
          w.calls[i].conn == v.calls[i].conn && w.calls[i].tcp == v.calls[i].tcp && w.calls[i].data == v.calls[i].data)
    && (forall i | |w.calls| <= i < |v.calls| :: v.calls[i].stage == Waiting)
  }

  lemma SameLocks(w: World, v: World)
    requires Alike(w, v) && LockInv(w)
    requires forall s | 0 <= s < |w.slots| :: w.slots[s].owner == v.slots[s].owner
    requires forall i | 0 <= i < |w.calls| :: w.calls[i].Holds() <==> v.calls[i].Holds()
    ensures LockInv(v)
  {
  }

  lemma SameHeap(w: World, v: World)
    requires HeapInv(w) && w.heap.Keys == v.heap.Keys && |w.slots| == |v.slots|
    requires forall address | address in w.heap :: |w.heap[address]| == |v.heap[address]|
    requires forall s | 0 <= s < |w.slots| ::
               w.slots[s].buffer == v.slots[s].buffer && w.slots[s].size == v.slots[s].size
    ensures HeapInv(v)
  {
    forall address | address in v.heap
      ensures exists s :: 0 <= s < |v.slots| && v.slots[s].buffer == Some(address)
    {
      var s :| 0 <= s < |w.slots| && w.slots[s].buffer == Some(address);
      assert v.slots[s].buffer == Some(address);
    }
  }

  lemma SameCopies(w: World, v: World)
    requires Alike(w, v) && CopyInv(w) && w.heap == v.heap
    requires forall s | 0 <= s < |w.slots| :: w.slots[s].buffer == v.slots[s].buffer
    requires forall i | 0 <= i < |w.calls| && v.calls[i].stage.Copying? :: w.calls[i].stage == v.calls[i].stage
    ensures CopyInv(v)
  {
  }

  lemma SameOrder(w: World, v: World)
    requires Alike(w, v) && Listed(w) && OrderInv(w) && w.order == v.order
    requires forall i | 0 <= i < |w.calls| && v.calls[i].stage.Waiting? :: w.calls[i].stage.Waiting?
    requires forall i | 0 <= i < |w.calls| && v.calls[i].Holds() :: w.calls[i].Holds()
    ensures Listed(v) && OrderInv(v)
  {
    forall i | 0 <= i < |v.calls| && v.calls[i].Holds()
      ensures LastOn(v, i)
    {
      assert LastOn(w, i);
    }
  }

  lemma {:induction false} SentSame(before: seq<Call>, after: seq<Call>, order: seq<nat>, c: nat, tcp: bool)
    requires |before| <= |after| && forall p | 0 <= p < |order| :: order[p] < |before|
    requires forall i | 0 <= i < |after| :: |after[i].data| < LIMIT32
    requires forall i | 0 <= i < |before| :: before[i].conn == after[i].conn && before[i].tcp == after[i].tcp
                                             && before[i].data == after[i].data
    requires forall p | 0 <= p < |order| && before[order[p]].conn == c && before[order[p]].tcp == tcp ::
               before[order[p]].Sent() <==> after[order[p]].Sent()
    ensures SentTo(before, order, c, tcp) == SentTo(after, order, c, tcp)
  {
    if order != [] {
      SentSame(before, after, order[..|order| - 1], c, tcp);
    }
  }

  lemma {:induction false} NothingSent(calls: seq<Call>, order: seq<nat>, c: nat, tcp: bool)
    requires forall p | 0 <= p < |order| :: order[p] < |calls| && calls[order[p]].conn != c
    requires forall i | 0 <= i < |calls| :: |calls[i].data| < LIMIT32
    ensures SentTo(calls, order, c, tcp) == []
  {
    if order != [] {
      NothingSent(calls, order[..|order| - 1], c, tcp);
    }
  }

  lemma SameOut(w: World, v: World)
    requires Alike(w, v) && Listed(w) && OutInv(w) && Listed(v) && w.order == v.order
    requires w.out <= v.out && w.datagrams <= v.datagrams
    requires forall c | |w.out| <= c < |v.out| :: v.out[c] == [] && v.datagrams[c] == []
    requires forall i | 0 <= i < |w.calls| :: w.calls[i].Sent() <==> v.calls[i].Sent()
    ensures OutInv(v)
  {
    forall c | 0 <= c < |v.out|
      ensures v.out[c] == EncodeAll(SentTo(v.calls, v.order, c, true))
      ensures v.datagrams[c] == EncodeEach(SentTo(v.calls, v.order, c, false))
    {
      if c < |w.out| {
        SentSame(w.calls, v.calls, w.order, c, true);
        SentSame(w.calls, v.calls, w.order, c, false);
      } else {
        NothingSent(v.calls, v.order, c, true);
        NothingSent(v.calls, v.order, c, false);
      }
    }
  }

  // ---------- every step keeps the invariant ----------

  lemma ArrivalStep(w: World, a: Action)
    requires Inv(w) && Enabled(w, a) && (a.Connect? || a.Enter?)
    ensures Inv(Do(w, a))
  {
    hide LockInv;
    hide HeapInv;
    hide CopyInv;
    hide OrderInv;
    hide Listed;
    hide OutInv;
    var v := Do(w, a);
    assert Alike(w, v);
    SameLocks(w, v);
    SameHeap(w, v);
    SameCopies(w, v);
    SameOrder(w, v);
    SameOut(w, v);
  }

  lemma FailureStep(w: World, a: Action)
    requires Inv(w) && Enabled(w, a) && (a.LockFails? || a.AllocationFails?)
    ensures Inv(Do(w, a))
  {
    hide LockInv;
    hide HeapInv;
    hide CopyInv;
    hide OrderInv;
    hide Listed;
    hide OutInv;
    var v := Do(w, a);
    assert Alike(w, v);
    SameLocks(w, v);
    SameHeap(w, v);
    SameCopies(w, v);
    SameOrder(w, v);
    SameOut(w, v);
  }

  lemma LockStep(w: World, i: nat)
    requires Inv(w) && Enabled(w, Lock(i))
    ensures Inv(Do(w, Lock(i)))
  {
    hide HeapInv;
    hide CopyInv;
    hide OutInv;
    var v := Do(w, Lock(i));
    assert Alike(w, v) && LockInv(v);
    SameHeap(w, v);
    SameCopies(w, v);
    LockOrder(w, v, i);
    LockOut(w, v, i);
  }

  /** One more lock taken, on another slot, leaves a holder the last on its connection. */
  lemma StillLast(w: World, v: World, i: nat, j: nat)
    requires Alike(w, v) && i < |w.calls| && j < |w.calls| && v.order == w.order + [i]
    requires LastOn(w, j) && w.calls[i].conn != w.calls[j].conn
    ensures LastOn(v, j)
  {
    var p :| 0 <= p < |w.order| && w.order[p] == j
             && forall q | p < q < |w.order| :: w.order[q] < |w.calls| && w.calls[w.order[q]].conn != w.calls[j].conn;
    assert v.order[p] == j;
  }

  lemma LockOrder(w: World, v: World, i: nat)
    requires Alike(w, v) && |w.calls| == |v.calls| && LockInv(w) && Listed(w) && OrderInv(w) && Enabled(w, Lock(i))
    requires v.order == w.order + [i] && v.calls == At(w, i, Locked)
    ensures Listed(v) && OrderInv(v)
  {
    forall j | 0 <= j < |v.calls| && v.calls[j].Holds()
      ensures LastOn(v, j)
    {
      if j == i {
        assert v.order[|w.order|] == i;
      } else {
        assert SlotIndex(w, j) != SlotIndex(w, i);
        StillLast(w, v, i, j);
      }
    }
  }

  lemma LockOut(w: World, v: World, i: nat)
    requires Alike(w, v) && Listed(w) && OutInv(w) && Listed(v) && i < |w.calls| && v.order == w.order + [i]
    requires w.out == v.out && w.datagrams == v.datagrams && !v.calls[i].Sent()
    requires forall j | 0 <= j < |w.calls| :: w.calls[j].Sent() <==> v.calls[j].Sent()
    ensures OutInv(v)
  {
    hide EncodeAll;
    hide EncodeEach;
    forall c | 0 <= c < |v.out|
      ensures v.out[c] == EncodeAll(SentTo(v.calls, v.order, c, true))
      ensures v.datagrams[c] == EncodeEach(SentTo(v.calls, v.order, c, false))
    {
      assert v.order[..|v.order| - 1] == w.order;
      SentSame(w.calls, v.calls, w.order, c, true);
      SentSame(w.calls, v.calls, w.order, c, false);
      assert SentTo(v.calls, v.order, c, true) == SentTo(v.calls, w.order, c, true);
      assert SentTo(v.calls, v.order, c, false) == SentTo(v.calls, w.order, c, false);
    }
  }

  lemma ReleaseStep(w: World, i: nat)
    requires Inv(w) && Enabled(w, Release(i))
    ensures Inv(Do(w, Release(i)))
  {
    hide HeapInv;
    hide CopyInv;
    hide OrderInv;
    hide Listed;
    var v := Do(w, Release(i));
    assert Alike(w, v) && w.calls[i].Holds() && LockInv(v);
    SameHeap(w, v);
    SameCopies(w, v);
    SameOrder(w, v);
    SameOut(w, v);
  }

  /** No two calls work on the same buffer. */
  lemma OneHolder(w: World, i: nat, j: nat)
    requires Bounds(w) && LockInv(w) && HeapInv(w)
    requires i < |w.calls| && j < |w.calls| && i != j && w.calls[i].Holds() && w.calls[j].Holds()
    ensures SlotIndex(w, i) != SlotIndex(w, j)
    ensures SlotFor(w, i).buffer.Some? ==> SlotFor(w, i).buffer != SlotFor(w, j).buffer
  {
  }

  lemma LargeEnoughCopies(w: World, i: nat)
    requires Bounds(w) && HeapInv(w) && CopyInv(w) && Enabled(w, LargeEnough(i))
    ensures Bounds(Do(w, LargeEnough(i))) && CopyInv(Do(w, LargeEnough(i)))
  {
    assert HasBuffer(w, i) && |BufferOf(w, i)| >= WORD_SIZE + |w.calls[i].data|;
  }

  lemma LargeEnoughStep(w: World, i: nat)
    requires Inv(w) && Enabled(w, LargeEnough(i))
    ensures Inv(Do(w, LargeEnough(i)))
  {
    hide LockInv;
    hide HeapInv;
    hide CopyInv;
    hide OrderInv;
    hide Listed;
    var v := Do(w, LargeEnough(i));
    assert Alike(w, v);
    LargeEnoughCopies(w, i);
    SameLocks(w, v);
    SameHeap(w, v);
    SameOrder(w, v);
    SameOut(w, v);
  }

  lemma AllocateHeap(w: World, i: nat, address: nat, garbage: seq<byte>)
    requires Bounds(w) && HeapInv(w) && Enabled(w, Allocate(i, address, garbage))
    ensures HeapInv(Do(w, Allocate(i, address, garbage)))
  {
    AllocateNothingElse(w, i, address, garbage);
    hide NothingElse;
  }

  lemma AllocateNothingElse(w: World, i: nat, address: nat, garbage: seq<byte>)
    requires Bounds(w) && HeapInv(w) && Enabled(w, Allocate(i, address, garbage))
    ensures NothingElse(Do(w, Allocate(i, address, garbage)))
  {
    var v, t := Do(w, Allocate(i, address, garbage)), SlotIndex(w, i);
    forall a | a in v.heap
      ensures exists s :: 0 <= s < |v.slots| && v.slots[s].buffer == Some(a)
    {
      if a == address {
        assert v.slots[t].buffer == Some(a);
      } else {
        var s :| 0 <= s < |w.slots| && w.slots[s].buffer == Some(a);
        assert v.slots[s].buffer == Some(a);
      }
    }
  }

  lemma AllocateCopies(w: World, i: nat, address: nat, garbage: seq<byte>)
    requires Bounds(w) && LockInv(w) && HeapInv(w) && CopyInv(w) && Enabled(w, Allocate(i, address, garbage))
    ensures Bounds(Do(w, Allocate(i, address, garbage))) && CopyInv(Do(w, Allocate(i, address, garbage)))
  {
    AllocateBounds(w, i, address, garbage);
    var v := Do(w, Allocate(i, address, garbage));
    forall j | 0 <= j < |v.calls| && v.calls[j].stage.Copying? && j != i
      ensures HasBuffer(v, j) && BufferOf(v, j) == BufferOf(w, j)
    {
      AllocateKeepsOther(w, i, address, garbage, j);
    }
    hide LockInv;
    hide HeapInv;
  }

  lemma AllocateBounds(w: World, i: nat, address: nat, garbage: seq<byte>)
    requires Bounds(w) && LockInv(w) && HeapInv(w) && Enabled(w, Allocate(i, address, garbage))
    ensures Bounds(Do(w, Allocate(i, address, garbage)))
  {
  }

  lemma AllocateKeepsOther(w: World, i: nat, address: nat, garbage: seq<byte>, j: nat)
    requires Bounds(w) && LockInv(w) && HeapInv(w) && CopyInv(w) && Enabled(w, Allocate(i, address, garbage))
    requires Bounds(Do(w, Allocate(i, address, garbage)))
    requires j < |w.calls| && w.calls[j].stage.Copying? && j != i
    ensures var v := Do(w, Allocate(i, address, garbage));
            j < |v.calls| && HasBuffer(w, j) && HasBuffer(v, j) && BufferOf(v, j) == BufferOf(w, j)
  {
    OneHolder(w, i, j);
    assert HasBuffer(w, j);
  }

  lemma AllocateStep(w: World, i: nat, address: nat, garbage: seq<byte>)
    requires Inv(w) && Enabled(w, Allocate(i, address, garbage))
    ensures Inv(Do(w, Allocate(i, address, garbage)))
  {
    hide LockInv;
    hide HeapInv;
    hide CopyInv;
    hide OrderInv;
    hide Listed;
    var v := Do(w, Allocate(i, address, garbage));
    assert Alike(w, v);
    AllocateHeap(w, i, address, garbage);
    AllocateCopies(w, i, address, garbage);
    SameLocks(w, v);
    SameOrder(w, v);
    SameOut(w, v);
  }

  lemma OneMoreByte(buffer: seq<byte>, frame: seq<byte>, n: nat)
    requires n < |buffer| && n < |frame| && buffer[..n] == frame[..n]
    ensures buffer[n := frame[n]][..n + 1] == frame[..n + 1]
  {
    assert buffer[n := frame[n]][..n + 1] == buffer[..n] + [frame[n]];
  }

  lemma CopyByteCopies(w: World, i: nat)
    requires Bounds(w) && LockInv(w) && HeapInv(w) && CopyInv(w) && Enabled(w, CopyByte(i))
    ensures Bounds(Do(w, CopyByte(i))) && CopyInv(Do(w, CopyByte(i)))
  {
    CopyByteBounds(w, i);
    CopyByteOwn(w, i);
    var v := Do(w, CopyByte(i));
    forall j | 0 <= j < |v.calls| && v.calls[j].stage.Copying? && j != i
      ensures HasBuffer(v, j) && BufferOf(v, j) == BufferOf(w, j)
    {
      CopyByteKeepsOther(w, i, j);
    }
    hide LockInv;
    hide HeapInv;
    hide BufferOf;
    hide HasBuffer;
  }

  lemma CopyByteOwn(w: World, i: nat)
    requires Bounds(w) && LockInv(w) && HeapInv(w) && CopyInv(w)
    requires Enabled(w, CopyByte(i)) && Bounds(Do(w, CopyByte(i)))
    ensures var v := Do(w, CopyByte(i));
            && i < |v.calls| && HasBuffer(v, i) && v.calls[i].stage == Copying(w.calls[i].stage.copied + 1)
            && v.calls[i].stage.copied <= WORD_SIZE + |v.calls[i].data| <= |BufferOf(v, i)|
            && BufferOf(v, i)[..v.calls[i].stage.copied] == Encode(v.calls[i].data)[..v.calls[i].stage.copied]
  {
    OneMoreByte(BufferOf(w, i), Encode(w.calls[i].data), w.calls[i].stage.copied);
  }

  lemma CopyByteBounds(w: World, i: nat)
    requires Bounds(w) && LockInv(w) && HeapInv(w) && CopyInv(w) && Enabled(w, CopyByte(i))
    ensures Bounds(Do(w, CopyByte(i)))
  {
  }

  lemma CopyByteKeepsOther(w: World, i: nat, j: nat)
    requires Bounds(w) && LockInv(w) && HeapInv(w) && CopyInv(w)
    requires Enabled(w, CopyByte(i)) && Bounds(Do(w, CopyByte(i)))
    requires j < |w.calls| && w.calls[j].stage.Copying? && j != i
    ensures var v := Do(w, CopyByte(i));
            j < |v.calls| && HasBuffer(w, j) && HasBuffer(v, j) && BufferOf(v, j) == BufferOf(w, j)
  {
    OneHolder(w, i, j);
    assert HasBuffer(w, j);
  }

  lemma CopyByteStep(w: World, i: nat)
    requires Inv(w) && Enabled(w, CopyByte(i))
    ensures Inv(Do(w, CopyByte(i)))
  {
    hide LockInv;
    hide HeapInv;
    hide CopyInv;
    hide OrderInv;
    hide Listed;
    hide OutInv;
    CopyByteCopies(w, i);
    var v := Do(w, CopyByte(i));
    assert Alike(w, v);
    SameLocks(w, v);
    SameHeap(w, v);
    SameOrder(w, v);
    SameOut(w, v);
  }

  /** Behind call `i` there is no other call for its connection. */
  predicate LastOf(calls: seq<Call>, order: seq<nat>, i: nat)
    requires i < |calls| && forall p | 0 <= p < |order| :: order[p] < |calls|
  {
    exists p :: 0 <= p < |order| && order[p] == i && forall q | p < q < |order| :: calls[order[q]].conn != calls[i].conn
  }

  /** The call that sends is the last on its connection, so its payload comes last. */
  lemma {:induction false} SentLast(before: seq<Call>, after: seq<Call>, order: seq<nat>, i: nat, c: nat, tcp: bool)
    requires |before| == |after| && i < |before| && after[i].Sent() && !before[i].Sent()
    requires forall j | 0 <= j < |before| :: |before[j].data| < LIMIT32
    requires after == before[i := before[i].(stage := after[i].stage)]
    requires forall p | 0 <= p < |order| :: order[p] < |before|
    requires forall p, q | 0 <= p < q < |order| :: order[p] != order[q]
    requires LastOf(before, order, i)
    ensures var sent := SentTo(before, order, c, tcp);
            SentTo(after, order, c, tcp)
            == if before[i].conn == c && before[i].tcp == tcp then sent + [before[i].data] else sent
  {
    var front, last := order[..|order| - 1], order[|order| - 1];
    if last == i {
      SentSame(before, after, front, c, tcp);
    } else {
      var p :| && 0 <= p < |order| && order[p] == i
               && forall q | p < q < |order| :: before[order[q]].conn != before[i].conn;
      assert front[p] == i;
      assert before[order[|order| - 1]].conn != before[i].conn;
      SentLast(before, after, front, i, c, tcp);
    }
  }

  lemma TransmitOut(w: World, v: World, i: nat)
    requires Alike(w, v) && |w.calls| == |v.calls| && w.order == v.order
    requires Listed(w) && OutInv(w) && Listed(v) && i < |w.calls| && LastOn(w, i)
    requires forall j | 0 <= j < |w.calls| && j != i :: v.calls[j] == w.calls[j]
    requires v.calls[i].Sent() && !w.calls[i].Sent()
    requires var c, frame := w.calls[i].conn, Encode(w.calls[i].data);
             && v.out == (if w.calls[i].tcp then w.out[c := w.out[c] + frame] else w.out)
             && v.datagrams == (if w.calls[i].tcp then w.datagrams else w.datagrams[c := w.datagrams[c] + [frame]])
    ensures OutInv(v)
  {
    hide EncodeAll;
    assert LastOf(w.calls, w.order, i) && v.calls == w.calls[i := w.calls[i].(stage := v.calls[i].stage)];
    hide LastOf;
    hide Encode;
    forall c | 0 <= c < |v.out|
      ensures v.out[c] == EncodeAll(SentTo(v.calls, v.order, c, true))
      ensures v.datagrams[c] == EncodeEach(SentTo(v.calls, v.order, c, false))
    {
      SentLast(w.calls, v.calls, w.order, i, c, true);
      SentLast(w.calls, v.calls, w.order, i, c, false);
      EncodeAllSnoc(SentTo(w.calls, w.order, c, true), w.calls[i].data);
      EncodeEachSnoc(SentTo(w.calls, w.order, c, false), w.calls[i].data);
    }
  }

  lemma EncodeEachSnoc(ps: seq<Payload>, p: Payload)
    ensures EncodeEach(ps + [p]) == EncodeEach(ps) + [Encode(p)]
  {
  }

  /** What is sent is the frame of the call's own payload. */
  lemma WholeFrame(w: World, i: nat)
    requires Bounds(w) && CopyInv(w) && OrderInv(w) && Enabled(w, Transmit(i, true))
    ensures BufferOf(w, i)[..WORD_SIZE + |w.calls[i].data|] == Encode(w.calls[i].data) && LastOn(w, i)
  {
    var frame := Encode(w.calls[i].data);
    assert frame[..WORD_SIZE + |w.calls[i].data|] == frame;
    assert w.calls[i].Holds();
  }

  lemma TransmitStep(w: World, i: nat, ok: bool)
    requires Inv(w) && Enabled(w, Transmit(i, ok))
    ensures Inv(Do(w, Transmit(i, ok)))
  {
    hide LockInv;
    hide HeapInv;
    hide CopyInv;
    hide OrderInv;
    hide Listed;
    hide OutInv;
    var v := Do(w, Transmit(i, ok));
    assert Alike(w, v);
    SameLocks(w, v);
    SameHeap(w, v);
    SameCopies(w, v);
    SameOrder(w, v);
    if ok {
      WholeFrame(w, i);
      TransmitOut(w, v, i);
    } else {
      SameOut(w, v);
    }
  }

  lemma EveryStep(w: World, a: Action)
    requires Inv(w) && Enabled(w, a)
    ensures Inv(Do(w, a))
  {
    hide Inv;
    hide Do;
    match a
    case Lock(i) => LockStep(w, i);
    case LargeEnough(i) => LargeEnoughStep(w, i);
    case Allocate(i, address, garbage) => AllocateStep(w, i, address, garbage);
    case CopyByte(i) => CopyByteStep(w, i);
    case Transmit(i, ok) => TransmitStep(w, i, ok);
    case Release(i) => ReleaseStep(w, i);
    case LockFails(_) => FailureStep(w, a);
    case AllocationFails(_) => FailureStep(w, a);
    case _ => ArrivalStep(w, a);
  }

  // ---------- whole runs ----------

  predicate Possible(w: World, run: seq<Action>)
    requires Bounds(w)
    decreases |run|
  {
    run == [] || (Enabled(w, run[0]) && (BoundsKept(w, run[0]); Possible(Do(w, run[0]), run[1..])))
  }

  lemma BoundsKept(w: World, a: Action)
    requires Bounds(w) && Enabled(w, a)
    ensures Bounds(Do(w, a))
  {
  }

  function After(w: World, run: seq<Action>): World
    requires Bounds(w) && Possible(w, run)
    decreases |run|
  {
    if run == [] then w else BoundsKept(w, run[0]); After(Do(w, run[0]), run[1..])
  }

  lemma {:induction false} EveryRun(w: World, run: seq<Action>)
    requires Inv(w) && Possible(w, run)
    ensures Inv(After(w, run))
    decreases |run|
  {
    hide Inv;
    hide Do;
    hide Enabled;
    if run != [] {
      InvBounds(w);
      EveryStep(w, run[0]);
      InvBounds(Do(w, run[0]));
      EveryRun(Do(w, run[0]), run[1..]);
    }
  }

  lemma InvBounds(w: World)
    requires Inv(w)
    ensures Bounds(w) && Listed(w) && OutInv(w)
  {
  }

  lemma StartInv(slots: nat)
    ensures Inv(Start(slots))
  {
  }

  /** In every interleaving, under every sharing of the send slots, the bytes on a
      connection are whole frames: those of the payloads sent to it, each call's own, in
      the order in which the calls took their locks; and so are the datagrams. */
  lemma WholeFramesInLockOrder(slots: nat, run: seq<Action>, c: nat)
    requires Bounds(Start(slots)) && Possible(Start(slots), run) && c < |After(Start(slots), run).out|
    ensures var w := After(Start(slots), run);
            && Listed(w) && |w.datagrams| == |w.out|
            && w.out[c] == EncodeAll(SentTo(w.calls, w.order, c, true))
            && w.datagrams[c] == EncodeEach(SentTo(w.calls, w.order, c, false))
  {
    StartInv(slots);
    EveryRun(Start(slots), run);
    hide Inv;
    InvBounds(After(Start(slots), run));
  }

  /** Whatever part of the stream a receiver has seen, the frames in it are the first of
      the payloads sent. */
  lemma ReceiverSeesTheFirst(slots: nat, run: seq<Action>, c: nat, seen: seq<byte>)
    requires Bounds(Start(slots)) && Possible(Start(slots), run) && c < |After(Start(slots), run).out|
    requires seen <= After(Start(slots), run).out[c]
    ensures var w := After(Start(slots), run); Listed(w) && Frames(seen) <= SentTo(w.calls, w.order, c, true)
  {
    WholeFramesInLockOrder(slots, run, c);
    var w := After(Start(slots), run);
    var sent := SentTo(w.calls, w.order, c, true);
    FramesMonotone(seen, w.out[c]);
    FramesOfEncodeAll(sent, []);
    assert EncodeAll(sent) + [] == EncodeAll(sent);
  }

  /** Call `i` has failed in one of these steps. */
  predicate HasFailed(run: seq<Action>, i: nat) {
    LockFails(i) in run || AllocationFails(i) in run || Transmit(i, false) in run
  }

  /** The result of call `i` of `n` bytes by the steps made for it. */
  predicate ResultBy(run: seq<Action>, i: nat, n: nat, result: int) {
    && (Transmit(i, true) in run <==> !HasFailed(run, i))
    && result == if !HasFailed(run, i) then n else if Transmit(i, false) in run then -1 else 0
  }

  predicate Undecided(run: seq<Action>, i: nat) {
    !HasFailed(run, i) && Transmit(i, true) !in run
  }

  /** If call `i` has a result, it is that of the steps so far. */
  predicate SoFar(past: seq<Action>, i: nat, call: Call) {
    match call.stage
    case Leaving(result) => ResultBy(past, i, WORD_SIZE + |call.data|, result)
    case Returned(result) => ResultBy(past, i, WORD_SIZE + |call.data|, result)
    case _ => Undecided(past, i)
  }

  ghost predicate Resulting(w: World, past: seq<Action>) {
    && (forall i | 0 <= i < |w.calls| :: SoFar(past, i, w.calls[i]))
    && forall i: nat | i >= |w.calls| :: Undecided(past, i)
  }

  lemma ResultStep(w: World, past: seq<Action>, a: Action)
    requires Bounds(w) && Enabled(w, a) && Resulting(w, past)
    ensures Resulting(Do(w, a), past + [a])
  {
    var v := Do(w, a);
    forall i: nat | i >= |v.calls|
      ensures Undecided(past + [a], i)
    {
      assert Undecided(past, i);
    }
    forall i | 0 <= i < |v.calls|
      ensures SoFar(past + [a], i, v.calls[i])
    {
      assert if i < |w.calls| then SoFar(past, i, w.calls[i]) else Undecided(past, i);
    }
  }

  lemma {:induction false} ResultRun(w: World, past: seq<Action>, run: seq<Action>)
    requires Bounds(w) && Possible(w, run) && Resulting(w, past)
    ensures Resulting(After(w, run), past + run)
    decreases |run|
  {
    hide Resulting;
    hide Do;
    if run == [] {
      assert past + run == past;
    } else {
      BoundsKept(w, run[0]);
      ResultStep(w, past, run[0]);
      ResultRun(Do(w, run[0]), past + [run[0]], run[1..]);
      assert past + [run[0]] + run[1..] == past + run;
    }
  }

  /** A call that has returned has sent its frame, and says so, exactly if none of its steps
      has failed: 0 stands for the lock or the allocation, -1 for the send. */
  lemma ResultOfEachCall(slots: nat, run: seq<Action>, i: nat)
    requires Bounds(Start(slots)) && Possible(Start(slots), run) && i < |After(Start(slots), run).calls|
    ensures var call := After(Start(slots), run).calls[i];
            call.stage.Returned? ==> && ResultBy(run, i, WORD_SIZE + |call.data|, call.stage.result)
                                     && (call.Sent() <==> !HasFailed(run, i))
  {
    ResultRun(Start(slots), [], run);
    assert [] + run == run;
  }

  /** An address above those of all buffers. */
  function Above(slots: seq<Slot>): (address: nat)
    ensures forall s | 0 <= s < |slots| && slots[s].buffer.Some? :: slots[s].buffer.value < address
  {
    if slots == [] then 0
    else
      var rest, last := Above(slots[..|slots| - 1]), slots[|slots| - 1];
      if last.buffer.Some? && last.buffer.value >= rest then last.buffer.value + 1 else rest
  }

  lemma AboveIsFree(w: World, address: nat)
    requires HeapInv(w) && address == Above(w.slots)
    ensures address !in w.heap
  {
  }

  /** No deadlock: while some call has not returned, some call can go on, and not only by
      giving up. */
  lemma NoDeadlock(w: World, i: nat) returns (a: Action)
    requires Inv(w) && i < |w.calls| && !w.calls[i].stage.Returned?
    requires forall j | 0 <= j < |w.calls| :: Sendable(|w.calls[j].data|, false)
    ensures Enabled(w, a) && !a.Connect? && !a.Enter? && !a.LockFails? && !a.AllocationFails?
    ensures a.Transmit? ==> a.ok
  {
    var j := if w.calls[i].Holds() || SlotFor(w, i).owner == None then i else SlotFor(w, i).owner.value;
    match w.calls[j].stage
    case Waiting => a := Lock(j);
    case Locked =>
      var address := Above(w.slots);
      AboveIsFree(w, address);
      a := if |w.calls[j].data| <= SlotFor(w, j).size then LargeEnough(j)
           else Allocate(j, address, seq(WORD_SIZE + |w.calls[j].data|, k => 0 as byte));
    case Copying(n) => a := if n < WORD_SIZE + |w.calls[j].data| then CopyByte(j) else Transmit(j, true);
    case Leaving(_) => a := Release(j);
    case Returned(_) => a := Release(j);
  }

  /** Freeing the buffers of the first `n` slots, as `udtcp_delete_server` does. */
  function FreeSlots(w: World, n: nat): map<nat, seq<byte>>
    requires n <= |w.slots|
  {
    if n == 0 then w.heap
    else if w.slots[n - 1].size > 0 && w.slots[n - 1].buffer.Some?
    then FreeSlots(w, n - 1) - {w.slots[n - 1].buffer.value}
    else FreeSlots(w, n - 1)
  }

  lemma {:induction false} FreedSoFar(w: World, n: nat)
    requires HeapInv(w) && n <= |w.slots|
    ensures forall address :: address in FreeSlots(w, n)
              <==> address in w.heap && forall s | 0 <= s < n :: w.slots[s].buffer != Some(address)
  {
    if n > 0 {
      FreedSoFar(w, n - 1);
    }
  }

  /** The deletion frees every buffer, each while it is still allocated. */
  lemma EachFreedOnce(w: World)
    requires HeapInv(w)
    ensures FreeSlots(w, |w.slots|) == map[]
    ensures forall s | 0 <= s < |w.slots| && w.slots[s].size > 0 ::
              w.slots[s].buffer.Some? && w.slots[s].buffer.value in FreeSlots(w, s)
  {
    FreedSoFar(w, |w.slots|);
    forall s | 0 <= s < |w.slots| && w.slots[s].size > 0
      ensures w.slots[s].buffer.Some? && w.slots[s].buffer.value in FreeSlots(w, s)
    {
      FreedSoFar(w, s);
    }
  }
}
