/**
 The callbacks of a server in the order in which they are made, and what a trace
 says about one client: where it stands in its life and what it has delivered.
 */
module Trace {
  import opened Wire
  import opened Types
  import opened Receive

  datatype Event =
    | Connect(id: nat)
    | TcpData(id: nat, payload: Payload)
    | UdpData(id: nat, data: seq<byte>)
    | Disconnect(id: nat)

  datatype Phase = Unborn | Open | Done | Broken

  function NextPhase(p: Phase, e: Event): Phase {
    if p == Unborn && e.Connect? then Open
    else if p == Open && (e.TcpData? || e.UdpData?) then Open
    else if p == Open && e.Disconnect? then Done
    else Broken
  }

  function PhaseOf(t: seq<Event>, id: nat): Phase {
    if t == [] then Unborn
    else
      var p, e := PhaseOf(t[..|t| - 1], id), t[|t| - 1];
      if e.id == id then NextPhase(p, e) else p
  }

  /** The payloads delivered by TCP under `id`. */
  function TcpOf(t: seq<Event>, id: nat): seq<Payload> {
    if t == [] then []
    else
      var ps, e := TcpOf(t[..|t| - 1], id), t[|t| - 1];
      if e.TcpData? && e.id == id then ps + [e.payload] else ps
  }

  /** Everything delivered by UDP, with the client it is attributed to. */
  function UdpOf(t: seq<Event>): seq<(nat, seq<byte>)> {
    if t == [] then []
    else
      var ms, e := UdpOf(t[..|t| - 1]), t[|t| - 1];
      if e.UdpData? then ms + [(e.id, e.data)] else ms
  }

  /** Connects minus disconnects. */
  function Net(t: seq<Event>): int {
    if t == [] then 0
    else
      var n, e := Net(t[..|t| - 1]), t[|t| - 1];
      if e.Connect? then n + 1 else if e.Disconnect? then n - 1 else n
  }

  lemma Snoc(t: seq<Event>, e: Event)
    ensures forall id: nat ::
              PhaseOf(t + [e], id) == if e.id == id then NextPhase(PhaseOf(t, id), e) else PhaseOf(t, id)
    ensures forall id: nat :: TcpOf(t + [e], id)
                         == TcpOf(t, id) + if e.TcpData? && e.id == id then [e.payload] else []
    ensures UdpOf(t + [e]) == UdpOf(t) + if e.UdpData? then [(e.id, e.data)] else []
    ensures Net(t + [e]) == Net(t) + if e.Connect? then 1 else if e.Disconnect? then -1 else 0
  {
    assert (t + [e])[..|t|] == t;
  }

  /** The callbacks made for one client. */
  function Of(t: seq<Event>, id: nat): seq<Event> {
    if t == [] then []
    else if t[0].id == id then [t[0]] + Of(t[1..], id)
    else Of(t[1..], id)
  }

  predicate Received(e: Event) {
    e.TcpData? || e.UdpData?
  }

  predicate Begun(p: seq<Event>) {
    |p| > 0 && p[0].Connect? && forall k | 1 <= k < |p| :: Received(p[k])
  }

  predicate Completed(p: seq<Event>) {
    |p| > 1 && Begun(p[..|p| - 1]) && p[|p| - 1].Disconnect?
  }

  lemma {:induction false} OfSnoc(t: seq<Event>, e: Event, id: nat)
    ensures Of(t + [e], id) == Of(t, id) + if e.id == id then [e] else []
  {
    if t == [] {
      assert t + [e] == [e];
    } else {
      assert (t + [e])[1..] == t[1..] + [e];
      OfSnoc(t[1..], e, id);
    }
  }

  lemma BegunSnoc(p: seq<Event>, e: Event)
    ensures Begun(p + [e]) <==> (p == [] && e.Connect?) || (Begun(p) && Received(e))
  {
    var q := p + [e];
    assert q[|p|] == e && forall k | 0 <= k < |p| :: q[k] == p[k];
    if Begun(q) && p != [] {
      assert Received(q[|p|]);
      assert forall k | 1 <= k < |p| :: Received(q[k]);
    }
  }

  lemma CompletedSnoc(p: seq<Event>, e: Event)
    ensures Completed(p + [e]) <==> Begun(p) && e.Disconnect?
  {
    var q := p + [e];
    assert q[..|q| - 1] == p && q[|q| - 1] == e;
  }

  lemma BegunNotCompleted(p: seq<Event>)
    ensures !(Begun(p) && Completed(p))
  {
    if Begun(p) && |p| > 1 {
      assert Received(p[|p| - 1]);
    }
  }

  /** What the phases mean: the callbacks of a client that is open are one connect
      and then only received data; of one that is done, the same and one final
      disconnect; an unborn one has none. */
  lemma {:induction false} PhaseMeaning(t: seq<Event>, id: nat)
    ensures PhaseOf(t, id) == Unborn <==> Of(t, id) == []
    ensures PhaseOf(t, id) == Open <==> Begun(Of(t, id))
    ensures PhaseOf(t, id) == Done <==> Completed(Of(t, id))
  {
    if t != [] {
      var u, e := t[..|t| - 1], t[|t| - 1];
      PhaseMeaning(u, id);
      assert t == u + [e];
      OfSnoc(u, e, id);
      if e.id == id {
        var p := Of(u, id);
        assert Of(t, id) == p + [e];
        BegunSnoc(p, e);
        CompletedSnoc(p, e);
        BegunNotCompleted(p);
      } else {
        assert Of(t, id) == Of(u, id);
      }
    }
  }

  /** What a queue of datagrams should deliver, given for each datagram taken the
      client its source address belonged to at that moment. */
  function UdpSpec(queue: seq<Datagram>, owners: seq<Option<nat>>): seq<(nat, seq<byte>)>
    requires |owners| <= |queue|
    decreases |owners|
  {
    if owners == [] then []
    else
      var n := |owners| - 1;
      UdpSpec(queue, owners[..n])
      + if WellFormed(queue[n]) && owners[n].Some? then [(owners[n].value, Declared(queue[n]))] else []
  }
}
