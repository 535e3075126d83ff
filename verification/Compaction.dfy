/**
 The compaction at the end of `udtcp_server_poll`: two parallel arrays are squeezed
 in place by shifting them down over each dropped entry.  The arrays have one element
 more than the table, standing for what follows it in memory.
 */
module Compaction {
  import opened Types
  import opened ServerModel

  /** The client slots of the two arrays. */
  function Zip(fds: seq<PollFd>, infos: seq<Infos>): seq<Slot>
    requires |fds| == |infos|
  {
    seq(|fds|, i requires 0 <= i < |fds| => Slot(fds[i].fd, infos[i]))
  }

  ghost function Rows(fds: array<PollFd>, infos: array<Infos>, lo: nat, hi: nat): (s: seq<Slot>)
    requires lo <= hi <= fds.Length == infos.Length
    reads fds, infos
    ensures |s| == hi - lo
    ensures forall k | 0 <= k < |s| :: s[k] == Slot(fds[lo + k].fd, infos[lo + k])
  {
    Zip(fds[lo..hi], infos[lo..hi])
  }

  /** Some entry other than the last has been dropped. */
  predicate DroppedInside(s: seq<Slot>) {
    exists k | 0 <= k < |s| - 1 :: s[k].fd == -1
  }

  /** Reads an element; `reach` is one more than the highest index read so far. */
  method Fetch<T>(a: array<T>, i: nat, ghost before: nat) returns (x: T, ghost reach: nat)
    requires i < a.Length
    ensures x == a[i] && reach == if i < before then before else i + 1
  {
    x := a[i];
    reach := if i < before then before else i + 1;
  }

  /** `memcpy` of `count` elements from one element further up. */
  method ShiftDown<T>(a: array<T>, dst: nat, count: nat, ghost before: nat) returns (ghost reach: nat)
    requires dst + 1 + count <= a.Length
    modifies a
    ensures forall k | dst <= k < dst + count :: a[k] == old(a[k + 1])
    ensures forall k | 0 <= k < a.Length && !(dst <= k < dst + count) :: a[k] == old(a[k])
    ensures reach == if count > 0 && dst + 1 + count > before then dst + 1 + count else before
  {
    reach := before;
    for j := 0 to count
      invariant forall k | dst <= k < dst + j :: a[k] == old(a[k + 1])
      invariant forall k | 0 <= k < a.Length && !(dst <= k < dst + j) :: a[k] == old(a[k])
      invariant reach == if j > 0 && dst + 1 + j > before then dst + 1 + j else before
    {
      var x;
      x, reach := Fetch(a, dst + j + 1, reach);
      a[dst + j] := x;
    }
  }

  /** Entry `i` of both arrays goes; those behind it move down by one. */
  method Remove(fds: array<PollFd>, infos: array<Infos>, i: nat, n: nat, ghost before: nat)
    returns (ghost reach: nat, ghost reachInfos: nat)
    requires 2 <= i < n < fds.Length == infos.Length
    modifies fds, infos
    ensures Rows(fds, infos, i, n - 1) == old(Rows(fds, infos, i, n))[1..]
    ensures Rows(fds, infos, 2, i) == old(Rows(fds, infos, 2, i))
    ensures fds[..2] == old(fds[..2]) && infos[..2] == old(infos[..2])
    ensures reach == reachInfos == if i < n - 1 && n + 1 > before then n + 1 else before
  {
    reach, reachInfos := before, before;
    if i < n - 1 {
      reach := ShiftDown(fds, i, n - i, reach);
      reachInfos := ShiftDown(infos, i, n - i, reachInfos);
    }
  }

  /** In place, both arrays end as the stable filter of the entries not dropped, in
      lockstep, with the two reserved entries untouched.  In both, `reach` is one more than the
      highest index a copy reads: the copies read the element behind the last entry
      exactly when an entry other than the last has been dropped, and with a full
      table that element is outside the table. */
  method Compact(fds: array<PollFd>, infos: array<Infos>, nfds: nat)
    returns (n: nat, ghost reach: nat, ghost reachInfos: nat)
    requires 2 <= nfds < fds.Length == infos.Length
    modifies fds, infos
    ensures 2 <= n <= nfds
    ensures Rows(fds, infos, 2, n) == Live(old(Rows(fds, infos, 2, nfds)))
    ensures fds[..2] == old(fds[..2]) && infos[..2] == old(infos[..2])
    ensures reach == reachInfos
    ensures reach == if DroppedInside(old(Rows(fds, infos, 2, nfds))) then nfds + 1 else 0
    ensures reach == fds.Length <==> nfds == fds.Length - 1 && DroppedInside(old(Rows(fds, infos, 2, nfds)))
  {
    ghost var s := Rows(fds, infos, 2, nfds);
    n := nfds;
    reach, reachInfos := 0, 0;
    var i := 2;
    ghost var head, tail := [], s;
    while i < n
      invariant 2 <= i <= n <= nfds
      invariant head == Rows(fds, infos, 2, i) && tail == Rows(fds, infos, i, n)
      invariant AllLive(head) && Live(s) == head + Live(tail)
      invariant fds[..2] == old(fds[..2]) && infos[..2] == old(infos[..2])
      invariant reach == reachInfos
      invariant n == nfds ==> reach == 0 && s == head + tail
      invariant n < nfds ==> reach == if DroppedInside(s) then nfds + 1 else 0
      invariant n < nfds ==> DroppedInside(s) || i == n
      decreases n - i
    {
      if fds[i].fd == -1 {
        FirstDrop(s, head, tail);
        reach, reachInfos := Remove(fds, infos, i, n, reach);
        tail := tail[1..];
        i := i - 1;
        n := n - 1;
      } else {
        NextRow(fds, infos, i, n);
        FirstKept(s, head, tail);
        head, tail := head + [tail[0]], tail[1..];
      }
      i := i + 1;
    }
  }

  lemma NextRow(fds: array<PollFd>, infos: array<Infos>, i: nat, n: nat)
    requires 2 <= i < n < fds.Length == infos.Length
    ensures Rows(fds, infos, 2, i + 1) == Rows(fds, infos, 2, i) + [Rows(fds, infos, i, n)[0]]
    ensures Rows(fds, infos, i + 1, n) == Rows(fds, infos, i, n)[1..]
  {
  }

  lemma FirstKept(s: seq<Slot>, head: seq<Slot>, tail: seq<Slot>)
    requires AllLive(head) && |tail| > 0 && tail[0].fd != -1 && Live(s) == head + Live(tail)
    ensures AllLive(head + [tail[0]]) && Live(s) == (head + [tail[0]]) + Live(tail[1..])
    ensures (head + [tail[0]]) + tail[1..] == head + tail
  {
  }

  lemma FirstDrop(s: seq<Slot>, head: seq<Slot>, tail: seq<Slot>)
    requires AllLive(head) && |tail| > 0 && tail[0].fd == -1 && Live(s) == head + Live(tail)
    ensures Live(s) == head + Live(tail[1..])
    ensures s == head + tail ==> (DroppedInside(s) <==> |tail| > 1)
  {
    if s == head + tail {
      assert s[|head|] == tail[0] && forall k | 0 <= k < |head| :: s[k] == head[k];
    }
  }
}
