/**
 The operating system as the library sees it.  Everything that remote parties will ever
 do is fixed at the start of a run but arbitrary: the connections that will be made, the
 bytes each will carry, the datagrams that will be queued.  How much of it has arrived
 grows in steps (`Arrive`): at every `poll` and whenever a call waits.  That loses no
 behaviour of a drain, whose reads stop at the first one that finds too little.  How much
 of what has arrived a call returns, and when a call fails, is decided anew at each call,
 so what is proved against this class holds for every environment.

 Two constants name kinds of environment.  In an `orderly` one a stream behaves as TCP
 does: a read of a header returns as much of it as has arrived, a read finds nothing only
 if nothing has arrived, the stream ends only where the peer ended it, and a wait that
 succeeds is followed by a read that finds something.  In a `faultless` one, moreover, no
 call fails that can succeed, and `poll` reports every socket that has something.

 The kernel keeps a journal of the calls with their answers.  What a method concludes from
 these is stated about the journal, which only the kernel writes.
 */
module Sockets {
  import opened Wire
  import opened Types

  /** A remote party: its address, all bytes it will ever send, whether it then closes its
      end, and whether its headers arrive only together with a byte of the payload. */
  datatype Remote = Remote(addr: Addr, wire: seq<byte>, ends: bool, whole: bool)

  type Peer = r: Remote | r.whole ==> StopsWell(r.wire) witness Remote(Addr(0, 0), [], false, false)

  /** One TCP connection, after its handshake: its peer, how many of the peer's bytes have
      been read, the bytes written to it, its descriptor while that is open (then -1), and
      how often that descriptor has been closed. */
  datatype Conn = Conn(peer: Peer, pos: nat, out: seq<byte>, fd: int, closes: nat) {
    predicate Valid() { pos <= |peer.wire| }

    function Read(): seq<byte>
      requires Valid()
    {
      peer.wire[..pos]
    }

    function Unread(): seq<byte>
      requires Valid()
    {
      peer.wire[pos..]
    }

    /** What can be read when `arrived` bytes of the stream have arrived. */
    function Here(arrived: nat): seq<byte>
      requires pos <= arrived <= |peer.wire|
    {
      peer.wire[pos..arrived]
    }
  }

  /** With `arrived` bytes the stream of this peer is complete and closed. */
  predicate Over(peer: Peer, arrived: nat) {
    peer.ends && arrived == |peer.wire|
  }

  /** How much of what will come has come: bytes of each connection, datagrams, and parties
      that have asked for a connection. */
  datatype News = News(arrived: seq<nat>, queued: nat, knocked: nat)

  /** From `m` to `n` nothing has been taken back. */
  predicate More(m: News, n: News) {
    && |m.arrived| <= |n.arrived| && (forall h | 0 <= h < |m.arrived| :: m.arrived[h] <= n.arrived[h])
    && m.queued <= n.queued && m.knocked <= n.knocked
  }

  lemma NothingNew(news: News)
    ensures More(news, news)
  {
  }

  lemma MoreOn(a: News, b: News, c: News)
    requires More(a, b) && More(b, c)
    ensures More(a, c)
  {
  }

  datatype Sent = Sent(socket: int, dest: Addr, data: seq<byte>)

  /** How the read of the peer's record in the handshake can end: with a whole record; with
      some other number of bytes, after which the entry holds `left` and, if it was one byte
      more than a record, the next entry has the `id` in `behind`; with the end of the stream;
      with an error.  `left` has the number of the accepted socket: the read has stopped
      before the field `tcp_socket` or has written the same number there (see `Handshake`). */
  datatype RecordRead = Whole(record: Infos) | Misfit(left: Infos, behind: Option<nat>) | Closed | Failed

  /** How the read of the server's reply in the handshake can end: the record, one byte
      (a full server sends one), some other part of a record, the end, an error.  A part
      overwrites the first fields, one byte only the first, `id`. */
  datatype Reply = Record(record: Infos) | OneByte(idField: nat) | Part(mixed: Infos) | NoReply | ReplyFailed

  /** The calls that only succeed or fail: what readies a socket, `connect`, the sends, the
      lock of a send slot. */
  datatype Task = Ready | Dial | SendRecord | SendZero | SendFrame | SendDatagram | TakeLock

  /** A call that has been made, with its answer and the value of `errno` after it.  So the
      history of the calls says what the environment has decided. */
  datatype Call =
    /** `poll` on the table, with `revents` of its entries */
    | Tabled(answer: int, marks: seq<Revents>, errno: Errno)
    /** `poll` on one socket, in the handshake and between the pieces of a payload */
    | Waited(answer: int, errno: Errno)
    | Awaited(fd: int, answer: int, errno: Errno)
    /** `poll` on a socket that connects */
    | Dialled(answer: int, hungUp: bool, errno: Errno)
    /** `recv` of a header */
    | HeadRead(fd: int, answer: int, errno: Errno)
    /** `recv` of a payload or a part of one */
    | BodyRead(fd: int, answer: int, errno: Errno)
    /** `recvfrom` that looks at a header, and that takes a datagram */
    | Peeked(answer: int, errno: Errno)
    | Pulled(asked: nat, answer: int, errno: Errno)
    /** `accept` and `socket` */
    | Opened(fd: int, errno: Errno)
    /** `recv` of the peer's record, and of the server's */
    | Shaken(read: RecordRead, errno: Errno)
    | Replied(reply: Reply, errno: Errno)
    | Tried(task: Task, ok: bool, errno: Errno)
    /** not a call: an allocation fails, made for a payload on this socket */
    | Denied(fd: int, errno: Errno)
    /** nor this: the library sets `errno` */
    | Assigned(errno: Errno)
    /** nor this: another thread clears `poll_loop` */
    | Cleared(errno: Errno)

  /** A read that meets the end. */
  predicate Ending(c: Call) {
    (c.HeadRead? || c.BodyRead? || c.Peeked? || c.Pulled?) && c.answer == 0
  }

  /** A call that makes a read fail: an error, a wait in vain, a part of a header, a datagram
      of another size than its header says, memory exhausted. */
  predicate Failing(c: Call) {
    match c
    case HeadRead(_, answer, _) => answer < 0 || 0 < answer < WORD_SIZE
    case BodyRead(_, answer, _) => answer < 0
    case Awaited(_, answer, _) => answer <= 0
    case Waited(answer, _) => answer <= 0
    case Peeked(answer, _) => answer < 0 || 0 < answer < WORD_SIZE
    case Pulled(asked, answer, _) => answer < 0 || 0 < answer < asked
    case Denied(_, _) => true
    case _ => false
  }

  /** The connection that is read, by its descriptor, or -1. */
  function SocketOf(c: Call): int {
    match c
    case HeadRead(fd, _, _) => fd
    case BodyRead(fd, _, _) => fd
    case Awaited(fd, _, _) => fd
    case Denied(fd, _) => fd
    case _ => -1
  }

  /** After such a call the connection is given up. */
  predicate Dismisses(c: Call) {
    Ending(c) || (Failing(c) && c.errno != WouldBlock)
  }

  /** The call made last. */
  function LastCall(calls: seq<Call>): Call {
    if calls == [] then Cleared(Errno.Other) else calls[|calls| - 1]
  }

  /** A call after which a read goes on. */
  predicate Fine(c: Call) {
    !Ending(c) && !Failing(c) && !c.Cleared? && !c.Tabled? && !c.Shaken? && !c.Assigned?
  }

  /** From `a` to `b` a read of `fd` has gone on. */
  predicate GoneOn(a: seq<Call>, b: seq<Call>, fd: int) {
    a <= b && |a| < |b| && forall i | |a| <= i < |b| :: Fine(b[i]) && SocketOf(b[i]) == fd
  }

  /** From `a` to `b` one read of `fd` has been made: it has gone on up to its last call, and how
      that went says whether it has got what it wanted, met the end, or failed. */
  predicate Answered(a: seq<Call>, b: seq<Call>, fd: int, got: bool, ended: bool) {
    && a <= b && |a| < |b| && (forall i | |a| <= i < |b| :: SocketOf(b[i]) == fd)
    && (forall i | |a| <= i < |b| - 1 :: Fine(b[i]))
    && (got <==> Fine(LastCall(b))) && (ended <==> Ending(LastCall(b))) && (!got && !ended ==> Failing(LastCall(b)))
  }

  lemma GoneOnOnce(a: seq<Call>, c: Call)
    ensures Fine(c) ==> GoneOn(a, a + [c], SocketOf(c))
    ensures Fine(c) || Ending(c) || Failing(c) ==> Answered(a, a + [c], SocketOf(c), Fine(c), Ending(c))
    ensures LastCall(a + [c]) == c
  {
  }

  lemma GoneOnThen(a: seq<Call>, b: seq<Call>, c: seq<Call>, fd: int)
    requires (a == b || GoneOn(a, b, fd)) && GoneOn(b, c, fd)
    ensures GoneOn(a, c, fd)
  {
    assert forall i | 0 <= i < |b| :: c[i] == b[i];
  }

  lemma GoneOnAnswered(a: seq<Call>, b: seq<Call>, fd: int)
    requires GoneOn(a, b, fd)
    ensures Answered(a, b, fd, true, false) && !LastCall(b).Denied?
  {
  }

  lemma ThenAnswered(a: seq<Call>, b: seq<Call>, c: seq<Call>, fd: int, got: bool, ended: bool)
    requires (a == b || GoneOn(a, b, fd)) && Answered(b, c, fd, got, ended)
    ensures Answered(a, c, fd, got, ended)
  {
    assert forall i | 0 <= i < |b| :: c[i] == b[i];
  }

  /** From `a` to `b` there are only reads, and another thread at work. */
  predicate OnlyReads(a: seq<Call>, b: seq<Call>) {
    a <= b && forall i | |a| <= i < |b| :: !b[i].Tabled? && !b[i].Shaken?
  }

  /** ... and none after which the connection is given up. */
  predicate Harmless(a: seq<Call>, b: seq<Call>) {
    a <= b && forall i | |a| <= i < |b| :: !Dismisses(b[i])
  }

  /** No other thread has cleared `poll_loop`. */
  predicate Undisturbed(a: seq<Call>, b: seq<Call>) {
    a <= b && forall i | |a| <= i < |b| :: !b[i].Cleared?
  }

  /** All reads from `a` to `b` are of `fd`. */
  predicate On(a: seq<Call>, b: seq<Call>, fd: int) {
    a <= b && forall i | |a| <= i < |b| :: SocketOf(b[i]) == fd || b[i].Cleared?
  }

  /** From `a` to `b` connection `fd` has been read, or it has been tried. */
  predicate Touched(a: seq<Call>, b: seq<Call>, fd: int) {
    exists i | |a| <= i < |b| :: SocketOf(b[i]) == fd
  }

  /** ... and one of these reads makes it be given up. */
  predicate Dismissed(a: seq<Call>, b: seq<Call>, fd: int) {
    exists i | |a| <= i < |b| :: SocketOf(b[i]) == fd && Dismisses(b[i])
  }

  lemma OnThen(a: seq<Call>, b: seq<Call>, c: seq<Call>, fd: int)
    requires On(a, b, fd) && On(b, c, fd)
    ensures On(a, c, fd)
    ensures Touched(a, b, fd) ==> Touched(a, c, fd)
  {
    assert forall i | 0 <= i < |b| :: c[i] == b[i];
  }

  /** What the reads of `fd` add to those of another connection. */
  lemma Elsewhere(a: seq<Call>, b: seq<Call>, c: seq<Call>, fd: int, other: int)
    requires a <= b && On(b, c, fd) && other != -1
    ensures fd != other ==> && (Touched(a, c, other) <==> Touched(a, b, other))
                            && (Dismissed(a, c, other) <==> Dismissed(a, b, other))
    ensures fd == other && !Touched(a, b, other) ==>
              && (Touched(a, c, other) <==> Touched(b, c, other))
              && (Dismissed(a, c, other) <==> Dismissed(b, c, other))
  {
    assert forall i | 0 <= i < |b| :: c[i] == b[i];
  }

  lemma OnHarmless(a: seq<Call>, b: seq<Call>, fd: int)
    requires On(a, b, fd)
    ensures Harmless(a, b) <==> !Dismissed(a, b, fd)
  {
  }

  lemma AnsweredHarmless(a: seq<Call>, b: seq<Call>, fd: int, got: bool, ended: bool)
    requires Answered(a, b, fd, got, ended)
    ensures OnlyReads(a, b) && Undisturbed(a, b) && On(a, b, fd) && Touched(a, b, fd)
    ensures Harmless(a, b) <==> got || (!ended && LastCall(b).errno == WouldBlock)
    ensures got <==> Fine(LastCall(b))
  {
  }

  lemma CallsOn(a: seq<Call>, b: seq<Call>, c: seq<Call>)
    requires a <= b <= c
    ensures Harmless(a, c) <==> Harmless(a, b) && Harmless(b, c)
    ensures Undisturbed(a, c) <==> Undisturbed(a, b) && Undisturbed(b, c)
    ensures OnlyReads(a, c) <==> OnlyReads(a, b) && OnlyReads(b, c)
  {
    assert forall i | 0 <= i < |b| :: c[i] == b[i];
  }

  /** From `a` to `b` there are only reads, and another thread at work, which has cleared
      `poll_loop` or not; `kept` says whether none of the reads makes the connection be given
      up. */
  predicate DrainedBy(a: seq<Call>, b: seq<Call>, was: bool, now: bool, kept: bool) {
    OnlyReads(a, b) && (now <==> was && Undisturbed(a, b)) && (kept <==> Harmless(a, b))
  }

  lemma DrainedNone(a: seq<Call>, was: bool)
    ensures DrainedBy(a, a, was, was, true)
  {
  }

  lemma DrainedThen(a: seq<Call>, b: seq<Call>, c: seq<Call>, was: bool, between: bool, now: bool, kept: bool,
                    keptOn: bool)
    requires DrainedBy(a, b, was, between, kept) && DrainedBy(b, c, between, now, keptOn)
    ensures DrainedBy(a, c, was, now, kept && keptOn)
  {
    CallsOn(a, b, c);
  }

  lemma DrainedRead(a: seq<Call>, b: seq<Call>, fd: int, got: bool, ended: bool, was: bool)
    requires Answered(a, b, fd, got, ended)
    ensures DrainedBy(a, b, was, was, got || (!ended && LastCall(b).errno == WouldBlock))
    ensures got <==> Fine(LastCall(b))
  {
    AnsweredHarmless(a, b, fd, got, ended);
  }

  /** The calls made between `a` and `b`. */
  function Since(a: seq<Call>, b: seq<Call>): seq<Call> {
    if |a| <= |b| then b[|a|..] else []
  }

  /** One more read in a drain, and the test of the loop flag behind it. */
  lemma DrainedMore(a: seq<Call>, b: seq<Call>, c: seq<Call>, d: seq<Call>, was: bool, between: bool, now: bool,
                    fd: int, got: bool, ended: bool)
    requires DrainedBy(a, b, was, between, true) && Answered(b, c, fd, got, ended)
    requires DrainedBy(c, d, between, now, true)
    ensures DrainedBy(a, d, was, now, got || (!ended && LastCall(c).errno == WouldBlock))
    ensures got <==> Fine(LastCall(c))
    ensures On(a, b, fd) && On(c, d, fd) ==> On(a, d, fd) && Touched(a, d, fd)
  {
    DrainedOn(a, b, c, d, fd, got, ended);
    hide DrainedBy;
    hide On;
    hide Touched;
    var kept := got || (!ended && LastCall(c).errno == WouldBlock);
    DrainedRead(b, c, fd, got, ended, between);
    DrainedThen(a, b, c, was, between, between, true, kept);
    DrainedThen(a, c, d, was, between, now, kept, true);
  }

  lemma DrainedOn(a: seq<Call>, b: seq<Call>, c: seq<Call>, d: seq<Call>, fd: int, got: bool, ended: bool)
    requires Answered(b, c, fd, got, ended)
    ensures On(a, b, fd) && On(c, d, fd) ==> On(a, d, fd) && Touched(a, d, fd)
  {
    AnsweredHarmless(b, c, fd, got, ended);
    if On(a, b, fd) && On(c, d, fd) {
      OnThen(b, c, d, fd);
      OnThen(a, b, d, fd);
      assert |a| <= |b| && |b| < |d| && d[|b|] == c[|b|];
    }
  }

  lemma SinceSnoc(a: seq<Call>, b: seq<Call>, c: Call)
    requires a <= b
    ensures a <= b + [c] && Since(a, b + [c]) == Since(a, b) + [c] && Since(a, a) == []
  {
  }

  lemma DrainedPrefix(a: seq<Call>, b: seq<Call>, was: bool, now: bool, kept: bool)
    requires DrainedBy(a, b, was, now, kept)
    ensures a <= b
  {
  }

  /** The records of clients that have been read whole. */
  function RecordsIn(calls: seq<Call>): seq<Infos> {
    if calls == [] then []
    else
      var last := calls[|calls| - 1];
      RecordsIn(calls[..|calls| - 1]) + if last.Shaken? && last.read.Whole? then [last.read.record] else []
  }

  lemma RecordsSnoc(calls: seq<Call>, c: Call)
    ensures RecordsIn(calls + [c]) == RecordsIn(calls) + if c.Shaken? && c.read.Whole? then [c.read.record] else []
  {
    assert (calls + [c])[..|calls|] == calls;
  }

  lemma {:induction false} NoRecords(a: seq<Call>, b: seq<Call>)
    requires OnlyReads(a, b)
    ensures RecordsIn(b) == RecordsIn(a)
    decreases |b|
  {
    if |a| < |b| {
      NoRecords(a, b[..|b| - 1]);
    } else {
      assert a == b;
    }
  }

  /** How often `poll` on the table has been called. */
  function Polls(calls: seq<Call>): nat {
    if calls == [] then 0
    else Polls(calls[..|calls| - 1]) + if calls[|calls| - 1].Tabled? then 1 else 0
  }

  /** The last of these calls. */
  function LastTabled(calls: seq<Call>): Call {
    if calls == [] then Cleared(Errno.Other)
    else if LastCall(calls).Tabled? then LastCall(calls)
    else LastTabled(calls[..|calls| - 1])
  }

  lemma {:induction false} NoPoll(a: seq<Call>, b: seq<Call>)
    requires a <= b && forall i | |a| <= i < |b| :: !b[i].Tabled?
    ensures Polls(b) == Polls(a) && LastTabled(b) == LastTabled(a)
    decreases |b|
  {
    if |a| < |b| {
      NoPoll(a, b[..|b| - 1]);
    } else {
      assert a == b;
    }
  }

  /** After the loop flag has been cleared, or a wait has failed, a thread polls no more. */
  predicate Halts(c: Call) {
    c.Cleared? || (c.Tabled? && c.answer < 0)
  }

  predicate Running(a: seq<Call>, b: seq<Call>) {
    a <= b && forall i | |a| <= i < |b| :: !Halts(b[i])
  }

  predicate PollsWhileRunning(a: seq<Call>, b: seq<Call>) {
    a <= b && forall i, j | |a| <= i < j < |b| && b[j].Tabled? :: !Halts(b[i])
  }

  /** From `a` to `b` there is one call of `poll` on the table, and what a pass does then. */
  predicate PollCalls(a: seq<Call>, b: seq<Call>, was: bool, now: bool, kept: bool) {
    a <= b && |a| < |b| && b[|a|].Tabled? && DrainedBy(b[..|a| + 1], b, was, now, kept)
  }

  /** From `a` to `b` there are passes like this. */
  predicate RunCalls(a: seq<Call>, b: seq<Call>, was: bool, now: bool, kept: bool) {
    a <= b && (now <==> was && Undisturbed(a, b)) && (kept <==> Harmless(a, b))
  }

  /** From `a` to `b` a pass over the table is under way. */
  predicate PassCalls(a: seq<Call>, b: seq<Call>, was: bool, now: bool) {
    a <= b && (forall i | |a| <= i < |b| :: !b[i].Tabled?) && (now <==> was && Undisturbed(a, b))
  }

  lemma PassDrained(a: seq<Call>, b: seq<Call>, was: bool, now: bool, kept: bool)
    requires DrainedBy(a, b, was, now, kept)
    ensures PassCalls(a, b, was, now) && RecordsIn(b) == RecordsIn(a)
  {
    NoRecords(a, b);
  }

  lemma PassThen(a: seq<Call>, b: seq<Call>, c: seq<Call>, was: bool, between: bool, now: bool)
    requires PassCalls(a, b, was, between) && PassCalls(b, c, between, now)
    ensures PassCalls(a, c, was, now)
  {
    CallsOn(a, b, c);
  }

  lemma OnePass(a: seq<Call>, b: seq<Call>, was: bool, now: bool)
    requires a <= b && |a| < |b| && b[|a|].Tabled? && PassCalls(b[..|a| + 1], b, was, now)
    ensures now <==> was && Undisturbed(a, b)
    ensures Polls(b) == Polls(a) + 1 && LastTabled(b) == b[|a|]
  {
    hide Harmless;
    hide OnlyReads;
    var first := b[..|a| + 1];
    assert first[..|a|] == a;
    NoPoll(first, b);
    hide Polls;
    hide LastTabled;
    CallsOn(a, first, b);
    assert Undisturbed(a, first);
  }

  lemma OnePoll(a: seq<Call>, b: seq<Call>, was: bool, now: bool, kept: bool)
    requires PollCalls(a, b, was, now, kept)
    ensures RunCalls(a, b, was, now, kept)
    ensures Polls(b) == Polls(a) + 1 && LastTabled(b) == b[|a|]
  {
    var first := b[..|a| + 1];
    assert first[..|a|] == a;
    NoPoll(first, b);
    hide Polls;
    hide LastTabled;
    hide OnlyReads;
    CallsOn(a, first, b);
    PollIsHarmless(a, b[|a|]);
    assert first == a + [b[|a|]];
    hide Harmless;
    hide Undisturbed;
  }

  lemma PollIsHarmless(a: seq<Call>, c: Call)
    requires c.Tabled?
    ensures Harmless(a, a + [c]) && Undisturbed(a, a + [c])
  {
  }

  lemma RunThen(a: seq<Call>, b: seq<Call>, c: seq<Call>, was: bool, between: bool, now: bool, kept: bool, keptOn: bool)
    requires RunCalls(a, b, was, between, kept) && RunCalls(b, c, between, now, keptOn)
    ensures RunCalls(a, c, was, now, kept && keptOn)
  {
    CallsOn(a, b, c);
  }

  /** How many entries have an event. */
  function Events(marks: seq<Revents>): nat {
    if marks == [] then 0
    else Events(marks[..|marks| - 1]) + if marks[|marks| - 1] == Quiet then 0 else 1
  }

  lemma {:induction false} EventsCount(marks: seq<Revents>)
    ensures Events(marks) == 0 <==> forall i | 0 <= i < |marks| :: marks[i] == Revents.Quiet
  {
    if marks != [] {
      EventsCount(marks[..|marks| - 1]);
    }
  }

  function Marks(fds: seq<PollFd>): (marks: seq<Revents>)
    ensures |marks| == |fds| && forall i | 0 <= i < |fds| :: marks[i] == fds[i].revents
  {
    seq(|fds|, i requires 0 <= i < |fds| => fds[i].revents)
  }

  function Advance(conns: seq<Conn>, h: nat, n: nat): (r: seq<Conn>)
    requires h < |conns|
  {
    conns[h := conns[h].(pos := conns[h].pos + n)]
  }

  /** Reading `more` after `first`: the two reads together. */
  lemma ReadAfter(conns: seq<Conn>, h: nat, first: seq<byte>, more: seq<byte>)
    requires h < |conns| && conns[h].Valid() && first <= conns[h].Unread()
    ensures Advance(conns, h, |first|)[h].Valid()
    ensures Advance(conns, h, |first|)[h].Unread() == conns[h].Unread()[|first|..]
    ensures Advance(Advance(conns, h, |first|), h, |more|) == Advance(conns, h, |first + more|)
    ensures more <= conns[h].Unread()[|first|..] ==> first + more <= conns[h].Unread()
  {
    var u := conns[h].Unread();
    assert u == u[..|first|] + u[|first|..];
  }

  function Output(conns: seq<Conn>, h: nat, data: seq<byte>): (r: seq<Conn>)
    requires h < |conns|
  {
    conns[h := conns[h].(out := conns[h].out + data)]
  }

  function Close(conns: seq<Conn>, h: nat): (r: seq<Conn>)
    requires h < |conns|
  {
    conns[h := conns[h].(fd := -1, closes := conns[h].closes + 1)]
  }

  function Min(a: nat, b: nat): nat {
    if a < b then a else b
  }

  /** The open descriptors, each with its connection, and how often the others were closed. */
  predicate Numbered(conns: seq<Conn>, fdConn: map<int, nat>, own: set<int>, unused: nat) {
    && (forall fd | fd in fdConn ::
          0 <= fd < unused && fd !in own && fdConn[fd] < |conns| && conns[fdConn[fd]].fd == fd)
    && (forall h | 0 <= h < |conns| && conns[h].fd != -1 :: conns[h].fd in fdConn && fdConn[conns[h].fd] == h)
    && (forall h | 0 <= h < |conns| :: conns[h].closes == if conns[h].fd == -1 then 1 else 0)
    && (forall fd | fd in own :: 0 <= fd < unused)
  }

  lemma NumberedAdvance(conns: seq<Conn>, fdConn: map<int, nat>, own: set<int>, unused: nat, h: nat, n: nat)
    requires Numbered(conns, fdConn, own, unused) && h < |conns|
    ensures Numbered(Advance(conns, h, n), fdConn, own, unused)
  {
  }

  class Kernel {
    const orderly: bool
    const faultless: bool
    /** The parties of the connections, in the order in which these are made. */
    const peers: seq<Peer>
    const datagrams: seq<Datagram>
    /** The process's sockets that listen, and those that receive the datagrams. */
    const listening: set<int>
    const receiving: set<int>
    var news: News
    var next: nat
    var conns: seq<Conn>
    var fdConn: map<int, nat>
    var own: set<int>
    var sent: seq<Sent>
    /** The descriptors the last `poll` on the table reported readable. */
    var ready: set<int>
    /** The calls made so far. */
    var calls: seq<Call>
    /** Above every descriptor in use. */
    var unused: nat

    function errno(): Errno
      reads this`calls
    {
      if calls == [] then Errno.Other else calls[|calls| - 1].errno
    }

    ghost predicate Descriptors()
      reads this`conns, this`fdConn, this`own, this`unused
    {
      Numbered(conns, fdConn, own, unused)
    }

    predicate Arrivals()
      reads this`news, this`next, this`conns
    {
      && next <= news.queued <= |datagrams|
      && |news.arrived| == |conns| <= news.knocked <= |peers|
      && (forall h | 0 <= h < |conns| ::
            conns[h].peer == peers[h] && conns[h].pos <= news.arrived[h] && MayArrive(h, news.arrived[h]))
    }

    /** Connection `h` may carry `n` bytes at some moment. */
    predicate MayArrive(h: nat, n: nat)
      requires h < |peers|
    {
      n <= |peers[h].wire| && (peers[h].whole ==> StopsWell(peers[h].wire[..n]))
    }

    ghost predicate Valid()
      reads this`news, this`next, this`conns, this`fdConn, this`own, this`unused
    {
      (faultless ==> orderly) && Arrivals() && Descriptors()
    }

    /** What can be read now from an open connection. */
    ghost function Waiting(fd: int): (s: seq<byte>)
      requires Valid() && fd in fdConn
      reads this`news, this`next, this`conns, this`fdConn, this`own, this`unused
    {
      conns[fdConn[fd]].Here(news.arrived[fdConn[fd]])
    }

    /** A read from it now finds something: bytes, or the end. */
    ghost predicate Finds(fd: int)
      requires Valid() && fd in fdConn
      reads this`news, this`next, this`conns, this`fdConn, this`own, this`unused
    {
      var h := fdConn[fd];
      conns[h].pos < news.arrived[h] || Over(peers[h], conns[h].pos)
    }

    /** The bounds of an open connection. */
    lemma Bounds(fd: int)
      requires Valid() && fd in fdConn
      ensures fdConn[fd] < |conns| == |news.arrived| <= |peers| && (faultless ==> orderly)
      ensures var c, n := conns[fdConn[fd]], news.arrived[fdConn[fd]];
              && c.peer == peers[fdConn[fd]] && c.pos <= n <= |c.peer.wire|
              && (c.peer.whole ==> StopsWell(c.peer.wire[..n]))
    {
    }

    /** The connections are with the parties in their order. */
    lemma InOrder()
      requires Valid()
      ensures |conns| <= |peers| && forall h | 0 <= h < |conns| :: conns[h].peer == peers[h]
    {
    }

    lemma QueueBound()
      requires Valid()
      ensures next <= news.queued <= |datagrams|
    {
    }

    /** With no connection open, each has been closed once. */
    lemma AllClosed()
      requires Valid() && fdConn == map[]
      ensures forall h | 0 <= h < |conns| :: conns[h].closes == 1
    {
      forall h | 0 <= h < |conns|
        ensures conns[h].fd == -1
      {
      }
    }

    constructor (orderly: bool, faultless: bool, peers: seq<Peer>, datagrams: seq<Datagram>, own: set<int>, bound: nat,
                 listening: set<int>, receiving: set<int>)
      requires faultless ==> orderly
      requires forall fd | fd in own :: 0 <= fd < bound
      ensures Valid()
      ensures this.orderly == orderly && this.faultless == faultless
      ensures this.peers == peers && this.datagrams == datagrams && this.own == own
      ensures this.listening == listening && this.receiving == receiving
      ensures conns == [] && fdConn == map[] && sent == [] && next == 0 && ready == {} && calls == []
    {
      this.orderly := orderly;
      this.faultless := faultless;
      this.peers := peers;
      this.datagrams := datagrams;
      this.listening := listening;
      this.receiving := receiving;
      this.news := News([], 0, 0);
      this.next := 0;
      this.conns := [];
      this.fdConn := map[];
      this.own := own;
      this.sent := [];
      this.ready := {};
      this.calls := [];
      this.unused := bound;
    }

    /** Something more may arrive. */
    method Arrive()
      requires Valid()
      modifies this`news
      ensures Valid() && More(old(news), news)
    {
      var arrived: seq<nat> := [];
      for h := 0 to |conns|
        invariant |arrived| == h
        invariant forall j | 0 <= j < h :: news.arrived[j] <= arrived[j] && MayArrive(j, arrived[j])
      {
        var n: nat := *;
        arrived := arrived + [if news.arrived[h] <= n && MayArrive(h, n) then n else news.arrived[h]];
      }
      var queued: nat, knocked: nat := *, *;
      news := News(arrived,
                   if news.queued <= queued <= |datagrams| then queued else news.queued,
                   if news.knocked <= knocked <= |peers| then knocked else news.knocked);
    }

    /** A wait on connection `h` that ends because the peer sends something. */
    method ArriveOn(h: nat)
      requires Valid() && h < |conns|
      modifies this`news
      ensures Valid() && More(old(news), news)
      ensures conns[h].pos < |peers[h].wire| ==> conns[h].pos < news.arrived[h]
    {
      if conns[h].pos == news.arrived[h] {
        var n: nat := *;
        var most := if conns[h].pos < n && MayArrive(h, n) then n else |peers[h].wire|;
        assert peers[h].wire[..|peers[h].wire|] == peers[h].wire;
        news := news.(arrived := news.arrived[h := most]);
      }
    }

    /** An allocation made to read from `fd` has failed. */
    method Deny(fd: int)
      modifies this`calls
      ensures calls == old(calls) + [Denied(fd, NoMemory)]
    {
      calls := calls + [Denied(fd, NoMemory)];
    }

    /** The library sets `errno`. */
    method Assign(e: Errno)
      modifies this`calls
      ensures calls == old(calls) + [Assigned(e)]
    {
      calls := calls + [Assigned(e)];
    }

    /** `errno` after a call: a failing one sets it to anything. */
    method After(failed: bool) returns (e: Errno)
      ensures !failed ==> e == errno()
    {
      e := *;
      if !failed {
        e := errno();
      }
    }

    /** Whether another thread clears `poll_loop` now. */
    method Interference(on: bool) returns (cleared: bool)
      modifies this`calls
      ensures calls == if cleared then old(calls) + [Cleared(old(errno()))] else old(calls)
      ensures DrainedBy(old(calls), calls, on, on && !cleared, true) && errno() == old(errno())
      ensures forall fd :: On(old(calls), calls, fd)
    {
      cleared := *;
      if cleared {
        calls := calls + [Cleared(errno())];
        assert calls[|calls| - 1].Cleared?;
      }
    }

    /** Which sockets are readable now: any, but in a faultless run those that are. */
    method Look()
      requires Valid()
      modifies this`ready
      ensures faultless ==> forall fd | fd in fdConn :: fd in ready <==> Finds(fd)
      ensures faultless ==> forall fd | fd in own && fd in listening && |conns| < news.knocked :: fd in ready
      ensures faultless ==> forall fd | fd in own && fd in receiving && next < news.queued :: fd in ready
    {
      ready := *;
      if faultless {
        var finds := set fd | fd in fdConn && (conns[fdConn[fd]].pos < news.arrived[fdConn[fd]]
                                               || Over(peers[fdConn[fd]], conns[fdConn[fd]].pos));
        var awaited := (if |conns| < news.knocked then own * listening else {})
                       + (if next < news.queued then own * receiving else {});
        ready := ((ready - fdConn.Keys) + finds) + (awaited - fdConn.Keys);
      }
    }

    /** `poll` on the table: fills in `revents` of the first `n` entries and returns how many
        have an event. */
    method Poll(fds: array<PollFd>, n: nat) returns (ret: int)
      requires Valid() && n <= fds.Length
      modifies fds, this`ready, this`calls, this`news
      ensures Valid() && More(old(news), news)
      ensures forall i | 0 <= i < fds.Length :: fds[i].fd == old(fds[i].fd)
      ensures forall i | n <= i < fds.Length :: fds[i] == old(fds[i])
      ensures calls == old(calls) + [Tabled(ret, if ret < 0 then [] else Marks(fds[..n]), errno())]
      ensures ret >= 0 ==> ret == Events(Marks(fds[..n])) && errno() == old(errno())
      ensures ret >= 0 ==> forall i | 0 <= i < n :: fds[i].revents == Readable <==> fds[i].fd in ready
      ensures faultless ==> ret >= 0 && forall fd | fd in fdConn :: fd in ready <==> Finds(fd)
      ensures faultless ==> forall fd | fd in own && fd in listening && |conns| < news.knocked :: fd in ready
      ensures faultless ==> forall fd | fd in own && fd in receiving && next < news.queued :: fd in ready
    {
      Arrive();
      Look();
      var failed: bool := *;
      if failed && !faultless {
        var e := After(true);
        ret := -1;
        calls := calls + [Tabled(ret, [], e)];
        return;
      }
      Mark(fds, n);
      ret := Events(Marks(fds[..n]));
      calls := calls + [Tabled(ret, Marks(fds[..n]), errno())];
    }

    method Mark(fds: array<PollFd>, n: nat)
      requires n <= fds.Length
      modifies fds
      ensures forall i | 0 <= i < fds.Length :: fds[i].fd == old(fds[i].fd)
      ensures forall i | n <= i < fds.Length :: fds[i] == old(fds[i])
      ensures forall i | 0 <= i < n :: fds[i].revents == Readable <==> fds[i].fd in ready
    {
      for i := 0 to n
        invariant forall k | 0 <= k < fds.Length :: fds[k].fd == old(fds[k].fd)
        invariant forall k | n <= k < fds.Length :: fds[k] == old(fds[k])
        invariant forall k | 0 <= k < i :: fds[k].revents == Readable <==> fds[k].fd in ready
      {
        var other: bool := *;
        fds[i] := fds[i].(revents := if fds[i].fd in ready then Readable else if other then Trouble else Quiet);
      }
    }

    /** `poll` on one connection without timeout. */
    method PollOne(fd: int) returns (ret: int)
      requires Valid() && fd in fdConn
      modifies this`calls, this`news
      ensures Valid() && More(old(news), news)
      ensures orderly ==> ret != 0 && (ret > 0 ==> Finds(fd)) && (ret < 0 ==> errno() != WouldBlock)
      ensures faultless && (conns[fdConn[fd]].pos < |peers[fdConn[fd]].wire| || peers[fdConn[fd]].ends) ==> ret > 0
      ensures ret >= 0 ==> errno() == old(errno())
      ensures calls == old(calls) + [Awaited(fd, ret, errno())]
    {
      Bounds(fd);
      hide Numbered;
      hide MayArrive;
      hide More;
      var h := fdConn[fd];
      ghost var before := news;
      Arrive();
      var result: int := *;
      ret := result;
      if faultless {
        ghost var between := news;
        ArriveOn(h);
        MoreOn(before, between, news);
        ret := 1;
      }
      if orderly && (ret == 0 || !(conns[h].pos < news.arrived[h] || Over(peers[h], conns[h].pos))) {
        ret := -1;
      }
      var e := After(ret < 0);
      calls := calls + [Awaited(fd, ret, if ret < 0 && e == WouldBlock then Interrupted else e)];
    }

    /** `poll` for the handshake, whose bytes are not part of the stream. */
    method Wait() returns (ret: int)
      requires Valid()
      modifies this`calls, this`news
      ensures Valid() && More(old(news), news)
      ensures ret >= 0 ==> errno() == old(errno())
      ensures calls == old(calls) + [Waited(ret, errno())]
      ensures faultless ==> ret > 0
    {
      Arrive();
      ret := *;
      if faultless {
        ret := 1;
      }
      var e := After(ret < 0);
      calls := calls + [Waited(ret, e)];
    }

    /** `poll` for a socket that connects: its answer, and whether the peer hung up. */
    method WaitDial() returns (ret: int, hungUp: bool)
      requires Valid()
      modifies this`calls, this`news
      ensures Valid() && More(old(news), news)
      ensures calls == old(calls) + [Dialled(ret, hungUp, errno())]
    {
      Arrive();
      ret, hungUp := *, *;
      var e := After(ret < 0);
      calls := calls + [Dialled(ret, hungUp, e)];
    }

    /** How much a read returns that asks for `len` bytes: -1 for an error.  `e` is the value of
        `errno` then. */
    method Amount(h: nat, len: nat) returns (n: int, e: Errno)
      requires Valid() && h < |conns| && len > 0
      ensures -1 <= n <= len && (n >= 0 ==> n <= news.arrived[h] - conns[h].pos && e == errno())
      ensures orderly && n == 0 ==> Over(peers[h], conns[h].pos)
      ensures orderly && n < 0 && e == WouldBlock ==>
                conns[h].pos == news.arrived[h] && !Over(peers[h], conns[h].pos)
      ensures faultless && conns[h].pos == news.arrived[h] ==>
                if Over(peers[h], conns[h].pos) then n == 0 else n < 0 && e == WouldBlock
      ensures faultless && conns[h].pos < news.arrived[h] ==> n > 0
    {
      var most, ended := Min(len, news.arrived[h] - conns[h].pos), Over(peers[h], conns[h].pos);
      n := *;
      e := errno();
      if faultless && !(0 < n <= most) {
        n := if most > 0 then most else if ended then 0 else -1;
      }
      if !(0 <= n <= most) || (orderly && n == 0 && !ended) {
        n := -1;
        e := After(true);
        if faultless || (orderly && e == WouldBlock && (most > 0 || ended)) {
          e := if most == 0 && !ended then WouldBlock else Errno.Other;
        }
      }
    }

    /** `recv` of a 32-bit word into a local variable. */
    method RecvWord(fd: int) returns (ret: int, data: seq<byte>)
      requires Valid() && fd in fdConn
      modifies this`conns, this`calls
      ensures Valid()
      ensures -1 <= ret <= WORD_SIZE
      ensures |data| == (if ret < 0 then 0 else ret) && data <= old(Waiting(fd))
      ensures conns == Advance(old(conns), fdConn[fd], |data|)
      ensures orderly && ret > 0 ==> ret == Min(|old(Waiting(fd))|, WORD_SIZE)
      ensures orderly && ret == 0 ==> old(Waiting(fd)) == [] && Over(peers[fdConn[fd]], news.arrived[fdConn[fd]])
      ensures orderly && ret < 0 && errno() == WouldBlock ==>
                old(Waiting(fd)) == [] && !Over(peers[fdConn[fd]], news.arrived[fdConn[fd]])
      ensures faultless && old(Waiting(fd)) == [] ==>
                if Over(peers[fdConn[fd]], news.arrived[fdConn[fd]]) then ret == 0 else ret < 0 && errno() == WouldBlock
      ensures faultless && old(Waiting(fd)) != [] ==> ret > 0
      ensures ret >= 0 ==> errno() == old(errno())
      ensures calls == old(calls) + [HeadRead(fd, ret, errno())]
    {
      Bounds(fd);
      hide Numbered;
      hide MayArrive;
      var h := fdConn[fd];
      var e;
      ret, e := Amount(h, WORD_SIZE);
      if ret > 0 && orderly {
        ret := Min(news.arrived[h] - conns[h].pos, WORD_SIZE);
      }
      data := if ret > 0 then conns[h].peer.wire[conns[h].pos..conns[h].pos + ret] else [];
      NumberedAdvance(conns, fdConn, own, unused, h, |data|);
      conns := Advance(conns, h, |data|);
      calls := calls + [HeadRead(fd, ret, e)];
    }

    /** `recv` into a buffer: any non-empty part of what has arrived, the end of the
        stream, or an error. */
    method Recv(fd: int, buf: array?<byte>, off: nat, len: nat) returns (ret: int)
      requires Valid() && fd in fdConn
      requires len > 0 ==> buf != null && off + len <= buf.Length
      modifies this`conns, this`calls, if buf != null then {buf} else {}
      ensures Valid()
      ensures -1 <= ret <= len
      ensures ret <= 0 ==> conns == old(conns)
      ensures ret > 0 ==> && conns == Advance(old(conns), fdConn[fd], ret)
                          && ret <= |old(Waiting(fd))|
                          && buf[off..off + ret] == old(Waiting(fd))[..ret]
      ensures buf != null ==> forall k | 0 <= k < buf.Length && !(off <= k < off + ret) :: buf[k] == old(buf[k])
      ensures len == 0 ==> ret == 0
      ensures orderly && ret == 0 && len > 0 ==>
                old(Waiting(fd)) == [] && Over(peers[fdConn[fd]], news.arrived[fdConn[fd]])
      ensures orderly && ret < 0 && errno() == WouldBlock ==>
                old(Waiting(fd)) == [] && !Over(peers[fdConn[fd]], news.arrived[fdConn[fd]])
      ensures faultless && len > 0 && old(Waiting(fd)) == [] ==>
                if Over(peers[fdConn[fd]], news.arrived[fdConn[fd]]) then ret == 0 else ret < 0 && errno() == WouldBlock
      ensures faultless && len > 0 && old(Waiting(fd)) != [] ==> ret > 0
      ensures ret >= 0 ==> errno() == old(errno())
      ensures calls == old(calls) + [BodyRead(fd, ret, errno())]
    {
      if len == 0 {
        calls := calls + [BodyRead(fd, 0, errno())];
        return 0;
      }
      Bounds(fd);
      hide Numbered;
      hide MayArrive;
      var h := fdConn[fd];
      var e;
      ret, e := Amount(h, len);
      if ret > 0 {
        var data := conns[h].peer.wire[conns[h].pos..conns[h].pos + ret];
        forall k | 0 <= k < ret {
          buf[off + k] := data[k];
        }
        assert buf[off..off + ret] == data == old(Waiting(fd))[..ret];
        NumberedAdvance(conns, fdConn, own, unused, h, ret);
        conns := Advance(conns, h, ret);
      }
      calls := calls + [BodyRead(fd, ret, e)];
    }

    /** `accept`: takes the next connection, gives it a descriptor not in use. */
    method Accept() returns (fd: int, peer: Addr)
      requires Valid()
      modifies this`conns, this`fdConn, this`news, this`unused, this`calls
      ensures Valid()
      ensures fd == -1 ==> unchanged(`conns) && unchanged(`fdConn) && unchanged(`news)
      ensures fd == -1 && faultless ==> |conns| == news.knocked
      ensures fd != -1 ==> Made(fd, old(conns), old(fdConn), old(news)) && peer == peers[|old(conns)|].addr
      ensures calls == old(calls) + [Opened(fd, errno())]
    {
      var absent: bool := *;
      if |conns| == news.knocked || (absent && !faultless) {
        var e := After(true);
        calls := calls + [Opened(-1, e)];
        return -1, Addr(0, 0);
      }
      peer := peers[|conns|].addr;
      fd := Make();
      calls := calls + [Opened(fd, errno())];
    }

    /** A connection has been made with the next party. */
    ghost predicate Made(fd: int, conns: seq<Conn>, fdConn: map<int, nat>, news: News)
      reads this`conns, this`fdConn, this`own, this`news
    {
      && fd >= 0 && fd !in fdConn && fd !in own && |conns| < |peers|
      && this.fdConn == fdConn[fd := |conns|]
      && this.conns == conns + [Conn(peers[|conns|], 0, [], fd, 0)]
      && |this.news.arrived| == |news.arrived| + 1 && this.news.arrived[..|news.arrived|] == news.arrived
      && this.news.queued == news.queued && this.news.knocked >= news.knocked
    }

    lemma NothingYet()
      ensures forall h | 0 <= h < |peers| :: MayArrive(h, 0)
    {
      forall h | 0 <= h < |peers|
        ensures MayArrive(h, 0)
      {
        assert peers[h].wire[..0] == [];
      }
    }

    method Make() returns (fd: int)
      requires Valid() && |conns| < |peers|
      modifies this`conns, this`fdConn, this`news, this`unused
      ensures Valid() && Made(fd, old(conns), old(fdConn), old(news))
    {
      NothingYet();
      hide MayArrive;
      var number: int := *;
      fd := if number < 0 || number in fdConn || number in own then unused else number;
      unused := if fd < unused then unused else fd + 1;
      news := News(news.arrived + [0], news.queued, if |conns| < news.knocked then news.knocked else |conns| + 1);
      fdConn := fdConn[fd := |conns|];
      conns := conns + [Conn(peers[|conns|], 0, [], fd, 0)];
      assert Arrivals();
      hide Arrivals;
      assert Descriptors();
    }

    /** `socket` and what makes it ready for `connect`: a descriptor not in use, for the
        next of the connections to come. */
    method Socket() returns (fd: int)
      requires Valid()
      modifies this`conns, this`fdConn, this`news, this`unused, this`calls
      ensures Valid()
      ensures fd == -1 ==> unchanged(`conns) && unchanged(`fdConn) && unchanged(`news)
      ensures fd == -1 && faultless ==> |conns| == |peers|
      ensures fd != -1 ==> Made(fd, old(conns), old(fdConn), old(news))
      ensures calls == old(calls) + [Opened(fd, errno())]
    {
      var absent: bool := *;
      if |conns| == |peers| || (absent && !faultless) {
        var e := After(true);
        calls := calls + [Opened(-1, e)];
        return -1;
      }
      fd := Make();
      calls := calls + [Opened(fd, errno())];
    }

    /** `recv` of the server's reply. */
    method RecvReply() returns (r: Reply)
      modifies this`calls
      ensures calls == old(calls) + [Replied(r, errno())]
    {
      r := *;
      var e := After(r == ReplyFailed);
      calls := calls + [Replied(r, e)];
    }

    /** `close` on an accepted connection; the descriptor must be open. */
    method CloseConn(fd: int)
      requires Valid() && fd in fdConn
      modifies this`conns, this`fdConn
      ensures Valid()
      ensures conns == Close(old(conns), old(fdConn)[fd])
      ensures fdConn == old(fdConn) - {fd}
    {
      var h := fdConn[fd];
      fdConn := fdConn - {fd};
      conns := Close(conns, h);
    }

    /** `close` on one of the process's own sockets, which must be open. */
    method CloseOwn(fd: int)
      requires Valid() && fd in own
      modifies this`own
      ensures Valid() && own == old(own) - {fd}
    {
      own := own - {fd};
    }

    /** A call that succeeds or fails. */
    method Try(task: Task) returns (ok: bool)
      modifies this`calls
      ensures calls == old(calls) + [Tried(task, ok, errno())]
      ensures ok ==> errno() == old(errno())
      ensures faultless ==> ok
    {
      ok := *;
      if faultless {
        ok := true;
      }
      var e := After(!ok);
      calls := calls + [Tried(task, ok, e)];
    }

    /** `send` of a zero byte. */
    method SendByte(fd: int)
      requires Valid() && fd in fdConn
      modifies this`conns, this`calls
      ensures Valid()
      ensures |calls| == |old(calls)| + 1 && old(calls) <= calls
      ensures var c := calls[|old(calls)|];
              && c.Tried? && c.task == SendZero && (faultless ==> c.ok)
              && conns == if c.ok then Output(old(conns), fdConn[fd], [0]) else old(conns)
    {
      var ok := Try(SendZero);
      if ok {
        conns := Output(conns, fdConn[fd], [0]);
      }
    }

    /** `recv` of the client's record. */
    method RecvRecord(socket: int) returns (r: RecordRead)
      modifies this`calls
      ensures calls == old(calls) + [Shaken(r, errno())]
      ensures r.Misfit? ==> r.left.tcpSocket == socket
    {
      var result: RecordRead := *;
      r := if result.Misfit? then Misfit(result.left.(tcpSocket := socket), result.behind) else result;
      var e := After(r == Failed);
      calls := calls + [Shaken(r, e)];
    }

    /** `send` of the first `n` bytes of a buffer: all of them or an error. */
    method Send(fd: int, buf: array<byte>, n: nat) returns (ret: int)
      requires Valid() && fd in fdConn && n <= buf.Length
      modifies this`conns, this`calls
      ensures Valid()
      ensures ret == n || ret == -1
      ensures ret == n ==> conns == Output(old(conns), fdConn[fd], buf[..n])
      ensures ret == -1 ==> conns == old(conns)
      ensures calls == old(calls) + [Tried(SendFrame, ret == n, errno())]
      ensures faultless ==> ret == n
    {
      var ok := Try(SendFrame);
      if !ok {
        return -1;
      }
      conns := Output(conns, fdConn[fd], buf[..n]);
      return n;
    }

    /** `sendto`: one datagram or an error. */
    method SendTo(socket: int, buf: array<byte>, n: nat, dest: Addr) returns (ret: int)
      requires n <= buf.Length
      modifies this`sent, this`calls
      ensures ret == n || ret == -1
      ensures ret == n ==> sent == old(sent) + [Sent(socket, dest, buf[..n])]
      ensures ret == -1 ==> sent == old(sent)
      ensures calls == old(calls) + [Tried(SendDatagram, ret == n, errno())]
      ensures faultless ==> ret == n
    {
      var ok := Try(SendDatagram);
      if !ok {
        return -1;
      }
      sent := sent + [Sent(socket, dest, buf[..n])];
      return n;
    }

    /** `recvfrom` with MSG_PEEK for a 32-bit word: looks at the first queued datagram. */
    method PeekWord() returns (ret: int, data: seq<byte>)
      requires Valid()
      modifies this`calls
      ensures -1 <= ret <= WORD_SIZE
      ensures ret >= 0 ==> && next < news.queued <= |datagrams| && errno() == old(errno())
                           && |data| == ret == Min(|datagrams[next].data|, WORD_SIZE)
                           && data <= datagrams[next].data
      ensures faultless && next < news.queued ==> ret >= 0
      ensures orderly && ret < 0 && errno() == WouldBlock ==> next == news.queued
      ensures faultless && next == news.queued ==> errno() == WouldBlock
      ensures calls == old(calls) + [Peeked(ret, errno())]
    {
      var absent: bool := *;
      if next == news.queued || (absent && !faultless) {
        var e := After(true);
        if faultless || (orderly && e == WouldBlock && next < news.queued) {
          e := if next == news.queued then WouldBlock else Errno.Other;
        }
        calls := calls + [Peeked(-1, e)];
        return -1, [];
      }
      var n := Min(|datagrams[next].data|, WORD_SIZE);
      calls := calls + [Peeked(n, errno())];
      return n, datagrams[next].data[..n];
    }

    /** `recvfrom`: takes the first queued datagram, cut to `len` bytes. */
    method RecvFrom(buf: array<byte>, len: nat) returns (ret: int, source: Addr)
      requires Valid() && len <= buf.Length && next < news.queued
      modifies this`next, this`calls, buf
      ensures Valid() && old(next) < |datagrams|
      ensures ret == -1 || ret == Min(|datagrams[old(next)].data|, len)
      ensures ret == -1 ==> next == old(next) && !faultless
      ensures calls == old(calls) + [Pulled(len, ret, errno())]
      ensures ret >= 0 ==> && next == old(next) + 1 && source == datagrams[old(next)].source
                           && errno() == old(errno())
                           && buf[..ret] == datagrams[old(next)].data[..ret]
    {
      var absent: bool := *;
      if absent && !faultless {
        var e := After(true);
        calls := calls + [Pulled(len, -1, e)];
        return -1, Addr(0, 0);
      }
      var d := datagrams[next];
      var n := Min(|d.data|, len);
      forall k | 0 <= k < n {
        buf[k] := d.data[k];
      }
      next := next + 1;
      calls := calls + [Pulled(len, n, errno())];
      return n, d.source;
    }
  }
}
