/**
 The handshake between one server and any number of clients, as a system of steps.
 The server handles one connection at a time: with a full table it sends a single byte
 and closes, otherwise it sends its record, waits, and adds the client if one read
 returns exactly a record.  A client reads once, answers a whole record with its own,
 and takes a single byte for "too many connections".
 */
module Handshake {
  import opened Wire
  import Sockets

  type Descriptor = n: nat | n < LIMIT31

  // ---------- the field `tcp_socket` of the entry the server reads into ----------

  /** The four bytes of the field, at offset `at`, when the entry held the number `fd` and
      `got` has been read over it. */
  function Overwritten(fd: Descriptor, got: seq<byte>, at: nat): (field: seq<byte>)
    ensures |field| == WORD_SIZE
  {
    seq(WORD_SIZE, i requires 0 <= i < WORD_SIZE => if at + i < |got| then got[at + i] else Header(fd)[i])
  }

  /** The number that `close` is called with when the read is then taken for a failure. */
  function NumberLeft(fd: Descriptor, got: seq<byte>, at: nat): int {
    Int32(Word(Overwritten(fd, got, at)))
  }

  /** The read has stopped before the field, or what it has written of it is the same. */
  predicate LeavesNumber(fd: Descriptor, got: seq<byte>, at: nat) {
    forall i | 0 <= i < WORD_SIZE && at + i < |got| :: got[at + i] == Header(fd)[i]
  }

  /** The descriptor closed on the error path is the one accepted exactly then. */
  lemma NumberLeftIff(fd: Descriptor, got: seq<byte>, at: nat)
    ensures NumberLeft(fd, got, at) == fd <==> LeavesNumber(fd, got, at)
  {
    WordOfHeader(fd);
    var field := Overwritten(fd, got, at);
    HeaderOfWord(field);
    assert field == Header(fd) <==> LeavesNumber(fd, got, at);
  }

  // ---------- the system ----------

  /** What the server decided when it accepted the connection. */
  datatype Verdict = Pending | Admitted | TurnedAway

  datatype Stage = Waiting | Answering | Success | TooMany | Failed

  datatype Party = Party(
    /** the client's own record */
    mine: seq<byte>,
    stage: Stage,
    /** what the client's read returned */
    held: seq<byte>,
    verdict: Verdict,
    /** the descriptor the server got for it */
    fd: Descriptor,
    /** the number of clients in the table when the server accepted the connection */
    met: nat,
    /** bytes under way */
    toClient: seq<byte>,
    toServer: seq<byte>,
    serverClosed: bool,
    clientClosed: bool)
  {
    /** The server has an open descriptor for it. */
    predicate Open() {
      verdict == Admitted && !serverClosed
    }
  }

  datatype Server = Ready | Greeting(c: nat) | Listening(c: nat)

  datatype World = World(
    /** of a record, and the offset of `tcp_socket` in it */
    size: nat,
    field: nat,
    capacity: nat,
    record: seq<byte>,
    server: Server,
    parties: seq<Party>,
    /** the clients in the table, each with the record received from it */
    table: seq<(nat, seq<byte>)>)

  datatype Action =
    | Arrive(mine: seq<byte>)
    | Accept(c: nat, ok: bool, fd: Descriptor)
    | Greet(ok: bool)
    | Listen(n: nat, ok: bool)
    | Leave(k: nat)
    | Read(c: nat, n: nat, ok: bool)
    | Answer(c: nat, ok: bool)
    | SendMore(c: nat, data: seq<byte>)

  function Start(size: nat, field: nat, capacity: nat, record: seq<byte>): World {
    World(size, field, capacity, record, Ready, [], [])
  }

  /** `close` on a number: whoever's descriptor it is. */
  function Shut(w: World, number: int): (v: World)
    ensures |v.parties| == |w.parties| && v == w.(parties := v.parties)
    ensures forall c | 0 <= c < |w.parties| ::
              v.parties[c] == if w.parties[c].Open() && w.parties[c].fd == number
                              then w.parties[c].(serverClosed := true)
                              else w.parties[c]
  {
    w.(parties := seq(|w.parties|, c requires 0 <= c < |w.parties| =>
      if w.parties[c].Open() && w.parties[c].fd == number then w.parties[c].(serverClosed := true) else w.parties[c]))
  }

  /** The bytes that the server's read of the client's record returns. */
  function Got(w: World, n: nat, ok: bool): seq<byte>
    requires Enabled(w, Listen(n, ok))
  {
    if ok then w.parties[w.server.c].toServer[..n] else []
  }

  /** The server takes them for anything but a record. */
  predicate Refuses(w: World, a: Action)
    requires Enabled(w, a)
  {
    a.Listen? && !(a.ok && a.n == w.size && a.n > 0)
  }

  /** A read of at most one byte more than a record: some of what has arrived, or the end
      of a closed stream. */
  predicate Readable(w: World, arrived: seq<byte>, closed: bool, n: nat) {
    if n == 0 then closed && arrived == [] else n <= Sockets.Min(|arrived|, w.size + 1)
  }

  predicate Enabled(w: World, a: Action) {
    match a
    case Arrive(mine) => |mine| == w.size
    case Accept(c, _, fd) =>
      && w.server.Ready? && c < |w.parties| && w.parties[c].verdict == Pending
      && forall d | 0 <= d < |w.parties| && w.parties[d].Open() :: w.parties[d].fd != fd
    case Greet(_) => w.server.Greeting? && w.server.c < |w.parties|
    case Listen(n, ok) =>
      w.server.Listening? && w.server.c < |w.parties|
      && (ok ==> Readable(w, w.parties[w.server.c].toServer, w.parties[w.server.c].clientClosed, n))
    case Leave(k) => w.server.Ready? && k < |w.table| && w.table[k].0 < |w.parties|
    case Read(c, n, ok) =>
      c < |w.parties| && w.parties[c].stage == Waiting
      && (ok ==> Readable(w, w.parties[c].toClient, w.parties[c].serverClosed, n))
    case Answer(c, _) => c < |w.parties| && w.parties[c].stage == Answering
    case SendMore(c, _) => c < |w.parties| && w.parties[c].stage == Success
  }

  function Put(w: World, c: nat, p: Party): World
    requires c < |w.parties|
  {
    w.(parties := w.parties[c := p])
  }

  function Do(w: World, a: Action): World
    requires Enabled(w, a)
  {
    match a
    case Arrive(mine) => w.(parties := w.parties + [Party(mine, Waiting, [], Pending, 0, 0, [], [], false, false)])
    case Accept(c, ok, fd) =>
      var p := w.parties[c];
      if |w.table| >= w.capacity
      then
        var sent := if ok then [0] else [];
        Put(w, c, p.(verdict := TurnedAway, met := |w.table|, toClient := sent, serverClosed := true))
      else Put(w, c, p.(verdict := Admitted, fd := fd, met := |w.table|)).(server := Greeting(c))
    case Greet(ok) =>
      var c := w.server.c;
      var p := w.parties[c];
      if ok then Put(w, c, p.(toClient := p.toClient + w.record)).(server := Listening(c))
      else Shut(w, p.fd).(server := Ready)
    case Listen(n, ok) =>
      var c := w.server.c;
      var p := w.parties[c];
      if ok && n == w.size && n > 0
      then Put(w, c, p.(toServer := p.toServer[n..])).(server := Ready, table := w.table + [(c, p.toServer[..n])])
      else
        var got := Got(w, n, ok);
        Shut(Put(w, c, p.(toServer := p.toServer[|got|..])), NumberLeft(p.fd, got, w.field)).(server := Ready)
    case Leave(k) =>
      var c := w.table[k].0;
      Shut(w, w.parties[c].fd).(table := w.table[..k] + w.table[k + 1..])
    case Read(c, n, ok) =>
      var p := w.parties[c];
      if !ok || n == 0 then Put(w, c, p.(stage := Failed, clientClosed := true))
      else
        var q := p.(held := p.toClient[..n], toClient := p.toClient[n..]);
        if n == w.size then Put(w, c, q.(stage := Answering))
        else if n == 1 then Put(w, c, q.(stage := TooMany, clientClosed := true))
        else Put(w, c, q.(stage := Failed, clientClosed := true))
    case Answer(c, ok) =>
      var p := w.parties[c];
      if ok then Put(w, c, p.(stage := Success, toServer := p.toServer + p.mine))
      else Put(w, c, p.(stage := Failed, clientClosed := true))
    case SendMore(c, data) => Put(w, c, w.parties[c].(toServer := w.parties[c].toServer + data))
  }

  predicate InTable(w: World, c: nat) {
    exists k :: 0 <= k < |w.table| && w.table[k].0 == c
  }

  /** What has happened between the server and one client. */
  predicate PartyInv(w: World, c: nat)
    requires c < |w.parties|
  {
    var p := w.parties[c];
    && |p.mine| == w.size
    // what the server has sent: nothing, its record, or one byte
    && (p.verdict == Pending ==> p.held == [] && p.toClient == [] && !p.serverClosed)
    && (p.verdict == TurnedAway ==> p.met >= w.capacity && p.held + p.toClient in {[], [0]})
    && (p.verdict == Admitted ==> p.met < w.capacity && p.held + p.toClient in {[], w.record})
    && (w.server == Greeting(c) ==> p.verdict == Admitted && p.held + p.toClient == [])
    && (w.server == Listening(c) ==> p.verdict == Admitted)
    // what the client has made of it
    && (p.stage == Waiting ==> p.held == [])
    && (p.stage in {Answering, Success} ==> |p.held| == w.size)
    && (p.stage == TooMany ==> |p.held| == 1 != w.size)
    // what the client has sent
    && (p.stage == Success && w.server == Listening(c) ==> p.mine <= p.toServer)
    && (p.stage != Success ==> p.toServer == [])
  }

  /** No two open descriptors have the same number. */
  predicate NumbersInv(w: World) {
    forall c, d | 0 <= c < d < |w.parties| && w.parties[c].Open() && w.parties[d].Open() ::
      w.parties[c].fd != w.parties[d].fd
  }

  predicate Inv(w: World) {
    && w.size > 1 && |w.record| == w.size && NumbersInv(w)
    && |w.table| <= w.capacity
    && (w.server.Greeting? || w.server.Listening? ==>
          && w.server.c < |w.parties| && |w.table| < w.capacity
          && !InTable(w, w.server.c) && !w.parties[w.server.c].serverClosed)
    && (forall c | 0 <= c < |w.parties| :: PartyInv(w, c))
    && (forall k | 0 <= k < |w.table| ::
          && w.table[k].0 < |w.parties| && w.parties[w.table[k].0].stage == Success
          && w.parties[w.table[k].0].verdict == Admitted
          && w.table[k].1 == w.parties[w.table[k].0].mine)
    && (forall j, k | 0 <= j < k < |w.table| :: w.table[j].0 != w.table[k].0)
  }

  /** Nothing that concerns client `c` has changed between `w` and `v`, but that the server's
      descriptor for it may have been closed. */
  predicate Untouched(w: World, v: World, c: nat) {
    && c < |w.parties| <= |v.parties|
    && (v.parties[c] == w.parties[c] || (w.parties[c].Open() && v.parties[c] == w.parties[c].(serverClosed := true)))
    && v.size == w.size && v.capacity == w.capacity && v.record == w.record
    && (InTable(v, c) <==> InTable(w, c))
    && (v.server == Greeting(c) ==> w.server == Greeting(c))
    && (v.server == Listening(c) ==> w.server == Listening(c))
  }

  lemma UntouchedKept(w: World, v: World, c: nat)
    requires Untouched(w, v, c) && PartyInv(w, c)
    ensures PartyInv(v, c)
  {
  }

  /** A step of client `c` alone keeps the invariant if it keeps that client's part. */
  lemma ClientOnly(w: World, c: nat, p: Party)
    requires Inv(w) && c < |w.parties|
    requires PartyInv(Put(w, c, p), c)
    requires p.mine == w.parties[c].mine && p.verdict == w.parties[c].verdict
    requires p.fd == w.parties[c].fd && p.serverClosed == w.parties[c].serverClosed
    requires w.parties[c].stage == Success ==> p.stage == Success
    ensures Inv(Put(w, c, p))
  {
    var v := Put(w, c, p);
    assert forall d: nat :: InTable(v, d) <==> InTable(w, d);
    forall d | 0 <= d < |v.parties| && d != c
      ensures PartyInv(v, d)
    {
      UntouchedKept(w, v, d);
    }
  }

  lemma ArriveStep(w: World, mine: seq<byte>)
    requires Inv(w) && Enabled(w, Arrive(mine))
    ensures Inv(Do(w, Arrive(mine)))
  {
    var v := Do(w, Arrive(mine));
    assert forall d: nat :: InTable(v, d) <==> InTable(w, d);
    forall d | 0 <= d < |w.parties|
      ensures PartyInv(v, d)
    {
      UntouchedKept(w, v, d);
    }
  }

  lemma ReadStep(w: World, c: nat, n: nat, ok: bool)
    requires Inv(w) && Enabled(w, Read(c, n, ok))
    ensures Inv(Do(w, Read(c, n, ok)))
  {
    var v := Do(w, Read(c, n, ok));
    assert PartyInv(w, c);
    ReadParty(w, c, n, ok);
    hide PartyInv;
    hide Inv;
    ClientOnly(w, c, v.parties[c]);
  }

  lemma ReadParty(w: World, c: nat, n: nat, ok: bool)
    requires Enabled(w, Read(c, n, ok)) && PartyInv(w, c)
    ensures PartyInv(Do(w, Read(c, n, ok)), c)
  {
    var v, p := Do(w, Read(c, n, ok)), w.parties[c];
    assert InTable(v, c) <==> InTable(w, c);
    assert p.held + p.toClient == p.toClient;
    if ok && n > 0 {
      assert p.toClient[..n] + p.toClient[n..] == p.toClient;
    }
  }

  lemma AnswerStep(w: World, c: nat, ok: bool)
    requires Inv(w) && Enabled(w, Answer(c, ok))
    ensures Inv(Do(w, Answer(c, ok)))
  {
    var v := Do(w, Answer(c, ok));
    assert PartyInv(w, c);
    assert InTable(v, c) <==> InTable(w, c);
    ClientOnly(w, c, v.parties[c]);
  }

  lemma SendMoreStep(w: World, c: nat, data: seq<byte>)
    requires Inv(w) && Enabled(w, SendMore(c, data))
    ensures Inv(Do(w, SendMore(c, data)))
  {
    var v := Do(w, SendMore(c, data));
    assert PartyInv(w, c);
    assert InTable(v, c) <==> InTable(w, c);
    ClientOnly(w, c, v.parties[c]);
  }

  lemma AcceptStep(w: World, c: nat, ok: bool, fd: Descriptor)
    requires Inv(w) && Enabled(w, Accept(c, ok, fd))
    ensures Inv(Do(w, Accept(c, ok, fd)))
  {
    var v := Do(w, Accept(c, ok, fd));
    assert PartyInv(w, c) && !InTable(w, c);
    assert w.parties[c].held == [] && forall s: seq<byte> :: [] + s == s;
    assert forall d: nat :: InTable(v, d) <==> InTable(w, d);
    forall d | 0 <= d < |v.parties| && d != c
      ensures PartyInv(v, d)
    {
      UntouchedKept(w, v, d);
    }
  }

  lemma GreetStep(w: World, ok: bool)
    requires Inv(w) && Enabled(w, Greet(ok))
    ensures Inv(Do(w, Greet(ok)))
  {
    var v, c := Do(w, Greet(ok)), w.server.c;
    assert PartyInv(w, c);
    assert w.parties[c].held == [] && w.parties[c].toClient == [];
    assert [] + w.record == w.record;
    assert forall d: nat :: InTable(v, d) <==> InTable(w, d);
    forall d | 0 <= d < |v.parties| && d != c
      ensures PartyInv(v, d)
    {
      UntouchedKept(w, v, d);
    }
  }

  lemma AddStep(w: World, n: nat, ok: bool)
    requires Inv(w) && Enabled(w, Listen(n, ok)) && !Refuses(w, Listen(n, ok))
    ensures Inv(Do(w, Listen(n, ok)))
  {
    var v, c := Do(w, Listen(n, ok)), w.server.c;
    assert PartyInv(w, c);
    assert v.table[|w.table|].0 == c;
    assert forall k | 0 <= k < |w.table| :: v.table[k] == w.table[k];
    assert w.table == v.table[..|w.table|];
    forall d | 0 <= d < |v.parties| && d != c
      ensures PartyInv(v, d)
    {
      assert InTable(v, d) <==> InTable(w, d);
      UntouchedKept(w, v, d);
    }
  }

  lemma RefuseStep(w: World, n: nat, ok: bool)
    requires Inv(w) && Enabled(w, Listen(n, ok)) && Refuses(w, Listen(n, ok))
    ensures Inv(Do(w, Listen(n, ok)))
  {
    hide NumberLeft;
    var v, c := Do(w, Listen(n, ok)), w.server.c;
    assert PartyInv(w, c) && PartyInv(v, c);
    assert v.table == w.table;
    forall d | 0 <= d < |v.parties| && d != c
      ensures PartyInv(v, d)
    {
      assert InTable(v, d) <==> InTable(w, d);
      UntouchedKept(w, v, d);
    }
    hide PartyInv;
  }

  /** A table without its entry `k`. */
  lemma WithoutEntry(table: seq<(nat, seq<byte>)>, k: nat, d: nat)
    requires k < |table| && forall i, j | 0 <= i < j < |table| :: table[i].0 != table[j].0
    ensures var rest := table[..k] + table[k + 1..];
            && (forall j | 0 <= j < |rest| :: rest[j] == table[if j < k then j else j + 1])
            && ((exists j :: 0 <= j < |rest| && rest[j].0 == d) <==>
                  d != table[k].0 && exists j :: 0 <= j < |table| && table[j].0 == d)
  {
    var rest := table[..k] + table[k + 1..];
    if d != table[k].0 && exists j :: 0 <= j < |table| && table[j].0 == d {
      var j :| 0 <= j < |table| && table[j].0 == d;
      assert rest[if j < k then j else j - 1].0 == d;
    }
  }

  lemma LeftTable(w: World, k: nat)
    requires Inv(w) && Enabled(w, Leave(k))
    ensures forall d: nat :: InTable(Do(w, Leave(k)), d) <==> InTable(w, d) && d != w.table[k].0
  {
    hide PartyInv;
    hide NumbersInv;
    forall d: nat
      ensures InTable(Do(w, Leave(k)), d) <==> InTable(w, d) && d != w.table[k].0
    {
      WithoutEntry(w.table, k, d);
    }
  }

  lemma LeaveStep(w: World, k: nat)
    requires Inv(w) && Enabled(w, Leave(k))
    ensures Inv(Do(w, Leave(k)))
  {
    var v, c := Do(w, Leave(k)), w.table[k].0;
    assert PartyInv(w, c);
    LeftTable(w, k);
    WithoutEntry(w.table, k, c);
    hide InTable;
    hide PartyInv;
    forall d | 0 <= d < |v.parties|
      ensures PartyInv(v, d)
    {
      if d == c {
        LeftParty(w, v, c);
      } else {
        UntouchedKept(w, v, d);
      }
    }
  }

  lemma LeftParty(w: World, v: World, c: nat)
    requires c < |w.parties| && PartyInv(w, c) && w.parties[c].verdict == Admitted && w.server.Ready?
    requires |v.parties| == |w.parties| && v.parties[c] in {w.parties[c], w.parties[c].(serverClosed := true)}
    requires v.server.Ready? && v.size == w.size && v.capacity == w.capacity && v.record == w.record
    ensures PartyInv(v, c)
  {
  }

  lemma EveryStep(w: World, a: Action)
    requires Inv(w) && Enabled(w, a)
    ensures Inv(Do(w, a))
  {
    hide Inv;
    hide Do;
    match a
    case Accept(c, ok, fd) => AcceptStep(w, c, ok, fd);
    case Greet(ok) => GreetStep(w, ok);
    case Listen(n, ok) =>
      if Refuses(w, a) {
        RefuseStep(w, n, ok);
      } else {
        AddStep(w, n, ok);
      }
    case Leave(k) => LeaveStep(w, k);
    case Arrive(mine) => ArriveStep(w, mine);
    case Read(c, n, ok) => ReadStep(w, c, n, ok);
    case Answer(c, ok) => AnswerStep(w, c, ok);
    case SendMore(c, data) => SendMoreStep(w, c, data);
  }

  predicate Possible(w: World, run: seq<Action>)
    decreases |run|
  {
    run == [] || (Enabled(w, run[0]) && Possible(Do(w, run[0]), run[1..]))
  }

  function After(w: World, run: seq<Action>): World
    requires Possible(w, run)
    decreases |run|
  {
    if run == [] then w else After(Do(w, run[0]), run[1..])
  }

  lemma {:induction false} EveryRun(w: World, run: seq<Action>)
    requires Inv(w) && Possible(w, run)
    ensures Inv(After(w, run))
    ensures After(w, run).size == w.size && After(w, run).capacity == w.capacity && After(w, run).record == w.record
    ensures After(w, run).field == w.field
    decreases |run|
  {
    hide Inv;
    if run != [] {
      EveryStep(w, run[0]);
      EveryRun(Do(w, run[0]), run[1..]);
    }
  }

  /** Every run of a server with this record and room for this many clients. */
  predicate Reached(size: nat, field: nat, capacity: nat, record: seq<byte>, run: seq<Action>) {
    size > 1 && |record| == size && Possible(Start(size, field, capacity, record), run)
  }

  /** A client in the table has reported success, holds the server's whole record, and the
      table holds that client's own record; it met a table with room. */
  lemma AddedMeansAgreed(size: nat, field: nat, capacity: nat, record: seq<byte>, run: seq<Action>, k: nat)
    requires Reached(size, field, capacity, record, run) && k < |After(Start(size, field, capacity, record), run).table|
    ensures var w := After(Start(size, field, capacity, record), run);
            var c, received := w.table[k].0, w.table[k].1;
            && c < |w.parties| && received == w.parties[c].mine && |received| == size
            && w.parties[c].stage == Success && w.parties[c].held == record && w.parties[c].met < capacity
  {
    EveryRun(Start(size, field, capacity, record), run);
    var w := After(Start(size, field, capacity, record), run);
    HeldRecord(w, w.table[k].0);
  }

  lemma HeldRecord(w: World, c: nat)
    requires Inv(w) && c < |w.parties| && w.parties[c].stage == Success
    ensures w.parties[c].verdict == Admitted && w.parties[c].held == w.record && w.parties[c].met < w.capacity
    ensures |w.parties[c].mine| == w.size
  {
    var p := w.parties[c];
    assert PartyInv(w, c);
    hide Inv;
    hide PartyInv;
    assert |p.held| == w.size > 1;
    assert p.held == (p.held + p.toClient)[..w.size];
  }

  /** A client that reports success was admitted to a table with room and holds the
      server's whole record. */
  lemma SuccessMeansAdmitted(size: nat, field: nat, capacity: nat, record: seq<byte>, run: seq<Action>, c: nat)
    requires Reached(size, field, capacity, record, run)
    requires c < |After(Start(size, field, capacity, record), run).parties|
    ensures var p := After(Start(size, field, capacity, record), run).parties[c];
            p.stage == Success ==> p.verdict == Admitted && p.met < capacity && p.held == record
  {
    EveryRun(Start(size, field, capacity, record), run);
    var w := After(Start(size, field, capacity, record), run);
    if w.parties[c].stage == Success {
      HeldRecord(w, c);
    }
  }

  /** A client that reports too many connections met a full table, exactly unless what it
      read is the first byte of the server's record. */
  lemma TooManyMeansFull(size: nat, field: nat, capacity: nat, record: seq<byte>, run: seq<Action>, c: nat)
    requires Reached(size, field, capacity, record, run)
    requires c < |After(Start(size, field, capacity, record), run).parties|
    requires After(Start(size, field, capacity, record), run).parties[c].stage == TooMany
    ensures var p := After(Start(size, field, capacity, record), run).parties[c];
            && (p.met >= capacity <==> p.verdict == TurnedAway)
            && (p.verdict == TurnedAway ==> p.held == [0])
            && (p.verdict != TurnedAway ==> p.verdict == Admitted && p.held == record[..1])
  {
    EveryRun(Start(size, field, capacity, record), run);
    var w := After(Start(size, field, capacity, record), run);
    var p := w.parties[c];
    assert PartyInv(w, c);
    hide Inv;
    assert p.held == (p.held + p.toClient)[..1];
  }

  /** No more clients than places, at any moment. */
  lemma NeverOverfull(size: nat, field: nat, capacity: nat, record: seq<byte>, run: seq<Action>)
    requires Reached(size, field, capacity, record, run)
    ensures |After(Start(size, field, capacity, record), run).table| <= capacity
  {
    EveryRun(Start(size, field, capacity, record), run);
  }

  /** A client that reports success may still be refused.  When the server's read returns
      all that has arrived, the client is added exactly if it has not yet sent anything
      behind its record. */
  lemma AddedIffNothingMoreSent(w: World, n: nat)
    requires Inv(w) && Enabled(w, Listen(n, true)) && w.parties[w.server.c].stage == Success
    requires n == Sockets.Min(|w.parties[w.server.c].toServer|, w.size + 1)
    ensures var p := w.parties[w.server.c]; InTable(Do(w, Listen(n, true)), w.server.c) <==> p.toServer == p.mine
  {
    var v, c := Do(w, Listen(n, true)), w.server.c;
    assert PartyInv(w, c);
    hide Inv;
    hide PartyInv;
    if n == w.size {
      assert v.table[|w.table|].0 == c;
    }
  }

  // ---------- descriptors ----------

  /** The server is at work on client `c`. */
  predicate OnIt(w: World, c: nat) {
    w.server == Greeting(c) || w.server == Listening(c)
  }

  /** The open descriptors are those of the clients in the table and of the one at hand. */
  predicate Even(w: World) {
    forall c | 0 <= c < |w.parties| :: w.parties[c].Open() <==> InTable(w, c) || OnIt(w, c)
  }

  /** If this step refuses a client, the read has left the client's own number. */
  predicate RefusesRight(w: World, a: Action)
    requires Enabled(w, a)
  {
    Refuses(w, a) ==> LeavesNumber(w.parties[w.server.c].fd, Got(w, a.n, a.ok), w.field)
  }

  /** A refusal closes the descriptors that have the number left in the entry: the one of
      the client refused, if and only if the read stopped before the field or wrote the same
      number there, and otherwise that of any other client whose number it is. */
  lemma RefusalCloses(w: World, n: nat, ok: bool)
    requires Inv(w) && Enabled(w, Listen(n, ok)) && Refuses(w, Listen(n, ok))
    ensures var v, c, got := Do(w, Listen(n, ok)), w.server.c, Got(w, n, ok);
            && v.server.Ready? && v.table == w.table && |v.parties| == |w.parties|
            && (v.parties[c].serverClosed <==> LeavesNumber(w.parties[c].fd, got, w.field))
            && (forall d | 0 <= d < |w.parties| && d != c ::
                  v.parties[d].serverClosed <==>
                    || w.parties[d].serverClosed
                    || (w.parties[d].Open() && w.parties[d].fd == NumberLeft(w.parties[c].fd, got, w.field)))
  {
    hide NumberLeft;
    hide LeavesNumber;
    var c := w.server.c;
    assert PartyInv(w, c);
    NumberLeftIff(w.parties[c].fd, Got(w, n, ok), w.field);
  }

  lemma EvenRefusal(w: World, n: nat, ok: bool)
    requires Inv(w) && Even(w) && Enabled(w, Listen(n, ok)) && Refuses(w, Listen(n, ok))
    ensures Even(Do(w, Listen(n, ok))) <==> RefusesRight(w, Listen(n, ok))
  {
    hide Do;
    hide LeavesNumber;
    hide NumberLeft;
    hide PartyInv;
    RefusalCloses(w, n, ok);
    RefusedOthers(w, n, ok);
  }

  /** What a refusal that leaves the right number does to the other clients: nothing. */
  lemma RefusedOthers(w: World, n: nat, ok: bool)
    requires Inv(w) && Enabled(w, Listen(n, ok)) && Refuses(w, Listen(n, ok))
    ensures var v := Do(w, Listen(n, ok));
            && |v.parties| == |w.parties| && v.parties[w.server.c].verdict == Admitted
            && (forall d: nat :: InTable(v, d) <==> InTable(w, d))
            && (forall d | 0 <= d < |w.parties| :: v.parties[d].verdict == w.parties[d].verdict)
            && (RefusesRight(w, Listen(n, ok)) ==>
                  forall d | 0 <= d < |w.parties| && d != w.server.c :: v.parties[d].Open() == w.parties[d].Open())
  {
    hide NumberLeft;
    hide LeavesNumber;
    var c := w.server.c;
    assert PartyInv(w, c);
    NumberLeftIff(w.parties[c].fd, Got(w, n, ok), w.field);
  }

  lemma EvenStep(w: World, a: Action)
    requires Inv(w) && Even(w) && Enabled(w, a)
    ensures Even(Do(w, a)) <==> RefusesRight(w, a)
  {
    if Refuses(w, a) {
      EvenRefusal(w, a.n, a.ok);
    } else if a.Leave? {
      EvenLeave(w, a.k);
    } else if a.Listen? {
      EvenAdd(w, a.n, a.ok);
    } else {
      EvenOther(w, a);
    }
  }

  lemma EvenAdd(w: World, n: nat, ok: bool)
    requires Inv(w) && Even(w) && Enabled(w, Listen(n, ok)) && !Refuses(w, Listen(n, ok))
    ensures Even(Do(w, Listen(n, ok)))
  {
    hide PartyInv;
    var v, c := Do(w, Listen(n, ok)), w.server.c;
    assert v.table[|w.table|].0 == c;
    forall d: nat
      ensures InTable(v, d) <==> InTable(w, d) || d == c
    {
      if InTable(w, d) {
        var k :| 0 <= k < |w.table| && w.table[k].0 == d;
        assert v.table[k].0 == d;
      }
    }
  }

  lemma EvenLeave(w: World, k: nat)
    requires Inv(w) && Even(w) && Enabled(w, Leave(k))
    ensures Even(Do(w, Leave(k)))
  {
    assert InTable(w, w.table[k].0);
    LeftTable(w, k);
    hide InTable;
    hide PartyInv;
  }

  lemma EvenOther(w: World, a: Action)
    requires Inv(w) && Even(w) && Enabled(w, a) && !a.Listen? && !a.Leave?
    ensures Even(Do(w, a))
  {
    var v := Do(w, a);
    assert v.table == w.table && forall d: nat :: InTable(v, d) <==> InTable(w, d);
    if a.Greet? {
      assert !InTable(w, w.server.c);
    } else if a.Accept? {
      assert PartyInv(w, a.c) && !InTable(w, a.c);
    } else if a.Arrive? {
      assert !InTable(w, |w.parties|);
    }
    hide PartyInv;
  }

  /** The descriptors are even at every moment of the run. */
  predicate AlwaysEven(w: World, run: seq<Action>)
    requires Possible(w, run)
    decreases |run|
  {
    Even(w) && (run != [] ==> AlwaysEven(Do(w, run[0]), run[1..]))
  }

  predicate RefusesRightly(w: World, run: seq<Action>)
    requires Possible(w, run)
    decreases |run|
  {
    run != [] ==> RefusesRight(w, run[0]) && RefusesRightly(Do(w, run[0]), run[1..])
  }

  /** Over every run: at every moment the server's open descriptors are those of the clients
      in its table and of the one at hand, if and only if every read of a client that it
      refused stopped before the field `tcp_socket` or wrote the same number there. */
  lemma {:induction false} EvenIff(w: World, run: seq<Action>)
    requires Inv(w) && Even(w) && Possible(w, run)
    ensures AlwaysEven(w, run) <==> RefusesRightly(w, run)
    decreases |run|
  {
    hide Inv;
    hide Do;
    hide Even;
    hide RefusesRight;
    if run != [] {
      EvenStep(w, run[0]);
      EveryStep(w, run[0]);
      if Even(Do(w, run[0])) {
        EvenIff(Do(w, run[0]), run[1..]);
      } else {
        NotEven(Do(w, run[0]), run[1..]);
      }
    }
  }

  lemma NotEven(w: World, run: seq<Action>)
    requires Possible(w, run) && !Even(w)
    ensures !AlwaysEven(w, run)
  {
  }

  lemma Prepend(w: World, a: Action, rest: seq<Action>)
    requires Enabled(w, a) && Possible(Do(w, a), rest)
    ensures Possible(w, [a] + rest) && After(w, [a] + rest) == After(Do(w, a), rest)
  {
    assert ([a] + rest)[1..] == rest;
  }

  lemma Prepend3(w: World, a: Action, b: Action, c: Action, rest: seq<Action>)
    requires Enabled(w, a) && Enabled(Do(w, a), b) && Enabled(Do(Do(w, a), b), c)
    requires Possible(Do(Do(Do(w, a), b), c), rest)
    ensures Possible(w, [a] + ([b] + ([c] + rest)))
    ensures After(w, [a] + ([b] + ([c] + rest))) == After(Do(Do(Do(w, a), b), c), rest)
  {
    hide Do;
    hide Enabled;
    Prepend(Do(Do(w, a), b), c, rest);
    Prepend(Do(w, a), b, [c] + rest);
    Prepend(w, a, [b] + ([c] + rest));
  }

  /** A read that returns one byte of the server's record makes a client report too many
      connections although the table is empty. */
  lemma OneByteLooksFull(size: nat, field: nat, capacity: nat, record: seq<byte>, mine: seq<byte>, fd: Descriptor)
    returns (run: seq<Action>)
    requires size > 1 && capacity > 0 && |record| == |mine| == size
    ensures Reached(size, field, capacity, record, run)
    ensures var w := After(Start(size, field, capacity, record), run);
            |w.parties| == 1 && w.parties[0].stage == TooMany && w.parties[0].verdict == Admitted && w.table == []
  {
    var s := Start(size, field, capacity, record);
    var greeted := Greeted(s, mine, fd);
    Prepend(greeted, Read(0, 1, true), []);
    Prepend3(s, Arrive(mine), Accept(0, true, fd), Greet(true), [Read(0, 1, true)] + []);
    run := [Arrive(mine)] + ([Accept(0, true, fd)] + ([Greet(true)] + ([Read(0, 1, true)] + [])));
  }

  /** A client that sends data as soon as it is connected can be refused after its success:
      the read returns one byte more than the record.  The server then closes its descriptor
      for that client only if the client's record holds, by chance, the same number; if not,
      it stays open with the client in no table. */
  lemma SuccessMayBeRefused(size: nat, field: nat, capacity: nat, record: seq<byte>, mine: seq<byte>, fd: Descriptor)
    returns (run: seq<Action>)
    requires size > 1 && capacity > 0 && |record| == |mine| == size && field + WORD_SIZE <= size
    ensures Reached(size, field, capacity, record, run)
    ensures var w := After(Start(size, field, capacity, record), run);
            && |w.parties| == 1 && w.parties[0].stage == Success && w.server.Ready? && w.table == []
            && (w.parties[0].Open() <==> mine[field..field + WORD_SIZE] != Header(fd))
  {
    var s := Start(size, field, capacity, record);
    var greeted := Greeted(s, mine, fd);
    run := SendsMore(greeted, mine, fd);
    Prepend3(s, Arrive(mine), Accept(0, true, fd), Greet(true), run);
    run := [Arrive(mine)] + ([Accept(0, true, fd)] + ([Greet(true)] + run));
  }

  /** The server has sent its record to its first client. */
  lemma Greeted(s: World, mine: seq<byte>, fd: Descriptor) returns (w: World)
    requires s.size > 1 && s.capacity > 0 && |s.record| == |mine| == s.size
    requires s == Start(s.size, s.field, s.capacity, s.record)
    ensures Enabled(s, Arrive(mine)) && Enabled(Do(s, Arrive(mine)), Accept(0, true, fd))
    ensures Enabled(Do(Do(s, Arrive(mine)), Accept(0, true, fd)), Greet(true))
    ensures w == Do(Do(Do(s, Arrive(mine)), Accept(0, true, fd)), Greet(true))
    ensures w == s.(server := Listening(0),
                    parties := [Party(mine, Waiting, [], Admitted, fd, 0, s.record, [], false, false)])
  {
    w := Do(Do(Do(s, Arrive(mine)), Accept(0, true, fd)), Greet(true));
    assert w.parties[0].toClient == s.record;
  }

  /** The client has read the record, sent its own, and one byte of data. */
  lemma Connected(w: World, mine: seq<byte>) returns (v: World)
    requires w.size > 1 && |w.record| == |mine| == w.size && |w.parties| == 1
    requires w.parties[0] == Party(mine, Waiting, [], Admitted, w.parties[0].fd, 0, w.record, [], false, false)
    ensures Enabled(w, Read(0, w.size, true)) && Enabled(Do(w, Read(0, w.size, true)), Answer(0, true))
    ensures Enabled(Do(Do(w, Read(0, w.size, true)), Answer(0, true)), SendMore(0, [0]))
    ensures v == Do(Do(Do(w, Read(0, w.size, true)), Answer(0, true)), SendMore(0, [0]))
    ensures |v.parties| == 1 && v == w.(parties := v.parties) && v.parties[0].stage == Success
    ensures v.parties[0].toServer == mine + [0] && v.parties[0].fd == w.parties[0].fd && v.parties[0].Open()
  {
    hide Shut;
    v := Do(Do(Do(w, Read(0, w.size, true)), Answer(0, true)), SendMore(0, [0]));
    assert v.parties[0].toServer == [] + mine + [0];
  }

  lemma SendsMore(w: World, mine: seq<byte>, fd: Descriptor) returns (run: seq<Action>)
    requires w.size > 1 && |w.record| == |mine| == w.size && w.field + WORD_SIZE <= w.size && w.table == []
    requires w.server == Listening(0)
    requires w.parties == [Party(mine, Waiting, [], Admitted, fd, 0, w.record, [], false, false)]
    ensures Possible(w, run)
    ensures var v := After(w, run);
            && |v.parties| == 1 && v.parties[0].stage == Success && v.server.Ready? && v.table == []
            && (v.parties[0].Open() <==> mine[w.field..w.field + WORD_SIZE] != Header(fd))
  {
    hide Do;
    hide Enabled;
    var sent := Connected(w, mine);
    RefusedByOneByte(sent, mine, fd);
    Prepend(sent, Listen(w.size + 1, true), []);
    run := [Listen(w.size + 1, true)] + [];
    Prepend3(w, Read(0, w.size, true), Answer(0, true), SendMore(0, [0]), run);
    run := [Read(0, w.size, true)] + ([Answer(0, true)] + ([SendMore(0, [0])] + run));
  }

  lemma RefusedByOneByte(w: World, mine: seq<byte>, fd: Descriptor)
    requires w.server == Listening(0) && |w.parties| == 1 && w.parties[0].fd == fd && w.parties[0].Open()
    requires w.parties[0].toServer == mine + [0] && |mine| == w.size && w.field + WORD_SIZE <= w.size
    ensures Enabled(w, Listen(w.size + 1, true))
    ensures var v := Do(w, Listen(w.size + 1, true));
            && |v.parties| == 1 && v.parties[0].stage == w.parties[0].stage && v.server.Ready? && v.table == w.table
            && (v.parties[0].Open() <==> mine[w.field..w.field + WORD_SIZE] != Header(fd))
  {
    var got := Got(w, w.size + 1, true);
    assert got == mine + [0];
    NumberLeftIff(fd, got, w.field);
    SameNumber(fd, mine, [0], w.field);
    hide NumberLeft;
    hide LeavesNumber;
  }

  lemma SameNumber(fd: Descriptor, mine: seq<byte>, more: seq<byte>, at: nat)
    requires at + WORD_SIZE <= |mine|
    ensures LeavesNumber(fd, mine + more, at) <==> mine[at..at + WORD_SIZE] == Header(fd)
  {
    var field := mine[at..at + WORD_SIZE];
    assert forall i | 0 <= i < WORD_SIZE :: (mine + more)[at + i] == field[i];
  }
}
