/**
 client_start_stop.c and server_start_stop.c: the calls of start and stop, made one
 after the other, interleaved with the steps of the poll threads they create.  Reads
 and writes of `poll_loop` and `is_started` are single steps.
 */
module Lifecycle {

  /** Where the caller of the API stands: between two calls, or before the named step. */
  datatype Caller =
    | Idle
    | StartTest | SetLoop | SetFlag | Create | UndoLoop | UndoFlag
    | StopTest | ClearLoop | Kill | Join

  /** Where a thread stands: before the test of its loop, before its call of
      `udtcp_client_poll`, inside that call (waiting; before the test for entry `i`; at
      entry `i`; before a receive; before the test that repeats it), after its loop. */
  datatype Body =
    | Test
    | Enter
    | Waiting
    | Head(i: nat)
    | Entry(i: nat)
    | Receive(i: nat)
    | Again(i: nat)
    | Ending
    | Ended

  /** How a step that depends on the sockets goes: it has something, it has nothing, it
      fails. */
  datatype Outcome = Something | Nothing | Failure

  datatype Thread = Thread(body: Body, joins: nat)

  /** What differs between the two ends: the client sets `is_started` before it creates the
      thread, has two entries to look at in each poll, and a failure at one of them ends its
      loop; the server sets it afterwards, has from two entries up to its capacity, and goes
      on with the next one. */
  datatype Kind = ForClient | ForServer(capacity: nat)

  datatype State = State(
    kind: Kind,
    pollLoop: bool,
    isStarted: bool,
    caller: Caller,
    threads: seq<Thread>,
    /** the thread that `poll_thread` names */
    handle: nat,
    /** polls begun and receives completed since `poll_loop` was last cleared by a stop */
    late: nat)

  datatype Action =
    | CallStart
    | CallStop
    | Proceed(created: bool)
    | Run(t: nat, outcome: Outcome)

  function Created(kind: Kind): State {
    State(kind, false, false, Idle, [], 0, 0)
  }

  predicate Enabled(s: State, a: Action) {
    match a
    case CallStart => s.caller == Idle
    case CallStop => s.caller == Idle
    case Proceed(_) => && s.caller != Idle
                       && (s.caller == Join ==> s.handle < |s.threads| && s.threads[s.handle].body == Ended)
    case Run(t, _) => t < |s.threads| && s.threads[t].body != Ended
  }

  /** There is an entry with this index; how far the table of a server reaches then is part
      of the outcome. */
  predicate HasEntry(kind: Kind, i: nat, o: Outcome) {
    i < 2 || (kind.ForServer? && i < kind.capacity && o == Something)
  }

  /** One step of a thread that reads `loop` when it tests `poll_loop`. */
  function NextBody(kind: Kind, b: Body, loop: bool, o: Outcome): Body {
    match b
    case Test => if loop then Enter else Ending
    case Enter => Waiting
    case Waiting => if o == Something then Head(0) else if o == Nothing then Test else Ending
    case Head(i) => if loop && HasEntry(kind, i, o) then Entry(i) else Test
    case Entry(i) =>
      if o == Something then Receive(i) else if o == Failure && kind.ForClient? then Ending else Head(i + 1)
    case Receive(i) =>
      if o == Something then Again(i) else if o == Failure && kind.ForClient? then Ending else Head(i + 1)
    case Again(i) => if loop then Receive(i) else Head(i + 1)
    case Ending => Ended
    case Ended => Ended
  }

  function Do(s: State, a: Action): State
    requires Enabled(s, a)
  {
    match a
    case CallStart => s.(caller := StartTest)
    case CallStop => s.(caller := StopTest)
    case Run(t, o) =>
      var b := s.threads[t].body;
      s.(threads := s.threads[t := s.threads[t].(body := NextBody(s.kind, b, s.pollLoop, o))],
         isStarted := s.isStarted && b != Ending,
         late := if b == Enter || b.Receive? then s.late + 1 else s.late)
    case Proceed(created) =>
      var early := s.kind.ForClient?;
      match s.caller
      case Idle => s
      case StartTest => s.(caller := if s.pollLoop then Idle else SetLoop)
      case SetLoop => s.(pollLoop := true, caller := if early then SetFlag else Create)
      case SetFlag => s.(isStarted := true, caller := if early then Create else Idle)
      case Create =>
        if created then s.(threads := s.threads + [Thread(Test, 0)], handle := |s.threads|,
                           caller := if early then Idle else SetFlag)
        else s.(caller := UndoLoop)
      case UndoLoop => s.(pollLoop := false, caller := if early then UndoFlag else Idle)
      case UndoFlag => s.(isStarted := false, caller := Idle)
      case StopTest => s.(caller := if s.pollLoop then ClearLoop else Idle)
      case ClearLoop => s.(pollLoop := false, late := 0, caller := Kill)
      case Kill => s.(caller := Join)
      case Join =>
        var t := s.threads[s.handle];
        s.(threads := s.threads[s.handle := t.(joins := t.joins + 1)], caller := Idle)
  }

  /** The last thread created has not been joined. */
  predicate Outstanding(s: State) {
    s.threads != [] && s.threads[|s.threads| - 1].joins == 0
  }

  predicate BodyRuns(s: State) {
    Outstanding(s) && s.threads[|s.threads| - 1].body != Ended
  }

  /** What a thread may still do once `poll_loop` is cleared. */
  function Owed(b: Body): nat {
    if b == Enter || b.Entry? || b.Receive? then 1 else 0
  }

  /** Only the last thread may be unjoined, and a thread is joined once, after its end. */
  predicate ThreadsInv(s: State) {
    && (s.threads != [] ==> s.handle == |s.threads| - 1)
    && (forall t | 0 <= t < |s.threads| ::
          && s.threads[t].joins <= 1
          && (s.threads[t].joins == 1 ==> s.threads[t].body == Ended)
          && (t < |s.threads| - 1 ==> s.threads[t].joins == 1))
  }

  /** Where the caller stands says what `poll_loop` is and whether a thread is unjoined. */
  predicate CallerInv(s: State) {
    match s.caller
    case Idle => s.pollLoop <==> Outstanding(s)
    case StartTest => s.pollLoop <==> Outstanding(s)
    case StopTest => s.pollLoop <==> Outstanding(s)
    case SetLoop => !s.pollLoop && !Outstanding(s)
    case UndoFlag => !s.pollLoop && !Outstanding(s) && s.kind.ForClient?
    case Create => s.pollLoop && !Outstanding(s)
    case UndoLoop => s.pollLoop && !Outstanding(s)
    case SetFlag => s.pollLoop && (Outstanding(s) <==> s.kind.ForServer?)
    case ClearLoop => s.pollLoop && Outstanding(s)
    case Kill => !s.pollLoop && Outstanding(s)
    case Join => !s.pollLoop && Outstanding(s)
  }

  predicate LateInv(s: State) {
    s.caller in {Kill, Join} && s.threads != [] ==> s.late + Owed(s.threads[|s.threads| - 1].body) <= 1
  }

  predicate FlagInv(s: State) {
    match s.kind
    case ForClient => s.isStarted <==> BodyRuns(s) || s.caller in {Create, UndoLoop, UndoFlag}
    case ForServer(_) => BodyRuns(s) && s.caller != SetFlag ==> s.isStarted
  }

  predicate Inv(s: State) {
    ThreadsInv(s) && CallerInv(s) && LateInv(s) && FlagInv(s)
  }

  lemma OnlyLastRuns(s: State, t: nat, o: Outcome)
    requires ThreadsInv(s) && Enabled(s, Run(t, o))
    ensures t == |s.threads| - 1 && s.threads[t].joins == 0 && Outstanding(s)
  {
  }

  lemma ThreadStep(s: State, t: nat, o: Outcome)
    requires Inv(s) && Enabled(s, Run(t, o))
    ensures Inv(Do(s, Run(t, o)))
  {
    hide HasEntry;
    OnlyLastRuns(s, t, o);
  }

  lemma CallerKeepsThreads(s: State, created: bool)
    requires ThreadsInv(s) && CallerInv(s) && Enabled(s, Proceed(created))
    ensures ThreadsInv(Do(s, Proceed(created)))
  {
  }

  lemma CallerKeepsCaller(s: State, created: bool)
    requires ThreadsInv(s) && CallerInv(s) && Enabled(s, Proceed(created))
    ensures CallerInv(Do(s, Proceed(created)))
  {
  }

  lemma CallerKeepsLate(s: State, created: bool)
    requires ThreadsInv(s) && CallerInv(s) && LateInv(s) && Enabled(s, Proceed(created))
    ensures LateInv(Do(s, Proceed(created)))
  {
  }

  lemma CallerKeepsFlag(s: State, created: bool)
    requires ThreadsInv(s) && CallerInv(s) && FlagInv(s) && Enabled(s, Proceed(created))
    ensures FlagInv(Do(s, Proceed(created)))
  {
  }

  lemma EveryStep(s: State, a: Action)
    requires Inv(s) && Enabled(s, a)
    ensures Inv(Do(s, a))
  {
    match a
    case Run(t, o) => ThreadStep(s, t, o);
    case Proceed(created) =>
      hide ThreadsInv;
      hide CallerInv;
      hide LateInv;
      hide FlagInv;
      hide Do;
      CallerKeepsThreads(s, created);
      CallerKeepsCaller(s, created);
      CallerKeepsLate(s, created);
      CallerKeepsFlag(s, created);
    case _ =>
  }

  predicate Possible(s: State, run: seq<Action>)
    decreases |run|
  {
    run == [] || (Enabled(s, run[0]) && Possible(Do(s, run[0]), run[1..]))
  }

  function After(s: State, run: seq<Action>): State
    requires Possible(s, run)
    decreases |run|
  {
    if run == [] then s else After(Do(s, run[0]), run[1..])
  }

  lemma {:induction false} EveryRun(s: State, run: seq<Action>)
    requires Inv(s) && Possible(s, run)
    ensures Inv(After(s, run))
    decreases |run|
  {
    if run != [] {
      EveryStep(s, run[0]);
      EveryRun(Do(s, run[0]), run[1..]);
    }
  }

  /** How many threads have been created and not joined. */
  function Unjoined(threads: seq<Thread>): nat {
    if threads == [] then 0
    else Unjoined(threads[1..]) + if threads[0].joins == 0 then 1 else 0
  }

  lemma {:induction false} AllJoined(threads: seq<Thread>)
    requires forall t | 0 <= t < |threads| - 1 :: threads[t].joins == 1
    ensures Unjoined(threads) == if threads != [] && threads[|threads| - 1].joins == 0 then 1 else 0
  {
    if |threads| > 1 {
      AllJoined(threads[1..]);
    }
  }

  /** Between two calls of the API, in every interleaving: the loop flag is set exactly
      when one created thread is still to be joined, and no others are, even if it ended
      by itself; and no thread is ever joined twice. */
  lemma AtApiBoundary(kind: Kind, run: seq<Action>)
    requires Possible(Created(kind), run) && After(Created(kind), run).caller == Idle
    ensures var s := After(Created(kind), run);
            && Unjoined(s.threads) == (if s.pollLoop then 1 else 0)
            && (s.pollLoop ==> s.threads != [] && s.handle == |s.threads| - 1 && s.threads[s.handle].joins == 0)
            && forall t | 0 <= t < |s.threads| :: s.threads[t].joins <= 1
  {
    EveryRun(Created(kind), run);
    AllJoined(After(Created(kind), run).threads);
  }

  predicate AllEnded(s: State) {
    forall t | 0 <= t < |s.threads| :: s.threads[t].body == Ended
  }

  /** For a client, `is_started` between two calls says exactly whether a poll thread is
      running. */
  lemma ClientIsStarted(run: seq<Action>)
    requires Possible(Created(ForClient), run) && After(Created(ForClient), run).caller == Idle
    ensures var s := After(Created(ForClient), run); s.isStarted <==> !AllEnded(s)
  {
    EveryRun(Created(ForClient), run);
    SameKind(Created(ForClient), run);
  }

  /** `udtcp_start_server` is about to set the flag, and the thread it has created has
      already ended. */
  predicate TooLate(s: State) {
    s.caller == SetFlag && s.threads != [] && s.threads[|s.threads| - 1].body == Ended
  }

  /** At some moment of the run it was too late to set the flag, and no thread has been
      created since. */
  predicate SetTooLate(s: State, run: seq<Action>)
    requires Possible(s, run)
    decreases |run|
  {
    || (TooLate(s) && |After(s, run).threads| == |s.threads|)
    || (run != [] && SetTooLate(Do(s, run[0]), run[1..]))
  }

  /** For a server it says so exactly unless the body of the last thread had ended when
      `udtcp_start_server` came to set the flag. */
  lemma ServerIsStarted(capacity: nat, run: seq<Action>)
    requires Possible(Created(ForServer(capacity)), run) && After(Created(ForServer(capacity)), run).caller == Idle
    ensures var start := Created(ForServer(capacity));
            var s := After(start, run);
            (s.isStarted <==> !AllEnded(s)) <==> !SetTooLate(start, run)
  {
    var start := Created(ForServer(capacity));
    EveryRun(start, run);
    SameKind(start, run);
    StaleExactly(start, run);
  }

  /** The flag says that a thread runs, or is about to, and none does. */
  predicate Stale(s: State) {
    !BodyRuns(s) && (s.caller == SetFlag || s.isStarted)
  }

  lemma {:induction false} StaleExactly(s: State, run: seq<Action>)
    requires Inv(s) && s.kind.ForServer? && Possible(s, run)
    ensures |s.threads| <= |After(s, run).threads|
    ensures Stale(After(s, run)) <==> SetTooLate(s, run) || (Stale(s) && |After(s, run).threads| == |s.threads|)
    decreases |run|
  {
    hide Inv;
    hide Stale;
    hide TooLate;
    hide Do;
    hide Enabled;
    LateIsStale(s);
    if run != [] {
      EveryStep(s, run[0]);
      StaleStep(s, run[0]);
      StaleExactly(Do(s, run[0]), run[1..]);
    }
  }

  lemma LateIsStale(s: State)
    requires Inv(s) && s.kind.ForServer?
    ensures TooLate(s) ==> Stale(s)
  {
  }

  /** A step makes the flag stale only where it is too late to set it, and makes it right
      again only by creating a thread. */
  lemma StaleStep(s: State, a: Action)
    requires Inv(s) && s.kind.ForServer? && Enabled(s, a)
    ensures Do(s, a).kind == s.kind && |s.threads| <= |Do(s, a).threads|
    ensures Stale(s) && |Do(s, a).threads| == |s.threads| ==> Stale(Do(s, a))
    ensures Stale(Do(s, a)) ==> (Stale(s) && |Do(s, a).threads| == |s.threads|) || TooLate(Do(s, a))
  {
    hide HasEntry;
    hide LateInv;
    if a.Run? {
      OnlyLastRuns(s, a.t, a.outcome);
    }
  }

  lemma {:induction false} SameKind(s: State, run: seq<Action>)
    requires Possible(s, run)
    ensures After(s, run).kind == s.kind
    decreases |run|
  {
    if run != [] {
      SameKind(Do(s, run[0]), run[1..]);
    }
  }

  lemma Prepend(s: State, a: Action, rest: seq<Action>)
    requires Enabled(s, a) && Possible(Do(s, a), rest)
    ensures Possible(s, [a] + rest) && After(s, [a] + rest) == After(Do(s, a), rest)
  {
    assert ([a] + rest)[1..] == rest;
  }

  lemma FailsAtOnce(s: State) returns (run: seq<Action>)
    requires s == State(s.kind, true, false, SetFlag, [Thread(Test, 0)], 0, 0) && s.kind.ForServer?
    ensures Possible(s, run)
    ensures After(s, run) == s.(threads := [Thread(Ended, 0)], isStarted := true, caller := Idle, late := 1)
  {
    var go, step, fail := Proceed(true), Run(0, Something), Run(0, Failure);
    var s1 := Do(s, step);
    var s2 := Do(s1, step);
    var s3 := Do(s2, fail);
    var s4 := Do(s3, step);
    Prepend(s4, go, []);
    Prepend(s3, step, [go]);
    Prepend(s2, fail, [step] + [go]);
    run := [fail] + ([step] + [go]);
    Prepend(s1, step, run);
    Prepend(s, step, [step] + run);
    run := [step] + ([step] + run);
  }

  /** That does happen: the thread's first poll fails before the flag is set. */
  lemma StaleIsStarted(capacity: nat) returns (run: seq<Action>)
    ensures Possible(Created(ForServer(capacity)), run)
    ensures var s := After(Created(ForServer(capacity)), run);
            s.caller == Idle && s.isStarted && s.threads == [Thread(Ended, 0)]
  {
    var go := Proceed(true);
    var s0 := Do(Created(ForServer(capacity)), CallStart);
    var s1 := Do(s0, go);
    var s2 := Do(s1, go);
    run := FailsAtOnce(Do(s2, go));
    Prepend(s2, go, run);
    Prepend(s1, go, [go] + run);
    Prepend(s0, go, [go] + ([go] + run));
    run := [go] + ([go] + ([go] + run));
    Prepend(Created(ForServer(capacity)), CallStart, run);
    run := [CallStart] + run;
  }

  /** While a stop is under way, at most one more poll is begun or one more receive
      completed, and not both. */
  lemma BoundedWorkAfterStop(kind: Kind, run: seq<Action>)
    requires Possible(Created(kind), run) && After(Created(kind), run).caller in {Kill, Join}
    ensures After(Created(kind), run).late <= 1
  {
    EveryRun(Created(kind), run);
  }

  /** What ends the loop of a thread: the flag is clear when it is tested, a wait fails or is
      interrupted, or, for a client, an entry is in trouble or its connection is lost. */
  predicate Halts(kind: Kind, b: Body, loop: bool, o: Outcome) {
    (b == Test && !loop) || (o == Failure && (b == Waiting || (kind.ForClient? && (b.Entry? || b.Receive?))))
  }

  /** No thread makes such a step in this run. */
  predicate Undisturbed(s: State, run: seq<Action>)
    requires Possible(s, run)
    decreases |run|
  {
    run != [] ==> && (run[0].Run? ==> !Halts(s.kind, s.threads[run[0].t].body, s.pollLoop, run[0].outcome))
                  && Undisturbed(Do(s, run[0]), run[1..])
  }

  predicate Looping(s: State) {
    s.threads != [] && s.threads[|s.threads| - 1].body !in {Ending, Ended}
  }

  /** A thread goes on, after timeouts and whatever its reads meet, until it makes such a
      step. */
  lemma {:induction false} ThreadGoesOn(s: State, run: seq<Action>)
    requires Inv(s) && Looping(s) && Possible(s, run) && Undisturbed(s, run)
    ensures Looping(After(s, run))
    decreases |run|
  {
    if run != [] {
      EveryStep(s, run[0]);
      LeavesLoop(s, run[0]);
      ThreadGoesOn(Do(s, run[0]), run[1..]);
    }
  }

  /** ... and then it ends. */
  lemma LeavesLoop(s: State, a: Action)
    requires Inv(s) && Looping(s) && Enabled(s, a)
    ensures Looping(Do(s, a)) <==> !(a.Run? && Halts(s.kind, s.threads[a.t].body, s.pollLoop, a.outcome))
  {
    if a.Run? {
      OnlyLastRuns(s, a.t, a.outcome);
    }
  }

  /** A start of a client or a server that is stopped creates a thread, which then loops, and
      sets both flags; nothing else interferes here. */
  lemma StartCreates(s: State) returns (run: seq<Action>)
    requires Inv(s) && s.caller == Idle && !s.pollLoop
    ensures Possible(s, run)
    ensures var v := After(s, run);
            && v.caller == Idle && v.pollLoop && v.isStarted && Looping(v)
            && v.threads == s.threads + [Thread(Test, 0)] && v.handle == |s.threads|
  {
    var go := Proceed(true);
    var s0 := Do(s, CallStart);
    var s1 := Do(s0, go);
    var s2 := Do(s1, go);
    var s3 := Do(s2, go);
    var s4 := Do(s3, go);
    Prepend(s3, go, []);
    Prepend(s2, go, [go] + []);
    run := [go] + ([go] + []);
    Prepend(s1, go, run);
    Prepend(s0, go, [go] + run);
    run := [go] + ([go] + run);
    Prepend(s, CallStart, run);
    run := [CallStart] + run;
  }

  /** One that is started already refuses and changes nothing. */
  lemma StartRefused(s: State)
    requires s.caller == Idle && s.pollLoop
    ensures Enabled(s, CallStart) && Enabled(Do(s, CallStart), Proceed(true))
    ensures Do(Do(s, CallStart), Proceed(true)) == s
  {
  }

  /** A stop is under way. */
  predicate Stopping(s: State) {
    s.caller in {StopTest, ClearLoop, Kill, Join}
  }

  /** In this run the caller does nothing but finish the stop. */
  predicate OnlyStops(s: State, run: seq<Action>)
    requires Possible(s, run)
    decreases |run|
  {
    run != [] ==> Stopping(s) && OnlyStops(Do(s, run[0]), run[1..])
  }

  lemma StopStep(s: State, a: Action)
    requires Inv(s) && Stopping(s) && Enabled(s, a)
    ensures Stopping(Do(s, a)) || (Do(s, a).caller == Idle && !Do(s, a).pollLoop)
  {
  }

  lemma {:induction false} StopRun(s: State, run: seq<Action>)
    requires Inv(s) && Stopping(s) && Possible(s, run) && OnlyStops(s, run)
    ensures Inv(After(s, run))
    ensures Stopping(After(s, run)) || (After(s, run).caller == Idle && !After(s, run).pollLoop)
    decreases |run|
  {
    if run != [] {
      EveryStep(s, run[0]);
      StopStep(s, run[0]);
      if Stopping(Do(s, run[0])) {
        StopRun(Do(s, run[0]), run[1..]);
      } else {
        assert run[1..] == [];
      }
    }
  }

  /** When a stop returns, the loop flag is clear and every thread has ended and been joined,
      whatever the state it was called in and however the threads were interleaved. */
  lemma StopStops(s: State, run: seq<Action>)
    requires Inv(s) && s.caller == StopTest && Possible(s, run) && OnlyStops(s, run)
    requires After(s, run).caller == Idle
    ensures var v := After(s, run); !v.pollLoop && AllEnded(v) && Unjoined(v.threads) == 0
  {
    StopRun(s, run);
    AllJoined(After(s, run).threads);
  }

  /** How many steps a thread can still take once the loop flag is clear. */
  function Remaining(b: Body): nat {
    match b
    case Enter => 5
    case Waiting => 4
    case Entry(_) => 6
    case Receive(_) => 5
    case Again(_) => 4
    case Head(_) => 3
    case Test => 2
    case Ending => 1
    case Ended => 0
  }

  /** A stop ends: with the flag clear every step brings the thread nearer to its end,
      and when it has ended the join can return. */
  lemma StopEnds(kind: Kind, run: seq<Action>, o: Outcome)
    requires Possible(Created(kind), run) && After(Created(kind), run).caller == Join
    ensures var s := After(Created(kind), run);
            && s.handle < |s.threads|
            && (s.threads[s.handle].body == Ended ==> Enabled(s, Proceed(true)))
            && (s.threads[s.handle].body != Ended ==>
                  && Enabled(s, Run(s.handle, o))
                  && Remaining(Do(s, Run(s.handle, o)).threads[s.handle].body)
                     < Remaining(s.threads[s.handle].body) <= 6)
  {
    EveryRun(Created(kind), run);
  }
}
