/** The signal handler, reverse mode's session and the retry loop, interleaved. */
module Shutdown {
  import opened Linger
  import opened Conservation

  /* A signal must be remembered whenever it comes: the handler sets a flag and then closes a pipe, and
  the two loops look at the one or the other at moments of their own. */

  // The handler: waiting for a signal, between its two steps, done.
  datatype Handler = Waiting | FlagSet | PipeClosed

  // The main process.  A session's part before reverseLinger may take any course.
  datatype Process =
    | Testing                                  // at persistent's loop test
    | Starting                                 // the test has passed, the session is about to start
    | Exporting                                // in a session, not yet in reverseLinger
    | Polling(w: World)                        // in reverseLinger, about to poll or in it
    | Answered(w: World, r: Round)             // poll has returned
    | Sleeping                                 // between sessions
    | Stopped                                  // persistent has returned
    | Exited(w: World)                         // os.Exit in reverseLinger

  datatype State = State(handler: Handler, proc: Process, channelDead: bool, sessions: nat)

  ghost predicate Init(s: State) {
    s == State(Waiting, Testing, false, 0)
  }

  predicate FlagIsSet(s: State) {
    s.handler != Waiting
  }

  /** What poll can answer: a closed pipe is readable, and one that is not is not; a dead channel shows
  too; the rest is open. */
  ghost predicate Answers(f: Files, s: State, poll: Poll) {
    match poll
    case Interrupted => true
    case PollFailed => true
    case Ready(state) =>
      && (Signalled(state(f.signal)) <==> s.handler == PipeClosed)
      && (Signalled(state(f.channel)) <==> s.channelDead)
  }

  // ----- the steps

  ghost predicate HandlerStep(s: State, s': State) {
    || (s.handler == Waiting && s' == s.(handler := FlagSet))
    || (s.handler == FlagSet && s' == s.(handler := PipeClosed))
  }

  ghost predicate ChannelDies(s: State, s': State) {
    s' == s.(channelDead := true)
  }

  ghost predicate MainStep(o: Options, f: Files, s: State, s': State) {
    match s.proc
    case Testing => s' == s.(proc := if FlagIsSet(s) then Stopped else Starting)
    case Starting => s' == s.(proc := Exporting, sessions := s.sessions + 1, channelDead := false)
    case Exporting => s' == s.(proc := Sleeping) || exists socks :: s' == s.(proc := Polling(World(socks, [], socks)))
    case Polling(w) => exists r: Round :: Answers(f, s, r.poll) && s' == s.(proc := Answered(w, r))
    case Answered(w, r) =>
      var t := ReverseTurn(o, f, w, r);
      s' == s.(proc := match t.exit
                       case StillRunning => Polling(t.world)
                       case ProcessExit => Exited(t.world)
                       case _ => Sleeping)
    case Sleeping => s' == s.(proc := Testing)
    case Stopped => false
    case Exited(_) => false
  }

  ghost predicate Next(o: Options, f: Files, s: State, s': State) {
    HandlerStep(s, s') || ChannelDies(s, s') || MainStep(o, f, s, s')
  }

  /** A stretch of an execution, from any state on. */
  ghost predicate IsStretch(o: Options, f: Files, run: seq<State>) {
    && |run| > 0
    && (|run| > 1 ==> IsStretch(o, f, run[..|run| - 1]) && Next(o, f, run[|run| - 2], run[|run| - 1]))
  }

  // ----- main results

  /** Once the handler has run, the next poll that returns with answers makes reverseLinger release all
  it holds and leave the process, be the channel dead or not. */
  lemma NextPollExits(o: Options, f: Files, s: State, s': State, s'': State)
    requires s.handler == PipeClosed && s.proc.Polling?
    requires MainStep(o, f, s, s') && s'.proc.Answered? && s'.proc.r.poll.Ready?
    requires MainStep(o, f, s', s'')
    ensures s''.proc == Exited(RebindAll(s.proc.w))
  {
  }

  /** The sessions still to be counted once the flag is set: the one whose test it came too late for. */
  function Underway(s: State): nat {
    s.sessions + if s.proc.Starting? then 1 else 0
  }

  lemma {:induction false} FlagStaysSet(o: Options, f: Files, run: seq<State>)
    requires IsStretch(o, f, run) && FlagIsSet(run[0])
    ensures FlagIsSet(run[|run| - 1]) && (run[0].handler == PipeClosed ==> run[|run| - 1].handler == PipeClosed)
  {
    if |run| > 1 {
      FlagStaysSet(o, f, run[..|run| - 1]);
    }
  }

  /** From the moment the flag is set, in every interleaving, no further session is started than one
  whose loop test had already passed. */
  lemma {:induction false} NoFurtherSession(o: Options, f: Files, run: seq<State>)
    requires IsStretch(o, f, run) && FlagIsSet(run[0])
    ensures Underway(run[|run| - 1]) <= Underway(run[0])
  {
    if |run| > 1 {
      NoFurtherSession(o, f, run[..|run| - 1]);
      FlagStaysSet(o, f, run[..|run| - 1]);
    }
  }

  // ----- what has been released

  /** In reverseLinger every socket is held or has been released once; when the process has left it from
  there, all have been. */
  ghost predicate Released(p: Process) {
    match p
    case Polling(w) => exists released :: Conserved(w, released)
    case Answered(w, _) => exists released :: Conserved(w, released)
    case Exited(w) => exists released :: AllReleased(w, released)
    case _ => true
  }

  lemma TurnReleases(o: Options, f: Files, w: World, r: Round)
    requires exists released :: Conserved(w, released)
    ensures var t := ReverseTurn(o, f, w, r);
            && (t.exit == StillRunning ==> exists released :: Conserved(t.world, released))
            && (t.exit == ProcessExit ==> exists released :: AllReleased(t.world, released))
  {
    var before :| Conserved(w, before);
    var released := ReverseTurnOk(o, f, w, r, before);
  }

  lemma StepReleases(o: Options, f: Files, s: State, s': State)
    requires Next(o, f, s, s') && Released(s.proc)
    ensures Released(s'.proc)
  {
    if MainStep(o, f, s, s') {
      match s.proc {
        case Exporting =>
          if s'.proc.Polling? {
            assert Conserved(s'.proc.w, []);
          }
        case Answered(w, r) => TurnReleases(o, f, w, r);
        case _ =>
      }
    }
  }

  /** In every execution, whatever the interleaving: once the process has exited on a signal, every
  socket that its session ever held has had its one detach attempt and its one close. */
  lemma {:induction false} ExitedHavingReleased(o: Options, f: Files, run: seq<State>)
    requires IsStretch(o, f, run) && Init(run[0])
    ensures Released(run[|run| - 1].proc)
    ensures var p := run[|run| - 1].proc; p.Exited? ==> exists released :: AllReleased(p.w, released)
  {
    if |run| > 1 {
      ExitedHavingReleased(o, f, run[..|run| - 1]);
      StepReleases(o, f, run[|run| - 2], run[|run| - 1]);
    }
  }

  /** How many polls return with answers in a stretch. */
  function AnswerCount(run: seq<State>): nat {
    if |run| <= 1 then 0
    else AnswerCount(run[..|run| - 1]) +
         if run[|run| - 2].proc.Polling? && run[|run| - 1].proc.Answered? && run[|run| - 1].proc.r.poll.Ready? then 1
         else 0
  }

  /** Where the main process can be, its last poll having been answered with the pipe closed. */
  ghost predicate OnItsWayOut(o: Options, f: Files, s: State) {
    || s.proc.Stopped? || s.proc.Exited?
    || (s.proc.Answered? && ReverseTurn(o, f, s.proc.w, s.proc.r).exit == ProcessExit)
  }

  /** With the handler done, whatever the process was at, no more than one poll is answered before it
  leaves: it does not go on serving. */
  lemma {:induction false} AtMostOneMoreAnswer(o: Options, f: Files, run: seq<State>)
    requires IsStretch(o, f, run) && run[0].handler == PipeClosed
    ensures AnswerCount(run) <= 1
    ensures AnswerCount(run) == 1 ==> OnItsWayOut(o, f, run[|run| - 1])
  {
    if |run| > 1 {
      var before := run[..|run| - 1];
      AtMostOneMoreAnswer(o, f, before);
      FlagStaysSet(o, f, before);
    }
  }

  // ----- only a signal ends it

  /** Stopped after the flag, and left the process, or about to, after the pipe. */
  ghost predicate EndsBySignal(o: Options, f: Files, s: State) {
    && (s.proc.Stopped? ==> FlagIsSet(s))
    && (s.proc.Exited? ==> s.handler == PipeClosed)
    && (s.proc.Answered? && ReverseTurn(o, f, s.proc.w, s.proc.r).exit == ProcessExit ==> s.handler == PipeClosed)
  }

  /** Without a signal the process goes on for ever, whatever fails: it stops between sessions only when the
  flag is set, and leaves a session for good only when the pipe is closed. */
  lemma {:induction false} OnlySignalsEnd(o: Options, f: Files, run: seq<State>)
    requires IsStretch(o, f, run) && Init(run[0])
    ensures EndsBySignal(o, f, run[|run| - 1])
  {
    if |run| > 1 {
      OnlySignalsEnd(o, f, run[..|run| - 1]);
    }
  }

  // ----- and it can always come to its end

  ghost predicate LeadsTo(o: Options, f: Files, s: State, s': State) {
    exists run :: IsStretch(o, f, run) && run[0] == s && run[|run| - 1] == s'
  }

  lemma {:induction false} LeadsToItself(o: Options, f: Files, s: State)
    ensures LeadsTo(o, f, s, s)
  {
    assert IsStretch(o, f, [s]);
  }

  lemma {:induction false} LeadsOn(o: Options, f: Files, s: State, t: State, t': State)
    requires LeadsTo(o, f, s, t) && Next(o, f, t, t')
    ensures LeadsTo(o, f, s, t')
  {
    var run :| IsStretch(o, f, run) && run[0] == s && run[|run| - 1] == t;
    var more := run + [t'];
    assert more[..|run|] == run;
    assert IsStretch(o, f, more);
  }

  /** Whatever the main process does, the handler can set the flag and close the pipe. */
  lemma {:induction false} HandlerCanRun(o: Options, f: Files, s: State, t: State) returns (t': State)
    requires LeadsTo(o, f, s, t)
    ensures LeadsTo(o, f, s, t') && t' == t.(handler := PipeClosed)
  {
    t' := t;
    if t.handler == Waiting {
      t' := t.(handler := FlagSet);
      LeadsOn(o, f, s, t, t');
    }
    if t'.handler == FlagSet {
      var u := t'.(handler := PipeClosed);
      LeadsOn(o, f, s, t', u);
      t' := u;
    }
  }

  /** What poll may answer. */
  function Answer(f: Files, signal: bool, dead: bool): Round {
    Round(Ready(x => if x == f.signal && signal then POLLHUP else if x == f.channel && dead then POLLHUP else 0),
          RecvAgain, true, Refused)
  }

  lemma AnswerIsOne(f: Files, s: State)
    requires f.signal != f.channel
    ensures Answers(f, s, Answer(f, s.handler == PipeClosed, s.channelDead).poll)
  {
    HungUpBits(POLLHUP);
    assert (POLLHUP & (POLLIN | POLLHUP | POLLERR)) == POLLHUP;
    assert (0 as bv16) & (POLLIN | POLLHUP | POLLERR) == 0;
  }

  /** From its loop test on, with the flag set. */
  lemma {:induction false} StopsFromTest(o: Options, f: Files, s: State, t: State) returns (t': State)
    requires LeadsTo(o, f, s, t) && FlagIsSet(t) && (t.proc.Testing? || t.proc.Sleeping?)
    ensures LeadsTo(o, f, s, t') && t'.proc.Stopped?
  {
    var u := t.(proc := Testing);
    if t.proc.Sleeping? {
      assert MainStep(o, f, t, u);
      LeadsOn(o, f, s, t, u);
    }
    t' := u.(proc := Stopped);
    assert MainStep(o, f, u, t');
    LeadsOn(o, f, s, u, t');
  }

  /** From a poll on, with the pipe closed. */
  lemma {:induction false} ExitsFromPoll(o: Options, f: Files, s: State, t: State) returns (t': State)
    requires f.signal != f.channel && LeadsTo(o, f, s, t) && t.handler == PipeClosed && t.proc.Polling?
    ensures LeadsTo(o, f, s, t') && t'.proc == Exited(RebindAll(t.proc.w))
  {
    var r := Answer(f, true, t.channelDead);
    AnswerIsOne(f, t);
    var u := t.(proc := Answered(t.proc.w, r));
    assert MainStep(o, f, t, u);
    LeadsOn(o, f, s, t, u);
    t' := t.(proc := Exited(RebindAll(t.proc.w)));
    assert Signalled(r.poll.state(f.signal));
    assert MainStep(o, f, u, t');
    LeadsOn(o, f, s, u, t');
  }

  /** From any moment on a signal can bring the process to its end: it stops, or leaves having released all
  that it held. */
  lemma {:induction false} CanComeToEnd(o: Options, f: Files, s: State) returns (t: State)
    requires f.signal != f.channel
    ensures LeadsTo(o, f, s, t) && (t.proc.Stopped? || t.proc.Exited?)
  {
    LeadsToItself(o, f, s);
    t := HandlerCanRun(o, f, s, s);
    if t.proc.Starting? {
      var u := t.(proc := Exporting, sessions := t.sessions + 1, channelDead := false);
      assert MainStep(o, f, t, u);
      LeadsOn(o, f, s, t, u);
      t := u;
    }
    if t.proc.Exporting? {
      var u := t.(proc := Sleeping);
      assert MainStep(o, f, t, u);
      LeadsOn(o, f, s, t, u);
      t := u;
    }
    if t.proc.Answered? {
      t := AnswerIsTaken(o, f, s, t);
    }
    if t.proc.Testing? || t.proc.Sleeping? {
      t := StopsFromTest(o, f, s, t);
    } else if t.proc.Polling? {
      t := ExitsFromPoll(o, f, s, t);
    }
  }

  lemma {:induction false} AnswerIsTaken(o: Options, f: Files, s: State, t: State) returns (t': State)
    requires LeadsTo(o, f, s, t) && t.proc.Answered?
    ensures LeadsTo(o, f, s, t') && t'.handler == t.handler && t'.sessions == t.sessions
    ensures var turn := ReverseTurn(o, f, t.proc.w, t.proc.r);
            t'.proc == match turn.exit
                       case StillRunning => Polling(turn.world)
                       case ProcessExit => Exited(turn.world)
                       case _ => Sleeping
  {
    var turn := ReverseTurn(o, f, t.proc.w, t.proc.r);
    t' := t.(proc := match turn.exit
                     case StillRunning => Polling(turn.world)
                     case ProcessExit => Exited(turn.world)
                     case _ => Sleeping);
    assert MainStep(o, f, t, t');
    LeadsOn(o, f, s, t, t');
  }

  /** Until then, a session can be had whenever the last one is over: it starts, holds what it has exported,
  ends when its channel dies, and the process is back at its test. */
  lemma {:induction false} AnotherSession(o: Options, f: Files, s: State, socks: seq<Sock>)
    returns (held: State, t: State)
    requires f.signal != f.channel && s.handler == Waiting && s.proc.Testing?
    ensures LeadsTo(o, f, s, held) && held.proc == Polling(Start(socks)) && held.sessions == s.sessions + 1
    ensures LeadsTo(o, f, s, t) && t.proc == Testing && t.handler == Waiting && t.sessions == s.sessions + 1
  {
    LeadsToItself(o, f, s);
    var s1 := s.(proc := Starting);
    LeadsOn(o, f, s, s, s1);
    var s2 := s1.(proc := Exporting, sessions := s.sessions + 1, channelDead := false);
    LeadsOn(o, f, s, s1, s2);
    held := s2.(proc := Polling(World(socks, [], socks)));
    LeadsOn(o, f, s, s2, held);
    t := EndsByChannel(o, f, s, held);
  }

  lemma {:induction false} EndsByChannel(o: Options, f: Files, s: State, held: State) returns (t: State)
    requires f.signal != f.channel && LeadsTo(o, f, s, held) && held.handler == Waiting && held.proc.Polling?
    ensures LeadsTo(o, f, s, t) && t.proc == Testing && t.handler == Waiting && t.sessions == held.sessions
  {
    var dead := held.(channelDead := true);
    LeadsOn(o, f, s, held, dead);
    var r := Answer(f, false, true);
    AnswerIsOne(f, dead);
    var answered := dead.(proc := Answered(held.proc.w, r));
    assert MainStep(o, f, dead, answered);
    LeadsOn(o, f, s, dead, answered);
    assert !Signalled(r.poll.state(f.signal)) && Signalled(r.poll.state(f.channel));
    var slept := AnswerIsTaken(o, f, s, answered);
    t := slept.(proc := Testing);
    assert MainStep(o, f, slept, t);
    LeadsOn(o, f, s, slept, t);
  }
}
