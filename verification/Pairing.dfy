/** The session protocol between exporter and importer. */
module Pairing {
  /* The exporter writes one "-Dev" line per device into a first-in first-out channel and then waits for
  a connection; the importer connects back through the ssh forward once per line it reads and hands
  its end to vhci; the exporter hands the end it accepts to usbip-host.  Connections travel apart
  from the lines: they arrive as late as they like, in any order, or never.

  In forward mode the exporter is the remote payload, in reverse mode the local process; apart from
  what a failed export does, the two run the same protocol. */

  datatype Mode = Forward | ReverseOneshot | ReverseVhub

  datatype Device = Device(busid: string, line: string)

  // A "-Dev" message is named by the announcement it carries.
  datatype Message = Dev(k: nat) | Eof | Chatter(text: string)

  datatype Importer = Reading | Dialing(k: nat) | Connected(c: nat) | Ended

  datatype Exporter = Exporter(
    lingering: bool,        // past the first loop over the devices
    waiting: bool,          // the last announcement has been made and not yet accepted
    stopped: bool)

  type Conn = nat

  datatype State = State(
    mode: Mode,
    announced: seq<Device>,
    exporter: Exporter,
    channel: seq<Message>,
    importer: Importer,
    openedFor: map<Conn, nat>,      // the announcement each connection was opened for
    pending: set<Conn>,          // opened, neither accepted nor lost
    vhci: map<Conn, string>,     // the -Dev line each connection was given to vhci with
    bound: map<Conn, nat>,       // the announcement each accepted connection was bound for
    stale: bool)                 // an accept timed out in reverseLinger with its answer on the way

  ghost predicate Init(s: State) {
    s == State(s.mode, [], Exporter(false, false, false), [], Reading, map[], {}, map[], map[], false)
  }

  // ----- the exporter's steps

  /** newDev / exportOne up to the accept; only the first loop or a hot-plug makes one. */
  ghost predicate Announce(s: State, s': State, d: Device) {
    && !s.exporter.stopped && !s.exporter.waiting
    && (s.mode == ReverseOneshot ==> !s.exporter.lingering)
    && s' == s.(announced := s.announced + [d],
                channel := s.channel + [Dev(|s.announced|)],
                exporter := s.exporter.(waiting := true))
  }

  /** Log lines share the channel in forward mode. */
  ghost predicate Log(s: State, s': State, text: string) {
    && !s.exporter.stopped && s' == s.(channel := s.channel + [Chatter(text)])
  }

  /** The first loop is over: go on monitoring, or (oneshot) say so; a forward oneshot session then
  leaves its sockets to the linger child. */
  ghost predicate FirstLoopDone(s: State, s': State) {
    && !s.exporter.stopped && !s.exporter.waiting && !s.exporter.lingering
    && match s.mode
       case ReverseVhub => s' == s.(exporter := s.exporter.(lingering := true))
       case ReverseOneshot =>
         s' == s.(exporter := s.exporter.(lingering := true), channel := s.channel + [Eof])
       case Forward =>
         || s' == s.(exporter := s.exporter.(lingering := true))
         || s' == s.(exporter := s.exporter.(stopped := true), channel := s.channel + [Eof])
  }

  /** What follows a failed export: only reverseLinger warns and carries on. */
  function AfterFailure(s: State): Exporter {
    if s.mode == ReverseVhub && s.exporter.lingering then s.exporter.(waiting := false)
    else s.exporter.(waiting := false, stopped := true)
  }

  ghost predicate Accept(s: State, s': State, c: Conn) {
    && !s.exporter.stopped && s.exporter.waiting && |s.announced| > 0 && c in s.pending
    && s' == s.(pending := s.pending - {c},
                bound := s.bound[c := |s.announced| - 1],
                exporter := s.exporter.(waiting := false))
  }

  /** A connection came, but exporterAttach refused it. */
  ghost predicate AcceptInVain(s: State, s': State, c: Conn) {
    && !s.exporter.stopped && s.exporter.waiting && c in s.pending
    && s' == s.(pending := s.pending - {c}, exporter := AfterFailure(s))
  }

  ghost predicate AcceptTimeout(s: State, s': State) {
    && !s.exporter.stopped && s.exporter.waiting
    && s' == s.(exporter := AfterFailure(s),
                stale := s.stale || (!AfterFailure(s).stopped && OnTheWay(s) > 0))
  }

  /** A signal, a dead channel, a fatal error. */
  ghost predicate Stop(s: State, s': State) {
    s' == s.(exporter := s.exporter.(stopped := true))
  }

  // ----- the importer's steps

  ghost predicate Read(s: State, s': State) {
    && s.importer == Reading && s.channel != []
    && s' == s.(channel := s.channel[1..],
                importer := match s.channel[0]
                            case Dev(k) => Dialing(k)
                            case Eof => Ended
                            case Chatter(_) => Reading)
  }

  ghost predicate Dial(s: State, s': State, c: Conn) {
    && s.importer.Dialing? && c !in s.openedFor
    && s' == s.(openedFor := s.openedFor[c := s.importer.k], pending := s.pending + {c}, importer := Connected(c))
  }

  ghost predicate AttachToVhci(s: State, s': State) {
    && s.importer.Connected? && s.importer.c in s.openedFor && s.openedFor[s.importer.c] < |s.announced|
    && s' == s.(vhci := s.vhci[s.importer.c := s.announced[s.openedFor[s.importer.c]].line], importer := Reading)
  }

  /** A bad line, no connection, no free port, the end of the input. */
  ghost predicate ImporterFails(s: State, s': State) {
    s' == s.(importer := Ended)
  }

  /** The forward drops a connection. */
  ghost predicate Lose(s: State, s': State, c: Conn) {
    s' == s.(pending := s.pending - {c})
  }

  ghost predicate ExporterStep(s: State, s': State) {
    || (exists d :: Announce(s, s', d)) || (exists t :: Log(s, s', t)) || FirstLoopDone(s, s')
    || (exists c :: Accept(s, s', c)) || (exists c :: AcceptInVain(s, s', c))
    || AcceptTimeout(s, s') || Stop(s, s')
  }

  ghost predicate ImporterStep(s: State, s': State) {
    || Read(s, s') || (exists c :: Dial(s, s', c)) || AttachToVhci(s, s') || ImporterFails(s, s')
    || (exists c :: Lose(s, s', c))
  }

  ghost predicate Next(s: State, s': State) {
    ExporterStep(s, s') || ImporterStep(s, s')
  }

  ghost predicate IsRun(run: seq<State>) {
    && |run| > 0
    && if |run| == 1 then Init(run[0])
       else IsRun(run[..|run| - 1]) && Next(run[|run| - 2], run[|run| - 1])
  }

  function Last(run: seq<State>): State
    requires |run| > 0
  {
    run[|run| - 1]
  }

  // ----- the property

  /** The connection bound for a device is the one the importer opened for that device's line and
  gave to vhci with it. */
  ghost predicate Paired(s: State) {
    forall c :: c in s.bound ==>
      && s.bound[c] < |s.announced| && c in s.openedFor && s.openedFor[c] < |s.announced|
      && s.announced[s.openedFor[c]] == s.announced[s.bound[c]]
      && (c in s.vhci ==> s.vhci[c] == s.announced[s.bound[c]].line)
  }

  /** No announcement is bound to two connections. */
  ghost predicate OneConnectionEach(s: State) {
    forall c, c' :: c in s.bound && c' in s.bound && s.bound[c] == s.bound[c'] ==> c == c'
  }

  // ----- the invariant

  function DevLines(channel: seq<Message>): nat {
    if channel == [] then 0 else (if channel[0].Dev? then 1 else 0) + DevLines(channel[1..])
  }

  /** How many answers to announcements may still reach the exporter. */
  function OnTheWay(s: State): nat {
    DevLines(s.channel) + (if s.importer.Dialing? then 1 else 0) + |s.pending|
  }

  /** Nothing is on the way but, while the exporter waits, one answer to the last announcement. */
  ghost predicate NothingStale(s: State) {
    && OnTheWay(s) <= (if s.exporter.waiting then 1 else 0)
    && (forall i :: 0 <= i < |s.channel| && s.channel[i].Dev? ==> s.channel[i].k == |s.announced| - 1)
    && (s.importer.Dialing? ==> s.importer.k == |s.announced| - 1)
    && (forall c :: c in s.pending ==> c in s.openedFor && s.openedFor[c] == |s.announced| - 1)
  }

  ghost predicate Sane(s: State) {
    && (s.exporter.waiting ==> |s.announced| > 0)
    && (s.importer.Connected? ==> s.importer.c in s.openedFor)
    && (forall i :: 0 <= i < |s.channel| && s.channel[i].Dev? ==> s.channel[i].k < |s.announced|)
    && (s.importer.Dialing? ==> s.importer.k < |s.announced|)
    && (forall c :: c in s.openedFor ==> s.openedFor[c] < |s.announced|)
    && (forall c :: c in s.pending ==> c in s.openedFor)
    && (forall c :: c in s.vhci ==> c in s.openedFor && s.vhci[c] == s.announced[s.openedFor[c]].line)
    && (forall c :: c in s.bound ==> c in s.openedFor)
    && (forall c :: c in s.bound ==> s.bound[c] < |s.announced| - (if s.exporter.waiting then 1 else 0))
    && (s.stale ==> s.mode == ReverseVhub)
    && (s.mode == ReverseOneshot && s.exporter.lingering ==> !s.exporter.waiting)
  }

  ghost predicate ExactlyPaired(s: State) {
    forall c :: c in s.bound ==> c in s.openedFor && s.openedFor[c] == s.bound[c]
  }

  ghost predicate Inv(s: State) {
    && Sane(s) && OneConnectionEach(s)
    && (!s.stale ==> ExactlyPaired(s) && (!s.exporter.stopped ==> NothingStale(s)))
  }

  lemma {:induction false} DevLinesAppend(channel: seq<Message>, m: Message)
    ensures DevLines(channel + [m]) == DevLines(channel) + (if m.Dev? then 1 else 0)
  {
    if channel != [] {
      assert (channel + [m])[1..] == channel[1..] + [m];
      DevLinesAppend(channel[1..], m);
    }
  }

  lemma {:induction false} SomeDevLine(channel: seq<Message>, i: nat)
    requires i < |channel| && channel[i].Dev?
    ensures DevLines(channel) > 0
  {
    if i > 0 {
      SomeDevLine(channel[1..], i - 1);
    }
  }

  lemma AnnounceKeepsInv(s: State, s': State, d: Device)
    requires Inv(s) && Announce(s, s', d)
    ensures Inv(s')
  {
    DevLinesAppend(s.channel, Dev(|s.announced|));
    if !s.stale {
      forall i | 0 <= i < |s'.channel| && s'.channel[i].Dev?
        ensures s'.channel[i].k == |s'.announced| - 1
      {
        if i < |s.channel| { SomeDevLine(s.channel, i); }
      }
    }
  }

  lemma LineKeepsInv(s: State, s': State, m: Message)
    requires Inv(s) && !m.Dev? && !s.exporter.waiting
    requires s'.exporter.waiting == s.exporter.waiting && (s'.exporter.stopped || !s.exporter.stopped)
    requires s' == s.(exporter := s'.exporter, channel := s.channel + [m])
    ensures Inv(s')
  {
    DevLinesAppend(s.channel, m);
  }

  lemma LogKeepsInv(s: State, s': State, text: string)
    requires Inv(s) && Log(s, s', text)
    ensures Inv(s')
  {
    DevLinesAppend(s.channel, Chatter(text));
  }

  lemma FirstLoopDoneKeepsInv(s: State, s': State)
    requires Inv(s) && FirstLoopDone(s, s')
    ensures Inv(s')
  {
    if s'.channel != s.channel {
      LineKeepsInv(s, s', Eof);
    }
  }

  lemma AcceptKeepsInv(s: State, s': State, c: Conn)
    requires Inv(s) && (Accept(s, s', c) || AcceptInVain(s, s', c))
    ensures Inv(s')
  {
    assert |s'.pending| == |s.pending| - 1;
  }

  lemma TimeoutKeepsInv(s: State, s': State)
    requires Inv(s) && (AcceptTimeout(s, s') || Stop(s, s'))
    ensures Inv(s')
  {
  }

  lemma ExporterKeepsInv(s: State, s': State)
    requires Inv(s) && ExporterStep(s, s')
    ensures Inv(s')
  {
    if d :| Announce(s, s', d) {
      AnnounceKeepsInv(s, s', d);
    } else if t :| Log(s, s', t) {
      LogKeepsInv(s, s', t);
    } else if FirstLoopDone(s, s') {
      FirstLoopDoneKeepsInv(s, s');
    } else if c :| Accept(s, s', c) {
      AcceptKeepsInv(s, s', c);
    } else if c :| AcceptInVain(s, s', c) {
      AcceptKeepsInv(s, s', c);
    } else {
      TimeoutKeepsInv(s, s');
    }
  }

  lemma ReadKeepsInv(s: State, s': State)
    requires Inv(s) && Read(s, s')
    ensures Inv(s')
  {
    assert s.channel[0].Dev? ==> s.channel[0].k < |s.announced|;
    assert forall i :: 0 <= i < |s'.channel| ==> s'.channel[i] == s.channel[i + 1];
  }

  lemma DialKeepsInv(s: State, s': State, c: Conn)
    requires Inv(s) && Dial(s, s', c)
    ensures Inv(s')
  {
    assert c !in s.pending;
  }

  lemma LoseKeepsInv(s: State, s': State, c: Conn)
    requires Inv(s) && Lose(s, s', c)
    ensures Inv(s')
  {
    assert |s'.pending| <= |s.pending| by {
      if c !in s.pending { assert s'.pending == s.pending; }
    }
  }

  lemma VhciKeepsInv(s: State, s': State)
    requires Inv(s) && (AttachToVhci(s, s') || ImporterFails(s, s'))
    ensures Inv(s')
  {
  }

  lemma ImporterKeepsInv(s: State, s': State)
    requires Inv(s) && ImporterStep(s, s')
    ensures Inv(s')
  {
    if c :| Lose(s, s', c) {
      LoseKeepsInv(s, s', c);
    } else if Read(s, s') {
      ReadKeepsInv(s, s');
    } else if c :| Dial(s, s', c) {
      DialKeepsInv(s, s', c);
    } else {
      VhciKeepsInv(s, s');
    }
  }

  lemma InitHasInv(s: State)
    requires Init(s)
    ensures Inv(s)
  {
  }

  lemma StepKeepsInv(s: State, s': State)
    requires Inv(s) && Next(s, s')
    ensures Inv(s')
  {
    if ExporterStep(s, s') {
      ExporterKeepsInv(s, s');
    } else {
      ImporterKeepsInv(s, s');
    }
  }

  lemma ExporterKeepsMode(s: State, s': State)
    requires ExporterStep(s, s')
    ensures s'.mode == s.mode
  {
    if d :| Announce(s, s', d) {
    } else if t :| Log(s, s', t) {
    } else if c :| Accept(s, s', c) {
    } else if c :| AcceptInVain(s, s', c) {
    }
  }

  lemma ImporterKeepsMode(s: State, s': State)
    requires ImporterStep(s, s')
    ensures s'.mode == s.mode
  {
    if c :| Dial(s, s', c) {
    } else if c :| Lose(s, s', c) {
    }
  }

  lemma StepKeepsMode(s: State, s': State)
    requires Next(s, s')
    ensures s'.mode == s.mode
  {
    if ExporterStep(s, s') { ExporterKeepsMode(s, s'); } else { ImporterKeepsMode(s, s'); }
  }

  lemma {:induction false} RunKeepsInv(run: seq<State>)
    requires IsRun(run)
    ensures Inv(Last(run)) && Last(run).mode == run[0].mode
  {
    if |run| == 1 {
      InitHasInv(run[0]);
    } else {
      RunKeepsInv(run[..|run| - 1]);
      StepKeepsInv(run[|run| - 2], run[|run| - 1]);
      StepKeepsMode(run[|run| - 2], run[|run| - 1]);
    }
  }

  // ----- main results

  /** Forward sessions and reverse oneshot sessions pair every connection in every run. */
  lemma {:induction false} PairedUnlessVhub(run: seq<State>)
    requires IsRun(run) && run[0].mode != ReverseVhub
    ensures Paired(Last(run)) && OneConnectionEach(Last(run))
  {
    RunKeepsInv(run);
  }

  /** A reverse --vhub session does so as long as no accept has timed out in reverseLinger with its
  answer still on the way. */
  lemma {:induction false} PairedUntilStale(run: seq<State>)
    requires IsRun(run) && !Last(run).stale
    ensures Paired(Last(run))
  {
    RunKeepsInv(run);
  }

  /** In every mode an announcement is bound to one connection only, and vhci is told, with each
  connection, the line of the announcement it was opened for. */
  lemma {:induction false} NeverBoundTwice(run: seq<State>)
    requires IsRun(run)
    ensures OneConnectionEach(Last(run))
    ensures var s := Last(run);
            forall c :: c in s.vhci ==>
              c in s.openedFor && s.openedFor[c] < |s.announced| && s.vhci[c] == s.announced[s.openedFor[c]].line
  {
    RunKeepsInv(run);
  }

  lemma {:induction false} Extend(run: seq<State>, s: State)
    requires IsRun(run) && Next(Last(run), s)
    ensures IsRun(run + [s]) && (run + [s])[0] == run[0] && run <= run + [s] && Last(run + [s]) == s
  {
    assert (run + [s])[..|run|] == run;
  }

  // ----- what a late answer can do

  /** The answer to announcement k can still reach the exporter: its connection is open, or being
  opened, or the importer has yet to read the line. */
  ghost predicate OnItsWay(s: State, k: nat) {
    || (exists c :: c in s.pending && c in s.openedFor && s.openedFor[c] == k)
    || s.importer == Dialing(k)
    || (!s.importer.Ended? && exists i :: 0 <= i < |s.channel| && s.channel[i] == Dev(k))
  }

  ghost predicate NoEof(channel: seq<Message>) {
    forall i :: 0 <= i < |channel| ==> channel[i] != Eof
  }

  lemma ExporterSendsNoEof(s: State, s': State)
    requires ExporterStep(s, s') && s.mode == ReverseVhub && NoEof(s.channel)
    ensures NoEof(s'.channel)
  {
    if d :| Announce(s, s', d) {
    } else if t :| Log(s, s', t) {
    } else if c :| Accept(s, s', c) {
    } else if c :| AcceptInVain(s, s', c) {
    }
  }

  lemma ImporterSendsNothing(s: State, s': State)
    requires ImporterStep(s, s') && NoEof(s.channel)
    ensures NoEof(s'.channel)
  {
    if c :| Dial(s, s', c) {
    } else if c :| Lose(s, s', c) {
    }
  }

  /** A reverse --vhub session never says that it is complete. */
  lemma {:induction false} VhubHasNoEof(run: seq<State>)
    requires IsRun(run) && run[0].mode == ReverseVhub
    ensures NoEof(Last(run).channel)
  {
    if |run| > 1 {
      var before := run[..|run| - 1];
      VhubHasNoEof(before);
      RunKeepsInv(before);
      if ExporterStep(Last(before), Last(run)) {
        ExporterSendsNoEof(Last(before), Last(run));
      } else {
        ImporterSendsNothing(Last(before), Last(run));
      }
    }
  }

  /** There is always another connection to open. */
  lemma Unused(conns: map<Conn, nat>) returns (c: Conn)
    ensures c !in conns
  {
    if conns == map[] {
      c := 0;
    } else {
      var m := Largest(conns);
      c := m + 1;
    }
  }

  lemma {:induction false} Largest(conns: map<Conn, nat>) returns (m: Conn)
    requires conns != map[]
    ensures m in conns && forall c :: c in conns ==> c <= m
    decreases |conns|
  {
    m :| m in conns;
    var rest := conns - {m};
    assert forall c :: c in conns && c != m ==> c in rest;
    if rest != map[] {
      var n := Largest(rest);
      if m < n { m := n; }
    }
  }

  /** The importer's part has gone on, and the exporter's has not. */
  ghost predicate SameExporter(s: State, s': State) {
    s'.mode == s.mode && s'.announced == s.announced && s'.exporter == s.exporter
  }

  function ImporterRank(i: Importer): nat {
    match i
    case Dialing(_) => 2
    case Connected(_) => 1
    case _ => 0
  }

  /** One step of the importer towards the answer to k. */
  lemma Deliver(s: State, k: nat) returns (s': State)
    requires Sane(s) && NoEof(s.channel) && OnItsWay(s, k)
    requires !exists c :: c in s.pending && c in s.openedFor && s.openedFor[c] == k
    ensures ImporterStep(s, s') && SameExporter(s, s') && OnItsWay(s', k)
    ensures |s'.channel| < |s.channel| ||
            (|s'.channel| == |s.channel| && ImporterRank(s'.importer) < ImporterRank(s.importer))
  {
    match s.importer {
      case Dialing(j) =>
        var c := Unused(s.openedFor);
        s' := s.(openedFor := s.openedFor[c := j], pending := s.pending + {c}, importer := Connected(c));
        assert Dial(s, s', c);
        if j == k {
          assert c in s'.pending && s'.openedFor[c] == k;
        }
      case Connected(c) =>
        s' := s.(vhci := s.vhci[c := s.announced[s.openedFor[c]].line], importer := Reading);
        assert AttachToVhci(s, s');
      case Reading =>
        s' := s.(channel := s.channel[1..],
                 importer := match s.channel[0] case Dev(j) => Dialing(j) case Eof => Ended case Chatter(_) => Reading);
        assert Read(s, s');
        var i :| 0 <= i < |s.channel| && s.channel[i] == Dev(k);
        if i > 0 {
          assert s'.channel[i - 1] == Dev(k);
        }
    }
  }

  lemma {:induction false} Delivered(run: seq<State>, k: nat) returns (more: seq<State>, c: Conn)
    requires IsRun(run) && run[0].mode == ReverseVhub && OnItsWay(Last(run), k)
    ensures IsRun(more) && run <= more && SameExporter(Last(run), Last(more))
    ensures c in Last(more).pending && c in Last(more).openedFor && Last(more).openedFor[c] == k
    decreases |Last(run).channel|, ImporterRank(Last(run).importer)
  {
    var s := Last(run);
    if b :| b in s.pending && b in s.openedFor && s.openedFor[b] == k {
      more, c := run, b;
    } else {
      RunKeepsInv(run);
      VhubHasNoEof(run);
      var s' := Deliver(s, k);
      Extend(run, s');
      more, c := Delivered(run + [s'], k);
    }
  }

  /** This run can go on to a wrong pair. */
  ghost predicate CanMispair(run: seq<State>) {
    exists more :: IsRun(more) && run <= more && !Paired(Last(more))
  }

  /** As long as the answer to an announcement is on its way - its line not even read, its connection
  not opened, or open - and reverseLinger does not wait for it any more, or is about to stop waiting,
  announcing any other device is enough for that connection to be bound to the wrong one. */
  lemma {:induction false} LateConnectionMispairs(run: seq<State>, k: nat, d: Device)
    requires IsRun(run) && k < |Last(run).announced| && Last(run).announced[k] != d
    requires var s := Last(run);
             s.mode == ReverseVhub && s.exporter.lingering && !s.exporter.stopped && OnItsWay(s, k)
    ensures CanMispair(run)
  {
    var run1 := TimedOut(run, k);
    var s1 := Last(run1);
    var s2 := s1.(announced := s1.announced + [d], channel := s1.channel + [Dev(|s1.announced|)],
                  exporter := s1.exporter.(waiting := true));
    assert Announce(s1, s2, d);
    Extend(run1, s2);
    LongerChannel(s1, s2, k);
    RunKeepsInv(run);
    var run3, c := Delivered(run1 + [s2], k);
    var s3 := Last(run3);
    var s4 := s3.(pending := s3.pending - {c}, bound := s3.bound[c := |s3.announced| - 1],
                  exporter := s3.exporter.(waiting := false));
    assert Accept(s3, s4, c);
    Extend(run3, s4);
    var more := run3 + [s4];
    assert c in s4.bound && s4.announced[s4.bound[c]] == d && s4.announced[s4.openedFor[c]] == s2.announced[k];
    assert IsRun(more) && run <= more && !Paired(Last(more));
  }

  lemma LongerChannel(s: State, s': State, k: nat)
    requires OnItsWay(s, k) && s'.channel == s.channel + [Dev(|s.announced|)]
    requires s'.importer == s.importer && s'.pending == s.pending && s'.openedFor == s.openedFor
    ensures OnItsWay(s', k)
  {
    if i :| 0 <= i < |s.channel| && s.channel[i] == Dev(k) {
      assert s'.channel[i] == Dev(k);
    }
  }

  /** reverseLinger has stopped waiting, if it did. */
  lemma {:induction false} TimedOut(run: seq<State>, k: nat) returns (more: seq<State>)
    requires IsRun(run) && OnItsWay(Last(run), k)
    requires var s := Last(run); s.mode == ReverseVhub && s.exporter.lingering && !s.exporter.stopped
    ensures IsRun(more) && run <= more && OnItsWay(Last(more), k) && Last(more).mode == ReverseVhub
    ensures Last(more).exporter == Last(run).exporter.(waiting := false) && Last(more).announced == Last(run).announced
  {
    var s := Last(run);
    if s.exporter.waiting {
      var s' := s.(exporter := AfterFailure(s), stale := s.stale || OnTheWay(s) > 0);
      assert AcceptTimeout(s, s');
      Extend(run, s');
      more := run + [s'];
    } else {
      more := run;
    }
  }

  lemma {:induction false} FirstDevLine(channel: seq<Message>) returns (i: nat)
    requires DevLines(channel) > 0
    ensures i < |channel| && channel[i].Dev?
  {
    if channel[0].Dev? {
      i := 0;
    } else {
      i := FirstDevLine(channel[1..]);
      i := i + 1;
    }
  }

  lemma SomeOnItsWay(s: State) returns (k: nat)
    requires Sane(s) && OnTheWay(s) > 0 && (s.importer.Ended? ==> s.pending != {})
    ensures OnItsWay(s, k) && k < |s.announced|
  {
    if s.pending != {} {
      var c :| c in s.pending;
      k := s.openedFor[c];
    } else if s.importer.Dialing? {
      k := s.importer.k;
    } else {
      var i := FirstDevLine(s.channel);
      k := s.channel[i].k;
    }
  }

  /** So every accept timeout of reverseLinger that comes before the answer does can end in a wrong pair:
  exactly those that set stale, unless the importer has gone with the line unread. */
  lemma {:induction false} TimeoutCanMispair(run: seq<State>)
    requires IsRun(run)
    requires var s := Last(run);
             && s.mode == ReverseVhub && s.exporter.lingering && s.exporter.waiting && !s.exporter.stopped
             && OnTheWay(s) > 0 && (s.importer.Ended? ==> s.pending != {})
    ensures CanMispair(run)
  {
    RunKeepsInv(run);
    var k := SomeOnItsWay(Last(run));
    var a := Last(run).announced[k];
    assert a.busid + "x" != a.busid by { assert |a.busid + "x"| != |a.busid|; }
    LateConnectionMispairs(run, k, Device(a.busid + "x", ""));
  }

  /** Two devices suffice: the first is answered after its deadline. */
  lemma VhubCanMispair()
    ensures exists run: seq<State> :: IsRun(run) && run[0].mode == ReverseVhub && !Paired(Last(run))
  {
    var a, b := Device("1-1", "1 2 480"), Device("1-2", "1 3 480");
    var s0 := State(ReverseVhub, [], Exporter(false, false, false), [], Reading, map[], {}, map[], map[], false);
    var s1 := s0.(exporter := s0.exporter.(lingering := true));
    assert FirstLoopDone(s0, s1);
    Extend([s0], s1);
    var s2 := s1.(announced := [a], channel := [Dev(0)], exporter := s1.exporter.(waiting := true));
    assert Announce(s1, s2, a);
    Extend([s0] + [s1], s2);
    var s3 := s2.(channel := [], importer := Dialing(0));
    assert Read(s2, s3);
    Extend([s0] + [s1] + [s2], s3);
    var s4 := s3.(openedFor := map[7 := 0], pending := {7}, importer := Connected(7));
    assert Dial(s3, s4, 7);
    Extend([s0] + [s1] + [s2] + [s3], s4);
    assert 7 in s4.pending && s4.openedFor[7] == 0;
    LateConnectionMispairs([s0] + [s1] + [s2] + [s3] + [s4], 0, b);
  }

  ghost predicate AlwaysPaired(mode: Mode) {
    forall run: seq<State> :: IsRun(run) && run[0].mode == mode ==> Paired(Last(run))
  }

  /** The options decide it: every session of a mode pairs all its connections, whatever the
  interleaving, exactly when the mode is not reverse --vhub. */
  lemma PairingHoldsExactlyUnlessReverseVhub(mode: Mode)
    ensures AlwaysPaired(mode) <==> mode != ReverseVhub
  {
    if mode == ReverseVhub {
      VhubCanMispair();
    } else {
      forall run: seq<State> | IsRun(run) && run[0].mode == mode
        ensures Paired(Last(run))
      {
        PairedUnlessVhub(run);
      }
    }
  }

  // ----- no device is skipped

  ghost predicate IsBound(s: State, k: int) {
    exists c :: c in s.bound && s.bound[c] == k
  }

  /** Every failed export of this session ends it. */
  predicate FailuresAreFinal(s: State) {
    s.mode != ReverseVhub || !s.exporter.lingering
  }

  /** As long as no failed export has been passed over, each device announced has been bound, but for one
  whose answer is being waited for; and the end is announced only when all have. */
  ghost predicate NoneSkipped(s: State) {
    && (forall c :: c in s.pending ==> c in s.openedFor && c !in s.bound)
    && (forall c :: c in s.bound ==> c in s.openedFor)
    && (!s.exporter.stopped && FailuresAreFinal(s) ==>
          forall k :: 0 <= k < |s.announced| - (if s.exporter.waiting then 1 else 0) ==> IsBound(s, k))
    && (Eof in s.channel ==>
          && (s.exporter.stopped || (s.mode == ReverseOneshot && s.exporter.lingering))
          && forall k :: 0 <= k < |s.announced| ==> IsBound(s, k))
  }

  lemma BoundStays(s: State, s': State, c: Conn, n: nat)
    requires c !in s.bound && s'.bound == s.bound[c := n]
    ensures forall k :: IsBound(s, k) ==> IsBound(s', k)
    ensures IsBound(s', n)
  {
    forall k | IsBound(s, k) ensures IsBound(s', k) {
      var d :| d in s.bound && s.bound[d] == k;
      assert d in s'.bound && s'.bound[d] == k;
    }
    assert c in s'.bound && s'.bound[c] == n;
  }

  lemma AnnounceSkipsNone(s: State, s': State, d: Device)
    requires Announce(s, s', d) && NoneSkipped(s)
    ensures NoneSkipped(s')
  {
    assert forall k :: IsBound(s, k) ==> IsBound(s', k);
  }

  lemma AcceptSkipsNone(s: State, s': State, c: Conn)
    requires Accept(s, s', c) && NoneSkipped(s)
    ensures NoneSkipped(s')
  {
    BoundStays(s, s', c, |s.announced| - 1);
  }

  lemma FailureSkipsNone(s: State, s': State)
    requires AcceptTimeout(s, s') || Stop(s, s') || exists c :: AcceptInVain(s, s', c)
    requires NoneSkipped(s)
    ensures NoneSkipped(s')
  {
    assert forall k :: IsBound(s, k) ==> IsBound(s', k);
  }

  lemma LineSkipsNone(s: State, s': State)
    requires FirstLoopDone(s, s') || exists t :: Log(s, s', t)
    requires NoneSkipped(s)
    ensures NoneSkipped(s')
  {
    assert forall k :: IsBound(s, k) ==> IsBound(s', k);
  }

  lemma ExporterSkipsNone(s: State, s': State)
    requires ExporterStep(s, s') && NoneSkipped(s)
    ensures NoneSkipped(s')
  {
    if d :| Announce(s, s', d) {
      AnnounceSkipsNone(s, s', d);
    } else if c :| Accept(s, s', c) {
      AcceptSkipsNone(s, s', c);
    } else if FirstLoopDone(s, s') || exists t :: Log(s, s', t) {
      LineSkipsNone(s, s');
    } else {
      FailureSkipsNone(s, s');
    }
  }

  /** What a step of the importer leaves alone. */
  lemma ImporterFrame(s: State, s': State)
    requires ImporterStep(s, s')
    ensures s'.mode == s.mode && s'.announced == s.announced && s'.exporter == s.exporter && s'.bound == s.bound
    ensures Eof in s'.channel ==> Eof in s.channel
  {
    if c :| Dial(s, s', c) {
    } else if c :| Lose(s, s', c) {
    }
  }

  /** And one of the exporter. */
  lemma ExporterFrame(s: State, s': State)
    requires ExporterStep(s, s')
    ensures s'.openedFor == s.openedFor && s'.vhci == s.vhci && s'.importer == s.importer
    ensures Eof in s.channel ==> Eof in s'.channel
  {
    if d :| Announce(s, s', d) {
    } else if t :| Log(s, s', t) {
    } else if c :| Accept(s, s', c) {
    } else if c :| AcceptInVain(s, s', c) {
    }
  }

  lemma PendingStaysUnbound(s: State, s': State)
    requires ImporterStep(s, s') && NoneSkipped(s)
    ensures forall c :: c in s'.pending ==> c in s'.openedFor && c !in s'.bound
    ensures forall c :: c in s'.bound ==> c in s'.openedFor
  {
    if c :| Dial(s, s', c) {
    } else if c :| Lose(s, s', c) {
    }
  }

  lemma ImporterSkipsNone(s: State, s': State)
    requires ImporterStep(s, s') && NoneSkipped(s)
    ensures NoneSkipped(s')
  {
    ImporterFrame(s, s');
    PendingStaysUnbound(s, s');
    assert forall k :: IsBound(s, k) ==> IsBound(s', k);
  }

  /** What the importer has opened it has given to vhci, or is about to, or it has ended. */
  ghost predicate NoneHeldBack(s: State) {
    forall c :: c in s.openedFor ==> c in s.vhci || s.importer == Connected(c) || s.importer.Ended?
  }

  lemma ImporterHoldsNoneBack(s: State, s': State)
    requires ImporterStep(s, s') && NoneHeldBack(s)
    ensures NoneHeldBack(s')
  {
    if c :| Dial(s, s', c) {
    } else if c :| Lose(s, s', c) {
    }
  }

  /** A oneshot session that has announced all its devices has said so, and the importer ends on that. */
  ghost predicate EndIsSaid(s: State) {
    s.mode == ReverseOneshot && s.exporter.lingering ==> Eof in s.channel || s.importer.Ended?
  }

  lemma ExporterSaysEnd(s: State, s': State)
    requires ExporterStep(s, s') && EndIsSaid(s)
    ensures EndIsSaid(s')
  {
    ExporterFrame(s, s');
    if d :| Announce(s, s', d) {
    } else if t :| Log(s, s', t) {
    } else if c :| Accept(s, s', c) {
    } else if c :| AcceptInVain(s, s', c) {
    }
  }

  lemma ImporterHearsEnd(s: State, s': State)
    requires ImporterStep(s, s') && EndIsSaid(s)
    ensures EndIsSaid(s')
  {
    ImporterFrame(s, s');
    if Read(s, s') {
      assert s.channel == [s.channel[0]] + s'.channel;
    } else if c :| Dial(s, s', c) {
    } else if c :| Lose(s, s', c) {
    }
  }

  lemma {:induction false} RunSkipsNone(run: seq<State>)
    requires IsRun(run)
    ensures NoneSkipped(Last(run)) && NoneHeldBack(Last(run)) && EndIsSaid(Last(run))
  {
    if |run| > 1 {
      var s, s' := run[|run| - 2], run[|run| - 1];
      RunSkipsNone(run[..|run| - 1]);
      if ExporterStep(s, s') {
        ExporterSkipsNone(s, s');
        ExporterFrame(s, s');
        ExporterSaysEnd(s, s');
      } else {
        ImporterSkipsNone(s, s');
        ImporterHoldsNoneBack(s, s');
        ImporterHearsEnd(s, s');
      }
    }
  }

  /** The device of announcement k is in use at both ends: one connection has been bound for it, and given
  to vhci with its line, or is just about to be. */
  ghost predicate IsAttached(s: State, k: nat)
    requires k < |s.announced|
  {
    exists c :: c in s.bound && s.bound[c] == k && c in s.openedFor && s.openedFor[c] == k &&
                (s.importer == Connected(c) || (c in s.vhci && s.vhci[c] == s.announced[k].line))
  }

  lemma BoundIsAttached(s: State, k: nat)
    requires k < |s.announced| && IsBound(s, k) && ExactlyPaired(s) && NoneHeldBack(s) && !s.importer.Ended?
    requires forall c :: c in s.vhci && c in s.openedFor && s.openedFor[c] == k ==> s.vhci[c] == s.announced[k].line
    ensures IsAttached(s, k)
  {
    var c :| c in s.bound && s.bound[c] == k;
    assert c in s.openedFor && s.openedFor[c] == k;
  }

  /** Neither side has ended, and no failure has been passed over. */
  ghost predicate GoesWell(s: State) {
    !s.exporter.stopped && FailuresAreFinal(s) && !s.stale && !s.importer.Ended?
  }

  ghost predicate AllAttached(s: State) {
    forall k :: 0 <= k < |s.announced| - (if s.exporter.waiting then 1 else 0) ==> IsAttached(s, k)
  }

  lemma NoneSkippedMeans(s: State)
    requires Inv(s) && NoneSkipped(s) && NoneHeldBack(s) && GoesWell(s)
    ensures AllAttached(s)
  {
    forall k | 0 <= k < |s.announced| - (if s.exporter.waiting then 1 else 0)
      ensures IsAttached(s, k)
    {
      BoundIsAttached(s, k);
    }
  }

  /** In every run, as long as neither side has ended and no failure has been passed over, every device
  announced is attached, but for one that is being waited for. */
  lemma {:induction false} EveryDeviceIsAttached(run: seq<State>)
    requires IsRun(run)
    ensures GoesWell(Last(run)) ==> AllAttached(Last(run))
  {
    RunKeepsInv(run);
    RunSkipsNone(run);
    if GoesWell(Last(run)) {
      NoneSkippedMeans(Last(run));
    }
  }

  /** And the end is announced only when every device has been bound; a reverse oneshot session does so as
  soon as its first loop is over, and the importer ends on it. */
  lemma {:induction false} EndComesLast(run: seq<State>)
    requires IsRun(run)
    ensures var s := Last(run);
            && (Eof in s.channel ==> forall k :: 0 <= k < |s.announced| ==> IsBound(s, k))
            && (s.mode == ReverseOneshot && s.exporter.lingering ==> Eof in s.channel || s.importer.Ended?)
  {
    RunSkipsNone(run);
  }

  // ----- every device can be attached

  ghost predicate IsChatter(channel: seq<Message>) {
    forall i :: 0 <= i < |channel| ==> channel[i].Chatter?
  }

  /** Nothing is being waited for, and nothing is on its way but log lines. */
  ghost predicate IsQuiet(s: State) {
    && !s.exporter.stopped && !s.exporter.waiting && (s.mode == ReverseOneshot ==> !s.exporter.lingering)
    && s.importer == Reading && IsChatter(s.channel)
  }

  /** This run can go on to s. */
  ghost predicate LeadsTo(run: seq<State>, s: State) {
    exists more :: IsRun(more) && run <= more && Last(more) == s
  }

  lemma {:induction false} LeadsToItself(run: seq<State>)
    requires IsRun(run)
    ensures LeadsTo(run, Last(run))
  {
  }

  lemma {:induction false} LeadsOn(run: seq<State>, s: State, s': State)
    requires LeadsTo(run, s) && Next(s, s')
    ensures LeadsTo(run, s')
  {
    var more :| IsRun(more) && run <= more && Last(more) == s;
    Extend(more, s');
    assert run <= more + [s'];
  }

  lemma {:induction false} SkipChatter(run: seq<State>, s: State)
    requires LeadsTo(run, s) && s.importer == Reading && IsChatter(s.channel)
    ensures LeadsTo(run, s.(channel := []))
    decreases |s.channel|
  {
    if s.channel == [] {
      assert s.(channel := []) == s;
    } else {
      var s' := s.(channel := s.channel[1..]);
      assert Read(s, s');
      LeadsOn(run, s, s');
      SkipChatter(run, s');
      assert s'.(channel := []) == s.(channel := []);
    }
  }

  /** The announcement of d, by a session that is quiet. */
  lemma {:induction false} CanAnnounce(run: seq<State>, s: State, d: Device) returns (s': State)
    requires LeadsTo(run, s) && IsQuiet(s) && s.channel == []
    ensures LeadsTo(run, s')
    ensures s' == s.(announced := s.announced + [d], channel := [Dev(|s.announced|)],
                     exporter := s.exporter.(waiting := true))
  {
    s' := s.(announced := s.announced + [d], channel := [Dev(|s.announced|)],
             exporter := s.exporter.(waiting := true));
    assert Announce(s, s', d);
    LeadsOn(run, s, s');
  }

  /** The answer to it. */
  lemma {:induction false} CanAnswer(run: seq<State>, s: State, k: nat) returns (s': State, c: Conn)
    requires LeadsTo(run, s) && s.channel == [Dev(k)] && s.importer == Reading
    ensures LeadsTo(run, s') && c !in s.openedFor
    ensures s' == s.(channel := [], openedFor := s.openedFor[c := k], pending := s.pending + {c},
                     importer := Connected(c))
  {
    var s1 := s.(channel := [], importer := Dialing(k));
    assert Read(s, s1);
    LeadsOn(run, s, s1);
    c := Unused(s.openedFor);
    s' := s1.(openedFor := s.openedFor[c := k], pending := s.pending + {c}, importer := Connected(c));
    assert Dial(s1, s', c);
    LeadsOn(run, s1, s');
  }

  /** The exporter's end of it, and the importer's. */
  lemma {:induction false} CanAttach(run: seq<State>, s: State, c: Conn) returns (s': State)
    requires LeadsTo(run, s) && s.importer == Connected(c) && c in s.pending
    requires !s.exporter.stopped && s.exporter.waiting && |s.announced| > 0
    requires c in s.openedFor && s.openedFor[c] == |s.announced| - 1
    ensures LeadsTo(run, s')
    ensures s' == s.(pending := s.pending - {c}, bound := s.bound[c := |s.announced| - 1],
                     exporter := s.exporter.(waiting := false),
                     vhci := s.vhci[c := s.announced[|s.announced| - 1].line], importer := Reading)
  {
    var s1 := s.(pending := s.pending - {c}, bound := s.bound[c := |s.announced| - 1],
                 exporter := s.exporter.(waiting := false));
    assert Accept(s, s1, c);
    LeadsOn(run, s, s1);
    s' := s1.(vhci := s.vhci[c := s.announced[|s.announced| - 1].line], importer := Reading);
    assert AttachToVhci(s1, s');
    LeadsOn(run, s1, s');
  }

  /** From every quiet moment on, in every mode, one more device can be announced and attached at both ends,
  after which it is quiet again: so any number can. */
  lemma {:induction false} NextDeviceCanBeAttached(run: seq<State>, d: Device) returns (s: State)
    requires IsRun(run) && IsQuiet(Last(run))
    ensures LeadsTo(run, s) && IsQuiet(s)
    ensures s.announced == Last(run).announced + [d] && IsAttached(s, |Last(run).announced|)
  {
    LeadsToItself(run);
    SkipChatter(run, Last(run));
    s := CanAnnounce(run, Last(run).(channel := []), d);
    var c;
    s, c := CanAnswer(run, s, |Last(run).announced|);
    s := CanAttach(run, s, c);
    assert c in s.bound;
  }

  /** What the world may do at any moment: end either side, drop a connection, or refuse one that has come. */
  lemma AnythingCanFail(s: State, c: Conn, text: string)
    ensures Next(s, s.(exporter := s.exporter.(stopped := true))) && Next(s, s.(importer := Ended))
    ensures Next(s, s.(pending := s.pending - {c}))
    ensures !s.exporter.stopped ==> Next(s, s.(channel := s.channel + [Chatter(text)]))
    ensures !s.exporter.stopped && s.exporter.waiting && c in s.pending ==>
              Next(s, s.(pending := s.pending - {c}, exporter := AfterFailure(s)))
  {
    assert Stop(s, s.(exporter := s.exporter.(stopped := true))) && ImporterFails(s, s.(importer := Ended));
    assert Lose(s, s.(pending := s.pending - {c}), c);
    if !s.exporter.stopped {
      assert Log(s, s.(channel := s.channel + [Chatter(text)]), text);
      if s.exporter.waiting && c in s.pending {
        assert AcceptInVain(s, s.(pending := s.pending - {c}, exporter := AfterFailure(s)), c);
      }
    }
  }

  /** After its first loop a session with --vhub goes on, and can attach more devices; a oneshot session says
  that it is complete, and the importer ends. */
  lemma {:induction false} FirstLoopCanEnd(run: seq<State>) returns (on: State, off: State)
    requires IsRun(run) && IsQuiet(Last(run)) && !Last(run).exporter.lingering
    ensures Last(run).mode != ReverseOneshot ==> LeadsTo(run, on) && on.exporter.lingering && IsQuiet(on)
    ensures Last(run).mode != ReverseVhub ==>
              LeadsTo(run, off) && off.importer.Ended? && off.announced == Last(run).announced
  {
    LeadsToItself(run);
    SkipChatter(run, Last(run));
    var s := Last(run).(channel := []);
    on, off := s, s;
    if s.mode != ReverseOneshot {
      on := s.(exporter := s.exporter.(lingering := true));
      assert FirstLoopDone(s, on);
      LeadsOn(run, s, on);
    }
    if s.mode != ReverseVhub {
      off := CanSayEnd(run, s);
    }
  }

  lemma {:induction false} CanSayEnd(run: seq<State>, s: State) returns (s': State)
    requires LeadsTo(run, s) && IsQuiet(s) && s.channel == [] && !s.exporter.lingering && s.mode != ReverseVhub
    ensures LeadsTo(run, s') && s'.importer.Ended? && s'.announced == s.announced
  {
    var oneshot := if s.mode == Forward then s.exporter.(stopped := true) else s.exporter.(lingering := true);
    var s1 := s.(exporter := oneshot, channel := [Eof]);
    assert FirstLoopDone(s, s1);
    LeadsOn(run, s, s1);
    s' := s1.(channel := [], importer := Ended);
    assert Read(s1, s');
    LeadsOn(run, s1, s');
  }
}
