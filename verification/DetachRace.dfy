/** Concurrent callers of exporterDetach, interleaved write by write. */
module DetachRace {
  import opened Kernel

  /* A caller is lingerLoop, vhubLoop, reverseLinger or rebindAll (each detach wrapped in xeval, so no
  error stops it) or an "unbind" command (unbindMatching: a scan of usbip_status, then one
  exporterDetach per device found bound, tolerating ENODEV only). */

  datatype Style = Xeval | UnbindCommand

  datatype Pc =
    | Scanning(devs: seq<BusId>, bound: seq<BusId>)  // reading usbip_status of devs[0]
    | Ready(todo: seq<BusId>)                        // about to write unbind for todo[0]
    | Unbound(busid: BusId, rest: seq<BusId>)        // the unbind write went through
    | Unmatched(busid: BusId, rest: seq<BusId>)      // "del" has been tried
    | Settling(busid: BusId, rest: seq<BusId>)       // rebind has been tried; polling for a driver
    | Overdue(busid: BusId, rest: seq<BusId>)        // the deadline passed
    | Done(r: Outcome)

  datatype Caller = Caller(style: Style, pc: Pc)

  datatype Write = UnbindWrite(caller: nat, busid: BusId, r: Outcome)

  datatype State = State(devs: Devices, callers: seq<Caller>, log: seq<Write>)

  // ----- the transition system

  /** Devices start with a driver; callers start with a list of devices to scan or to detach. */
  ghost predicate Init(s: State) {
    && (forall b :: b in s.devs ==> s.devs[b].driver != NoDriver)
    && (forall i :: 0 <= i < |s.callers| ==> Initial(s.callers[i]))
    && s.log == []
  }

  ghost predicate Initial(c: Caller) {
    match c.style
    case Xeval => c.pc.Ready?
    case UnbindCommand => c.pc.Scanning? && c.pc.bound == []
  }

  /** Where a caller continues after exporterDetach returned r. */
  function AfterDetach(style: Style, r: Outcome, rest: seq<BusId>): Pc {
    if r == Ok || r == Fail(ENODEV) || style == Xeval then Ready(rest) else Done(r)
  }

  function Goto(s: State, i: nat, pc: Pc): State
    requires i < |s.callers|
  {
    s.(callers := s.callers[i := s.callers[i].(pc := pc)])
  }

  function ScanNext(s: State, devs: seq<BusId>, bound: seq<BusId>): Pc {
    if devs != [] then Scanning(devs[1..], if UsbipStatus(s.devs, devs[0]) != 0 then bound + [devs[0]] else bound)
    else if bound == [] then Done(Fail(NOTHING_BOUND))
    else Ready(bound)
  }

  ghost predicate CallerStep(s: State, i: nat, r: Outcome, s': State)
    requires i < |s.callers|
  {
    var c := s.callers[i];
    match c.pc
    case Scanning(devs, bound) => s' == Goto(s, i, ScanNext(s, devs, bound))
    case Ready(todo) =>
      if todo == [] then s' == Goto(s, i, Done(Ok))
      else
        && Unbind(s.devs, s'.devs, todo[0], r)
        && s' == Goto(s, i, if r == Ok then Unbound(todo[0], todo[1..]) else AfterDetach(c.style, r, todo[1..]))
                 .(devs := s'.devs, log := s.log + [UnbindWrite(i, todo[0], r)])
    case Unbound(b, rest) =>
      MatchDel(s.devs, s'.devs, b) && s' == Goto(s, i, Unmatched(b, rest)).(devs := s'.devs)
    case Unmatched(b, rest) =>
      Rebind(s.devs, s'.devs, b) && s' == Goto(s, i, Settling(b, rest)).(devs := s'.devs)
    case Settling(b, rest) =>
      if HasDriver(s.devs, b) then s' == Goto(s, i, AfterDetach(c.style, Ok, rest))
      else s' == s || s' == Goto(s, i, Overdue(b, rest))
    case Overdue(b, rest) =>
      && DriversProbe(s.devs, s'.devs, b, r)
      && s' == Goto(s, i, AfterDetach(c.style, r, rest)).(devs := s'.devs)
    case Done(_) => false
  }

  ghost predicate Next(s: State, s': State) {
    || (OnItsOwn(s.devs, s'.devs) && s' == s.(devs := s'.devs))
    || (exists i: nat, r :: i < |s.callers| && CallerStep(s, i, r, s'))
  }

  ghost predicate IsRun(run: seq<State>) {
    && |run| > 0
    && if |run| == 1 then Init(run[0])
       else IsRun(run[..|run| - 1]) && Next(run[|run| - 2], run[|run| - 1])
  }

  ghost predicate Finished(s: State) {
    forall i :: 0 <= i < |s.callers| ==> s.callers[i].pc.Done?
  }

  // ----- what the log says

  function Wins(log: seq<Write>, b: BusId): nat {
    if log == [] then 0
    else Wins(log[..|log| - 1], b) + (if log[|log| - 1].busid == b && log[|log| - 1].r == Ok then 1 else 0)
  }

  ghost predicate Attempted(log: seq<Write>, b: BusId) {
    exists k :: 0 <= k < |log| && log[k].busid == b
  }

  /** Every unbind write on b that did not win got ENODEV. */
  ghost predicate LosersGetENODEV(log: seq<Write>) {
    forall k :: 0 <= k < |log| ==> log[k].r == Ok || log[k].r == Fail(ENODEV)
  }

  // ----- the invariant

  function IfExported(devs: Devices, b: BusId): nat {
    if IsExported(devs, b) then 1 else 0
  }

  /** Whether a step gives b back to usbip-host. */
  function IfBack(s: State, s': State, b: BusId): nat {
    if !IsExported(s.devs, b) && IsExported(s'.devs, b) then 1 else 0
  }

  /** How often the kernel gives b back to usbip-host in a run. */
  function Reclaims(run: seq<State>, b: BusId): nat {
    if |run| <= 1 then 0 else Reclaims(run[..|run| - 1], b) + IfBack(run[|run| - 2], run[|run| - 1], b)
  }

  predicate InCharge(c: Caller, b: BusId) {
    (c.pc.Unbound? || c.pc.Unmatched? || c.pc.Settling? || c.pc.Overdue?) && c.pc.busid == b
  }

  ghost predicate Looked(callers: seq<Caller>, b: BusId) {
    exists i :: 0 <= i < |callers| && InCharge(callers[i], b)
  }

  /** b having been given to usbip-host n times in all: a device that is plugged in has been unbound as
  often as that, but for the last time if it is still bound; an unplugged one no more often; and a
  driverless device has a caller that will not leave it so. */
  ghost predicate DeviceInv(s: State, n: nat, b: BusId) {
    && Wins(s.log, b) + IfExported(s.devs, b) <= n
    && (b in s.devs ==> Wins(s.log, b) + IfExported(s.devs, b) == n)
    && (b in s.devs && s.devs[b].driver == NoDriver ==> Looked(s.callers, b))
  }

  /** How often b has been given to usbip-host. */
  function Bindings(run: seq<State>, b: BusId): nat
    requires |run| > 0
  {
    IfExported(run[0].devs, b) + Reclaims(run, b)
  }

  /** While nobody has got through to b, nobody has tried. */
  ghost predicate UntriedInv(s: State, b: BusId) {
    IsExported(s.devs, b) ==> !Attempted(s.log, b)
  }

  lemma {:induction false} WinsAppend(log: seq<Write>, w: Write, b: BusId)
    ensures Wins(log + [w], b) == Wins(log, b) + (if w.busid == b && w.r == Ok then 1 else 0)
    ensures Attempted(log + [w], b) <==> Attempted(log, b) || w.busid == b
  {
    assert (log + [w])[..|log|] == log;
    assert (log + [w])[|log|] == w;
    if Attempted(log, b) {
      var k :| 0 <= k < |log| && log[k].busid == b;
      assert (log + [w])[k].busid == b;
    }
  }

  lemma {:induction false} NoWinUnlessAttempted(log: seq<Write>, b: BusId)
    ensures !Attempted(log, b) ==> Wins(log, b) == 0
  {
    if log != [] {
      var rest := log[..|log| - 1];
      NoWinUnlessAttempted(rest, b);
      assert log == rest + [log[|log| - 1]];
      WinsAppend(rest, log[|log| - 1], b);
    }
  }

  /** Moving caller i keeps every other caller in charge of what it was. */
  lemma StillLooked(s: State, i: nat, pc: Pc, b: BusId)
    requires i < |s.callers| && Looked(s.callers, b)
    ensures Looked(Goto(s, i, pc).callers, b) || InCharge(s.callers[i], b)
    ensures InCharge(s.callers[i].(pc := pc), b) ==> Looked(Goto(s, i, pc).callers, b)
  {
    var j :| 0 <= j < |s.callers| && InCharge(s.callers[j], b);
    var callers' := Goto(s, i, pc).callers;
    assert j != i ==> InCharge(callers'[j], b);
    assert callers'[i] == s.callers[i].(pc := pc);
  }

  lemma UnbindKeepsInv(s: State, i: nat, r: Outcome, a: BusId, pc: Pc, s': State, n: nat, b: BusId)
    requires DeviceInv(s, n, b)
    requires i < |s.callers| && s.callers[i].pc.Ready? && (r == Ok ==> pc.Unbound? && pc.busid == a)
    requires Unbind(s.devs, s'.devs, a, r)
    requires s'.callers == Goto(s, i, pc).callers && s'.log == s.log + [UnbindWrite(i, a, r)]
    ensures DeviceInv(s', n, b) && IfBack(s, s', b) == 0
    ensures UntriedInv(s, b) ==> UntriedInv(s', b)
  {
    WinsAppend(s.log, UnbindWrite(i, a, r), b);
    if b in s'.devs && s'.devs[b].driver == NoDriver {
      if b == a && r == Ok {
        assert InCharge(s'.callers[i], b);
      } else {
        StillLooked(s, i, pc, b);
      }
    }
  }

  lemma CallerKeepsDevice(s: State, i: nat, r: Outcome, s': State, n: nat, b: BusId)
    requires DeviceInv(s, n, b)
    requires i < |s.callers| && CallerStep(s, i, r, s')
    ensures DeviceInv(s', n + IfBack(s, s', b), b)
    ensures UntriedInv(s, b) && IfBack(s, s', b) == 0 ==> UntriedInv(s', b)
  {
    var c := s.callers[i];
    if c.pc.Ready? && c.pc.todo != [] {
      var a, rest := c.pc.todo[0], c.pc.todo[1..];
      UnbindKeepsInv(s, i, r, a, if r == Ok then Unbound(a, rest) else AfterDetach(c.style, r, rest), s', n, b);
    } else if b in s'.devs && s'.devs[b].driver == NoDriver {
      StillLooked(s, i, s'.callers[i].pc, b);
    }
  }

  lemma CallerKeepsLog(s: State, i: nat, r: Outcome, s': State)
    requires i < |s.callers| && CallerStep(s, i, r, s') && LosersGetENODEV(s.log)
    ensures LosersGetENODEV(s'.log)
  {
  }

  lemma StepKeepsDevice(s: State, s': State, n: nat, b: BusId)
    requires DeviceInv(s, n, b) && Next(s, s') && LosersGetENODEV(s.log)
    ensures DeviceInv(s', n + IfBack(s, s', b), b) && LosersGetENODEV(s'.log)
    ensures UntriedInv(s, b) && IfBack(s, s', b) == 0 ==> UntriedInv(s', b)
  {
    if !(OnItsOwn(s.devs, s'.devs) && s' == s.(devs := s'.devs)) {
      var i: nat, r :| i < |s.callers| && CallerStep(s, i, r, s');
      CallerKeepsDevice(s, i, r, s', n, b);
      CallerKeepsLog(s, i, r, s');
    }
  }

  lemma {:induction false} RunKeepsInv(run: seq<State>, b: BusId)
    requires IsRun(run)
    ensures DeviceInv(run[|run| - 1], Bindings(run, b), b) && LosersGetENODEV(run[|run| - 1].log)
    ensures Reclaims(run, b) == 0 ==> UntriedInv(run[|run| - 1], b)
  {
    if |run| > 1 {
      var before := run[..|run| - 1];
      RunKeepsInv(before, b);
      StepKeepsDevice(run[|run| - 2], run[|run| - 1], Bindings(before, b), b);
    }
  }

  // ----- main results

  /** In every run, every loser got ENODEV, and a device has had no more winning unbind writes than it
  was given to usbip-host: at most one, unless the kernel gave it back. */
  lemma {:induction false} AtMostOneWinner(run: seq<State>, b: BusId)
    requires IsRun(run)
    ensures LosersGetENODEV(run[|run| - 1].log)
    ensures Wins(run[|run| - 1].log, b) <= Bindings(run, b)
    ensures Reclaims(run, b) == 0 ==> Wins(run[|run| - 1].log, b) <= 1
  {
    RunKeepsInv(run, b);
  }

  /** When all callers have finished, no device that is plugged in is without a driver.  It has a driver
  other than usbip-host exactly if it was unbound as often as it was given to usbip-host - which,
  unless the kernel gave it back, means once, and exactly if anybody tried. */
  lemma {:induction false} DetachRaceSettles(run: seq<State>, b: BusId)
    requires IsRun(run) && Finished(run[|run| - 1]) && b in run[|run| - 1].devs
    ensures run[|run| - 1].devs[b].driver != NoDriver
    ensures run[|run| - 1].devs[b].driver.Normal? <==> Wins(run[|run| - 1].log, b) == Bindings(run, b)
    ensures IsExported(run[0].devs, b) && Reclaims(run, b) == 0 ==>
              && (Attempted(run[|run| - 1].log, b) <==> run[|run| - 1].devs[b].driver.Normal?)
              && Wins(run[|run| - 1].log, b) == if Attempted(run[|run| - 1].log, b) then 1 else 0
  {
    RunKeepsInv(run, b);
    NoWinUnlessAttempted(run[|run| - 1].log, b);
  }

  // ----- when the kernel gives a device back

  ghost predicate IsExposed(devs: Devices, b: BusId) {
    b in devs && devs[b].driver == NoDriver && devs[b].matched
  }

  lemma BackWasExposed(s: State, s': State, b: BusId)
    requires Next(s, s') && IfBack(s, s', b) == 1
    ensures IsExposed(s.devs, b)
  {
    if !(OnItsOwn(s.devs, s'.devs) && s' == s.(devs := s'.devs)) {
      var i: nat, r :| i < |s.callers| && CallerStep(s, i, r, s');
    }
  }

  /** It can do so only while the device has no driver and is still on the match list. */
  lemma {:induction false} ReclaimedWasExposed(run: seq<State>, b: BusId) returns (k: nat)
    requires IsRun(run) && Reclaims(run, b) > 0
    ensures k < |run| && IsExposed(run[k].devs, b)
  {
    var n := |run| - 1;
    if IfBack(run[n - 1], run[n], b) == 1 {
      BackWasExposed(run[n - 1], run[n], b);
      k := n - 1;
    } else {
      k := ReclaimedWasExposed(run[..n], b);
    }
  }

  lemma {:induction false} Extend(run: seq<State>, s: State)
    requires IsRun(run) && Next(run[|run| - 1], s)
    ensures IsRun(run + [s]) && (run + [s])[|run|] == s
  {
    assert (run + [s])[..|run|] == run;
  }

  lemma {:induction false} ExtendBy(run: seq<State>, r: Outcome, s: State)
    requires IsRun(run) && |run[|run| - 1].callers| > 0 && CallerStep(run[|run| - 1], 0, r, s)
    ensures IsRun(run + [s]) && (run + [s])[|run|] == s
  {
    Extend(run, s);
  }

  const HELD: Devices := map["1-1" := Device(UsbipHost, true, SDEV_ST_USED, 3)]

  const FREE: Devices := map["1-1" := Device(NoDriver, true, SDEV_ST_USED, 3)]

  const TAKEN: Devices := map["1-1" := Device(UsbipHost, true, SDEV_ST_AVAILABLE, -1)]

  /** A lone caller that releases 1-1. */
  function Lone(devs: Devices, pc: Pc, log: seq<Write>): State {
    State(devs, [Caller(Xeval, pc)], log)
  }

  lemma LoneUnbinds()
    ensures CallerStep(Lone(HELD, Ready(["1-1"]), []), 0, Ok,
                       Lone(FREE, Unbound("1-1", []), [UnbindWrite(0, "1-1", Ok)]))
  {
    assert [] + [UnbindWrite(0, "1-1", Ok)] == [UnbindWrite(0, "1-1", Ok)];
    assert ["1-1"][1..] == [];
  }

  lemma {:induction false} LoneGivesBack(log: seq<Write>)
    ensures CallerStep(Lone(FREE, Overdue("1-1", []), log), 0, Ok, Lone(TAKEN, Ready([]), log))
  {
  }

  const LONE_LOG: seq<Write> := [UnbindWrite(0, "1-1", Ok)]

  lemma LoneStart()
    ensures IsRun([Lone(HELD, Ready(["1-1"]), [])])
  {
  }

  /** A lone caller up to its last resort, "del" and rebind having failed. */
  lemma LoneWaits()
    ensures exists run: seq<State> :: IsRun(run) && run[0].devs == HELD &&
                                      run[|run| - 1] == Lone(FREE, Overdue("1-1", []), LONE_LOG)
  {
    LoneStart();
    LoneUnbinds();
    var run := LoneGoesOn([Lone(HELD, Ready(["1-1"]), [])], Lone(FREE, Unbound("1-1", []), LONE_LOG));
    run := LoneGoesOn(run, Lone(FREE, Unmatched("1-1", []), LONE_LOG));
    run := LoneGoesOn(run, Lone(FREE, Settling("1-1", []), LONE_LOG));
    run := LoneGoesOn(run, Lone(FREE, Overdue("1-1", []), LONE_LOG));
  }

  lemma {:induction false} LoneGoesOn(run: seq<State>, s: State) returns (more: seq<State>)
    requires IsRun(run) && |run[|run| - 1].callers| > 0 && CallerStep(run[|run| - 1], 0, Ok, s)
    ensures IsRun(more) && more[0] == run[0] && more[|more| - 1] == s
  {
    ExtendBy(run, Ok, s);
    more := run + [s];
  }

  /** And then it may: "del" and rebind having failed, the last resort gives the device back, and its
  one caller reports success. */
  lemma FailedDelCanUndo()
    ensures exists run: seq<State> :: IsRun(run) && run[0].devs == HELD && Reclaims(run, "1-1") > 0 &&
                                      run[|run| - 1] == Lone(TAKEN, Done(Ok), LONE_LOG)
  {
    LoneWaits();
    var waiting: seq<State> :| IsRun(waiting) && waiting[0].devs == HELD &&
                               waiting[|waiting| - 1] == Lone(FREE, Overdue("1-1", []), LONE_LOG);
    LoneGivesBack(LONE_LOG);
    var run := LoneGoesOn(waiting, Lone(TAKEN, Ready([]), LONE_LOG));
    run := LoneGoesOn(run, Lone(TAKEN, Done(Ok), LONE_LOG));
    RunKeepsInv(run, "1-1");
    assert LONE_LOG[..0] == [] && Wins(LONE_LOG, "1-1") == 1;
  }

  const STOLEN: Devices := map["1-1" := Device(UsbipHost, false, SDEV_ST_AVAILABLE, -1)]

  lemma LoneIsOvertaken()
    ensures exists run: seq<State> :: IsRun(run) && run[0].devs == HELD &&
                                      run[|run| - 1] == Lone(TAKEN, Unbound("1-1", []), LONE_LOG)
  {
    LoneStart();
    LoneUnbinds();
    var run := LoneGoesOn([Lone(HELD, Ready(["1-1"]), [])], Lone(FREE, Unbound("1-1", []), LONE_LOG));
    assert Reprobed(FREE, TAKEN, "1-1");
    Extend(run, Lone(TAKEN, Unbound("1-1", []), LONE_LOG));
    run := run + [Lone(TAKEN, Unbound("1-1", []), LONE_LOG)];
  }

  lemma LoneIsTooLate()
    ensures CallerStep(Lone(TAKEN, Unbound("1-1", []), LONE_LOG), 0, Ok, Lone(STOLEN, Unmatched("1-1", []), LONE_LOG))
  {
    assert TAKEN["1-1" := TAKEN["1-1"].(matched := false)] == STOLEN;
  }

  /** Nor does it take a failed "del": the kernel need only probe the device before that is written. */
  lemma EarlyProbeCanUndo()
    ensures exists run: seq<State> :: IsRun(run) && run[0].devs == HELD && Reclaims(run, "1-1") > 0 &&
                                      run[|run| - 1] == Lone(STOLEN, Done(Ok), LONE_LOG)
  {
    LoneIsOvertaken();
    var overtaken: seq<State> :| IsRun(overtaken) && overtaken[0].devs == HELD &&
                                 overtaken[|overtaken| - 1] == Lone(TAKEN, Unbound("1-1", []), LONE_LOG);
    LoneIsTooLate();
    var run := LoneGoesOn(overtaken, Lone(STOLEN, Unmatched("1-1", []), LONE_LOG));
    run := LoneGoesOn(run, Lone(STOLEN, Settling("1-1", []), LONE_LOG));
    run := LoneGoesOn(run, Lone(STOLEN, Ready([]), LONE_LOG));
    run := LoneGoesOn(run, Lone(STOLEN, Done(Ok), LONE_LOG));
    RunKeepsInv(run, "1-1");
    assert LONE_LOG[..0] == [] && Wins(LONE_LOG, "1-1") == 1;
  }

  /** An unbind command never fails because it lost the race for a device. */
  ghost predicate ToleratesLoss(s: State) {
    forall i :: 0 <= i < |s.callers| ==> s.callers[i].pc.Done? ==> s.callers[i].pc.r != Fail(ENODEV)
  }

  /** What a caller that finishes in this step reports. */
  lemma CallerTolerates(s: State, i: nat, r: Outcome, s': State)
    requires i < |s.callers| && CallerStep(s, i, r, s') && !s.callers[i].pc.Done?
    ensures s'.callers == Goto(s, i, s'.callers[i].pc).callers
    ensures s'.callers[i].pc.Done? ==> s'.callers[i].pc.r != Fail(ENODEV)
  {
  }

  lemma StepTolerates(s: State, s': State)
    requires Next(s, s') && ToleratesLoss(s)
    ensures ToleratesLoss(s')
  {
    if !(OnItsOwn(s.devs, s'.devs) && s' == s.(devs := s'.devs)) {
      var i: nat, r :| i < |s.callers| && CallerStep(s, i, r, s');
      CallerTolerates(s, i, r, s');
    }
  }

  lemma InitTolerates(s: State)
    requires Init(s)
    ensures ToleratesLoss(s)
  {
    assert forall i :: 0 <= i < |s.callers| ==> Initial(s.callers[i]);
  }

  lemma {:induction false} NoCallerReportsTheRace(run: seq<State>)
    requires IsRun(run)
    ensures ToleratesLoss(run[|run| - 1])
  {
    if |run| == 1 {
      InitTolerates(run[0]);
    } else {
      NoCallerReportsTheRace(run[..|run| - 1]);
      StepTolerates(run[|run| - 2], run[|run| - 1]);
    }
  }

  lemma StepObeysRely(s: State, s': State)
    requires Next(s, s')
    ensures Rely(s.devs, s'.devs, Back(s.devs, s'.devs))
  {
    if OnItsOwn(s.devs, s'.devs) && s' == s.(devs := s'.devs) {
      WritesObeyRely(s.devs, s'.devs, "", Ok);
    } else {
      var i: nat, r :| i < |s.callers| && CallerStep(s, i, r, s');
      if s'.devs != s.devs {
        var pc := s.callers[i].pc;
        WritesObeyRely(s.devs, s'.devs, if pc.Ready? then pc.todo[0] else pc.busid, r);
      }
    }
  }

  /** Some steps, from any state on. */
  ghost predicate IsStretch(run: seq<State>) {
    && |run| > 0
    && (|run| > 1 ==> IsStretch(run[..|run| - 1]) && Next(run[|run| - 2], run[|run| - 1]))
  }

  /** The devices that the kernel has given back to usbip-host meanwhile. */
  function AllBack(run: seq<State>): set<BusId> {
    if |run| <= 1 then {} else AllBack(run[..|run| - 1]) + Back(run[|run| - 2].devs, run[|run| - 1].devs)
  }

  /** What one caller may rely on from one of its steps to the next, whatever all the others do, and
  however often. */
  lemma {:induction false} StretchObeysRely(run: seq<State>)
    requires IsStretch(run)
    ensures Rely(run[0].devs, run[|run| - 1].devs, AllBack(run))
  {
    if |run| > 1 {
      var n := |run| - 1;
      StretchObeysRely(run[..n]);
      StepObeysRely(run[n - 1], run[n]);
      RelyIsTransitive(run[0].devs, run[n - 1].devs, run[n].devs,
                       AllBack(run[..n]), Back(run[n - 1].devs, run[n].devs));
    }
  }

  // ----- exactly when it settles

  lemma StaysUnmatched(s: State, s': State, b: BusId)
    requires Next(s, s') && (b in s.devs ==> !s.devs[b].matched)
    ensures (b in s'.devs ==> !s'.devs[b].matched) && IfBack(s, s', b) == 0
  {
    StepObeysRely(s, s');
    if IfBack(s, s', b) == 1 {
      BackWasExposed(s, s', b);
    }
  }

  /** From the moment on at which a device is not on the match list, it is not given back any more. */
  lemma {:induction false} UnmatchedIsNotReclaimed(run: seq<State>, k: nat, b: BusId)
    requires IsRun(run) && k < |run| && b in run[k].devs && !run[k].devs[b].matched
    ensures Reclaims(run, b) == Reclaims(run[..k + 1], b)
    ensures b in run[|run| - 1].devs ==> !run[|run| - 1].devs[b].matched
    decreases |run|
  {
    if k == |run| - 1 {
      assert run[..k + 1] == run;
    } else {
      var before := run[..|run| - 1];
      UnmatchedIsNotReclaimed(before, k, b);
      assert before[..k + 1] == run[..k + 1];
      StaysUnmatched(run[|run| - 2], run[|run| - 1], b);
    }
  }

  /** b was exported, on the match list or not, somebody tried, and all have finished. */
  ghost predicate IsContest(run: seq<State>, b: BusId, matched: bool) {
    && IsRun(run) && Finished(run[|run| - 1]) && b in run[|run| - 1].devs
    && IsExported(run[0].devs, b) && run[0].devs[b].matched == matched && Attempted(run[|run| - 1].log, b)
  }

  ghost predicate AlwaysSettles(matched: bool) {
    forall run: seq<State>, b: BusId :: IsContest(run, b, matched) ==> run[|run| - 1].devs[b].driver.Normal?
  }

  lemma {:induction false} LoneContest(run: seq<State>)
    requires IsRun(run) && run[0].devs == HELD && run[|run| - 1] == Lone(TAKEN, Done(Ok), LONE_LOG)
    ensures IsContest(run, "1-1", true) && !run[|run| - 1].devs["1-1"].driver.Normal?
  {
    assert LONE_LOG[0].busid == "1-1";
  }

  /** It all rests on the match list: every race for a device ends with a normal driver, whatever the
  interleaving, exactly when it is one for a device that is not on the list. */
  lemma AlwaysSettlesExactlyUnlessMatched(matched: bool)
    ensures AlwaysSettles(matched) <==> !matched
  {
    if matched {
      FailedDelCanUndo();
      var run: seq<State> :| IsRun(run) && run[0].devs == HELD && run[|run| - 1] == Lone(TAKEN, Done(Ok), LONE_LOG);
      LoneContest(run);
    } else {
      forall run: seq<State>, b: BusId | IsContest(run, b, false)
        ensures run[|run| - 1].devs[b].driver.Normal?
      {
        UnmatchedIsNotReclaimed(run, 0, b);
        DetachRaceSettles(run, b);
      }
    }
  }

  // ----- no device is passed over

  /** The devices a caller was started with. */
  function Assigned(c: Caller): seq<BusId> {
    if c.pc.Scanning? then c.pc.devs else if c.pc.Ready? then c.pc.todo else []
  }

  predicate IsAhead(pc: Pc, b: BusId) {
    match pc
    case Scanning(devs, bound) => b in devs || b in bound
    case Ready(todo) => b in todo
    case Done(_) => false
    case _ => b in pc.rest
  }

  ghost predicate IsTried(log: seq<Write>, i: nat, b: BusId) {
    exists k :: 0 <= k < |log| && log[k].caller == i && log[k].busid == b
  }

  /** b was not bound to usbip-host at some moment. */
  ghost predicate WasFree(run: seq<State>, b: BusId) {
    exists m :: 0 <= m < |run| && !IsExported(run[m].devs, b)
  }

  /** An "unbind" command stops at an error other than ENODEV. */
  predicate HasGivenUp(c: Caller) {
    c.style == UnbindCommand && c.pc.Done? && c.pc.r != Ok && c.pc.r != Fail(NOTHING_BOUND)
  }

  /** What has become of a device that caller i was started with. */
  ghost predicate IsSeenTo(run: seq<State>, i: nat, b: BusId)
    requires |run| > 0 && i < |run[|run| - 1].callers|
  {
    var s := run[|run| - 1];
    || IsAhead(s.callers[i].pc, b) || IsTried(s.log, i, b) || HasGivenUp(s.callers[i])
    || (s.callers[i].style == UnbindCommand && WasFree(run, b))
  }

  lemma StepSeesTo(s: State, i: nat, r: Outcome, s': State, b: BusId)
    requires i < |s.callers| && CallerStep(s, i, r, s') && IsAhead(s.callers[i].pc, b)
    requires s.callers[i].pc.Scanning? ==> s.callers[i].style == UnbindCommand
    ensures |s'.callers| == |s.callers| && s'.callers[i].style == s.callers[i].style
    ensures IsAhead(s'.callers[i].pc, b) || IsTried(s'.log, i, b) || HasGivenUp(s'.callers[i]) ||
            (s.callers[i].style == UnbindCommand && !IsExported(s.devs, b))
  {
    var pc := s.callers[i].pc;
    if pc.Ready? && pc.todo != [] {
      assert s'.log[|s.log|] == UnbindWrite(i, pc.todo[0], r);
      assert pc.todo == [pc.todo[0]] + pc.todo[1..];
    } else if pc.Scanning? && pc.devs != [] {
      assert pc.devs == [pc.devs[0]] + pc.devs[1..];
    }
  }

  ghost predicate HasWritten(log: seq<Write>, i: nat) {
    exists k :: 0 <= k < |log| && log[k].caller == i
  }

  /** What a caller has written so far, and what it can report. */
  ghost predicate IsHonest(s: State, i: nat)
    requires i < |s.callers|
  {
    var c := s.callers[i];
    && (c.pc.Scanning? ==> c.style == UnbindCommand)
    && (c.pc.Scanning? || c.pc == Done(Fail(NOTHING_BOUND)) ==> !HasWritten(s.log, i))
    && (c.style == UnbindCommand && !c.pc.Scanning? && c.pc != Done(Fail(NOTHING_BOUND)) ==>
          HasWritten(s.log, i) || (c.pc.Ready? && c.pc.todo != []))
    && (c.style == Xeval && c.pc.Done? ==> c.pc.r == Ok)
  }

  lemma LogGrows(s: State, j: nat, r: Outcome, s': State, i: nat, b: BusId)
    requires j < |s.callers| && CallerStep(s, j, r, s')
    ensures IsTried(s.log, i, b) ==> IsTried(s'.log, i, b)
    ensures HasWritten(s.log, i) ==> HasWritten(s'.log, i)
    ensures i != j && HasWritten(s'.log, i) ==> HasWritten(s.log, i)
  {
    assert s.log <= s'.log && forall k :: |s.log| <= k < |s'.log| ==> s'.log[k].caller == j;
    if IsTried(s.log, i, b) {
      var k :| 0 <= k < |s.log| && s.log[k].caller == i && s.log[k].busid == b;
      assert s'.log[k] == s.log[k];
    }
    if HasWritten(s.log, i) {
      var k :| 0 <= k < |s.log| && s.log[k].caller == i;
      assert s'.log[k] == s.log[k];
    }
    if i != j && HasWritten(s'.log, i) {
      var k :| 0 <= k < |s'.log| && s'.log[k].caller == i;
      assert k < |s.log| && s.log[k] == s'.log[k];
    }
  }

  lemma TriedIsWritten(log: seq<Write>, i: nat, b: BusId)
    ensures IsTried(log, i, b) ==> HasWritten(log, i)
  {
  }

  lemma OwnStepIsHonest(s: State, i: nat, r: Outcome, s': State)
    requires i < |s.callers| && CallerStep(s, i, r, s') && IsHonest(s, i)
    ensures i < |s'.callers| && IsHonest(s', i)
  {
    LogGrows(s, i, r, s', i, "");
    var pc := s.callers[i].pc;
    if pc.Ready? && pc.todo != [] {
      assert s'.log[|s.log|] == UnbindWrite(i, pc.todo[0], r);
    } else {
      assert s'.log == s.log;
    }
  }

  lemma OtherStepIsHonest(s: State, j: nat, r: Outcome, s': State, i: nat)
    requires j < |s.callers| && CallerStep(s, j, r, s') && i < |s.callers| && i != j && IsHonest(s, i)
    ensures i < |s'.callers| && IsHonest(s', i)
  {
    LogGrows(s, j, r, s', i, "");
    assert s'.callers[i] == s.callers[i];
  }

  /** The invariant of one caller i, and of a device b that it was started with. */
  lemma {:induction false} RunSeesTo(run: seq<State>, i: nat, b: BusId)
    requires IsRun(run) && i < |run[0].callers|
    ensures |run[|run| - 1].callers| == |run[0].callers|
    ensures run[|run| - 1].callers[i].style == run[0].callers[i].style && IsHonest(run[|run| - 1], i)
    ensures b in Assigned(run[0].callers[i]) ==> IsSeenTo(run, i, b)
  {
    if |run| == 1 {
      assert Initial(run[0].callers[i]);
    } else {
      var before, s, s' := run[..|run| - 1], run[|run| - 2], run[|run| - 1];
      RunSeesTo(before, i, b);
      assert WasFree(before, b) ==> WasFree(run, b) by {
        if m :| 0 <= m < |before| && !IsExported(before[m].devs, b) { assert run[m] == before[m]; }
      }
      if !(OnItsOwn(s.devs, s'.devs) && s' == s.(devs := s'.devs)) {
        var j: nat, r :| j < |s.callers| && CallerStep(s, j, r, s');
        LogGrows(s, j, r, s', i, b);
        if j == i {
          OwnStepIsHonest(s, i, r, s');
          StepKeepsSeenTo(run, i, b, r);
        } else {
          OtherStepIsHonest(s, j, r, s', i);
        }
      }
    }
  }

  lemma {:induction false} StepKeepsSeenTo(run: seq<State>, i: nat, b: BusId, r: Outcome)
    requires |run| > 1 && i < |run[|run| - 2].callers| && CallerStep(run[|run| - 2], i, r, run[|run| - 1])
    requires IsHonest(run[|run| - 2], i)
    requires WasFree(run[..|run| - 1], b) ==> WasFree(run, b)
    ensures i < |run[|run| - 1].callers| && run[|run| - 1].callers[i].style == run[|run| - 2].callers[i].style
    ensures IsSeenTo(run[..|run| - 1], i, b) ==> IsSeenTo(run, i, b)
  {
    var s, s' := run[|run| - 2], run[|run| - 1];
    LogGrows(s, i, r, s', i, b);
    if IsAhead(s.callers[i].pc, b) {
      StepSeesTo(s, i, r, s', b);
      assert run[|run| - 2] == s;
    }
  }

  /** In every run, a caller that has finished has written to unbind for every device it was started with:
  but a command leaves out those that it found not bound, and what is left when it gives up. */
  lemma {:induction false} NoneIsPassedOver(run: seq<State>, i: nat, b: BusId)
    requires IsRun(run) && i < |run[0].callers| && b in Assigned(run[0].callers[i])
    ensures |run[|run| - 1].callers| == |run[0].callers|
    ensures var s := run[|run| - 1];
            s.callers[i].pc.Done? ==>
              || IsTried(s.log, i, b)
              || (s.callers[i].style == UnbindCommand && (WasFree(run, b) || HasGivenUp(s.callers[i])))
  {
    RunSeesTo(run, i, b);
  }

  /** A command that reports that nothing is bound has written nothing, and found each of its devices not
  bound; one that reports anything else has written to unbind; any other caller reports success. */
  lemma {:induction false} ReportsAreTrue(run: seq<State>, i: nat)
    requires IsRun(run) && i < |run[0].callers|
    ensures |run[|run| - 1].callers| == |run[0].callers|
    ensures var s := run[|run| - 1];
            var c := s.callers[i];
            c.pc.Done? ==>
              if c.style == Xeval then c.pc.r == Ok
              else if c.pc.r == Fail(NOTHING_BOUND) then
                !HasWritten(s.log, i) && forall b :: b in Assigned(run[0].callers[i]) ==> WasFree(run, b)
              else HasWritten(s.log, i)
  {
    RunSeesTo(run, i, "");
    var s := run[|run| - 1];
    var c := s.callers[i];
    if c.pc == Done(Fail(NOTHING_BOUND)) && c.style == UnbindCommand {
      forall b | b in Assigned(run[0].callers[i]) ensures WasFree(run, b) {
        RunSeesTo(run, i, b);
        TriedIsWritten(s.log, i, b);
      }
    }
  }

  /** b was bound to usbip-host at some moment. */
  ghost predicate WasBound(run: seq<State>, b: BusId) {
    exists m :: 0 <= m < |run| && IsExported(run[m].devs, b)
  }

  /** What a command has found, and not yet come to. */
  predicate IsFound(pc: Pc, b: BusId) {
    match pc
    case Scanning(_, bound) => b in bound
    case Ready(todo) => b in todo
    case Done(_) => false
    case _ => b in pc.rest
  }

  lemma StepFinds(s: State, i: nat, r: Outcome, s': State, b: BusId)
    requires i < |s.callers| && CallerStep(s, i, r, s') && i < |s'.callers|
    ensures IsFound(s'.callers[i].pc, b) ==>
              IsFound(s.callers[i].pc, b) || (s.callers[i].pc.Scanning? && IsExported(s.devs, b))
    ensures IsTried(s'.log, i, b) ==> IsTried(s.log, i, b) || IsFound(s.callers[i].pc, b)
  {
    if IsTried(s'.log, i, b) {
      var k :| 0 <= k < |s'.log| && s'.log[k].caller == i && s'.log[k].busid == b;
      assert k < |s.log| ==> s.log[k] == s'.log[k];
    }
  }

  lemma OthersTryOthers(s: State, j: nat, r: Outcome, s': State, i: nat, b: BusId)
    requires j < |s.callers| && CallerStep(s, j, r, s') && i != j
    ensures IsTried(s'.log, i, b) ==> IsTried(s.log, i, b)
  {
    if IsTried(s'.log, i, b) {
      var k :| 0 <= k < |s'.log| && s'.log[k].caller == i && s'.log[k].busid == b;
      assert k < |s.log| && s.log[k] == s'.log[k];
    }
  }

  /** In every run, an "unbind" command writes to unbind only for devices that it has found bound. */
  lemma {:induction false} OnlyFoundAreTried(run: seq<State>, i: nat, b: BusId)
    requires IsRun(run) && i < |run[0].callers| && run[0].callers[i].style == UnbindCommand
    ensures i < |run[|run| - 1].callers|
    ensures IsFound(run[|run| - 1].callers[i].pc, b) || IsTried(run[|run| - 1].log, i, b) ==> WasBound(run, b)
  {
    RunSeesTo(run, i, b);
    if |run| == 1 {
      assert Initial(run[0].callers[i]);
    } else {
      var before, s, s' := run[..|run| - 1], run[|run| - 2], run[|run| - 1];
      OnlyFoundAreTried(before, i, b);
      BoundBefore(run, b);
      if !(OnItsOwn(s.devs, s'.devs) && s' == s.(devs := s'.devs)) {
        var j: nat, r :| j < |s.callers| && CallerStep(s, j, r, s');
        if j == i { StepFinds(s, i, r, s', b); } else { OthersTryOthers(s, j, r, s', i, b); }
      }
    }
  }

  lemma {:induction false} BoundBefore(run: seq<State>, b: BusId)
    requires |run| > 1
    ensures WasBound(run[..|run| - 1], b) ==> WasBound(run, b)
    ensures IsExported(run[|run| - 2].devs, b) ==> WasBound(run, b)
  {
    var before := run[..|run| - 1];
    if m :| 0 <= m < |before| && IsExported(before[m].devs, b) {
      assert run[m] == before[m];
    }
  }

  /** Of what its last resort answers, a command lets only ENODEV pass, and the others anything. */
  lemma OnlyENODEVPasses(s: State, i: nat, r: Outcome, s': State)
    requires i < |s.callers| && s.callers[i].pc.Overdue? && CallerStep(s, i, r, s')
    ensures i < |s'.callers|
    ensures s'.callers[i].pc ==
            if s.callers[i].style == UnbindCommand && r != Ok && r != Fail(ENODEV) then Done(r)
            else Ready(s.callers[i].pc.rest)
  {
  }

  // ----- no caller is ever stuck

  function PcRank(pc: Pc): nat {
    match pc
    case Scanning(devs, bound) => 2 + 7 * |devs| + 6 * |bound|
    case Ready(todo) => 1 + 6 * |todo|
    case Unbound(_, rest) => 6 + 6 * |rest|
    case Unmatched(_, rest) => 5 + 6 * |rest|
    case Settling(_, rest) => 4 + 6 * |rest|
    case Overdue(_, rest) => 3 + 6 * |rest|
    case Done(_) => 0
  }

  function Rank(callers: seq<Caller>): nat {
    if callers == [] then 0 else PcRank(callers[0].pc) + Rank(callers[1..])
  }

  lemma {:induction false} RankOfOne(callers: seq<Caller>, i: nat, c: Caller)
    requires i < |callers|
    ensures Rank(callers[i := c]) == Rank(callers) - PcRank(callers[i].pc) + PcRank(c.pc)
  {
    if i > 0 {
      assert callers[i := c][1..] == callers[1..][i - 1 := c];
      RankOfOne(callers[1..], i - 1, c);
    } else {
      assert callers[i := c][1..] == callers[1..];
    }
  }

  lemma GotoLowersRank(s: State, i: nat, pc: Pc, s': State)
    requires i < |s.callers| && s'.callers == Goto(s, i, pc).callers
    requires PcRank(pc) < PcRank(s.callers[i].pc)
    ensures Rank(s'.callers) < Rank(s.callers)
  {
    RankOfOne(s.callers, i, s.callers[i].(pc := pc));
  }

  /** An unbind write, as the kernel may answer it. */
  lemma CanUnbind(s: State, i: nat) returns (r: Outcome, s': State)
    requires i < |s.callers| && s.callers[i].pc.Ready? && s.callers[i].pc.todo != []
    ensures CallerStep(s, i, r, s') && Rank(s'.callers) < Rank(s.callers)
  {
    var c := s.callers[i];
    var b, rest := c.pc.todo[0], c.pc.todo[1..];
    var bound := IsExported(s.devs, b);
    r := if bound then Ok else Fail(ENODEV);
    var devs' := if bound then s.devs[b := s.devs[b].(driver := NoDriver)] else s.devs;
    var pc := if bound then Unbound(b, rest) else AfterDetach(c.style, r, rest);
    s' := Goto(s, i, pc).(devs := devs', log := s.log + [UnbindWrite(i, b, r)]);
    GotoLowersRank(s, i, pc, s');
  }

  /** The write to drivers_probe, as the kernel may answer it. */
  lemma CanProbe(s: State, i: nat) returns (r: Outcome, s': State)
    requires i < |s.callers| && s.callers[i].pc.Overdue?
    ensures CallerStep(s, i, r, s') && Rank(s'.callers) < Rank(s.callers)
  {
    var c := s.callers[i];
    var b, rest := c.pc.busid, c.pc.rest;
    r := if b in s.devs then Ok else Fail(ENODEV);
    var devs' := if b in s.devs && s.devs[b].driver == NoDriver then s.devs[b := s.devs[b].(driver := Normal("usb"))]
                 else s.devs;
    var pc := AfterDetach(c.style, r, rest);
    s' := Goto(s, i, pc).(devs := devs');
    GotoLowersRank(s, i, pc, s');
  }

  /** Whatever the state, an unfinished caller can take a step that brings the end nearer. */
  lemma NeverStuck(s: State, i: nat) returns (r: Outcome, s': State)
    requires i < |s.callers| && !s.callers[i].pc.Done?
    ensures CallerStep(s, i, r, s') && Rank(s'.callers) < Rank(s.callers)
  {
    var c := s.callers[i];
    if c.pc.Ready? && c.pc.todo != [] {
      r, s' := CanUnbind(s, i);
    } else if c.pc.Overdue? {
      r, s' := CanProbe(s, i);
    } else {
      var pc := match c.pc
                case Scanning(devs, bound) => ScanNext(s, devs, bound)
                case Unbound(b, rest) => Unmatched(b, rest)
                case Unmatched(b, rest) => Settling(b, rest)
                case Settling(b, rest) =>
                  if HasDriver(s.devs, b) then AfterDetach(c.style, Ok, rest) else Overdue(b, rest)
                case _ => Done(Ok);
      r, s' := Ok, Goto(s, i, pc);
      GotoLowersRank(s, i, pc, s');
    }
  }
}
