/** Sessions that export one device, one after another or at once. */
module Takeover {
  import opened Kernel

  /* A session attaches its device (exporterAttach), holds the connection until that hangs up, or until a
  signal or a dead channel ends the session, and then releases the device (exporterDetach).  With
  --no-linger it only attaches; an "unbind" command only releases.  A process that exports several devices
  counts as a session for each.  The connection of session i is socket i.

  A device has one connection at a time, and attaching one that is in use cuts the old one. */

  datatype Pc =
    | Looking                // about to read usbip_status
    | Cutting                // found it in use: about to write "-1"
    | Freeing                // found it not exported: about to look for a driver
    | Evicting               // found one: about to write to its unbind
    | Matching(freed: bool)  // about to write "add", after unbinding a driver or not
    | Binding(freed: bool)   // about to write to usbip-host's bind
    | Handing                // about to write the socket
    | Holding                // polling the socket
    | Releasing              // about to write to usbip-host's unbind
    | Unbound                // that went through
    | Unmatched              // "del" has been tried
    | Settling               // rebind has been tried; polling for a driver
    | Overdue                // the deadline passed
    | Done
    | Failed(freed: bool)    // the attach failed

  datatype Session = Session(busid: BusId, lingers: bool, pc: Pc)

  datatype State = State(devs: Devices, sessions: seq<Session>)

  // ----- the transition system

  ghost predicate Init(s: State) {
    && (forall b :: b in s.devs ==> s.devs[b].driver.Normal?)
    && (forall i :: 0 <= i < |s.sessions| ==> s.sessions[i].pc == Looking || s.sessions[i].pc == Releasing)
  }

  function Goto(s: State, i: nat, pc: Pc): State
    requires i < |s.sessions|
  {
    s.(sessions := s.sessions[i := s.sessions[i].(pc := pc)])
  }

  function Looked(status: nat): Pc {
    if status == SDEV_ST_USED then Cutting else if status == SDEV_ST_AVAILABLE then Handing else Freeing
  }

  /** An attach goes on only after a write that went through. */
  function AfterWrite(r: Outcome, pc: Pc, freed: bool): Pc {
    if r == Ok then pc else Failed(freed)
  }

  /** A write of an attach may be refused for reasons of the kernel's own. */
  ghost predicate IsRefused(before: Devices, after: Devices, r: Outcome) {
    r == Fail(EOTHER) && after == before
  }

  /** What a session with this pc writes. */
  ghost predicate Writes(before: Devices, after: Devices, pc: Pc, b: BusId, sock: nat, r: Outcome) {
    match pc
    case Cutting => SetSock(before, after, b, -1, r) || IsRefused(before, after, r)
    case Evicting => DriverUnbind(before, after, b, r) || IsRefused(before, after, r)  // umount may fail too
    case Matching(_) => MatchAdd(before, after, b, r) || IsRefused(before, after, r)
    case Binding(_) => Bind(before, after, b, r) || IsRefused(before, after, r)
    case Handing => SetSock(before, after, b, sock, r) || IsRefused(before, after, r)
    case Releasing => Unbind(before, after, b, r)
    case Unbound => MatchDel(before, after, b)
    case Unmatched => Rebind(before, after, b)
    case Overdue => DriversProbe(before, after, b, r)
    case _ => after == before
  }

  /** Where it goes on; modprobe may fail before anything is written. */
  ghost predicate GoesOn(devs: Devices, c: Session, r: Outcome, pc: Pc) {
    match c.pc
    case Looking => pc == Looked(UsbipStatus(devs, c.busid))
    case Cutting => pc == AfterWrite(r, Handing, false)
    case Freeing => pc == Failed(false) || pc == if HasDriver(devs, c.busid) then Evicting else Matching(false)
    case Evicting => pc == AfterWrite(r, Matching(true), false)
    case Matching(freed) => pc == AfterWrite(r, Binding(freed), freed)
    case Binding(freed) => pc == AfterWrite(r, Handing, freed)
    case Handing => pc == AfterWrite(r, if c.lingers then Holding else Done, false)
    case Holding => pc == Releasing
    case Releasing => pc == if r == Ok then Unbound else Done
    case Unbound => pc == Unmatched
    case Unmatched => pc == Settling
    case Settling => if HasDriver(devs, c.busid) then pc == Done else pc == Settling || pc == Overdue
    case Overdue => pc == Done
    case _ => false
  }

  ghost predicate SessionStep(s: State, i: nat, r: Outcome, s': State)
    requires i < |s.sessions|
  {
    var c := s.sessions[i];
    && |s'.sessions| == |s.sessions|
    && Writes(s.devs, s'.devs, c.pc, c.busid, i, r) && GoesOn(s.devs, c, r, s'.sessions[i].pc)
    && s' == Goto(s, i, s'.sessions[i].pc).(devs := s'.devs)
  }

  /** The importer's end of the connection goes, or the device is unplugged. */
  ghost predicate Loses(before: Devices, after: Devices, b: BusId) {
    SetSock(before, after, b, -1, Ok) || after == before - {b}
  }

  ghost predicate KernelStep(s: State, s': State, b: BusId) {
    s' == s.(devs := s'.devs) && (Reprobed(s.devs, s'.devs, b) || Loses(s.devs, s'.devs, b))
  }

  ghost predicate Next(s: State, s': State) {
    || (exists b :: KernelStep(s, s', b))
    || (exists i: nat, r :: i < |s.sessions| && SessionStep(s, i, r, s'))
  }

  /** Some steps, from any state on. */
  ghost predicate IsStretch(run: seq<State>) {
    && |run| > 0
    && (|run| > 1 ==> IsStretch(run[..|run| - 1]) && Next(run[|run| - 2], run[|run| - 1]))
  }

  ghost predicate IsRun(run: seq<State>) {
    IsStretch(run) && Init(run[0])
  }

  // ----- connections

  /** The device of session n is in use with its connection. */
  ghost predicate Connected(s: State, n: nat) {
    && n < |s.sessions|
    && var b := s.sessions[n].busid;
       UsbipStatus(s.devs, b) == SDEV_ST_USED && s.devs[b].sock == n
  }

  /** It has still to write to usbip-host's unbind, or may have to. */
  predicate IsPending(pc: Pc) {
    pc == Holding || pc == Releasing
  }

  /** It has handed over its connection, or will never. */
  predicate HasHanded(pc: Pc) {
    || pc.Holding? || pc.Releasing? || pc.Unbound? || pc.Unmatched? || pc.Settling? || pc.Overdue?
    || pc.Done? || pc.Failed?
  }

  /** Two sessions of one device. */
  predicate AreRivals(s: State, j: nat, n: nat) {
    j != n && j < |s.sessions| && n < |s.sessions| && s.sessions[j].busid == s.sessions[n].busid
  }

  lemma WriteTouchesOne(before: Devices, after: Devices, pc: Pc, b: BusId, sock: nat, r: Outcome)
    requires Writes(before, after, pc, b, sock, r)
    ensures forall c :: c != b ==> (c in after <==> c in before) && (c in before ==> after[c] == before[c])
  {
  }

  /** Only one session moves, and nothing but its device is touched. */
  lemma OthersStay(s: State, i: nat, r: Outcome, s': State, n: nat)
    requires i < |s.sessions| && SessionStep(s, i, r, s') && n < |s.sessions| && n != i
    ensures s'.sessions[n] == s.sessions[n]
    ensures s.sessions[n].busid != s.sessions[i].busid ==> (Connected(s', n) <==> Connected(s, n))
  {
    WriteTouchesOne(s.devs, s'.devs, s.sessions[i].pc, s.sessions[i].busid, i, r);
  }

  /** Only the write of its own socket connects a session, and a write to usbip-host's unbind leaves none
  connected. */
  lemma OnlyHandingConnects(s: State, i: nat, r: Outcome, s': State, n: nat)
    requires i < |s.sessions| && SessionStep(s, i, r, s') && Connected(s', n)
    ensures Connected(s, n) || (i == n && s.sessions[n].pc == Handing && r == Ok)
    ensures s.sessions[i].busid == s.sessions[n].busid ==> s.sessions[i].pc != Releasing
  {
    WriteTouchesOne(s.devs, s'.devs, s.sessions[i].pc, s.sessions[i].busid, i, r);
  }

  lemma KernelConnectsNobody(s: State, s': State, b: BusId, n: nat)
    requires KernelStep(s, s', b) && Connected(s', n)
    ensures Connected(s, n)
  {
  }

  // ----- what is connected is held

  ghost predicate IsHeld(s: State, n: nat) {
    Connected(s, n) ==> if s.sessions[n].lingers then IsPending(s.sessions[n].pc) else s.sessions[n].pc == Done
  }

  lemma StepKeepsHeld(s: State, s': State, n: nat)
    requires Next(s, s') && IsHeld(s, n)
    ensures IsHeld(s', n)
  {
    if b :| KernelStep(s, s', b) {
      if Connected(s', n) { KernelConnectsNobody(s, s', b, n); }
    } else {
      var i: nat, r :| i < |s.sessions| && SessionStep(s, i, r, s');
      if Connected(s', n) { OnlyHandingConnects(s, i, r, s', n); }
    }
  }

  /** In every run, the session whose connection a device is in use with still has to release it, unless it
  was told not to linger. */
  lemma {:induction false} ConnectedIsHeld(run: seq<State>, n: nat)
    requires IsRun(run)
    ensures IsHeld(run[|run| - 1], n)
  {
    if |run| > 1 {
      ConnectedIsHeld(run[..|run| - 1], n);
      StepKeepsHeld(run[|run| - 2], run[|run| - 1], n);
    }
  }

  // ----- an older session takes the device away again

  /** Every session has finished, or still holds a connection that has not hung up. */
  ghost predicate IsSettled(s: State) {
    forall i :: 0 <= i < |s.sessions| ==>
      s.sessions[i].pc.Done? || s.sessions[i].pc.Failed? || (s.sessions[i].pc.Holding? && Connected(s, i))
  }

  /** Another session has still to release the device of session n, or it is no longer connected. */
  ghost predicate IsChallenged(s: State, n: nat, j: nat) {
    && AreRivals(s, j, n) && HasHanded(s.sessions[n].pc)
    && (Connected(s, n) ==> IsPending(s.sessions[j].pc))
  }

  lemma StepKeepsChallenge(s: State, s': State, n: nat, j: nat)
    requires Next(s, s') && IsChallenged(s, n, j)
    ensures IsChallenged(s', n, j)
  {
    if b :| KernelStep(s, s', b) {
      if Connected(s', n) { KernelConnectsNobody(s, s', b, n); }
    } else {
      var i: nat, r :| i < |s.sessions| && SessionStep(s, i, r, s');
      if Connected(s', n) { OnlyHandingConnects(s, i, r, s', n); }
    }
  }

  lemma {:induction false} StaysChallenged(run: seq<State>, n: nat, j: nat)
    requires IsStretch(run) && IsChallenged(run[0], n, j)
    ensures IsChallenged(run[|run| - 1], n, j)
  {
    if |run| > 1 {
      StaysChallenged(run[..|run| - 1], n, j);
      StepKeepsChallenge(run[|run| - 2], run[|run| - 1], n, j);
    }
  }

  /** Whoever hands over its connection while another session still has to release the device loses it:
  that session will release it, whichever connection it is in use with. */
  lemma {:induction false} OlderSessionWins(run: seq<State>, n: nat, j: nat)
    requires IsStretch(run) && AreRivals(run[0], j, n)
    requires HasHanded(run[0].sessions[n].pc) && IsPending(run[0].sessions[j].pc)
    requires IsSettled(run[|run| - 1])
    ensures !Connected(run[|run| - 1], n)
  {
    StaysChallenged(run, n, j);
  }

  // ----- cutting the connection of a session that lingers

  /** Session n, having found the device in use, has not been able to hand over its connection yet while
  j has not released the device. */
  ghost predicate CutsShort(s: State, n: nat, j: nat) {
    && AreRivals(s, j, n)
    && (s.sessions[n].pc == Cutting || s.sessions[n].pc == Handing || HasHanded(s.sessions[n].pc))
    && if HasHanded(s.sessions[n].pc) then Connected(s, n) ==> IsPending(s.sessions[j].pc)
       else IsPending(s.sessions[j].pc) || (HasHanded(s.sessions[j].pc) && !IsExported(s.devs, s.sessions[n].busid))
  }

  ghost predicate OnlyTwo(s: State, n: nat, j: nat) {
    forall i: nat :: AreRivals(s, i, n) ==> i == j
  }

  /** The kernel does not give session n's device back to usbip-host. */
  ghost predicate NotGivenBack(s: State, s': State, n: nat)
    requires n < |s.sessions|
  {
    var b := s.sessions[n].busid;
    Reprobed(s.devs, s'.devs, b) ==> !IsExported(s'.devs, b)
  }

  lemma KernelCutsShort(s: State, s': State, b: BusId, n: nat, j: nat)
    requires KernelStep(s, s', b) && CutsShort(s, n, j) && NotGivenBack(s, s', n)
    ensures CutsShort(s', n, j)
  {
    if Connected(s', n) { KernelConnectsNobody(s, s', b, n); }
  }

  lemma SessionCutsShort(s: State, i: nat, r: Outcome, s': State, n: nat, j: nat)
    requires i < |s.sessions| && SessionStep(s, i, r, s')
    requires CutsShort(s, n, j) && OnlyTwo(s, n, j) && NotGivenBack(s, s', n)
    ensures CutsShort(s', n, j)
  {
    if s.sessions[i].busid != s.sessions[n].busid {
      OthersStay(s, i, r, s', n);
      OthersStay(s, i, r, s', j);
      WriteTouchesOne(s.devs, s'.devs, s.sessions[i].pc, s.sessions[i].busid, i, r);
    } else {
      assert i == j || i == n by { assert i != n ==> AreRivals(s, i, n); }
      OthersStay(s, i, r, s', if i == j then n else j);
      if Connected(s', n) { OnlyHandingConnects(s, i, r, s', n); }
    }
  }

  ghost predicate SameSessions(s: State, s': State) {
    && |s'.sessions| == |s.sessions|
    && forall i :: 0 <= i < |s.sessions| ==> s'.sessions[i].busid == s.sessions[i].busid
  }

  lemma StepCutsShort(s: State, s': State, n: nat, j: nat)
    requires Next(s, s') && CutsShort(s, n, j) && OnlyTwo(s, n, j) && NotGivenBack(s, s', n)
    ensures CutsShort(s', n, j) && OnlyTwo(s', n, j)
  {
    assert SameSessions(s, s');
    assert forall i: nat :: AreRivals(s', i, n) ==> AreRivals(s, i, n);
    if b :| KernelStep(s, s', b) {
      KernelCutsShort(s, s', b, n, j);
    } else {
      var i: nat, r :| i < |s.sessions| && SessionStep(s, i, r, s');
      SessionCutsShort(s, i, r, s', n, j);
    }
  }

  ghost predicate NeverGivenBack(run: seq<State>, n: nat) {
    && (forall k :: 0 <= k < |run| ==> n < |run[k].sessions|)
    && forall k :: 0 < k < |run| ==> NotGivenBack(run[k - 1], run[k], n)
  }

  lemma {:induction false} AllCutShort(run: seq<State>, n: nat, j: nat)
    requires IsStretch(run) && CutsShort(run[0], n, j) && OnlyTwo(run[0], n, j) && NeverGivenBack(run, n)
    ensures CutsShort(run[|run| - 1], n, j) && OnlyTwo(run[|run| - 1], n, j)
  {
    if |run| > 1 {
      AllCutShort(run[..|run| - 1], n, j);
      StepCutsShort(run[|run| - 2], run[|run| - 1], n, j);
    }
  }

  /** So an attach that finds its device in use by a session that lingers never ends up with it, if those
  two are alone and the kernel does not give the device back to usbip-host: the old session releases it
  before the new one has handed over its connection, or afterwards. */
  lemma {:induction false} CutterLoses(run: seq<State>, n: nat, j: nat)
    requires IsStretch(run) && AreRivals(run[0], j, n) && OnlyTwo(run[0], n, j) && NeverGivenBack(run, n)
    requires run[0].sessions[n].pc == Cutting && IsPending(run[0].sessions[j].pc)
    requires IsSettled(run[|run| - 1])
    ensures !Connected(run[|run| - 1], n)
  {
    AllCutShort(run, n, j);
  }

  lemma {:induction false} PrefixIsStretch(run: seq<State>, k: nat)
    requires IsStretch(run) && k < |run|
    ensures IsStretch(run[..k + 1])
    decreases |run|
  {
    if k == |run| - 1 {
      assert run[..k + 1] == run;
    } else {
      PrefixIsStretch(run[..|run| - 1], k);
      assert run[..|run| - 1][..k + 1] == run[..k + 1];
    }
  }

  lemma {:induction false} SuffixIsStretch(run: seq<State>, k: nat)
    requires IsStretch(run) && k < |run|
    ensures IsStretch(run[k..])
    decreases |run|
  {
    if k < |run| - 1 {
      SuffixIsStretch(run[..|run| - 1], k);
      var rest := run[k..];
      assert rest[..|rest| - 1] == run[..|run| - 1][k..];
    }
  }

  /** In terms of a whole run: who finds a device in use, at moment k, with the connection of a session that
  lingers, will not keep it. */
  lemma {:induction false} TakingOverFails(run: seq<State>, k: nat, n: nat, j: nat)
    requires IsRun(run) && k < |run| && AreRivals(run[k], j, n) && run[k].sessions[n].pc == Cutting
    requires Connected(run[k], j) && run[k].sessions[j].lingers
    requires OnlyTwo(run[k], n, j) && NeverGivenBack(run[k..], n) && IsSettled(run[|run| - 1])
    ensures !Connected(run[|run| - 1], n)
  {
    PrefixIsStretch(run, k);
    assert run[..k + 1][0] == run[0];
    ConnectedIsHeld(run[..k + 1], j);
    SuffixIsStretch(run, k);
    CutterLoses(run[k..], n, j);
  }

  // ----- exactly when a new export survives

  /** It is about to cut the connection of a device that is in use, or to unbind it, or will be. */
  predicate IsThreat(pc: Pc) {
    pc == Looking || pc == Cutting || pc == Freeing || pc == Evicting || IsPending(pc)
  }

  ghost predicate IsSafe(s: State, n: nat) {
    Connected(s, n) && forall j: nat :: AreRivals(s, j, n) ==> !IsThreat(s.sessions[j].pc)
  }

  /** A step that is no reason for session n to give up its device: nothing happens to its connection from
  outside, and it does not release the device while it is connected. */
  ghost predicate Quiet(s: State, s': State, n: nat)
    requires n < |s.sessions|
  {
    || (exists b :: KernelStep(s, s', b) && (Reprobed(s.devs, s'.devs, b) || b != s.sessions[n].busid))
    || (exists i: nat, r :: i < |s.sessions| && SessionStep(s, i, r, s') && (i == n ==> !Connected(s, n)))
  }

  ghost predicate IsQuiet(run: seq<State>, n: nat) {
    && |run| > 0 && n < |run[|run| - 1].sessions|
    && (|run| > 1 ==> IsQuiet(run[..|run| - 1], n) && Quiet(run[|run| - 2], run[|run| - 1], n))
  }

  lemma SessionKeepsSafe(s: State, i: nat, r: Outcome, s': State, n: nat)
    requires i < |s.sessions| && SessionStep(s, i, r, s') && IsSafe(s, n) && i != n
    ensures IsSafe(s', n)
  {
    OthersStay(s, i, r, s', n);
    forall j: nat | AreRivals(s', j, n)
      ensures Connected(s', n) && !IsThreat(s'.sessions[j].pc)
    {
      assert AreRivals(s, j, n);
      if j != i { OthersStay(s, i, r, s', j); }
    }
  }

  lemma QuietKeepsSafe(s: State, s': State, n: nat)
    requires n < |s.sessions| && Quiet(s, s', n) && IsSafe(s, n)
    ensures IsSafe(s', n)
  {
    if b :| KernelStep(s, s', b) && (Reprobed(s.devs, s'.devs, b) || b != s.sessions[n].busid) {
      assert forall j: nat :: AreRivals(s', j, n) ==> AreRivals(s, j, n);
    } else {
      var i: nat, r :| i < |s.sessions| && SessionStep(s, i, r, s') && (i == n ==> !Connected(s, n));
      SessionKeepsSafe(s, i, r, s', n);
    }
  }

  lemma {:induction false} StaysSafe(run: seq<State>, n: nat)
    requires IsQuiet(run, n) && IsSafe(run[0], n)
    ensures IsSafe(run[|run| - 1], n)
  {
    if |run| > 1 {
      StaysSafe(run[..|run| - 1], n);
      QuietKeepsSafe(run[|run| - 2], run[|run| - 1], n);
    }
  }

  ghost predicate AlwaysSurvives(s: State, n: nat) {
    forall run :: IsQuiet(run, n) && run[0] == s ==> Connected(run[|run| - 1], n)
  }

  predicate IsReady(pc: Pc) {
    pc == Cutting || pc == Evicting || pc == Releasing
  }

  lemma Prepares(s: State, n: nat, j: nat) returns (s': State)
    requires Connected(s, n) && AreRivals(s, j, n) && IsThreat(s.sessions[j].pc) && !IsReady(s.sessions[j].pc)
    ensures Quiet(s, s', n) && Connected(s', n) && AreRivals(s', j, n) && IsReady(s'.sessions[j].pc)
  {
    var pc := match s.sessions[j].pc case Looking => Cutting case Freeing => Evicting case _ => Releasing;
    s' := Goto(s, j, pc);
    assert SessionStep(s, j, Ok, s');
  }

  lemma Strikes(s: State, n: nat, j: nat) returns (s': State)
    requires Connected(s, n) && AreRivals(s, j, n) && IsReady(s.sessions[j].pc)
    ensures Quiet(s, s', n) && n < |s'.sessions| && !Connected(s', n)
  {
    var b := s.sessions[j].busid;
    var pc := match s.sessions[j].pc case Cutting => Handing case Evicting => Matching(true) case _ => Unbound;
    var d := if s.sessions[j].pc == Cutting then s.devs[b].(status := SDEV_ST_AVAILABLE, sock := -1)
             else s.devs[b].(driver := NoDriver);
    s' := Goto(s, j, pc).(devs := s.devs[b := d]);
    assert SessionStep(s, j, Ok, s');
  }

  lemma CanBeLost(s: State, n: nat, j: nat)
    requires Connected(s, n) && AreRivals(s, j, n) && IsThreat(s.sessions[j].pc)
    ensures !AlwaysSurvives(s, n)
  {
    var run := [s];
    assert IsQuiet(run, n);
    if !IsReady(s.sessions[j].pc) {
      var s1 := Prepares(s, n, j);
      run := ExtendQuiet(run, s1, n);
    }
    var s2 := Strikes(run[|run| - 1], n, j);
    run := ExtendQuiet(run, s2, n);
    assert IsQuiet(run, n) && run[0] == s && !Connected(run[|run| - 1], n);
  }

  lemma {:induction false} ExtendQuiet(run: seq<State>, s: State, n: nat) returns (more: seq<State>)
    requires IsQuiet(run, n) && Quiet(run[|run| - 1], s, n) && n < |s.sessions|
    ensures IsQuiet(more, n) && more[0] == run[0] && more[|more| - 1] == s
  {
    more := run + [s];
    assert more[..|run|] == run;
  }

  /** As long as its connection is not lost from outside, a session keeps its device, whatever all the others
  do and however slowly, exactly if no other session of that device is about to look at it, to cut it off, to
  unbind it, or holds an older connection.  Those that wait for the device to settle are harmless, and
  so are those that found it driverless or free: their attach fails. */
  lemma SurvivesExactlyWhen(s: State, n: nat)
    requires Connected(s, n)
    ensures AlwaysSurvives(s, n) <==> forall j: nat :: AreRivals(s, j, n) ==> !IsThreat(s.sessions[j].pc)
  {
    if j: nat :| AreRivals(s, j, n) && IsThreat(s.sessions[j].pc) {
      CanBeLost(s, n, j);
    } else {
      forall run | IsQuiet(run, n) && run[0] == s
        ensures Connected(run[|run| - 1], n)
      {
        StaysSafe(run, n);
      }
    }
  }

  // ----- refused attaches

  predicate Cares(pc: Pc) {
    || pc == Matching(true) || pc == Binding(true) || pc == Failed(true)
    || pc == Unbound || pc == Unmatched || pc == Settling || pc == Overdue
  }

  /** A device without a driver was unbound by a session that will see to it, or failed to. */
  ghost predicate IsCaredFor(s: State, b: BusId) {
    b in s.devs && s.devs[b].driver == NoDriver ==>
      exists i :: 0 <= i < |s.sessions| && s.sessions[i].busid == b && Cares(s.sessions[i].pc)
  }

  lemma SessionKeepsCare(s: State, i: nat, r: Outcome, s': State, b: BusId)
    requires i < |s.sessions| && SessionStep(s, i, r, s') && IsCaredFor(s, b)
    ensures IsCaredFor(s', b)
  {
    WriteTouchesOne(s.devs, s'.devs, s.sessions[i].pc, s.sessions[i].busid, i, r);
    if b in s'.devs && s'.devs[b].driver == NoDriver {
      if Cares(s'.sessions[i].pc) && s.sessions[i].busid == b {
        assert s'.sessions[i].busid == b;
      } else {
        assert s.devs[b].driver == NoDriver;
        var k :| 0 <= k < |s.sessions| && s.sessions[k].busid == b && Cares(s.sessions[k].pc);
        assert k != i && s'.sessions[k] == s.sessions[k];
      }
    }
  }

  lemma StepKeepsCare(s: State, s': State, b: BusId)
    requires Next(s, s') && IsCaredFor(s, b)
    ensures IsCaredFor(s', b)
  {
    if a :| KernelStep(s, s', a) {
    } else {
      var i: nat, r :| i < |s.sessions| && SessionStep(s, i, r, s');
      SessionKeepsCare(s, i, r, s', b);
    }
  }

  lemma {:induction false} RunKeepsCare(run: seq<State>, b: BusId)
    requires IsRun(run)
    ensures IsCaredFor(run[|run| - 1], b)
  {
    if |run| > 1 {
      RunKeepsCare(run[..|run| - 1], b);
      StepKeepsCare(run[|run| - 2], run[|run| - 1], b);
    }
  }

  /** Once all have settled, a device that is left without a driver had an attach refused after it had
  unbound the driver: nothing else leaves it so. */
  lemma {:induction false} DriverlessIfRefused(run: seq<State>, b: BusId)
    requires IsRun(run) && IsSettled(run[|run| - 1])
    requires b in run[|run| - 1].devs && run[|run| - 1].devs[b].driver == NoDriver
    ensures exists c :: c in run[|run| - 1].sessions && c.busid == b && c.pc == Failed(true)
  {
    RunKeepsCare(run, b);
    var s := run[|run| - 1];
    var i :| 0 <= i < |s.sessions| && s.sessions[i].busid == b && Cares(s.sessions[i].pc);
    assert s.sessions[i] in s.sessions;
  }

  /** And such an attach did unbind it: it was there with a driver, and then without. */
  lemma {:induction false} FreedMeansEvicted(run: seq<State>, i: nat) returns (k: nat)
    requires IsRun(run) && i < |run[|run| - 1].sessions|
    requires var pc := run[|run| - 1].sessions[i].pc; pc == Matching(true) || pc == Binding(true) || pc == Failed(true)
    ensures k + 1 < |run| && |run[k].sessions| == |run[k + 1].sessions| == |run[|run| - 1].sessions|
    ensures var b := run[|run| - 1].sessions[i].busid;
            && run[k].sessions[i].pc == Evicting && run[k + 1].sessions[i].pc == Matching(true)
            && run[k].sessions[i].busid == b
            && HasDriver(run[k].devs, b) && b in run[k + 1].devs && run[k + 1].devs[b].driver == NoDriver
  {
    var n := |run| - 1;
    assert n > 0;
    var s, s' := run[n - 1], run[n];
    assert |s.sessions| == |s'.sessions| && s'.sessions[i].busid == s.sessions[i].busid;
    var pc := s.sessions[i].pc;
    if pc == Evicting && s'.sessions[i].pc == Matching(true) {
      k := n - 1;
    } else {
      CameFromFreed(s, s', i);
      k := FreedMeansEvicted(run[..n], i);
    }
  }

  lemma CameFromFreed(s: State, s': State, i: nat)
    requires Next(s, s') && i < |s.sessions| && |s'.sessions| == |s.sessions|
    requires !(s.sessions[i].pc == Evicting && s'.sessions[i].pc == Matching(true))
    requires var pc := s'.sessions[i].pc; pc == Matching(true) || pc == Binding(true) || pc == Failed(true)
    ensures var pc := s.sessions[i].pc; pc == Matching(true) || pc == Binding(true) || pc == Failed(true)
  {
    if b :| KernelStep(s, s', b) {
    } else {
      var j: nat, r :| j < |s.sessions| && SessionStep(s, j, r, s');
      if j != i { OthersStay(s, j, r, s', i); }
    }
  }

  // ----- what can happen

  /** What an attach does first depends on usbip_status: 2, in use: cut; 1, available: hand over; anything
  else: free the device, and bind it. */
  lemma LooksFirst(s: State, i: nat, r: Outcome, s': State)
    requires i < |s.sessions| && s.sessions[i].pc == Looking && SessionStep(s, i, r, s')
    ensures s'.devs == s.devs && i < |s'.sessions|
    ensures var status := UsbipStatus(s.devs, s.sessions[i].busid);
            s'.sessions[i].pc == if status == 2 then Cutting else if status == 1 then Handing else Freeing
  {
  }

  function Attaching(s: State, i: nat, d: Device, pc: Pc): State
    requires i < |s.sessions|
  {
    Goto(s, i, pc).(devs := s.devs[s.sessions[i].busid := d])
  }

  /** A device that is not on usbip-host can be freed of its driver, which is unbound exactly if there is one. */
  lemma CanFree(s: State, i: nat) returns (run: seq<State>)
    requires i < |s.sessions| && s.sessions[i].pc == Looking && s.sessions[i].busid in s.devs
    requires UsbipStatus(s.devs, s.sessions[i].busid) == 0
    ensures var b := s.sessions[i].busid;
            IsStretch(run) && run[0] == s &&
            run[|run| - 1] == Attaching(s, i, s.devs[b].(driver := NoDriver), Matching(HasDriver(s.devs, b)))
  {
    var b := s.sessions[i].busid;
    run := Further([s], i, Goto(s, i, Freeing));
    if HasDriver(s.devs, b) {
      run := Further(run, i, Goto(s, i, Evicting));
      run := Further(run, i, Attaching(s, i, s.devs[b].(driver := NoDriver), Matching(true)));
    } else {
      assert s.devs[b := s.devs[b].(driver := NoDriver)] == s.devs;
      run := Further(run, i, Attaching(s, i, s.devs[b].(driver := NoDriver), Matching(false)));
    }
  }

  lemma CanAdd(s: State, i: nat, freed: bool) returns (s': State)
    requires i < |s.sessions| && s.sessions[i].pc == Matching(freed) && s.sessions[i].busid in s.devs
    ensures SessionStep(s, i, Ok, s')
    ensures s' == Attaching(s, i, s.devs[s.sessions[i].busid].(matched := true), Binding(freed))
  {
    s' := Attaching(s, i, s.devs[s.sessions[i].busid].(matched := true), Binding(freed));
  }

  lemma CanBindTo(s: State, i: nat, freed: bool) returns (s': State)
    requires i < |s.sessions| && s.sessions[i].pc == Binding(freed) && s.sessions[i].busid in s.devs
    requires var d := s.devs[s.sessions[i].busid]; d.driver == NoDriver && d.matched
    ensures SessionStep(s, i, Ok, s')
    ensures s' == Attaching(s, i, Bound(s.devs[s.sessions[i].busid]), Handing)
  {
    s' := Attaching(s, i, Bound(s.devs[s.sessions[i].busid]), Handing);
  }

  lemma {:induction false} CanBind(run: seq<State>, i: nat, freed: bool) returns (more: seq<State>)
    requires IsStretch(run) && i < |run[|run| - 1].sessions| && run[|run| - 1].sessions[i].pc == Matching(freed)
    requires var s := run[|run| - 1];
             s.sessions[i].busid in s.devs && s.devs[s.sessions[i].busid].driver == NoDriver
    ensures IsStretch(more) && run <= more && Connected(more[|more| - 1], i)
  {
    var s1 := CanAdd(run[|run| - 1], i, freed);
    more := Further(run, i, s1);
    var s2 := CanBindTo(s1, i, freed);
    more := Further(more, i, s2);
    more := CanHand(more, i);
  }

  lemma {:induction false} CanHand(run: seq<State>, i: nat) returns (more: seq<State>)
    requires IsStretch(run) && i < |run[|run| - 1].sessions| && run[|run| - 1].sessions[i].pc == Handing
    requires UsbipStatus(run[|run| - 1].devs, run[|run| - 1].sessions[i].busid) == 1
    ensures IsStretch(more) && run <= more && Connected(more[|more| - 1], i)
  {
    var s := run[|run| - 1];
    var d := s.devs[s.sessions[i].busid].(status := SDEV_ST_USED, sock := i);
    more := Further(run, i, Attaching(s, i, d, if s.sessions[i].lingers then Holding else Done));
  }

  /** From whatever driver it has, or none, a device can be attached. */
  lemma CanAttach(s: State, i: nat) returns (run: seq<State>)
    requires i < |s.sessions| && s.sessions[i].pc == Looking && s.sessions[i].busid in s.devs
    requires UsbipStatus(s.devs, s.sessions[i].busid) == 0
    ensures IsStretch(run) && run[0] == s && Connected(run[|run| - 1], i)
  {
    var b := s.sessions[i].busid;
    run := CanFree(s, i);
    run := CanBind(run, i, HasDriver(s.devs, b));
  }

  lemma {:induction false} Further(run: seq<State>, i: nat, s: State) returns (more: seq<State>)
    requires IsStretch(run) && i < |run[|run| - 1].sessions| && SessionStep(run[|run| - 1], i, Ok, s)
    ensures IsStretch(more) && |more| == |run| + 1 && run <= more && more[|run|] == s
  {
    more := run + [s];
    assert more[..|run|] == run;
  }

  /** At any moment the importer may go, or the device be unplugged; any write of an attach may be refused,
  and leaves everything as it was; and a device may take too long to settle. */
  lemma AnythingCanHappen(s: State, i: nat, b: BusId)
    requires i < |s.sessions|
    ensures Next(s, s.(devs := s.devs - {b}))
    ensures UsbipStatus(s.devs, b) == 2 ==>
              Next(s, s.(devs := s.devs[b := s.devs[b].(status := SDEV_ST_AVAILABLE, sock := -1)]))
    ensures var pc := s.sessions[i].pc;
            && (pc.Cutting? || pc.Freeing? || pc.Evicting? || pc.Handing? ==> Next(s, Goto(s, i, Failed(false))))
            && (pc.Matching? || pc.Binding? ==> Next(s, Goto(s, i, Failed(pc.freed))))
            && (pc.Settling? && !HasDriver(s.devs, s.sessions[i].busid) ==>
                Next(s, Goto(s, i, Overdue)) && Next(s, s))
  {
    KernelCan(s, b);
    SessionCan(s, i);
  }

  lemma KernelCan(s: State, b: BusId)
    ensures Next(s, s.(devs := s.devs - {b}))
    ensures UsbipStatus(s.devs, b) == 2 ==>
              Next(s, s.(devs := s.devs[b := s.devs[b].(status := SDEV_ST_AVAILABLE, sock := -1)]))
  {
    assert KernelStep(s, s.(devs := s.devs - {b}), b);
    if UsbipStatus(s.devs, b) == 2 {
      assert KernelStep(s, s.(devs := s.devs[b := s.devs[b].(status := SDEV_ST_AVAILABLE, sock := -1)]), b);
    }
  }

  lemma SessionCan(s: State, i: nat)
    requires i < |s.sessions|
    ensures var pc := s.sessions[i].pc;
            && (pc.Cutting? || pc.Freeing? || pc.Evicting? || pc.Handing? ==> Next(s, Goto(s, i, Failed(false))))
            && (pc.Matching? || pc.Binding? ==> Next(s, Goto(s, i, Failed(pc.freed))))
            && (pc.Settling? && !HasDriver(s.devs, s.sessions[i].busid) ==>
                Next(s, Goto(s, i, Overdue)) && Next(s, s))
  {
    var pc := s.sessions[i].pc;
    if pc.Cutting? || pc.Freeing? || pc.Evicting? || pc.Handing? {
      assert SessionStep(s, i, Fail(EOTHER), Goto(s, i, Failed(false)));
    } else if pc.Matching? || pc.Binding? {
      assert SessionStep(s, i, Fail(EOTHER), Goto(s, i, Failed(pc.freed)));
    } else if pc.Settling? && !HasDriver(s.devs, s.sessions[i].busid) {
      assert SessionStep(s, i, Ok, Goto(s, i, Overdue));
      assert Goto(s, i, Settling) == s;
      assert SessionStep(s, i, Ok, s);
    }
  }

  // ----- runs in which it goes wrong

  function Only(d: Device): Devices {
    map["1-1" := d]
  }

  /** Two sessions for one device. */
  function Two(d: Device, first: Pc, second: Pc): State {
    State(Only(d), [Session("1-1", true, first), Session("1-1", true, second)])
  }

  const PLAIN := Device(Normal("usb"), false, SDEV_ST_AVAILABLE, -1)
  const FREE := PLAIN.(driver := NoDriver)
  const BOUND := Bound(FREE.(matched := true))
  const RELEASED := InUse(1).(driver := Normal("usb"))

  function InUse(sock: nat): Device {
    BOUND.(status := SDEV_ST_USED, sock := sock)
  }

  /** What a write does to the only device. */
  ghost predicate WritesOnly(d: Device, d': Device, pc: Pc, sock: nat, r: Outcome) {
    match pc
    case Cutting =>
      r == Ok && d.driver == UsbipHost && d.status == SDEV_ST_USED && d' == d.(status := SDEV_ST_AVAILABLE, sock := -1)
    case Evicting => r == Ok && d.driver.Normal? && d' == d.(driver := NoDriver)
    case Matching(_) => (r == Ok && d' == d.(matched := true)) || (r == Fail(EOTHER) && d' == d)
    case Binding(_) => r == Ok && d.driver == NoDriver && d.matched && d' == Bound(d)
    case Handing => r == Ok && d == BOUND && d' == InUse(sock)
    case Releasing =>
      if d.driver == UsbipHost then r == Ok && d' == d.(driver := Normal("usb")) else r == Fail(ENODEV) && d' == d
    case Unbound => d' == d.(matched := false)
    case Overdue => false
    case _ => d' == d
  }

  lemma IsWrite(d: Device, d': Device, pc: Pc, sock: nat, r: Outcome)
    requires sock < 2 && WritesOnly(d, d', pc, sock, r)
    ensures Writes(Only(d), Only(d'), pc, "1-1", sock, r)
  {
    assert Only(d)["1-1" := d'] == Only(d');
  }

  /** A step of the first session, or of the second. */
  lemma {:induction false} Then(run: seq<State>, i: nat, r: Outcome, d: Device, pc: Pc) returns (more: seq<State>)
    requires IsRun(run) && i < 2 && exists e, p, q :: run[|run| - 1] == Two(e, p, q)
    requires var s := run[|run| - 1];
             WritesOnly(s.devs["1-1"], d, s.sessions[i].pc, i, r) && GoesOn(s.devs, s.sessions[i], r, pc)
    ensures IsRun(more) && run <= more && |more| == |run| + 1
    ensures var s := run[|run| - 1];
            more[|run|] == Two(d, if i == 0 then pc else s.sessions[0].pc, if i == 1 then pc else s.sessions[1].pc)
  {
    var s := run[|run| - 1];
    var e, p, q :| s == Two(e, p, q);
    var s' := Two(d, if i == 0 then pc else p, if i == 1 then pc else q);
    IsWrite(e, d, s.sessions[i].pc, i, r);
    assert s'.sessions == s.sessions[i := s.sessions[i].(pc := pc)];
    assert SessionStep(s, i, r, s');
    more := run + [s'];
    assert more[..|run|] == run;
  }

  lemma Freed() returns (run: seq<State>)
    ensures IsRun(run) && run[0] == Two(PLAIN, Looking, Looking) && run[|run| - 1] == Two(FREE, Matching(true), Looking)
  {
    run := [Two(PLAIN, Looking, Looking)];
    run := Then(run, 0, Ok, PLAIN, Freeing);
    run := Then(run, 0, Ok, PLAIN, Evicting);
    run := Then(run, 0, Ok, FREE, Matching(true));
  }

  lemma Attached() returns (run: seq<State>)
    ensures IsRun(run) && run[0] == Two(PLAIN, Looking, Looking) && run[|run| - 1] == Two(InUse(0), Holding, Looking)
  {
    run := Freed();
    run := Then(run, 0, Ok, FREE.(matched := true), Binding(true));
    run := Then(run, 0, Ok, BOUND, Handing);
    run := Then(run, 0, Ok, InUse(0), Holding);
  }

  lemma TakenOver() returns (run: seq<State>)
    ensures IsRun(run) && run[0] == Two(PLAIN, Looking, Looking) && run[|run| - 1] == Two(InUse(1), Holding, Holding)
  {
    run := Attached();
    run := Then(run, 1, Ok, InUse(0), Cutting);
    run := Then(run, 1, Ok, BOUND, Handing);
    run := Then(run, 1, Ok, InUse(1), Holding);
  }

  lemma {:induction false} FirstReleases(run: seq<State>) returns (more: seq<State>)
    requires IsRun(run) && run[|run| - 1] == Two(InUse(1), Holding, Holding)
    ensures IsRun(more) && run <= more && more[|more| - 1] == Two(RELEASED.(matched := false), Unmatched, Holding)
  {
    more := Then(run, 0, Ok, InUse(1), Releasing);
    more := Then(more, 0, Ok, RELEASED, Unbound);
    more := Then(more, 0, Ok, RELEASED.(matched := false), Unmatched);
  }

  lemma {:induction false} FirstSettles(run: seq<State>, d: Device) returns (more: seq<State>)
    requires IsRun(run) && run[|run| - 1] == Two(d, Unmatched, Holding) && d.driver == Normal("usb")
    ensures IsRun(more) && run <= more && more[|more| - 1] == Two(d, Done, Holding)
  {
    more := Then(run, 0, Ok, d, Settling);
    more := Then(more, 0, Ok, d, Done);
  }

  lemma {:induction false} SecondReleases(run: seq<State>, d: Device) returns (more: seq<State>)
    requires IsRun(run) && run[|run| - 1] == Two(d, Done, Holding) && d.driver == Normal("usb")
    ensures IsRun(more) && run <= more && more[|more| - 1] == Two(d, Done, Done)
  {
    more := Then(run, 1, Ok, d, Releasing);
    more := Then(more, 1, Fail(ENODEV), d, Done);
  }

  /** From a plain device on, at moment k session 1 is connected, and in the end neither is. */
  ghost predicate IsLost(run: seq<State>, k: nat) {
    && IsRun(run) && run[0] == Two(PLAIN, Looking, Looking) && k < |run| && Connected(run[k], 1)
    && run[|run| - 1] == Two(RELEASED.(matched := false), Done, Done)
  }

  /** A second session takes the device over from one that still holds it, and is connected; the first then
  releases the device, and neither has it in the end. */
  lemma TakeoverLosesTheDevice()
    ensures exists run, k :: IsLost(run, k)
  {
    var run := TakenOver();
    var k := |run| - 1;
    var more := FirstReleases(run);
    more := FirstSettles(more, RELEASED.(matched := false));
    more := SecondReleases(more, RELEASED.(matched := false));
    assert more[k] == run[k];
    assert IsLost(more, k);
  }

  /** "add" being refused, or so, is enough for an attach to leave the device without a driver. */
  lemma RefusalLeavesDriverless()
    ensures exists run: seq<State> :: IsRun(run) && run[0] == Two(PLAIN, Looking, Looking) &&
                                      run[|run| - 1] == Two(FREE, Failed(true), Failed(false))
  {
    var run := Freed();
    run := Then(run, 0, Fail(EOTHER), FREE, Failed(true));
    run := Then(run, 1, Ok, FREE, Freeing);
    run := Then(run, 1, Fail(EOTHER), FREE, Failed(false));
  }
}
