/** The exporter's sysfs writes, one caller at a time, with the rest of the world acting between any
two of them. */
module Exporter {
  import opened Kernel

  datatype Write =
    | Unbinding(busid: BusId, r: Outcome)
    | Unmatching(busid: BusId)
    | Rebinding(busid: BusId)
    | Probing(busid: BusId, r: Outcome)

  // A step of an attach that can fail; Socket(-1) cuts a connection.
  datatype Step =
    | Load
    | Unmount(busid: BusId)
    | Evict(busid: BusId)
    | Add(busid: BusId)
    | BindTo(busid: BusId)
    | Socket(busid: BusId, sock: int)

  function LoadPlan(loaded: bool): seq<Step> {
    if loaded then [] else [Load]
  }

  function FreePlan(devs: Devices, b: BusId, unmount: bool): seq<Step> {
    if !HasDriver(devs, b) then [] else if unmount then [Unmount(b), Evict(b)] else [Evict(b)]
  }

  function TakePlan(b: BusId): seq<Step> {
    [Add(b), BindTo(b)]
  }

  /** What it takes to bind b to usbip-host, whose module is loaded or not. */
  function BindPlan(devs: Devices, b: BusId, loaded: bool, unmount: bool): seq<Step> {
    LoadPlan(loaded) + (FreePlan(devs, b, unmount) + TakePlan(b))
  }

  /** What it takes before b can be given a socket: if it is in use (2), its connection is cut; if it is not
  available (1) either, it is bound to usbip-host. */
  function ReadyPlan(devs: Devices, b: BusId, loaded: bool, unmount: bool): seq<Step> {
    match UsbipStatus(devs, b)
    case 2 => [Socket(b, -1)]
    case 1 => []
    case _ => BindPlan(devs, b, loaded, unmount)
  }

  /** The plan was followed up to the first step that failed, with r, which counts as done. */
  predicate Follows(done: seq<Step>, plan: seq<Step>, r: Outcome) {
    done <= plan && if r == Ok then done == plan else done != []
  }

  lemma FollowsBoth(a: seq<Step>, c: seq<Step>, p: seq<Step>, q: seq<Step>, r: Outcome)
    requires Follows(a, p, Ok) && Follows(c, q, r)
    ensures Follows(a + c, p + q, r)
  {
  }

  lemma FollowsFirst(a: seq<Step>, p: seq<Step>, q: seq<Step>, r: Outcome)
    requires Follows(a, p, r) && r != Ok
    ensures Follows(a, p + q, r)
  {
  }

  class UsbHost {
    var devs: Devices
    const hubs: set<BusId>
    // usbip-host's module is there
    var loaded: bool
    // every write of a release so far
    ghost var writes: seq<Write>
    // every step of an attach that has been tried, and how often something was refused
    ghost var steps: seq<Step>
    ghost var refusals: nat
    // every device whose filesystems have been unmounted for an attach, that has been unbound from its
    // driver, and that has been bound to usbip-host
    ghost var unmounts: seq<BusId>
    ghost var evictions: seq<BusId>
    ghost var bindings: seq<BusId>
    // how often the driver link of a device has been looked at
    ghost var looks: nat

    constructor (devs: Devices, hubs: set<BusId>, loaded: bool)
      ensures this.devs == devs && this.hubs == hubs && this.loaded == loaded
      ensures writes == [] && steps == [] && refusals == 0 && looks == 0
      ensures unmounts == [] && evictions == [] && bindings == []
    {
      this.devs := devs;
      this.hubs := hubs;
      this.loaded := loaded;
      writes, steps, refusals, looks := [], [], 0, 0;
      unmounts, evictions, bindings := [], [], [];
    }

    /** The other callers and the kernel run.  The contract is all that a caller knows of them; back are
    the devices that the kernel gives back to usbip-host meanwhile. */
    method Others() returns (ghost back: set<BusId>)
      modifies `devs
      ensures Rely(old(devs), devs, back)
    {
      var b: BusId := "1-1";
      back := {};
      if * {
        devs := devs - {b};
      } else if b in devs && devs[b].driver == NoDriver {
        if devs[b].matched {
          devs := devs[b := Bound(devs[b])];
          back := {b};
        } else {
          devs := devs[b := devs[b].(driver := Normal("usb"))];
        }
      }
    }

    method WriteUnbind(b: BusId) returns (r: Outcome)
      modifies `devs, `writes
      ensures Unbind(old(devs), devs, b, r)
      ensures writes == old(writes) + [Unbinding(b, r)]
    {
      if IsExported(devs, b) {
        var driver := NoDriver;
        if * { driver := Normal("usb"); }
        devs := devs[b := devs[b].(driver := driver)];
        r := Ok;
      } else {
        r := Fail(ENODEV);
      }
      writes := writes + [Unbinding(b, r)];
    }

    method WriteMatchDel(b: BusId)
      modifies `devs, `writes
      ensures MatchDel(old(devs), devs, b)
      ensures writes == old(writes) + [Unmatching(b)]
    {
      writes := writes + [Unmatching(b)];
      if b in devs {
        if * { devs := devs[b := devs[b].(matched := false)]; }
      }
    }

    method WriteRebind(b: BusId)
      modifies `devs, `writes
      ensures Rebind(old(devs), devs, b)
      ensures writes == old(writes) + [Rebinding(b)]
    {
      writes := writes + [Rebinding(b)];
      if b in devs && devs[b].driver == NoDriver {
        if * { devs := devs[b := devs[b].(driver := Normal("usb"))]; }
      }
    }

    method WriteDriversProbe(b: BusId) returns (r: Outcome)
      modifies `devs, `writes
      ensures DriversProbe(old(devs), devs, b, r)
      ensures writes == old(writes) + [Probing(b, r)]
    {
      r := Ok;
      if b !in devs {
        r := Fail(ENODEV);
      } else if devs[b].driver == NoDriver {
        devs := devs[b := devs[b].(driver := Normal("usb"))];
      } else if * {
        r := Fail(EOTHER);
      }
      writes := writes + [Probing(b, r)];
    }

    /** One look at the driver link. */
    method Look(b: BusId) returns (found: bool)
      modifies `looks
      ensures found == HasDriver(devs, b) && looks == old(looks) + 1
    {
      looks := looks + 1;
      found := HasDriver(devs, b);
    }

    /** polls is how often the driver link is looked at again before the deadline; only when that has passed,
    and b has not been seen with a driver, is one asked for. */
    method SettleDriver(b: BusId, polls: nat) returns (r: Outcome, ghost back: set<BusId>)
      modifies `devs, `writes, `looks
      ensures Rely(old(devs), devs, back)
      ensures r == Ok ==> HasDriver(devs, b)
      ensures b in devs ==> HasDriver(devs, b)
      ensures r == Ok || r == Fail(ENODEV) || r == Fail(EOTHER)
      ensures writes == old(writes) + [Probing(b, r)] || (writes == old(writes) && r == Ok)
      ensures HasDriver(old(devs), b) ==> r == Ok && devs == old(devs) && writes == old(writes)
      ensures writes != old(writes) ==> looks == old(looks) + polls + 1
    {
      var left := polls;
      back := {};
      while true
        invariant Rely(old(devs), devs, back) && writes == old(writes)
        invariant looks == old(looks) + polls - left
        invariant looks == old(looks) ==> devs == old(devs)
        invariant HasDriver(old(devs), b) ==> looks == old(looks)
        decreases left
      {
        var found := Look(b);
        if found {
          return Ok, back;
        }
        ghost var before := devs;
        ghost var more := Others();
        RelyIsTransitive(old(devs), before, devs, back, more);
        back := back + more;
        if left == 0 {
          before := devs;
          r := WriteDriversProbe(b);
          WritesObeyRely(before, devs, b, r);
          RelyIsTransitive(old(devs), before, devs, back, Back(before, devs));
          back := back + Back(before, devs);
          return;
        }
        left := left - 1;
      }
    }

    /** A release is one unbind write and, if that went through, the three steps that follow. */
    ghost predicate IsRelease(b: BusId, r: Outcome, w: seq<Write>) {
      || (w == [Unbinding(b, r)] && r == Fail(ENODEV))
      || (w == [Unbinding(b, Ok), Unmatching(b), Rebinding(b)] && r == Ok)
      || w == [Unbinding(b, Ok), Unmatching(b), Rebinding(b), Probing(b, r)]
    }

    /** The two steps that may fail, the others in between. */
    method BestEffort(b: BusId) returns (ghost back: set<BusId>)
      modifies `devs, `writes
      ensures Rely(old(devs), devs, back)
      ensures writes == old(writes) + [Unmatching(b), Rebinding(b)]
    {
      WriteMatchDel(b);
      WritesObeyRely(old(devs), devs, b, Ok);
      back := Back(old(devs), devs);
      ghost var before := devs;
      ghost var more := Others();
      RelyIsTransitive(old(devs), before, devs, back, more);
      back := back + more;
      before := devs;
      WriteRebind(b);
      WritesObeyRely(before, devs, b, Ok);
      RelyIsTransitive(old(devs), before, devs, back, Back(before, devs));
      back := back + Back(before, devs);
    }

    /** What follows the unbind write: those steps, and the wait for a driver. */
    method AfterUnbind(b: BusId, polls: nat) returns (r: Outcome, ghost back: set<BusId>)
      modifies `devs, `writes, `looks
      ensures Rely(old(devs), devs, back)
      ensures r == Ok ==> HasDriver(devs, b)
      ensures b in devs ==> HasDriver(devs, b)
      ensures r == Ok || r == Fail(ENODEV) || r == Fail(EOTHER)
      ensures var done := old(writes) + [Unmatching(b), Rebinding(b)];
              writes == done + [Probing(b, r)] || (writes == done && r == Ok)
    {
      back := BestEffort(b);
      ghost var before := devs;
      ghost var more := Others();
      RelyIsTransitive(old(devs), before, devs, back, more);
      back := back + more;
      before := devs;
      r, more := SettleDriver(b, polls);
      RelyIsTransitive(old(devs), before, devs, back, more);
      back := back + more;
    }

    lemma Appended(before: seq<Write>, w: seq<Write>)
      ensures (before + w)[..|before|] == before && (before + w)[|before|..] == w
      ensures w != [] ==> (before + w)[|before|] == w[0]
    {
    }

    lemma AppendedRelease(before: seq<Write>, b: BusId, r: Outcome)
      ensures var steps := [Unbinding(b, Ok), Unmatching(b), Rebinding(b)];
              var done := before + [Unbinding(b, Ok)] + [Unmatching(b), Rebinding(b)];
              && done[..|before|] == before && done[|before|..] == steps
              && (done + [Probing(b, r)])[..|before|] == before
              && (done + [Probing(b, r)])[|before|..] == steps + [Probing(b, r)]
    {
    }

    /** Releases b: in the end it is not exported, whoever released it, unless the kernel gave it back
    while it was still on the match list; and after the caller's own unbind it has a driver unless it has
    been unplugged meanwhile. */
    method ExporterDetach(b: BusId, polls: nat) returns (r: Outcome, ghost back: set<BusId>)
      modifies `devs, `writes, `looks
      ensures Rely(old(devs), devs, back)
      ensures b !in back ==> !IsExported(devs, b)
      ensures r == Ok ==> HasDriver(devs, b)
      ensures r == Ok || r == Fail(ENODEV) || r == Fail(EOTHER)
      ensures |writes| > |old(writes)| && writes[..|old(writes)|] == old(writes)
      ensures IsRelease(b, r, writes[|old(writes)|..])
      ensures writes[|old(writes)|] == Unbinding(b, Ok) ==> b in devs ==> HasDriver(devs, b)
    {
      r := WriteUnbind(b);
      WritesObeyRely(old(devs), devs, b, r);
      back := Back(old(devs), devs);
      Appended(old(writes), [Unbinding(b, r)]);
      if r != Ok {
        return;
      }
      ghost var before := devs;
      ghost var more := Others();
      RelyIsTransitive(old(devs), before, devs, back, more);
      back := back + more;
      before := devs;
      r, more := AfterUnbind(b, polls);
      RelyIsTransitive(old(devs), before, devs, back, more);
      back := back + more;
      AppendedRelease(old(writes), b, r);
    }

    /** Which of the devices are bound, as their status is read one after another. */
    method Scan(selected: seq<BusId>) returns (bound: seq<BusId>, ghost back: set<BusId>)
      modifies `devs
      ensures Rely(old(devs), devs, back)
      ensures forall b :: b in bound ==> b in selected && (IsExported(old(devs), b) || b in back)
      ensures forall b :: b in selected ==> b in bound || b in back || !IsExported(devs, b)
    {
      bound, back := [], {};
      for i := 0 to |selected|
        invariant Rely(old(devs), devs, back)
        invariant forall b :: b in bound ==> b in selected && (IsExported(old(devs), b) || b in back)
        invariant forall j :: 0 <= j < i ==>
                    selected[j] in bound || selected[j] in back || !IsExported(devs, selected[j])
      {
        ghost var before := devs;
        ghost var more := Others();
        RelyIsTransitive(old(devs), before, devs, back, more);
        back := back + more;
        if UsbipStatus(devs, selected[i]) != 0 {
          bound := bound + [selected[i]];
        }
      }
    }

    /** An answer that "unbind" does not put up with. */
    predicate IsFatal(w: Write) {
      w.Probing? && w.r != Ok && w.r != Fail(ENODEV)
    }

    lemma NewWrites(before: seq<Write>, after: seq<Write>, b: BusId, r: Outcome)
      requires |after| > |before| && after[..|before|] == before && IsRelease(b, r, after[|before|..])
      ensures forall k :: 0 <= k < |before| ==> after[k] == before[k]
      ensures forall k :: |before| <= k < |after| ==> after[k].busid == b
      ensures forall k :: |before| <= k < |after| - 1 ==> !IsFatal(after[k])
      ensures IsFatal(after[|after| - 1]) <==> r != Ok && r != Fail(ENODEV)
    {
      forall k | |before| <= k < |after|
        ensures after[k].busid == b && (k < |after| - 1 ==> !IsFatal(after[k]))
      {
        assert after[k] == after[|before|..][k - |before|];
      }
      assert after[|after| - 1] == after[|before|..][|after| - 1 - |before|];
      assert forall k :: 0 <= k < |before| ==> after[..|before|][k] == after[k];
    }

    /** From the n-th on, only writes for these devices, and only answers that "unbind" puts up with. */
    ghost predicate AreTolerated(n: nat, w: seq<Write>, selected: seq<BusId>) {
      |w| >= n && forall k :: n <= k < |w| ==> w[k].busid in selected && !IsFatal(w[k])
    }

    lemma MoreTolerated(n: nat, before: seq<Write>, after: seq<Write>, b: BusId, r: Outcome, selected: seq<BusId>)
      requires AreTolerated(n, before, selected) && b in selected
      requires |after| > |before| && after[..|before|] == before && IsRelease(b, r, after[|before|..])
      ensures r == Ok || r == Fail(ENODEV) ==> AreTolerated(n, after, selected)
      ensures r != Ok && r != Fail(ENODEV) ==>
                && IsFatal(after[|after| - 1]) && AreTolerated(n, after[..|after| - 1], selected)
                && after[|after| - 1].busid in selected
    {
      NewWrites(before, after, b, r);
    }

    /** The "unbind" command on the devices its pattern selected.  If it reports success, or that
    nothing was bound, none of them is exported but what the kernel gave back; a lost race is never its
    result. */
    method UnbindMatching(selected: seq<BusId>, polls: nat) returns (r: Outcome, ghost back: set<BusId>)
      modifies `devs, `writes, `looks
      ensures Rely(old(devs), devs, back)
      ensures r == Ok || r == Fail(NOTHING_BOUND) ==>
                forall b :: b in selected && b !in back ==> !IsExported(devs, b)
      ensures (forall b :: b in selected ==> !IsExported(old(devs), b) && b !in back) ==> r == Fail(NOTHING_BOUND)
      ensures r == Fail(NOTHING_BOUND) ==> writes == old(writes)
      ensures r == Ok ==> forall k :: |old(writes)| <= k < |writes| ==> !IsFatal(writes[k])
      ensures r != Ok && r != Fail(NOTHING_BOUND) ==>
                && |writes| > |old(writes)| && IsFatal(writes[|writes| - 1])
                && forall k :: |old(writes)| <= k < |writes| - 1 ==> !IsFatal(writes[k])
      ensures r != Fail(ENODEV)
      ensures |writes| >= |old(writes)|
      ensures forall k :: |old(writes)| <= k < |writes| ==> writes[k].busid in selected
    {
      var bound: seq<BusId>;
      bound, back := Scan(selected);
      if bound == [] {
        return Fail(NOTHING_BOUND), back;
      }
      ghost var one := bound[0];
      for i := 0 to |bound|
        invariant Rely(old(devs), devs, back) && AreTolerated(|old(writes)|, writes, selected)
        invariant one in selected && (IsExported(old(devs), one) || one in back)
        invariant forall j :: 0 <= j < i ==> bound[j] in back || !IsExported(devs, bound[j])
        invariant forall b :: b in selected ==> b in bound || b in back || !IsExported(devs, b)
      {
        ghost var before, log := devs, writes;
        ghost var more;
        r, more := ExporterDetach(bound[i], polls);
        RelyIsTransitive(old(devs), before, devs, back, more);
        back := back + more;
        MoreTolerated(|old(writes)|, log, writes, bound[i], r, selected);
        if r != Ok && r != Fail(ENODEV) {
          return;
        }
      }
      r := Ok;
    }

    // ----- attaching

    /** Whether the kernel, or a command, refuses for reasons of its own. */
    method IsRefused() returns (refused: bool)
      modifies `refusals
      ensures refusals == old(refusals) + if refused then 1 else 0
    {
      refused := *;
      if refused { refusals := refusals + 1; }
    }

    /** modprobe usbip-host */
    method Modprobe() returns (r: Outcome)
      modifies `loaded, `refusals, `steps
      ensures steps == old(steps) + [Load]
      ensures if r == Ok then loaded && refusals == old(refusals) else loaded == old(loaded) && refusals > old(refusals)
    {
      var refused := IsRefused();
      r := if refused then Fail(EOTHER) else Ok;
      loaded := loaded || !refused;
      steps := steps + [Load];
    }

    method DoUnmounts(b: BusId) returns (r: Outcome)
      modifies `refusals, `steps, `unmounts
      ensures unmounts == if r == Ok then old(unmounts) + [b] else old(unmounts)
      ensures steps == old(steps) + [Unmount(b)]
      ensures if r == Ok then refusals == old(refusals) else refusals > old(refusals)
    {
      var refused := IsRefused();
      r := if refused then Fail(EOTHER) else Ok;
      steps := steps + [Unmount(b)];
      if r == Ok { unmounts := unmounts + [b]; }
    }

    method WriteDriverUnbind(b: BusId) returns (r: Outcome)
      modifies `devs, `refusals, `steps, `evictions
      ensures evictions == if r == Ok then old(evictions) + [b] else old(evictions)
      ensures steps == old(steps) + [Evict(b)]
      ensures refusals == old(refusals) ==> DriverUnbind(old(devs), devs, b, r)
      ensures refusals != old(refusals) ==> refusals > old(refusals) && r == Fail(EOTHER) && devs == old(devs)
    {
      r := Ok;
      var refused := IsRefused();
      if refused {
        r := Fail(EOTHER);
      } else if !HasDriver(devs, b) {
        r := Fail(ENODEV);
      } else {
        devs := devs[b := devs[b].(driver := NoDriver)];
      }
      steps := steps + [Evict(b)];
      if r == Ok { evictions := evictions + [b]; }
    }

    method WriteMatchAdd(b: BusId) returns (r: Outcome)
      modifies `devs, `refusals, `steps
      ensures steps == old(steps) + [Add(b)]
      ensures refusals == old(refusals) ==> MatchAdd(old(devs), devs, b, r)
      ensures refusals != old(refusals) ==> refusals > old(refusals) && r == Fail(EOTHER) && devs == old(devs)
    {
      r := Ok;
      var refused := IsRefused();
      if refused {
        r := Fail(EOTHER);
      } else if b in devs {
        devs := devs[b := devs[b].(matched := true)];
      }
      steps := steps + [Add(b)];
    }

    method WriteBind(b: BusId) returns (r: Outcome)
      modifies `devs, `refusals, `steps, `bindings
      ensures bindings == if r == Ok then old(bindings) + [b] else old(bindings)
      ensures steps == old(steps) + [BindTo(b)]
      ensures refusals == old(refusals) ==> Bind(old(devs), devs, b, r)
      ensures refusals != old(refusals) ==> refusals > old(refusals) && r == Fail(EOTHER) && devs == old(devs)
    {
      r := Ok;
      var refused := IsRefused();
      if refused {
        r := Fail(EOTHER);
      } else if b !in devs || devs[b].driver != NoDriver || !devs[b].matched {
        r := Fail(ENODEV);
      } else {
        devs := devs[b := Bound(devs[b])];
      }
      steps := steps + [BindTo(b)];
      if r == Ok { bindings := bindings + [b]; }
    }

    method WriteSockfd(b: BusId, sock: int) returns (r: Outcome)
      modifies `devs, `refusals, `steps
      ensures steps == old(steps) + [Socket(b, sock)]
      ensures refusals == old(refusals) ==> SetSock(old(devs), devs, b, sock, r)
      ensures refusals != old(refusals) ==> refusals > old(refusals) && r == Fail(EOTHER) && devs == old(devs)
    {
      r := Ok;
      var refused := IsRefused();
      if refused {
        r := Fail(EOTHER);
      } else if !IsExported(devs, b) || devs[b].status != (if sock == -1 then SDEV_ST_USED else SDEV_ST_AVAILABLE) {
        r := Fail(EINVAL);
      } else {
        devs := devs[b := devs[b].(status := if sock == -1 then SDEV_ST_AVAILABLE else SDEV_ST_USED, sock := sock)];
      }
      steps := steps + [Socket(b, sock)];
    }

    /** Takes b away from its driver, if it has one. */
    method FreeDevice(b: BusId, unmount: bool) returns (r: Outcome, ghost done: seq<Step>)
      modifies `devs, `refusals, `steps, `unmounts, `evictions
      ensures steps == old(steps) + done && Follows(done, FreePlan(old(devs), b, unmount), r)
      ensures if r == Ok then refusals == old(refusals) else refusals > old(refusals) && devs == old(devs)
      ensures r == Ok ==> if HasDriver(old(devs), b) then devs == old(devs)[b := old(devs)[b].(driver := NoDriver)]
                          else devs == old(devs)
      ensures evictions == old(evictions) + if r == Ok && HasDriver(old(devs), b) then [b] else []
      ensures unmounts == old(unmounts) || (unmount && HasDriver(old(devs), b) && unmounts == old(unmounts) + [b])
      ensures unmount && HasDriver(old(devs), b) && devs != old(devs) ==> unmounts == old(unmounts) + [b]
    {
      r, done := Ok, [];
      if HasDriver(devs, b) {
        if unmount {
          r := DoUnmounts(b);
          done := [Unmount(b)];
          if r != Ok { return; }
        }
        r := WriteDriverUnbind(b);
        done := done + [Evict(b)];
      }
    }

    method AddAndBind(b: BusId) returns (r: Outcome, ghost done: seq<Step>)
      requires !HasDriver(devs, b)
      modifies `devs, `refusals, `steps, `bindings
      ensures steps == old(steps) + done && Follows(done, TakePlan(b), r)
      ensures refusals >= old(refusals) && (r == Ok ==> refusals == old(refusals))
      ensures r == Ok ==> IsExported(devs, b) && devs[b].matched && devs[b].status == SDEV_ST_AVAILABLE
      ensures r != Ok ==> refusals > old(refusals) || (b !in old(devs) && r == Fail(ENODEV))
      ensures r != Ok ==> !HasDriver(devs, b)
      ensures b in old(devs) ==> OnlyChanges(old(devs), devs, b)
      ensures b !in old(devs) ==> r != Ok && devs == old(devs)
      ensures bindings == if r == Ok then old(bindings) + [b] else old(bindings)
    {
      r := WriteMatchAdd(b);
      done := [Add(b)];
      if r != Ok { return; }
      r := WriteBind(b);
      done := done + [BindTo(b)];
    }

    method LoadIfMissing() returns (r: Outcome, ghost done: seq<Step>)
      modifies `loaded, `refusals, `steps
      ensures steps == old(steps) + done && Follows(done, LoadPlan(old(loaded)), r)
      ensures if r == Ok then refusals == old(refusals) else refusals > old(refusals)
      ensures if r == Ok then loaded else loaded == old(loaded)
    {
      r, done := Ok, [];
      if !loaded {
        r := Modprobe();
        done := [Load];
      }
    }

    method FreeAndTake(b: BusId, unmount: bool) returns (r: Outcome, ghost done: seq<Step>)
      modifies `devs, `refusals, `steps, `unmounts, `evictions, `bindings
      ensures steps == old(steps) + done && Follows(done, FreePlan(old(devs), b, unmount) + TakePlan(b), r)
      ensures refusals >= old(refusals) && (r == Ok ==> refusals == old(refusals))
      ensures r == Ok ==> IsExported(devs, b) && devs[b].matched && devs[b].status == SDEV_ST_AVAILABLE
      ensures r != Ok ==> refusals > old(refusals) || (b !in old(devs) && r == Fail(ENODEV))
      ensures r != Ok ==> devs == old(devs) || !IsExported(devs, b)
      ensures b in old(devs) ==> OnlyChanges(old(devs), devs, b)
      ensures b !in old(devs) ==> r != Ok && devs == old(devs)
      ensures Load !in done
      ensures r != Ok && b in old(devs) ==>
                devs[b].driver == if evictions != old(evictions) then NoDriver else old(devs)[b].driver
      ensures evictions == old(evictions) || (HasDriver(old(devs), b) && evictions == old(evictions) + [b])
      ensures bindings == if r == Ok then old(bindings) + [b] else old(bindings)
      ensures unmounts == old(unmounts) || (unmount && HasDriver(old(devs), b) && unmounts == old(unmounts) + [b])
      ensures unmount && HasDriver(old(devs), b) && devs != old(devs) ==> unmounts == old(unmounts) + [b]
    {
      ghost var free := FreePlan(devs, b, unmount);
      ghost var more;
      r, done := FreeDevice(b, unmount);
      if r != Ok {
        FollowsFirst(done, free, TakePlan(b), r);
        return;
      }
      r, more := AddAndBind(b);
      FollowsBoth(done, more, free, TakePlan(b), r);
      done := done + more;
    }

    /** Takes b away from its driver and binds it to usbip-host, by just these steps.  A device that is there
    can only fail because something was refused; and it does not lose its driver while it may be mounted.  A
    failure leaves b without a driver exactly if it had none or its driver's unbind went through: a refusal
    after that is not made up for. */
    method BindToUsbip(b: BusId, unmount: bool) returns (r: Outcome, ghost done: seq<Step>)
      modifies `devs, `loaded, `refusals, `steps, `unmounts, `evictions, `bindings
      ensures steps == old(steps) + done && Follows(done, BindPlan(old(devs), b, old(loaded), unmount), r)
      ensures refusals >= old(refusals) && (r == Ok ==> refusals == old(refusals))
      ensures r == Ok ==> IsExported(devs, b) && devs[b].matched && devs[b].status == SDEV_ST_AVAILABLE
      ensures r != Ok ==> refusals > old(refusals) || (b !in old(devs) && r == Fail(ENODEV))
      ensures r != Ok ==> devs == old(devs) || !IsExported(devs, b)
      ensures b in old(devs) ==> OnlyChanges(old(devs), devs, b)
      ensures b !in old(devs) ==> r != Ok && devs == old(devs)
      ensures (r == Ok ==> loaded) && (old(loaded) ==> loaded && Load !in done)
      ensures r != Ok && b in old(devs) ==>
                devs[b].driver == if evictions != old(evictions) then NoDriver else old(devs)[b].driver
      ensures evictions == old(evictions) || (HasDriver(old(devs), b) && evictions == old(evictions) + [b])
      ensures bindings == if r == Ok then old(bindings) + [b] else old(bindings)
      ensures unmounts == old(unmounts) || (unmount && HasDriver(old(devs), b) && unmounts == old(unmounts) + [b])
      ensures unmount && HasDriver(old(devs), b) && devs != old(devs) ==> unmounts == old(unmounts) + [b]
    {
      ghost var load, rest := LoadPlan(loaded), FreePlan(devs, b, unmount) + TakePlan(b);
      ghost var more;
      r, done := LoadIfMissing();
      if r != Ok {
        FollowsFirst(done, load, rest, r);
        return;
      }
      r, more := FreeAndTake(b, unmount);
      FollowsBoth(done, more, load, rest, r);
      done := done + more;
    }

    /** Makes b available: by cutting its connection if it is in use, by binding it to usbip-host if it is not
    there. */
    method MakeReady(b: BusId, unmount: bool) returns (r: Outcome, ghost done: seq<Step>)
      modifies `devs, `loaded, `refusals, `steps, `unmounts, `evictions, `bindings
      ensures steps == old(steps) + done && Follows(done, ReadyPlan(old(devs), b, old(loaded), unmount), r)
      ensures refusals >= old(refusals) && (r == Ok ==> refusals == old(refusals))
      ensures r == Ok ==> UsbipStatus(devs, b) == SDEV_ST_AVAILABLE
      ensures r == Ok && !IsExported(old(devs), b) ==> devs[b].matched && loaded
      ensures r != Ok ==> refusals > old(refusals) || b !in old(devs)
      ensures r != Ok ==> devs == old(devs) || !IsExported(devs, b)
      ensures b in old(devs) ==> OnlyChanges(old(devs), devs, b)
      ensures b !in old(devs) ==> r != Ok && devs == old(devs)
      ensures IsExported(old(devs), b) && old(devs)[b].status != SDEV_ST_ERROR ==>
                && evictions == old(evictions) && bindings == old(bindings) && unmounts == old(unmounts)
                && loaded == old(loaded)
      ensures old(loaded) ==> loaded && Load !in done
      ensures r != Ok && b in old(devs) ==>
                devs[b].driver == if evictions != old(evictions) then NoDriver else old(devs)[b].driver
      ensures evictions == old(evictions) || evictions == old(evictions) + [b]
      ensures bindings == old(bindings) || (r == Ok && bindings == old(bindings) + [b])
      ensures r == Ok && bindings == old(bindings) ==> IsExported(old(devs), b) && evictions == old(evictions)
      ensures unmounts == old(unmounts) || (unmount && HasDriver(old(devs), b) && unmounts == old(unmounts) + [b])
      ensures unmount && HasDriver(old(devs), b) && b in devs && devs[b].driver != old(devs)[b].driver ==>
                unmounts == old(unmounts) + [b]
    {
      r, done := Ok, [];
      var status := UsbipStatus(devs, b);
      if status == SDEV_ST_USED {
        r := WriteSockfd(b, -1);
        done := [Socket(b, -1)];
      } else if status != SDEV_ST_AVAILABLE {
        r, done := BindToUsbip(b, unmount);
      }
    }

    /** Hands sockfd to usbip-host for b, taking b away from its driver first where needed, by just these
    steps.  A device that is there and no hub can only fail because something was refused; only success leaves
    it in use with the new socket; a failure leaves it as it was or not in use; no other device is touched.
    After a failure it is on usbip-host, with nobody to release it, exactly if it was bound to it or had been
    before; it has no driver exactly if that was unbound, or there was none, and it was not bound; and
    otherwise it has the driver it had. */
    method ExporterAttach(sockfd: nat, b: BusId, unmount: bool) returns (r: Outcome, ghost done: seq<Step>)
      modifies `devs, `loaded, `refusals, `steps, `unmounts, `evictions, `bindings
      ensures steps == old(steps) + done
      ensures b in hubs ==> done == []
      ensures b !in hubs ==> Follows(done, ReadyPlan(old(devs), b, old(loaded), unmount) + [Socket(b, sockfd)], r)
      ensures r == Ok ==> UsbipStatus(devs, b) == SDEV_ST_USED && devs[b].sock == sockfd && refusals == old(refusals)
      ensures IsExported(old(devs), b) && old(devs)[b].status != SDEV_ST_ERROR ==>
                && evictions == old(evictions) && bindings == old(bindings) && unmounts == old(unmounts)
                && loaded == old(loaded)
      ensures r == Ok && !IsExported(old(devs), b) ==> loaded
      ensures old(loaded) ==> loaded && Load !in done
      ensures unmounts == old(unmounts) || (unmount && HasDriver(old(devs), b) && unmounts == old(unmounts) + [b])
      ensures r == Ok && !IsExported(old(devs), b) ==> devs[b].matched
      ensures b in hubs ==> r == Fail(IS_HUB) && devs == old(devs)
      ensures b !in hubs && r != Ok ==> refusals > old(refusals) || b !in old(devs)
      ensures r != Ok ==> devs == old(devs) || UsbipStatus(devs, b) != SDEV_ST_USED
      ensures b in old(devs) ==> OnlyChanges(old(devs), devs, b)
      ensures b !in old(devs) ==> r != Ok && devs == old(devs)
      ensures r != Ok && b in old(devs) ==>
                devs[b].driver == if bindings != old(bindings) then UsbipHost
                                  else if evictions != old(evictions) then NoDriver else old(devs)[b].driver
      ensures evictions == old(evictions) || evictions == old(evictions) + [b]
      ensures bindings == old(bindings) || bindings == old(bindings) + [b]
      ensures unmount && HasDriver(old(devs), b) && b in devs && devs[b].driver != old(devs)[b].driver ==>
                unmounts == old(unmounts) + [b]
    {
      done := [];
      if b in hubs {
        return Fail(IS_HUB), done;
      }
      ghost var first := ReadyPlan(devs, b, loaded, unmount);
      r, done := MakeReady(b, unmount);
      if r != Ok {
        FollowsFirst(done, first, [Socket(b, sockfd)], r);
        return;
      }
      r := WriteSockfd(b, sockfd);
      FollowsBoth(done, [Socket(b, sockfd)], first, [Socket(b, sockfd)], r);
      done := done + [Socket(b, sockfd)];
    }
  }
}
