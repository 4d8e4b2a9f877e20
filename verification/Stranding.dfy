/** What each process holds, and exactly when a failure strands a device. */
module Stranding {
  import opened Text
  import opened Linger
  import opened Conservation
  import opened Exits
  import opened HotPlugging
  import Handoff
  import Uevent

  // ----- the first loop

  /** x is a device of the first loop, exported to be held. */
  ghost predicate IsTaken(o: Options, devs: seq<First>, x: Sock) {
    !o.noLinger && exists i :: 0 <= i < |devs| && !IsRefused(devs[i]) && x == Sock(devs[i].exported.file, devs[i].busid)
  }

  lemma {:induction false} TakenOneMore(o: Options, devs: seq<First>, d: First, x: Sock)
    ensures IsTaken(o, devs + [d], x) <==>
            IsTaken(o, devs, x) || (!o.noLinger && !IsRefused(d) && x == Sock(d.exported.file, d.busid))
  {
    var all := devs + [d];
    assert all[|devs|] == d && forall i :: 0 <= i < |devs| ==> all[i] == devs[i];
  }

  lemma {:induction false} FirstLoopHoldsExactly(o: Options, devs: seq<First>, x: Sock)
    requires !FirstLoopFails(devs)
    ensures x in FirstLoop(o, devs).world.socks <==> IsTaken(o, devs, x)
  {
    if devs != [] {
      var front, d := devs[..|devs| - 1], devs[|devs| - 1];
      assert devs == front + [d];
      FailsLater(front, d);
      FirstLoopHoldsExactly(o, front, x);
      FirstLoopOk(o, front);
      TakenOneMore(o, front, d, x);
    }
  }

  /** However the first loop ends, something is held as soon as its first device is. */
  lemma {:induction false} FirstLoopHoldsNothing(o: Options, devs: seq<First>)
    ensures FirstLoop(o, devs).world.socks == [] <==> o.noLinger || devs == [] || IsRefused(devs[0])
  {
    if |devs| == 1 {
      assert devs[..0] == [];
    } else if devs != [] {
      FirstLoopHoldsNothing(o, devs[..|devs| - 1]);
      FirstLoopOk(o, devs[..|devs| - 1]);
      assert devs[..|devs| - 1][0] == devs[0];
    }
  }

  // ----- vhubLoop

  predicate HangsUpIn(r: Round, x: Sock) {
    r.poll.Ready? && HungUp(r.poll.state(x.file))
  }

  /** x is a device that the round hot-plugs. */
  predicate IsPlugged(o: Options, f: Files, r: Round, x: Sock) {
    && !o.noLinger && r.poll.Ready? && Readable(r.poll.state(f.uevents)) && r.recv.Received?
    && !ExportFails(r.readable, r.exported)
    && var e := Uevent.Collect(Split(r.recv.message, '\0'));
       IsHotPlug(e) && o.selects(e) && x == Sock(r.exported.file, Base(Lookup(e, "DEVPATH")))
  }

  /** x was taken, in the first loop or by a hot-plug, and has not hung up since. */
  ghost predicate IsHeld(o: Options, f: Files, devs: seq<First>, rounds: seq<Round>, x: Sock) {
    || (IsTaken(o, devs, x) && !HangsUp(rounds, x.file))
    || exists j :: 0 <= j < |rounds| && IsPlugged(o, f, rounds[j], x) && !HangsUp(rounds[j + 1..], x.file)
  }

  lemma {:induction false} HeldOneMore(o: Options, f: Files, devs: seq<First>, rounds: seq<Round>, r: Round, x: Sock)
    ensures IsHeld(o, f, devs, rounds + [r], x) <==>
            (IsHeld(o, f, devs, rounds, x) && !HangsUpIn(r, x)) || IsPlugged(o, f, r, x)
  {
    var all, n := rounds + [r], |rounds|;
    HangsUpLater(rounds, r, x.file);
    forall j | 0 <= j < n
      ensures all[j] == rounds[j]
      ensures HangsUp(all[j + 1..], x.file) <==> HangsUp(rounds[j + 1..], x.file) || HangsUpIn(r, x)
    {
      assert all[j + 1..] == rounds[j + 1..] + [r];
      HangsUpLater(rounds[j + 1..], r, x.file);
    }
    assert all[n] == r && all[n + 1..] == [];
  }

  lemma TurnHoldsExactly(o: Options, f: Files, w: World, r: Round, x: Sock)
    requires !EndsVhub(o, f, r)
    ensures x in VhubTurn(o, f, w, r).world.socks <==> (x in w.socks && !HangsUpIn(r, x)) || IsPlugged(o, f, r, x)
  {
    if r.poll.Ready? {
      AliveExactly(w.socks, r.poll.state, x);
    }
  }

  /** As long as vhubLoop runs it holds exactly what was taken and has not hung up. */
  lemma {:induction false} VhubHoldsExactly(o: Options, f: Files, devs: seq<First>, rounds: seq<Round>, x: Sock)
    requires !FirstLoopFails(devs) && NoneEndsVhub(o, f, rounds)
    ensures x in Vhub(o, f, FirstLoop(o, devs).world, rounds).world.socks <==> IsHeld(o, f, devs, rounds, x)
  {
    var w := FirstLoop(o, devs).world;
    if rounds == [] {
      FirstLoopHoldsExactly(o, devs, x);
    } else {
      var front, r := rounds[..|rounds| - 1], rounds[|rounds| - 1];
      assert rounds == front + [r];
      OneMoreVhub(o, f, front, r);
      VhubHoldsExactly(o, f, devs, front, x);
      VhubEndsExactlyWhen(o, f, w, front);
      TurnHoldsExactly(o, f, Vhub(o, f, w, front).world, r, x);
      HeldOneMore(o, f, devs, front, r, x);
    }
  }

  /** The first round that ends the loop; their number if none does. */
  function FirstEnd(o: Options, f: Files, rounds: seq<Round>): (k: nat)
    ensures k <= |rounds|
  {
    if rounds == [] || EndsVhub(o, f, rounds[0]) then 0 else 1 + FirstEnd(o, f, rounds[1..])
  }

  lemma {:induction false} FirstEndIsFirst(o: Options, f: Files, rounds: seq<Round>)
    ensures var k := FirstEnd(o, f, rounds);
            NoneEndsVhub(o, f, rounds[..k]) && (k < |rounds| ==> EndsVhub(o, f, rounds[k]))
    ensures FirstEnd(o, f, rounds) == |rounds| <==> NoneEndsVhub(o, f, rounds)
  {
    if rounds != [] && !EndsVhub(o, f, rounds[0]) {
      var k := FirstEnd(o, f, rounds);
      FirstEndIsFirst(o, f, rounds[1..]);
      assert forall j :: 1 <= j < k ==> rounds[..k][j] == rounds[1..][..k - 1][j - 1];
      assert k == |rounds| ==> rounds[..k] == rounds;
    }
  }

  /** In the round that ends the loop, the sockets that hung up are still released, unless poll failed or
  the channel is dead. */
  predicate ReleasedAtEnd(f: Files, r: Round, x: Sock) {
    HangsUpIn(r, x) && !EndsByChannel(f, r)
  }

  /** x is left when the loop is over. */
  ghost predicate IsLeft(o: Options, f: Files, s: Script, x: Sock) {
    var k := FirstEnd(o, f, s.rounds);
    IsHeld(o, f, s.devs, s.rounds[..k], x) && (k < |s.rounds| ==> !ReleasedAtEnd(f, s.rounds[k], x))
  }

  lemma LastTurnLeaves(o: Options, f: Files, w: World, r: Round, x: Sock)
    requires EndsVhub(o, f, r)
    ensures x in VhubTurn(o, f, w, r).world.socks <==> x in w.socks && !ReleasedAtEnd(f, r, x)
  {
    if r.poll.Ready? {
      AliveExactly(w.socks, r.poll.state, x);
    }
  }

  lemma {:induction false} VhubUpToEnd(o: Options, f: Files, w: World, rounds: seq<Round>)
    ensures var k := FirstEnd(o, f, rounds);
            Vhub(o, f, w, rounds) ==
            if k == |rounds| then Vhub(o, f, w, rounds[..k])
            else VhubTurn(o, f, Vhub(o, f, w, rounds[..k]).world, rounds[k])
  {
    var k := FirstEnd(o, f, rounds);
    FirstEndIsFirst(o, f, rounds);
    VhubEndsExactlyWhen(o, f, w, rounds[..k]);
    if k == |rounds| {
      assert rounds[..k] == rounds;
    } else {
      var t := Vhub(o, f, w, rounds[..k]);
      assert rounds[..k + 1][..k] == rounds[..k];
      VhubTurnEnds(o, f, t.world, rounds[k]);
      VhubExitIsFinal(o, f, w, rounds, k + 1);
    }
  }

  lemma VhubLeavesExactly(o: Options, f: Files, s: Script, x: Sock)
    requires !FirstLoopFails(s.devs)
    ensures x in Vhub(o, f, FirstLoop(o, s.devs).world, s.rounds).world.socks <==> IsLeft(o, f, s, x)
  {
    var k, w := FirstEnd(o, f, s.rounds), FirstLoop(o, s.devs).world;
    FirstEndIsFirst(o, f, s.rounds);
    VhubUpToEnd(o, f, w, s.rounds);
    VhubHoldsExactly(o, f, s.devs, s.rounds[..k], x);
    if k < |s.rounds| {
      LastTurnLeaves(o, f, Vhub(o, f, w, s.rounds[..k]).world, s.rounds[k], x);
    }
  }

  // ----- the linger child

  /** The child dies of its poll while it holds x. */
  ghost predicate ChildDiesWith(rounds: seq<Round>, x: Sock) {
    exists m ::
      0 <= m < |rounds| && rounds[m].poll.PollFailed? && NoPollFails(rounds[..m]) && !HangsUp(rounds[..m], x.file)
  }

  lemma {:induction false} FirstFailure(rounds: seq<Round>) returns (m: nat)
    requires !NoPollFails(rounds)
    ensures m < |rounds| && rounds[m].poll.PollFailed? && NoPollFails(rounds[..m])
  {
    if rounds[0].poll.PollFailed? {
      m := 0;
    } else {
      assert rounds == [rounds[0]] + rounds[1..];
      m := FirstFailure(rounds[1..]);
      assert rounds[..m + 1] == [rounds[0]] + rounds[1..][..m];
      m := m + 1;
    }
  }

  lemma {:induction false} OneFirstFailure(rounds: seq<Round>, m: nat, x: Sock)
    requires m < |rounds| && rounds[m].poll.PollFailed? && NoPollFails(rounds[..m])
    ensures ChildDiesWith(rounds, x) <==> !HangsUp(rounds[..m], x.file)
  {
    assert forall k :: 0 <= k < m ==> rounds[..m][k] == rounds[k];
    forall k | m < k < |rounds| ensures !NoPollFails(rounds[..k]) {
      assert rounds[..k][m] == rounds[m];
    }
  }

  lemma {:induction false} ChildDiesExactlyWhen(w: World, rounds: seq<Round>)
    ensures Child(w, rounds).exit == Fatal <==> exists x :: x in w.socks && ChildDiesWith(rounds, x)
    ensures Child(w, rounds).exit == Fatal ==> Child(w, rounds).world.socks != []
  {
    if NoPollFails(rounds) {
      ChildHoldsWhatHasNotHungUp(w, rounds, Sock(0, ""));
    } else {
      var m := FirstFailure(rounds);
      var socks := Child(w, rounds[..m]).world.socks;
      forall x ensures x in socks <==> x in w.socks && ChildDiesWith(rounds, x) {
        ChildHoldsWhatHasNotHungUp(w, rounds[..m], x);
        OneFirstFailure(rounds, m, x);
      }
      ChildHoldsWhatHasNotHungUp(w, rounds[..m], Sock(0, ""));
      if socks == [] {
        ChildExitIsFinal(w, rounds, m);
      } else {
        assert socks[0] in socks;
        assert rounds[..m + 1][..m] == rounds[..m];
        ChildExitIsFinal(w, rounds, m + 1);
      }
    }
  }

  // ----- forward sessions

  /** All exports of the first loop go well and, with --vhub, what ends the loop is the dead channel. */
  ghost predicate HandsOver(o: Options, f: Files, s: Script) {
    !FirstLoopFails(s.devs) && (o.vhub ==> s.ueventSocket && VhubEndsByChannel(o, f, s.rounds))
  }

  /** x is among what there is to hand over. */
  ghost predicate IsHandedOver(o: Options, f: Files, s: Script, x: Sock) {
    if o.vhub then IsLeft(o, f, s, x) else IsTaken(o, s.devs, x)
  }

  /** Some process dies while it holds a device: the parent of a failed export in the first loop, for want
  of a uevent socket, of a failed poll, receive or export in vhubLoop, or because it cannot start the
  child; or the child of a failed poll. */
  ghost predicate DiesHolding(o: Options, f: Files, s: Script) {
    if FirstLoopFails(s.devs) then !o.noLinger && !IsRefused(s.devs[0])
    else if o.vhub && !s.ueventSocket then !o.noLinger && s.devs != []
    else if HandsOver(o, f, s) then
      exists x :: IsHandedOver(o, f, s, x) && (s.spawned ==> ChildDiesWith(s.childRounds, x))
    else !NoneEndsVhub(o, f, s.rounds) && exists x :: IsLeft(o, f, s, x)
  }

  /** Who holds what a forward session has left. */
  function HeldNow(fw: Forward): seq<Sock> {
    if fw.place == Nowhere then [] else fw.world.socks
  }

  lemma {:induction false} IsNonEmpty(socks: seq<Sock>)
    ensures socks != [] <==> exists x :: x in socks
  {
    if socks != [] {
      assert socks[0] in socks;
    }
  }

  lemma HandOverStrands(w: World, s: Script)
    ensures var fw := HandOver(w, s);
            (fw.place == Nowhere && fw.world.socks != []) <==>
            exists x :: x in w.socks && (s.spawned ==> ChildDiesWith(s.childRounds, x))
  {
    IsNonEmpty(w.socks);
    if w.socks != [] && s.spawned {
      Handoff.HandOffRoundTrip(w.socks, s.sysfs, s.modprobe, s.verbose);
      assert w.(socks := w.socks) == w;
      ChildDiesExactlyWhen(w, s.childRounds);
    }
  }

  lemma SessionStrands(o: Options, f: Files, s: Script)
    ensures var fw := ForwardSession(o, f, s);
            (fw.place == Nowhere && fw.world.socks != []) <==> DiesHolding(o, f, s)
  {
    var first := FirstLoop(o, s.devs);
    FirstLoopOk(o, s.devs);
    FirstLoopHoldsNothing(o, s.devs);
    if FirstLoopFails(s.devs) || (o.vhub && !s.ueventSocket) {
      assert !FirstLoopFails(s.devs) && s.devs != [] ==> !IsRefused(s.devs[0]);
    } else if !o.vhub {
      forall x ensures x in first.world.socks <==> IsHandedOver(o, f, s, x) {
        FirstLoopHoldsExactly(o, s.devs, x);
      }
      HandOverStrands(first.world, s);
    } else {
      var t := Vhub(o, f, first.world, s.rounds);
      VhubEndsExactlyWhen(o, f, first.world, s.rounds);
      forall x
        ensures (x in t.world.socks <==> IsHandedOver(o, f, s, x)) && (x in t.world.socks <==> IsLeft(o, f, s, x))
      {
        VhubLeavesExactly(o, f, s, x);
      }
      NotBothVhub(o, f, s.rounds);
      HandOverStrands(t.world, s);
      IsNonEmpty(t.world.socks);
      assert HandsOver(o, f, s) <==> t.exit == HandOff;
    }
  }

  /** The parent holds what is left as long as vhubLoop runs; the child does exactly if the session hands over
  and no process dies holding something. */
  lemma PlaceExactly(o: Options, f: Files, s: Script)
    ensures var fw := ForwardSession(o, f, s);
            && (fw.place == InParent <==>
                !FirstLoopFails(s.devs) && o.vhub && s.ueventSocket && NoneEndsVhub(o, f, s.rounds))
            && (fw.place == InChild ==> HandsOver(o, f, s))
            && (HandsOver(o, f, s) && !DiesHolding(o, f, s) ==> fw.place == InChild)
  {
    var first := FirstLoop(o, s.devs);
    FirstLoopOk(o, s.devs);
    SessionStrands(o, f, s);
    if o.vhub {
      VhubEndsExactlyWhen(o, f, first.world, s.rounds);
      NotBothVhub(o, f, s.rounds);
    }
    var w := if o.vhub then Vhub(o, f, first.world, s.rounds).world else first.world;
    Handoff.HandOffRoundTrip(w.socks, s.sysfs, s.modprobe, s.verbose);
    assert w.(socks := w.socks) == w;
    ChildDiesExactlyWhen(w, s.childRounds);
    IsNonEmpty(Child(w, s.childRounds).world.socks);
  }

  /** A forward session keeps track of all its devices, each of them held by a process or released once,
  exactly unless a process dies holding one. */
  lemma ForwardAccountsExactlyWhen(o: Options, f: Files, s: Script)
    ensures Accounted(ForwardSession(o, f, s).world, HeldNow(ForwardSession(o, f, s))) <==> !DiesHolding(o, f, s)
  {
    var fw := ForwardSession(o, f, s);
    var released := ForwardSessionConserves(o, f, s);
    AccountedExactly(fw.world, released, fw.place == Nowhere);
    SessionStrands(o, f, s);
  }

  /** Once every connection that was handed over has hung up, every device ever taken has been released,
  each exactly once. */
  lemma HandedOverAndReleased(o: Options, f: Files, s: Script) returns (released: seq<Sock>)
    requires HandsOver(o, f, s) && s.spawned && NoPollFails(s.childRounds)
    requires forall x :: IsHandedOver(o, f, s, x) ==> HangsUp(s.childRounds, x.file)
    ensures ForwardSession(o, f, s).world.socks == [] && AllReleased(ForwardSession(o, f, s).world, released)
  {
    released := ForwardSessionConserves(o, f, s);
    var w := HandedWorld(o, f, s);
    Handoff.HandOffRoundTrip(w.socks, s.sysfs, s.modprobe, s.verbose);
    assert w.(socks := w.socks) == w;
    var left := ForwardSession(o, f, s).world.socks;
    if left != [] {
      ChildHoldsWhatHasNotHungUp(w, s.childRounds, left[0]);
    }
  }

  lemma HandedWorld(o: Options, f: Files, s: Script) returns (w: World)
    requires HandsOver(o, f, s)
    ensures forall x :: x in w.socks <==> IsHandedOver(o, f, s, x)
    ensures ForwardSession(o, f, s) == HandOver(w, s)
  {
    var first := FirstLoop(o, s.devs);
    FirstLoopOk(o, s.devs);
    w := if o.vhub then Vhub(o, f, first.world, s.rounds).world else first.world;
    VhubEndsExactlyWhen(o, f, first.world, s.rounds);
    NotBothVhub(o, f, s.rounds);
    forall x ensures x in w.socks <==> IsHandedOver(o, f, s, x) {
      if o.vhub {
        VhubLeavesExactly(o, f, s, x);
      } else {
        FirstLoopHoldsExactly(o, s.devs, x);
      }
    }
  }

  // ----- inputs for which it fails

  const ALL_DEVICES := Options(true, false, _ => true)

  /** The second of two devices being refused is enough: the first stays on usbip-host. */
  lemma RefusalStrandsForward(f: Files, vhub: bool, s: Script)
    requires s.devs == [First("1-1", true, Exported(7)), First("1-2", true, Refused)]
    ensures DiesHolding(ALL_DEVICES.(vhub := vhub), f, s)
  {
    assert IsRefused(s.devs[1]);
  }

  /** So is a device that is plugged in later and refused. */
  lemma HotPlugRefusalStrands(f: Files, s: Script, state: int -> bv16, path: string)
    requires s.devs == [First("1-1", true, Exported(7))] && s.ueventSocket
    requires '=' !in path && '\0' !in path && !Contains(path, "vhci_hcd")
    requires s.rounds == [Round(Ready(state), Received(BindMessage(path)), true, Refused)]
    requires !Broken(state(f.channel)) && Readable(state(f.uevents)) && !HungUp(state(7))
    ensures DiesHolding(ALL_DEVICES, f, s)
  {
    BindIsHotPlug(path);
    EndsAtOnce(f, s);
    LeftAtOnce(f, s, Sock(7, "1-1"));
  }

  lemma EndsAtOnce(f: Files, s: Script)
    requires |s.rounds| == 1 && s.rounds[0].poll.Ready? && !EndsByChannel(f, s.rounds[0])
    requires Readable(s.rounds[0].poll.state(f.uevents)) && ExportGoesWrong(ALL_DEVICES, s.rounds[0])
    ensures FirstEnd(ALL_DEVICES, f, s.rounds) == 0 && s.rounds[..0] == []
    ensures !NoneEndsVhub(ALL_DEVICES, f, s.rounds) && !VhubEndsByChannel(ALL_DEVICES, f, s.rounds)
  {
    assert EndsVhub(ALL_DEVICES, f, s.rounds[0]);
  }

  lemma LeftAtOnce(f: Files, s: Script, x: Sock)
    requires s.devs == [First(x.busid, true, Exported(x.file))]
    requires |s.rounds| == 1 && !HangsUpIn(s.rounds[0], x) && FirstEnd(ALL_DEVICES, f, s.rounds) == 0
    ensures IsLeft(ALL_DEVICES, f, s, x) && !FirstLoopFails(s.devs)
  {
    assert !IsRefused(s.devs[0]);
    assert IsTaken(ALL_DEVICES, s.devs, x);
    assert s.rounds[..0] == [];
  }

  // ----- reverse sessions

  /** runReverseAttach from its first announcement on; Fatal if it returns with an error before it
  comes to reverseLinger. */
  function ReverseAttach(o: Options, f: Files, devs: seq<First>, eofSent: bool, pipe: bool, ueventSocket: bool,
                         rounds: seq<Round>): Turn
  {
    var first := FirstLoop(o, devs);
    if first.exit == Fatal || (!o.vhub && !eofSent) then Turn(first.world, Fatal)
    else ReverseSession(o, f, first.world, pipe, ueventSocket, rounds)
  }

  /** How such a session ends, and that it has not: as the first of these that applies says. */
  lemma {:induction false} ReverseAttachEndsExactlyWhen(o: Options, f: Files, devs: seq<First>, eofSent: bool,
                                                        pipe: bool, ueventSocket: bool, rounds: seq<Round>)
    ensures ReverseAttach(o, f, devs, eofSent, pipe, ueventSocket, rounds).exit ==
            if FirstLoopFails(devs) || (!o.vhub && !eofSent) then Fatal
            else if !pipe || (o.vhub && !ueventSocket) then Returned
            else if NoneEndsReverse(o, f, rounds) then StillRunning
            else if ReverseEndsBySignal(o, f, rounds) then ProcessExit
            else Returned
  {
    FirstLoopOk(o, devs);
    ReverseEndsExactlyWhen(o, f, FirstLoop(o, devs).world, rounds);
  }

  /** A reverse session, however it goes, keeps track of all its devices exactly unless an export of
  the first loop, or the -Eof after it, fails when the first device is held already. */
  lemma {:induction false} ReverseAccountsExactlyWhen(o: Options, f: Files, devs: seq<First>, eofSent: bool, pipe: bool,
                                   ueventSocket: bool, rounds: seq<Round>)
    ensures var t := ReverseAttach(o, f, devs, eofSent, pipe, ueventSocket, rounds);
            Accounted(t.world, if t.exit == StillRunning then t.world.socks else []) <==>
            !(FirstLoopFails(devs) || (!o.vhub && !eofSent)) || o.noLinger || devs == [] || IsRefused(devs[0])
  {
    FirstLoopOk(o, devs);
    FirstLoopHoldsNothing(o, devs);
    var socks := FirstLoop(o, devs).world.socks;
    var t := ReverseAttach(o, f, devs, eofSent, pipe, ueventSocket, rounds);
    if FirstLoopFails(devs) || (!o.vhub && !eofSent) {
      AccountedExactly(Start(socks), [], true);
    } else {
      var released := ReverseSessionConserves(o, f, socks, pipe, ueventSocket, rounds);
      if t.exit != StillRunning {
        assert multiset(released) + multiset([]) == multiset(t.world.taken);
      }
    }
  }

  /** Two devices, the second refused, will do here too. */
  lemma {:induction false} RefusalStrandsReverse(f: Files, pipe: bool, ueventSocket: bool, rounds: seq<Round>)
    ensures var devs := [First("1-1", true, Exported(7)), First("1-2", true, Refused)];
            var t := ReverseAttach(ALL_DEVICES, f, devs, true, pipe, ueventSocket, rounds);
            !Accounted(t.world, if t.exit == StillRunning then t.world.socks else [])
  {
    var devs := [First("1-1", true, Exported(7)), First("1-2", true, Refused)];
    assert IsRefused(devs[1]);
    ReverseAccountsExactlyWhen(ALL_DEVICES, f, devs, true, pipe, ueventSocket, rounds);
  }
}
