/** No held device is forgotten and none is released twice. */
module Conservation {
  import opened Text
  import opened Linger
  import Handoff

  /** The log is the release, in full and one after another, of some sockets; those and the ones still
  held are all that were ever taken, each as often as it was taken. */
  ghost predicate Conserved(w: World, released: seq<Sock>) {
    w.log == ReleaseAll(released) && multiset(released) + multiset(w.socks) == multiset(w.taken)
  }

  /** Every socket ever taken has had its one detach attempt and its one close. */
  ghost predicate AllReleased(w: World, released: seq<Sock>) {
    w.log == ReleaseAll(released) && multiset(released) == multiset(w.taken)
  }

  lemma {:induction false} ReleaseAllOfConcat(a: seq<Sock>, b: seq<Sock>)
    ensures ReleaseAll(a + b) == ReleaseAll(a) + ReleaseAll(b)
  {
    if b == [] {
      assert a + b == a;
    } else {
      var n := |b| - 1;
      assert (a + b)[..|a + b| - 1] == a + b[..n];
      ReleaseAllOfConcat(a, b[..n]);
    }
  }

  lemma {:induction false} EitherOneMore(h: seq<Sock>, a: seq<Sock>, socks: seq<Sock>, s: Sock)
    requires multiset(h) + multiset(a) == multiset(socks)
    ensures multiset(h + [s]) + multiset(a + []) == multiset(socks + [s])
    ensures multiset(h + []) + multiset(a + [s]) == multiset(socks + [s])
  {
    assert h + [] == h && a + [] == a;
  }

  lemma {:induction false} HungOrAlive(socks: seq<Sock>, state: int -> bv16)
    ensures multiset(Hung(socks, state)) + multiset(Alive(socks, state)) == multiset(socks)
  {
    if socks != [] {
      var front, s := socks[..|socks| - 1], socks[|socks| - 1];
      HungOrAlive(front, state);
      EitherOneMore(Hung(front, state), Alive(front, state), front, s);
      assert socks == front + [s];
      LastHungOrAlive(front, s, state);
    }
  }

  lemma {:induction false} LastHungOrAlive(front: seq<Sock>, s: Sock, state: int -> bv16)
    ensures Hung(front + [s], state) == Hung(front, state) + if HungUp(state(s.file)) then [s] else []
    ensures Alive(front + [s], state) == Alive(front, state) + if HungUp(state(s.file)) then [] else [s]
  {
    assert (front + [s])[..|front|] == front;
  }

  lemma {:induction false} RebindReleasesTheRest(w: World, released: seq<Sock>)
    requires Conserved(w, released)
    ensures AllReleased(RebindAll(w), released + w.socks)
  {
    ReleaseAllOfConcat(released, w.socks);
    assert multiset(released + w.socks) == multiset(released) + multiset(w.socks);
  }

  lemma {:induction false} SweepConserves(w: World, state: int -> bv16, released: seq<Sock>)
    requires Conserved(w, released)
    ensures Conserved(Swept(w, state), released + Hung(w.socks, state))
  {
    HungOrAlive(w.socks, state);
    ReleaseAllOfConcat(released, Hung(w.socks, state));
  }

  lemma {:induction false} TakeConserves(w: World, s: Sock, released: seq<Sock>)
    requires Conserved(w, released)
    ensures Conserved(Take(w, s), released)
  {
  }

  /** What a turn leaves: a full release if the loop ended by itself, conservation otherwise; after a
  fatal error the sockets that are left are held by nobody any more. */
  ghost predicate TurnOk(t: Turn, released: seq<Sock>) {
    match t.exit
    case StillRunning => Conserved(t.world, released)
    case HandOff => Conserved(t.world, released)
    case Returned => AllReleased(t.world, released)
    case ProcessExit => AllReleased(t.world, released)
    case Fatal => Conserved(t.world, released)
  }

  lemma {:induction false} HotPlugOk(o: Options, w: World, r: Round, reverse: bool, before: seq<Sock>)
    returns (released: seq<Sock>)
    requires Conserved(w, before)
    ensures TurnOk(HotPlug(o, w, r, reverse), released)
    ensures var exit := HotPlug(o, w, r, reverse).exit;
            if reverse then exit != Fatal && exit != HandOff else exit != Returned && exit != ProcessExit
  {
    var t := HotPlug(o, w, r, reverse);
    released := before;
    if r.recv.RecvFailed? {
      if reverse {
        RebindReleasesTheRest(w, before);
        released := before + w.socks;
      }
    } else if t.world != w {
      TakeConserves(w, t.world.socks[|w.socks|], before);
    }
  }

  lemma ReverseReadyOk(o: Options, f: Files, w: World, r: Round, state: int -> bv16, before: seq<Sock>)
    returns (released: seq<Sock>)
    requires Conserved(w, before)
    ensures TurnOk(ReverseReady(o, f, w, r, state), released)
    ensures var exit := ReverseReady(o, f, w, r, state).exit; exit != Fatal && exit != HandOff
  {
    if Signalled(state(f.signal)) || Signalled(state(f.channel)) {
      RebindReleasesTheRest(w, before);
      released := before + w.socks;
    } else {
      SweepConserves(w, state, before);
      released := before + Hung(w.socks, state);
      if o.vhub && Readable(state(f.uevents)) {
        released := HotPlugOk(o, Swept(w, state), r, true, released);
      }
    }
  }

  lemma {:induction false} ReverseTurnOk(o: Options, f: Files, w: World, r: Round, before: seq<Sock>)
    returns (released: seq<Sock>)
    requires Conserved(w, before)
    ensures TurnOk(ReverseTurn(o, f, w, r), released)
    ensures var exit := ReverseTurn(o, f, w, r).exit; exit != Fatal && exit != HandOff
  {
    match r.poll {
      case Interrupted => released := before;
      case PollFailed =>
        RebindReleasesTheRest(w, before);
        released := before + w.socks;
      case Ready(state) => released := ReverseReadyOk(o, f, w, r, state, before);
    }
  }

  lemma {:induction false} ReverseOk(o: Options, f: Files, w: World, rounds: seq<Round>, before: seq<Sock>)
    returns (released: seq<Sock>)
    requires Conserved(w, before)
    ensures TurnOk(Reverse(o, f, w, rounds), released)
    ensures var exit := Reverse(o, f, w, rounds).exit; exit != Fatal && exit != HandOff
  {
    released := before;
    if rounds != [] {
      var n := |rounds| - 1;
      released := ReverseOk(o, f, w, rounds[..n], before);
      var t := Reverse(o, f, w, rounds[..n]);
      if t.exit == StillRunning {
        released := ReverseTurnOk(o, f, t.world, rounds[n], released);
      }
    }
  }

  // ----- main results, reverse mode

  /** reverseLinger, at every moment: each socket it started with or took since is either held or has
  had exactly one detach attempt followed by its close; and whichever way it ends - no pipe, no uevent
  socket, a failed poll or receive, a signal, a dead channel - none is held any more. */
  lemma ReverseSessionConserves(o: Options, f: Files, socks: seq<Sock>, pipe: bool, ueventSocket: bool,
                                rounds: seq<Round>)
    returns (released: seq<Sock>)
    ensures var t := ReverseSession(o, f, Start(socks), pipe, ueventSocket, rounds);
            && (t.exit == StillRunning || t.exit == Returned || t.exit == ProcessExit)
            && (t.exit == StillRunning ==> Conserved(t.world, released))
            && (t.exit != StillRunning ==> AllReleased(t.world, released))
  {
    assert Conserved(Start(socks), []);
    if !pipe || (o.vhub && !ueventSocket) {
      RebindReleasesTheRest(Start(socks), []);
      released := [] + socks;
    } else {
      released := ReverseOk(o, f, Start(socks), rounds, []);
    }
  }

  // ----- what the log says of one device

  function Detaches(log: seq<Event>, busid: string): nat {
    if log == [] then 0
    else Detaches(log[..|log| - 1], busid) + if log[|log| - 1] == Event.Detach(busid) then 1 else 0
  }

  function Times(socks: seq<Sock>, busid: string): nat {
    if socks == [] then 0 else Times(socks[..|socks| - 1], busid) + if socks[|socks| - 1].busid == busid then 1 else 0
  }

  lemma {:induction false} DetachesOfReleases(socks: seq<Sock>, busid: string)
    ensures Detaches(ReleaseAll(socks), busid) == Times(socks, busid)
  {
    if socks != [] {
      var n := |socks| - 1;
      DetachesOfReleases(socks[..n], busid);
      DetachesOfOneMore(ReleaseAll(socks[..n]), socks[n], busid);
    }
  }

  lemma {:induction false} DetachesOfOneMore(log: seq<Event>, s: Sock, busid: string)
    ensures Detaches(log + Release(s), busid) == Detaches(log, busid) + if s.busid == busid then 1 else 0
  {
    var all := log + Release(s);
    assert all[..|all| - 1] == log + [Event.Detach(s.busid)];
    assert all[..|all| - 1][..|log|] == log;
  }

  lemma {:induction false} BagWithout(b: seq<Sock>, j: nat)
    requires j < |b|
    ensures multiset(b[..j] + b[j + 1..]) + multiset{b[j]} == multiset(b)
  {
    var x, y := b[..j], b[j + 1..];
    assert b == x + ([b[j]] + y);
    assert multiset(x + ([b[j]] + y)) == multiset(x) + multiset([b[j]] + y);
    assert multiset([b[j]] + y) == multiset([b[j]]) + multiset(y);
    assert multiset(x + y) == multiset(x) + multiset(y);
  }

  lemma {:induction false} SameLess(a: seq<Sock>, b: seq<Sock>, j: nat)
    requires a != [] && j < |b| && b[j] == a[|a| - 1] && multiset(a) == multiset(b)
    ensures multiset(a[..|a| - 1]) == multiset(b[..j] + b[j + 1..])
  {
    var n := |a| - 1;
    BagWithout(a, n);
    BagWithout(b, j);
    assert a[..n] + a[n + 1..] == a[..n];
    assert multiset(a[..n]) == multiset(a) - multiset{a[n]};
    assert multiset(b[..j] + b[j + 1..]) == multiset(b) - multiset{b[j]};
  }

  lemma {:induction false} TimesByMultiset(a: seq<Sock>, b: seq<Sock>, busid: string)
    requires multiset(a) == multiset(b)
    ensures Times(a, busid) == Times(b, busid)
  {
    if a == [] {
      assert |multiset(b)| == |b|;
    } else {
      var n := |a| - 1;
      assert a[n] in multiset(b);
      var j :| 0 <= j < |b| && b[j] == a[n];
      SameLess(a, b, j);
      TimesOfRemoved(b, j, busid);
      TimesByMultiset(a[..n], b[..j] + b[j + 1..], busid);
    }
  }

  lemma {:induction false} TimesOfRemoved(b: seq<Sock>, j: nat, busid: string)
    requires j < |b|
    ensures Times(b, busid) == Times(b[..j] + b[j + 1..], busid) + if b[j].busid == busid then 1 else 0
  {
    var b', n := b[..j] + b[j + 1..], |b| - 1;
    if j < n {
      assert b'[..|b'| - 1] == b[..n][..j] + b[..n][j + 1..];
      TimesOfRemoved(b[..n], j, busid);
    } else {
      assert b' == b[..n];
    }
  }

  /** Once a reverse session is over, a device has been detached as often as it was taken: once, if it
  was exported once. */
  lemma EachDeviceDetachedOnce(o: Options, f: Files, socks: seq<Sock>, pipe: bool, ueventSocket: bool,
                               rounds: seq<Round>, busid: string)
    requires ReverseSession(o, f, Start(socks), pipe, ueventSocket, rounds).exit != StillRunning
    ensures var w := ReverseSession(o, f, Start(socks), pipe, ueventSocket, rounds).world;
            Detaches(w.log, busid) == Times(w.taken, busid)
  {
    var released := ReverseSessionConserves(o, f, socks, pipe, ueventSocket, rounds);
    DetachesOfReleases(released, busid);
    TimesByMultiset(released, ReverseSession(o, f, Start(socks), pipe, ueventSocket, rounds).world.taken, busid);
  }

  // ----- forward mode

  lemma {:induction false} VhubReadyOk(o: Options, f: Files, w: World, r: Round, state: int -> bv16, before: seq<Sock>)
    returns (released: seq<Sock>)
    requires Conserved(w, before)
    ensures TurnOk(VhubReady(o, f, w, r, state), released)
    ensures var exit := VhubReady(o, f, w, r, state).exit; exit != Returned && exit != ProcessExit
  {
    released := before;
    if !Broken(state(f.channel)) {
      SweepConserves(w, state, before);
      released := before + Hung(w.socks, state);
      if Readable(state(f.uevents)) {
        released := HotPlugOk(o, Swept(w, state), r, false, released);
      }
    }
  }

  lemma {:induction false} VhubTurnOk(o: Options, f: Files, w: World, r: Round, before: seq<Sock>)
    returns (released: seq<Sock>)
    requires Conserved(w, before)
    ensures TurnOk(VhubTurn(o, f, w, r), released)
    ensures var exit := VhubTurn(o, f, w, r).exit; exit != Returned && exit != ProcessExit
  {
    released := before;
    if r.poll.Ready? {
      released := VhubReadyOk(o, f, w, r, r.poll.state, before);
    }
  }

  lemma {:induction false} VhubOk(o: Options, f: Files, w: World, rounds: seq<Round>, before: seq<Sock>)
    returns (released: seq<Sock>)
    requires Conserved(w, before)
    ensures TurnOk(Vhub(o, f, w, rounds), released)
    ensures var exit := Vhub(o, f, w, rounds).exit; exit != Returned && exit != ProcessExit
  {
    released := before;
    if rounds != [] {
      var n := |rounds| - 1;
      released := VhubOk(o, f, w, rounds[..n], before);
      var t := Vhub(o, f, w, rounds[..n]);
      if t.exit == StillRunning {
        released := VhubTurnOk(o, f, t.world, rounds[n], released);
      }
    }
  }

  lemma {:induction false} ChildTurnOk(w: World, r: Round, before: seq<Sock>) returns (released: seq<Sock>)
    requires Conserved(w, before)
    ensures TurnOk(ChildTurn(w, r), released)
    ensures var exit := ChildTurn(w, r).exit; exit == StillRunning || exit == Fatal
  {
    released := before;
    if r.poll.Ready? {
      SweepConserves(w, r.poll.state, before);
      released := before + Hung(w.socks, r.poll.state);
    }
  }

  lemma {:induction false} ChildOk(w: World, rounds: seq<Round>, before: seq<Sock>) returns (released: seq<Sock>)
    requires Conserved(w, before)
    ensures TurnOk(Child(w, rounds), released)
    ensures var exit := Child(w, rounds).exit; exit == StillRunning || exit == Fatal
  {
    released := before;
    if rounds != [] {
      var n := |rounds| - 1;
      released := ChildOk(w, rounds[..n], before);
      var t := Child(w, rounds[..n]);
      if t.exit == StillRunning && t.world.socks != [] {
        released := ChildTurnOk(t.world, rounds[n], released);
      }
    }
  }

  // Where the sockets of a forward session are.
  datatype Where = InParent | InChild | Nowhere

  datatype Forward = Forward(world: World, place: Where)

  predicate IsRefused(d: First) {
    ExportFails(d.readable, d.exported)
  }

  /** Some device of the first loop cannot be exported. */
  ghost predicate FirstLoopFails(devs: seq<First>) {
    exists k :: 0 <= k < |devs| && IsRefused(devs[k])
  }

  lemma {:induction false} FailsLater(devs: seq<First>, d: First)
    ensures FirstLoopFails(devs + [d]) <==> FirstLoopFails(devs) || IsRefused(d)
  {
    var all := devs + [d];
    assert all[|devs|] == d;
    if FirstLoopFails(devs) {
      var k :| 0 <= k < |devs| && IsRefused(devs[k]);
      assert all[k] == devs[k];
    }
  }

  // What the environment of a forward session does.
  datatype Script = Script(
    devs: seq<First>, ueventSocket: bool, rounds: seq<Round>,
    sysfs: string, modprobe: string, verbose: bool, spawned: bool, childRounds: seq<Round>)

  /** spawnLingerAndExit, and then the child: it holds what its arguments and files make it hold. */
  function HandOver(w: World, s: Script): Forward {
    if w.socks == [] then Forward(w, InChild)
    else if !s.spawned then Forward(w, Nowhere)
    else
      match Handoff.Inherited(Handoff.Argv(s.sysfs, s.modprobe, s.verbose, Handoff.Busids(w.socks)),
                              Handoff.OpenFiles(w.socks))
      case None => Forward(w.(socks := []), InChild)
      case Some(socks) =>
        var t := Child(w.(socks := socks), s.childRounds);
        Forward(t.world, if t.exit == Fatal then Nowhere else InChild)
  }

  /** remoteScript from its first announcement on, child included. */
  function ForwardSession(o: Options, f: Files, s: Script): Forward {
    var first := FirstLoop(o, s.devs);
    if first.exit == Fatal then Forward(first.world, Nowhere)
    else if !o.vhub then HandOver(first.world, s)
    else if !s.ueventSocket then Forward(first.world, Nowhere)
    else
      var t := Vhub(o, f, first.world, s.rounds);
      if t.exit == HandOff then HandOver(t.world, s)
      else Forward(t.world, if t.exit == Fatal then Nowhere else InParent)
  }

  lemma {:induction false} FirstLoopOk(o: Options, devs: seq<First>)
    ensures TurnOk(FirstLoop(o, devs), []) && FirstLoop(o, devs).world == Start(FirstLoop(o, devs).world.socks)
    ensures FirstLoop(o, devs).exit == if FirstLoopFails(devs) then Fatal else StillRunning
  {
    if devs != [] {
      var n := |devs| - 1;
      FirstLoopOk(o, devs[..n]);
      FailsLater(devs[..n], devs[n]);
      assert devs == devs[..n] + [devs[n]];
    }
  }

  lemma {:induction false} HandOverOk(w: World, s: Script, before: seq<Sock>) returns (released: seq<Sock>)
    requires Conserved(w, before)
    ensures Conserved(HandOver(w, s).world, released)
  {
    released := before;
    if w.socks != [] && s.spawned {
      Handoff.HandOffRoundTrip(w.socks, s.sysfs, s.modprobe, s.verbose);
      assert w.(socks := w.socks) == w;
      released := ChildOk(w, s.childRounds, before);
    }
  }

  /** A forward session, at every moment: each socket ever taken has had exactly one detach attempt
  followed by its close, or is left - held by the parent or, the hand-off included, by the linger
  child, unless a fatal error ended the one or the other. */
  lemma ForwardSessionConserves(o: Options, f: Files, s: Script) returns (released: seq<Sock>)
    ensures Conserved(ForwardSession(o, f, s).world, released)
  {
    FirstLoopOk(o, s.devs);
    var first := FirstLoop(o, s.devs);
    released := [];
    if first.exit == StillRunning {
      if !o.vhub {
        released := HandOverOk(first.world, s, []);
      } else if s.ueventSocket {
        released := VhubOk(o, f, first.world, s.rounds, []);
        var t := Vhub(o, f, first.world, s.rounds);
        if t.exit == HandOff {
          released := HandOverOk(t.world, s, released);
        }
      }
    }
  }

  // ----- what a failure leaves behind

  /** Every socket ever taken is held by some process, or has had its one detach attempt and its one
  close. */
  ghost predicate Accounted(w: World, held: seq<Sock>) {
    exists released :: w.log == ReleaseAll(released) && multiset(released) + multiset(held) == multiset(w.taken)
  }

  lemma {:induction false} ReleasesTell(a: seq<Sock>, b: seq<Sock>)
    requires ReleaseAll(a) == ReleaseAll(b)
    ensures a == b
  {
    if a != [] && b != [] {
      var m, n := |a| - 1, |b| - 1;
      var x, y := ReleaseAll(a[..m]), ReleaseAll(b[..n]);
      assert (x + Release(a[m]))[..|x|] == x && (y + Release(b[n]))[..|y|] == y;
      assert (x + Release(a[m]))[|x|..] == Release(a[m]) && (y + Release(b[n]))[|y|..] == Release(b[n]);
      ReleasesTell(a[..m], b[..n]);
      assert a == a[..m] + [a[m]] && b == b[..n] + [b[n]];
    }
  }

  lemma {:induction false} NothingMore(released: seq<Sock>, left: seq<Sock>, taken: seq<Sock>)
    requires multiset(released) == multiset(taken) && multiset(released) + multiset(left) == multiset(taken)
    ensures left == []
  {
    assert |multiset(released) + multiset(left)| == |multiset(released)| + |multiset(left)|;
    assert |multiset(left)| == |left|;
  }

  lemma {:induction false} AccountedExactly(w: World, released: seq<Sock>, dead: bool)
    requires Conserved(w, released)
    ensures Accounted(w, if dead then [] else w.socks) <==> !dead || w.socks == []
  {
    if dead && Accounted(w, []) {
      var all :| w.log == ReleaseAll(all) && multiset(all) + multiset([]) == multiset(w.taken);
      ReleasesTell(all, released);
      NothingMore(all, w.socks, w.taken);
    }
  }

  // ----- the child lets go of exactly what hangs up

  ghost predicate HangsUp(rounds: seq<Round>, file: int) {
    exists k :: 0 <= k < |rounds| && rounds[k].poll.Ready? && HungUp(rounds[k].poll.state(file))
  }

  ghost predicate NoPollFails(rounds: seq<Round>) {
    forall k :: 0 <= k < |rounds| ==> !rounds[k].poll.PollFailed?
  }

  lemma {:induction false} AliveExactly(socks: seq<Sock>, state: int -> bv16, s: Sock)
    ensures s in Alive(socks, state) <==> s in socks && !HungUp(state(s.file))
  {
    if socks != [] {
      AliveExactly(socks[..|socks| - 1], state, s);
      assert socks == socks[..|socks| - 1] + [socks[|socks| - 1]];
    }
  }

  lemma {:induction false} HangsUpLater(rounds: seq<Round>, r: Round, file: int)
    ensures HangsUp(rounds + [r], file) <==> HangsUp(rounds, file) || (r.poll.Ready? && HungUp(r.poll.state(file)))
  {
    var all := rounds + [r];
    if HangsUp(rounds, file) {
      var k :| 0 <= k < |rounds| && rounds[k].poll.Ready? && HungUp(rounds[k].poll.state(file));
      assert all[k] == rounds[k];
    }
    if r.poll.Ready? && HungUp(r.poll.state(file)) {
      assert all[|rounds|] == r;
    }
  }

  /** As long as poll works, the child goes on, holding a socket exactly as long as it has not hung up. */
  lemma {:induction false} ChildHoldsWhatHasNotHungUp(w: World, rounds: seq<Round>, s: Sock)
    requires NoPollFails(rounds)
    ensures Child(w, rounds).exit == StillRunning
    ensures s in Child(w, rounds).world.socks <==> s in w.socks && !HangsUp(rounds, s.file)
  {
    if rounds != [] {
      var n := |rounds| - 1;
      assert rounds == rounds[..n] + [rounds[n]];
      ChildHoldsWhatHasNotHungUp(w, rounds[..n], s);
      HangsUpLater(rounds[..n], rounds[n], s.file);
      var before := Child(w, rounds[..n]).world;
      if rounds[n].poll.Ready? {
        AliveExactly(before.socks, rounds[n].poll.state, s);
      }
    }
  }
}
