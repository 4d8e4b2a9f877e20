/** The processes that hold exported devices until their connections die.

Each loop is given a finite script of what its environment does, round by round: how poll returns,
what the uevent socket yields, how an export goes.  Scripts are arbitrary, so what holds at the end
of every script holds at every moment of every execution. */
module Linger {
  import opened Text
  import Uevent

  // A held connection: its open file and the device exported over it.
  datatype Sock = Sock(file: int, busid: string)

  // What the world sees of a release.
  datatype Event = Detach(busid: string) | Close(file: int)

  // ----- poll

  const POLLIN: bv16 := 0x1
  const POLLERR: bv16 := 0x8
  const POLLHUP: bv16 := 0x10
  const POLLRDHUP: bv16 := 0x2000

  // poll without an error answers for every entry, by what the state of its file is.
  datatype Poll = Interrupted | PollFailed | Ready(state: int -> bv16)

  datatype PollFd = PollFd(file: int, events: bv16)

  /** It answers what was asked for; that something is wrong, or over, it always does. */
  function Revents(pfds: seq<PollFd>, state: int -> bv16): seq<bv16> {
    seq(|pfds|, i requires 0 <= i < |pfds| => state(pfds[i].file) & Asked(pfds[i].events))
  }

  function Asked(events: bv16): bv16 {
    events | POLLERR | POLLHUP
  }

  predicate HungUp(revents: bv16) {
    revents & (POLLRDHUP | POLLHUP | POLLERR) != 0
  }

  predicate Readable(revents: bv16) {
    revents & POLLIN != 0
  }

  /** A pipe whose other end is closed. */
  predicate Signalled(revents: bv16) {
    revents & (POLLIN | POLLHUP | POLLERR) != 0
  }

  /** The channel on standard output. */
  predicate Broken(revents: bv16) {
    revents & (POLLERR | POLLHUP) != 0
  }

  // Which bits those are, by number: POLLRDHUP is bit 13, POLLHUP 4, POLLERR 3 and POLLIN 0.

  lemma HungUpBits(r: bv16)
    ensures HungUp(r) <==> (r >> 13) & 1 == 1 || (r >> 4) & 1 == 1 || (r >> 3) & 1 == 1
  {
  }

  lemma ReadableBits(r: bv16)
    ensures Readable(r) <==> r & 1 == 1
  {
  }

  lemma SignalledBits(r: bv16)
    ensures Signalled(r) <==> r & 1 == 1 || (r >> 4) & 1 == 1 || (r >> 3) & 1 == 1
  {
  }

  lemma BrokenBits(r: bv16)
    ensures Broken(r) <==> (r >> 4) & 1 == 1 || (r >> 3) & 1 == 1
  {
  }

  /** What is asked for is enough to tell: of a socket, that its peer has gone; of the channel and the signal
  pipe in reverseLinger, and of the uevent socket, that they can be read; of the channel in vhubLoop,
  nothing more than always. */
  lemma EnoughIsAsked(r: bv16)
    ensures HungUp(r & Asked(POLLRDHUP)) <==> HungUp(r)
    ensures Signalled(r & Asked(POLLIN)) <==> Signalled(r)
    ensures Readable(r & Asked(POLLIN)) <==> Readable(r)
    ensures Broken(r & Asked(0)) <==> Broken(r)
  {
    HungUpAsked(r);
    SignalledAsked(r);
    ReadableAsked(r);
    BrokenAsked(r);
  }

  lemma HungUpAsked(r: bv16)
    ensures HungUp(r & Asked(POLLRDHUP)) <==> HungUp(r)
  {
  }

  lemma SignalledAsked(r: bv16)
    ensures Signalled(r & Asked(POLLIN)) <==> Signalled(r)
  {
  }

  lemma ReadableAsked(r: bv16)
    ensures Readable(r & Asked(POLLIN)) <==> Readable(r)
  {
  }

  lemma BrokenAsked(r: bv16)
    ensures Broken(r & Asked(0)) <==> Broken(r)
  {
  }

  /** The answers from base on tell which sockets have hung up. */
  ghost predicate Tells(revents: seq<bv16>, base: nat, socks: seq<Sock>, state: int -> bv16) {
    && |revents| == base + |socks|
    && forall i :: 0 <= i < |socks| ==> (HungUp(revents[base + i]) <==> HungUp(state(socks[i].file)))
  }

  lemma PollTells(pfds: seq<PollFd>, base: nat, socks: seq<Sock>, state: int -> bv16)
    requires |pfds| == base + |socks|
    requires forall i :: 0 <= i < |socks| ==> pfds[base + i] == PollFd(socks[i].file, POLLRDHUP)
    ensures Tells(Revents(pfds, state), base, socks, state)
  {
    forall i | 0 <= i < |socks|
      ensures HungUp(Revents(pfds, state)[base + i]) <==> HungUp(state(socks[i].file))
    {
      HungUpAsked(state(socks[i].file));
    }
  }

  // ----- releasing

  function Release(s: Sock): seq<Event> {
    [Detach(s.busid), Close(s.file)]
  }

  function ReleaseAll(socks: seq<Sock>): seq<Event> {
    if socks == [] then [] else ReleaseAll(socks[..|socks| - 1]) + Release(socks[|socks| - 1])
  }

  function Hung(socks: seq<Sock>, state: int -> bv16): seq<Sock> {
    if socks == [] then []
    else
      var s := socks[|socks| - 1];
      Hung(socks[..|socks| - 1], state) + if HungUp(state(s.file)) then [s] else []
  }

  function Alive(socks: seq<Sock>, state: int -> bv16): seq<Sock> {
    if socks == [] then []
    else
      var s := socks[|socks| - 1];
      Alive(socks[..|socks| - 1], state) + if HungUp(state(s.file)) then [] else [s]
  }

  lemma ReleaseOneMore(socks: seq<Sock>, s: Sock)
    ensures ReleaseAll(socks + [s]) == ReleaseAll(socks) + Release(s)
  {
    assert (socks + [s])[..|socks|] == socks;
  }

  lemma ReleaseNext(log: seq<Event>, socks: seq<Sock>, i: nat)
    requires i < |socks|
    ensures log + ReleaseAll(socks[..i + 1]) == log + ReleaseAll(socks[..i]) + Release(socks[i])
  {
    assert socks[..i + 1][..i] == socks[..i];
  }

  // ----- hot-plugged devices

  datatype Recv = RecvAgain | RecvFailed | Received(message: string)

  // How exporting a device goes, the file of its connection if well.
  datatype Export = Refused | Exported(file: int)

  function Lookup(e: Uevent.Env, key: string): string {
    if key in e then e[key] else ""
  }

  predicate Contains(s: string, t: string) {
    HasPrefix(s, t) || (s != "" && Contains(s[1..], t))
  }

  /** A USB device other than a hub or a vhci port has been bound to the generic driver. */
  predicate IsHotPlug(e: Uevent.Env) {
    && Lookup(e, "ACTION") == "bind" && Lookup(e, "DEVTYPE") == "usb_device" && Lookup(e, "DRIVER") == "usb"
    && !HasPrefix(Lookup(e, "TYPE"), "9/") && !Contains(Lookup(e, "DEVPATH"), "vhci_hcd")
  }

  /** filepath.Base of a path that does not end in a slash. */
  function Base(path: string): string
    decreases |path|
  {
    var i := IndexOf(path, '/');
    if i == |path| then path else Base(path[i + 1..])
  }

  // What one turn of a loop finds.  readable: the device's attributes could be read.
  datatype Round = Round(poll: Poll, recv: Recv, readable: bool, exported: Export)

  // How a session is run.  selects: the pattern matches the device of a uevent.
  datatype Options = Options(vhub: bool, noLinger: bool, selects: Uevent.Env -> bool)

  // Files that a loop polls besides its sockets.
  datatype Files = Files(channel: int, signal: int, uevents: int)

  datatype Exit = StillRunning | Returned | ProcessExit | Fatal | HandOff

  // What a loop holds, every detach attempt and close so far, and every socket it ever took to hold.
  datatype World = World(socks: seq<Sock>, log: seq<Event>, taken: seq<Sock>)

  // The world after a turn, or after some, and whether the loop goes on.
  datatype Turn = Turn(world: World, exit: Exit)

  function RebindAll(w: World): World {
    w.(log := w.log + ReleaseAll(w.socks))
  }

  function Swept(w: World, state: int -> bv16): World {
    w.(socks := Alive(w.socks, state), log := w.log + ReleaseAll(Hung(w.socks, state)))
  }

  function Take(w: World, s: Sock): World {
    w.(socks := w.socks + [s], taken := w.taken + [s])
  }

  function Start(socks: seq<Sock>): World {
    World(socks, [], socks)
  }

  predicate ExportFails(readable: bool, exported: Export) {
    !readable || exported.Refused?
  }

  /** What newDev and exportOne do to the world, if they succeed. */
  function AfterExport(o: Options, w: World, busid: string, file: int): World {
    if o.noLinger then w else Take(w, Sock(file, busid))
  }

  // A device of the first loop, and how its export goes.
  datatype First = First(busid: string, readable: bool, exported: Export)

  // A device that was found, with its bDeviceClass.
  datatype Candidate = Candidate(device: First, hexClass: string)

  /** Those that are no hubs. */
  function Exportable(found: seq<Candidate>): seq<First> {
    if found == [] then []
    else
      var c := found[|found| - 1];
      Exportable(found[..|found| - 1]) + if c.hexClass == "09" then [] else [c.device]
  }

  lemma {:induction false} ExportableExactly(found: seq<Candidate>, d: First)
    ensures d in Exportable(found) <==> exists c :: c in found && c.device == d && c.hexClass != ['0', '9']
  {
    if found != [] {
      var n := |found| - 1;
      ExportableExactly(found[..n], d);
      assert found == found[..n] + [found[n]];
      OneMoreCandidate(found[..n], found[n], d);
    }
  }

  lemma OneMoreCandidate(front: seq<Candidate>, last: Candidate, d: First)
    ensures (exists c :: c in front + [last] && c.device == d && c.hexClass != ['0', '9']) <==>
            (exists c :: c in front && c.device == d && c.hexClass != ['0', '9'])
            || (last.device == d && last.hexClass != ['0', '9'])
  {
    var all := front + [last];
    assert last in all && forall c :: c in all <==> c in front || c == last;
  }

  lemma {:induction false} AllExportable(found: seq<Candidate>)
    requires forall i :: 0 <= i < |found| ==> found[i].hexClass != ['0', '9']
    ensures |Exportable(found)| == |found| && forall i :: 0 <= i < |found| ==> Exportable(found)[i] == found[i].device
  {
    if found != [] {
      AllExportable(found[..|found| - 1]);
    }
  }

  /** The first loop of remoteScript or runReverseAttach, on the devices that are no hubs. */
  function FirstLoop(o: Options, devs: seq<First>): Turn {
    if devs == [] then Turn(Start([]), StillRunning)
    else
      var t := FirstLoop(o, devs[..|devs| - 1]);
      var d := devs[|devs| - 1];
      if t.exit != StillRunning then t
      else if ExportFails(d.readable, d.exported) then Turn(t.world, Fatal)
      else Turn(AfterExport(o, t.world, d.busid, d.exported.file), StillRunning)
  }

  /** The hot-plug part of a turn.  A failed receive or export ends the forward loop for good; the
  reverse loop releases everything, or carries on. */
  function HotPlug(o: Options, w: World, r: Round, reverse: bool): Turn {
    match r.recv
    case RecvAgain => Turn(w, StillRunning)
    case RecvFailed => if reverse then Turn(RebindAll(w), Returned) else Turn(w, Fatal)
    case Received(message) =>
      var e := Uevent.Collect(Split(message, '\0'));
      if !IsHotPlug(e) || !o.selects(e) then Turn(w, StillRunning)
      else if ExportFails(r.readable, r.exported) then Turn(w, if reverse then StillRunning else Fatal)
      else Turn(AfterExport(o, w, Base(Lookup(e, "DEVPATH")), r.exported.file), StillRunning)
  }

  /** One turn of reverseLinger, poll having returned: a signal comes before a dead channel, and that
  before everything else. */
  function ReverseReady(o: Options, f: Files, w: World, r: Round, state: int -> bv16): Turn {
    if Signalled(state(f.signal)) then Turn(RebindAll(w), ProcessExit)
    else if Signalled(state(f.channel)) then Turn(RebindAll(w), Returned)
    else if o.vhub && Readable(state(f.uevents)) then HotPlug(o, Swept(w, state), r, true)
    else Turn(Swept(w, state), StillRunning)
  }

  function ReverseTurn(o: Options, f: Files, w: World, r: Round): Turn {
    match r.poll
    case Interrupted => Turn(w, StillRunning)
    case PollFailed => Turn(RebindAll(w), Returned)
    case Ready(state) => ReverseReady(o, f, w, r, state)
  }

  /** One turn of vhubLoop, poll having returned. */
  function VhubReady(o: Options, f: Files, w: World, r: Round, state: int -> bv16): Turn {
    if Broken(state(f.channel)) then Turn(w, HandOff)
    else if Readable(state(f.uevents)) then HotPlug(o, Swept(w, state), r, false)
    else Turn(Swept(w, state), StillRunning)
  }

  function VhubTurn(o: Options, f: Files, w: World, r: Round): Turn {
    match r.poll
    case Interrupted => Turn(w, StillRunning)
    case PollFailed => Turn(w, Fatal)
    case Ready(state) => VhubReady(o, f, w, r, state)
  }

  /** One turn of lingerLoop, which has sockets only. */
  function ChildTurn(w: World, r: Round): Turn {
    match r.poll
    case Interrupted => Turn(w, StillRunning)
    case PollFailed => Turn(w, Fatal)
    case Ready(state) => Turn(Swept(w, state), StillRunning)
  }

  function Reverse(o: Options, f: Files, w: World, rounds: seq<Round>): Turn {
    if rounds == [] then Turn(w, StillRunning)
    else
      var t := Reverse(o, f, w, rounds[..|rounds| - 1]);
      if t.exit != StillRunning then t else ReverseTurn(o, f, t.world, rounds[|rounds| - 1])
  }

  /** reverseLinger as a whole: without its pipe, or its uevent socket, it releases everything at once. */
  function ReverseSession(o: Options, f: Files, w: World, pipe: bool, ueventSocket: bool, rounds: seq<Round>): Turn {
    if !pipe || (o.vhub && !ueventSocket) then Turn(RebindAll(w), Returned) else Reverse(o, f, w, rounds)
  }

  function Vhub(o: Options, f: Files, w: World, rounds: seq<Round>): Turn {
    if rounds == [] then Turn(w, StillRunning)
    else
      var t := Vhub(o, f, w, rounds[..|rounds| - 1]);
      if t.exit != StillRunning then t else VhubTurn(o, f, t.world, rounds[|rounds| - 1])
  }

  function Child(w: World, rounds: seq<Round>): Turn {
    if rounds == [] then Turn(w, StillRunning)
    else
      var t := Child(w, rounds[..|rounds| - 1]);
      if t.exit != StillRunning || t.world.socks == [] then t else ChildTurn(t.world, rounds[|rounds| - 1])
  }

  // ----- the loops

  class Holder {
    var socks: seq<Sock>
    ghost var log: seq<Event>
    ghost var taken: seq<Sock>
    // what poll was last given
    ghost var polled: seq<PollFd>

    constructor (socks: seq<Sock>)
      ensures Now() == Start(socks) && polled == []
    {
      this.socks, log, taken, polled := socks, [], socks, [];
    }

    /** Some files, then the sockets, asked whether their peer has gone. */
    ghost predicate Polled(files: seq<PollFd>, socks: seq<Sock>)
      reads this
    {
      && |polled| == |files| + |socks|
      && (forall k :: 0 <= k < |files| ==> polled[k] == files[k])
      && forall i :: 0 <= i < |socks| ==> polled[|files| + i] == PollFd(socks[i].file, POLLRDHUP)
    }

    ghost function Now(): World
      reads this
    {
      World(socks, log, taken)
    }

    /** exporterDetach under xeval, so that its outcome does not matter; then the close. */
    method ReleaseOne(s: Sock)
      modifies `log
      ensures log == old(log) + Release(s)
    {
      log := log + [Detach(s.busid)];
      log := log + [Close(s.file)];
      assert Release(s) == [Detach(s.busid)] + [Close(s.file)];
    }

    method Rebind()
      modifies `log
      ensures Now() == RebindAll(old(Now()))
    {
      for i := 0 to |socks|
        invariant log == old(log) + ReleaseAll(socks[..i])
      {
        ReleaseNext(old(log), socks, i);
        ReleaseOne(socks[i]);
      }
      assert socks[..|socks|] == socks;
    }

    /** The poll set: some files, then one entry per socket. */
    method PollSet(files: seq<PollFd>) returns (pfds: seq<PollFd>)
      modifies `polled
      ensures polled == pfds && Polled(files, socks)
    {
      pfds := files;
      for i := 0 to |socks|
        invariant |pfds| == |files| + i
        invariant forall k :: 0 <= k < |files| ==> pfds[k] == files[k]
        invariant forall k :: 0 <= k < i ==> pfds[|files| + k] == PollFd(socks[k].file, POLLRDHUP)
      {
        pfds := pfds + [PollFd(socks[i].file, POLLRDHUP)];
      }
      polled := pfds;
    }

    /** The answers from base on belong to the sockets: those that hung up are released, the others
    kept, each in their order. */
    method Sweep(revents: seq<bv16>, base: nat, ghost state: int -> bv16)
      requires Tells(revents, base, socks, state)
      modifies `socks, `log
      ensures Now() == Swept(old(Now()), state)
    {
      var all := socks;
      var keep: seq<Sock> := [];
      ghost var hung: seq<Sock> := [];
      for i := 0 to |all|
        invariant keep == Alive(all[..i], state) && hung == Hung(all[..i], state)
        invariant log == old(log) + ReleaseAll(hung)
      {
        assert all[..i + 1][..i] == all[..i];
        if HungUp(revents[base + i]) {
          ReleaseOne(all[i]);
          ReleaseOneMore(hung, all[i]);
          hung := hung + [all[i]];
        } else {
          keep := keep + [all[i]];
        }
      }
      assert all[..|all|] == all;
      socks := keep;
    }

    /** newDev and exportOne: one more device is held, unless told not to linger. */
    method NewDev(o: Options, busid: string, readable: bool, exported: Export) returns (ok: bool)
      modifies `socks, `taken
      ensures ok == !ExportFails(readable, exported)
      ensures Now() == if ok then AfterExport(o, old(Now()), busid, exported.file) else old(Now())
    {
      ok := !ExportFails(readable, exported);
      if ok && !o.noLinger {
        var s := Sock(exported.file, busid);
        socks := socks + [s];
        taken := taken + [s];
      }
    }

    /** The first loop: hubs are left out, and the first failure ends it. */
    method ExportAll(o: Options, found: seq<Candidate>) returns (exit: Exit)
      requires Now() == Start([])
      modifies this
      ensures Turn(Now(), exit) == FirstLoop(o, Exportable(found))
    {
      exit := StillRunning;
      for i := 0 to |found|
        invariant exit == StillRunning && Turn(Now(), exit) == FirstLoop(o, Exportable(found[..i]))
      {
        ExportableNext(o, found, i);
        if found[i].hexClass != "09" {
          var d := found[i].device;
          var ok := NewDev(o, d.busid, d.readable, d.exported);
          if !ok {
            exit := Fatal;
            FailureInPrefix(o, found, i + 1);
            return;
          }
        }
      }
      assert found[..|found|] == found;
    }

    method TakeHotPlug(o: Options, r: Round, reverse: bool) returns (exit: Exit)
      modifies `socks, `log, `taken
      ensures Turn(Now(), exit) == HotPlug(o, old(Now()), r, reverse)
    {
      exit := StillRunning;
      match r.recv {
        case RecvAgain =>
        case RecvFailed =>
          if reverse {
            Rebind();
            exit := Returned;
          } else {
            exit := Fatal;
          }
        case Received(message) =>
          var e := Uevent.ParseUevent(message);
          if IsHotPlug(e) && o.selects(e) {
            var ok := NewDev(o, Base(Lookup(e, "DEVPATH")), r.readable, r.exported);
            if !ok && !reverse {
              exit := Fatal;
            }
          }
      }
    }

    /** One turn of reverseLinger, the poll set laid out as it is with and without --vhub. */
    method TakeReverseTurn(o: Options, f: Files, r: Round) returns (exit: Exit)
      modifies this
      ensures Turn(Now(), exit) == ReverseTurn(o, f, old(Now()), r)
      ensures Polled([PollFd(f.channel, POLLIN), PollFd(f.signal, POLLIN)]
                     + if o.vhub then [PollFd(f.uevents, POLLIN)] else [], old(socks))
    {
      var files := [PollFd(f.channel, POLLIN), PollFd(f.signal, POLLIN)];
      var ueIdx := -1;
      if o.vhub {
        ueIdx := |files|;
        files := files + [PollFd(f.uevents, POLLIN)];
      }
      var base := |files|;
      var pfds := PollSet(files);
      match r.poll {
        case Interrupted => exit := StillRunning;
        case PollFailed =>
          Rebind();
          exit := Returned;
        case Ready(state) =>
          PollTells(pfds, base, socks, state);
          exit := AnswerReverse(o, f, r, Revents(pfds, state), base, ueIdx, state);
      }
    }

    method AnswerReverse(o: Options, f: Files, r: Round, revents: seq<bv16>, base: nat, ueIdx: int,
                         ghost state: int -> bv16)
      returns (exit: Exit)
      requires Tells(revents, base, socks, state) && base >= 2
      requires revents[0] == state(f.channel) & Asked(POLLIN) && revents[1] == state(f.signal) & Asked(POLLIN)
      requires o.vhub ==> 0 <= ueIdx < base && revents[ueIdx] == state(f.uevents) & Asked(POLLIN)
      modifies `socks, `log, `taken
      ensures Turn(Now(), exit) == ReverseReady(o, f, old(Now()), r, state)
    {
      EnoughIsAsked(state(f.channel));
      EnoughIsAsked(state(f.signal));
      EnoughIsAsked(state(f.uevents));
      if Signalled(revents[1]) {
        Rebind();
        return ProcessExit;
      }
      if Signalled(revents[0]) {
        Rebind();
        return Returned;
      }
      Sweep(revents, base, state);
      exit := StillRunning;
      if o.vhub && Readable(revents[ueIdx]) {
        exit := TakeHotPlug(o, r, true);
      }
    }

    method ReverseLinger(o: Options, f: Files, pipe: bool, ueventSocket: bool, rounds: seq<Round>) returns (exit: Exit)
      modifies this
      ensures Turn(Now(), exit) == ReverseSession(o, f, old(Now()), pipe, ueventSocket, rounds)
    {
      if !pipe || (o.vhub && !ueventSocket) {
        Rebind();
        return Returned;
      }
      exit := StillRunning;
      for i := 0 to |rounds|
        invariant exit == StillRunning
        invariant Turn(Now(), exit) == Reverse(o, f, old(Now()), rounds[..i])
      {
        assert rounds[..i + 1][..i] == rounds[..i];
        exit := TakeReverseTurn(o, f, rounds[i]);
        if exit != StillRunning {
          ReverseExitIsFinal(o, f, old(Now()), rounds, i + 1);
          return;
        }
      }
      assert rounds[..|rounds|] == rounds;
    }

    /** One turn of vhubLoop. */
    method TakeVhubTurn(o: Options, f: Files, r: Round) returns (exit: Exit)
      modifies this
      ensures Turn(Now(), exit) == VhubTurn(o, f, old(Now()), r)
      ensures Polled([PollFd(f.channel, 0), PollFd(f.uevents, POLLIN)], old(socks))
    {
      var pfds := PollSet([PollFd(f.channel, 0), PollFd(f.uevents, POLLIN)]);
      match r.poll {
        case Interrupted => return StillRunning;
        case PollFailed => return Fatal;
        case Ready(state) =>
          var revents := Revents(pfds, state);
          EnoughIsAsked(state(f.channel));
          EnoughIsAsked(state(f.uevents));
          if Broken(revents[0]) {
            return HandOff;
          }
          var uevent := Readable(revents[1]);
          PollTells(pfds, 2, socks, state);
          Sweep(revents, 2, state);
          exit := StillRunning;
          if uevent {
            exit := TakeHotPlug(o, r, false);
          }
      }
    }

    method VhubLoop(o: Options, f: Files, rounds: seq<Round>) returns (exit: Exit)
      modifies this
      ensures Turn(Now(), exit) == Vhub(o, f, old(Now()), rounds)
    {
      exit := StillRunning;
      for i := 0 to |rounds|
        invariant exit == StillRunning
        invariant Turn(Now(), exit) == Vhub(o, f, old(Now()), rounds[..i])
      {
        assert rounds[..i + 1][..i] == rounds[..i];
        exit := TakeVhubTurn(o, f, rounds[i]);
        if exit != StillRunning {
          VhubExitIsFinal(o, f, old(Now()), rounds, i + 1);
          return;
        }
      }
      assert rounds[..|rounds|] == rounds;
    }

    method TakeChildTurn(r: Round) returns (exit: Exit)
      modifies this
      ensures Turn(Now(), exit) == ChildTurn(old(Now()), r)
      ensures Polled([], old(socks))
    {
      var pfds := PollSet([]);
      match r.poll {
        case Interrupted => exit := StillRunning;
        case PollFailed => exit := Fatal;
        case Ready(state) =>
          PollTells(pfds, 0, socks, state);
          Sweep(Revents(pfds, state), 0, state);
          exit := StillRunning;
      }
    }

    method LingerLoop(rounds: seq<Round>) returns (exit: Exit)
      modifies this
      ensures Turn(Now(), exit) == Child(old(Now()), rounds)
    {
      exit := StillRunning;
      var i := 0;
      while i < |rounds| && socks != [] && exit == StillRunning
        invariant 0 <= i <= |rounds|
        invariant Turn(Now(), exit) == Child(old(Now()), rounds[..i])
      {
        assert rounds[..i + 1][..i] == rounds[..i];
        exit := TakeChildTurn(rounds[i]);
        i := i + 1;
      }
      ChildExitIsFinal(old(Now()), rounds, i);
    }
  }

  lemma {:induction false} ExportablePrefix(found: seq<Candidate>, i: nat)
    requires i <= |found|
    ensures Exportable(found[..i]) <= Exportable(found)
  {
    if i < |found| {
      assert found[..|found| - 1][..i] == found[..i];
      ExportablePrefix(found[..|found| - 1], i);
    } else {
      assert found[..i] == found;
    }
  }

  /** What the next device that was found adds. */
  lemma ExportableNext(o: Options, found: seq<Candidate>, i: nat)
    requires i < |found|
    ensures var t, d := FirstLoop(o, Exportable(found[..i])), found[i].device;
            FirstLoop(o, Exportable(found[..i + 1])) ==
            if found[i].hexClass == "09" || t.exit != StillRunning then t
            else if ExportFails(d.readable, d.exported) then Turn(t.world, Fatal)
            else Turn(AfterExport(o, t.world, d.busid, d.exported.file), StillRunning)
  {
    assert found[..i + 1][..i] == found[..i];
    var before, d := Exportable(found[..i]), found[i].device;
    assert (before + [d])[..|before|] == before && before + [] == before;
  }

  lemma FailureInPrefix(o: Options, found: seq<Candidate>, i: nat)
    requires i <= |found| && FirstLoop(o, Exportable(found[..i])).exit != StillRunning
    ensures FirstLoop(o, Exportable(found)) == FirstLoop(o, Exportable(found[..i]))
  {
    var n := |Exportable(found[..i])|;
    ExportablePrefix(found, i);
    assert Exportable(found)[..n] == Exportable(found[..i]);
    FirstFailureIsFinal(o, Exportable(found), n);
  }

  lemma {:induction false} FirstFailureIsFinal(o: Options, devs: seq<First>, i: nat)
    requires i <= |devs| && FirstLoop(o, devs[..i]).exit != StillRunning
    ensures FirstLoop(o, devs) == FirstLoop(o, devs[..i])
  {
    if i < |devs| {
      assert devs[..|devs| - 1][..i] == devs[..i];
      FirstFailureIsFinal(o, devs[..|devs| - 1], i);
    } else {
      assert devs[..i] == devs;
    }
  }

  lemma {:induction false} ReverseExitIsFinal(o: Options, f: Files, w: World, rounds: seq<Round>, i: nat)
    requires i <= |rounds| && Reverse(o, f, w, rounds[..i]).exit != StillRunning
    ensures Reverse(o, f, w, rounds) == Reverse(o, f, w, rounds[..i])
  {
    if i < |rounds| {
      assert rounds[..|rounds| - 1][..i] == rounds[..i];
      ReverseExitIsFinal(o, f, w, rounds[..|rounds| - 1], i);
    } else {
      assert rounds[..i] == rounds;
    }
  }

  lemma {:induction false} VhubExitIsFinal(o: Options, f: Files, w: World, rounds: seq<Round>, i: nat)
    requires i <= |rounds| && Vhub(o, f, w, rounds[..i]).exit != StillRunning
    ensures Vhub(o, f, w, rounds) == Vhub(o, f, w, rounds[..i])
  {
    if i < |rounds| {
      assert rounds[..|rounds| - 1][..i] == rounds[..i];
      VhubExitIsFinal(o, f, w, rounds[..|rounds| - 1], i);
    } else {
      assert rounds[..i] == rounds;
    }
  }

  lemma {:induction false} ChildExitIsFinal(w: World, rounds: seq<Round>, i: nat)
    requires i <= |rounds|
    requires var t := Child(w, rounds[..i]); i == |rounds| || t.exit != StillRunning || t.world.socks == []
    ensures Child(w, rounds) == Child(w, rounds[..i])
  {
    if i < |rounds| {
      assert rounds[..|rounds| - 1][..i] == rounds[..i];
      ChildExitIsFinal(w, rounds[..|rounds| - 1], i);
    } else {
      assert rounds[..i] == rounds;
    }
  }
}
