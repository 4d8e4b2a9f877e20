/** When the loops end, and that until then they release nothing but what hung up. */
module Exits {
  import opened Text
  import opened Linger
  import opened Conservation
  import Uevent

  // ----- reverseLinger

  /** A signal, whatever else poll reports. */
  predicate EndsBySignal(f: Files, r: Round) {
    r.poll.Ready? && Signalled(r.poll.state(f.signal))
  }

  predicate EndsReverse(o: Options, f: Files, r: Round) {
    || r.poll.PollFailed?
    || EndsBySignal(f, r)
    || (r.poll.Ready? && Signalled(r.poll.state(f.channel)))
    || (r.poll.Ready? && o.vhub && Readable(r.poll.state(f.uevents)) && r.recv.RecvFailed?)
  }

  ghost predicate NoneEndsReverse(o: Options, f: Files, rounds: seq<Round>) {
    forall k :: 0 <= k < |rounds| ==> !EndsReverse(o, f, rounds[k])
  }

  /** The first round that ends the loop is one with a signal. */
  ghost predicate ReverseEndsBySignal(o: Options, f: Files, rounds: seq<Round>) {
    exists k :: 0 <= k < |rounds| && EndsBySignal(f, rounds[k]) && NoneEndsReverse(o, f, rounds[..k])
  }

  lemma {:induction false} OneMoreReverse(o: Options, f: Files, rounds: seq<Round>, r: Round)
    ensures NoneEndsReverse(o, f, rounds + [r]) <==> NoneEndsReverse(o, f, rounds) && !EndsReverse(o, f, r)
    ensures ReverseEndsBySignal(o, f, rounds + [r]) <==>
            ReverseEndsBySignal(o, f, rounds) || (NoneEndsReverse(o, f, rounds) && EndsBySignal(f, r))
  {
    var all, n := rounds + [r], |rounds|;
    assert all[n] == r && all[..n] == rounds;
    assert forall k :: 0 <= k < n ==> all[k] == rounds[k] && all[..k] == rounds[..k];
  }

  lemma ReverseTurnEnds(o: Options, f: Files, w: World, r: Round)
    ensures ReverseTurn(o, f, w, r).exit ==
            if EndsBySignal(f, r) then ProcessExit else if EndsReverse(o, f, r) then Returned else StillRunning
  {
  }

  /** reverseLinger goes on as long as poll is answered or interrupted, no signal comes, the channel
  lives and - with --vhub - the uevent socket can be read; it leaves the process exactly if what ends
  it is a signal, and returns otherwise. */
  lemma {:induction false} ReverseEndsExactlyWhen(o: Options, f: Files, w: World, rounds: seq<Round>)
    ensures Reverse(o, f, w, rounds).exit ==
            if NoneEndsReverse(o, f, rounds) then StillRunning
            else if ReverseEndsBySignal(o, f, rounds) then ProcessExit
            else Returned
  {
    if rounds != [] {
      var n := |rounds| - 1;
      var before := rounds[..n];
      ReverseEndsExactlyWhen(o, f, w, before);
      NotBoth(o, f, before);
      assert rounds == before + [rounds[n]];
      OneMoreReverse(o, f, before, rounds[n]);
      ReverseTurnEnds(o, f, Reverse(o, f, w, before).world, rounds[n]);
    }
  }

  lemma {:induction false} NotBoth(o: Options, f: Files, rounds: seq<Round>)
    ensures !(NoneEndsReverse(o, f, rounds) && ReverseEndsBySignal(o, f, rounds))
  {
  }

  lemma SweepKeeps(w: World, state: int -> bv16, s: Sock)
    requires s in w.socks && !HungUp(state(s.file))
    ensures s in Swept(w, state).socks
  {
    AliveExactly(w.socks, state, s);
  }

  lemma HotPlugKeeps(o: Options, w: World, r: Round, reverse: bool, s: Sock)
    requires s in w.socks
    ensures s in HotPlug(o, w, r, reverse).world.socks
  {
  }

  lemma ReverseTurnKeeps(o: Options, f: Files, w: World, r: Round, s: Sock)
    requires s in w.socks && (r.poll.Ready? ==> !HungUp(r.poll.state(s.file)))
    requires ReverseTurn(o, f, w, r).exit == StillRunning
    ensures s in ReverseTurn(o, f, w, r).world.socks
  {
    if r.poll.Ready? {
      var state := r.poll.state;
      SweepKeeps(w, state, s);
      HotPlugKeeps(o, Swept(w, state), r, true, s);
    }
  }

  /** No connection is let go while it lives: as long as the loop runs, a socket that has not hung up is
  held. */
  lemma {:induction false} ReverseKeepsWhatLives(o: Options, f: Files, w: World, rounds: seq<Round>, s: Sock)
    requires s in w.socks && !HangsUp(rounds, s.file) && Reverse(o, f, w, rounds).exit == StillRunning
    ensures s in Reverse(o, f, w, rounds).world.socks
  {
    if rounds != [] {
      var n := |rounds| - 1;
      assert rounds == rounds[..n] + [rounds[n]];
      HangsUpLater(rounds[..n], rounds[n], s.file);
      ReverseKeepsWhatLives(o, f, w, rounds[..n], s);
      ReverseTurnKeeps(o, f, Reverse(o, f, w, rounds[..n]).world, rounds[n], s);
    }
  }

  // ----- vhubLoop

  predicate EndsByChannel(f: Files, r: Round) {
    r.poll.Ready? && Broken(r.poll.state(f.channel))
  }

  /** A uevent that makes for an export which fails. */
  predicate ExportGoesWrong(o: Options, r: Round) {
    && r.recv.Received? && ExportFails(r.readable, r.exported)
    && var e := Uevent.Collect(Split(r.recv.message, '\0'));
       IsHotPlug(e) && o.selects(e)
  }

  predicate EndsVhub(o: Options, f: Files, r: Round) {
    || r.poll.PollFailed?
    || EndsByChannel(f, r)
    || (r.poll.Ready? && Readable(r.poll.state(f.uevents)) && (r.recv.RecvFailed? || ExportGoesWrong(o, r)))
  }

  ghost predicate NoneEndsVhub(o: Options, f: Files, rounds: seq<Round>) {
    forall k :: 0 <= k < |rounds| ==> !EndsVhub(o, f, rounds[k])
  }

  /** The first round that ends the loop is one with a dead channel. */
  ghost predicate VhubEndsByChannel(o: Options, f: Files, rounds: seq<Round>) {
    exists k :: 0 <= k < |rounds| && EndsByChannel(f, rounds[k]) && NoneEndsVhub(o, f, rounds[..k])
  }

  lemma {:induction false} OneMoreVhub(o: Options, f: Files, rounds: seq<Round>, r: Round)
    ensures NoneEndsVhub(o, f, rounds + [r]) <==> NoneEndsVhub(o, f, rounds) && !EndsVhub(o, f, r)
    ensures VhubEndsByChannel(o, f, rounds + [r]) <==>
            VhubEndsByChannel(o, f, rounds) || (NoneEndsVhub(o, f, rounds) && EndsByChannel(f, r))
  {
    var all, n := rounds + [r], |rounds|;
    assert all[n] == r && all[..n] == rounds;
    assert forall k :: 0 <= k < n ==> all[k] == rounds[k] && all[..k] == rounds[..k];
  }

  lemma VhubTurnEnds(o: Options, f: Files, w: World, r: Round)
    ensures VhubTurn(o, f, w, r).exit ==
            if EndsByChannel(f, r) then HandOff else if EndsVhub(o, f, r) then Fatal else StillRunning
  {
  }

  /** vhubLoop hands over exactly if what ends it is the dead channel - which comes before everything
  else that poll reports - and dies of anything else that ends it. */
  lemma {:induction false} VhubEndsExactlyWhen(o: Options, f: Files, w: World, rounds: seq<Round>)
    ensures Vhub(o, f, w, rounds).exit ==
            if NoneEndsVhub(o, f, rounds) then StillRunning
            else if VhubEndsByChannel(o, f, rounds) then HandOff
            else Fatal
  {
    if rounds != [] {
      var n := |rounds| - 1;
      var before := rounds[..n];
      VhubEndsExactlyWhen(o, f, w, before);
      NotBothVhub(o, f, before);
      assert rounds == before + [rounds[n]];
      OneMoreVhub(o, f, before, rounds[n]);
      VhubTurnEnds(o, f, Vhub(o, f, w, before).world, rounds[n]);
    }
  }

  lemma {:induction false} NotBothVhub(o: Options, f: Files, rounds: seq<Round>)
    ensures !(NoneEndsVhub(o, f, rounds) && VhubEndsByChannel(o, f, rounds))
  {
  }

  lemma VhubTurnKeeps(o: Options, f: Files, w: World, r: Round, s: Sock)
    requires s in w.socks && (r.poll.Ready? ==> !HungUp(r.poll.state(s.file)))
    ensures s in VhubTurn(o, f, w, r).world.socks
  {
    if r.poll.Ready? {
      var state := r.poll.state;
      SweepKeeps(w, state, s);
      HotPlugKeeps(o, Swept(w, state), r, false, s);
    }
  }

  /** What has not hung up is held, and is among what is handed over. */
  lemma {:induction false} VhubKeepsWhatLives(o: Options, f: Files, w: World, rounds: seq<Round>, s: Sock)
    requires s in w.socks && !HangsUp(rounds, s.file)
    ensures s in Vhub(o, f, w, rounds).world.socks
  {
    if rounds != [] {
      var n := |rounds| - 1;
      assert rounds == rounds[..n] + [rounds[n]];
      HangsUpLater(rounds[..n], rounds[n], s.file);
      VhubKeepsWhatLives(o, f, w, rounds[..n], s);
      VhubTurnKeeps(o, f, Vhub(o, f, w, rounds[..n]).world, rounds[n], s);
    }
  }
}
