/** Attaches and detaches in turn, each reading the table that the last one left. */
module VhciRuns {
  import opened Text
  import opened Announce
  import opened Vhci

  // What the importer asks of vhci: a port for a device, as it was announced, or the ports of some
  // busids back.  busid is what the importing kernel will call the device.  A write may be refused:
  // that of an attach, or one of a detach after some have gone through.
  datatype Op =
    | Plug(bus: nat, dev: nat, speed: string, sockfd: nat, busid: string, refused: bool)
    | DetachAll(args: seq<string>, through: nat)

  predicate GoodOp(op: Op) {
    op.Plug? ==> op.bus <= MAX_BUS && op.dev < 0x1_0000 && IsField(op.busid)
  }

  /** The kernel numbers the ports of a controller. */
  ghost predicate DistinctPorts(table: seq<Controller>) {
    forall c, i, d, j ::
      0 <= c < |table| && 0 <= i < |table[c].ports| && 0 <= d < |table| && 0 <= j < |table[d].ports|
      && table[c].dir == table[d].dir && table[c].ports[i].number == table[d].ports[j].number ==>
        c == d && i == j
  }

  // ----- what the kernel does on a write

  function PortAfterAttach(dir: string, p: Port, to: (string, int), op: Op): Port
    requires op.Plug? && GoodOp(op)
  {
    if (dir, p.number as int) == to then
      p.(status := VDEV_ST_USED, speed := SpeedCode(op.speed), devid := DevId(op.bus, op.dev),
         sockfd := op.sockfd, busid := op.busid)
    else p
  }

  function PortAfterDetach(dir: string, p: Port, writes: seq<Detach>): Port {
    if Detach(dir, p.number) in writes then
      p.(status := VDEV_ST_NULL, speed := 0, devid := 0, sockfd := 0, busid := "0-0")
    else p
  }

  function TableAfterAttach(table: seq<Controller>, to: (string, int), op: Op): seq<Controller>
    requires op.Plug? && GoodOp(op)
  {
    seq(|table|, c requires 0 <= c < |table| =>
      Controller(table[c].dir, seq(|table[c].ports|, i requires 0 <= i < |table[c].ports| =>
        PortAfterAttach(table[c].dir, table[c].ports[i], to, op))))
  }

  function TableAfterDetach(table: seq<Controller>, writes: seq<Detach>): seq<Controller> {
    seq(|table|, c requires 0 <= c < |table| =>
      Controller(table[c].dir, seq(|table[c].ports|, i requires 0 <= i < |table[c].ports| =>
        PortAfterDetach(table[c].dir, table[c].ports[i], writes))))
  }

  function FirstOf(writes: seq<Detach>, n: nat): seq<Detach> {
    if n < |writes| then writes[..n] else writes
  }

  /** One command, reading the files and writing to what it found there. */
  function Step(heading: string, table: seq<Controller>, op: Op): seq<Controller>
    requires GoodOp(op)
  {
    var status := ReadStatus(StatusFiles(heading, table));
    match op
    case Plug(_, _, speed, _, _, refused) =>
      if refused then table else
      (match FirstFree(status, HubFor(SpeedCode(speed)))
       case None => table
       case Some(to) => TableAfterAttach(table, to, op))
    case DetachAll(args, through) => TableAfterDetach(table, FirstOf(Matching(Used(status), args), through))
  }

  function Run(heading: string, table: seq<Controller>, ops: seq<Op>): seq<Controller>
    requires forall k :: 0 <= k < |ops| ==> GoodOp(ops[k])
    decreases ops
  {
    if ops == [] then table else Run(heading, Step(heading, table, ops[0]), ops[1..])
  }

  // ----- which ports a detach asks for

  predicate IsUsed(p: Port) {
    p.status == VDEV_ST_USED
  }

  predicate PortAskedFor(dir: string, p: Port, args: seq<string>, d: Detach) {
    IsUsed(p) && Wanted(args, p.busid) && d == Detach(dir, p.number)
  }

  lemma {:induction false} MatchingPorts(dir: string, ports: seq<Port>, args: seq<string>, d: Detach)
    ensures d in Matching(UsedPorts(dir, ports), args) <==>
            exists i :: 0 <= i < |ports| && PortAskedFor(dir, ports[i], args, d)
  {
    if ports != [] {
      var n := |ports| - 1;
      var front := ports[..n];
      MatchingPorts(dir, front, args, d);
      if IsUsed(ports[n]) {
        MatchingOneMore(UsedPorts(dir, front), (Detach(dir, ports[n].number), ports[n].busid), args);
      } else {
        assert UsedPorts(dir, ports) == UsedPorts(dir, front);
      }
      if i :| 0 <= i < |front| && PortAskedFor(dir, front[i], args, d) {
        assert PortAskedFor(dir, ports[i], args, d);
      }
      if i :| 0 <= i < |ports| && PortAskedFor(dir, ports[i], args, d) {
        if i < n {
          assert PortAskedFor(dir, front[i], args, d);
        }
      }
    }
  }

  lemma {:induction false} MatchingOfConcat(a: seq<(Detach, string)>, b: seq<(Detach, string)>, args: seq<string>)
    ensures Matching(a + b, args) == Matching(a, args) + Matching(b, args)
  {
    if b == [] {
      assert a + b == a;
    } else {
      assert (a + b)[..|a + b| - 1] == a + b[..|b| - 1];
      MatchingOfConcat(a, b[..|b| - 1], args);
    }
  }

  ghost predicate AsksFor(table: seq<Controller>, args: seq<string>, d: Detach, c: int, i: int) {
    0 <= c < |table| && 0 <= i < |table[c].ports| && PortAskedFor(table[c].dir, table[c].ports[i], args, d)
  }

  lemma AsksForOneMore(front: seq<Controller>, last: Controller, args: seq<string>, d: Detach)
    ensures (exists c, i :: AsksFor(front + [last], args, d, c, i)) <==>
            (exists c, i :: AsksFor(front, args, d, c, i))
            || exists i :: 0 <= i < |last.ports| && PortAskedFor(last.dir, last.ports[i], args, d)
  {
    var table := front + [last];
    if c, i :| AsksFor(front, args, d, c, i) {
      assert AsksFor(table, args, d, c, i);
    }
    if i :| 0 <= i < |last.ports| && PortAskedFor(last.dir, last.ports[i], args, d) {
      assert AsksFor(table, args, d, |front|, i);
    }
    if c, i :| AsksFor(table, args, d, c, i) {
      if c < |front| {
        assert AsksFor(front, args, d, c, i);
      }
    }
  }

  lemma {:induction false} MatchingTable(table: seq<Controller>, args: seq<string>, d: Detach)
    ensures d in Matching(UsedIn(table), args) <==> exists c, i :: AsksFor(table, args, d, c, i)
  {
    if table != [] {
      var n := |table| - 1;
      var front, last := table[..n], table[n];
      MatchingTable(front, args, d);
      MatchingPorts(last.dir, last.ports, args, d);
      MatchingOfConcat(UsedIn(front), UsedPorts(last.dir, last.ports), args);
      AsksForOneMore(front, last, args, d);
      assert table == front + [last];
    }
  }

  // ----- one command

  ghost predicate GoodTable(heading: string, table: seq<Controller>) {
    IsLine(heading) && IsTable(table) && DistinctPorts(table)
  }

  /** The same ports under the same numbers. */
  ghost predicate SameShape(table: seq<Controller>, after: seq<Controller>) {
    && |after| == |table|
    && (forall c :: 0 <= c < |table| ==> after[c].dir == table[c].dir && |after[c].ports| == |table[c].ports|)
    && forall c, i :: 0 <= c < |table| && 0 <= i < |table[c].ports| ==>
         after[c].ports[i].number == table[c].ports[i].number
  }

  lemma ShapeKeepsDistinct(table: seq<Controller>, after: seq<Controller>)
    requires SameShape(table, after) && DistinctPorts(table)
    ensures DistinctPorts(after)
  {
    forall c, i, d, j |
      0 <= c < |after| && 0 <= i < |after[c].ports| && 0 <= d < |after| && 0 <= j < |after[d].ports|
      && after[c].dir == after[d].dir && after[c].ports[i].number == after[d].ports[j].number
      ensures c == d && i == j
    {
      assert table[c].ports[i].number == table[d].ports[j].number;
    }
  }

  lemma AttachKeepsShape(table: seq<Controller>, to: (string, int), op: Op)
    requires op.Plug? && GoodOp(op) && IsTable(table)
    ensures SameShape(table, TableAfterAttach(table, to, op)) && IsTable(TableAfterAttach(table, to, op))
  {
    forall c, i | 0 <= c < |table| && 0 <= i < |table[c].ports|
      ensures IsPort(PortAfterAttach(table[c].dir, table[c].ports[i], to, op))
    {
      assert IsPort(table[c].ports[i]);
    }
  }

  lemma DetachKeepsShape(table: seq<Controller>, writes: seq<Detach>)
    requires IsTable(table)
    ensures SameShape(table, TableAfterDetach(table, writes)) && IsTable(TableAfterDetach(table, writes))
  {
    forall c, i | 0 <= c < |table| && 0 <= i < |table[c].ports|
      ensures IsPort(PortAfterDetach(table[c].dir, table[c].ports[i], writes))
    {
      assert IsPort(table[c].ports[i]);
    }
  }

  /** Shape and numbers of the ports never change. */
  lemma StepKeepsShape(heading: string, table: seq<Controller>, op: Op)
    requires GoodTable(heading, table) && GoodOp(op)
    ensures GoodTable(heading, Step(heading, table, op)) && SameShape(table, Step(heading, table, op))
  {
    var status := ReadStatus(StatusFiles(heading, table));
    match op {
      case Plug(_, _, speed, _, _, refused) =>
        var to := FirstFree(status, HubFor(SpeedCode(speed)));
        if !refused && to.Some? {
          AttachKeepsShape(table, to.value, op);
        }
      case DetachAll(args, through) =>
        DetachKeepsShape(table, FirstOf(Matching(Used(status), args), through));
    }
    ShapeKeepsDistinct(table, Step(heading, table, op));
  }

  /** Super speed needs the one kind of hub, any other speed the other. */
  function HubNeeded(speed: string): string {
    if speed in {"5000", "10000", "20000"} then "ss" else "hs"
  }

  lemma HubForSpeed(speed: string)
    ensures HubFor(SpeedCode(speed)) == HubNeeded(speed)
  {
  }

  /** The device in a port is the one announced with these numbers. */
  predicate Holds(p: Port, bus: nat, dev: nat) {
    IsUsed(p) && p.devid / 0x1_0000 == bus && p.devid % 0x1_0000 == dev
  }

  /** An attach that finds a port, and is not refused it, changes that one port, which was null and of the
  hub the speed needs, and the kernel can tell from it which device was announced; there is none
  exactly if no such port is null, and a port in use is never touched. */
  lemma AttachTakesOneFreePort(heading: string, table: seq<Controller>, op: Op) returns (c: nat, i: nat)
    requires GoodTable(heading, table) && op.Plug? && GoodOp(op)
    ensures c <= |table|
    ensures c == |table| ==> NoneFree(table, HubNeeded(op.speed))
    ensures c == |table| || op.refused ==> Step(heading, table, op) == table
    ensures c < |table| ==> i < |table[c].ports| && IsFree(table[c].ports[i], HubNeeded(op.speed))
    ensures c < |table| && !op.refused ==>
              && var after := Step(heading, table, op);
                 && |after| == |table|
                 && (forall b :: 0 <= b < |table| ==> |after[b].ports| == |table[b].ports|)
                 && Holds(after[c].ports[i], op.bus, op.dev) && after[c].ports[i].sockfd == op.sockfd
                 && after[c].ports[i].busid == op.busid && after[c].ports[i].speed == SpeedCode(op.speed)
                 && after[c].ports[i].status == 6 && after[c].ports[i].number == table[c].ports[i].number
                 && after[c].ports[i].hub == table[c].ports[i].hub
                 && forall b, j :: 0 <= b < |table| && 0 <= j < |table[b].ports| && (b, j) != (c, i) ==>
                      after[b].ports[j] == table[b].ports[j]
  {
    HubForSpeed(op.speed);
    c, i := PicksFirstFree(heading, table, HubNeeded(op.speed));
    if c == |table| {
      assert table[..c] == table;
    } else {
      DevIdSplits(op.bus, op.dev);
    }
  }

  /** The writes of a detach that go through. */
  function Freed(table: seq<Controller>, op: Op): seq<Detach>
    requires op.DetachAll?
  {
    FirstOf(Matching(UsedIn(table), op.args), op.through)
  }

  /** A detach frees exactly the used ports whose busids it names, or all of them for "all", as far as
  its writes go through; which is all of them if none is refused. */
  lemma {:induction false} DetachFreesWhatWasAskedFor(heading: string, table: seq<Controller>, op: Op, c: nat, i: nat)
    requires GoodTable(heading, table) && op.DetachAll?
    requires c < |table| && i < |table[c].ports|
    ensures var before, after := table[c].ports[i], Step(heading, table, op)[c].ports[i];
            var asked := IsUsed(before) && Wanted(op.args, before.busid);
            && (if Detach(table[c].dir, before.number) in Freed(table, op)
                then asked && after == before.(status := 4, speed := 0, devid := 0, sockfd := 0, busid := "0-0")
                else after == before)
            && (op.through >= |Matching(UsedIn(table), op.args)| && asked ==>
                  Detach(table[c].dir, before.number) in Freed(table, op))
  {
    SeesUsedPorts(heading, table);
    var d := Detach(table[c].dir, table[c].ports[i].number);
    MatchingTable(table, op.args, d);
    if d in Matching(UsedIn(table), op.args) {
      var c', i' :| AsksFor(table, op.args, d, c', i');
      assert c' == c && i' == i;
    } else {
      assert !AsksFor(table, op.args, d, c, i);
    }
  }

  // ----- whole runs

  ghost predicate AsksBack(op: Op, busid: string) {
    op.DetachAll? && Wanted(op.args, busid)
  }

  /** Once attached, a device keeps its port, device id and all, through any number of commands that
  do not ask for it back. */
  lemma {:induction false} HeldUntilAskedBack(heading: string, table: seq<Controller>, ops: seq<Op>, c: nat, i: nat)
    requires GoodTable(heading, table) && forall k :: 0 <= k < |ops| ==> GoodOp(ops[k])
    requires c < |table| && i < |table[c].ports| && IsUsed(table[c].ports[i])
    requires forall k :: 0 <= k < |ops| ==> !AsksBack(ops[k], table[c].ports[i].busid)
    ensures var after := Run(heading, table, ops);
            c < |after| && i < |after[c].ports| && after[c].ports[i] == table[c].ports[i]
    decreases ops
  {
    if ops != [] {
      StepKeepsShape(heading, table, ops[0]);
      var next := Step(heading, table, ops[0]);
      assert GoodOp(ops[0]) && !AsksBack(ops[0], table[c].ports[i].busid);
      if ops[0].Plug? {
        var b, j := AttachTakesOneFreePort(heading, table, ops[0]);
        assert next[c].ports[i] == table[c].ports[i];
      } else {
        DetachFreesWhatWasAskedFor(heading, table, ops[0], c, i);
      }
      forall k | 0 <= k < |ops[1..]|
        ensures GoodOp(ops[1..][k]) && !AsksBack(ops[1..][k], next[c].ports[i].busid)
      {
        assert ops[1..][k] == ops[k + 1];
      }
      HeldUntilAskedBack(heading, next, ops[1..], c, i);
    }
  }
}
