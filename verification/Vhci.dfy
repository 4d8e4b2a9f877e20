/** The vhci port table of the importing host, read and written through text files. */
module Vhci {
  import opened Text
  import opened Announce

  const VDEV_ST_NULL := 4
  const VDEV_ST_USED := 6

  const SPEED_LOW := 1
  const SPEED_FULL := 2
  const SPEED_HIGH := 3
  const SPEED_SUPER := 5
  const SPEED_SUPER_PLUS := 6

  function SpeedCode(s: string): nat {
    if s == "1.5" then SPEED_LOW
    else if s == "12" then SPEED_FULL
    else if s == "480" then SPEED_HIGH
    else if s == "5000" then SPEED_SUPER
    else if s == "10000" || s == "20000" then SPEED_SUPER_PLUS
    else SPEED_HIGH
  }

  function HubFor(speed: nat): string {
    if speed >= SPEED_SUPER then "ss" else "hs"
  }

  /** The speed attribute that sysfs shows for a device of that speed. */
  function SpeedText(speed: nat): string {
    if speed == SPEED_LOW then "1.5"
    else if speed == SPEED_FULL then "12"
    else if speed == SPEED_HIGH then "480"
    else if speed == SPEED_SUPER then "5000"
    else "10000"
  }

  /** The code that is written to vhci is the speed the device had, and a super-speed hub is asked for
  exactly if that is one of the two super speeds. */
  lemma SpeedRoundTrip(speed: nat)
    requires speed in {SPEED_LOW, SPEED_FULL, SPEED_HIGH, SPEED_SUPER, SPEED_SUPER_PLUS}
    ensures SpeedCode(SpeedText(speed)) == speed
    ensures HubFor(SpeedCode(SpeedText(speed))) == "ss" <==> speed == SPEED_SUPER || speed == SPEED_SUPER_PLUS
  {
    assert "1.5" != "12" && "hs"[0] != "ss"[0];
  }

  /** The codes are those of linux/usb/ch9.h; a speed that is not known counts as high. */
  lemma SpeedCodes(s: string)
    ensures SpeedCode("1.5") == 1 && SpeedCode("12") == 2 && SpeedCode("480") == 3
    ensures SpeedCode("5000") == 5 && SpeedCode("10000") == 6 && SpeedCode("20000") == 6
    ensures s !in {"1.5", "12", "480", "5000", "10000", "20000"} ==> SpeedCode(s) == 3
    ensures SpeedText(1) == "1.5" && SpeedText(2) == "12" && SpeedText(3) == "480"
    ensures SpeedText(5) == "5000" && SpeedText(6) == "10000"
    ensures forall speed :: HubFor(speed) == if speed >= 5 then "ss" else "hs"
  {
    assert |"480"| == 3 && |"1.5"| == 3 && "480"[0] == '4' && "1.5"[0] == '1' && |"12"| == 2;
    assert |"5000"| == 4 && |"10000"| == 5 && |"20000"| == 5 && "10000"[0] == '1' && "20000"[0] == '2';
  }

  // ----- what the program reads

  datatype StatusFile = StatusFile(dir: string, contents: string)

  function StatusLines(contents: string): seq<string> {
    var lines := Split(TrimRight(contents), '\n');
    if |lines| <= 1 then [] else lines[1..]
  }

  // What the program looks at in a line; a missing field is never looked at.
  datatype Row = Row(size: nat, hub: string, port: int, sta: int, busid: string)

  function Field(fl: seq<string>, i: nat): string {
    if i < |fl| then fl[i] else ""
  }

  function ParseRow(line: string): Row {
    var fl := Fields(line);
    Row(|fl|, Field(fl, 0), Atoi(Field(fl, 1)), Atoi(Field(fl, 2)), Field(fl, 6))
  }

  function ParseRows(lines: seq<string>): seq<Row> {
    seq(|lines|, i requires 0 <= i < |lines| => ParseRow(lines[i]))
  }

  datatype Status = Status(dir: string, rows: seq<Row>)

  function ReadStatus(files: seq<StatusFile>): seq<Status> {
    seq(|files|, i requires 0 <= i < |files| => Status(files[i].dir, ParseRows(StatusLines(files[i].contents))))
  }

  // ----- allocation

  predicate IsFreeRow(row: Row, hub: string) {
    row.size >= 3 && row.sta == VDEV_ST_NULL && row.hub == hub
  }

  function FirstFreeRow(rows: seq<Row>, hub: string): Option<int> {
    if rows == [] then None
    else if IsFreeRow(rows[0], hub) then Some(rows[0].port)
    else FirstFreeRow(rows[1..], hub)
  }

  function FirstFree(status: seq<Status>, hub: string): Option<(string, int)> {
    if status == [] then None
    else
      match FirstFreeRow(status[0].rows, hub)
      case Some(port) => Some((status[0].dir, port))
      case None => FirstFree(status[1..], hub)
  }

  method FindVhciAndPort(files: seq<StatusFile>, speed: nat) returns (r: Option<(string, int)>)
    ensures r == FirstFree(ReadStatus(files), HubFor(speed))
  {
    var hub := HubFor(speed);
    var status := ReadStatus(files);
    for i := 0 to |status|
      invariant FirstFree(status[i..], hub) == FirstFree(status, hub)
    {
      assert status[i..][0] == status[i] && status[i..][1..] == status[i + 1..];
      var rows := status[i].rows;
      for j := 0 to |rows|
        invariant FirstFreeRow(rows[j..], hub) == FirstFreeRow(rows, hub)
      {
        assert rows[j..][0] == rows[j] && rows[j..][1..] == rows[j + 1..];
        if IsFreeRow(rows[j], hub) {
          return Some((status[i].dir, rows[j].port));
        }
      }
    }
    r := None;
  }

  // ----- detaching

  // A write to dir/detach.
  datatype Detach = Detach(dir: string, port: int)

  predicate IsUsedRow(row: Row) {
    row.size >= 7 && row.sta == VDEV_ST_USED
  }

  predicate Wanted(args: seq<string>, busid: string) {
    "all" in args || busid in args
  }

  function UsedRow(dir: string, row: Row): seq<(Detach, string)> {
    if IsUsedRow(row) then [(Detach(dir, row.port), row.busid)] else []
  }

  /** The used ports of a file, with their busids. */
  function UsedRows(dir: string, rows: seq<Row>): seq<(Detach, string)> {
    if rows == [] then [] else UsedRows(dir, rows[..|rows| - 1]) + UsedRow(dir, rows[|rows| - 1])
  }

  /** The used ports of all files. */
  function Used(status: seq<Status>): seq<(Detach, string)> {
    if status == [] then []
    else Used(status[..|status| - 1]) + UsedRows(status[|status| - 1].dir, status[|status| - 1].rows)
  }

  function Matching(used: seq<(Detach, string)>, args: seq<string>): seq<Detach> {
    if used == [] then []
    else
      var u := used[|used| - 1];
      Matching(used[..|used| - 1], args) + if Wanted(args, u.1) then [u.0] else []
  }

  lemma MatchingOneMore(used: seq<(Detach, string)>, u: (Detach, string), args: seq<string>)
    ensures Matching(used + [u], args) == Matching(used, args) + if Wanted(args, u.1) then [u.0] else []
  {
    assert (used + [u])[..|used|] == used;
  }

  /** "all" asks for every port. */
  lemma {:induction false} AllAsksForAll(used: seq<(Detach, string)>, args: seq<string>)
    requires "all" in args
    ensures Matching(used, args) == seq(|used|, i requires 0 <= i < |used| => used[i].0)
  {
    if used != [] {
      AllAsksForAll(used[..|used| - 1], args);
    }
  }

  /** Otherwise the ports are asked for by their busids. */
  lemma {:induction false} AsksByBusid(used: seq<(Detach, string)>, args: seq<string>, d: Detach)
    requires "all" !in args
    ensures d in Matching(used, args) <==> exists u :: u in used && u.0 == d && u.1 in args
  {
    if used != [] {
      var n := |used| - 1;
      AsksByBusid(used[..n], args, d);
      assert used == used[..n] + [used[n]];
    }
  }

  lemma {:induction false} MatchingOfPrefix(a: seq<(Detach, string)>, b: seq<(Detach, string)>, args: seq<string>)
    requires a <= b
    ensures Matching(a, args) <= Matching(b, args)
  {
    if a != b {
      MatchingOfPrefix(a, b[..|b| - 1], args);
    }
  }

  lemma UsedOneMore(dir: string, rows: seq<Row>, i: nat, before: seq<(Detach, string)>)
    requires i < |rows|
    ensures before + UsedRows(dir, rows[..i + 1]) == before + UsedRows(dir, rows[..i]) + UsedRow(dir, rows[i])
  {
    assert rows[..i + 1][..i] == rows[..i];
  }

  lemma {:induction false} UsedOfPrefix(dir: string, rows: seq<Row>, i: nat)
    requires i <= |rows|
    ensures UsedRows(dir, rows[..i]) <= UsedRows(dir, rows)
  {
    if i < |rows| {
      assert rows[..|rows| - 1][..i] == rows[..i];
      UsedOfPrefix(dir, rows[..|rows| - 1], i);
    } else {
      assert rows[..i] == rows;
    }
  }

  lemma {:induction false} UsedOfFiles(status: seq<Status>, i: nat)
    requires i <= |status|
    ensures Used(status[..i]) <= Used(status)
  {
    if i < |status| {
      assert status[..|status| - 1][..i] == status[..i];
      UsedOfFiles(status[..|status| - 1], i);
    } else {
      assert status[..i] == status;
    }
  }

  datatype DetachResult = Detached | WriteError | NothingAttached | NothingMatched

  ghost predicate AllWentThrough(n: nat, failing: set<nat>) {
    forall k :: 0 <= k < n ==> k !in failing
  }

  /** One row of a status file.  A port that is used is appended to attached; if it was asked for, it
  is written. */
  method DetachRow(dir: string, row: Row, args: seq<string>, failing: set<nat>,
                   attached: seq<(Detach, string)>, done: seq<Detach>)
    returns (attached': seq<(Detach, string)>, writes: seq<Detach>, failed: bool)
    requires done == Matching(attached, args) && AllWentThrough(|done|, failing)
    ensures attached' == attached + UsedRow(dir, row) && writes == Matching(attached', args)
    ensures !failed ==> AllWentThrough(|writes|, failing)
    ensures failed ==> writes != [] && |writes| - 1 in failing && AllWentThrough(|writes| - 1, failing)
  {
    attached', writes, failed := attached, done, false;
    if IsUsedRow(row) {
      var used := (Detach(dir, row.port), row.busid);
      MatchingOneMore(attached, used, args);
      attached' := attached + [used];
      if Wanted(args, row.busid) {
        writes := done + [used.0];
        failed := |done| in failing;
      }
    }
  }

  /** The rows of one status file, until a write fails. */
  method DetachFrom(dir: string, rows: seq<Row>, args: seq<string>, failing: set<nat>,
                    attached: seq<(Detach, string)>, done: seq<Detach>)
    returns (attached': seq<(Detach, string)>, writes: seq<Detach>, failed: bool)
    requires done == Matching(attached, args) && AllWentThrough(|done|, failing)
    ensures attached' <= attached + UsedRows(dir, rows) && writes == Matching(attached', args)
    ensures !failed ==> attached' == attached + UsedRows(dir, rows) && AllWentThrough(|writes|, failing)
    ensures failed ==> writes != [] && |writes| - 1 in failing && AllWentThrough(|writes| - 1, failing)
  {
    attached', writes, failed := attached, done, false;
    for i := 0 to |rows|
      invariant attached' == attached + UsedRows(dir, rows[..i])
      invariant writes == Matching(attached', args) && AllWentThrough(|writes|, failing)
    {
      UsedOneMore(dir, rows, i, attached);
      attached', writes, failed := DetachRow(dir, rows[i], args, failing, attached', writes);
      if failed {
        UsedOfPrefix(dir, rows, i + 1);
        return;
      }
    }
    assert rows[..|rows|] == rows;
  }

  /** Up to the first write that fails, the writes are exactly the used ports that were asked for, in
  the order of the files; and the result says which of the three ways it ended. */
  ghost predicate IsDetach(used: seq<(Detach, string)>, args: seq<string>, failing: set<nat>,
                           writes: seq<Detach>, r: DetachResult)
  {
    && (r != WriteError ==> writes == Matching(used, args) && AllWentThrough(|writes|, failing))
    && (r == WriteError ==>
          writes <= Matching(used, args) && writes != []
          && |writes| - 1 in failing && AllWentThrough(|writes| - 1, failing))
    && (r == NothingAttached <==> used == [])
    && (r == NothingMatched <==> used != [] && Matching(used, args) == [])
  }

  /** So what is written, and the answer, follow from the used ports, the arguments and which write is the
  first to fail. */
  lemma DetachExactly(used: seq<(Detach, string)>, args: seq<string>, failing: set<nat>, writes: seq<Detach>,
                      r: DetachResult, k: nat)
    requires IsDetach(used, args, failing, writes, r)
    ensures var all := Matching(used, args);
            && ((forall j :: 0 <= j < |all| ==> j !in failing) ==>
                && writes == all
                && r == if used == [] then NothingAttached else if all == [] then NothingMatched else Detached)
            && (k < |all| && k in failing && (forall j :: 0 <= j < k ==> j !in failing) ==>
                writes == all[..k + 1] && r == WriteError)
  {
    var all := Matching(used, args);
    if k < |all| && k in failing && forall j :: 0 <= j < k ==> j !in failing {
      assert r == WriteError;
      assert |writes| - 1 in failing && |writes| - 1 >= k;
      assert |writes| - 1 == k by {
        if k < |writes| - 1 { assert false; }
      }
      assert writes == all[..|writes|];
    }
  }

  method DetachRows(status: seq<Status>, args: seq<string>, failing: set<nat>)
    returns (attached: seq<(Detach, string)>, writes: seq<Detach>, failed: bool)
    ensures attached <= Used(status) && writes == Matching(attached, args)
    ensures !failed ==> attached == Used(status) && AllWentThrough(|writes|, failing)
    ensures failed ==> writes != [] && |writes| - 1 in failing && AllWentThrough(|writes| - 1, failing)
  {
    attached, writes, failed := [], [], false;
    for i := 0 to |status|
      invariant attached == Used(status[..i])
      invariant writes == Matching(attached, args) && AllWentThrough(|writes|, failing)
    {
      assert status[..i + 1][..i] == status[..i];
      attached, writes, failed := DetachFrom(status[i].dir, status[i].rows, args, failing, attached, writes);
      if failed {
        UsedOfFiles(status, i + 1);
        return;
      }
    }
    assert status[..|status|] == status;
  }

  /** importerDetach, where the writes numbered in failing do not go through. */
  method ImporterDetach(files: seq<StatusFile>, args: seq<string>, failing: set<nat>)
    returns (writes: seq<Detach>, r: DetachResult)
    ensures IsDetach(Used(ReadStatus(files)), args, failing, writes, r)
  {
    var attached, failed;
    attached, writes, failed := DetachRows(ReadStatus(files), args, failing);
    MatchingOfPrefix(attached, Used(ReadStatus(files)), args);
    r := if failed then WriteError
         else if attached == [] then NothingAttached
         else if writes == [] then NothingMatched
         else Detached;
  }

  // ----- what the kernel keeps, and shows

  datatype Port = Port(hub: string, number: nat, status: nat, speed: nat, devid: nat, sockfd: nat, busid: string)

  datatype Controller = Controller(dir: string, ports: seq<Port>)

  predicate IsPort(p: Port) {
    (p.hub == "hs" || p.hub == "ss") && p.number <= MAX_INT && p.status <= MAX_INT && IsField(p.busid)
  }

  predicate IsTable(table: seq<Controller>) {
    forall c, i :: 0 <= c < |table| && 0 <= i < |table[c].ports| ==> IsPort(table[c].ports[i])
  }

  /** Widths do not matter to the reader. */
  function PortTexts(p: Port): seq<string> {
    [Padded(p.number, 4), Padded(p.status, 2), Padded(p.speed, 2), Padded(p.devid, 4), Padded(p.sockfd, 5), p.busid]
  }

  /** hub, port, status, speed, device id, socket, busid. */
  function PortLine(p: Port): string {
    p.hub + ("  " + Join(PortTexts(p), " "))
  }

  function PortLines(ports: seq<Port>): seq<string> {
    seq(|ports|, i requires 0 <= i < |ports| => PortLine(ports[i]))
  }

  /** A heading, which the reader drops, and a line per port. */
  function Contents(heading: string, ports: seq<Port>): string {
    Join([heading] + PortLines(ports), "\n") + "\n"
  }

  function StatusFiles(heading: string, table: seq<Controller>): seq<StatusFile> {
    seq(|table|, c requires 0 <= c < |table| => StatusFile(table[c].dir, Contents(heading, table[c].ports)))
  }

  // ----- reading what the kernel shows

  lemma {:induction false} FieldsAfterHub(hub: string, f: seq<string>)
    requires IsField(hub) && forall i :: 0 <= i < |f| ==> IsField(f[i])
    ensures Fields(hub + ("  " + Join(f, " "))) == [hub] + f
  {
    var s := Join(f, " ");
    FieldsOfJoinThen([hub], "  " + s);
    assert Join([hub], " ") == hub;
    assert ("  " + s)[1..] == " " + s && (" " + s)[1..] == s;
    FieldsOfJoin(f);
  }

  lemma PortTextsAreFields(p: Port)
    requires IsPort(p)
    ensures forall i :: 0 <= i < 6 ==> IsField(PortTexts(p)[i])
  {
    PaddedIsField(p.number, 4);
    PaddedIsField(p.status, 2);
    PaddedIsField(p.speed, 2);
    PaddedIsField(p.devid, 4);
    PaddedIsField(p.sockfd, 5);
  }

  function RowOf(p: Port): Row {
    Row(7, p.hub, p.number, p.status, p.busid)
  }

  lemma RowOfPortLine(p: Port)
    requires IsPort(p)
    ensures ParseRow(PortLine(p)) == RowOf(p)
  {
    PortTextsAreFields(p);
    FieldsAfterHub(p.hub, PortTexts(p));
    AtoiOfPadded(p.number, 4);
    AtoiOfPadded(p.status, 2);
  }

  predicate IsLine(l: string) {
    l != "" && !IsBlank(l[|l| - 1]) && '\n' !in l
  }

  lemma {:induction false} NoNewlineInJoin(fields: seq<string>)
    requires fields != [] && forall i :: 0 <= i < |fields| ==> IsField(fields[i])
    ensures IsLine(Join(fields, " "))
  {
    var f := fields[0];
    assert !IsSpace(f[|f| - 1]) && '\n' !in f;
    if |fields| > 1 {
      NoNewlineInJoin(fields[1..]);
    }
  }

  lemma PortLineIsLine(p: Port)
    requires IsPort(p)
    ensures IsLine(PortLine(p))
  {
    PortTextsAreFields(p);
    NoNewlineInJoin(PortTexts(p));
  }

  lemma {:induction false} JoinEndsWell(lines: seq<string>)
    requires lines != [] && forall i :: 0 <= i < |lines| ==> IsLine(lines[i])
    ensures TrimRight(Join(lines, "\n")) == Join(lines, "\n")
    ensures var s := Join(lines, "\n"); s != "" && !IsBlank(s[|s| - 1])
  {
    if |lines| > 1 {
      JoinEndsWell(lines[1..]);
    }
  }

  lemma OneMoreLine(first: string, lines: seq<string>)
    requires IsLine(first) && forall i :: 0 <= i < |lines| ==> IsLine(lines[i])
    ensures forall i :: 0 <= i < |[first] + lines| ==> IsLine(([first] + lines)[i])
  {
  }

  lemma {:induction false} StatusLinesOf(heading: string, lines: seq<string>)
    requires IsLine(heading) && forall i :: 0 <= i < |lines| ==> IsLine(lines[i])
    ensures StatusLines(Join([heading] + lines, "\n") + "\n") == lines
  {
    var all := [heading] + lines;
    OneMoreLine(heading, lines);
    SplitOfFile(all);
    assert all[1..] == lines;
  }

  lemma {:induction false} SplitOfFile(lines: seq<string>)
    requires lines != [] && forall i :: 0 <= i < |lines| ==> IsLine(lines[i])
    ensures Split(TrimRight(Join(lines, "\n") + "\n"), '\n') == lines
  {
    JoinEndsWell(lines);
    TrimRightOfBlank(Join(lines, "\n"), "\n");
    SplitOfJoin(lines, '\n');
  }

  lemma LinesOfContents(heading: string, ports: seq<Port>)
    requires IsLine(heading) && forall i :: 0 <= i < |ports| ==> IsPort(ports[i])
    ensures StatusLines(Contents(heading, ports)) == PortLines(ports)
  {
    forall i | 0 <= i < |ports| ensures IsLine(PortLine(ports[i])) {
      PortLineIsLine(ports[i]);
    }
    StatusLinesOf(heading, PortLines(ports));
  }

  function RowsOf(ports: seq<Port>): seq<Row> {
    seq(|ports|, i requires 0 <= i < |ports| => RowOf(ports[i]))
  }

  function StatusOf(table: seq<Controller>): seq<Status> {
    seq(|table|, c requires 0 <= c < |table| => Status(table[c].dir, RowsOf(table[c].ports)))
  }

  lemma RowsOfPortLines(ports: seq<Port>)
    requires forall i :: 0 <= i < |ports| ==> IsPort(ports[i])
    ensures ParseRows(PortLines(ports)) == RowsOf(ports)
  {
    forall i | 0 <= i < |ports| ensures ParseRow(PortLine(ports[i])) == RowOf(ports[i]) {
      RowOfPortLine(ports[i]);
    }
  }

  /** The program reads the kernel's table as it is. */
  lemma ReadsTheTable(heading: string, table: seq<Controller>)
    requires IsLine(heading) && IsTable(table)
    ensures ReadStatus(StatusFiles(heading, table)) == StatusOf(table)
  {
    forall c | 0 <= c < |table|
      ensures ParseRows(StatusLines(Contents(heading, table[c].ports))) == RowsOf(table[c].ports)
    {
      var ports := table[c].ports;
      assert forall i :: 0 <= i < |ports| ==> IsPort(table[c].ports[i]);
      LinesOfContents(heading, ports);
      RowsOfPortLines(ports);
    }
  }

  /** What makes a line that of a free port, or of a used one, by its fields. */
  lemma RowByFields(line: string, hub: string)
    ensures var f := Fields(line);
            && (IsFreeRow(ParseRow(line), hub) <==> |f| >= 3 && f[0] == hub && Atoi(f[2]) == 4)
            && (IsUsedRow(ParseRow(line)) <==> |f| >= 7 && Atoi(f[2]) == 6)
            && (|f| >= 3 ==> ParseRow(line).port == Atoi(f[1]))
            && (|f| >= 7 ==> ParseRow(line).busid == f[6])
  {
  }

  /** Which of the kernel's ports are free, and which are used, by the numbers of its
  drivers/usb/usbip/usbip_common.h. */
  lemma StatusByNumber(p: Port, hub: string)
    requires IsPort(p)
    ensures IsFreeRow(ParseRow(PortLine(p)), hub) <==> p.status == 4 && p.hub == hub
    ensures IsUsedRow(ParseRow(PortLine(p))) <==> p.status == 6
  {
    RowOfPortLine(p);
  }

  // ----- main results

  predicate IsFree(p: Port, hub: string) {
    p.status == VDEV_ST_NULL && p.hub == hub
  }

  ghost predicate NoneFree(table: seq<Controller>, hub: string) {
    forall b, j :: 0 <= b < |table| && 0 <= j < |table[b].ports| ==> !IsFree(table[b].ports[j], hub)
  }

  lemma {:induction false} FirstFreePort(ports: seq<Port>, hub: string) returns (i: nat)
    ensures i <= |ports| && forall j :: 0 <= j < i ==> !IsFree(ports[j], hub)
    ensures i < |ports| ==> IsFree(ports[i], hub) && FirstFreeRow(RowsOf(ports), hub) == Some(ports[i].number)
    ensures i == |ports| ==> FirstFreeRow(RowsOf(ports), hub) == None
  {
    i := 0;
    if ports != [] && !IsFree(ports[0], hub) {
      assert RowsOf(ports)[1..] == RowsOf(ports[1..]);
      var k := FirstFreePort(ports[1..], hub);
      i := k + 1;
      assert forall j :: 1 <= j < i ==> ports[j] == ports[1..][j - 1];
    }
  }

  lemma {:induction false} FirstFreeInTable(table: seq<Controller>, hub: string) returns (c: nat, i: nat)
    ensures c <= |table| && NoneFree(table[..c], hub)
    ensures c == |table| ==> FirstFree(StatusOf(table), hub) == None
    ensures c < |table| ==>
              && i < |table[c].ports| && IsFree(table[c].ports[i], hub)
              && (forall j :: 0 <= j < i ==> !IsFree(table[c].ports[j], hub))
              && FirstFree(StatusOf(table), hub) == Some((table[c].dir, table[c].ports[i].number))
  {
    c, i := 0, 0;
    if table != [] {
      i := FirstFreePort(table[0].ports, hub);
      if i == |table[0].ports| {
        assert StatusOf(table)[1..] == StatusOf(table[1..]);
        c, i := FirstFreeInTable(table[1..], hub);
        assert table[..c + 1] == [table[0]] + table[1..][..c];
        c := c + 1;
      }
    }
  }

  /** Reading the files the kernel shows, an attach picks the first port that is null and on the hub
  its speed needs, and finds none exactly if there is none. */
  lemma PicksFirstFree(heading: string, table: seq<Controller>, hub: string) returns (c: nat, i: nat)
    requires IsLine(heading) && IsTable(table)
    ensures c <= |table| && NoneFree(table[..c], hub)
    ensures c == |table| ==> FirstFree(ReadStatus(StatusFiles(heading, table)), hub) == None
    ensures c < |table| ==>
              && i < |table[c].ports| && IsFree(table[c].ports[i], hub)
              && (forall j :: 0 <= j < i ==> !IsFree(table[c].ports[j], hub))
              && FirstFree(ReadStatus(StatusFiles(heading, table)), hub)
                 == Some((table[c].dir, table[c].ports[i].number))
  {
    ReadsTheTable(heading, table);
    c, i := FirstFreeInTable(table, hub);
  }

  function UsedPorts(dir: string, ports: seq<Port>): seq<(Detach, string)> {
    if ports == [] then []
    else
      var p := ports[|ports| - 1];
      UsedPorts(dir, ports[..|ports| - 1]) + if p.status == VDEV_ST_USED then [(Detach(dir, p.number), p.busid)] else []
  }

  function UsedIn(table: seq<Controller>): seq<(Detach, string)> {
    if table == [] then []
    else UsedIn(table[..|table| - 1]) + UsedPorts(table[|table| - 1].dir, table[|table| - 1].ports)
  }

  lemma {:induction false} UsedRowsOfPorts(dir: string, ports: seq<Port>)
    ensures UsedRows(dir, RowsOf(ports)) == UsedPorts(dir, ports)
  {
    if ports != [] {
      UsedRowsOfPorts(dir, ports[..|ports| - 1]);
      assert RowsOf(ports)[..|ports| - 1] == RowsOf(ports[..|ports| - 1]);
    }
  }

  lemma {:induction false} UsedOfTable(table: seq<Controller>)
    ensures Used(StatusOf(table)) == UsedIn(table)
  {
    if table != [] {
      var last := table[|table| - 1];
      UsedRowsOfPorts(last.dir, last.ports);
      UsedOfTable(table[..|table| - 1]);
      assert StatusOf(table)[..|table| - 1] == StatusOf(table[..|table| - 1]);
    }
  }

  /** What a detach takes for the used ports are the kernel's. */
  lemma SeesUsedPorts(heading: string, table: seq<Controller>)
    requires IsLine(heading) && IsTable(table)
    ensures Used(ReadStatus(StatusFiles(heading, table))) == UsedIn(table)
  {
    ReadsTheTable(heading, table);
    UsedOfTable(table);
  }
}
