/** listDevices: the sorted names are the hub tree, walked in pre-order. */
module Listing {
  import opened Text
  import opened Ordering

  // ----- sorting and printing

  ghost predicate SortedByKey(names: seq<string>) {
    forall i, j :: 0 <= i < j < |names| ==> !LexLess(DvKey(names[j]), DvKey(names[i]))
  }

  /** What nsort leaves: sort.Slice is only known to sort, in some order among equal keys. */
  ghost predicate IsSortOf(sorted: seq<string>, names: seq<string>) {
    multiset(sorted) == multiset(names) && SortedByKey(sorted)
  }

  /** busidNameRe, ^[1-9][\d.-]+$ */
  predicate IsDeviceName(name: string) {
    && |name| >= 2 && '1' <= name[0] <= '9'
    && forall i :: 1 <= i < |name| ==> IsDigit(name[i], 10) || name[i] == '.' || name[i] == '-'
  }

  /** Character by character. */
  lemma DeviceNameExactly(name: string)
    ensures IsDeviceName(name) <==>
            && |name| >= 2 && name[0] in "123456789"
            && forall i :: 1 <= i < |name| ==> name[i] in "0123456789.-"
  {
    assert forall c: char :: c in "123456789" <==> '1' <= c <= '9' by {
      assert "123456789"[0] == '1' && "123456789"[1] == '2' && "123456789"[2] == '3' && "123456789"[3] == '4';
      assert "123456789"[4] == '5' && "123456789"[5] == '6' && "123456789"[6] == '7' && "123456789"[7] == '8';
      assert "123456789"[8] == '9';
    }
    assert forall c: char :: c in "0123456789.-" <==> '0' <= c <= '9' || c == '.' || c == '-' by {
      var s := "0123456789.-";
      assert s[0] == '0' && s[1] == '1' && s[2] == '2' && s[3] == '3' && s[4] == '4' && s[5] == '5';
      assert s[6] == '6' && s[7] == '7' && s[8] == '8' && s[9] == '9' && s[10] == '.' && s[11] == '-';
    }
  }

  /** The directories of interfaces and of root hubs, which are beside those of devices, are none. */
  lemma OthersAreNoDevices(busid: string, iface: string, bus: string)
    ensures !IsDeviceName(busid + ":" + iface) && !IsDeviceName("usb" + bus)
  {
    var s := busid + ":" + iface;
    assert s[|busid|] == ':' && ("usb" + bus)[0] == 'u';
  }

  function DeviceNames(names: seq<string>): seq<string> {
    if names == [] then []
    else (if IsDeviceName(names[0]) then [names[0]] else []) + DeviceNames(names[1..])
  }

  datatype Line = Line(indent: nat, name: string)

  function Count(s: string, c: char): nat {
    if s == "" then 0 else (if s[0] == c then 1 else 0) + Count(s[1..], c)
  }

  /** The device lines for names in this order, of those the pattern selects. */
  function Lines(names: seq<string>, selected: set<string>): seq<Line> {
    if names == [] then []
    else (if IsDeviceName(names[0]) && names[0] in selected then [Line(Count(names[0], '.') * 2, names[0])] else [])
         + Lines(names[1..], selected)
  }

  method ListDevices(sorted: seq<string>, selected: set<string>) returns (lines: seq<Line>)
    ensures lines == Lines(sorted, selected)
  {
    lines := [];
    for i := 0 to |sorted|
      invariant lines + Lines(sorted[i..], selected) == Lines(sorted, selected)
    {
      assert sorted[i..][1..] == sorted[i + 1..];
      if IsDeviceName(sorted[i]) && sorted[i] in selected {
        lines := lines + [Line(Count(sorted[i], '.') * 2, sorted[i])];
      }
    }
  }

  // ----- the reference: a hub tree and its walk

  // A level of the tree: siblings by port number, each with the level below it.
  datatype Level = End | Hub(port: nat, below: Level, next: Level)

  predicate WellFormed(l: Level) {
    l.Hub? ==>
      && l.port <= MAX_UINT32 && WellFormed(l.below) && WellFormed(l.next)
      && (l.next.Hub? ==> l.port < l.next.port)
  }

  /** Every device of the level, each before those below it, those before its next sibling. */
  function Walk(above: seq<nat>, l: Level): seq<Path>
    requires |above| >= 1
    decreases l
  {
    if l.End? then []
    else [above + [l.port]] + Walk(above + [l.port], l.below) + Walk(above, l.next)
  }

  /** The whole machine: a level of buses, whose root hubs are not listed. */
  function WalkBuses(buses: Level): seq<Path> {
    if buses.End? then [] else Walk([buses.port], buses.below) + WalkBuses(buses.next)
  }

  /** What the walk prints: two more blanks per hub on the way from the root hub. */
  function WalkLines(above: seq<nat>, l: Level, indent: nat, selected: set<string>): seq<Line>
    requires |above| >= 1
    decreases l
  {
    if l.End? then []
    else
      var name := BusId(above + [l.port]);
      (if name in selected then [Line(indent, name)] else [])
      + WalkLines(above + [l.port], l.below, indent + 2, selected)
      + WalkLines(above, l.next, indent, selected)
  }

  function BusLines(buses: Level, selected: set<string>): seq<Line> {
    if buses.End? then [] else WalkLines([buses.port], buses.below, 0, selected) + BusLines(buses.next, selected)
  }

  function Names(paths: seq<Path>): seq<string> {
    seq(|paths|, i requires 0 <= i < |paths| => BusId(paths[i]))
  }

  // ----- the walk is sorted

  ghost predicate StrictlySorted(paths: seq<Path>) {
    forall i, j :: 0 <= i < j < |paths| ==> LexLess(paths[i], paths[j])
  }

  lemma {:induction false} LexAt(a: seq<nat>, b: seq<nat>, k: nat)
    requires k <= |a| && k < |b| && a[..k] == b[..k]
    requires k == |a| || a[k] < b[k]
    ensures LexLess(a, b)
  {
    if k > 0 {
      assert a[0] == a[..k][0] == b[..k][0] == b[0];
      assert a[1..][..k - 1] == a[..k][1..] == b[..k][1..] == b[1..][..k - 1];
      LexAt(a[1..], b[1..], k - 1);
    }
  }

  /** What Walk yields lies below above, at l's port or further on. */
  predicate Below(above: seq<nat>, port: nat, path: seq<nat>) {
    && |path| > |above| && path[..|above|] == above && path[|above|] >= port
    && forall i :: |above| <= i < |path| ==> path[i] <= MAX_UINT32
  }

  lemma DeeperIsBelow(above: seq<nat>, port: nat, next: nat, path: seq<nat>)
    requires port <= MAX_UINT32 && Below(above + [port], next, path)
    ensures Below(above, port, path) && path[|above|] == port
  {
    var here := above + [port];
    assert path[..|above|] == path[..|here|][..|above|] == above;
    assert path[|above|] == path[..|here|][|above|];
  }

  lemma {:induction false} WalkStaysBelow(above: seq<nat>, l: Level, i: nat)
    requires |above| >= 1 && WellFormed(l) && i < |Walk(above, l)|
    ensures l.Hub? && Below(above, l.port, Walk(above, l)[i])
    decreases l
  {
    var here := above + [l.port];
    var n := |Walk(here, l.below)|;
    if 1 <= i <= n {
      WalkStaysBelow(here, l.below, i - 1);
      var x := Walk(here, l.below)[i - 1];
      assert Walk(above, l)[i] == x;
      DeeperIsBelow(above, l.port, l.below.port, x);
    } else if i > n {
      WalkStaysBelow(above, l.next, i - 1 - n);
      assert Walk(above, l)[i] == Walk(above, l.next)[i - 1 - n];
    }
  }

  lemma ConcatIsSorted(a: seq<Path>, b: seq<Path>)
    requires StrictlySorted(a) && StrictlySorted(b)
    requires forall i, j :: 0 <= i < |a| && 0 <= j < |b| ==> LexLess(a[i], b[j])
    ensures StrictlySorted(a + b)
  {
  }

  /** What is below a hub comes after it, and what is at or below it comes before its next sibling. */
  lemma HubBeforeBelow(above: seq<nat>, l: Level, j: nat)
    requires |above| >= 1 && l.Hub? && WellFormed(l)
    requires j < |Walk(above + [l.port], l.below)|
    ensures LexLess(above + [l.port], Walk(above + [l.port], l.below)[j])
  {
    var here := above + [l.port];
    WalkStaysBelow(here, l.below, j);
    LexAt(here, Walk(here, l.below)[j], |here|);
  }

  lemma StepsAside(above: seq<nat>, port: nat, a: seq<nat>, next: nat, b: seq<nat>)
    requires a == above + [port] || (|a| > |above| && a[..|above|] == above && a[|above|] == port)
    requires Below(above, next, b) && port < next
    ensures LexLess(a, b)
  {
    assert a[..|above|] == above && a[|above|] == port;
    LexAt(a, b, |above|);
  }

  lemma {:induction false} SubtreeBeforeNext(above: seq<nat>, l: Level, i: nat, j: nat)
    requires |above| >= 1 && l.Hub? && WellFormed(l)
    requires i <= |Walk(above + [l.port], l.below)| && j < |Walk(above, l.next)|
    ensures LexLess(([above + [l.port]] + Walk(above + [l.port], l.below))[i], Walk(above, l.next)[j])
  {
    var here := above + [l.port];
    var a, b := ([here] + Walk(here, l.below))[i], Walk(above, l.next)[j];
    WalkStaysBelow(above, l.next, j);
    if i > 0 {
      WalkStaysBelow(here, l.below, i - 1);
      DeeperIsBelow(above, l.port, l.below.port, a);
    }
    StepsAside(above, l.port, a, l.next.port, b);
  }

  lemma {:induction false} WalkIsSorted(above: seq<nat>, l: Level)
    requires |above| >= 1 && WellFormed(l)
    ensures StrictlySorted(Walk(above, l))
    decreases l
  {
    if l.Hub? {
      var here := above + [l.port];
      var sub, rest := Walk(here, l.below), Walk(above, l.next);
      WalkIsSorted(here, l.below);
      WalkIsSorted(above, l.next);
      forall j | 0 <= j < |sub| ensures LexLess(here, sub[j]) { HubBeforeBelow(above, l, j); }
      ConcatIsSorted([here], sub);
      forall i, j | 0 <= i < |[here] + sub| && 0 <= j < |rest| ensures LexLess(([here] + sub)[i], rest[j]) {
        SubtreeBeforeNext(above, l, i, j);
      }
      ConcatIsSorted([here] + sub, rest);
    }
  }

  /** Bus numbers start at 1. */
  predicate IsMachine(buses: Level) {
    WellFormed(buses) && (buses.Hub? ==> buses.port >= 1)
  }

  lemma {:induction false} BusesStayCanonical(buses: Level, i: nat)
    requires IsMachine(buses) && i < |WalkBuses(buses)|
    ensures buses.Hub? && IsCanonical(WalkBuses(buses)[i]) && WalkBuses(buses)[i][0] >= buses.port
  {
    var w := Walk([buses.port], buses.below);
    if i < |w| {
      WalkStaysBelow([buses.port], buses.below, i);
      assert WalkBuses(buses)[i] == w[i];
      assert w[i][0] == w[i][..1][0] == buses.port;
    } else {
      BusesStayCanonical(buses.next, i - |w|);
      assert WalkBuses(buses)[i] == WalkBuses(buses.next)[i - |w|];
    }
  }

  lemma BusBeforeNext(buses: Level, i: nat, j: nat)
    requires IsMachine(buses) && buses.Hub?
    requires i < |Walk([buses.port], buses.below)| && j < |WalkBuses(buses.next)|
    ensures LexLess(Walk([buses.port], buses.below)[i], WalkBuses(buses.next)[j])
  {
    var a, b := Walk([buses.port], buses.below)[i], WalkBuses(buses.next)[j];
    WalkStaysBelow([buses.port], buses.below, i);
    BusesStayCanonical(buses.next, j);
    assert a[0] == a[..1][0] == buses.port;
    LexAt(a, b, 0);
  }

  lemma {:induction false} BusesAreSorted(buses: Level)
    requires IsMachine(buses)
    ensures StrictlySorted(WalkBuses(buses))
  {
    if buses.Hub? {
      var here, rest := Walk([buses.port], buses.below), WalkBuses(buses.next);
      WalkIsSorted([buses.port], buses.below);
      BusesAreSorted(buses.next);
      forall i, j | 0 <= i < |here| && 0 <= j < |rest| ensures LexLess(here[i], rest[j]) {
        BusBeforeNext(buses, i, j);
      }
      ConcatIsSorted(here, rest);
    }
  }

  // ----- a sorted permutation of a strictly sorted sequence is that sequence

  ghost predicate Canonical(paths: seq<Path>) {
    forall i :: 0 <= i < |paths| ==> IsCanonical(paths[i])
  }

  lemma FirstIsLeast(names: seq<string>, paths: seq<Path>)
    requires Canonical(paths) && StrictlySorted(paths) && SortedByKey(names)
    requires paths != [] && names != [] && multiset(names) == multiset(Names(paths))
    ensures names[0] == BusId(paths[0])
  {
    var ref := Names(paths);
    assert names[0] in multiset(ref) && ref[0] in multiset(names);
    var j :| 0 <= j < |ref| && ref[j] == names[0];
    var k :| 0 <= k < |names| && names[k] == ref[0];
    assert k > 0 ==> !LexLess(DvKey(names[k]), DvKey(names[0]));
    if j > 0 {
      KeyOrderIsTreeOrder(paths[0], paths[j]);
    }
  }

  lemma SameSize(a: seq<string>, b: seq<string>)
    requires multiset(a) == multiset(b)
    ensures |a| == |b|
  {
    assert |a| == |multiset(a)| && |b| == |multiset(b)|;
  }

  lemma DropSame(a: seq<string>, b: seq<string>)
    requires a != [] && b != [] && a[0] == b[0] && multiset(a) == multiset(b)
    ensures multiset(a[1..]) == multiset(b[1..])
  {
    assert a == [a[0]] + a[1..] && b == [b[0]] + b[1..];
    assert multiset(a[1..]) == multiset(a) - multiset{a[0]};
    assert multiset(b[1..]) == multiset(b) - multiset{b[0]};
  }

  lemma {:induction false} SortIsUnique(names: seq<string>, paths: seq<Path>)
    requires Canonical(paths) && StrictlySorted(paths) && SortedByKey(names)
    requires multiset(names) == multiset(Names(paths))
    ensures names == Names(paths)
  {
    var ref := Names(paths);
    SameSize(names, ref);
    if paths != [] {
      FirstIsLeast(names, paths);
      DropSame(names, ref);
      assert ref[1..] == Names(paths[1..]);
      SortIsUnique(names[1..], paths[1..]);
      assert names == [names[0]] + names[1..] && ref == [ref[0]] + ref[1..];
    }
  }

  // ----- keeping only device names keeps the order

  lemma {:induction false} DeviceNamesOf(names: seq<string>)
    ensures forall n :: multiset(DeviceNames(names))[n] == if IsDeviceName(n) then multiset(names)[n] else 0
  {
    if names != [] {
      DeviceNamesOf(names[1..]);
      assert names == [names[0]] + names[1..];
    }
  }

  lemma DeviceNamesAreNames(names: seq<string>, j: nat)
    requires j < |DeviceNames(names)|
    ensures DeviceNames(names)[j] in names
  {
    DeviceNamesOf(names);
    assert DeviceNames(names)[j] in multiset(DeviceNames(names));
  }

  lemma PrependSorted(name: string, rest: seq<string>)
    requires SortedByKey(rest) && forall j :: 0 <= j < |rest| ==> !LexLess(DvKey(rest[j]), DvKey(name))
    ensures SortedByKey([name] + rest)
  {
  }

  lemma FirstKeyIsLeast(names: seq<string>, n: string)
    requires names != [] && SortedByKey(names) && n in names[1..]
    ensures !LexLess(DvKey(n), DvKey(names[0]))
  {
    var k :| 0 <= k < |names[1..]| && names[1..][k] == n;
    assert names[k + 1] == n;
  }

  lemma {:induction false} DeviceNamesStaySorted(names: seq<string>)
    requires SortedByKey(names)
    ensures SortedByKey(DeviceNames(names))
  {
    if names != [] {
      DeviceNamesStaySorted(names[1..]);
      var rest := DeviceNames(names[1..]);
      forall j | 0 <= j < |rest| ensures !LexLess(DvKey(rest[j]), DvKey(names[0])) {
        DeviceNamesAreNames(names[1..], j);
        FirstKeyIsLeast(names, rest[j]);
      }
      PrependSorted(names[0], rest);
      assert [] + rest == rest;
    }
  }

  lemma {:induction false} LinesOfDeviceNames(names: seq<string>, selected: set<string>)
    ensures Lines(DeviceNames(names), selected) == Lines(names, selected)
  {
    if names != [] {
      LinesOfDeviceNames(names[1..], selected);
      if IsDeviceName(names[0]) {
        assert DeviceNames(names)[0] == names[0];
        assert DeviceNames(names)[1..] == DeviceNames(names[1..]);
      } else {
        assert DeviceNames(names) == DeviceNames(names[1..]);
      }
    }
  }

  // ----- the lines of the walk

  lemma {:induction false} LinesOfConcat(a: seq<string>, b: seq<string>, selected: set<string>)
    ensures Lines(a + b, selected) == Lines(a, selected) + Lines(b, selected)
  {
    if a == [] {
      assert a + b == b;
    } else {
      assert (a + b)[1..] == a[1..] + b;
      LinesOfConcat(a[1..], b, selected);
    }
  }

  lemma {:induction false} CountOfConcat(s: string, t: string, c: char)
    ensures Count(s + t, c) == Count(s, c) + Count(t, c)
  {
    if s == "" {
      assert s + t == t;
    } else {
      assert (s + t)[1..] == s[1..] + t;
      CountOfConcat(s[1..], t, c);
    }
  }

  lemma {:induction false} NoDots(d: string)
    requires AllDigits(d, 10)
    ensures Count(d, '.') == 0
  {
    if d != "" {
      assert IsDigit(d[0], 10);
      NoDots(d[1..]);
    }
  }

  lemma {:induction false} PortsText(ports: seq<nat>)
    requires ports != []
    ensures BusidChars(Ports(ports)) && Count(Ports(ports), '.') == |ports| - 1
  {
    var d := Numeral(ports[0], 10);
    NoDots(d);
    if |ports| > 1 {
      PortsText(ports[1..]);
      CountOfConcat(d, "." + Ports(ports[1..]), '.');
    } else {
      assert Ports(ports) == d + "" == d;
    }
  }

  lemma DeviceNameOf(d: string, p: string)
    requires d != "" && AllDigits(d, 10) && d[0] != '0' && BusidChars(p)
    ensures IsDeviceName(d + "-" + p)
  {
    var name := d + "-" + p;
    assert IsDigit(d[0], 10) && name[0] == d[0];
    forall i | 1 <= i < |name| ensures IsDigit(name[i], 10) || name[i] == '.' || name[i] == '-' {
      if i < |d| { assert name[i] == d[i]; } else if i > |d| { assert name[i] == p[i - |d| - 1]; }
    }
  }

  /** A canonical busid is taken for a device name, and has a dot for every hub on its way. */
  lemma BusIdText(path: Path)
    requires IsCanonical(path)
    ensures IsDeviceName(BusId(path)) && Count(BusId(path), '.') == |path| - 2
  {
    var d, p := Numeral(path[0], 10), Ports(path[1..]);
    PortsText(path[1..]);
    DeviceNameOf(d, p);
    NoDots(d);
    CountOfConcat(d, "-", '.');
    CountOfConcat(d + "-", p, '.');
    assert BusId(path) == d + "-" + p;
  }

  lemma LineOfOne(path: Path, selected: set<string>)
    requires IsCanonical(path)
    ensures Lines([BusId(path)], selected) ==
            if BusId(path) in selected then [Line(2 * (|path| - 2), BusId(path))] else []
  {
    BusIdText(path);
  }

  lemma NamesOfConcat(a: seq<Path>, b: seq<Path>)
    ensures Names(a + b) == Names(a) + Names(b)
  {
  }

  lemma LinesOfThree(a: Path, b: seq<Path>, c: seq<Path>, selected: set<string>)
    ensures Lines(Names([a] + b + c), selected) ==
            Lines([BusId(a)], selected) + Lines(Names(b), selected) + Lines(Names(c), selected)
  {
    NamesOfConcat([a] + b, c);
    NamesOfConcat([a], b);
    assert Names([a]) == [BusId(a)];
    LinesOfConcat([BusId(a)] + Names(b), Names(c), selected);
    LinesOfConcat([BusId(a)], Names(b), selected);
  }

  lemma CanonicalBelow(above: seq<nat>, port: nat)
    requires |above| >= 1 && above[0] >= 1 && Small(above) && port <= MAX_UINT32
    ensures IsCanonical(above + [port]) && Small(above + [port])
  {
    var here := above + [port];
    assert here[0] == above[0];
    assert forall i :: 0 <= i < |here| ==> here[i] == if i < |above| then above[i] else port;
  }

  lemma LinesOfHub(above: seq<nat>, l: Level, selected: set<string>)
    requires l.Hub? && |above| >= 1 && IsCanonical(above + [l.port])
    ensures var here := above + [l.port];
            Lines(Names(Walk(above, l)), selected) ==
            (if BusId(here) in selected then [Line(2 * (|above| - 1), BusId(here))] else [])
            + Lines(Names(Walk(here, l.below)), selected) + Lines(Names(Walk(above, l.next)), selected)
  {
    var here := above + [l.port];
    LinesOfThree(here, Walk(here, l.below), Walk(above, l.next), selected);
    LineOfOne(here, selected);
  }

  lemma {:induction false} LinesOfWalk(above: seq<nat>, l: Level, indent: nat, selected: set<string>)
    requires WellFormed(l) && |above| >= 1 && above[0] >= 1 && Small(above)
    requires indent == 2 * (|above| - 1)
    ensures Lines(Names(Walk(above, l)), selected) == WalkLines(above, l, indent, selected)
    decreases l
  {
    if l.End? {
      assert Names(Walk(above, l)) == [];
    } else {
      var here := above + [l.port];
      CanonicalBelow(above, l.port);
      LinesOfWalk(here, l.below, indent + 2, selected);
      LinesOfWalk(above, l.next, indent, selected);
      LinesOfHub(above, l, selected);
    }
  }

  lemma {:induction false} LinesOfBuses(buses: Level, selected: set<string>)
    requires IsMachine(buses)
    ensures Lines(Names(WalkBuses(buses)), selected) == BusLines(buses, selected)
  {
    if buses.Hub? {
      var here, rest := Walk([buses.port], buses.below), WalkBuses(buses.next);
      NamesOfConcat(here, rest);
      LinesOfConcat(Names(here), Names(rest), selected);
      LinesOfWalk([buses.port], buses.below, 0, selected);
      LinesOfBuses(buses.next, selected);
    }
  }

  lemma BusesAreCanonical(buses: Level)
    requires IsMachine(buses)
    ensures Canonical(WalkBuses(buses))
  {
    forall i | 0 <= i < |WalkBuses(buses)| ensures IsCanonical(WalkBuses(buses)[i]) {
      BusesStayCanonical(buses, i);
    }
  }

  lemma SameDeviceNames(a: seq<string>, b: seq<string>)
    requires multiset(a) == multiset(b)
    ensures multiset(DeviceNames(a)) == multiset(DeviceNames(b))
  {
    DeviceNamesOf(a);
    DeviceNamesOf(b);
  }

  // ----- main result

  /** Whatever else is in the directory and in whatever order it is read: if the device names in it
  are the busids of a hub tree, the sorted listing prints that tree in pre-order, each device
  indented by two for every hub between it and its root hub. */
  lemma {:induction false} ListingIsPreOrderWalk(names: seq<string>, sorted: seq<string>, buses: Level,
                                                 selected: set<string>)
    requires IsMachine(buses) && IsSortOf(sorted, names)
    requires multiset(DeviceNames(names)) == multiset(Names(WalkBuses(buses)))
    ensures Lines(sorted, selected) == BusLines(buses, selected)
  {
    BusesAreCanonical(buses);
    BusesAreSorted(buses);
    DeviceNamesStaySorted(sorted);
    SameDeviceNames(sorted, names);
    SortIsUnique(DeviceNames(sorted), WalkBuses(buses));
    LinesOfDeviceNames(sorted, selected);
    LinesOfBuses(buses, selected);
  }
}
