/** findDev: the devices that a pattern finds. */
module Finding {
  import opened Text
  import opened Pattern
  import opened DevPattern
  import opened Meaning
  import Listing

  // A device as its directory shows it: name, uevent fields, the texts of serial, manufacturer and
  // product, and the INTERFACE of each of its interfaces.
  datatype Usb = Usb(
    busid: string, product: string, busnum: string, devnum: string, extra: seq<string>, ifaces: seq<string>)

  /** %02x */
  function Hex2(n: int): string {
    if n < 0 then "-" + Numeral(0 - n, 16)
    else if n < 16 then "0" + Numeral(n, 16)
    else Numeral(n, 16)
  }

  /** mkIfSpec: class/subclass/protocol in six hex digits. */
  function IfSpec(iface: string): string {
    var parts := Split(iface, '/');
    if |parts| != 3 then "" else Hex2(Atoi(parts[0])) + Hex2(Atoi(parts[1])) + Hex2(Atoi(parts[2]))
  }

  /** An INTERFACE that has not three parts has no spec; a negative number keeps its sign. */
  lemma OddInterfaces(parts: seq<string>, n: nat)
    requires parts != [] && forall i :: 0 <= i < |parts| ==> '/' !in parts[i]
    ensures |parts| != 3 ==> IfSpec(Join(parts, "/")) == ""
    ensures n > 0 ==> Hex2(0 - n as int) == "-" + Numeral(n, 16)
  {
    SplitOfJoin(parts, '/');
  }

  function IfSpecs(ifaces: seq<string>): seq<string> {
    seq(|ifaces|, i requires 0 <= i < |ifaces| => IfSpec(ifaces[i]))
  }

  function SpecOf(d: Usb): string {
    MkDevSpec(d.busid, d.product, d.busnum, d.devnum, d.extra, IfSpecs(d.ifaces))
  }

  const HUB := "090000"

  /** hubIfRe, \b090000\b */
  predicate IsHubSpec(spec: string) {
    Search([Boundary] + Lits(HUB) + [Boundary], spec)
  }

  predicate IsFound(pat: DevPattern, d: Usb) {
    Listing.IsDeviceName(d.busid) && !IsHubSpec(SpecOf(d)) && Matches(pat, SpecOf(d))
  }

  /** The busids of the devices that are wanted, in their order. */
  function Keep(devs: seq<Usb>, wanted: Usb -> bool): seq<string> {
    if devs == [] then []
    else
      var d := devs[|devs| - 1];
      Keep(devs[..|devs| - 1], wanted) + if wanted(d) then [d.busid] else []
  }

  function FoundBy(pat: DevPattern): Usb -> bool {
    d => IsFound(pat, d)
  }

  datatype Found = Devices(busids: seq<string>) | Multiple | NoMatch

  method FindDev(pat: DevPattern, devs: seq<Usb>, min: nat, single: bool) returns (r: Found)
    ensures var found := Keep(devs, FoundBy(pat));
            && (r.Devices? <==> if single then |found| == 1 else |found| >= min)
            && (r.Devices? ==> r.busids == found)
            && (!r.Devices? ==> (r.NoMatch? <==> found == []))
  {
    var found := Candidates(pat, devs);
    if single {
      if |found| == 1 { return Devices(found); }
    } else if |found| >= min {
      return Devices(found);
    }
    r := if found != [] then Multiple else NoMatch;
  }

  method Qualifies(pat: DevPattern, d: Usb) returns (ok: bool)
    ensures ok == IsFound(pat, d)
  {
    if !Listing.IsDeviceName(d.busid) {
      return false;
    }
    var spec := SpecOf(d);
    if IsHubSpec(spec) {
      return false;
    }
    ok := Matches(pat, spec);
  }

  method Candidates(pat: DevPattern, devs: seq<Usb>) returns (found: seq<string>)
    ensures found == Keep(devs, FoundBy(pat))
  {
    found := [];
    for i := 0 to |devs|
      invariant found == Keep(devs[..i], FoundBy(pat))
    {
      assert devs[..i + 1][..i] == devs[..i];
      var ok := Qualifies(pat, devs[i]);
      assert FoundBy(pat)(devs[i]) == IsFound(pat, devs[i]);
      if ok {
        found := found + [devs[i].busid];
      }
    }
    assert devs[..|devs|] == devs;
  }

  lemma {:induction false} KeepExactly(devs: seq<Usb>, wanted: Usb -> bool, b: string)
    ensures b in Keep(devs, wanted) <==> exists k :: 0 <= k < |devs| && devs[k].busid == b && wanted(devs[k])
  {
    if devs != [] {
      var n := |devs| - 1;
      KeepExactly(devs[..n], wanted, b);
      if k :| 0 <= k < |devs| && devs[k].busid == b && wanted(devs[k]) {
        assert k < n ==> devs[..n][k] == devs[k];
      }
    }
  }

  // ----- the hub filter

  /** The six digits stand at i, attached to no word character on either side. */
  predicate HubAt(s: string, i: int) {
    && 0 <= i <= i + |HUB| <= |s| && s[i..i + |HUB|] == HUB
    && (i == 0 || !IsWord(s[i - 1])) && (i + |HUB| == |s| || !IsWord(s[i + |HUB|]))
  }

  ghost predicate HoldsHub(s: string) {
    exists i :: HubAt(s, i)
  }

  lemma HubMatchesAt(s: string, i: nat)
    requires i <= |s|
    ensures MatchAt([Boundary] + Lits(HUB) + [Boundary], s, i) <==> HubAt(s, i)
  {
    var items, e := [Boundary] + Lits(HUB) + [Boundary], i + |HUB|;
    assert items[0] == Boundary && items[1..] == Lits(HUB) + [Boundary] && [Boundary][1..] == [];
    MatchLits(HUB, [Boundary], s, i);
    if e <= |s| && s[i..e] == HUB {
      assert s[i] == s[i..e][0] == '0' && s[e - 1] == s[i..e][5] == '0';
    }
  }

  lemma FilterSeesWords(s: string)
    ensures IsHubSpec(s) <==> HoldsHub(s)
  {
    forall i | 0 <= i <= |s| ensures MatchAt([Boundary] + Lits(HUB) + [Boundary], s, i) <==> HubAt(s, i) {
      HubMatchesAt(s, i);
    }
    if i :| HubAt(s, i) {
      assert MatchAt([Boundary] + Lits(HUB) + [Boundary], s, i);
    }
  }

  lemma HubIsOfWords(k: nat)
    requires k < |HUB|
    ensures IsWord(HUB[k])
  {
  }

  lemma HubBefore(a: string, c: char, b: string, i: int)
    requires !IsWord(c) && i + |HUB| <= |a|
    ensures HubAt(a + [c] + b, i) <==> HubAt(a, i)
  {
    var s := a + [c] + b;
    assert s[|a|] == c && forall k :: 0 <= k < |a| ==> s[k] == a[k];
    if 0 <= i {
      assert s[i..i + |HUB|] == a[i..i + |HUB|];
    }
  }

  lemma HubAfter(a: string, c: char, b: string, i: int)
    requires !IsWord(c) && i > |a|
    ensures HubAt(a + [c] + b, i) <==> HubAt(b, i - |a| - 1)
  {
    var s, m := a + [c] + b, |a| + 1;
    assert s[|a|] == c && forall k :: m <= k < |s| ==> s[k] == b[k - m];
    if i + |HUB| <= |s| {
      assert s[i..i + |HUB|] == b[i - m..i - m + |HUB|];
    }
  }

  lemma HubNotAcross(a: string, c: char, b: string, i: int)
    requires !IsWord(c) && i <= |a| < i + |HUB|
    ensures !HubAt(a + [c] + b, i)
  {
    var s, k := a + [c] + b, |a| - i;
    HubIsOfWords(k);
    if 0 <= i && i + |HUB| <= |s| {
      assert s[i..i + |HUB|][k] == s[|a|] == c;
    }
  }

  /** What is no word character separates. */
  lemma HoldsOnEitherSide(a: string, c: char, b: string)
    requires !IsWord(c)
    ensures HoldsHub(a + [c] + b) <==> HoldsHub(a) || HoldsHub(b)
  {
    var s := a + [c] + b;
    if i :| HubAt(s, i) {
      if i + |HUB| <= |a| {
        HubBefore(a, c, b, i);
      } else if i > |a| {
        HubAfter(a, c, b, i);
      } else {
        HubNotAcross(a, c, b, i);
      }
    }
    if i :| HubAt(a, i) {
      HubBefore(a, c, b, i);
    }
    if i :| HubAt(b, i) {
      HubAfter(a, c, b, i + |a| + 1);
    }
  }

  lemma ShortHoldsNone(s: string)
    requires |s| < |HUB|
    ensures !HoldsHub(s)
  {
  }

  ghost predicate SomeHolds(parts: seq<string>) {
    exists k :: 0 <= k < |parts| && HoldsHub(parts[k])
  }

  lemma SomeHoldsOneMore(first: string, parts: seq<string>)
    ensures SomeHolds([first] + parts) <==> HoldsHub(first) || SomeHolds(parts)
  {
    var all := [first] + parts;
    assert all[0] == first;
    if k :| 0 <= k < |parts| && HoldsHub(parts[k]) {
      assert all[k + 1] == parts[k];
    }
  }

  lemma {:induction false} JoinHolds(parts: seq<string>)
    ensures HoldsHub(Join(parts, " ")) <==> SomeHolds(parts)
  {
    if parts == [] {
      ShortHoldsNone("");
    } else {
      assert parts == [parts[0]] + parts[1..];
      SomeHoldsOneMore(parts[0], parts[1..]);
      if |parts| > 1 {
        JoinHolds(parts[1..]);
        HoldsOnEitherSide(parts[0], ' ', Join(parts[1..], " "));
      }
    }
  }

  lemma OneWordHolds(s: string)
    requires AllLowerHex(s)
    ensures HoldsHub(s) <==> s == HUB
  {
    assert forall i :: 0 <= i < |s| ==> IsLowerHex(s[i]) && IsWord(s[i]);
    assert s[0..|s|] == s;
    if s == HUB {
      assert HubAt(s, 0);
    }
  }

  /** An id is never taken for the word. */
  lemma IdHoldsNone(n: nat)
    ensures !HoldsHub(Hex4(n))
  {
    Hex4IsLower(n);
    OneWordHolds(Hex4(n));
    var w := Numeral(n, 16);
    if |w| >= 4 {
      assert Zeros(0) == "" && Hex4(n) == "" + w == w;
    }
    assert n == 0 ==> |w| == 1;
  }

  /** What follows the ids in the text of a device. */
  function Rest(d: Usb): string {
    d.busnum + "/" + d.devnum + "  " + Join(d.extra, " ") + "\t" + Join(IfSpecs(d.ifaces), " ")
  }

  lemma DoubleBlank(a: string, b: string)
    ensures HoldsHub(a + "  " + b) <==> HoldsHub(a) || HoldsHub(b)
  {
    assert a + "  " + b == a + [' '] + ("" + [' '] + b);
    HoldsOnEitherSide(a, ' ', "" + [' '] + b);
    HoldsOnEitherSide("", ' ', b);
    ShortHoldsNone("");
  }

  lemma RestHolds(d: Usb)
    ensures HoldsHub(Rest(d)) <==>
            HoldsHub(d.busnum) || HoldsHub(d.devnum) || SomeHolds(d.extra) || SomeHolds(IfSpecs(d.ifaces))
  {
    var extra, ifs := Join(d.extra, " "), Join(IfSpecs(d.ifaces), " ");
    JoinHolds(d.extra);
    JoinHolds(IfSpecs(d.ifaces));
    HoldsOnEitherSide(d.busnum, '/', d.devnum);
    DoubleBlank(d.busnum + "/" + d.devnum, extra);
    HoldsOnEitherSide(d.busnum + "/" + d.devnum + "  " + extra, '\t', ifs);
  }

  lemma TextHolds(busid: string, v: string, w: string, rest: string)
    requires !HoldsHub(v) && !HoldsHub(w)
    ensures HoldsHub(busid + "  " + v + ":" + w + "  " + rest) <==> HoldsHub(busid) || HoldsHub(rest)
  {
    DoubleBlank(busid, v);
    HoldsOnEitherSide(busid + "  " + v, ':', w);
    DoubleBlank(busid + "  " + v + ":" + w, rest);
  }

  /** Some text of the device or the digits of one of its interfaces hold the word. */
  ghost predicate LooksLikeHub(d: Usb) {
    || HoldsHub(d.busid) || HoldsHub(d.busnum) || HoldsHub(d.devnum)
    || SomeHolds(d.extra) || SomeHolds(IfSpecs(d.ifaces))
  }

  lemma SpecIsText(d: Usb)
    ensures var (vid, pid) := IdsOf(d.product); SpecOf(d) == SpecText(d.busid, vid, pid, Rest(d))
  {
  }

  /** The filter takes a device for a hub exactly if the six digits stand as a word in the class digits
  of one of its interfaces - or anywhere else in its text. */
  lemma HubFilterExactly(d: Usb)
    ensures IsHubSpec(SpecOf(d)) <==> LooksLikeHub(d)
  {
    var (vid, pid) := IdsOf(d.product);
    SpecIsText(d);
    FilterSeesWords(SpecOf(d));
    IdHoldsNone(vid);
    IdHoldsNone(pid);
    TextHolds(d.busid, Hex4(vid), Hex4(pid), Rest(d));
    RestHolds(d);
  }

  lemma FoundIfMatched(pat: DevPattern, d: Usb)
    ensures IsFound(pat, d) <==> Listing.IsDeviceName(d.busid) && !LooksLikeHub(d) && Matches(pat, SpecOf(d))
  {
    HubFilterExactly(d);
  }

  lemma HubsAreNotFound(pat: DevPattern, d: Usb)
    requires LooksLikeHub(d)
    ensures !IsFound(pat, d)
  {
    HubFilterExactly(d);
  }

  lemma AnythingMatches(s: string)
    ensures Matches(DevPattern([], false), s)
  {
    assert MatchAt([], s, 0);
  }

  /** No pattern at all, negated ones included, finds a device exactly if it looks like a hub; any other
  is found at least by the empty one. */
  lemma NeverFoundExactlyWhen(d: Usb)
    requires Listing.IsDeviceName(d.busid)
    ensures (forall pat :: !IsFound(pat, d)) <==> LooksLikeHub(d)
  {
    forall pat ensures IsFound(pat, d) ==> !LooksLikeHub(d) {
      FoundIfMatched(pat, d);
    }
    if !LooksLikeHub(d) {
      AnythingMatches(SpecOf(d));
      FoundIfMatched(DevPattern([], false), d);
    }
  }

  // ----- which hubs look like one

  /** The kernel's class/subclass/protocol in decimal. */
  function Iface(c: nat, s: nat, p: nat): string {
    Numeral(c, 10) + "/" + Numeral(s, 10) + "/" + Numeral(p, 10)
  }

  lemma IfSpecOfNumbers(c: nat, s: nat, p: nat)
    requires c <= MAX_INT && s <= MAX_INT && p <= MAX_INT
    ensures IfSpec(Iface(c, s, p)) == Hex2(c) + Hex2(s) + Hex2(p)
  {
    var parts := [Numeral(c, 10), Numeral(s, 10), Numeral(p, 10)];
    NumeralReads(c);
    NumeralReads(s);
    NumeralReads(p);
    JoinThree(parts[0], parts[1], parts[2], "/");
    SplitOfJoin(parts, '/');
  }

  lemma NumeralReads(n: nat)
    requires n <= MAX_INT
    ensures Atoi(Numeral(n, 10)) == n && '/' !in Numeral(n, 10)
  {
    var w := Numeral(n, 10);
    AtoiOfPadded(n, 0);
    assert Zeros(0) + w == w;
    assert forall i :: 0 <= i < |w| ==> IsDigit(w[i], 10);
  }

  lemma Hex2OfByte(n: nat)
    requires n < 256
    ensures Hex2(n) == [DigitOf(n / 16), DigitOf(n % 16)]
  {
    if n < 16 {
      assert DigitOf(0) == '0';
    } else {
      assert Numeral(n / 16, 16) == [DigitOf(n / 16)];
    }
  }

  lemma DigitsTell(n: nat, h: nat)
    requires n < 256 && h < 256
    ensures Hex2(n) == Hex2(h) <==> n == h
  {
    Hex2OfByte(n);
    Hex2OfByte(h);
    if Hex2(n) == Hex2(h) {
      assert DigitOf(n / 16) == Hex2(n)[0] && DigitOf(n % 16) == Hex2(n)[1];
      assert DigitOf(h / 16) == Hex2(h)[0] && DigitOf(h % 16) == Hex2(h)[1];
    }
  }

  lemma NineZeroZero()
    ensures Hex2(9) + Hex2(0) + Hex2(0) == HUB && |Hex2(9)| == |Hex2(0)| == 2
  {
    assert Hex2(9) == "09" && Hex2(0) == "00";
  }

  lemma DigitsAreLower(n: nat)
    requires n < 256
    ensures |Hex2(n)| == 2 && AllLowerHex(Hex2(n))
  {
    Hex2OfByte(n);
    assert IsLowerHex(DigitOf(n / 16)) && IsLowerHex(DigitOf(n % 16));
  }

  lemma SamePairs(a: string, b: string, c: string, x: string, y: string, z: string)
    requires |a| == |b| == |c| == |x| == |y| == |z| == 2
    ensures a + b + c == x + y + z <==> a == x && b == y && c == z
  {
    var s, t := a + b + c, x + y + z;
    assert s[..2] == a && s[2..4] == b && s[4..] == c && t[..2] == x && t[2..4] == y && t[4..] == z;
  }

  /** An interface looks like a hub's exactly if it is 9/0/0. */
  lemma HubInterfaceExactly(c: nat, s: nat, p: nat)
    requires c < 256 && s < 256 && p < 256
    ensures HoldsHub(IfSpec(Iface(c, s, p))) <==> c == 9 && s == 0 && p == 0
  {
    IfSpecOfNumbers(c, s, p);
    DigitsAreLower(c);
    DigitsAreLower(s);
    DigitsAreLower(p);
    OneWordHolds(Hex2(c) + Hex2(s) + Hex2(p));
    NineZeroZero();
    SamePairs(Hex2(c), Hex2(s), Hex2(p), Hex2(9), Hex2(0), Hex2(0));
    DigitsTell(c, 9);
    DigitsTell(s, 0);
    DigitsTell(p, 0);
  }

  /** So a hub whose interface is 9/0/0 is found by no pattern. */
  lemma HubsAreNeverFound(pat: DevPattern, d: Usb, k: nat)
    requires k < |d.ifaces| && d.ifaces[k] == Iface(9, 0, 0)
    ensures !IsFound(pat, d)
  {
    HubInterfaceExactly(9, 0, 0);
    assert HoldsHub(IfSpecs(d.ifaces)[k]);
    HubsAreNotFound(pat, d);
  }

  function OneHub(vid: nat, pid: nat, p: nat): Usb {
    Usb("1-1", Numeral(vid, 16) + "/" + Numeral(pid, 16) + "/" + "421", "001", "002", ["", "", ""], [Iface(9, 0, p)])
  }

  lemma OneHubDoesNotLookLikeIt(vid: nat, pid: nat, p: nat)
    requires p == 1 || p == 2
    ensures !LooksLikeHub(OneHub(vid, pid, p))
  {
    HubInterfaceExactly(9, 0, p);
    ShortHoldsNone("");
    ShortHoldsNone("1-1");
    ShortHoldsNone("001");
    ShortHoldsNone("002");
    assert IfSpecs(OneHub(vid, pid, p).ifaces) == [IfSpec(Iface(9, 0, p))];
  }

  lemma OneHubIsPlain(vid: nat, pid: nat, p: nat)
    ensures PlainTexts(OneHub(vid, pid, p)) && Listing.IsDeviceName(OneHub(vid, pid, p).busid)
    ensures IsHexToken(Numeral(vid, 16)) && IsHexToken(Numeral(pid, 16))
  {
  }

  /** But one with several transaction translators, whose interface is 9/0/1 or 9/0/2, is found like any
  other device, by its ids for one. */
  lemma MultiHubIsFound(vid: nat, pid: nat, p: nat)
    requires vid <= MAX_INT && pid <= MAX_INT && (p == 1 || p == 2)
    ensures var ids := Numeral(vid, 16) + ":" + Numeral(pid, 16);
            MkDevPattern(ids).Some? && IsFound(MkDevPattern(ids).value, OneHub(vid, pid, p))
  {
    OneHubDoesNotLookLikeIt(vid, pid, p);
    OneHubIsPlain(vid, pid, p);
    ValueOfNumeral(vid, 16);
    ValueOfNumeral(pid, 16);
    IdsFindExactly(Numeral(vid, 16), Numeral(pid, 16), OneHub(vid, pid, p), vid, pid, "421");
  }

  /** And a device that is no hub is found by no pattern if its serial number, say, is the word. */
  lemma TextCanHide(pat: DevPattern, d: Usb, k: nat)
    requires k < |d.extra| && d.extra[k] == HUB
    ensures !IsFound(pat, d)
  {
    HiddenByText(d, k);
    HubsAreNotFound(pat, d);
  }

  lemma HiddenByText(d: Usb, k: nat)
    requires k < |d.extra| && d.extra[k] == HUB
    ensures LooksLikeHub(d)
  {
    OneWordHolds(HUB);
    assert HoldsHub(d.extra[k]);
  }

  // ----- what vid:pid and busids find

  lemma {:induction false} JoinHasNoColon(parts: seq<string>)
    requires forall i :: 0 <= i < |parts| ==> NoColon(parts[i])
    ensures NoColon(Join(parts, " "))
  {
    if |parts| > 1 {
      JoinHasNoColon(parts[1..]);
    }
  }

  lemma Hex2HasNoColon(n: int)
    ensures NoColon(Hex2(n))
  {
    var m := if n < 0 then 0 - n else n;
    var w := Numeral(m, 16);
    forall i | 0 <= i < |w| ensures w[i] != ':' { assert IsDigit(w[i], 16); }
  }

  lemma IfSpecHasNoColon(iface: string)
    ensures NoColon(IfSpec(iface))
  {
    var parts := Split(iface, '/');
    if |parts| == 3 {
      Hex2HasNoColon(Atoi(parts[0]));
      Hex2HasNoColon(Atoi(parts[1]));
      Hex2HasNoColon(Atoi(parts[2]));
    }
  }

  ghost predicate PlainTexts(d: Usb) {
    NoColon(d.busid) && NoColon(d.busnum) && NoColon(d.devnum) && forall i :: 0 <= i < |d.extra| ==> NoColon(d.extra[i])
  }

  lemma RestHasNoColon(d: Usb)
    requires PlainTexts(d)
    ensures NoColon(Rest(d))
  {
    forall i | 0 <= i < |d.ifaces| ensures NoColon(IfSpecs(d.ifaces)[i]) { IfSpecHasNoColon(d.ifaces[i]); }
    JoinHasNoColon(IfSpecs(d.ifaces));
    JoinHasNoColon(d.extra);
  }

  lemma IdsMatchExactly(a: string, b: string, d: Usb, vid: nat, pid: nat, version: string)
    requires (a == "" || IsHexToken(a)) && (b == "" || IsHexToken(b)) && !(a == "" && b == "")
    requires d.product == Numeral(vid, 16) + "/" + Numeral(pid, 16) + "/" + version && '/' !in version
    requires vid <= MAX_INT && pid <= MAX_INT && PlainTexts(d)
    ensures MkDevPattern(a + ":" + b).Some?
    ensures Matches(MkDevPattern(a + ":" + b).value, SpecOf(d)) <==>
            (a != "" ==> Value(a, 16) == vid) && (b != "" ==> Value(b, 16) == pid)
  {
    SpecOfProduct(d.busid, vid, pid, version, d.busnum, d.devnum, d.extra, IfSpecs(d.ifaces));
    RestHasNoColon(d);
    VidPidMeans(a, b, d.busid, vid, pid, Rest(d));
    SpecIsText(d);
  }

  /** Device by device: vid:pid finds exactly those of these ids that do not look like a hub. */
  lemma IdsFindExactly(a: string, b: string, d: Usb, vid: nat, pid: nat, version: string)
    requires (a == "" || IsHexToken(a)) && (b == "" || IsHexToken(b)) && !(a == "" && b == "")
    requires d.product == Numeral(vid, 16) + "/" + Numeral(pid, 16) + "/" + version && '/' !in version
    requires vid <= MAX_INT && pid <= MAX_INT && PlainTexts(d)
    ensures MkDevPattern(a + ":" + b).Some?
    ensures IsFound(MkDevPattern(a + ":" + b).value, d) <==>
            && Listing.IsDeviceName(d.busid) && !LooksLikeHub(d)
            && (a != "" ==> Value(a, 16) == vid) && (b != "" ==> Value(b, 16) == pid)
  {
    IdsMatchExactly(a, b, d, vid, pid, version);
    FoundIfMatched(MkDevPattern(a + ":" + b).value, d);
  }

  lemma BusidMatches(p: string, d: Usb)
    requires IsBusidPattern(p) && Listing.IsDeviceName(d.busid)
    ensures MkDevPattern(p).Some?
    ensures Matches(MkDevPattern(p).value, SpecOf(d)) <==> p == d.busid
  {
    var (vid, pid) := IdsOf(d.product);
    BusidMeans(p, d.busid, vid, pid, Rest(d));
    SpecIsText(d);
  }

  lemma BusidFinds(p: string, d: Usb)
    requires IsBusidPattern(p)
    ensures MkDevPattern(p).Some?
    ensures IsFound(MkDevPattern(p).value, d) <==> Named(p, d)
  {
    BusidPatternItems(p);
    FoundIfMatched(MkDevPattern(p).value, d);
    if Listing.IsDeviceName(d.busid) {
      BusidMatches(p, d);
    }
  }

  /** The device that p names, not looking like a hub. */
  ghost predicate Named(p: string, d: Usb) {
    d.busid == p && Listing.IsDeviceName(d.busid) && !LooksLikeHub(d)
  }

  ghost predicate DistinctBusids(devs: seq<Usb>) {
    forall i, j :: 0 <= i < j < |devs| ==> devs[i].busid != devs[j].busid
  }

  lemma {:induction false} AtMostOneKept(devs: seq<Usb>, wanted: Usb -> bool, p: string)
    requires DistinctBusids(devs) && forall k :: 0 <= k < |devs| && wanted(devs[k]) ==> devs[k].busid == p
    ensures Keep(devs, wanted) == if exists k :: 0 <= k < |devs| && wanted(devs[k]) then [p] else []
  {
    if devs != [] {
      var n := |devs| - 1;
      var front := devs[..n];
      AtMostOneKept(front, wanted, p);
      if k :| 0 <= k < |front| && wanted(front[k]) {
        assert wanted(devs[k]);
      }
      if k :| 0 <= k < |devs| && wanted(devs[k]) {
        assert k < n ==> wanted(front[k]);
      }
    }
  }

  /** A busid finds its device and no other: findDev, asked for a single device, never answers that
  there are several. */
  lemma {:induction false} BusidFindsOne(p: string, devs: seq<Usb>)
    requires IsBusidPattern(p) && DistinctBusids(devs)
    ensures MkDevPattern(p).Some?
    ensures Keep(devs, FoundBy(MkDevPattern(p).value)) ==
            if exists k :: 0 <= k < |devs| && Named(p, devs[k]) then [p] else []
  {
    BusidPatternItems(p);
    var pat := MkDevPattern(p).value;
    forall k | 0 <= k < |devs|
      ensures FoundBy(pat)(devs[k]) <==> Named(p, devs[k])
    {
      BusidFinds(p, devs[k]);
      assert FoundBy(pat)(devs[k]) == IsFound(pat, devs[k]);
    }
    AtMostOneKept(devs, FoundBy(pat), p);
  }
}
