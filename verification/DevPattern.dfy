/** mkDevPattern and mkDevSpec: the text of a device, and what a pattern makes be looked for in it. */
module DevPattern {
  import opened Text
  import opened Pattern

  // ----- mkDevPattern

  function HexRun(s: string, i: nat): (n: nat)
    requires i <= |s|
    ensures i + n <= |s|
    decreases |s| - i
  {
    if i == |s| || !IsDigit(s[i], 16) then 0 else 1 + HexRun(s, i + 1)
  }

  /** A hex token that a ':' follows, at i. */
  predicate TokenBeforeColon(s: string, i: nat)
    requires i <= |s|
  {
    var n := HexRun(s, i);
    n > 0 && WordBoundary(s, i) && i + n < |s| && s[i + n] == ':'
  }

  /** The replacement of (?i)\b0*[0-9a-f]+: from i on. */
  function RewriteBefore(s: string, i: nat): string
    requires i <= |s|
    decreases |s| - i
  {
    if i == |s| then ""
    else
      var n := HexRun(s, i);
      if TokenBeforeColon(s, i) then "\\b0*" + NormHex(s[i..i + n]) + "\\b:" + RewriteBefore(s, i + n + 1)
      else [s[i]] + RewriteBefore(s, i + 1)
  }

  /** A hex token that follows a ':', the ':' being at i. */
  predicate TokenAfterColon(s: string, i: nat)
    requires i < |s|
  {
    var n := HexRun(s, i + 1);
    s[i] == ':' && n > 0 && WordBoundary(s, i + 1 + n)
  }

  /** The replacement of (?i):0*[0-9a-f]+\b from i on. */
  function RewriteAfter(s: string, i: nat): string
    requires i <= |s|
    decreases |s| - i
  {
    if i == |s| then ""
    else
      var n := HexRun(s, i + 1);
      if TokenAfterColon(s, i) then ":\\b0*" + NormHex(s[i + 1..i + 1 + n]) + "\\b" + RewriteAfter(s, i + 1 + n)
      else [s[i]] + RewriteAfter(s, i + 1)
  }

  lemma {:induction false} HexRunAll(s: string, i: nat, e: nat)
    requires i <= e <= |s| && (forall k :: i <= k < e ==> IsDigit(s[k], 16)) && (e == |s| || !IsDigit(s[e], 16))
    ensures HexRun(s, i) == e - i
    decreases e - i
  {
    if i < e {
      HexRunAll(s, i + 1, e);
    }
  }

  /** A token that is the end, or the beginning, of a longer word is none. */
  lemma LongerWordsAreNone(s: string, i: nat, n: nat)
    requires 0 < i && i + n < |s| && n > 0 && forall k :: i <= k < i + n ==> IsDigit(s[k], 16)
    ensures IsWord(s[i - 1]) && s[i + n] == ':' ==> !TokenBeforeColon(s, i)
    ensures s[i - 1] == ':' && IsWord(s[i + n]) && !IsDigit(s[i + n], 16) ==> !TokenAfterColon(s, i - 1)
  {
    if s[i + n] == ':' || !IsDigit(s[i + n], 16) {
      HexRunAll(s, i, i + n);
    }
  }

  predicate IsReSpace(c: char) {
    c == ' ' || c == '\t' || c == '\n' || c == '\r' || c == '\U{0C}'
  }

  /** By their code points: tab, newline, form feed, carriage return, blank. */
  lemma ReSpaceCodes(c: char)
    ensures IsReSpace(c) <==> c as int in {9, 10, 12, 13, 32}
  {
  }

  /** The replacement of \s+ by " +"; after: the character before was white space. */
  function RewriteSpace(s: string, after: bool): string {
    if s == "" then ""
    else if IsReSpace(s[0]) then (if after then "" else " +") + RewriteSpace(s[1..], true)
    else [s[0]] + RewriteSpace(s[1..], false)
  }

  /** ^\d+-\d+(\.\d+)*$ */
  predicate IsBusidPattern(p: string) {
    var d := DigitRun(p);
    d > 0 && d < |p| && p[d] == '-' && IsPortsPattern(p[d + 1..])
  }

  predicate IsPortsPattern(p: string)
    decreases |p|
  {
    var d := DigitRun(p);
    d > 0 && (d == |p| || (p[d] == '.' && IsPortsPattern(p[d + 1..])))
  }

  /** Port numbers, a dot between each two. */
  predicate ArePorts(ports: seq<string>) {
    ports != [] && forall i :: 0 <= i < |ports| ==> ports[i] != "" && AllDigits(ports[i], 10)
  }

  lemma {:induction false} JoinIsPorts(ports: seq<string>)
    requires ArePorts(ports)
    ensures IsPortsPattern(Join(ports, "."))
  {
    if |ports| == 1 {
      DigitRunOf(ports[0], "");
      assert ports[0] + "" == ports[0];
    } else {
      var more := Join(ports[1..], ".");
      var p := ports[0] + "." + more;
      DigitRunOf(ports[0], "." + more);
      assert p == ports[0] + ("." + more) && p[|ports[0]|] == '.' && p[|ports[0]| + 1..] == more;
      JoinIsPorts(ports[1..]);
    }
  }

  lemma {:induction false} PortsIsJoin(p: string) returns (ports: seq<string>)
    requires IsPortsPattern(p)
    ensures ArePorts(ports) && p == Join(ports, ".")
    decreases |p|
  {
    var d := DigitRun(p);
    if d == |p| {
      assert p[..d] == p;
      ports := [p];
    } else {
      var more := PortsIsJoin(p[d + 1..]);
      ports := [p[..d]] + more;
      assert ports[1..] == more && p == p[..d] + "." + p[d + 1..];
    }
  }

  /** A busid is a number, a dash, and one or more numbers with dots between them. */
  lemma {:induction false} BusidPatternExactly(p: string)
    ensures IsBusidPattern(p) <==>
            exists bus: string, ports :: bus != "" && AllDigits(bus, 10) && ArePorts(ports) &&
                                         p == bus + "-" + Join(ports, ".")
  {
    if IsBusidPattern(p) {
      var d := DigitRun(p);
      var ports := PortsIsJoin(p[d + 1..]);
      assert p == p[..d] + "-" + Join(ports, ".");
    }
    if bus: string, ports :| bus != "" && AllDigits(bus, 10) && ArePorts(ports) && p == bus + "-" + Join(ports, ".") {
      DigitRunOf(bus, "-" + Join(ports, "."));
      assert p == bus + ("-" + Join(ports, ".")) && p[|bus|] == '-' && p[|bus| + 1..] == Join(ports, ".");
      JoinIsPorts(ports);
    }
  }

  /** regexp.QuoteMeta */
  function QuoteMeta(s: string): string {
    if s == "" then "" else (if IsMeta(s[0]) then ['\\', s[0]] else [s[0]]) + QuoteMeta(s[1..])
  }

  datatype DevPattern = DevPattern(items: seq<Item>, negate: bool)

  predicate IsNegated(p: string) {
    HasPrefix(p, "!") || HasPrefix(p, "-")
  }

  function Source(p: string): string {
    if IsBusidPattern(p) then "^" + QuoteMeta(p) + " " else RewriteSpace(RewriteAfter(RewriteBefore(p, 0), 0), false)
  }

  /** mkDevPattern.  None for an expression beyond those modelled. */
  function MkDevPattern(p: string): Option<DevPattern> {
    var negate := IsNegated(p);
    match Compile(Source(if negate then p[1..] else p))
    case None => None
    case Some(items) => Some(DevPattern(items, negate))
  }

  predicate Matches(p: DevPattern, spec: string) {
    Search(p.items, spec) != p.negate
  }

  // ----- mkDevSpec

  /** %04x */
  function Hex4(n: nat): string {
    var s := Numeral(n, 16);
    Zeros(if |s| < 4 then 4 - |s| else 0) + s
  }

  /** strconv.ParseInt(s, 16, 64) of an unsigned number, 0 if it is none. */
  function ParseHex(s: string): nat {
    if s != "" && AllDigits(s, 16) then Min(Value(s, 16), MAX_INT) else 0
  }

  /** busid  vvvv:pppp  BUSNUM/DEVNUM  serial manufacturer product<tab>ifspecs */
  function MkDevSpec(busid: string, product: string, busnum: string, devnum: string,
                     extra: seq<string>, ifs: seq<string>): string
  {
    var (vid, pid) := IdsOf(product);
    SpecText(busid, vid, pid, busnum + "/" + devnum + "  " + Join(extra, " ") + "\t" + Join(ifs, " "))
  }

  function IdsOf(product: string): (nat, nat) {
    var pp := Split(product, '/');
    if |pp| >= 2 then (ParseHex(pp[0]), ParseHex(pp[1])) else (0, 0)
  }

  function SpecText(busid: string, vid: nat, pid: nat, rest: string): string {
    busid + "  " + Hex4(vid) + ":" + Hex4(pid) + "  " + rest
  }

  /** The kernel's PRODUCT, vid/pid/version in hex. */
  lemma {:induction false} SpecOfProduct(busid: string, vid: nat, pid: nat, version: string, busnum: string,
                                         devnum: string, extra: seq<string>, ifs: seq<string>)
    requires vid <= MAX_INT && pid <= MAX_INT && '/' !in version
    ensures MkDevSpec(busid, Numeral(vid, 16) + "/" + Numeral(pid, 16) + "/" + version, busnum, devnum, extra, ifs)
            == SpecText(busid, vid, pid, busnum + "/" + devnum + "  " + Join(extra, " ") + "\t" + Join(ifs, " "))
  {
    var v, p := Numeral(vid, 16), Numeral(pid, 16);
    var parts := [v, p, version];
    assert forall i :: 0 <= i < |v| ==> IsDigit(v[i], 16);
    assert forall i :: 0 <= i < |p| ==> IsDigit(p[i], 16);
    JoinThree(v, p, version, "/");
    SplitOfJoin(parts, '/');
    ParseHexOfNumeral(vid);
    ParseHexOfNumeral(pid);
  }

  lemma ParseHexOfNumeral(n: nat)
    requires n <= MAX_INT
    ensures ParseHex(Numeral(n, 16)) == n
  {
    ValueOfNumeral(n, 16);
  }

  /** Ids have four digits at least. */
  lemma Hex4Width(n: nat)
    ensures |Hex4(n)| == if n < 0x1_0000 then 4 else |Numeral(n, 16)|
    ensures n >= 0x1_0000 ==> |Numeral(n, 16)| > 4
  {
    NumeralWidth(n);
  }

  lemma NumeralWidth(n: nat)
    ensures n < 0x1_0000 ==> |Numeral(n, 16)| <= 4
    ensures n >= 0x1_0000 ==> |Numeral(n, 16)| > 4
  {
    var a, b, c := n / 16, n / 16 / 16, n / 16 / 16 / 16;
    assert n >= 16 ==> |Numeral(n, 16)| == |Numeral(a, 16)| + 1;
    assert a >= 16 ==> |Numeral(a, 16)| == |Numeral(b, 16)| + 1;
    assert b >= 16 ==> |Numeral(b, 16)| == |Numeral(c, 16)| + 1;
    assert c >= 16 ==> |Numeral(c, 16)| == |Numeral(c / 16, 16)| + 1;
  }

  /** A device without PRODUCT has the ids 0, an id that is no hex number counts as 0, and one that does not
  fit counts as the largest that does. */
  lemma OddProducts(id: string, other: string)
    ensures '/' !in id ==> IdsOf(id) == (0, 0)
    ensures id == "" || !AllDigits(id, 16) ==> ParseHex(id) == 0
    ensures id != "" && AllDigits(id, 16) && Value(id, 16) > MAX_INT ==> ParseHex(id) == MAX_INT
    ensures '/' !in id && '/' !in other ==> IdsOf(id + "/" + other) == (ParseHex(id), ParseHex(other))
  {
    if '/' !in id {
      SplitOfJoin([id], '/');
      if '/' !in other {
        SplitOfJoin([id, other], '/');
      }
    }
  }

  // ----- what a token item matches

  function Lits(s: string): seq<Item> {
    seq(|s|, i requires 0 <= i < |s| => Lit(s[i]))
  }

  lemma {:induction false} MatchLits(w: string, rest: seq<Item>, s: string, i: nat)
    requires i <= |s|
    ensures MatchAt(Lits(w) + rest, s, i) <==>
            i + |w| <= |s| && s[i..i + |w|] == w && MatchAt(rest, s, i + |w|)
  {
    if w == "" {
      assert Lits(w) + rest == rest;
    } else {
      var items := Lits(w) + rest;
      assert items[0] == Lit(w[0]) && items[1..] == Lits(w[1..]) + rest;
      if i < |s| && s[i] == w[0] {
        MatchLits(w[1..], rest, s, i + 1);
        if i + |w| <= |s| {
          assert s[i..i + |w|] == [s[i]] + s[i + 1..i + |w|];
          assert w == [w[0]] + w[1..];
        }
      } else if i + |w| <= |s| {
        assert s[i..i + |w|][0] == s[i];
      }
    }
  }

  /** From i to e: zeros and then w. */
  predicate ZerosThen(s: string, i: nat, e: nat, w: string) {
    && i + |w| <= e <= |s| && s[e - |w|..e] == w
    && forall k :: i <= k < e - |w| ==> s[k] == '0'
  }

  lemma {:induction false} MatchZeros(w: string, rest: seq<Item>, s: string, i: nat)
    requires i <= |s|
    ensures MatchAt([ZeroRun] + Lits(w) + rest, s, i) <==>
            exists e :: i + |w| <= e <= |s| && ZerosThen(s, i, e, w) && MatchAt(rest, s, e)
    decreases |s| - i
  {
    var items := [ZeroRun] + Lits(w) + rest;
    assert items[0] == ZeroRun && items[1..] == Lits(w) + rest;
    MatchLits(w, rest, s, i);
    if MatchAt(items[1..], s, i) {
      assert ZerosThen(s, i, i + |w|, w);
    }
    if i < |s| && s[i] == '0' {
      MatchZeros(w, rest, s, i + 1);
      if e :| i + 1 + |w| <= e <= |s| && ZerosThen(s, i + 1, e, w) && MatchAt(rest, s, e) {
        assert ZerosThen(s, i, e, w);
      }
    }
    if e :| i + |w| <= e <= |s| && ZerosThen(s, i, e, w) && MatchAt(rest, s, e) {
      if e > i + |w| {
        assert s[i] == '0';
        assert ZerosThen(s, i + 1, e, w);
      }
    }
  }

  /** \b0*w\b */
  function TokenItems(w: string): seq<Item> {
    [Boundary, ZeroRun] + Lits(w) + [Boundary]
  }

  ghost predicate IsToken(s: string, i: nat, e: nat, w: string) {
    ZerosThen(s, i, e, w) && WordBoundary(s, i) && WordBoundary(s, e)
  }

  lemma MatchToken(w: string, rest: seq<Item>, s: string, i: nat)
    requires i <= |s|
    ensures MatchAt(TokenItems(w) + rest, s, i) <==> exists e :: IsToken(s, i, e, w) && MatchAt(rest, s, e)
  {
    var items := TokenItems(w) + rest;
    var after := [Boundary] + rest;
    assert items[0] == Boundary && items[1..] == [ZeroRun] + Lits(w) + after;
    assert after[1..] == rest;
    MatchZeros(w, after, s, i);
    if WordBoundary(s, i) {
      if e :| i + |w| <= e <= |s| && ZerosThen(s, i, e, w) && MatchAt(after, s, e) {
        assert IsToken(s, i, e, w);
      }
    }
    if e :| IsToken(s, i, e, w) && MatchAt(rest, s, e) {
      assert MatchAt(after, s, e);
    }
  }
}
