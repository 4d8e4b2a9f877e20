/** The order of devices in a listing, as bytes. */
module Ordering {
  import opened Text

  // ----- the sort key

  const MAX_UINT32 := 0xffff_ffff

  function BigEndian(n: nat): (bytes: seq<int>)
    requires n <= MAX_UINT32
    ensures |bytes| == 4
  {
    [n / 0x100_0000, n / 0x1_0000 % 0x100, n / 0x100 % 0x100, n % 0x100]
  }

  /** The swap of ':' and '.' that precedes the replacement of digit runs. */
  function Swapped(c: char): int {
    if c == ':' then '.' as int else if c == '.' then ':' as int else c as int
  }

  /** dvKey.  A run of digits too large for 32 bits counts as the largest that is not. */
  function DvKey(s: string): seq<int>
    decreases |s|
  {
    var n := DigitRun(s);
    if s == "" then []
    else if n == 0 then [Swapped(s[0])] + DvKey(s[1..])
    else BigEndian(Min(Value(s[..n], 10), MAX_UINT32)) + DvKey(s[n..])
  }

  // ----- lexicographic order

  predicate LexLess(a: seq<int>, b: seq<int>) {
    b != [] && (a == [] || a[0] < b[0] || (a[0] == b[0] && LexLess(a[1..], b[1..])))
  }

  lemma {:induction false} LexTotal(a: seq<int>, b: seq<int>)
    ensures LexLess(a, b) || LexLess(b, a) || a == b
    ensures !(LexLess(a, b) && LexLess(b, a)) && !LexLess(a, a)
  {
    if a != [] {
      LexTotal(a[1..], a[1..]);
      if b != [] {
        LexTotal(a[1..], b[1..]);
        assert a == [a[0]] + a[1..] && b == [b[0]] + b[1..];
      }
    }
  }

  lemma {:induction false} LexTransitive(a: seq<int>, b: seq<int>, c: seq<int>)
    requires LexLess(a, b) && LexLess(b, c)
    ensures LexLess(a, c)
  {
    if a != [] && a[0] == b[0] == c[0] {
      LexTransitive(a[1..], b[1..], c[1..]);
    }
  }

  lemma {:induction false} LexAfterPrefix(p: seq<int>, a: seq<int>, b: seq<int>)
    ensures LexLess(p + a, p + b) == LexLess(a, b)
  {
    if p == [] {
      assert p + a == a && p + b == b;
    } else {
      assert (p + a)[1..] == p[1..] + a && (p + b)[1..] == p[1..] + b;
      LexAfterPrefix(p[1..], a, b);
    }
  }

  /** Four big-endian bytes compare as the number they encode. */
  lemma {:induction false} BigEndianOrder(m: nat, n: nat, a: seq<int>, b: seq<int>)
    requires m <= MAX_UINT32 && n <= MAX_UINT32
    ensures LexLess(BigEndian(m) + a, BigEndian(n) + b) <==> m < n || (m == n && LexLess(a, b))
  {
    var x, y := BigEndian(m), BigEndian(n);
    Bytes(m);
    Bytes(n);
    assert x + a == [x[0]] + ([x[1]] + ([x[2]] + ([x[3]] + a)));
    assert y + b == [y[0]] + ([y[1]] + ([y[2]] + ([y[3]] + b)));
    LexCons(x[0], [x[1]] + ([x[2]] + ([x[3]] + a)), y[0], [y[1]] + ([y[2]] + ([y[3]] + b)));
    LexCons(x[1], [x[2]] + ([x[3]] + a), y[1], [y[2]] + ([y[3]] + b));
    LexCons(x[2], [x[3]] + a, y[2], [y[3]] + b);
    LexCons(x[3], a, y[3], b);
  }

  lemma LexCons(x: int, a: seq<int>, y: int, b: seq<int>)
    ensures LexLess([x] + a, [y] + b) <==> x < y || (x == y && LexLess(a, b))
  {
    assert ([x] + a)[1..] == a && ([y] + b)[1..] == b;
  }

  lemma Bytes(n: nat)
    requires n <= MAX_UINT32
    ensures var x := BigEndian(n);
            && n == x[0] * 0x100_0000 + x[1] * 0x1_0000 + x[2] * 0x100 + x[3]
            && 0 <= x[1] < 0x100 && 0 <= x[2] < 0x100 && 0 <= x[3] < 0x100
  {
    var h := n / 0x1_0000;
    assert h / 0x100 == n / 0x100_0000;
  }

  // ----- canonical busids

  // A busid as the kernel forms it: the bus number and the ports from the root hub down.
  type Path = p: seq<nat> | |p| >= 2 witness [1, 1]

  predicate IsCanonical(path: Path) {
    && path[0] >= 1
    && forall i :: 0 <= i < |path| ==> path[i] <= MAX_UINT32
  }

  function Ports(ports: seq<nat>): string
    requires ports != []
  {
    Numeral(ports[0], 10) + if |ports| == 1 then "" else "." + Ports(ports[1..])
  }

  /** bus-port(.port)* */
  function BusId(path: Path): string {
    Numeral(path[0], 10) + "-" + Ports(path[1..])
  }

  lemma KeyOfRun(d: string, rest: string)
    requires d != "" && AllDigits(d, 10) && (rest == "" || !IsDigit(rest[0], 10))
    ensures DvKey(d + rest) == BigEndian(Min(Value(d, 10), MAX_UINT32)) + DvKey(rest)
  {
    DigitRunOf(d, rest);
    assert (d + rest)[..|d|] == d && (d + rest)[|d|..] == rest;
  }

  lemma KeyOfNumeral(n: nat, rest: string)
    requires n <= MAX_UINT32 && (rest == "" || !IsDigit(rest[0], 10))
    ensures DvKey(Numeral(n, 10) + rest) == BigEndian(n) + DvKey(rest)
  {
    KeyOfRun(Numeral(n, 10), rest);
    ValueOfNumeral(n, 10);
  }

  lemma KeyOfMark(c: char, rest: string)
    requires !IsDigit(c, 10)
    ensures DvKey([c] + rest) == [Swapped(c)] + DvKey(rest)
  {
    assert ([c] + rest)[1..] == rest;
  }

  lemma {:induction false} KeyUpToMark(front: string, c: char, rest: string)
    requires front != "" && AllDigits(front, 10) && !IsDigit(c, 10)
    ensures DvKey(front + [c] + rest) ==
            BigEndian(Min(Value(front, 10), MAX_UINT32)) + ([Swapped(c)] + DvKey(rest))
  {
    KeyOfRun(front, [c] + rest);
    KeyOfMark(c, rest);
    assert front + [c] + rest == front + ([c] + rest);
  }

  /** After the same digits a '-' sorts before a '.', the other way round than dvKey's comment has it. */
  lemma {:induction false} DotSortsAfterDash(front: string, a: string, b: string)
    requires front != "" && AllDigits(front, 10)
    ensures LexLess(DvKey(front + "-" + a), DvKey(front + "." + b))
  {
    KeyUpToMark(front, '-', a);
    KeyUpToMark(front, '.', b);
    LexCons('-' as int, DvKey(a), ':' as int, DvKey(b));
    LexAfterPrefix(BigEndian(Min(Value(front, 10), MAX_UINT32)), ['-' as int] + DvKey(a), [':' as int] + DvKey(b));
  }

  /** And a ':', which only interfaces have, between the two. */
  lemma {:induction false} ColonSortsBetween(front: string, a: string, b: string, c: string)
    requires front != "" && AllDigits(front, 10)
    ensures LexLess(DvKey(front + "-" + a), DvKey(front + ":" + b))
    ensures LexLess(DvKey(front + ":" + b), DvKey(front + "." + c))
  {
    KeyUpToMark(front, '-', a);
    KeyUpToMark(front, ':', b);
    KeyUpToMark(front, '.', c);
    var run := BigEndian(Min(Value(front, 10), MAX_UINT32));
    LexCons('-' as int, DvKey(a), '.' as int, DvKey(b));
    LexAfterPrefix(run, ['-' as int] + DvKey(a), ['.' as int] + DvKey(b));
    LexCons('.' as int, DvKey(b), ':' as int, DvKey(c));
    LexAfterPrefix(run, ['.' as int] + DvKey(b), [':' as int] + DvKey(c));
  }

  /** A number that does not fit in 32 bits counts as the largest that does. */
  lemma {:induction false} HugeNumbers(digits: string)
    requires digits != "" && AllDigits(digits, 10) && Value(digits, 10) >= 0x1_0000_0000
    ensures DvKey(digits) == [255, 255, 255, 255]
  {
    KeyOfRun(digits, "");
    assert digits + "" == digits && DvKey("") == [];
  }

  predicate Small(ports: seq<nat>) {
    forall i :: 0 <= i < |ports| ==> ports[i] <= MAX_UINT32
  }

  lemma {:induction false} KeyOfPorts(ports: seq<nat>)
    requires ports != [] && Small(ports)
    ensures DvKey(Ports(ports)) ==
            BigEndian(ports[0]) + if |ports| == 1 then [] else [':' as int] + DvKey(Ports(ports[1..]))
  {
    if |ports| == 1 {
      KeyOfNumeral(ports[0], "");
    } else {
      KeyOfNumeral(ports[0], "." + Ports(ports[1..]));
      KeyOfMark('.', Ports(ports[1..]));
    }
  }

  lemma {:induction false} PortsOrder(a: seq<nat>, b: seq<nat>)
    requires a != [] && b != [] && Small(a) && Small(b)
    ensures LexLess(DvKey(Ports(a)), DvKey(Ports(b))) <==> LexLess(a, b)
  {
    KeyOfPorts(a);
    KeyOfPorts(b);
    var ka := if |a| == 1 then [] else [':' as int] + DvKey(Ports(a[1..]));
    var kb := if |b| == 1 then [] else [':' as int] + DvKey(Ports(b[1..]));
    BigEndianOrder(a[0], b[0], ka, kb);
    if |a| > 1 && |b| > 1 {
      PortsOrder(a[1..], b[1..]);
      LexAfterPrefix([':' as int], DvKey(Ports(a[1..])), DvKey(Ports(b[1..])));
    }
  }

  lemma KeyOfBusId(p: Path)
    requires IsCanonical(p)
    ensures DvKey(BusId(p)) == BigEndian(p[0]) + (['-' as int] + DvKey(Ports(p[1..])))
  {
    assert BusId(p) == Numeral(p[0], 10) + ("-" + Ports(p[1..]));
    KeyOfNumeral(p[0], "-" + Ports(p[1..]));
    KeyOfMark('-', Ports(p[1..]));
  }

  /** On canonical busids the bytes of the key compare as the bus and port numbers do. */
  lemma {:induction false} KeyOrderIsTreeOrder(a: Path, b: Path)
    requires IsCanonical(a) && IsCanonical(b)
    ensures LexLess(DvKey(BusId(a)), DvKey(BusId(b))) <==> LexLess(a, b)
  {
    KeyOfBusId(a);
    KeyOfBusId(b);
    var ka, kb := DvKey(Ports(a[1..])), DvKey(Ports(b[1..]));
    BigEndianOrder(a[0], b[0], ['-' as int] + ka, ['-' as int] + kb);
    LexCons('-' as int, ka, '-' as int, kb);
    PortsOrder(a[1..], b[1..]);
  }

  /** In particular no two canonical busids have the same key. */
  lemma KeysAreDistinct(a: Path, b: Path)
    requires IsCanonical(a) && IsCanonical(b) && (DvKey(BusId(a)) == DvKey(BusId(b)) || BusId(a) == BusId(b))
    ensures a == b
  {
    KeyOrderIsTreeOrder(a, b);
    KeyOrderIsTreeOrder(b, a);
    LexTotal(DvKey(BusId(a)), DvKey(BusId(b)));
    LexTotal(a, b);
  }
}
