/** "-Dev BUS DEV SPEED" lines and the device id that vhci gets from them. */
module Announce {
  import opened Text

  /** The line that announces a device, from three texts. */
  function DevLine(bus: string, dev: string, speed: string): string {
    "-Dev " + Join([bus, dev, speed], " ")
  }

  datatype Parsed = Attach(bus: int, dev: int, speed: string) | Bad | NotADevice

  /** What attachFromLine and remoteImport make of a line. */
  function ParseLine(line: string): Parsed {
    match CutPrefix(line, "-Dev ")
    case None => NotADevice
    case Some(rest) =>
      var f := Fields(rest);
      if |f| != 3 then Bad else Attach(Atoi(f[0]), Atoi(f[1]), f[2])
  }

  /** Bitwise or, of numbers of any size. */
  function BitOr(x: nat, y: nat): nat
    decreases x + y
  {
    if x == 0 then y
    else if y == 0 then x
    else 2 * BitOr(x / 2, y / 2) + (if x % 2 == 1 || y % 2 == 1 then 1 else 0)
  }

  function Bit(x: nat, k: nat): bool {
    if k == 0 then x % 2 == 1 else Bit(x / 2, k - 1)
  }

  /** Each bit of the result is set exactly if it is in one of the two. */
  lemma {:induction false} OrByBits(x: nat, y: nat, k: nat)
    ensures Bit(BitOr(x, y), k) <==> Bit(x, k) || Bit(y, k)
  {
    NoBitOfZero(k);
    if k > 0 && x != 0 && y != 0 {
      OrByBits(x / 2, y / 2, k - 1);
    }
  }

  lemma {:induction false} NoBitOfZero(k: nat)
    ensures !Bit(0, k)
  {
    if k > 0 { NoBitOfZero(k - 1); }
  }

  // The largest bus number that survives the shift in a 64-bit int.
  const MAX_BUS := 0x7fff_ffff_ffff

  lemma MaxBusSurvives(bus: nat)
    ensures bus <= MAX_BUS <==> bus * 0x1_0000 <= MAX_INT
  {
  }

  /** bus<<16|dev, as written to vhci's attach file. */
  function DevId(bus: nat, dev: nat): nat
    requires bus <= MAX_BUS
  {
    BitOr(bus * 0x1_0000, dev)
  }

  function TwoTo(k: nat): (p: nat)
    ensures p >= 1
  {
    if k == 0 then 1 else 2 * TwoTo(k - 1)
  }

  lemma HalfShifted(x: nat, k: nat)
    requires k > 0
    ensures x * TwoTo(k) == 2 * (x * TwoTo(k - 1))
  {
  }

  /** Below the shift, "or" is addition. */
  lemma {:induction false} OrBelowShift(x: nat, y: nat, k: nat)
    requires y < TwoTo(k)
    ensures BitOr(x * TwoTo(k), y) == x * TwoTo(k) + y
  {
    if k > 0 && x * TwoTo(k) != 0 && y != 0 {
      HalfShifted(x, k);
      OrBelowShift(x, y / 2, k - 1);
    }
  }

  lemma Sixteen()
    ensures TwoTo(16) == 0x1_0000
  {
    assert TwoTo(4) == 16;
    assert TwoTo(8) == 256;
    assert TwoTo(12) == 4096;
  }

  /** The kernel splits a device id again into what it was made of. */
  lemma DevIdSplits(bus: nat, dev: nat)
    requires bus <= MAX_BUS && dev < 0x1_0000
    ensures DevId(bus, dev) / 0x1_0000 == bus && DevId(bus, dev) % 0x1_0000 == dev
  {
    Sixteen();
    OrBelowShift(bus, dev, 16);
  }

  /** A number as sysfs (no zeros) or a uevent (some) writes it. */
  function Padded(n: nat, zeros: nat): string {
    Zeros(zeros) + Numeral(n, 10)
  }

  lemma PaddedIsField(n: nat, zeros: nat)
    ensures IsField(Padded(n, zeros))
  {
    var s := Padded(n, zeros);
    forall i | 0 <= i < |s| ensures !IsSpace(s[i]) {
      assert IsDigit(s[i], 10);
    }
  }

  /** Whatever zeros the announcement pads its numbers with, the importer reads them back. */
  lemma ParseOfDevLine(bus: nat, dev: nat, busZeros: nat, devZeros: nat, speed: string)
    requires bus <= MAX_INT && dev <= MAX_INT && IsField(speed)
    ensures ParseLine(DevLine(Padded(bus, busZeros), Padded(dev, devZeros), speed)) == Attach(bus, dev, speed)
  {
    var f := [Padded(bus, busZeros), Padded(dev, devZeros), speed];
    PaddedIsField(bus, busZeros);
    PaddedIsField(dev, devZeros);
    CutPrefixOfConcat("-Dev ", Join(f, " "));
    FieldsOfJoin(f);
    AtoiOfPadded(bus, busZeros);
    AtoiOfPadded(dev, devZeros);
  }

  /** A line that begins otherwise is none of these; one that begins so and has not three fields is bad. */
  lemma OtherLines(line: string, rest: string)
    ensures !HasPrefix(line, "-Dev ") ==> ParseLine(line) == NotADevice
    ensures |Fields(rest)| != 3 ==> ParseLine("-Dev " + rest) == Bad
  {
    CutPrefixOfConcat("-Dev ", rest);
  }

  /** Two announced devices get the same device id only if they are one device. */
  lemma DevIdsAreDistinct(line: string, line': string, bus: nat, dev: nat, bus': nat, dev': nat,
                          z: nat, z': nat, y: nat, y': nat, speed: string, speed': string)
    requires bus <= MAX_BUS && bus' <= MAX_BUS && dev < 0x1_0000 && dev' < 0x1_0000
    requires IsField(speed) && IsField(speed')
    requires line == DevLine(Padded(bus, z), Padded(dev, y), speed)
    requires line' == DevLine(Padded(bus', z'), Padded(dev', y'), speed')
    ensures ParseLine(line).Attach? && ParseLine(line').Attach?
    ensures var p, p' := ParseLine(line), ParseLine(line');
            && 0 <= p.bus <= MAX_BUS && 0 <= p'.bus <= MAX_BUS && p.dev >= 0 && p'.dev >= 0
            && (DevId(p.bus, p.dev) == DevId(p'.bus, p'.dev) <==> bus == bus' && dev == dev')
  {
    ParseOfDevLine(bus, dev, z, y, speed);
    ParseOfDevLine(bus', dev', z', y', speed');
    DevIdSplits(bus, dev);
    DevIdSplits(bus', dev');
  }
}
