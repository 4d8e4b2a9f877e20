/** The few operations on text that the program takes from Go's strings and strconv packages, and
how they undo one another. */
module Text {
  datatype Option<+T> = None | Some(value: T)

  predicate HasPrefix(s: string, prefix: string) {
    |prefix| <= |s| && s[..|prefix|] == prefix
  }

  predicate OccursAt(s: string, t: string, i: int) {
    0 <= i <= i + |t| <= |s| && s[i..i + |t|] == t
  }

  function CutPrefix(s: string, prefix: string): Option<string> {
    if HasPrefix(s, prefix) then Some(s[|prefix|..]) else None
  }

  lemma CutPrefixOfConcat(prefix: string, rest: string)
    ensures CutPrefix(prefix + rest, prefix) == Some(rest)
  {
    assert (prefix + rest)[..|prefix|] == prefix && (prefix + rest)[|prefix|..] == rest;
  }

  // ----- splitting at a separator

  function IndexOf(s: string, c: char): (i: nat)
    ensures i <= |s|
    ensures i < |s| ==> s[i] == c
  {
    if s == "" || s[0] == c then 0 else 1 + IndexOf(s[1..], c)
  }

  lemma {:induction false} IndexOfMissing(s: string, c: char)
    requires c !in s
    ensures IndexOf(s, c) == |s|
  {
    if s != "" {
      IndexOfMissing(s[1..], c);
    }
  }

  lemma {:induction false} IndexOfFirst(a: string, c: char, b: string)
    requires c !in a
    ensures IndexOf(a + [c] + b, c) == |a|
  {
    if a != "" {
      assert (a + [c] + b)[1..] == a[1..] + [c] + b;
      IndexOfFirst(a[1..], c, b);
    }
  }

  /** strings.Split with a one-character separator. */
  function Split(s: string, sep: char): (parts: seq<string>)
    ensures |parts| >= 1
    decreases |s|
  {
    var i := IndexOf(s, sep);
    if i == |s| then [s] else [s[..i]] + Split(s[i + 1..], sep)
  }

  function Join(parts: seq<string>, sep: string): string {
    if parts == [] then ""
    else if |parts| == 1 then parts[0]
    else parts[0] + sep + Join(parts[1..], sep)
  }

  /** Lines, each ended by a newline. */
  function Unlines(lines: seq<string>): string {
    if lines == [] then "" else lines[0] + "\n" + Unlines(lines[1..])
  }

  lemma JoinThree(a: string, b: string, c: string, sep: string)
    ensures Join([a, b, c], sep) == a + sep + b + sep + c
  {
    assert [a, b, c][1..] == [b, c] && [b, c][1..] == [c];
    assert Join([b, c], sep) == b + sep + Join([c], sep);
    assert Join([a, b, c], sep) == a + sep + Join([b, c], sep);
  }

  lemma SplitFirst(part: string, sep: char, rest: string)
    requires sep !in part
    ensures Split(part + [sep] + rest, sep) == [part] + Split(rest, sep)
  {
    IndexOfFirst(part, sep, rest);
    var s := part + [sep] + rest;
    assert s[..|part|] == part && s[|part| + 1..] == rest;
  }

  lemma {:induction false} SplitOfJoin(parts: seq<string>, sep: char)
    requires parts != [] && forall i :: 0 <= i < |parts| ==> sep !in parts[i]
    ensures Split(Join(parts, [sep]), sep) == parts
  {
    if |parts| == 1 {
      IndexOfMissing(parts[0], sep);
    } else {
      SplitOfJoin(parts[1..], sep);
      SplitFirst(parts[0], sep, Join(parts[1..], [sep]));
      assert parts == [parts[0]] + parts[1..];
    }
  }

  /** strings.Cut: the text before and after the first c. */
  function Cut(s: string, c: char): Option<(string, string)> {
    var i := IndexOf(s, c);
    if i == |s| then None else Some((s[..i], s[i + 1..]))
  }

  lemma CutAtFirst(a: string, c: char, b: string)
    requires c !in a
    ensures Cut(a + [c] + b, c) == Some((a, b))
  {
    IndexOfFirst(a, c, b);
    assert (a + [c] + b)[..|a|] == a && (a + [c] + b)[|a| + 1..] == b;
  }

  // ----- white space

  /** unicode.IsSpace */
  predicate IsSpace(c: char) {
    || '\t' <= c <= '\r' || c == ' ' || c == '\U{85}' || c == '\U{A0}' || c == '\U{1680}'
    || '\U{2000}' <= c <= '\U{200A}' || c == '\U{2028}' || c == '\U{2029}' || c == '\U{202F}'
    || c == '\U{205F}' || c == '\U{3000}'
  }

  /** By their code points. */
  lemma SpaceCodes(c: char)
    ensures IsSpace(c) <==>
            || c as int in {9, 10, 11, 12, 13, 32, 0x85, 0xA0, 0x1680, 0x2028, 0x2029, 0x202F, 0x205F, 0x3000}
            || 0x2000 <= c as int <= 0x200A
  {
  }

  predicate NoSpace(s: string) {
    forall i :: 0 <= i < |s| ==> !IsSpace(s[i])
  }

  function WordLength(s: string): (n: nat)
    ensures n <= |s|
    ensures n == 0 ==> s == "" || IsSpace(s[0])
  {
    if s == "" || IsSpace(s[0]) then 0 else 1 + WordLength(s[1..])
  }

  lemma {:induction false} WordLengthOf(w: string, rest: string)
    requires NoSpace(w) && (rest == "" || IsSpace(rest[0]))
    ensures WordLength(w + rest) == |w|
  {
    if w == "" {
      assert w + rest == rest;
    } else {
      assert (w + rest)[1..] == w[1..] + rest;
      WordLengthOf(w[1..], rest);
    }
  }

  /** strings.Fields */
  function Fields(s: string): seq<string>
    decreases |s|
  {
    if s == "" then []
    else if IsSpace(s[0]) then Fields(s[1..])
    else [s[..WordLength(s)]] + Fields(s[WordLength(s)..])
  }

  predicate IsField(f: string) {
    f != "" && NoSpace(f)
  }

  lemma FirstField(f: string, more: string)
    requires IsField(f) && (more == "" || IsSpace(more[0]))
    ensures Fields(f + more) == [f] + Fields(more)
  {
    WordLengthOf(f, more);
    assert (f + more)[..|f|] == f && (f + more)[|f|..] == more;
  }

  lemma SkipSpace(s: string)
    ensures Fields(" " + s) == Fields(s)
  {
    assert (" " + s)[1..] == s;
  }

  lemma NextField(f: string, s: string)
    requires IsField(f)
    ensures Fields(f + (" " + s)) == [f] + Fields(s)
  {
    FirstField(f, " " + s);
    SkipSpace(s);
  }

  lemma PrependField(f: string, text: string, later: seq<string>, more: string)
    requires IsField(f) && Fields(text + more) == later + Fields(more)
    ensures Fields(f + " " + text + more) == [f] + later + Fields(more)
  {
    NextField(f, text + more);
    assert f + " " + text + more == f + (" " + (text + more));
    assert [f] + (later + Fields(more)) == [f] + later + Fields(more);
  }

  lemma {:induction false} WordEndsAtBlank(a: string, b: string)
    ensures WordLength(a + " " + b) == WordLength(a)
  {
    if a == "" {
      assert a + " " + b == " " + b;
    } else {
      assert (a + " " + b)[1..] == a[1..] + " " + b;
      WordEndsAtBlank(a[1..], b);
    }
  }

  /** A blank between two texts keeps their fields apart, whatever white space they have. */
  lemma {:induction false} FieldsOfConcat(a: string, b: string)
    ensures Fields(a + " " + b) == Fields(a) + Fields(b)
    decreases |a|
  {
    if a == "" {
      assert a + " " + b == " " + b;
      SkipSpace(b);
    } else if IsSpace(a[0]) {
      assert (a + " " + b)[1..] == a[1..] + " " + b;
      FieldsOfConcat(a[1..], b);
    } else {
      var n := WordLength(a);
      WordEndsAtBlank(a, b);
      FieldsOfConcat(a[n..], b);
      AfterWord(a, n, b);
      assert [a[..n]] + (Fields(a[n..]) + Fields(b)) == [a[..n]] + Fields(a[n..]) + Fields(b);
    }
  }

  lemma AfterWord(a: string, n: nat, b: string)
    requires n <= |a|
    ensures (a + " " + b)[..n] == a[..n] && (a + " " + b)[n..] == a[n..] + " " + b
  {
  }

  lemma {:induction false} FieldsOfJoinThen(fields: seq<string>, more: string)
    requires fields != [] && forall i :: 0 <= i < |fields| ==> IsField(fields[i])
    requires more == "" || IsSpace(more[0])
    ensures Fields(Join(fields, " ") + more) == fields + Fields(more)
  {
    if |fields| == 1 {
      FirstField(fields[0], more);
    } else {
      FieldsOfJoinThen(fields[1..], more);
      PrependField(fields[0], Join(fields[1..], " "), fields[1..], more);
      assert fields == [fields[0]] + fields[1..];
    }
  }

  lemma FieldsOfJoin(fields: seq<string>)
    requires forall i :: 0 <= i < |fields| ==> IsField(fields[i])
    ensures Fields(Join(fields, " ")) == fields
  {
    if fields != [] {
      FieldsOfJoinThen(fields, "");
      assert Join(fields, " ") + "" == Join(fields, " ");
    }
  }

  // The cutset of readFile.
  predicate IsBlank(c: char) {
    c == ' ' || c == '\t' || c == '\n'
  }

  lemma BlankByCode(c: char)
    ensures IsBlank(c) <==> c as int in {9, 10, 32}
  {
  }

  /** strings.TrimRight(s, " \t\n") */
  function TrimRight(s: string): string {
    if s != "" && IsBlank(s[|s| - 1]) then TrimRight(s[..|s| - 1]) else s
  }

  lemma {:induction false} TrimRightIsPrefix(s: string)
    ensures TrimRight(s) <= s
  {
    if s != "" && IsBlank(s[|s| - 1]) {
      TrimRightIsPrefix(s[..|s| - 1]);
    }
  }

  /** Trimming stops at the last character that is not blank. */
  lemma {:induction false} TrimRightOf(s: string, c: char, tail: string)
    requires !IsBlank(c)
    ensures TrimRight(s + [c] + tail) == s + [c] + TrimRight(tail)
  {
    var t := s + [c] + tail;
    if tail == "" {
      assert t[|t| - 1] == c;
    } else {
      assert t[|t| - 1] == tail[|tail| - 1];
      if IsBlank(tail[|tail| - 1]) {
        assert t[..|t| - 1] == s + [c] + tail[..|tail| - 1];
        TrimRightOf(s, c, tail[..|tail| - 1]);
      }
    }
  }

  lemma {:induction false} TrimRightOfBlank(s: string, blank: string)
    requires forall i :: 0 <= i < |blank| ==> IsBlank(blank[i])
    ensures TrimRight(s + blank) == TrimRight(s)
  {
    if blank == "" {
      assert s + blank == s;
    } else {
      assert (s + blank)[..|s + blank| - 1] == s + blank[..|blank| - 1];
      TrimRightOfBlank(s, blank[..|blank| - 1]);
    }
  }

  // ----- numerals

  function DigitValue(c: char): nat {
    if '0' <= c <= '9' then (c - '0') as nat
    else if 'a' <= c <= 'f' then (c - 'a') as nat + 10
    else if 'A' <= c <= 'F' then (c - 'A') as nat + 10
    else 0
  }

  predicate IsDigit(c: char, base: nat) {
    || ('0' <= c <= '9' && DigitValue(c) < base)
    || ('a' <= c <= 'f' && DigitValue(c) < base)
    || ('A' <= c <= 'F' && DigitValue(c) < base)
  }

  /** By their code points. */
  lemma DigitByCode(c: char)
    ensures 48 <= c as int <= 57 ==> IsDigit(c, 10) && DigitValue(c) == c as int - 48
    ensures 65 <= c as int <= 70 ==> IsDigit(c, 16) && !IsDigit(c, 10) && DigitValue(c) == c as int - 55
    ensures 97 <= c as int <= 102 ==> IsDigit(c, 16) && !IsDigit(c, 10) && DigitValue(c) == c as int - 87
    ensures IsDigit(c, 8) <==> 48 <= c as int <= 55
    ensures IsDigit(c, 16) <==>
            48 <= c as int <= 57 || 65 <= c as int <= 70 || 97 <= c as int <= 102
  {
  }

  predicate AllDigits(s: string, base: nat) {
    forall i :: 0 <= i < |s| ==> IsDigit(s[i], base)
  }

  /** The digits that s begins with. */
  function DigitRun(s: string): (n: nat)
    ensures n <= |s| && AllDigits(s[..n], 10)
    ensures n < |s| ==> !IsDigit(s[n], 10)
  {
    if s == "" || !IsDigit(s[0], 10) then 0
    else
      var n := 1 + DigitRun(s[1..]);
      assert forall i :: 1 <= i < n ==> s[i] == s[1..][..n - 1][i - 1];
      n
  }

  lemma {:induction false} DigitRunOf(d: string, rest: string)
    requires AllDigits(d, 10) && (rest == "" || !IsDigit(rest[0], 10))
    ensures DigitRun(d + rest) == |d|
  {
    if d == "" {
      assert d + rest == rest;
    } else {
      assert IsDigit(d[0], 10);
      assert (d + rest)[1..] == d[1..] + rest;
      DigitRunOf(d[1..], rest);
    }
  }

  /** The characters of busids. */
  predicate BusidChars(s: string) {
    forall i :: 0 <= i < |s| ==> IsDigit(s[i], 10) || s[i] == '.' || s[i] == '-'
  }

  function DigitOf(n: nat): (c: char)
    requires n < 16
    ensures DigitValue(c) == n && IsDigit(c, 16)
    ensures forall base :: n < base ==> IsDigit(c, base)
  {
    if n < 10 then '0' + n as char else 'a' + (n - 10) as char
  }

  /** The number that a string of digits stands for. */
  function Value(s: string, base: nat): nat {
    if s == "" then 0 else Value(s[..|s| - 1], base) * base + DigitValue(s[|s| - 1])
  }

  lemma Shift(s: string, c: char, base: nat)
    ensures Value(s + [c], base) == Value(s, base) * base + DigitValue(c)
  {
    assert (s + [c])[..|s|] == s;
  }

  lemma DivMod(n: nat, base: nat)
    requires base >= 2
    ensures n / base * base + n % base == n && n % base < base
    ensures n >= base ==> 0 < n / base < n
  {
  }

  /** The numeral of n, in lower case and without leading zeros. */
  function Numeral(n: nat, base: nat): (s: string)
    requires 2 <= base <= 16
    ensures s != "" && AllDigits(s, base)
    ensures s[0] == '0' ==> n == 0
    decreases n
  {
    DivMod(n, base);
    if n < base then [DigitOf(n)] else Numeral(n / base, base) + [DigitOf(n % base)]
  }

  lemma {:induction false} ValueOfNumeral(n: nat, base: nat)
    requires 2 <= base <= 16
    ensures Value(Numeral(n, base), base) == n
    decreases n
  {
    DivMod(n, base);
    if n < base {
      Shift("", DigitOf(n), base);
      assert "" + [DigitOf(n)] == [DigitOf(n)];
    } else {
      ValueOfNumeral(n / base, base);
      Shift(Numeral(n / base, base), DigitOf(n % base), base);
    }
  }

  function Power(base: nat, n: nat): nat {
    if n == 0 then 1 else Power(base, n - 1) * base
  }

  lemma Distribute(v: nat, p: nat, w: nat, d: nat, base: nat)
    ensures (v * p + w) * base + d == v * (p * base) + (w * base + d)
  {
  }

  lemma {:induction false} ValueOfConcat(s: string, t: string, base: nat)
    ensures Value(s + t, base) == Value(s, base) * Power(base, |t|) + Value(t, base)
  {
    if t == "" {
      assert s + t == s;
    } else {
      var t', c := t[..|t| - 1], t[|t| - 1];
      assert s + t == s + t' + [c];
      ValueOfConcat(s, t', base);
      Shift(s + t', c, base);
      Distribute(Value(s, base), Power(base, |t'|), Value(t', base), DigitValue(c), base);
    }
  }

  function Zeros(n: nat): (s: string)
    ensures |s| == n && forall i :: 0 <= i < n ==> s[i] == '0'
  {
    if n == 0 then "" else "0" + Zeros(n - 1)
  }

  lemma ValueOfZero(s: string, base: nat)
    ensures Value("0" + s, base) == Value(s, base)
  {
    ValueOfConcat("0", s, base);
    Shift("", '0', base);
    assert "" + ['0'] == "0";
  }

  lemma {:induction false} ValueOfPadded(n: nat, s: string, base: nat)
    ensures Value(Zeros(n) + s, base) == Value(s, base)
  {
    if n == 0 {
      assert Zeros(0) + s == s;
    } else {
      ValueOfPadded(n - 1, s, base);
      ValueOfZero(Zeros(n - 1) + s, base);
      assert Zeros(n) + s == "0" + (Zeros(n - 1) + s);
    }
  }

  const MAX_INT: int := 0x7fff_ffff_ffff_ffff

  /** strconv.Atoi with its error dropped: anything but a decimal integer reads as 0, and one that
  does not fit 64 bits as the nearest that does. */
  function Atoi(s: string): int {
    if s != "" && s[0] == '-' then
      if s[1..] != "" && AllDigits(s[1..], 10) then Max(0 - Value(s[1..], 10), -1 - MAX_INT) else 0
    else
      var digits := if s != "" && s[0] == '+' then s[1..] else s;
      if digits != "" && AllDigits(digits, 10) then Min(Value(digits, 10), MAX_INT) else 0
  }

  function Min(a: int, b: int): int { if a <= b then a else b }

  function Max(a: int, b: int): int { if a >= b then a else b }

  lemma AtoiOfDigits(s: string)
    requires s != "" && AllDigits(s, 10)
    ensures Atoi(s) == Min(Value(s, 10), MAX_INT)
  {
    assert IsDigit(s[0], 10);
  }

  /** A sign is read, and anything else counts as 0; 2^63 and beyond do not fit. */
  lemma AtoiOfOthers(s: string)
    ensures s != "" && AllDigits(s, 10) ==>
              var v := Value(s, 10);
              && Atoi("+" + s) == Atoi(s)
              && Atoi("-" + s) == (if v <= 0x8000_0000_0000_0000 then 0 - v else -0x8000_0000_0000_0000)
              && Atoi(s) == (if v < 0x8000_0000_0000_0000 then v else 0x7fff_ffff_ffff_ffff)
    ensures s == "" || !AllDigits(s, 10) ==> Atoi("-" + s) == 0 && Atoi("+" + s) == 0
    ensures s == "" || (!AllDigits(s, 10) && s[0] != '-' && s[0] != '+') ==> Atoi(s) == 0
  {
    assert ("-" + s)[0] == '-' && ("-" + s)[1..] == s && ("+" + s)[0] == '+' && ("+" + s)[1..] == s;
    if s != "" && AllDigits(s, 10) {
      assert IsDigit(s[0], 10);
    }
  }

  lemma PaddedDigits(zeros: nat, w: string, base: nat)
    requires AllDigits(w, base) && base > 0
    ensures AllDigits(Zeros(zeros) + w, base)
  {
    var s := Zeros(zeros) + w;
    forall i | 0 <= i < |s| ensures IsDigit(s[i], base) {
      if i >= zeros { assert s[i] == w[i - zeros]; }
    }
  }

  lemma AtoiOfPadded(n: nat, zeros: nat)
    requires n <= MAX_INT
    ensures Atoi(Zeros(zeros) + Numeral(n, 10)) == n
  {
    var w := Numeral(n, 10);
    PaddedDigits(zeros, w, 10);
    AtoiOfDigits(Zeros(zeros) + w);
    ValueOfPadded(zeros, w, 10);
    ValueOfNumeral(n, 10);
  }
}
