/** The regular expressions of device patterns, what they match, and the normal form of hex tokens. */
module Pattern {
  import opened Text

  // ----- the regular expressions that are needed

  // \b, ^, 0*, " +" and single characters.
  datatype Item = Boundary | Begin | ZeroRun | SpaceRun | Lit(c: char)

  predicate IsWord(c: char) {
    '0' <= c <= '9' || 'A' <= c <= 'Z' || 'a' <= c <= 'z' || c == '_'
  }

  /** Letters, digits and '_' of ASCII, by their code points. */
  lemma WordCodes(c: char)
    ensures IsWord(c) <==>
            48 <= c as int <= 57 || 65 <= c as int <= 90 || 97 <= c as int <= 122 || c as int == 95
  {
  }

  predicate WordBoundary(s: string, i: nat)
    requires i <= |s|
  {
    (i > 0 && IsWord(s[i - 1])) != (i < |s| && IsWord(s[i]))
  }

  /** The items match s from i on. */
  predicate MatchAt(items: seq<Item>, s: string, i: nat)
    requires i <= |s|
    decreases |items|, |s| - i
  {
    if items == [] then true
    else
      match items[0]
      case Boundary => WordBoundary(s, i) && MatchAt(items[1..], s, i)
      case Begin => i == 0 && MatchAt(items[1..], s, i)
      case ZeroRun => MatchAt(items[1..], s, i) || (i < |s| && s[i] == '0' && MatchAt(items, s, i + 1))
      case SpaceRun => i < |s| && s[i] == ' ' && (MatchAt(items[1..], s, i + 1) || MatchAt(items, s, i + 1))
      case Lit(c) => i < |s| && s[i] == c && MatchAt(items[1..], s, i + 1)
  }

  /** MatchString */
  predicate Search(items: seq<Item>, s: string) {
    exists i :: 0 <= i <= |s| && MatchAt(items, s, i)
  }

  predicate IsMeta(c: char) {
    || c == '.' || c == '+' || c == '*' || c == '?' || c == '(' || c == ')' || c == '|' || c == '[' || c == ']'
    || c == '{' || c == '}' || c == '^' || c == '$' || c == '\\'
  }

  predicate IsRepetition(c: char) {
    c == '*' || c == '+' || c == '?' || c == '{'
  }

  /** Compile, of expressions built of those items; None for any other. */
  function Compile(re: string): Option<seq<Item>>
    decreases |re|
  {
    if re == "" then Some([])
    else if HasPrefix(re, "\\b") then Prepend(Boundary, Compile(re[2..]))
    else if |re| >= 2 && re[0] == '\\' && IsMeta(re[1]) then Prepend(Lit(re[1]), Compile(re[2..]))
    else if re[0] == '^' then Prepend(Begin, Compile(re[1..]))
    else if HasPrefix(re, "0*") then Prepend(ZeroRun, Compile(re[2..]))
    else if HasPrefix(re, " +") then Prepend(SpaceRun, Compile(re[2..]))
    else if IsMeta(re[0]) || (|re| >= 2 && IsRepetition(re[1])) then None
    else Prepend(Lit(re[0]), Compile(re[1..]))
  }

  function Prepend(item: Item, items: Option<seq<Item>>): Option<seq<Item>> {
    match items case None => None case Some(rest) => Some([item] + rest)
  }

  /** The characters with a meaning in expressions, by their code points. */
  lemma MetaCodes(c: char)
    ensures IsMeta(c) <==> c as int in {36, 40, 41, 42, 43, 46, 63, 91, 92, 93, 94, 123, 124, 125}
    ensures IsRepetition(c) <==> c as int in {42, 43, 63, 123}
  {
  }

  /** Every other use of these is beyond the expressions that are compiled here. */
  lemma OthersAreNotCompiled(c: char, r: char, rest: string)
    ensures IsMeta(c) && c != '\\' && c != '^' ==> Compile([c] + rest) == None
    ensures !IsMeta(c) && IsRepetition(r) && [c, r] != "0*" && [c, r] != " +" ==> Compile([c, r] + rest) == None
    ensures !IsMeta(r) && r != 'b' ==> Compile(['\\', r] + rest) == None
  {
    var one, two, quoted := [c] + rest, [c, r] + rest, ['\\', r] + rest;
    assert one[0] == c && two[0] == c && two[1] == r && quoted[0] == '\\' && quoted[1] == r;
    assert two[..2] == [c, r] && quoted[..2] == ['\\', r];
    assert "\\b"[0] == '\\' && "\\b"[1] == 'b' && "0*"[0] == '0' && " +"[0] == ' ';
    assert |one| >= 2 ==> one[..2][0] == c;
  }

  predicate NoRepetition(re: string) {
    re == "" || !IsRepetition(re[0])
  }

  lemma CompileLit(c: char, rest: string)
    requires !IsMeta(c) && c != ' ' && NoRepetition(rest)
    ensures Compile([c] + rest) == Prepend(Lit(c), Compile(rest))
  {
    var re := [c] + rest;
    assert re[1..] == rest && (rest != "" ==> re[1] == rest[0]);
    assert !HasPrefix(re, "\\b") && !HasPrefix(re, "0*") && !HasPrefix(re, " +") by {
      assert "\\b"[0] == '\\' && "0*"[1] == '*' && " +"[0] == ' ';
      assert |re| >= 2 ==> re[..2][0] == c && re[..2][1] == rest[0];
    }
  }

  lemma CompileBoundary(rest: string)
    ensures Compile("\\b" + rest) == Prepend(Boundary, Compile(rest))
  {
    assert ("\\b" + rest)[..2] == "\\b" && ("\\b" + rest)[2..] == rest;
  }

  lemma CompileZeroRun(rest: string)
    ensures Compile("0*" + rest) == Prepend(ZeroRun, Compile(rest))
  {
    var re := "0*" + rest;
    assert re[..2] == "0*" && re[2..] == rest;
    assert !HasPrefix(re, "\\b") by { assert "\\b"[0] == '\\' && re[..2][0] == '0'; }
  }

  // ----- normHex

  function LowerChar(c: char): char {
    if 'A' <= c <= 'Z' then 'a' + (c - 'A') else c
  }

  function Lower(s: string): string {
    if s == "" then "" else Lower(s[..|s| - 1]) + [LowerChar(s[|s| - 1])]
  }

  function TrimZeros(s: string): string {
    if s != "" && s[0] == '0' then TrimZeros(s[1..]) else s
  }

  function NormHex(s: string): string
    requires s != ""
  {
    var low := Lower(s);
    var t := TrimZeros(low);
    if t == "" then (if low == "" then "" else low[|low| - 1..]) else t
  }

  predicate IsHexToken(s: string) {
    s != "" && AllDigits(s, 16)
  }

  predicate IsLowerHex(c: char) {
    '0' <= c <= '9' || 'a' <= c <= 'f'
  }

  predicate AllLowerHex(s: string) {
    forall i :: 0 <= i < |s| ==> IsLowerHex(s[i])
  }

  lemma {:induction false} LowerKeepsValue(s: string)
    requires AllDigits(s, 16)
    ensures |Lower(s)| == |s| && AllLowerHex(Lower(s)) && Value(Lower(s), 16) == Value(s, 16)
  {
    if s != "" {
      var t, c := s[..|s| - 1], s[|s| - 1];
      assert IsDigit(c, 16);
      LowerKeepsValue(t);
      Shift(Lower(t), LowerChar(c), 16);
    }
  }

  lemma ZeroValue(c: char, s: string)
    requires c == '0'
    ensures Value([c] + s, 16) == Value(s, 16)
  {
    ValueOfPadded(1, s, 16);
    assert Zeros(1) + s == [c] + s;
  }

  lemma {:induction false} TrimZerosKeepsValue(s: string)
    requires AllLowerHex(s)
    ensures AllLowerHex(TrimZeros(s)) && Value(TrimZeros(s), 16) == Value(s, 16)
    ensures TrimZeros(s) != "" ==> TrimZeros(s)[0] != '0'
    ensures TrimZeros(s) == "" && s != "" ==> s[|s| - 1] == '0'
  {
    if s != "" && s[0] == '0' {
      assert s == [s[0]] + s[1..];
      ZeroValue(s[0], s[1..]);
      TrimZerosKeepsValue(s[1..]);
    }
  }

  lemma {:induction false} PositiveValue(s: string)
    requires s != "" && AllLowerHex(s) && s[0] != '0'
    ensures Value(s, 16) > 0
  {
    if |s| > 1 {
      PositiveValue(s[..|s| - 1]);
    } else {
      Shift("", s[0], 16);
      assert s == "" + [s[0]];
    }
  }

  /** A lower-case numeral without leading zeros is the numeral of its value. */
  lemma {:induction false} NumeralOfValue(s: string)
    requires s != "" && AllLowerHex(s) && s[0] != '0'
    ensures Numeral(Value(s, 16), 16) == s
  {
    var t, c := s[..|s| - 1], s[|s| - 1];
    assert s == t + [c];
    Shift(t, c, 16);
    assert IsLowerHex(c) && DigitValue(c) < 16 && DigitOf(DigitValue(c)) == c;
    if t == "" {
      assert Value(s, 16) == DigitValue(c);
    } else {
      PositiveValue(t);
      NumeralOfValue(t);
      var n := Value(s, 16);
      assert n == Value(t, 16) * 16 + DigitValue(c);
      assert n / 16 == Value(t, 16) && n % 16 == DigitValue(c);
    }
  }

  /** normHex is the numeral of the token's value, so two tokens have one normal form exactly if they
  have one value. */
  lemma NormHexIsNumeral(s: string)
    requires IsHexToken(s)
    ensures NormHex(s) == Numeral(Value(s, 16), 16)
  {
    var low := Lower(s);
    LowerKeepsValue(s);
    TrimZerosKeepsValue(low);
    var t := TrimZeros(low);
    if t == "" {
      assert NormHex(s) == "0";
      assert Value(s, 16) == 0;
      assert DigitOf(0) == '0';
    } else {
      NumeralOfValue(t);
    }
  }

  lemma NormHexExactly(a: string, b: string)
    requires IsHexToken(a) && IsHexToken(b)
    ensures NormHex(a) == NormHex(b) <==> Value(a, 16) == Value(b, 16)
  {
    NormHexIsNumeral(a);
    NormHexIsNumeral(b);
    ValueOfNumeral(Value(a, 16), 16);
    ValueOfNumeral(Value(b, 16), 16);
  }
}
