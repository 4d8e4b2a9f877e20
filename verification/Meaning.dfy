/** The devices that a pattern matches, in terms of the devices: of their ids for vid:pid, of their names for
busids, whatever else is in their texts. */
module Meaning {
  import opened Text
  import opened Pattern
  import opened DevPattern
  import opened Selection

  predicate NoColon(s: string) {
    forall k :: 0 <= k < |s| ==> s[k] != ':'
  }

  // ----- where things are in a spec

  /** s holds v at [p..k), after something that is no word character and before a colon, the only one;
  and after it w, ended by a blank at q. */
  ghost predicate Shape(s: string, p: nat, k: nat, q: nat, v: string, w: string) {
    && 0 < p < k < q < |s| && !IsWord(s[p - 1]) && s[k] == ':' && s[q] == ' '
    && s[p..k] == v && s[k + 1..q] == w && AllLowerHex(v) && AllLowerHex(w)
    && (forall j :: 0 <= j < |s| && j != k ==> s[j] != ':')
    && k + 1 < q
  }

  lemma Hex4IsLower(n: nat)
    ensures Hex4(n) != "" && AllLowerHex(Hex4(n)) && NoColon(Hex4(n))
  {
    NumeralIsLower(n);
    var s := Hex4(n);
    forall i | 0 <= i < |s| ensures IsLowerHex(s[i]) {
      var z := |s| - |Numeral(n, 16)|;
      if i >= z { assert s[i] == Numeral(n, 16)[i - z]; }
    }
  }

  lemma ShapeOf(busid: string, v: string, w: string, rest: string)
    requires NoColon(busid) && NoColon(rest) && v != "" && w != "" && AllLowerHex(v) && AllLowerHex(w)
    ensures Shape(busid + "  " + v + ":" + w + "  " + rest,
                  |busid| + 2, |busid| + 2 + |v|, |busid| + 3 + |v| + |w|, v, w)
  {
    var s := busid + "  " + v + ":" + w + "  " + rest;
    var p := |busid| + 2;
    var k := p + |v|;
    var q := k + 1 + |w|;
    assert s[p..k] == v && s[k + 1..q] == w;
    forall j | 0 <= j < |s| && j != k ensures s[j] != ':' {
      if j < |busid| { assert s[j] == busid[j]; }
      else if p <= j < k { assert s[j] == v[j - p]; }
      else if k < j < q { assert s[j] == w[j - k - 1]; }
      else if q + 2 <= j { assert s[j] == rest[j - q - 2]; }
    }
  }

  lemma SpecShape(busid: string, vid: nat, pid: nat, rest: string) returns (p: nat, k: nat, q: nat)
    requires NoColon(busid) && NoColon(rest)
    ensures Shape(SpecText(busid, vid, pid, rest), p, k, q, Hex4(vid), Hex4(pid))
  {
    Hex4IsLower(vid);
    Hex4IsLower(pid);
    ShapeOf(busid, Hex4(vid), Hex4(pid), rest);
    p := |busid| + 2;
    k := p + |Hex4(vid)|;
    q := k + 1 + |Hex4(pid)|;
  }

  // ----- tokens next to the colon

  lemma ShapeChars(s: string, p: nat, k: nat, q: nat, v: string, w: string)
    requires Shape(s, p, k, q, v, w)
    ensures forall j :: p <= j < k ==> IsLowerHex(s[j])
    ensures forall j :: k < j < q ==> IsLowerHex(s[j])
  {
    forall j | p <= j < k ensures IsLowerHex(s[j]) { assert s[j] == v[j - p]; }
    forall j | k < j < q ensures IsLowerHex(s[j]) { assert s[j] == w[j - k - 1]; }
  }

  lemma TokenChars(s: string, i: nat, e: nat, x: string)
    requires ZerosThen(s, i, e, x) && AllLowerHex(x)
    ensures forall j :: i <= j < e ==> IsLowerHex(s[j])
  {
    forall j | i <= j < e ensures IsLowerHex(s[j]) {
      if j >= e - |x| { assert s[j] == x[j - (e - |x|)]; }
    }
  }

  lemma NoBoundaryInside(s: string, i: nat)
    requires 0 < i < |s| && IsLowerHex(s[i - 1]) && IsLowerHex(s[i])
    ensures !WordBoundary(s, i)
  {
  }

  lemma TokenBefore(s: string, p: nat, k: nat, q: nat, v: string, w: string, x: string, i: nat)
    requires Shape(s, p, k, q, v, w) && x != "" && AllLowerHex(x)
    ensures IsToken(s, i, k, x) <==> i == p && ZerosThen(s, p, k, x)
  {
    ShapeChars(s, p, k, q, v, w);
    if p < i < k {
      NoBoundaryInside(s, i);
    }
    if ZerosThen(s, i, k, x) {
      TokenChars(s, i, k, x);
    }
    assert IsLowerHex(s[p]) && IsLowerHex(s[k - 1]);
  }

  lemma TokenAfter(s: string, p: nat, k: nat, q: nat, v: string, w: string, x: string, e: nat)
    requires Shape(s, p, k, q, v, w) && x != "" && AllLowerHex(x)
    ensures IsToken(s, k + 1, e, x) <==> e == q && ZerosThen(s, k + 1, q, x)
  {
    ShapeChars(s, p, k, q, v, w);
    if k + 1 < e < q {
      NoBoundaryInside(s, e);
    }
    if ZerosThen(s, k + 1, e, x) {
      TokenChars(s, k + 1, e, x);
    }
    assert IsLowerHex(s[k + 1]) && IsLowerHex(s[q - 1]);
  }

  lemma {:induction false} ZerosAre(s: string)
    requires forall i :: 0 <= i < |s| ==> s[i] == '0'
    ensures s == Zeros(|s|)
  {
  }

  lemma ValueOfHex4(n: nat)
    ensures Value(Hex4(n), 16) == n
  {
    var w := Numeral(n, 16);
    ValueOfPadded(if |w| < 4 then 4 - |w| else 0, w, 16);
    ValueOfNumeral(n, 16);
  }

  lemma ZerosThenValue(s: string, i: nat, e: nat, h: string, w: string)
    requires i <= e <= |s| && s[i..e] == h && ZerosThen(s, i, e, w)
    ensures Value(h, 16) == Value(w, 16)
  {
    var m := |h| - |w|;
    assert h[m..] == s[e - |w|..e] == w;
    forall j | 0 <= j < m ensures h[..m][j] == '0' { assert h[j] == s[i + j]; }
    ZerosAre(h[..m]);
    assert h == Zeros(m) + w;
    ValueOfPadded(m, w, 16);
  }

  lemma Hex4IsPadded(s: string, i: nat, e: nat, n: nat)
    requires i <= e <= |s| && s[i..e] == Hex4(n)
    ensures ZerosThen(s, i, e, Numeral(n, 16))
  {
    var h, w := Hex4(n), Numeral(n, 16);
    var z := |h| - |w|;
    assert h[z..] == w;
    assert s[e - |w|..e] == h[z..];
    forall j | i <= j < e - |w| ensures s[j] == '0' { assert s[j] == h[j - i]; }
  }

  /** The four-digit field of n is zeros and then the numeral of x exactly if n is x. */
  lemma FieldIsNumber(s: string, i: nat, e: nat, n: nat, x: nat)
    requires i <= e <= |s| && s[i..e] == Hex4(n)
    ensures ZerosThen(s, i, e, Numeral(x, 16)) <==> n == x
  {
    Hex4IsPadded(s, i, e, n);
    ValueOfHex4(n);
    ValueOfNumeral(x, 16);
    if ZerosThen(s, i, e, Numeral(x, 16)) {
      ZerosThenValue(s, i, e, Hex4(n), Numeral(x, 16));
    }
  }

  // ----- vid:pid

  lemma ColonMatches(s: string, p: nat, k: nat, q: nat, v: string, w: string, items: seq<Item>, e: nat)
    requires Shape(s, p, k, q, v, w) && e <= |s|
    ensures MatchAt([Lit(':')] + items, s, e) <==> e == k && MatchAt(items, s, k + 1)
  {
    assert ([Lit(':')] + items)[1..] == items;
  }

  /** The pattern half after the colon, if there is one. */
  function PidItems(b: Option<nat>): seq<Item> {
    match b case None => [] case Some(x) => TokenItems(Numeral(x, 16))
  }

  lemma PidTokenMatches(s: string, p: nat, k: nat, q: nat, vid: nat, pid: nat, b: nat)
    requires Shape(s, p, k, q, Hex4(vid), Hex4(pid))
    ensures MatchAt(TokenItems(Numeral(b, 16)), s, k + 1) <==> b == pid
  {
    var x := Numeral(b, 16);
    NumeralIsLower(b);
    MatchToken(x, [], s, k + 1);
    assert TokenItems(x) + [] == TokenItems(x);
    FieldIsNumber(s, k + 1, q, pid, b);
    TokenAfter(s, p, k, q, Hex4(vid), Hex4(pid), x, q);
    if e :| IsToken(s, k + 1, e, x) && MatchAt([], s, e) {
      TokenAfter(s, p, k, q, Hex4(vid), Hex4(pid), x, e);
    }
  }

  lemma PidMatches(s: string, p: nat, k: nat, q: nat, vid: nat, pid: nat, b: Option<nat>)
    requires Shape(s, p, k, q, Hex4(vid), Hex4(pid))
    ensures MatchAt(PidItems(b), s, k + 1) <==> (b.Some? ==> b.value == pid)
  {
    if b.Some? {
      PidTokenMatches(s, p, k, q, vid, pid, b.value);
    }
  }

  lemma BothMatch(s: string, p: nat, k: nat, q: nat, vid: nat, pid: nat, a: nat, b: Option<nat>)
    requires Shape(s, p, k, q, Hex4(vid), Hex4(pid))
    ensures Search(TokenItems(Numeral(a, 16)) + ([Lit(':')] + PidItems(b)), s) <==>
            a == vid && (b.Some? ==> b.value == pid)
  {
    var x, rest := Numeral(a, 16), [Lit(':')] + PidItems(b);
    NumeralIsLower(a);
    PidMatches(s, p, k, q, vid, pid, b);
    FieldIsNumber(s, p, k, vid, a);
    TokenBefore(s, p, k, q, Hex4(vid), Hex4(pid), x, p);
    ColonMatches(s, p, k, q, Hex4(vid), Hex4(pid), PidItems(b), k);
    MatchToken(x, rest, s, p);
    if i :| 0 <= i <= |s| && MatchAt(TokenItems(x) + rest, s, i) {
      MatchToken(x, rest, s, i);
      var e :| IsToken(s, i, e, x) && MatchAt(rest, s, e);
      ColonMatches(s, p, k, q, Hex4(vid), Hex4(pid), PidItems(b), e);
      TokenBefore(s, p, k, q, Hex4(vid), Hex4(pid), x, i);
    }
  }

  lemma PidOnlyMatches(s: string, p: nat, k: nat, q: nat, vid: nat, pid: nat, b: nat)
    requires Shape(s, p, k, q, Hex4(vid), Hex4(pid))
    ensures Search([Lit(':')] + PidItems(Some(b)), s) <==> b == pid
  {
    PidMatches(s, p, k, q, vid, pid, Some(b));
    ColonMatches(s, p, k, q, Hex4(vid), Hex4(pid), PidItems(Some(b)), k);
    if i :| 0 <= i <= |s| && MatchAt([Lit(':')] + PidItems(Some(b)), s, i) {
      ColonMatches(s, p, k, q, Hex4(vid), Hex4(pid), PidItems(Some(b)), i);
    }
  }

  function TokenValue(t: string): Option<nat> {
    if t == "" then None else Some(Value(t, 16))
  }

  /** The items of a pattern whose tokens have these values. */
  function ItemsOf(a: Option<nat>, b: Option<nat>): seq<Item> {
    (match a case None => [] case Some(x) => TokenItems(Numeral(x, 16))) + ([Lit(':')] + PidItems(b))
  }

  lemma ItemsMatch(s: string, p: nat, k: nat, q: nat, vid: nat, pid: nat, a: Option<nat>, b: Option<nat>)
    requires Shape(s, p, k, q, Hex4(vid), Hex4(pid)) && (a.Some? || b.Some?)
    ensures Search(ItemsOf(a, b), s) <==> (a.Some? ==> a.value == vid) && (b.Some? ==> b.value == pid)
  {
    if a.Some? {
      BothMatch(s, p, k, q, vid, pid, a.value, b);
    } else {
      PidOnlyMatches(s, p, k, q, vid, pid, b.value);
      assert ItemsOf(a, b) == [Lit(':')] + PidItems(b);
    }
  }

  lemma PatternOfValues(a: string, b: string)
    requires (a == "" || IsHexToken(a)) && (b == "" || IsHexToken(b)) && !(a == "" && b == "")
    ensures MkDevPattern(a + ":" + b) == Some(DevPattern(ItemsOf(TokenValue(a), TokenValue(b)), false))
  {
    PatternItems(a, b);
    if a != "" { NormHexIsNumeral(a); }
    if b != "" { NormHexIsNumeral(b); }
  }

  lemma {:induction false} ItemsSelect(d: DevPattern, a: Option<nat>, b: Option<nat>, busid: string,
                                       vid: nat, pid: nat, rest: string)
    requires d == DevPattern(ItemsOf(a, b), false) && (a.Some? || b.Some?) && NoColon(busid) && NoColon(rest)
    ensures Matches(d, SpecText(busid, vid, pid, rest)) <==>
            (a.Some? ==> a.value == vid) && (b.Some? ==> b.value == pid)
  {
    var p, k, q := SpecShape(busid, vid, pid, rest);
    ItemsMatch(SpecText(busid, vid, pid, rest), p, k, q, vid, pid, a, b);
  }

  /** vid:pid, vid: and :pid select by number: whatever the zeros and the letter case of the tokens, the
  pattern matches a device - its strings having no colon - exactly if its ids are the tokens' values. */
  lemma {:induction false} VidPidMeans(a: string, b: string, busid: string, vid: nat, pid: nat, rest: string)
    requires (a == "" || IsHexToken(a)) && (b == "" || IsHexToken(b)) && !(a == "" && b == "")
    requires NoColon(busid) && NoColon(rest)
    ensures MkDevPattern(a + ":" + b).Some?
    ensures Matches(MkDevPattern(a + ":" + b).value, SpecText(busid, vid, pid, rest)) <==>
            (a != "" ==> Value(a, 16) == vid) && (b != "" ==> Value(b, 16) == pid)
  {
    PatternOfValues(a, b);
    ItemsSelect(MkDevPattern(a + ":" + b).value, TokenValue(a), TokenValue(b), busid, vid, pid, rest);
  }

  // ----- negation

  /** A leading '!' or '-' selects exactly the other devices. */
  lemma NegationSelectsTheOthers(mark: char, p: string, spec: string)
    requires (mark == '!' || mark == '-') && !IsNegated(p) && MkDevPattern(p).Some?
    ensures MkDevPattern([mark] + p).Some?
    ensures Matches(MkDevPattern([mark] + p).value, spec) <==> !Matches(MkDevPattern(p).value, spec)
  {
    assert ([mark] + p)[1..] == p && ([mark] + p)[..1] == [mark];
  }

  // ----- busids

  lemma {:induction false} PortsChars(p: string, front: nat)
    requires front <= |p| && IsPortsPattern(p[front..])
    requires BusidChars(p[..front])
    ensures BusidChars(p)
    decreases |p| - front
  {
    var rest := p[front..];
    var d := DigitRun(rest);
    assert forall i :: 0 <= i < d ==> rest[i] == rest[..d][i];
    forall i | front <= i < front + d ensures IsDigit(p[i], 10) { assert p[i] == rest[i - front]; }
    if d == |rest| {
      assert forall i :: 0 <= i < front ==> p[i] == p[..front][i];
    } else {
      var next := front + d + 1;
      assert p[front + d] == rest[d];
      assert rest[d + 1..] == p[next..];
      forall i | 0 <= i < next ensures IsDigit(p[i], 10) || p[i] == '.' || p[i] == '-' {
        if i < front { assert p[i] == p[..front][i]; }
      }
      PortsChars(p, next);
    }
  }

  lemma BusidPatternChars(p: string)
    requires IsBusidPattern(p)
    ensures BusidChars(p) && p != "" && IsDigit(p[0], 10)
  {
    var d := DigitRun(p);
    assert forall i :: 0 <= i < d ==> p[i] == p[..d][i];
    PortsChars(p, d + 1);
  }

  lemma CompileDot(rest: string)
    ensures Compile("\\." + rest) == Prepend(Lit('.'), Compile(rest))
  {
    var re := "\\." + rest;
    assert re[..2] == "\\." && re[2..] == rest;
    assert re[0] == '\\' && re[1] == '.' && "\\b"[1] == 'b';
    assert re[..2][1] == '.';
  }

  lemma CompileBlank()
    ensures Compile(" ") == Some([Lit(' ')])
  {
    assert " "[1..] == "" && Compile("") == Some([]);
    assert |" "| == 1 && " "[0] == ' ';
    assert [Lit(' ')] + [] == [Lit(' ')];
  }

  lemma {:induction false} CompileQuoted(p: string)
    requires BusidChars(p)
    ensures Compile(QuoteMeta(p) + " ") == Some(Lits(p) + [Lit(' ')])
  {
    if p == "" {
      CompileBlank();
      assert QuoteMeta(p) + " " == " " && Lits(p) + [Lit(' ')] == [Lit(' ')];
    } else {
      var rest := QuoteMeta(p[1..]) + " ";
      CompileQuoted(p[1..]);
      assert Lits(p) + [Lit(' ')] == [Lit(p[0])] + (Lits(p[1..]) + [Lit(' ')]);
      if p[0] == '.' {
        assert QuoteMeta(p) + " " == "\\." + rest;
        CompileDot(rest);
      } else {
        assert QuoteMeta(p) + " " == [p[0]] + rest;
        assert NoRepetition(rest) by {
          if |p| > 1 { assert p[1..][0] == p[1]; }
        }
        CompileLit(p[0], rest);
      }
    }
  }

  lemma CompileBegin(rest: string)
    ensures Compile("^" + rest) == Prepend(Begin, Compile(rest))
  {
    var re := "^" + rest;
    assert re[0] == '^' && re[1..] == rest;
    assert !HasPrefix(re, "\\b") by {
      assert "\\b"[0] == '\\' && (|re| >= 2 ==> re[..2][0] == '^');
    }
  }

  function BusidItems(p: string): seq<Item> {
    [Begin] + (Lits(p) + [Lit(' ')])
  }

  lemma BusidPatternItems(p: string)
    requires IsBusidPattern(p)
    ensures MkDevPattern(p) == Some(DevPattern(BusidItems(p), false))
  {
    BusidPatternChars(p);
    CompileQuoted(p);
    CompileBegin(QuoteMeta(p) + " ");
    assert "^" + QuoteMeta(p) + " " == "^" + (QuoteMeta(p) + " ");
    assert !IsNegated(p);
  }

  lemma BusidItemsMatch(p: string, s: string)
    ensures Search(BusidItems(p), s) <==> |p| < |s| && s[..|p|] == p && s[|p|] == ' '
  {
    assert BusidItems(p)[1..] == Lits(p) + [Lit(' ')] && [Lit(' ')][1..] == [];
    MatchLits(p, [Lit(' ')], s, 0);
    assert |p| <= |s| ==> s[0..|p|] == s[..|p|];
    if |p| < |s| && s[..|p|] == p && s[|p|] == ' ' {
      assert MatchAt(BusidItems(p), s, 0);
    }
  }

  /** A busid selects the device of that busid, and no device whose busid merely begins with it. */
  lemma BusidMeans(p: string, busid: string, vid: nat, pid: nat, rest: string)
    requires IsBusidPattern(p) && forall i :: 0 <= i < |busid| ==> busid[i] != ' '
    ensures MkDevPattern(p).Some?
    ensures Matches(MkDevPattern(p).value, SpecText(busid, vid, pid, rest)) <==> p == busid
  {
    var s := SpecText(busid, vid, pid, rest);
    BusidPatternItems(p);
    BusidPatternChars(p);
    BusidItemsMatch(p, s);
    assert s[..|busid|] == busid && s[|busid|] == ' ';
    assert forall j :: 0 <= j < |busid| ==> s[j] == busid[j];
    assert |busid| < |p| <= |s| ==> s[..|p|][|busid|] == ' ';
    assert |busid| < |p| ==> p[|busid|] != ' ';
  }
}
