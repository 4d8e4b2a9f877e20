/** What mkDevPattern makes of a vid:pid pattern: the expression that its rewritings leave, and what that is
compiled to. */
module Selection {
  import opened Text
  import opened Pattern
  import opened DevPattern

  // ----- the expression a pattern is compiled to

  function PrependAll(items: seq<Item>, more: Option<seq<Item>>): Option<seq<Item>> {
    match more case None => None case Some(rest) => Some(items + rest)
  }

  lemma PrependMore(item: Item, items: seq<Item>, more: Option<seq<Item>>)
    ensures Prepend(item, PrependAll(items, more)) == PrependAll([item] + items, more)
  {
    if more.Some? {
      assert [item] + (items + more.value) == [item] + items + more.value;
    }
  }

  lemma PrependNothing(more: Option<seq<Item>>)
    ensures PrependAll([], more) == more
  {
    if more.Some? {
      assert [] + more.value == more.value;
    }
  }

  lemma FirstLit(w: string, rest: string)
    requires w != ""
    ensures Lits(w) == [Lit(w[0])] + Lits(w[1..]) && w + rest == [w[0]] + (w[1..] + rest)
  {
  }

  /** A token's digits stand for themselves wherever something that is no repetition follows. */
  lemma {:induction false} CompileDigits(w: string, rest: string)
    requires AllLowerHex(w) && NoRepetition(rest)
    ensures Compile(w + rest) == PrependAll(Lits(w), Compile(rest))
  {
    if w == "" {
      assert w + rest == rest && Lits(w) == [];
      PrependNothing(Compile(rest));
    } else {
      var more := w[1..] + rest;
      CompileDigits(w[1..], rest);
      PrependMore(Lit(w[0]), Lits(w[1..]), Compile(rest));
      FirstLit(w, rest);
      assert IsLowerHex(w[0]);
      NoRepetitionAfter(w[1..], rest);
      CompileLit(w[0], more);
    }
  }

  lemma NoRepetitionAfter(w: string, rest: string)
    requires AllLowerHex(w) && NoRepetition(rest)
    ensures NoRepetition(w + rest)
  {
    if w == "" {
      assert w + rest == rest;
    } else {
      assert (w + rest)[0] == w[0] && IsLowerHex(w[0]);
    }
  }

  /** \b0*w\b */
  function TokenText(w: string): string {
    "\\b0*" + w + "\\b"
  }

  lemma TokenParts(w: string, rest: string)
    ensures TokenText(w) + rest == "\\b" + ("0*" + (w + ("\\b" + rest)))
  {
  }

  lemma TokenItemParts(w: string, more: Option<seq<Item>>)
    ensures Prepend(Boundary, Prepend(ZeroRun, PrependAll(Lits(w), Prepend(Boundary, more))))
            == PrependAll(TokenItems(w), more)
  {
    if more.Some? {
      var r := more.value;
      assert [Boundary] + ([ZeroRun] + (Lits(w) + ([Boundary] + r))) == TokenItems(w) + r;
    }
  }

  lemma CompileToken(w: string, rest: string)
    requires AllLowerHex(w)
    ensures Compile(TokenText(w) + rest) == PrependAll(TokenItems(w), Compile(rest))
  {
    var tail := "\\b" + rest;
    CompileBoundary(rest);
    assert NoRepetition(tail) by { assert tail[0] == '\\'; }
    CompileDigits(w, tail);
    CompileZeroRun(w + tail);
    CompileBoundary("0*" + (w + tail));
    TokenParts(w, rest);
    TokenItemParts(w, Compile(rest));
  }

  lemma CompileColon(rest: string)
    requires NoRepetition(rest)
    ensures Compile(":" + rest) == PrependAll([Lit(':')], Compile(rest))
  {
    CompileLit(':', rest);
  }

  // ----- what mkDevPattern writes for vid:pid, vid: and :pid

  lemma HexRunOf(s: string, i: nat, e: nat)
    requires i <= e <= |s| && AllDigits(s[i..e], 16) && (e == |s| || !IsDigit(s[e], 16))
    ensures HexRun(s, i) == e - i
    decreases e - i
  {
    if i < e {
      assert s[i..e][0] == s[i];
      assert s[i + 1..e] == s[i..e][1..];
      HexRunOf(s, i + 1, e);
    }
  }

  lemma {:induction false} CopyBefore(s: string, i: nat)
    requires i <= |s| && forall k :: i <= k < |s| ==> s[k] != ':'
    ensures RewriteBefore(s, i) == s[i..]
    decreases |s| - i
  {
    if i < |s| {
      CopyBefore(s, i + 1);
      assert s[i..] == [s[i]] + s[i + 1..];
    }
  }

  /** a: at the start of a pattern. */
  lemma {:induction false} RewriteVid(a: string, rest: string)
    requires IsHexToken(a) && forall k :: 0 <= k < |rest| ==> rest[k] != ':'
    ensures RewriteBefore(a + ":" + rest, 0) == TokenText(NormHex(a)) + ":" + rest
  {
    var s := a + ":" + rest;
    assert s[0..|a|] == a;
    assert IsDigit(a[0], 16);
    HexRunOf(s, 0, |a|);
    forall k | |a| + 1 <= k < |s| ensures s[k] != ':' {
      assert s[k] == rest[k - |a| - 1];
    }
    CopyBefore(s, |a| + 1);
    assert s[|a| + 1..] == rest;
    assert "\\b0*" + NormHex(a) + "\\b:" == TokenText(NormHex(a)) + ":";
  }

  lemma Reassociate(a: string, b: string, c: string)
    ensures a + b + c == a + (b + c)
  {
  }

  lemma CopyOneAfter(s: string, i: nat)
    requires i < |s| && s[i] != ':'
    ensures RewriteAfter(s, i) == [s[i]] + RewriteAfter(s, i + 1)
  {
  }

  lemma {:induction false} CopyAfter(s: string, i: nat, e: nat)
    requires i <= e <= |s| && forall k :: i <= k < e ==> s[k] != ':'
    ensures RewriteAfter(s, i) == s[i..e] + RewriteAfter(s, e)
    decreases e - i
  {
    var rest := RewriteAfter(s, e);
    if i < e {
      CopyAfter(s, i + 1, e);
      CopyOneAfter(s, i);
      assert s[i..e] == [s[i]] + s[i + 1..e];
      Reassociate([s[i]], s[i + 1..e], rest);
    } else {
      assert s[i..e] + rest == rest;
    }
  }

  lemma TokenAfterLastColon(s: string, i: nat, b: string)
    requires i < |s| && s[i] == ':' && s[i + 1..] == b && IsHexToken(b)
    ensures HexRun(s, i + 1) == |b| && TokenAfterColon(s, i)
  {
    assert s[i + 1..|s|] == b;
    HexRunOf(s, i + 1, |s|);
    assert s[|s| - 1] == b[|b| - 1] && IsDigit(b[|b| - 1], 16);
  }

  lemma RewriteToken(s: string, i: nat, e: nat)
    requires i < e <= |s| && TokenAfterColon(s, i) && HexRun(s, i + 1) == e - i - 1
    ensures RewriteAfter(s, i) == ":\\b0*" + NormHex(s[i + 1..e]) + "\\b" + RewriteAfter(s, e)
  {
  }

  lemma RewriteEnd(s: string)
    ensures RewriteAfter(s, |s|) == ""
  {
  }

  lemma ColonToken(w: string)
    ensures ":\\b0*" + w + "\\b" + "" == ":" + TokenText(w)
  {
  }

  lemma RewriteAtColon(s: string, i: nat, b: string)
    requires i < |s| && s[i] == ':' && s[i + 1..] == b && IsHexToken(b)
    ensures RewriteAfter(s, i) == ":" + TokenText(NormHex(b))
  {
    TokenAfterLastColon(s, i, b);
    assert s[i + 1..|s|] == b;
    RewriteToken(s, i, |s|);
    RewriteEnd(s);
    ColonToken(NormHex(b));
  }

  lemma Around(s: string, front: string, b: string)
    requires s == front + ":" + b && forall k :: 0 <= k < |front| ==> front[k] != ':'
    ensures |s| == |front| + 1 + |b| && s[0..|front|] == front && s[|front|] == ':' && s[|front| + 1..] == b
    ensures forall k :: 0 <= k < |front| ==> s[k] != ':'
  {
    assert forall k :: 0 <= k < |front| ==> s[k] == front[k];
  }

  /** :b at the end of what is already rewritten. */
  lemma {:induction false} RewritePid(front: string, b: string)
    requires IsHexToken(b) && forall k :: 0 <= k < |front| ==> front[k] != ':'
    ensures RewriteAfter(front + ":" + b, 0) == front + ":" + TokenText(NormHex(b))
  {
    var s := front + ":" + b;
    Around(s, front, b);
    RewriteAtColon(s, |front|, b);
    CopyAfter(s, 0, |front|);
    Reassociate(front, ":", TokenText(NormHex(b)));
  }

  lemma {:induction false} RewriteNoPid(front: string)
    requires forall k :: 0 <= k < |front| ==> front[k] != ':'
    ensures RewriteAfter(front + ":", 0) == front + ":"
  {
    var s := front + ":";
    var n := |front|;
    CopyAfter(s, 0, n);
    assert s[0..n] == front && HexRun(s, |s|) == 0 && s[n] == ':';
    assert RewriteAfter(s, |s|) == "";
    assert RewriteAfter(s, n) == [s[n]] + RewriteAfter(s, n + 1);
  }

  lemma {:induction false} CopySpace(s: string, after: bool)
    requires forall k :: 0 <= k < |s| ==> !IsReSpace(s[k])
    ensures RewriteSpace(s, after) == s
  {
    if s != "" {
      CopySpace(s[1..], false);
    }
  }

  lemma {:induction false} NotBusid(p: string, k: nat)
    requires k < |p| && p[k] == ':'
    ensures !IsPortsPattern(p)
    decreases |p|
  {
    var d := DigitRun(p);
    RunStops(p, k);
    if d < k && p[d] == '.' {
      assert p[d + 1..][k - d - 1] == ':';
      NotBusid(p[d + 1..], k - d - 1);
    }
  }

  lemma {:induction false} RunStops(p: string, k: nat)
    requires k < |p| && p[k] == ':'
    ensures DigitRun(p) <= k
  {
    if k > 0 && IsDigit(p[0], 10) {
      RunStops(p[1..], k - 1);
    }
  }

  lemma ColonIsNoBusid(p: string, k: nat)
    requires k < |p| && p[k] == ':'
    ensures !IsBusidPattern(p)
  {
    var d := DigitRun(p);
    RunStops(p, k);
    if d < k && p[d] == '-' {
      assert p[d + 1..][k - d - 1] == ':';
      NotBusid(p[d + 1..], k - d - 1);
    }
  }

  lemma TokenHasNoColon(w: string)
    requires AllLowerHex(w)
    ensures forall k :: 0 <= k < |TokenText(w)| ==> TokenText(w)[k] != ':' && !IsReSpace(TokenText(w)[k])
  {
    var t := TokenText(w);
    assert t == "\\b0*" + (w + "\\b");
    forall k | 0 <= k < |t| ensures t[k] != ':' && !IsReSpace(t[k]) {
      if 4 <= k < 4 + |w| {
        assert t[k] == w[k - 4] && IsLowerHex(w[k - 4]);
      }
    }
  }

  lemma NormIsPlain(a: string)
    requires IsHexToken(a)
    ensures AllLowerHex(NormHex(a)) && NormHex(a) != ""
  {
    NormHexIsNumeral(a);
    var w := Numeral(Value(a, 16), 16);
    NumeralIsLower(Value(a, 16));
  }

  lemma {:induction false} NumeralIsLower(n: nat)
    ensures AllLowerHex(Numeral(n, 16))
    decreases n
  {
    DivMod(n, 16);
    if n >= 16 {
      NumeralIsLower(n / 16);
    }
  }

  lemma SourceOfVidPid(a: string, b: string)
    requires IsHexToken(a) && (b == "" || IsHexToken(b))
    ensures Source(a + ":" + b) ==
            TokenText(NormHex(a)) + ":" + if b == "" then "" else TokenText(NormHex(b))
  {
    var p := a + ":" + b;
    assert p[|a|] == ':';
    ColonIsNoBusid(p, |a|);
    forall k | 0 <= k < |b| ensures b[k] != ':' { assert IsDigit(b[k], 16); }
    RewriteVid(a, b);
    var va := TokenText(NormHex(a));
    NormIsPlain(a);
    TokenHasNoColon(NormHex(a));
    var q := va + ":" + if b == "" then "" else TokenText(NormHex(b));
    if b == "" {
      assert va + ":" + b == va + ":";
      RewriteNoPid(va);
    } else {
      NormIsPlain(b);
      TokenHasNoColon(NormHex(b));
      RewritePid(va, b);
    }
    CopySpace(q, false);
  }

  lemma SourceOfPid(b: string)
    requires IsHexToken(b)
    ensures Source(":" + b) == ":" + TokenText(NormHex(b))
  {
    var p := ":" + b;
    ColonIsNoBusid(p, 0);
    forall k | 1 <= k < |p| ensures p[k] != ':' { assert IsDigit(b[k - 1], 16); }
    assert HexRun(p, 0) == 0;
    CopyBefore(p, 1);
    assert RewriteBefore(p, 0) == p;
    RewritePid("", b);
    assert "" + ":" + b == p;
    NormIsPlain(b);
    TokenHasNoColon(NormHex(b));
    CopySpace(":" + TokenText(NormHex(b)), false);
  }

  lemma CompiledPid(w: string)
    requires AllLowerHex(w)
    ensures Compile(":" + TokenText(w)) == Some([Lit(':')] + TokenItems(w))
  {
    CompileToken(w, "");
    assert TokenText(w) + "" == TokenText(w);
    CompileColon(TokenText(w));
    assert TokenItems(w) + [] == TokenItems(w);
  }

  /** vid:pid compiles to \b0*V\b:\b0*P\b with the normal forms of its tokens, and the one-sided forms to
  the one half. */
  lemma PatternItems(a: string, b: string)
    requires (a == "" || IsHexToken(a)) && (b == "" || IsHexToken(b)) && !(a == "" && b == "")
    ensures MkDevPattern(a + ":" + b) == Some(DevPattern(
              (if a == "" then [] else TokenItems(NormHex(a))) + ([Lit(':')]
              + if b == "" then [] else TokenItems(NormHex(b))), false))
  {
    var p := a + ":" + b;
    assert !IsNegated(p) by {
      if a == "" { assert p[0] == ':'; } else { assert p[0] == a[0] && IsDigit(a[0], 16); }
    }
    if a == "" {
      assert p == ":" + b;
      SourceOfPid(b);
      NormIsPlain(b);
      CompiledPid(NormHex(b));
      assert [] + ([Lit(':')] + TokenItems(NormHex(b))) == [Lit(':')] + TokenItems(NormHex(b));
    } else {
      SourceOfVidPid(a, b);
      NormIsPlain(a);
      var after := if b == "" then ":" else ":" + TokenText(NormHex(b));
      assert Source(p) == TokenText(NormHex(a)) + after;
      if b == "" {
        CompileColon("");
        assert ":" + "" == ":";
      } else {
        NormIsPlain(b);
        CompiledPid(NormHex(b));
      }
      CompileToken(NormHex(a), after);
    }
  }
}
