/** What a pattern of plain words matches: texts in which these stand one after another, with blanks
between them. */
module Words {
  import opened Text
  import opened Pattern
  import opened DevPattern
  import opened Selection

  /** Neither part of an expression's syntax, nor white space, nor a colon. */
  predicate IsPlainChar(c: char) {
    !IsMeta(c) && !IsReSpace(c) && c != ':'
  }

  predicate IsPlainWord(w: string) {
    w != "" && forall i :: 0 <= i < |w| ==> IsPlainChar(w[i])
  }

  predicate ArePlainWords(words: seq<string>) {
    words != [] && forall i :: 0 <= i < |words| ==> IsPlainWord(words[i])
  }

  predicate IsWhite(s: string) {
    s != "" && forall i :: 0 <= i < |s| ==> IsReSpace(s[i])
  }

  predicate AreWhite(seps: seq<string>) {
    forall i :: 0 <= i < |seps| ==> IsWhite(seps[i])
  }

  predicate IsBlanks(s: string) {
    s != "" && forall i :: 0 <= i < |s| ==> s[i] == ' '
  }

  predicate AreBlanks(seps: seq<string>) {
    forall i :: 0 <= i < |seps| ==> IsBlanks(seps[i])
  }

  /** The words with the separators between them. */
  function Woven(words: seq<string>, seps: seq<string>): string
    requires |words| == |seps| + 1
  {
    if seps == [] then words[0] else words[0] + (seps[0] + Woven(words[1..], seps[1..]))
  }

  // ----- what such a pattern is rewritten to

  lemma {:induction false} RewriteWord(w: string, rest: string)
    requires forall i :: 0 <= i < |w| ==> !IsReSpace(w[i])
    ensures RewriteSpace(w + rest, false) == w + RewriteSpace(rest, false)
  {
    if w == "" {
      assert w + rest == rest;
    } else {
      RewriteWord(w[1..], rest);
      assert (w + rest)[1..] == w[1..] + rest;
    }
  }

  lemma {:induction false} RewriteWhite(sep: string, rest: string, after: bool)
    requires IsWhite(sep) && rest != "" && !IsReSpace(rest[0])
    ensures RewriteSpace(sep + rest, after) == (if after then "" else " +") + RewriteSpace(rest, false)
  {
    assert (sep + rest)[1..] == sep[1..] + rest;
    if |sep| > 1 {
      RewriteWhite(sep[1..], rest, true);
    } else {
      assert sep[1..] + rest == rest;
    }
  }

  /** The separators of the expression. */
  function Pluses(n: nat): seq<string> {
    seq(n, _ => " +")
  }

  lemma {:induction false} RewriteWoven(words: seq<string>, seps: seq<string>)
    requires ArePlainWords(words) && AreWhite(seps) && |words| == |seps| + 1
    ensures RewriteSpace(Woven(words, seps), false) == Woven(words, Pluses(|seps|))
  {
    if seps == [] {
      RewriteWord(words[0], "");
      assert words[0] + "" == words[0];
    } else {
      var more := Woven(words[1..], seps[1..]);
      RewriteWord(words[0], seps[0] + more);
      FirstIsPlain(words[1..], seps[1..]);
      RewriteWhite(seps[0], more, false);
      RewriteWoven(words[1..], seps[1..]);
      assert Pluses(|seps|)[1..] == Pluses(|seps| - 1);
    }
  }

  lemma FirstIsPlain(words: seq<string>, seps: seq<string>)
    requires ArePlainWords(words) && |words| == |seps| + 1
    ensures Woven(words, seps) != "" && IsPlainChar(Woven(words, seps)[0])
  {
    assert Woven(words, seps)[0] == words[0][0];
  }

  lemma {:induction false} WovenHasNoColon(words: seq<string>, seps: seq<string>)
    requires ArePlainWords(words) && AreWhite(seps) && |words| == |seps| + 1
    ensures forall k :: 0 <= k < |Woven(words, seps)| ==> Woven(words, seps)[k] != ':'
  {
    if seps != [] {
      WovenHasNoColon(words[1..], seps[1..]);
    }
  }

  lemma SourceOfWords(words: seq<string>, seps: seq<string>)
    requires ArePlainWords(words) && AreWhite(seps) && |words| == |seps| + 1
    requires !IsBusidPattern(Woven(words, seps))
    ensures Source(Woven(words, seps)) == Woven(words, Pluses(|seps|))
  {
    var p := Woven(words, seps);
    WovenHasNoColon(words, seps);
    CopyBefore(p, 0);
    CopyAfter(p, 0, |p|);
    RewriteEnd(p);
    assert p[0..] == p && p[0..|p|] + "" == p;
    RewriteWoven(words, seps);
  }

  // ----- what that is compiled to

  function WordItems(words: seq<string>): seq<Item>
    requires words != []
  {
    Lits(words[0]) + if |words| == 1 then [] else [SpaceRun] + WordItems(words[1..])
  }

  lemma {:induction false} CompileWord(w: string, rest: string)
    requires (forall i :: 0 <= i < |w| ==> IsPlainChar(w[i])) && NoRepetition(rest)
    ensures Compile(w + rest) == PrependAll(Lits(w), Compile(rest))
  {
    if w == "" {
      assert w + rest == rest && Lits(w) == [];
      PrependNothing(Compile(rest));
    } else {
      CompileWord(w[1..], rest);
      PrependMore(Lit(w[0]), Lits(w[1..]), Compile(rest));
      FirstLit(w, rest);
      assert NoRepetition(w[1..] + rest) by {
        if |w| > 1 { assert (w[1..] + rest)[0] == w[1]; } else { assert w[1..] + rest == rest; }
      }
      CompileLit(w[0], w[1..] + rest);
    }
  }

  lemma CompileSpaceRun(rest: string)
    ensures Compile(" +" + rest) == Prepend(SpaceRun, Compile(rest))
  {
    var re := " +" + rest;
    assert re[0] == ' ' && re[..2] == " +" && re[2..] == rest;
    assert "\\b"[0] == '\\' && "0*"[0] == '0' && re[..2][0] == ' ';
  }

  lemma {:induction false} CompileWoven(words: seq<string>)
    requires ArePlainWords(words)
    ensures Compile(Woven(words, Pluses(|words| - 1))) == Some(WordItems(words))
  {
    if |words| == 1 {
      CompileWord(words[0], "");
      assert words[0] + "" == words[0];
    } else {
      var n := |words| - 1;
      var more := Woven(words[1..], Pluses(n - 1));
      assert Pluses(n)[0] == " +" && Pluses(n)[1..] == Pluses(n - 1);
      CompileWoven(words[1..]);
      CompileSpaceRun(more);
      assert NoRepetition(" +" + more);
      CompileWord(words[0], " +" + more);
    }
  }

  // ----- what they match

  predicate BlankFrom(s: string, i: int, e: int) {
    0 <= i < e <= |s| && forall k :: i <= k < e ==> s[k] == ' '
  }

  lemma {:induction false} MatchSpaces(rest: seq<Item>, s: string, i: nat)
    requires i <= |s|
    ensures MatchAt([SpaceRun] + rest, s, i) <==> exists e :: BlankFrom(s, i, e) && MatchAt(rest, s, e)
    decreases |s| - i
  {
    var items := [SpaceRun] + rest;
    assert items[0] == SpaceRun && items[1..] == rest;
    if i < |s| && s[i] == ' ' {
      MatchSpaces(rest, s, i + 1);
      assert BlankFrom(s, i, i + 1);
      if e :| BlankFrom(s, i + 1, e) && MatchAt(rest, s, e) {
        assert BlankFrom(s, i, e);
      }
      if e :| BlankFrom(s, i, e) && MatchAt(rest, s, e) {
        assert e > i + 1 ==> BlankFrom(s, i + 1, e);
      }
    }
  }

  lemma OccursConcat(s: string, a: string, b: string, i: nat)
    ensures OccursAt(s, a + b, i) <==> OccursAt(s, a, i) && OccursAt(s, b, i + |a|)
  {
    if i + |a + b| <= |s| {
      assert s[i..i + |a + b|] == s[i..i + |a|] + s[i + |a|..i + |a| + |b|];
      assert (a + b)[..|a|] == a && (a + b)[|a|..] == b;
    }
  }

  lemma BlanksOccur(s: string, b: string, i: nat)
    requires IsBlanks(b)
    ensures OccursAt(s, b, i) <==> i + |b| <= |s| && BlankFrom(s, i, i + |b|)
  {
    if i + |b| <= |s| {
      if BlankFrom(s, i, i + |b|) {
        assert s[i..i + |b|] == b;
      } else if s[i..i + |b|] == b {
        assert forall k :: i <= k < i + |b| ==> s[k] == b[k - i];
      }
    }
  }

  /** Gaps with which the words stand at i. */
  ghost predicate Fits(words: seq<string>, gaps: seq<string>, s: string, i: int) {
    |words| == |gaps| + 1 && AreBlanks(gaps) && OccursAt(s, Woven(words, gaps), i)
  }

  lemma FitsOneMore(words: seq<string>, gaps: seq<string>, s: string, i: nat)
    requires |words| == |gaps| + 1 && gaps != []
    ensures Fits(words, gaps, s, i) <==>
            && IsBlanks(gaps[0]) && OccursAt(s, words[0], i) && OccursAt(s, gaps[0], i + |words[0]|)
            && Fits(words[1..], gaps[1..], s, i + |words[0]| + |gaps[0]|)
  {
    var more := Woven(words[1..], gaps[1..]);
    OccursConcat(s, words[0], gaps[0] + more, i);
    OccursConcat(s, gaps[0], more, i + |words[0]|);
    assert AreBlanks(gaps) <==> IsBlanks(gaps[0]) && AreBlanks(gaps[1..]) by {
      assert gaps == [gaps[0]] + gaps[1..];
    }
  }

  lemma {:induction false} MatchWords(words: seq<string>, s: string, i: nat)
    requires words != [] && i <= |s|
    ensures MatchAt(WordItems(words), s, i) <==> exists gaps :: Fits(words, gaps, s, i)
    decreases |words|
  {
    var w, j := words[0], i + |words[0]|;
    if |words| == 1 {
      MatchLits(w, [], s, i);
      assert Lits(w) + [] == Lits(w);
      assert Woven(words, []) == w;
      if OccursAt(s, w, i) { assert Fits(words, [], s, i); }
    } else {
      var items := WordItems(words[1..]);
      MatchLits(w, [SpaceRun] + items, s, i);
      if OccursAt(s, w, i) {
        MatchSpaces(items, s, j);
      }
      if MatchAt(WordItems(words), s, i) {
        var e :| BlankFrom(s, j, e) && MatchAt(items, s, e);
        MatchWords(words[1..], s, e);
        var gaps :| Fits(words[1..], gaps, s, e);
        WordsFit(words, gaps, s, i, e);
      }
      if gaps :| Fits(words, gaps, s, i) {
        FitsOneMore(words, gaps, s, i);
        var e := j + |gaps[0]|;
        BlanksOccur(s, gaps[0], j);
        MatchWords(words[1..], s, e);
        assert BlankFrom(s, j, e);
      }
    }
  }

  lemma WordsFit(words: seq<string>, gaps: seq<string>, s: string, i: nat, e: nat)
    requires |words| == |gaps| + 2 && OccursAt(s, words[0], i) && BlankFrom(s, i + |words[0]|, e)
    requires Fits(words[1..], gaps, s, e)
    ensures Fits(words, [s[i + |words[0]|..e]] + gaps, s, i)
  {
    var b := s[i + |words[0]|..e];
    assert ([b] + gaps)[1..] == gaps;
    FitsOneMore(words, [b] + gaps, s, i);
  }

  lemma {:induction false} PatternOfWords(words: seq<string>, seps: seq<string>)
    requires ArePlainWords(words) && AreWhite(seps) && |words| == |seps| + 1
    requires var p := Woven(words, seps); !IsNegated(p) && !IsBusidPattern(p)
    ensures MkDevPattern(Woven(words, seps)) == Some(DevPattern(WordItems(words), false))
  {
    SourceOfWords(words, seps);
    CompileWoven(words);
  }

  lemma {:induction false} SearchWords(words: seq<string>, s: string)
    requires words != []
    ensures Search(WordItems(words), s) <==> exists gaps, i :: Fits(words, gaps, s, i)
  {
    if i :| 0 <= i <= |s| && MatchAt(WordItems(words), s, i) {
      MatchWords(words, s, i);
    }
    if gaps, i :| Fits(words, gaps, s, i) {
      MatchWords(words, s, i);
    }
  }

  /** A pattern of plain words, whatever white space is between them, matches exactly the texts in which
  the words stand one after another, one or more blanks between each two. */
  lemma {:induction false} WordsMean(words: seq<string>, seps: seq<string>, s: string)
    requires ArePlainWords(words) && AreWhite(seps) && |words| == |seps| + 1
    requires var p := Woven(words, seps); !IsNegated(p) && !IsBusidPattern(p)
    ensures MkDevPattern(Woven(words, seps)).Some?
    ensures Matches(MkDevPattern(Woven(words, seps)).value, s) <==> exists gaps, i :: Fits(words, gaps, s, i)
  {
    PatternOfWords(words, seps);
    SearchWords(words, s);
  }
}
