/** Kernel uevents, as netlink messages and as sysfs files, and what the program reads from either. */
module Uevent {
  import opened Text

  type Env = map<string, string>

  /** The pairs of the pieces that have a '=', a later pair replacing an earlier one of its key. */
  function Collect(pieces: seq<string>): Env {
    if pieces == [] then map[]
    else
      var before := Collect(pieces[..|pieces| - 1]);
      match Cut(pieces[|pieces| - 1], '=')
      case None => before
      case Some((k, v)) => before[k := v]
  }

  method CollectPairs(pieces: seq<string>) returns (m: Env)
    ensures m == Collect(pieces)
  {
    m := map[];
    for i := 0 to |pieces|
      invariant m == Collect(pieces[..i])
    {
      assert pieces[..i + 1][..i] == pieces[..i];
      var kv := Cut(pieces[i], '=');
      if kv.Some? {
        m := m[kv.value.0 := kv.value.1];
      }
    }
    assert pieces[..|pieces|] == pieces;
  }

  /** parseUevent, on a netlink message. */
  method ParseUevent(d: string) returns (m: Env)
    ensures m == Collect(Split(d, '\0'))
  {
    m := CollectPairs(Split(d, '\0'));
  }

  /** readUevent, on the contents of the file. */
  method ReadUevent(contents: string) returns (m: Env)
    ensures m == Collect(Split(TrimRight(contents), '\n'))
  {
    m := CollectPairs(Split(TrimRight(contents), '\n'));
  }

  // ----- what the kernel sends

  datatype Pair = Pair(key: string, value: string)

  predicate PairOk(p: Pair, end: char) {
    '=' !in p.key && end !in p.key && end !in p.value
  }

  function Piece(p: Pair): string {
    p.key + "=" + p.value
  }

  function Pieces(pairs: seq<Pair>): seq<string> {
    seq(|pairs|, i requires 0 <= i < |pairs| => Piece(pairs[i]))
  }

  /** The header, then every pair, each ended by a NUL. */
  function Message(header: string, pairs: seq<Pair>): string {
    Join([header] + Pieces(pairs) + [""], "\0")
  }

  /** The pairs as lines of a sysfs file, each ended by a newline. */
  function FileText(pairs: seq<Pair>): string {
    if pairs == [] then "" else Join(Pieces(pairs), "\n") + "\n"
  }

  predicate HasKey(pairs: seq<Pair>, k: string) {
    exists i :: 0 <= i < |pairs| && pairs[i].key == k
  }

  /** Pair i is the last of its key. */
  predicate IsLast(pairs: seq<Pair>, i: nat) {
    i < |pairs| && !HasKey(pairs[i + 1..], pairs[i].key)
  }

  /** The pairs as a map: of several with one key the last. */
  ghost predicate IsLastWins(pairs: seq<Pair>, m: Env) {
    && (forall k :: k in m <==> HasKey(pairs, k))
    && (forall i: nat :: IsLast(pairs, i) ==> pairs[i].key in m && m[pairs[i].key] == pairs[i].value)
  }

  lemma HasKeyOfConcat(a: seq<Pair>, b: seq<Pair>, k: string)
    ensures HasKey(a + b, k) <==> HasKey(a, k) || HasKey(b, k)
  {
    if i :| 0 <= i < |a| && a[i].key == k {
      assert (a + b)[i].key == k;
    }
    if i :| 0 <= i < |b| && b[i].key == k {
      assert (a + b)[|a| + i].key == k;
    }
  }

  lemma LastWinsExtends(pairs: seq<Pair>, p: Pair, m: Env)
    requires IsLastWins(pairs, m)
    ensures IsLastWins(pairs + [p], m[p.key := p.value])
  {
    var all, m' := pairs + [p], m[p.key := p.value];
    assert [p][0].key == p.key;
    forall k ensures k in m' <==> HasKey(all, k) {
      HasKeyOfConcat(pairs, [p], k);
    }
    forall i: nat | IsLast(all, i)
      ensures all[i].key in m' && m'[all[i].key] == all[i].value
    {
      if i < |pairs| {
        assert all[i + 1..] == pairs[i + 1..] + [p];
        HasKeyOfConcat(pairs[i + 1..], [p], all[i].key);
        assert IsLast(pairs, i);
      }
    }
  }

  lemma PieceCut(p: Pair)
    requires '=' !in p.key
    ensures Cut(Piece(p), '=') == Some((p.key, p.value))
  {
    CutAtFirst(p.key, '=', p.value);
  }

  lemma CollectOneMore(pairs: seq<Pair>, p: Pair)
    requires '=' !in p.key
    ensures Collect(Pieces(pairs + [p])) == Collect(Pieces(pairs))[p.key := p.value]
    ensures IsLastWins(pairs, Collect(Pieces(pairs))) ==> IsLastWins(pairs + [p], Collect(Pieces(pairs + [p])))
  {
    if IsLastWins(pairs, Collect(Pieces(pairs))) {
      LastWinsExtends(pairs, p, Collect(Pieces(pairs)));
    }
    PieceCut(p);
    assert Pieces(pairs + [p]) == Pieces(pairs) + [Piece(p)];
    assert (Pieces(pairs) + [Piece(p)])[..|pairs|] == Pieces(pairs);
  }

  lemma {:induction false} CollectPieces(pairs: seq<Pair>)
    requires forall i :: 0 <= i < |pairs| ==> '=' !in pairs[i].key
    ensures IsLastWins(pairs, Collect(Pieces(pairs)))
  {
    if pairs == [] {
      NothingCollected();
    } else {
      var front, p := pairs[..|pairs| - 1], pairs[|pairs| - 1];
      assert pairs == front + [p];
      CollectPieces(front);
      CollectOneMore(front, p);
    }
  }

  lemma NothingCollected()
    ensures IsLastWins([], Collect(Pieces([])))
  {
    assert Pieces([]) == [];
  }

  /** Pieces without a '=' do not matter. */
  lemma {:induction false} CollectSkips(first: string, pieces: seq<string>)
    requires '=' !in first
    ensures Collect([first] + pieces) == Collect(pieces)
    ensures Collect(pieces + [first]) == Collect(pieces)
  {
    assert (pieces + [first])[..|pieces|] == pieces;
    if pieces == [] {
      assert ([first] + pieces)[..0] == [];
    } else {
      var n := |pieces| - 1;
      assert ([first] + pieces)[..n + 1] == [first] + pieces[..n];
      assert ([first] + pieces)[n + 1] == pieces[n];
      CollectSkips(first, pieces[..n]);
    }
  }

  /** Parsing a message gives back its pairs, whatever their values: any number of '=' in them, and
  keys that come twice, included. */
  lemma ParseOfMessage(header: string, pairs: seq<Pair>)
    requires '=' !in header && '\0' !in header
    requires forall i :: 0 <= i < |pairs| ==> PairOk(pairs[i], '\0')
    ensures IsLastWins(pairs, Collect(Split(Message(header, pairs), '\0')))
  {
    var pieces := [header] + Pieces(pairs) + [""];
    forall i | 0 <= i < |pieces| ensures '\0' !in pieces[i] {
      if 0 < i <= |pairs| {
        assert PairOk(pairs[i - 1], '\0');
      }
    }
    SplitOfJoin(pieces, '\0');
    CollectSkips("", [header] + Pieces(pairs));
    CollectSkips(header, Pieces(pairs));
    CollectPieces(pairs);
  }

  /** The last value without its trailing blanks. */
  function TrimLast(pairs: seq<Pair>): seq<Pair> {
    if pairs == [] then []
    else
      var n := |pairs| - 1;
      pairs[n := pairs[n].(value := TrimRight(pairs[n].value))]
  }

  lemma JoinFirst(pairs: seq<Pair>)
    requires |pairs| > 1
    ensures Join(Pieces(pairs), "\n") == Piece(pairs[0]) + "\n" + Join(Pieces(pairs[1..]), "\n")
  {
    assert Pieces(pairs)[1..] == Pieces(pairs[1..]);
  }

  lemma EqualsSign(pairs: seq<Pair>)
    requires pairs != []
    ensures var s, n := Join(Pieces(pairs), "\n"), |pairs[0].key|; n < |s| && s[n] == '='
  {
    if |pairs| > 1 {
      JoinFirst(pairs);
    }
  }

  lemma {:induction false} TrimJoined(pairs: seq<Pair>)
    requires pairs != []
    ensures TrimRight(Join(Pieces(pairs), "\n")) == Join(Pieces(TrimLast(pairs)), "\n")
  {
    if |pairs| == 1 {
      TrimRightOf(pairs[0].key, '=', pairs[0].value);
    } else {
      var first, rest := Piece(pairs[0]) + "\n", Join(Pieces(pairs[1..]), "\n");
      TrimJoined(pairs[1..]);
      EqualsSign(pairs[1..]);
      TrimTail(first, rest, |pairs[1].key|);
      JoinFirst(pairs);
      JoinFirst(TrimLast(pairs));
      assert TrimLast(pairs)[1..] == TrimLast(pairs[1..]);
    }
  }

  /** Blanks are only trimmed off the part that is not all blank. */
  lemma TrimTail(s: string, t: string, i: nat)
    requires i < |t| && !IsBlank(t[i])
    ensures TrimRight(s + t) == s + TrimRight(t)
  {
    assert t == t[..i] + [t[i]] + t[i + 1..];
    assert s + t == s + t[..i] + [t[i]] + t[i + 1..];
    TrimRightOf(t[..i], t[i], t[i + 1..]);
    TrimRightOf(s + t[..i], t[i], t[i + 1..]);
  }

  lemma FilePieces(pairs: seq<Pair>)
    requires pairs != [] && forall i :: 0 <= i < |pairs| ==> PairOk(pairs[i], '\n')
    ensures Split(TrimRight(FileText(pairs)), '\n') == Pieces(TrimLast(pairs))
  {
    var pieces := Pieces(TrimLast(pairs));
    TrimRightOfBlank(Join(Pieces(pairs), "\n"), "\n");
    TrimJoined(pairs);
    forall i | 0 <= i < |pieces| ensures '\n' !in pieces[i] {
      assert PairOk(pairs[i], '\n');
      TrimRightIsPrefix(pairs[i].value);
    }
    SplitOfJoin(pieces, '\n');
  }

  /** Reading the pairs from a file agrees, but for trailing blanks of the last value. */
  lemma ReadOfFile(pairs: seq<Pair>)
    requires forall i :: 0 <= i < |pairs| ==> PairOk(pairs[i], '\n')
    ensures IsLastWins(TrimLast(pairs), Collect(Split(TrimRight(FileText(pairs)), '\n')))
  {
    if pairs == [] {
      assert Split("", '\n') == [""] && [""][..0] == [];
    } else {
      FilePieces(pairs);
      forall i | 0 <= i < |pairs| ensures '=' !in TrimLast(pairs)[i].key {
        assert PairOk(pairs[i], '\n');
      }
      CollectPieces(TrimLast(pairs));
    }
  }

  lemma {:induction false} LastOfKey(pairs: seq<Pair>, k: string) returns (i: nat)
    requires HasKey(pairs, k)
    ensures IsLast(pairs, i) && pairs[i].key == k
  {
    var n := |pairs| - 1;
    if pairs[n].key == k {
      i := n;
    } else {
      assert pairs == pairs[..n] + [pairs[n]];
      HasKeyOfConcat(pairs[..n], [pairs[n]], k);
      i := LastOfKey(pairs[..n], k);
      assert pairs[i + 1..] == pairs[..n][i + 1..] + [pairs[n]];
      HasKeyOfConcat(pairs[..n][i + 1..], [pairs[n]], k);
    }
  }

  lemma LastWinsIsUnique(pairs: seq<Pair>, m: Env, m': Env)
    requires IsLastWins(pairs, m) && IsLastWins(pairs, m')
    ensures m == m'
  {
    forall k | k in m ensures k in m' && m[k] == m'[k] {
      var i := LastOfKey(pairs, k);
    }
    assert m.Keys == m'.Keys;
  }

  lemma NothingToTrim(pairs: seq<Pair>)
    requires pairs != [] ==> TrimRight(pairs[|pairs| - 1].value) == pairs[|pairs| - 1].value
    ensures TrimLast(pairs) == pairs
  {
  }

  /** A device's uevent reads the same from the netlink socket and from its file. */
  lemma BothReadersAgree(header: string, pairs: seq<Pair>, message: Env, file: Env)
    requires '=' !in header && '\0' !in header
    requires forall i :: 0 <= i < |pairs| ==> PairOk(pairs[i], '\0')
    requires forall i :: 0 <= i < |pairs| ==> PairOk(pairs[i], '\n')
    requires pairs != [] ==> TrimRight(pairs[|pairs| - 1].value) == pairs[|pairs| - 1].value
    requires message == Collect(Split(Message(header, pairs), '\0'))
    requires file == Collect(Split(TrimRight(FileText(pairs)), '\n'))
    ensures message == file
  {
    NothingToTrim(pairs);
    ParseOfMessage(header, pairs);
    ReadOfFile(pairs);
    LastWinsIsUnique(pairs, message, file);
  }
}
