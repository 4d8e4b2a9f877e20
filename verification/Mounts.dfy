/** Which filesystems to unmount before a device is exported: from its device numbers and the mount table. */
module Mounts {
  import opened Text

  // ----- \ooo escapes

  predicate IsOctalEscape(s: string) {
    |s| >= 4 && s[0] == '\\' && AllDigits(s[1..4], 8)
  }

  /** unescapeOctal: every \ooo becomes the byte it names, or the byte 255 if it is too large. */
  function Unescape(s: string): string
    decreases |s|
  {
    if s == "" then ""
    else if IsOctalEscape(s) then [Min(Value(s[1..4], 8), 255) as char] + Unescape(s[4..])
    else [s[0]] + Unescape(s[1..])
  }

  predicate IsEscaped(c: char) {
    c == ' ' || c == '\t' || c == '\n' || c == '\\'
  }

  /** What the kernel writes for one character of a path. */
  function EscapeChar(c: char): string {
    if c == ' ' then "\\040"
    else if c == '\t' then "\\011"
    else if c == '\n' then "\\012"
    else if c == '\\' then "\\134"
    else [c]
  }

  function Escape(path: string): string {
    if path == "" then "" else EscapeChar(path[0]) + Escape(path[1..])
  }

  lemma ValueOfThree(a: char, b: char, c: char)
    ensures Value([a, b, c], 8) == (DigitValue(a) * 8 + DigitValue(b)) * 8 + DigitValue(c)
  {
    Shift([a, b], c, 8);
    Shift([a], b, 8);
    Shift("", a, 8);
    assert [a, b] + [c] == [a, b, c] && [a] + [b] == [a, b] && "" + [a] == [a];
  }

  lemma OctalOf(c: char)
    requires IsEscaped(c)
    ensures IsOctalEscape(EscapeChar(c)) && |EscapeChar(c)| == 4
    ensures Value(EscapeChar(c)[1..4], 8) == c as int
  {
    var e := EscapeChar(c);
    assert e[1..4] == [e[1], e[2], e[3]];
    ValueOfThree(e[1], e[2], e[3]);
  }

  /** Any three octal digits after a backslash stand for a byte, and numbers beyond a byte for the last. */
  lemma OctalExactly(a: char, b: char, c: char, rest: string)
    ensures Unescape(['\\', a, b, c] + rest) ==
            if a in "01234567" && b in "01234567" && c in "01234567" then
              [Min((a as int - 48) * 64 + (b as int - 48) * 8 + (c as int - 48), 255) as char] + Unescape(rest)
            else ['\\'] + Unescape([a, b, c] + rest)
  {
    var s := ['\\', a, b, c] + rest;
    OctalDigits();
    ValueOfThree(a, b, c);
    assert s[1..4] == [a, b, c] && s[4..] == rest && s[1..] == [a, b, c] + rest;
    assert AllDigits([a, b, c], 8) <==> IsDigit(a, 8) && IsDigit(b, 8) && IsDigit(c, 8) by {
      assert [a, b, c][0] == a && [a, b, c][1] == b && [a, b, c][2] == c;
    }
  }

  lemma OctalDigits()
    ensures forall d: char :: d in "01234567" <==> IsDigit(d, 8)
    ensures forall d: char :: d in "01234567" ==> 48 <= d as int < 56 && DigitValue(d) == d as int - 48
  {
    var s := "01234567";
    assert s[0] == '0' && s[1] == '1' && s[2] == '2' && s[3] == '3' && s[4] == '4' && s[5] == '5';
    assert s[6] == '6' && s[7] == '7';
  }

  /** Nothing else is decoded. */
  lemma {:induction false} UnescapeLeaves(s: string)
    requires forall i :: 0 <= i < |s| ==> s[i] != '\\'
    ensures Unescape(s) == s
  {
    if s != "" {
      UnescapeLeaves(s[1..]);
    }
  }

  lemma UnescapeFirst(c: char, rest: string)
    ensures Unescape(EscapeChar(c) + rest) == [c] + Unescape(rest)
  {
    var e := EscapeChar(c);
    if IsEscaped(c) {
      OctalOf(c);
      assert (e + rest)[1..4] == e[1..4] && (e + rest)[4..] == rest;
    } else {
      assert (e + rest)[1..] == rest;
    }
  }

  /** Whatever the path - blanks, newlines, backslashes and text that looks like an escape
  included - decoding undoes the kernel's encoding. */
  lemma {:induction false} UnescapeOfEscape(path: string)
    ensures Unescape(Escape(path)) == path
  {
    if path != "" {
      UnescapeOfEscape(path[1..]);
      UnescapeFirst(path[0], Escape(path[1..]));
    }
  }

  /** White space that the kernel leaves as it is. */
  predicate IsBare(c: char) {
    IsSpace(c) && !IsEscaped(c)
  }

  predicate NoBareSpace(path: string) {
    forall i :: 0 <= i < |path| ==> !IsBare(path[i])
  }

  lemma {:induction false} EscapeHasNoSpace(path: string)
    requires NoBareSpace(path)
    ensures NoSpace(Escape(path)) && (path != "" ==> Escape(path) != "")
  {
    if path != "" {
      EscapeHasNoSpace(path[1..]);
      assert NoSpace(EscapeChar(path[0]));
    }
  }

  lemma {:induction false} EscapeHasNoNewline(path: string)
    ensures '\n' !in Escape(path)
  {
    if path != "" {
      EscapeHasNoNewline(path[1..]);
    }
  }

  lemma {:induction false} EscapeOfConcat(a: string, b: string)
    ensures Escape(a + b) == Escape(a) + Escape(b)
  {
    if a == "" {
      assert a + b == b;
    } else {
      assert (a + b)[1..] == a[1..] + b;
      EscapeOfConcat(a[1..], b);
    }
  }

  // ----- the words that bare white space leaves of a name

  function BareLength(s: string): (n: nat)
    ensures n <= |s| && NoBareSpace(s[..n]) && (n < |s| ==> IsBare(s[n]))
    ensures n == 0 ==> s == "" || IsBare(s[0])
  {
    if s == "" || IsBare(s[0]) then 0
    else
      var n := 1 + BareLength(s[1..]);
      assert forall i :: 1 <= i < n ==> s[..n][i] == s[1..][..n - 1][i - 1];
      n
  }

  function Words(s: string): seq<string>
    decreases |s|
  {
    if s == "" then []
    else if IsBare(s[0]) then Words(s[1..])
    else [s[..BareLength(s)]] + Words(s[BareLength(s)..])
  }

  function EscapeAll(words: seq<string>): seq<string> {
    seq(|words|, i requires 0 <= i < |words| => Escape(words[i]))
  }

  lemma {:induction false} EscapedWord(w: string, rest: string)
    requires w != "" && NoBareSpace(w) && (rest == "" || IsBare(rest[0]))
    ensures Fields(Escape(w + rest)) == [Escape(w)] + Fields(Escape(rest))
  {
    EscapeOfConcat(w, rest);
    EscapeHasNoSpace(w);
    FirstField(Escape(w), Escape(rest));
  }

  lemma EscapedSpace(s: string)
    requires s != "" && IsBare(s[0])
    ensures Fields(Escape(s)) == Fields(Escape(s[1..]))
  {
    assert Escape(s)[1..] == Escape(s[1..]);
  }

  lemma EscapeAllOfConcat(a: seq<string>, b: seq<string>)
    ensures EscapeAll(a + b) == EscapeAll(a) + EscapeAll(b)
  {
  }

  /** Escaped and read back field by field, a name falls into its words. */
  lemma {:induction false} FieldsOfEscape(s: string)
    ensures Fields(Escape(s)) == EscapeAll(Words(s))
    decreases |s|
  {
    if s == "" {
    } else if IsBare(s[0]) {
      FieldsOfEscape(s[1..]);
      EscapedSpace(s);
    } else {
      var n := BareLength(s);
      FieldsOfEscape(s[n..]);
      EscapedWord(s[..n], s[n..]);
      assert s == s[..n] + s[n..];
      EscapeAllOfConcat([s[..n]], Words(s[n..]));
      assert EscapeAll([s[..n]]) == [Escape(s[..n])];
    }
  }

  /** A name begins like one: neither empty nor with bare white space. */
  predicate IsName(s: string) {
    s != "" && !IsBare(s[0])
  }

  lemma FirstWord(s: string)
    requires IsName(s)
    ensures |Words(s)| >= 1 && (Words(s)[0] == s <==> NoBareSpace(s))
  {
    var n := BareLength(s);
    assert Words(s)[0] == s[..n];
    if n == |s| {
      assert s[..n] == s;
    }
  }

  // ----- /proc/self/mountinfo

  // after: options, tags, "-", type, source, super options.
  datatype Mount = Mount(id: string, parent: string, devnum: string, root: string, path: string, after: string)

  /** What the kernel sees to.  Root and path are names of any characters. */
  predicate IsMount(m: Mount) {
    && IsField(m.id) && IsField(m.parent) && IsField(m.devnum) && IsName(m.root) && IsName(m.path)
    && '\n' !in m.after
  }

  function LineOf(m: Mount): string {
    m.id + " " + (m.parent + " " + (m.devnum + " " + (Escape(m.root) + " " + (Escape(m.path) + " " + m.after))))
  }

  function RenderMounts(mounts: seq<Mount>): string {
    Unlines(LinesOf(mounts))
  }

  /** strings.TrimRight(s, "\n") */
  function TrimNewlines(s: string): string {
    if s != "" && s[|s| - 1] == '\n' then TrimNewlines(s[..|s| - 1]) else s
  }

  /** The mountpoints of the lines, last line first. */
  function Selected(lines: seq<string>, devnums: set<string>): seq<string> {
    if lines == [] then []
    else
      var d := Fields(lines[|lines| - 1]);
      (if |d| >= 5 && d[2] in devnums then [Unescape(d[4])] else []) + Selected(lines[..|lines| - 1], devnums)
  }

  method MountpointsFor(mountinfo: string, devnums: set<string>) returns (dirs: seq<string>)
    ensures dirs == Selected(Split(TrimNewlines(mountinfo), '\n'), devnums)
  {
    dirs := SelectFrom(Split(TrimNewlines(mountinfo), '\n'), devnums);
  }

  method SelectFrom(lines: seq<string>, devnums: set<string>) returns (dirs: seq<string>)
    ensures dirs == Selected(lines, devnums)
  {
    dirs := [];
    var i := |lines|;
    assert lines[..i] == lines;
    while i > 0
      invariant 0 <= i <= |lines|
      invariant dirs + Selected(lines[..i], devnums) == Selected(lines, devnums)
    {
      i := i - 1;
      var d := Fields(lines[i]);
      ghost var rest := Selected(lines[..i], devnums);
      assert lines[..i + 1][..i] == lines[..i];
      if |d| >= 5 && d[2] in devnums {
        assert dirs + ([Unescape(d[4])] + rest) == dirs + [Unescape(d[4])] + rest;
        dirs := dirs + [Unescape(d[4])];
      } else {
        assert [] + rest == rest;
      }
    }
  }

  /** The names that stand beside one of the device numbers, last first. */
  function Pick(devs: seq<string>, names: seq<string>, devnums: set<string>): seq<string>
    requires |devs| == |names|
  {
    if devs == [] then []
    else
      var n := |devs| - 1;
      (if devs[n] in devnums then [names[n]] else []) + Pick(devs[..n], names[..n], devnums)
  }

  function DevsOf(mounts: seq<Mount>): seq<string> {
    seq(|mounts|, i requires 0 <= i < |mounts| => mounts[i].devnum)
  }

  function PathNames(mounts: seq<Mount>): seq<string> {
    seq(|mounts|, i requires 0 <= i < |mounts| => mounts[i].path)
  }

  /** The paths mounted from one of the devices, newest mount first. */
  function PathsOf(mounts: seq<Mount>, devnums: set<string>): seq<string> {
    Pick(DevsOf(mounts), PathNames(mounts), devnums)
  }

  function LinesOf(mounts: seq<Mount>): seq<string> {
    seq(|mounts|, i requires 0 <= i < |mounts| => LineOf(mounts[i]))
  }

  /** What is taken for the mountpoint: the second of the words of root and path. */
  function ReadAs(m: Mount): string
    requires IsMount(m)
  {
    FirstWord(m.root);
    FirstWord(m.path);
    (Words(m.root) + Words(m.path))[1]
  }

  /** That is the mountpoint if the kernel escaped all its white space and that of the root before it,
  but for some at the root's end; or if the root happens to hold the mountpoint's name as a word. */
  predicate IsReadBack(m: Mount) {
    if |Words(m.root)| == 1 then NoBareSpace(m.path) else |Words(m.root)| > 1 && Words(m.root)[1] == m.path
  }

  lemma ReadAsPath(m: Mount)
    requires IsMount(m)
    ensures ReadAs(m) == m.path <==> IsReadBack(m)
  {
    FirstWord(m.root);
    FirstWord(m.path);
  }

  lemma FieldBefore(f: string, s: string)
    requires IsField(f)
    ensures Fields(f + " " + s) == [f] + Fields(s)
  {
    NextField(f, s);
    assert f + " " + s == f + (" " + s);
  }

  /** The fields of a line of the kernel. */
  lemma FieldsOfLine(m: Mount)
    requires IsMount(m)
    ensures Fields(LineOf(m)) ==
            [m.id] + ([m.parent] + ([m.devnum]
            + (EscapeAll(Words(m.root)) + (EscapeAll(Words(m.path)) + Fields(m.after)))))
  {
    var tail := Escape(m.path) + " " + m.after;
    FieldsOfEscape(m.root);
    FieldsOfEscape(m.path);
    FieldsOfConcat(Escape(m.path), m.after);
    FieldsOfConcat(Escape(m.root), tail);
    FieldBefore(m.devnum, Escape(m.root) + " " + tail);
    FieldBefore(m.parent, m.devnum + " " + (Escape(m.root) + " " + tail));
    FieldBefore(m.id, m.parent + " " + (m.devnum + " " + (Escape(m.root) + " " + tail)));
  }

  lemma FourthField(a: string, b: string, c: string, r: seq<string>, p: seq<string>, more: seq<string>)
    requires |r| >= 1 && |p| >= 1
    ensures var d := [a] + ([b] + ([c] + (r + (p + more)))); |d| >= 5 && d[2] == c && d[4] == (r + p)[1]
  {
  }

  /** Whatever white space its names have, a line is long enough, its device number is found, and what
  is taken for its mountpoint is that second word. */
  lemma LineRead(m: Mount)
    requires IsMount(m)
    ensures var d := Fields(LineOf(m)); |d| >= 5 && d[2] == m.devnum && Unescape(d[4]) == ReadAs(m)
  {
    var r, p := Words(m.root), Words(m.path);
    FirstWord(m.root);
    FirstWord(m.path);
    FieldsOfLine(m);
    FourthField(m.id, m.parent, m.devnum, EscapeAll(r), EscapeAll(p), Fields(m.after));
    EscapeAllOfConcat(r, p);
    UnescapeOfEscape((r + p)[1]);
  }

  /** A mountpoint is read back right exactly when this holds of it and the root beside it.  Otherwise a
  carriage return, say, or a no-break space cuts the one short or puts a piece of the other in its
  place. */
  lemma PathReadBackExactlyWhen(m: Mount)
    requires IsMount(m)
    ensures var d := Fields(LineOf(m));
            |d| >= 5 && d[2] == m.devnum && (Unescape(d[4]) == m.path <==> IsReadBack(m))
  {
    LineRead(m);
    ReadAsPath(m);
  }

  ghost predicate AllMounts(mounts: seq<Mount>) {
    forall i :: 0 <= i < |mounts| ==> IsMount(mounts[i])
  }

  function NamesRead(mounts: seq<Mount>): seq<string>
    requires AllMounts(mounts)
  {
    seq(|mounts|, i requires 0 <= i < |mounts| => ReadAs(mounts[i]))
  }

  /** What is read for the mounts from one of the devices, newest first. */
  ghost function PathsRead(mounts: seq<Mount>, devnums: set<string>): seq<string>
    requires AllMounts(mounts)
  {
    Pick(DevsOf(mounts), NamesRead(mounts), devnums)
  }

  ghost predicate Shows(line: string, dev: string, name: string) {
    var d := Fields(line);
    |d| >= 5 && d[2] == dev && Unescape(d[4]) == name
  }

  lemma {:induction false} SelectedIsPicked(lines: seq<string>, devs: seq<string>, names: seq<string>,
                                            devnums: set<string>)
    requires |lines| == |devs| == |names| && forall i :: 0 <= i < |lines| ==> Shows(lines[i], devs[i], names[i])
    ensures Selected(lines, devnums) == Pick(devs, names, devnums)
  {
    if lines != [] {
      var n := |lines| - 1;
      assert Shows(lines[n], devs[n], names[n]);
      SelectedIsPicked(lines[..n], devs[..n], names[..n], devnums);
    }
  }

  lemma SelectedLines(mounts: seq<Mount>, devnums: set<string>)
    requires AllMounts(mounts)
    ensures Selected(LinesOf(mounts), devnums) == PathsRead(mounts, devnums)
  {
    forall i | 0 <= i < |mounts| ensures Shows(LinesOf(mounts)[i], DevsOf(mounts)[i], NamesRead(mounts)[i]) {
      LineRead(mounts[i]);
    }
    SelectedIsPicked(LinesOf(mounts), DevsOf(mounts), NamesRead(mounts), devnums);
  }

  ghost predicate Agree(devs: seq<string>, x: seq<string>, y: seq<string>, devnums: set<string>)
    requires |devs| == |x| == |y|
  {
    forall i :: 0 <= i < |devs| && devs[i] in devnums ==> x[i] == y[i]
  }

  lemma AgreeOneMore(devs: seq<string>, x: seq<string>, y: seq<string>, devnums: set<string>, n: nat)
    requires |devs| == |x| == |y| == n + 1
    ensures Agree(devs, x, y, devnums) <==>
            Agree(devs[..n], x[..n], y[..n], devnums) && (devs[n] in devnums ==> x[n] == y[n])
  {
    assert forall i :: 0 <= i < n ==> devs[..n][i] == devs[i] && x[..n][i] == x[i] && y[..n][i] == y[i];
  }

  lemma SameHeads(x: seq<string>, y: seq<string>, a: seq<string>, b: seq<string>)
    requires |x| == |y|
    ensures x + a == y + b <==> x == y && a == b
  {
    if x + a == y + b {
      assert x == (x + a)[..|x|] && y == (y + b)[..|x|];
      assert a == (x + a)[|x|..] && b == (y + b)[|x|..];
    }
  }

  /** Names that are not picked do not matter, and those that are do. */
  lemma {:induction false} SamePick(devs: seq<string>, x: seq<string>, y: seq<string>, devnums: set<string>)
    requires |devs| == |x| == |y|
    ensures Pick(devs, x, devnums) == Pick(devs, y, devnums) <==> Agree(devs, x, y, devnums)
  {
    if devs != [] {
      var n := |devs| - 1;
      SamePick(devs[..n], x[..n], y[..n], devnums);
      AgreeOneMore(devs, x, y, devnums, n);
      SameHeads(if devs[n] in devnums then [x[n]] else [], if devs[n] in devnums then [y[n]] else [],
                Pick(devs[..n], x[..n], devnums), Pick(devs[..n], y[..n], devnums));
    }
  }

  ghost predicate AllReadBack(mounts: seq<Mount>, devnums: set<string>) {
    forall i :: 0 <= i < |mounts| && mounts[i].devnum in devnums ==> IsReadBack(mounts[i])
  }

  lemma ReadRightExactlyWhen(mounts: seq<Mount>, devnums: set<string>)
    requires AllMounts(mounts)
    ensures PathsRead(mounts, devnums) == PathsOf(mounts, devnums) <==> AllReadBack(mounts, devnums)
  {
    forall i | 0 <= i < |mounts| ensures NamesRead(mounts)[i] == PathNames(mounts)[i] <==> IsReadBack(mounts[i]) {
      ReadAsPath(mounts[i]);
    }
    SamePick(DevsOf(mounts), NamesRead(mounts), PathNames(mounts), devnums);
  }

  predicate IsLine(l: string) {
    l != "" && '\n' !in l
  }

  lemma NoNewlineIn(a: string, b: string)
    requires '\n' !in a && '\n' !in b
    ensures '\n' !in a + " " + b
  {
  }

  lemma FieldHasNoNewline(f: string)
    requires IsField(f)
    ensures '\n' !in f
  {
    assert IsSpace('\n');
  }

  lemma LineIsOneLine(m: Mount)
    requires IsMount(m)
    ensures IsLine(LineOf(m))
  {
    EscapeHasNoNewline(m.root);
    EscapeHasNoNewline(m.path);
    FieldHasNoNewline(m.id);
    FieldHasNoNewline(m.parent);
    FieldHasNoNewline(m.devnum);
    var last := Escape(m.path) + " " + m.after;
    NoNewlineIn(Escape(m.path), m.after);
    NoNewlineIn(Escape(m.root), last);
    NoNewlineIn(m.devnum, Escape(m.root) + " " + last);
    NoNewlineIn(m.parent, m.devnum + " " + (Escape(m.root) + " " + last));
    NoNewlineIn(m.id, m.parent + " " + (m.devnum + " " + (Escape(m.root) + " " + last)));
  }

  lemma {:induction false} UnlinesIsJoin(lines: seq<string>)
    requires lines != []
    ensures Unlines(lines) == Join(lines, "\n") + "\n"
  {
    if |lines| > 1 {
      UnlinesIsJoin(lines[1..]);
    } else {
      assert Unlines(lines[1..]) == "";
    }
  }

  lemma {:induction false} JoinEndsWell(lines: seq<string>)
    requires lines != [] && forall i :: 0 <= i < |lines| ==> IsLine(lines[i])
    ensures var s := Join(lines, "\n"); s != "" && s[|s| - 1] != '\n'
  {
    if |lines| > 1 {
      JoinEndsWell(lines[1..]);
    }
  }

  lemma TrimOneNewline(s: string)
    requires s != "" && s[|s| - 1] != '\n'
    ensures TrimNewlines(s + "\n") == s
  {
    assert (s + "\n")[..|s + "\n"| - 1] == s;
  }

  lemma {:induction false} SplitTrimmed(lines: seq<string>)
    requires lines != [] && forall i :: 0 <= i < |lines| ==> IsLine(lines[i])
    ensures Split(TrimNewlines(Join(lines, "\n") + "\n"), '\n') == lines
  {
    JoinEndsWell(lines);
    TrimOneNewline(Join(lines, "\n"));
    SplitOfJoin(lines, '\n');
  }

  lemma AllLines(mounts: seq<Mount>)
    requires AllMounts(mounts)
    ensures forall i :: 0 <= i < |LinesOf(mounts)| ==> IsLine(LinesOf(mounts)[i])
  {
    forall i | 0 <= i < |mounts| ensures IsLine(LinesOf(mounts)[i]) {
      LineIsOneLine(mounts[i]);
    }
  }

  lemma SplitRendered(mounts: seq<Mount>)
    requires mounts != [] && AllMounts(mounts)
    ensures Split(TrimNewlines(RenderMounts(mounts)), '\n') == LinesOf(mounts)
  {
    AllLines(mounts);
    UnlinesIsJoin(LinesOf(mounts));
    SplitTrimmed(LinesOf(mounts));
  }

  // ----- the device's tree

  // A directory entry; what a symbolic link points at is never looked at.
  datatype Entry =
    | File(name: string, contents: string)
    | Dir(name: string, entries: seq<Entry>)
    | Symlink(name: string)

  /** findFiles: what readFile gives for every entry of that name, in the order they are visited; a
  directory of that name is an entry too, and reads as "". */
  function FindFiles(entries: seq<Entry>, name: string): seq<string> {
    if entries == [] then []
    else
      var e := entries[0];
      (match e
       case Symlink(_) => []
       case Dir(n, sub) => FindFiles(sub, name) + (if n == name then [""] else [])
       case File(n, contents) => if n == name then [TrimRight(contents)] else [])
      + FindFiles(entries[1..], name)
  }

  /** A directory is an entry of its own name, which reads as "", and one of those below it. */
  lemma {:induction false} DirectoryFinds(n: string, below: seq<Entry>, rest: seq<Entry>, name: string)
    ensures FindFiles([Dir(n, below)] + rest, name)
            == FindFiles(below, name) + (if n == name then [""] else []) + FindFiles(rest, name)
  {
    assert ([Dir(n, below)] + rest)[1..] == rest;
  }

  /** Following path, an index per level, through directories leads to the entry e. */
  predicate LeadsTo(entries: seq<Entry>, path: seq<nat>, e: Entry)
    decreases |path|
  {
    && path != [] && path[0] < |entries|
    && if |path| == 1 then entries[path[0]] == e
       else entries[path[0]].Dir? && LeadsTo(entries[path[0]].entries, path[1..], e)
  }

  lemma {:induction false} FoundIsThere(entries: seq<Entry>, name: string, contents: string)
    returns (path: seq<nat>, e: Entry)
    requires contents in FindFiles(entries, name) && contents != ""
    ensures LeadsTo(entries, path, e) && e.File? && e.name == name && TrimRight(e.contents) == contents
  {
    e := entries[0];
    var first := match e
                 case Symlink(_) => []
                 case Dir(n, sub) => FindFiles(sub, name) + (if n == name then [""] else [])
                 case File(n, c) => if n == name then [TrimRight(c)] else [];
    if contents in first {
      if e.Dir? {
        var sub := e.entries;
        path, e := FoundIsThere(sub, name, contents);
        path := [0] + path;
        assert path[1..] == path[1..];
        assert LeadsTo(entries[0].entries, path[1..], e);
      } else {
        path := [0];
      }
    } else {
      assert contents in FindFiles(entries[1..], name);
      path, e := FoundIsThere(entries[1..], name, contents);
      assert LeadsTo(entries[1..], path, e);
      path := [path[0] + 1] + path[1..];
    }
  }

  lemma {:induction false} ThereIsFound(entries: seq<Entry>, name: string, path: seq<nat>, e: Entry)
    requires LeadsTo(entries, path, e) && e.File? && e.name == name
    ensures TrimRight(e.contents) in FindFiles(entries, name)
    decreases entries, |path|
  {
    if path[0] == 0 {
      if |path| > 1 {
        ThereIsFound(entries[0].entries, name, path[1..], e);
        assert TrimRight(e.contents) in FindFiles(entries[0].entries, name);
      }
    } else {
      var path' := [path[0] - 1] + path[1..];
      assert path'[1..] == path[1..];
      assert entries[1..][path'[0]] == entries[path[0]];
      ThereIsFound(entries[1..], name, path', e);
    }
  }

  method DevNums(tree: seq<Entry>) returns (devnums: set<string>)
    ensures devnums == set d | d in FindFiles(tree, "dev") && d != ""
  {
    var found := FindFiles(tree, "dev");
    devnums := {};
    for i := 0 to |found|
      invariant devnums == set d | d in found[..i] && d != ""
    {
      assert found[..i + 1] == found[..i] + [found[i]];
      if found[i] != "" {
        devnums := devnums + {found[i]};
      }
    }
    assert found[..|found|] == found;
  }

  /** d is what some `dev` file of the tree says. */
  ghost predicate IsDevNum(tree: seq<Entry>, d: string) {
    d != "" && exists path, e :: LeadsTo(tree, path, e) && e.File? && e.name == "dev" && TrimRight(e.contents) == d
  }

  /** doUnmounts: the arguments of the umount command, none if it is not run. */
  method DoUnmounts(tree: seq<Entry>, mountinfo: string) returns (dirs: seq<string>)
    ensures dirs == Selected(Split(TrimNewlines(mountinfo), '\n'), set d | d in FindFiles(tree, "dev") && d != "")
  {
    var devnums := DevNums(tree);
    if devnums == {} {
      NothingSelected(Split(TrimNewlines(mountinfo), '\n'));
      return [];
    }
    dirs := MountpointsFor(mountinfo, devnums);
  }

  lemma {:induction false} NothingSelected(lines: seq<string>)
    ensures Selected(lines, {}) == []
  {
    if lines != [] {
      NothingSelected(lines[..|lines| - 1]);
    }
  }

  /** Given any mount table as the kernel renders it, what is unmounted is, newest mount first, what is
  read for each mount whose device number some `dev` file in the device's tree names, and nothing else.
  That are its mountpoints exactly when each of these is read back right; the other mounts of the
  table do not matter. */
  lemma {:induction false} UnmountsExactlyTheDevicesMounts(tree: seq<Entry>, mounts: seq<Mount>, devnums: set<string>)
    requires AllMounts(mounts)
    requires devnums == set d | d in FindFiles(tree, "dev") && d != ""
    ensures Selected(Split(TrimNewlines(RenderMounts(mounts)), '\n'), devnums) == PathsRead(mounts, devnums)
    ensures PathsRead(mounts, devnums) == PathsOf(mounts, devnums) <==> AllReadBack(mounts, devnums)
    ensures forall d :: d in devnums <==> IsDevNum(tree, d)
  {
    ReadRightExactlyWhen(mounts, devnums);
    SelectedOfRendered(mounts, devnums);
    forall d ensures d in devnums <==> IsDevNum(tree, d) {
      if d in devnums {
        var path, e := FoundIsThere(tree, "dev", d);
      }
      if IsDevNum(tree, d) {
        var path, e :| LeadsTo(tree, path, e) && e.File? && e.name == "dev" && TrimRight(e.contents) == d;
        ThereIsFound(tree, "dev", path, e);
      }
    }
  }

  lemma SelectedOfRendered(mounts: seq<Mount>, devnums: set<string>)
    requires AllMounts(mounts)
    ensures Selected(Split(TrimNewlines(RenderMounts(mounts)), '\n'), devnums) == PathsRead(mounts, devnums)
  {
    if mounts != [] {
      SplitRendered(mounts);
      SelectedLines(mounts, devnums);
    } else {
      assert Split("", '\n') == [""] && Fields("") == [];
      assert [""][..0] == [];
    }
  }

  /** Two mounts that are not read back: a carriage return in the mountpoint, and one in the root. */
  lemma ReturnsAreNotReadBack(root: string, path: string, a: string, b: string, after: string)
    requires IsName(a) && NoBareSpace(a) && IsName(b) && NoBareSpace(b) && NoBareSpace(root)
    ensures !IsReadBack(Mount("1", "0", "8:1", root, a + "\r" + b, after))
    ensures b != path ==> !IsReadBack(Mount("1", "0", "8:1", a + "\r" + b, path, after))
  {
    var s := a + "\r" + b;
    assert IsBare(s[|a|]);
    WordsOfTwo(a, b);
    if root == "" {
      assert Words(root) == [];
    } else {
      OneWord(root);
    }
  }

  lemma {:induction false} OneWord(s: string)
    requires s != "" && NoBareSpace(s)
    ensures Words(s) == [s]
  {
    assert BareLength(s) == |s| && s[..|s|] == s && s[|s|..] == "";
  }

  lemma {:induction false} BareLengthOf(w: string, rest: string)
    requires NoBareSpace(w) && (rest == "" || IsBare(rest[0]))
    ensures BareLength(w + rest) == |w|
  {
    if w == "" {
      assert w + rest == rest;
    } else {
      assert (w + rest)[1..] == w[1..] + rest;
      BareLengthOf(w[1..], rest);
    }
  }

  lemma WordsOfTwo(a: string, b: string)
    requires IsName(a) && NoBareSpace(a) && IsName(b) && NoBareSpace(b)
    ensures Words(a + "\r" + b) == [a, b]
  {
    var s := a + "\r" + b;
    BareLengthOf(a, "\r" + b);
    assert s == a + ("\r" + b) && s[..|a|] == a && s[|a|..] == "\r" + b && ("\r" + b)[1..] == b;
    OneWord(b);
    assert [a] + [b] == [a, b];
  }
}
