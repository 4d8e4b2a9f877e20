/** The importer's loop over the lines of the channel. */
module Session {
  import opened Text
  import opened Announce

  // ----- the stream as lines

  /** bufio.Scanner: a carriage return before the newline goes with it, and a last line need not end
  in a newline. */
  function ScanLines(stream: string): seq<string>
    decreases |stream|
  {
    if stream == "" then []
    else
      match Cut(stream, '\n')
      case None => [DropReturn(stream)]
      case Some((line, rest)) =>
        assert |rest| < |stream|;
        [DropReturn(line)] + ScanLines(rest)
  }

  function DropReturn(line: string): string {
    if line != "" && line[|line| - 1] == '\r' then line[..|line| - 1] else line
  }

  predicate IsLine(line: string) {
    '\n' !in line && DropReturn(line) == line
  }

  lemma {:induction false} ScanFirst(line: string, rest: string)
    requires '\n' !in line
    ensures ScanLines(line + "\n" + rest) == [DropReturn(line)] + ScanLines(rest)
  {
    CutAtFirst(line, '\n', rest);
  }

  lemma {:induction false} ScanOfSent(lines: seq<string>)
    requires forall i :: 0 <= i < |lines| ==> IsLine(lines[i])
    ensures ScanLines(Unlines(lines)) == lines
  {
    if lines != [] {
      ScanFirst(lines[0], Unlines(lines[1..]));
      ScanOfSent(lines[1..]);
      assert lines == [lines[0]] + lines[1..];
    }
  }

  /** Nor does a carriage return before a newline matter. */
  lemma {:induction false} ReturnIsDropped(line: string, rest: string)
    requires IsLine(line)
    ensures ScanLines(line + "\r" + "\n" + rest) == [line] + ScanLines(rest)
  {
    ScanFirst(line + "\r", rest);
    assert DropReturn(line + "\r") == line;
  }

  /** Nor a newline that is missing at the end. */
  lemma {:induction false} ScanOfTail(lines: seq<string>, last: string)
    requires (forall i :: 0 <= i < |lines| ==> IsLine(lines[i])) && last != "" && '\n' !in last
    ensures ScanLines(Unlines(lines) + last) == lines + [DropReturn(last)]
  {
    if lines == [] {
      assert Unlines(lines) + last == last;
      ScanOfLast(last);
    } else {
      TailFirst(lines[0], Unlines(lines[1..]), last);
      ScanOfTail(lines[1..], last);
      assert lines + [DropReturn(last)] == [lines[0]] + (lines[1..] + [DropReturn(last)]);
    }
  }

  lemma {:induction false} TailFirst(line: string, more: string, last: string)
    requires IsLine(line)
    ensures ScanLines(line + "\n" + more + last) == [line] + ScanLines(more + last)
  {
    ScanFirst(line, more + last);
    assert line + "\n" + more + last == line + "\n" + (more + last);
  }

  lemma ScanOfLast(last: string)
    requires last != "" && '\n' !in last
    ensures ScanLines(last) == [DropReturn(last)]
  {
    IndexOfMissing(last, '\n');
  }

  // ----- what the importer does with them

  datatype Action = Forward(path: string) | Import(bus: int, dev: int, speed: string)

  datatype Ended = Eof | Closed | BadLine | ActionFailed

  /** Up to the first -Eof, the actions that the lines ask for, and whether a line is bad.  Only the
  local importer sets up a forward: sockets. */
  function Actions(lines: seq<string>, sockets: bool): (seq<Action>, Ended) {
    if lines == [] then ([], Closed)
    else if sockets && HasPrefix(lines[0], "-Socket ") then Then(Forward(lines[0][8..]), Actions(lines[1..], sockets))
    else
      match ParseLine(lines[0])
      case Attach(bus, dev, speed) => Then(Import(bus, dev, speed), Actions(lines[1..], sockets))
      case Bad => ([], BadLine)
      case NotADevice => if lines[0] == "-Eof" then ([], Eof) else Actions(lines[1..], sockets)
  }

  function Then(a: Action, more: (seq<Action>, Ended)): (seq<Action>, Ended) {
    ([a] + more.0, more.1)
  }

  /** Nothing is done after the first action that fails, and otherwise all that the lines ask for, in
  their order. */
  ghost predicate IsImport(lines: seq<string>, sockets: bool, failing: set<nat>, did: seq<Action>, end: Ended) {
    && did <= Actions(lines, sockets).0
    && (end != ActionFailed ==> (did, end) == Actions(lines, sockets))
    && (end == ActionFailed ==> did != [] && |did| - 1 in failing)
    && forall k :: 0 <= k < |did| && k in failing ==> end == ActionFailed && k == |did| - 1
  }

  /** So what is done, and how it ends, follows from the lines and from which action is the first to fail. */
  lemma ImportExactly(lines: seq<string>, sockets: bool, failing: set<nat>, did: seq<Action>, end: Ended, k: nat)
    requires IsImport(lines, sockets, failing, did, end)
    ensures var all := Actions(lines, sockets).0;
            && ((forall j :: 0 <= j < |all| ==> j !in failing) ==> (did, end) == Actions(lines, sockets))
            && (k < |all| && k in failing && (forall j :: 0 <= j < k ==> j !in failing) ==>
                did == all[..k + 1] && end == ActionFailed)
  {
    var all := Actions(lines, sockets).0;
    if k < |all| && k in failing && forall j :: 0 <= j < k ==> j !in failing {
      assert end == ActionFailed;
      assert |did| - 1 in failing && |did| - 1 >= k;
      assert |did| - 1 == k;
      assert did == all[..|did|];
    }
  }

  lemma MoreActions(did: seq<Action>, a: Action, more: seq<Action>)
    ensures did + ([a] + more) == did + [a] + more
  {
  }

  /** runAttach, where the actions numbered in failing fail. */
  method RunAttach(lines: seq<string>, failing: set<nat>) returns (did: seq<Action>, end: Ended)
    ensures IsImport(lines, true, failing, did, end)
  {
    did := [];
    assert lines[0..] == lines && [] + Actions(lines, true).0 == Actions(lines, true).0;
    for i := 0 to |lines|
      invariant Actions(lines, true) == (did + Actions(lines[i..], true).0, Actions(lines[i..], true).1)
      invariant forall k :: 0 <= k < |did| ==> k !in failing
    {
      var line := lines[i];
      assert lines[i..][0] == line && lines[i..][1..] == lines[i + 1..] && did + [] == did;
      var action: Option<Action> := None;
      if HasPrefix(line, "-Socket ") {
        action := Some(Forward(line[8..]));
      } else {
        var parsed := ParseLine(line);
        if parsed.Attach? {
          action := Some(Import(parsed.bus, parsed.dev, parsed.speed));
        } else if parsed.Bad? {
          return did, BadLine;
        } else if line == "-Eof" {
          return did, Eof;
        }
      }
      if action.Some? {
        MoreActions(did, action.value, Actions(lines[i + 1..], true).0);
        did := did + [action.value];
        if |did| - 1 in failing {
          return did, ActionFailed;
        }
      }
    }
    assert did + [] == did;
    end := Closed;
  }

  lemma FirstOfImport(lines: seq<string>, i: nat, did: seq<Action>)
    requires i < |lines|
    ensures var (more, end) := Actions(lines[i + 1..], false);
            var all := Actions(lines[i..], false);
            match ParseLine(lines[i])
            case Attach(bus, dev, speed) =>
              did + all.0 == did + [Import(bus, dev, speed)] + more && all.1 == end
            case Bad => did + all.0 == did && all.1 == BadLine
            case NotADevice => if lines[i] == "-Eof" then did + all.0 == did && all.1 == Eof else all == (more, end)
  {
    assert lines[i..][0] == lines[i] && lines[i..][1..] == lines[i + 1..];
  }

  /** remoteImport likewise; its socket is there already. */
  method RemoteImport(lines: seq<string>, failing: set<nat>) returns (did: seq<Action>, end: Ended)
    ensures IsImport(lines, false, failing, did, end)
  {
    did := [];
    assert lines[0..] == lines && [] + Actions(lines, false).0 == Actions(lines, false).0;
    for i := 0 to |lines|
      invariant Actions(lines, false) == (did + Actions(lines[i..], false).0, Actions(lines[i..], false).1)
      invariant forall k :: 0 <= k < |did| ==> k !in failing
    {
      EofIsNoDevice();
      FirstOfImport(lines, i, did);
      if lines[i] == "-Eof" {
        return did, Eof;
      }
      var parsed := ParseLine(lines[i]);
      match parsed {
        case Bad => return did, BadLine;
        case NotADevice =>
        case Attach(bus, dev, speed) =>
          did := did + [Import(bus, dev, speed)];
          if |did| - 1 in failing {
            return did, ActionFailed;
          }
      }
    }
    assert did + [] == did;
    end := Closed;
  }

  lemma EofIsNoDevice()
    ensures ParseLine("-Eof") == NotADevice
  {
  }

  // ----- a whole session

  // What the exporter sends: where its socket is, the devices, and what it may print besides.
  datatype Sent =
    | Socket(path: string)
    | Device(bus: nat, busZeros: nat, dev: nat, devZeros: nat, speed: string)
    | Chatter(line: string)

  predicate IsSent(s: Sent) {
    match s
    case Socket(path) => IsLine("-Socket " + path)
    case Device(bus, _, dev, _, speed) => bus <= MAX_INT && dev <= MAX_INT && IsField(speed)
    case Chatter(line) => IsLine(line) && !HasPrefix(line, "-Dev ") && !HasPrefix(line, "-Socket ") && line != "-Eof"
  }

  function LineOf(s: Sent): string {
    match s
    case Socket(path) => "-Socket " + path
    case Device(bus, busZeros, dev, devZeros, speed) => DevLine(Padded(bus, busZeros), Padded(dev, devZeros), speed)
    case Chatter(line) => line
  }

  function LinesOf(sent: seq<Sent>): seq<string> {
    if sent == [] then ["-Eof"] else [LineOf(sent[0])] + LinesOf(sent[1..])
  }

  function AskedBy(s: Sent, sockets: bool): seq<Action> {
    match s
    case Socket(path) => if sockets then [Forward(path)] else []
    case Device(bus, _, dev, _, speed) => [Import(bus, dev, speed)]
    case Chatter(_) => []
  }

  /** The forwards, if the importer makes them, and the imports that the session is for. */
  function Asked(sent: seq<Sent>, sockets: bool): seq<Action> {
    if sent == [] then [] else AskedBy(sent[0], sockets) + Asked(sent[1..], sockets)
  }

  lemma DevLineText(bus: string, dev: string, speed: string)
    requires IsField(bus) && IsField(dev) && IsField(speed)
    ensures var l := DevLine(bus, dev, speed); IsLine(l) && !HasPrefix(l, "-Socket ")
  {
    var l := DevLine(bus, dev, speed);
    JoinThree(bus, dev, speed, " ");
    assert l == "-Dev " + bus + " " + dev + " " + speed;
    assert l[|l| - 1] == speed[|speed| - 1] && !IsSpace(speed[|speed| - 1]);
    assert l[1] == 'D' && "-Socket "[1] == 'S';
  }

  /** A line is what it was sent as, to either importer. */
  lemma SentLine(s: Sent)
    requires IsSent(s)
    ensures IsLine(LineOf(s)) && (HasPrefix(LineOf(s), "-Socket ") <==> s.Socket?)
    ensures s.Socket? ==> LineOf(s)[8..] == s.path && ParseLine(LineOf(s)) == NotADevice && LineOf(s) != "-Eof"
    ensures s.Device? ==> ParseLine(LineOf(s)) == Attach(s.bus, s.dev, s.speed)
    ensures s.Chatter? ==> ParseLine(LineOf(s)) == NotADevice && LineOf(s) != "-Eof"
  {
    match s {
      case Socket(path) => SocketLine(path);
      case Device(bus, busZeros, dev, devZeros, speed) =>
        PaddedIsField(bus, busZeros);
        PaddedIsField(dev, devZeros);
        DevLineText(Padded(bus, busZeros), Padded(dev, devZeros), speed);
        ParseOfDevLine(bus, dev, busZeros, devZeros, speed);
      case Chatter(_) =>
    }
  }

  lemma SocketLine(path: string)
    ensures var l := "-Socket " + path;
            HasPrefix(l, "-Socket ") && l[8..] == path && ParseLine(l) == NotADevice && l != "-Eof"
  {
    var l := "-Socket " + path;
    assert l[1] == 'S' && "-Dev "[1] == 'D' && "-Eof"[1] == 'E';
    assert l[..8] == "-Socket ";
    assert |l| >= 5 ==> l[..5][1] == 'S';
  }

  lemma LineAsks(s: Sent, rest: seq<string>, sockets: bool)
    requires IsSent(s)
    ensures Actions([LineOf(s)] + rest, sockets)
            == (AskedBy(s, sockets) + Actions(rest, sockets).0, Actions(rest, sockets).1)
  {
    SentLine(s);
    assert ([LineOf(s)] + rest)[1..] == rest && [] + Actions(rest, sockets).0 == Actions(rest, sockets).0;
  }

  lemma {:induction false} ActionsOfSent(sent: seq<Sent>, sockets: bool)
    requires forall i :: 0 <= i < |sent| ==> IsSent(sent[i])
    ensures Actions(LinesOf(sent), sockets) == (Asked(sent, sockets), Eof)
    ensures forall i :: 0 <= i < |LinesOf(sent)| ==> IsLine(LinesOf(sent)[i])
  {
    if sent == [] {
      EofIsNoDevice();
    } else {
      ActionsOfSent(sent[1..], sockets);
      SentLine(sent[0]);
      LineAsks(sent[0], LinesOf(sent[1..]), sockets);
    }
  }

  /** What is sent, without the end. */
  function SentLines(sent: seq<Sent>): seq<string> {
    if sent == [] then [] else [LineOf(sent[0])] + SentLines(sent[1..])
  }

  lemma {:induction false} ActionsThen(sent: seq<Sent>, rest: seq<string>, sockets: bool)
    requires forall i :: 0 <= i < |sent| ==> IsSent(sent[i])
    ensures Actions(SentLines(sent) + rest, sockets)
            == (Asked(sent, sockets) + Actions(rest, sockets).0, Actions(rest, sockets).1)
  {
    if sent == [] {
      assert SentLines(sent) + rest == rest && [] + Actions(rest, sockets).0 == Actions(rest, sockets).0;
    } else {
      LineAsks(sent[0], SentLines(sent[1..]) + rest, sockets);
      ActionsThen(sent[1..], rest, sockets);
      assert SentLines(sent) + rest == [LineOf(sent[0])] + (SentLines(sent[1..]) + rest);
      Reassociated(AskedBy(sent[0], sockets), Asked(sent[1..], sockets), Actions(rest, sockets).0);
    }
  }

  lemma Reassociated(a: seq<Action>, b: seq<Action>, c: seq<Action>)
    ensures a + (b + c) == a + b + c
  {
  }

  /** However a stream ends, all that came before is done, nothing after it, and the end is seen for what it
  is: a "-Eof", a "-Dev" line without its three fields, or the stream being closed without either. */
  lemma {:induction false} EndIsSeen(sent: seq<Sent>, bad: string, after: seq<string>, sockets: bool)
    requires forall i :: 0 <= i < |sent| ==> IsSent(sent[i])
    ensures Actions(SentLines(sent) + (["-Eof"] + after), sockets) == (Asked(sent, sockets), Eof)
    ensures |Fields(bad)| != 3 ==>
              Actions(SentLines(sent) + (["-Dev " + bad] + after), sockets) == (Asked(sent, sockets), BadLine)
    ensures Actions(SentLines(sent), sockets) == (Asked(sent, sockets), Closed)
  {
    ActionsThen(sent, ["-Eof"] + after, sockets);
    ActionsThen(sent, ["-Dev " + bad] + after, sockets);
    ActionsThen(sent, [], sockets);
    assert SentLines(sent) + [] == SentLines(sent);
    EofIsNoDevice();
    OtherLines("-Dev " + bad, bad);
    assert !HasPrefix("-Dev " + bad, "-Socket ") by {
      assert ("-Dev " + bad)[1] == 'D' && "-Socket "[1] == 'S';
    }
    assert !HasPrefix("-Eof", "-Socket ");
    assert Asked(sent, sockets) + [] == Asked(sent, sockets);
  }

  /** Whatever the exporter prints in between, either importer, reading its stream to the end, imports
  the announced devices, all of them, in their order; and the local one forwards each socket it is told
  of before it goes on. */
  lemma AsksForWhatWasSent(sent: seq<Sent>, sockets: bool)
    requires forall i :: 0 <= i < |sent| ==> IsSent(sent[i])
    ensures Actions(ScanLines(Unlines(LinesOf(sent))), sockets) == (Asked(sent, sockets), Eof)
  {
    ActionsOfSent(sent, sockets);
    ScanOfSent(LinesOf(sent));
  }

  /** The devices among what is sent. */
  function Imports(sent: seq<Sent>): seq<Action> {
    if sent == [] then []
    else (if sent[0].Device? then [Import(sent[0].bus, sent[0].dev, sent[0].speed)] else []) + Imports(sent[1..])
  }

  lemma {:induction false} AskedAre(sent: seq<Sent>, sockets: bool)
    requires !sockets || forall i :: 0 <= i < |sent| ==> !sent[i].Socket?
    ensures Asked(sent, sockets) == Imports(sent)
  {
    if sent != [] {
      AskedAre(sent[1..], sockets);
    }
  }

  /** A forward session opens with its socket and a reverse one has none: the local importer forwards
  first and then imports what was announced, the remote one just imports. */
  lemma {:induction false} ImportsWhatWasAnnounced(path: string, sent: seq<Sent>)
    requires IsLine("-Socket " + path) && forall i :: 0 <= i < |sent| ==> IsSent(sent[i]) && !sent[i].Socket?
    ensures Actions(ScanLines(Unlines(LinesOf([Socket(path)] + sent))), true) == ([Forward(path)] + Imports(sent), Eof)
    ensures Actions(ScanLines(Unlines(LinesOf(sent))), false) == (Imports(sent), Eof)
  {
    var all := [Socket(path)] + sent;
    assert all[1..] == sent && forall i :: 0 <= i < |all| ==> IsSent(all[i]);
    AsksForWhatWasSent(all, true);
    AsksForWhatWasSent(sent, false);
    AskedAre(sent, true);
    AskedAre(sent, false);
  }
}
