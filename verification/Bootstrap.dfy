/** Shipping the payload over the ssh channel, and what follows it on the same stream. */
module Bootstrap {
  import opened Text

  // ----- the local side

  /** All that dialRemote writes: the password if sudo is to read one, the payload's size, the JSON
  argument line and the payload. */
  function Shipment(password: Option<string>, blob: string, payload: string): string {
    Greeting(password) + Numeral(|payload|, 10) + "\n" + blob + "\n" + payload
  }

  function Greeting(password: Option<string>): string {
    match password case None => "" case Some(p) => p + "\n"
  }

  datatype Dialed =
    | Connected(arch: string)
    | AuthFailed
    | NoPayload(arch: string)
    | NoArch(chatter: seq<string>)

  predicate IsArch(line: string) {
    HasPrefix(line, "-Arch ")
  }

  function LastFive(lines: seq<string>): seq<string> {
    if |lines| <= 5 then lines else lines[|lines| - 5..]
  }

  lemma LastFiveOfMore(lines: seq<string>, n: nat)
    requires n < |lines|
    ensures var five := LastFive(lines[..n]);
            LastFive(lines[..n + 1]) == (if |five| == 5 then five[1..] else five) + [lines[n]]
  {
  }

  // How waiting for the -Arch line ends.
  datatype Waited = Arch(arch: string) | SudoFailed | Ended(chatter: seq<string>)

  predicate IsChatter(line: string, withSudo: bool, sudoFailure: string -> bool) {
    !IsArch(line) && !(withSudo && sudoFailure(line))
  }

  /** The lines before line n were neither the -Arch line nor (with sudo) a sudo failure. */
  ghost predicate OnlyChatter(output: seq<string>, n: nat, withSudo: bool, sudoFailure: string -> bool) {
    n <= |output| && forall k :: 0 <= k < n ==> IsChatter(output[k], withSudo, sudoFailure)
  }

  lemma ChatterGoesOn(output: seq<string>, n: nat, withSudo: bool, sudoFailure: string -> bool)
    requires OnlyChatter(output, n, withSudo, sudoFailure) && n < |output|
    requires IsChatter(output[n], withSudo, sudoFailure)
    ensures OnlyChatter(output, n + 1, withSudo, sudoFailure)
  {
  }

  /** Which is to say. */
  lemma ChatterMeans(output: seq<string>, n: nat, withSudo: bool, sudoFailure: string -> bool)
    requires OnlyChatter(output, n, withSudo, sudoFailure)
    ensures n <= |output|
    ensures forall k :: 0 <= k < n ==> !HasPrefix(output[k], "-Arch ") && (withSudo ==> !sudoFailure(output[k]))
  {
  }

  lemma CutArch(line: string)
    ensures var c := CutPrefix(line, "-Arch ");
            if IsArch(line) then c.Some? && line == "-Arch " + c.value else c.None?
  {
  }

  method AwaitArch(output: seq<string>, withSudo: bool, sudoFailure: string -> bool) returns (r: Waited, at: nat)
    ensures OnlyChatter(output, at, withSudo, sudoFailure)
    ensures r.Ended? <==> at == |output|
    ensures r.Ended? ==> r.chatter == LastFive(output)
    ensures r.SudoFailed? ==> withSudo && !IsArch(output[at]) && sudoFailure(output[at])
    ensures r.Arch? ==> output[at] == "-Arch " + r.arch
  {
    var chatter: seq<string> := [];
    at := 0;
    while at < |output|
      invariant OnlyChatter(output, at, withSudo, sudoFailure) && chatter == LastFive(output[..at])
    {
      var line := output[at];
      CutArch(line);
      match CutPrefix(line, "-Arch ") {
        case None =>
          if withSudo && sudoFailure(line) {
            return SudoFailed, at;
          }
          LastFiveOfMore(output, at);
          ChatterGoesOn(output, at, withSudo, sudoFailure);
          if |chatter| == 5 {
            chatter := chatter[1..];
          }
          chatter := chatter + [line];
          at := at + 1;
        case Some(arch) => return Arch(arch), at;
      }
    }
    assert output[..|output|] == output;
    r := Ended(chatter);
  }

  /** The handshake, given the lines that the remote prints until it closes its output; at is the line
  that ended it. */
  method DialRemote(output: seq<string>, password: Option<string>, withSudo: bool, sudoFailure: string -> bool,
                    payloads: map<string, string>, blob: string)
    returns (r: Dialed, at: nat, sent: string)
    ensures OnlyChatter(output, at, withSudo, sudoFailure)
    ensures r.NoArch? <==> at == |output|
    ensures r.NoArch? ==> r.chatter == LastFive(output)
    ensures r.AuthFailed? ==> withSudo && !IsArch(output[at]) && sudoFailure(output[at])
    ensures r.Connected? || r.NoPayload? ==> output[at] == "-Arch " + r.arch
    ensures r.NoPayload? ==> TrimSpace(r.arch) !in payloads || payloads[TrimSpace(r.arch)] == ""
    ensures r.Connected? ==>
              TrimSpace(r.arch) in payloads && payloads[TrimSpace(r.arch)] != ""
              && sent == Shipment(password, blob, payloads[TrimSpace(r.arch)])
    ensures !r.Connected? ==> sent == Greeting(password)
  {
    sent := Greeting(password);
    var waited;
    waited, at := AwaitArch(output, withSudo, sudoFailure);
    match waited {
      case Ended(chatter) => r := NoArch(chatter);
      case SudoFailed => r := AuthFailed;
      case Arch(arch) =>
        var machine := TrimSpace(arch);
        if machine !in payloads || payloads[machine] == "" {
          r := NoPayload(arch);
        } else {
          sent := Shipment(password, blob, payloads[machine]);
          r := Connected(arch);
        }
    }
  }

  /** strings.TrimSpace */
  function TrimSpace(s: string): string {
    if s != "" && IsSpace(s[0]) then TrimSpace(s[1..])
    else if s != "" && IsSpace(s[|s| - 1]) then TrimSpace(s[..|s| - 1])
    else s
  }

  /** It leaves what is between the white space at either end. */
  lemma {:induction false} TrimSpaceLeaves(a: string, s: string, b: string)
    requires (forall i :: 0 <= i < |a| ==> IsSpace(a[i])) && forall i :: 0 <= i < |b| ==> IsSpace(b[i])
    requires s == "" || (!IsSpace(s[0]) && !IsSpace(s[|s| - 1]))
    ensures TrimSpace(a + s + b) == s
    decreases |a| + |b|
  {
    var t := a + s + b;
    if a != "" {
      assert t[1..] == a[1..] + s + b;
      TrimSpaceLeaves(a[1..], s, b);
    } else if b != "" {
      if s == "" {
        assert t == b && t[1..] == "" + s + b[1..];
        TrimSpaceLeaves("", s, b[1..]);
      } else {
        assert t[0] == s[0] && t[|t| - 1] == b[|b| - 1] && t[..|t| - 1] == a + s + b[..|b| - 1];
        TrimSpaceLeaves(a, s, b[..|b| - 1]);
      }
    } else {
      assert t == s;
    }
  }

  // ----- the remote side

  /** A line of a stream, and the rest of it. */
  function ReadLine(stream: string): Option<(string, string)> {
    Cut(stream, '\n')
  }

  /** What the shell's `read -r` leaves of a line: white space is trimmed at both ends. */
  function ShellField(line: string): string {
    if line != "" && (line[0] == ' ' || line[0] == '\t') then ShellField(line[1..])
    else if line != "" && (line[|line| - 1] == ' ' || line[|line| - 1] == '\t') then ShellField(line[..|line| - 1])
    else line
  }

  datatype Received = Received(password: Option<string>, args: string, payload: string, rest: string)

  /** sudo, where it reads a password, and then the bootstrap line: two reads, each of which must find
  a newline, and head -c. */
  function Receive(stream: string, prompted: bool): Option<Received> {
    if prompted then
      match ReadLine(stream)
      case None => None
      case Some((password, rest)) => ReceivePayload(rest, Some(password))
    else ReceivePayload(stream, None)
  }

  function ReceivePayload(stream: string, password: Option<string>): Option<Received> {
    match ReadLine(stream)
    case None => None
    case Some((n, rest)) => ReceiveArgs(rest, password, Value(ShellField(n), 10))
  }

  function ReceiveArgs(stream: string, password: Option<string>, n: nat): Option<Received> {
    match ReadLine(stream)
    case None => None
    case Some((args, rest)) =>
      var size := Min(n, |rest|);
      Some(Received(password, ShellField(args), rest[..size], rest[size..]))
  }

  predicate IsShellBlank(c: char) {
    c == ' ' || c == '\t'
  }

  /** A line that does not begin or end with a blank, such as the one, in braces, that json.Marshal makes of
  the arguments (RFC 8259, section 7: a string holds no raw newline). */
  predicate IsArgLine(blob: string) {
    '\n' !in blob && (blob == "" || (!IsShellBlank(blob[0]) && !IsShellBlank(blob[|blob| - 1])))
  }

  /** `read -r` takes off just the blanks and tabs at either end. */
  lemma {:induction false} ShellFieldLeaves(a: string, s: string, b: string)
    requires (forall i :: 0 <= i < |a| ==> a[i] in " \t") && forall i :: 0 <= i < |b| ==> b[i] in " \t"
    requires s == "" || (s[0] !in " \t" && s[|s| - 1] !in " \t")
    ensures ShellField(a + s + b) == s
    decreases |a| + |b|
  {
    var t := a + s + b;
    BlankCodes();
    if a != "" {
      assert t[1..] == a[1..] + s + b;
      ShellFieldLeaves(a[1..], s, b);
    } else if b != "" {
      if s == "" {
        assert t == b && t[1..] == "" + s + b[1..];
        ShellFieldLeaves("", s, b[1..]);
      } else {
        assert t[0] == s[0] && t[|t| - 1] == b[|b| - 1] && t[..|t| - 1] == a + s + b[..|b| - 1];
        ShellFieldLeaves(a, s, b[..|b| - 1]);
      }
    } else {
      assert t == s;
    }
  }

  lemma BlankCodes()
    ensures forall c: char :: c in " \t" <==> c as int == 32 || c as int == 9
  {
    assert " \t"[0] == ' ' && " \t"[1] == '\t';
  }

  lemma ReadLineOf(line: string, rest: string)
    requires '\n' !in line
    ensures ReadLine(line + "\n" + rest) == Some((line, rest))
  {
    CutAtFirst(line, '\n', rest);
  }

  lemma NumeralIsLine(n: nat)
    ensures '\n' !in Numeral(n, 10) && ShellField(Numeral(n, 10)) == Numeral(n, 10)
  {
    var s := Numeral(n, 10);
    assert forall i :: 0 <= i < |s| ==> IsDigit(s[i], 10);
  }

  lemma ArgsReceived(password: Option<string>, blob: string, payload: string, later: string)
    requires IsArgLine(blob)
    ensures ReceiveArgs(blob + "\n" + (payload + later), password, |payload|)
            == Some(Received(password, blob, payload, later))
  {
    ReadLineOf(blob, payload + later);
    assert ShellField(blob) == blob;
    assert (payload + later)[..|payload|] == payload && (payload + later)[|payload|..] == later;
  }

  lemma PayloadReceived(password: Option<string>, n: nat, rest: string)
    ensures ReceivePayload(Numeral(n, 10) + "\n" + rest, password) == ReceiveArgs(rest, password, n)
  {
    NumeralIsLine(n);
    ReadLineOf(Numeral(n, 10), rest);
    ValueOfNumeral(n, 10);
  }

  /** For every password without a newline, every argument line and every payload, whatever its bytes,
  the bootstrap receives what was sent, and leaves all that is sent later for the payload. */
  lemma ReceiveOfShipment(password: Option<string>, blob: string, payload: string, later: string)
    requires IsArgLine(blob)
    requires password.Some? ==> '\n' !in password.value
    ensures Receive(Shipment(password, blob, payload) + later, password.Some?)
            == Some(Received(password, blob, payload, later))
  {
    var rest := blob + "\n" + (payload + later);
    var message := Numeral(|payload|, 10) + "\n" + rest;
    assert Shipment(password, blob, payload) + later == Greeting(password) + message;
    PayloadReceived(password, |payload|, rest);
    ArgsReceived(password, blob, payload, later);
    if password.Some? {
      ReadLineOf(password.value, message);
      assert Greeting(password) + message == password.value + "\n" + message;
    } else {
      assert Greeting(password) + message == message;
    }
  }
}
