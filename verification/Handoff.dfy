/** Handing held sockets to a re-executed child by its command line. */
module Handoff {
  import opened Text
  import opened Linger

  // ----- the flag package, for the flags that main declares

  datatype Globals = Globals(
    verbose: bool, version: bool, sudo: bool, sudoPrompt: bool,
    ssh: string, sysfs: string, modprobe: string, sshUser: string)

  const DEFAULTS := Globals(false, false, false, false, "ssh", "/sys", "modprobe", "")

  datatype Flags = Parsed(globals: Globals, args: seq<string>) | FlagError

  predicate IsBoolFlag(name: string) {
    name == "v" || name == "verbose" || name == "version" || name == "sudo" || name == "sudo-prompt"
  }

  predicate IsStringFlag(name: string) {
    name == "ssh" || name == "sysfs" || name == "modprobe" || name == "ssh-user"
  }

  function SetBool(g: Globals, name: string, b: bool): Globals
    requires IsBoolFlag(name)
  {
    if name == "v" || name == "verbose" then g.(verbose := b)
    else if name == "version" then g.(version := b)
    else if name == "sudo" then g.(sudo := b)
    else g.(sudoPrompt := b)
  }

  function SetString(g: Globals, name: string, value: string): Globals
    requires IsStringFlag(name)
  {
    if name == "ssh" then g.(ssh := value)
    else if name == "sysfs" then g.(sysfs := value)
    else if name == "modprobe" then g.(modprobe := value)
    else g.(sshUser := value)
  }

  function ParseBool(s: string): Option<bool> {
    if s == "1" || s == "t" || s == "T" || s == "TRUE" || s == "true" || s == "True" then Some(true)
    else if s == "0" || s == "f" || s == "F" || s == "FALSE" || s == "false" || s == "False" then Some(false)
    else None
  }

  /** The name in -name, --name, -name=value, and the value if there is one. */
  function NameOf(arg: string): (string, Option<string>)
    requires |arg| >= 2
  {
    var name := if arg[1] == '-' then arg[2..] else arg[1..];
    if name == "" then ("", None)
    else
      var i := 1 + IndexOf(name[1..], '=');
      if i == |name| then (name, None) else (name[..i], Some(name[i + 1..]))
  }

  /** FlagSet.Parse: flags up to the first argument that is not one.  A value that is the next argument
  is taken whatever it looks like. */
  function ParseFlags(g: Globals, args: seq<string>): Flags
    decreases |args|
  {
    if args == [] || |args[0]| < 2 || args[0][0] != '-' then Parsed(g, args)
    else if args[0] == "--" then Parsed(g, args[1..])
    else
      var (name, value) := NameOf(args[0]);
      if name == "" || name[0] == '-' || name[0] == '=' then FlagError
      else if IsBoolFlag(name) then
        match if value.None? then Some(true) else ParseBool(value.value)
        case Some(b) => ParseFlags(SetBool(g, name, b), args[1..])
        case None => FlagError
      else if IsStringFlag(name) then
        if value.Some? then ParseFlags(SetString(g, name, value.value), args[1..])
        else if |args| < 2 then FlagError
        else ParseFlags(SetString(g, name, args[1]), args[2..])
      else FlagError
  }

  datatype Command =
    | Rejected
    | Usage
    | Other(name: string, args: seq<string>)
    | LingerCommand(globals: Globals, busids: seq<string>)

  /** main, up to the choice of the command. */
  function Dispatch(argv: seq<string>): Command {
    if argv == [] then Usage
    else
      match ParseFlags(DEFAULTS, argv[1..])
      case FlagError => Usage
      case Parsed(g, args) =>
        if g.version || Fields(g.ssh) == [] || (g.sudo && g.sudoPrompt) then Rejected
        else if args == [] then Usage
        else if args[0] == "linger" then LingerCommand(g, args[1..])
        else Other(args[0], args[1..])
  }

  // ----- the parent

  const PROG_NAME := "usbip-ssh"

  function Busids(socks: seq<Sock>): seq<string> {
    seq(|socks|, i requires 0 <= i < |socks| => socks[i].busid)
  }

  function OpenFiles(socks: seq<Sock>): seq<int> {
    seq(|socks|, i requires 0 <= i < |socks| => socks[i].file)
  }

  function Argv(sysfs: string, modprobe: string, verbose: bool, busids: seq<string>): seq<string> {
    [PROG_NAME, "--sysfs", sysfs, "--modprobe", modprobe] + (if verbose then ["-v"] else []) + ["linger"] + busids
  }

  /** spawnLingerAndExit, for sockets there are: the child's arguments and its extra files. */
  method SpawnLinger(socks: seq<Sock>, sysfs: string, modprobe: string, verbose: bool)
    returns (argv: seq<string>, files: seq<int>)
    ensures argv == Argv(sysfs, modprobe, verbose, Busids(socks)) && files == OpenFiles(socks)
    ensures argv[0] == "usbip-ssh" && |files| == |socks| && forall i :: 0 <= i < |socks| ==> files[i] == socks[i].file
  {
    argv := [PROG_NAME, "--sysfs", sysfs, "--modprobe", modprobe];
    if verbose {
      argv := argv + ["-v"];
    }
    argv := argv + ["linger"];
    ghost var flags := argv;
    files := [];
    for i := 0 to |socks|
      invariant argv == flags + Busids(socks)[..i] && files == OpenFiles(socks)[..i]
    {
      argv := argv + [socks[i].busid];
      files := files + [socks[i].file];
    }
  }

  // ----- the child

  const FIRST_EXTRA_FD := 3

  function ChildSocks(busids: seq<string>): seq<Sock> {
    seq(|busids|, i requires 0 <= i < |busids| => Sock(FIRST_EXTRA_FD + i, busids[i]))
  }

  /** lingerMain: the i-th busid goes with file descriptor 3+i. */
  method LingerMain(busids: seq<string>) returns (socks: seq<Sock>)
    ensures socks == ChildSocks(busids)
    ensures |socks| == |busids| && forall i :: 0 <= i < |socks| ==> socks[i] == Sock(3 + i, busids[i])
  {
    socks := [];
    for i := 0 to |busids|
      invariant socks == ChildSocks(busids)[..i]
    {
      socks := socks + [Sock(FIRST_EXTRA_FD + i, busids[i])];
    }
  }

  /** The child's descriptors resolved as exec lays them out: descriptor 3+i is the i-th extra file. */
  function Resolve(socks: seq<Sock>, files: seq<int>): Option<seq<Sock>> {
    if forall i :: 0 <= i < |socks| ==> 0 <= socks[i].file - FIRST_EXTRA_FD < |files| then
      Some(seq(|socks|, i requires 0 <= i < |socks| && 0 <= socks[i].file - FIRST_EXTRA_FD < |files| =>
        Sock(files[socks[i].file - FIRST_EXTRA_FD], socks[i].busid)))
    else None
  }

  /** What the child holds.  None if it would not linger at all, or would look at a file it was not
  given. */
  function Inherited(argv: seq<string>, files: seq<int>): Option<seq<Sock>> {
    match Dispatch(argv)
    case LingerCommand(_, busids) => Resolve(ChildSocks(busids), files)
    case _ => None
  }

  lemma NameOfLong(name: string)
    requires name != "" && forall i :: 0 <= i < |name| ==> name[i] != '='
    ensures NameOf("--" + name) == (name, None)
  {
    IndexOfMissing(name[1..], '=');
    assert ("--" + name)[2..] == name;
  }

  lemma NamesOfFlags()
    ensures NameOf("--sysfs") == ("sysfs", None) && NameOf("--modprobe") == ("modprobe", None)
  {
    NameOfLong("sysfs");
    assert "--sysfs" == "--" + "sysfs";
    NameOfLong("modprobe");
    assert "--modprobe" == "--" + "modprobe";
  }

  lemma StringFlag(g: Globals, arg: string, name: string, value: string, rest: seq<string>)
    requires |arg| > 2 && arg[0] == '-' && NameOf(arg) == (name, None) && IsStringFlag(name)
    ensures ParseFlags(g, [arg, value] + rest) == ParseFlags(SetString(g, name, value), rest)
  {
    assert ([arg, value] + rest)[2..] == rest;
  }

  lemma VerboseFlag(g: Globals, rest: seq<string>)
    ensures ParseFlags(g, ["-v"] + rest) == ParseFlags(g.(verbose := true), rest)
  {
    assert "-v"[1..] == "v" && "v"[1..] == "";
    assert (["-v"] + rest)[1..] == rest;
  }

  lemma FlagsOfArgv(sysfs: string, modprobe: string, verbose: bool, busids: seq<string>)
    ensures ParseFlags(DEFAULTS, Argv(sysfs, modprobe, verbose, busids)[1..])
            == Parsed(DEFAULTS.(sysfs := sysfs, modprobe := modprobe, verbose := verbose), ["linger"] + busids)
  {
    var tail := ["linger"] + busids;
    var flags := (if verbose then ["-v"] else []) + tail;
    var g := DEFAULTS.(sysfs := sysfs, modprobe := modprobe);
    NamesOfFlags();
    assert Argv(sysfs, modprobe, verbose, busids)[1..] == ["--sysfs", sysfs] + (["--modprobe", modprobe] + flags);
    StringFlag(DEFAULTS, "--sysfs", "sysfs", sysfs, ["--modprobe", modprobe] + flags);
    StringFlag(DEFAULTS.(sysfs := sysfs), "--modprobe", "modprobe", modprobe, flags);
    if verbose {
      VerboseFlag(g, tail);
    } else {
      assert flags == tail;
    }
  }

  // ----- what any command line means

  datatype Switch = V | Verbose | Version | Sudo | SudoPrompt

  datatype Setting = Ssh | Sysfs | Modprobe | SshUser

  // A flag as it may be written: with one dash or two, a switch with a value after '=' or without one, a
  // setting with its value after '=' or as the next argument.
  datatype Flag =
    | On(s: Switch, two: bool)
    | Given(s: Switch, two: bool, text: string)
    | Joined(f: Setting, two: bool, value: string)
    | Apart(f: Setting, two: bool, value: string)

  function SwitchName(s: Switch): string {
    match s
    case V => "v"
    case Verbose => "verbose"
    case Version => "version"
    case Sudo => "sudo"
    case SudoPrompt => "sudo-prompt"
  }

  function SettingName(f: Setting): string {
    match f
    case Ssh => "ssh"
    case Sysfs => "sysfs"
    case Modprobe => "modprobe"
    case SshUser => "ssh-user"
  }

  function Dashes(two: bool): string {
    if two then "--" else "-"
  }

  function Written(f: Flag): seq<string> {
    match f
    case On(s, two) => [Dashes(two) + SwitchName(s)]
    case Given(s, two, text) => [Dashes(two) + SwitchName(s) + "=" + text]
    case Joined(f, two, value) => [Dashes(two) + SettingName(f) + "=" + value]
    case Apart(f, two, value) => [Dashes(two) + SettingName(f), value]
  }

  const TRUE_TEXTS := ["1", "t", "T", "TRUE", "true", "True"]
  const FALSE_TEXTS := ["0", "f", "F", "FALSE", "false", "False"]

  function Switched(g: Globals, s: Switch, b: bool): Globals {
    match s
    case V => g.(verbose := b)
    case Verbose => g.(verbose := b)
    case Version => g.(version := b)
    case Sudo => g.(sudo := b)
    case SudoPrompt => g.(sudoPrompt := b)
  }

  function Set(g: Globals, f: Setting, value: string): Globals {
    match f
    case Ssh => g.(ssh := value)
    case Sysfs => g.(sysfs := value)
    case Modprobe => g.(modprobe := value)
    case SshUser => g.(sshUser := value)
  }

  predicate IsMeant(f: Flag) {
    f.Given? ==> f.text in TRUE_TEXTS || f.text in FALSE_TEXTS
  }

  function Meant(g: Globals, f: Flag): Globals {
    match f
    case On(s, _) => Switched(g, s, true)
    case Given(s, _, text) => Switched(g, s, text in TRUE_TEXTS)
    case Joined(f, _, value) => Set(g, f, value)
    case Apart(f, _, value) => Set(g, f, value)
  }

  function AllWritten(flags: seq<Flag>): seq<string> {
    if flags == [] then [] else Written(flags[0]) + AllWritten(flags[1..])
  }

  function AllMeant(g: Globals, flags: seq<Flag>): Globals
    decreases |flags|
  {
    if flags == [] then g else AllMeant(Meant(g, flags[0]), flags[1..])
  }

  predicate IsName(name: string) {
    name != "" && name[0] != '-' && forall i :: 0 <= i < |name| ==> name[i] != '='
  }

  lemma NameAlone(two: bool, name: string)
    requires IsName(name)
    ensures NameOf(Dashes(two) + name) == (name, None)
  {
    var arg := Dashes(two) + name;
    IndexOfMissing(name[1..], '=');
    assert (if two then arg[2..] else arg[1..]) == name;
  }

  lemma NameWithValue(two: bool, name: string, value: string)
    requires IsName(name)
    ensures NameOf(Dashes(two) + name + "=" + value) == (name, Some(value))
  {
    var arg, all := Dashes(two) + name + "=" + value, name + "=" + value;
    assert (if two then arg[2..] else arg[1..]) == all;
    IndexOfFirst(name[1..], '=', value);
    assert all[1..] == name[1..] + ['='] + value;
    assert all[..|name|] == name && all[|name| + 1..] == value;
  }

  lemma SwitchNames(s: Switch)
    ensures IsName(SwitchName(s)) && IsBoolFlag(SwitchName(s))
    ensures forall g, b :: SetBool(g, SwitchName(s), b) == Switched(g, s, b)
  {
    assert |"v"| == 1 && |"verbose"| == 7 && |"version"| == 7 && |"sudo"| == 4 && |"sudo-prompt"| == 11;
    assert "verbose"[4] == 'o' && "version"[4] == 'i';
  }

  lemma SettingNames(f: Setting)
    ensures IsName(SettingName(f)) && IsStringFlag(SettingName(f)) && !IsBoolFlag(SettingName(f))
    ensures forall g, value :: SetString(g, SettingName(f), value) == Set(g, f, value)
  {
    assert |"v"| == 1 && |"verbose"| == 7 && |"version"| == 7 && |"sudo"| == 4 && |"sudo-prompt"| == 11;
    assert |"ssh"| == 3 && |"sysfs"| == 5 && |"modprobe"| == 8 && |"ssh-user"| == 8;
    assert "modprobe"[0] == 'm' && "ssh-user"[0] == 's';
  }

  lemma TruthTexts(s: string)
    ensures ParseBool(s) == if s in TRUE_TEXTS then Some(true) else if s in FALSE_TEXTS then Some(false) else None
  {
    assert TRUE_TEXTS[0] == "1" && TRUE_TEXTS[1] == "t" && TRUE_TEXTS[2] == "T";
    assert TRUE_TEXTS[3] == "TRUE" && TRUE_TEXTS[4] == "true" && TRUE_TEXTS[5] == "True";
    assert FALSE_TEXTS[0] == "0" && FALSE_TEXTS[1] == "f" && FALSE_TEXTS[2] == "F";
    assert FALSE_TEXTS[3] == "FALSE" && FALSE_TEXTS[4] == "false" && FALSE_TEXTS[5] == "False";
  }

  lemma Looked(two: bool, name: string, more: string)
    requires IsName(name) && (more == "" || more[0] == '=')
    ensures var arg := Dashes(two) + name + more; |arg| >= 2 && arg[0] == '-' && arg != "--"
  {
    var arg := Dashes(two) + name + more;
    assert arg[if two then 2 else 1] == name[0];
  }

  lemma BoolFlag(g: Globals, arg: string, name: string, value: Option<string>, rest: seq<string>)
    requires |arg| >= 2 && arg[0] == '-' && arg != "--" && NameOf(arg) == (name, value)
    requires IsName(name) && IsBoolFlag(name)
    ensures ParseFlags(g, [arg] + rest) ==
            match (if value.None? then Some(true) else ParseBool(value.value))
            case Some(b) => ParseFlags(SetBool(g, name, b), rest)
            case None => FlagError
  {
    assert ([arg] + rest)[1..] == rest;
  }

  lemma SwitchMeans(g: Globals, f: Flag, rest: seq<string>)
    requires (f.On? || f.Given?) && IsMeant(f)
    ensures ParseFlags(g, Written(f) + rest) == ParseFlags(Meant(g, f), rest)
  {
    var name, arg := SwitchName(f.s), Written(f)[0];
    SwitchNames(f.s);
    if f.On? {
      Looked(f.two, name, "");
      assert Dashes(f.two) + name + "" == arg;
      NameAlone(f.two, name);
      BoolFlag(g, arg, name, None, rest);
    } else {
      Looked(f.two, name, "=" + f.text);
      assert Dashes(f.two) + name + ("=" + f.text) == arg;
      NameWithValue(f.two, name, f.text);
      TruthTexts(f.text);
      BoolFlag(g, arg, name, Some(f.text), rest);
    }
  }

  lemma SettingMeans(g: Globals, f: Flag, rest: seq<string>)
    requires f.Joined? || f.Apart?
    ensures ParseFlags(g, Written(f) + rest) == ParseFlags(Meant(g, f), rest)
  {
    var name := SettingName(f.f);
    SettingNames(f.f);
    var args := Written(f) + rest;
    if f.Joined? {
      Looked(f.two, name, "=" + f.value);
      assert Dashes(f.two) + name + ("=" + f.value) == args[0];
      NameWithValue(f.two, name, f.value);
      assert args[1..] == rest;
    } else {
      Looked(f.two, name, "");
      assert Dashes(f.two) + name + "" == args[0];
      NameAlone(f.two, name);
      assert args[2..] == rest && args[1] == f.value;
    }
  }

  lemma {:induction false} FlagsMean(g: Globals, flags: seq<Flag>, rest: seq<string>)
    requires forall i :: 0 <= i < |flags| ==> IsMeant(flags[i])
    ensures ParseFlags(g, AllWritten(flags) + rest) == ParseFlags(AllMeant(g, flags), rest)
    decreases |flags|
  {
    if flags == [] {
      assert AllWritten(flags) + rest == rest;
    } else {
      var f, more := flags[0], AllWritten(flags[1..]) + rest;
      assert AllWritten(flags) + rest == Written(f) + more;
      if f.On? || f.Given? { SwitchMeans(g, f, more); } else { SettingMeans(g, f, more); }
      FlagsMean(Meant(g, f), flags[1..], rest);
    }
  }

  /** Any flags, in any order and however they are written, are parsed to what they mean, up to the first
  argument that is none, or to "--". */
  lemma {:induction false} CommandLineMeans(flags: seq<Flag>, args: seq<string>)
    requires forall i :: 0 <= i < |flags| ==> IsMeant(flags[i])
    ensures args == [] || |args[0]| < 2 || args[0][0] != '-' ==>
              ParseFlags(DEFAULTS, AllWritten(flags) + args) == Parsed(AllMeant(DEFAULTS, flags), args)
    ensures ParseFlags(DEFAULTS, AllWritten(flags) + (["--"] + args)) == Parsed(AllMeant(DEFAULTS, flags), args)
  {
    FlagsMean(DEFAULTS, flags, args);
    FlagsMean(DEFAULTS, flags, ["--"] + args);
    assert (["--"] + args)[1..] == args;
  }

  /** A flag that no switch or setting has as its name is an error, and so is one without a name, a switch
  with any other text, and a setting that lacks its value. */
  lemma {:induction false} ErrorsAreSeen(g: Globals, two: bool, name: string, s: Switch, f: Setting, text: string,
                                         rest: seq<string>)
    ensures IsName(name) && (forall x :: SwitchName(x) != name) && (forall x :: SettingName(x) != name) ==>
              ParseFlags(g, [Dashes(two) + name] + rest) == FlagError
    ensures ParseFlags(g, [Dashes(two) + "=" + text] + rest) == FlagError
    ensures ParseFlags(g, ["---" + text] + rest) == FlagError
    ensures text !in TRUE_TEXTS && text !in FALSE_TEXTS ==>
              ParseFlags(g, [Dashes(two) + SwitchName(s) + "=" + text] + rest) == FlagError
    ensures ParseFlags(g, [Dashes(two) + SettingName(f)]) == FlagError
  {
    if IsName(name) { UnknownIsError(g, two, name, rest); }
    NamelessIsError(g, two, text, rest);
    BadTextIsError(g, two, s, text, rest);
    LackingIsError(g, two, f);
  }

  lemma UnknownIsError(g: Globals, two: bool, name: string, rest: seq<string>)
    requires IsName(name)
    ensures (forall x :: SwitchName(x) != name) && (forall x :: SettingName(x) != name) ==>
              ParseFlags(g, [Dashes(two) + name] + rest) == FlagError
  {
    assert SwitchName(V) == "v" && SwitchName(Verbose) == "verbose" && SwitchName(Version) == "version";
    assert SwitchName(Sudo) == "sudo" && SwitchName(SudoPrompt) == "sudo-prompt";
    assert SettingName(Ssh) == "ssh" && SettingName(Sysfs) == "sysfs";
    assert SettingName(Modprobe) == "modprobe" && SettingName(SshUser) == "ssh-user";
    Looked(two, name, "");
    assert Dashes(two) + name + "" == Dashes(two) + name;
    NameAlone(two, name);
  }

  lemma BadName(g: Globals, arg: string, rest: seq<string>)
    requires |arg| >= 2 && arg[0] == '-' && arg != "--"
    requires var name := NameOf(arg).0; name != "" && (name[0] == '-' || name[0] == '=')
    ensures ParseFlags(g, [arg] + rest) == FlagError
  {
  }

  lemma NameStarts(arg: string, c: char)
    requires |arg| > 2 && arg[0] == '-' && c == if arg[1] == '-' then arg[2] else arg[1]
    ensures var name := NameOf(arg).0; name != "" && name[0] == c
  {
  }

  lemma NamelessIsError(g: Globals, two: bool, text: string, rest: seq<string>)
    ensures ParseFlags(g, [Dashes(two) + "=" + text] + rest) == FlagError
    ensures ParseFlags(g, ["---" + text] + rest) == FlagError
  {
    var arg, dashes := Dashes(two) + "=" + text, "---" + text;
    assert arg[if two then 2 else 1] == '=' && arg != "--";
    if |arg| > 2 { NameStarts(arg, '='); }
    NameStarts(dashes, '-');
    BadName(g, arg, rest);
    BadName(g, dashes, rest);
  }

  lemma BadTextIsError(g: Globals, two: bool, s: Switch, text: string, rest: seq<string>)
    ensures text !in TRUE_TEXTS && text !in FALSE_TEXTS ==>
              ParseFlags(g, [Dashes(two) + SwitchName(s) + "=" + text] + rest) == FlagError
  {
    var name := SwitchName(s);
    SwitchNames(s);
    Looked(two, name, "=" + text);
    assert Dashes(two) + name + ("=" + text) == Dashes(two) + name + "=" + text;
    NameWithValue(two, name, text);
    TruthTexts(text);
    BoolFlag(g, Dashes(two) + name + "=" + text, name, Some(text), rest);
  }

  lemma LackingIsError(g: Globals, two: bool, f: Setting)
    ensures ParseFlags(g, [Dashes(two) + SettingName(f)]) == FlagError
  {
    var name := SettingName(f);
    SettingNames(f);
    Looked(two, name, "");
    assert Dashes(two) + name + "" == Dashes(two) + name;
    NameAlone(two, name);
  }

  /** What holds where no flag says otherwise. */
  lemma WithoutFlags(command: string)
    requires |command| >= 2 && command[0] != '-'
    ensures ParseFlags(DEFAULTS, [command]) ==
            Parsed(Globals(false, false, false, false, "ssh", "/sys", "modprobe", ""), [command])
  {
  }

  /** What main makes of a command line before it comes to a command. */
  lemma DispatchExactly(name: string, flags: seq<Flag>, args: seq<string>)
    requires forall i :: 0 <= i < |flags| ==> IsMeant(flags[i])
    ensures var g := AllMeant(DEFAULTS, flags);
            var c := Dispatch([name] + (AllWritten(flags) + (["--"] + args)));
            && (c.Rejected? <==> g.version || Fields(g.ssh) == [] || (g.sudo && g.sudoPrompt))
            && (c.Usage? <==> !c.Rejected? && args == [])
            && (c.LingerCommand? ==> args[0] == "linger" && c.globals == g && c.busids == args[1..])
            && (c.Other? ==> args[0] != "linger" && c.name == args[0] && c.args == args[1..])
    ensures ParseFlags(DEFAULTS, args) == FlagError ==> Dispatch([name] + args) == Usage
    ensures Dispatch([]) == Usage
  {
    assert ([name] + args)[1..] == args;
    var argv := [name] + (AllWritten(flags) + (["--"] + args));
    assert argv[1..] == AllWritten(flags) + (["--"] + args);
    CommandLineMeans(flags, args);
  }

  /** Whatever the sysfs and modprobe values - empty, or looking like flags - and whatever is held, the
  child runs with the parent's settings and lingers on the same busids. */
  lemma ChildRunsAsTold(sysfs: string, modprobe: string, verbose: bool, busids: seq<string>)
    ensures Dispatch(Argv(sysfs, modprobe, verbose, busids))
            == LingerCommand(DEFAULTS.(sysfs := sysfs, modprobe := modprobe, verbose := verbose), busids)
  {
    FlagsOfArgv(sysfs, modprobe, verbose, busids);
    FieldsOfJoin(["ssh"]);
    assert (["linger"] + busids)[1..] == busids;
  }

  /** The hand-off loses nothing, adds nothing and pairs every file with the busid it had. */
  lemma HandOffRoundTrip(socks: seq<Sock>, sysfs: string, modprobe: string, verbose: bool)
    ensures Inherited(Argv(sysfs, modprobe, verbose, Busids(socks)), OpenFiles(socks)) == Some(socks)
  {
    var argv, files := Argv(sysfs, modprobe, verbose, Busids(socks)), OpenFiles(socks);
    ChildRunsAsTold(sysfs, modprobe, verbose, Busids(socks));
    var held := Inherited(argv, files);
    assert held.Some? && |held.value| == |socks|;
    assert held.value == socks;
  }
}
