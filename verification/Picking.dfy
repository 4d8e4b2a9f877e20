/** The devices that a hot-plug takes, and those that findDev finds. */
module Picking {
  import opened Text
  import opened Pattern
  import opened DevPattern
  import opened Finding
  import opened Linger
  import opened HotPlugging
  import Uevent
  import Listing

  // What sysfs shows of a device beside its uevent fields: serial, manufacturer and product, and the
  // INTERFACE of each of its interfaces.
  datatype Attributes = Attributes(extra: seq<string>, ifaces: seq<string>)

  /** The device of a uevent, as mkDevSpec sees it; shows gives what is at a path. */
  function DeviceOf(m: Uevent.Env, shows: string -> Attributes): Usb {
    var path := Lookup(m, "DEVPATH");
    Usb(Base(path), Lookup(m, "PRODUCT"), Lookup(m, "BUSNUM"), Lookup(m, "DEVNUM"),
        shows(path).extra, shows(path).ifaces)
  }

  /** The device is called by the last component of its path, and has what the uevent says. */
  lemma DeviceMeans(m: Uevent.Env, shows: string -> Attributes, dir: string, name: string,
                    product: string, bus: string, dev: string)
    requires name != "" && '/' !in name && Says(m, "DEVPATH", dir + "/" + name)
    requires Says(m, "PRODUCT", product) && Says(m, "BUSNUM", bus) && Says(m, "DEVNUM", dev)
    ensures var there := shows(dir + "/" + name);
            DeviceOf(m, shows) == Usb(name, product, bus, dev, there.extra, there.ifaces)
  {
    BaseOfPath(dir, name);
  }

  function Selecting(pat: DevPattern, shows: string -> Attributes): Uevent.Env -> bool {
    m => Matches(pat, SpecOf(DeviceOf(m, shows)))
  }

  predicate IsTaken(pat: DevPattern, m: Uevent.Env, shows: string -> Attributes) {
    IsHotPlug(m) && Selecting(pat, shows)(m)
  }

  /** What the first loop exports: devices that are found and have not the class of a hub in bDeviceClass. */
  predicate IsExportedFirst(pat: DevPattern, d: Usb, hexClass: string) {
    IsFound(pat, d) && hexClass != "09"
  }

  /** usb has been bound to the device at this path, of this class, subclass and protocol. */
  ghost predicate IsBindOf(m: Uevent.Env, path: string, c: nat, s: nat, p: nat) {
    && Says(m, "ACTION", "bind") && Says(m, "DEVTYPE", "usb_device") && Says(m, "DRIVER", "usb")
    && Says(m, "DEVPATH", path) && Says(m, "TYPE", Iface(c, s, p))
  }

  // ----- the two filters

  /** TYPE tells a hub by its class. */
  lemma ClassInType(c: nat, s: nat, p: nat)
    ensures HasPrefix(Iface(c, s, p), "9/") <==> c == 9
  {
    var w, t := Numeral(c, 10), Iface(c, s, p);
    assert t[0] == w[0] && t[1] == if |w| > 1 then w[1] else '/';
    assert t[..2] == [t[0], t[1]];
    if c < 10 {
      assert w == [DigitOf(c)];
    } else {
      assert |w| > 1 && IsDigit(w[1], 10);
    }
  }

  /** bDeviceClass is the class in hex. */
  lemma ClassInHex(c: nat)
    requires c < 256
    ensures Hex2(c) == "09" <==> c == 9
  {
    DigitsTell(c, 9);
    NineZeroZero();
  }

  /** A hot-plug goes by the class of the device and by its path. */
  lemma TakenExactlyWhen(pat: DevPattern, m: Uevent.Env, shows: string -> Attributes, path: string,
                         c: nat, s: nat, p: nat)
    requires IsBindOf(m, path, c, s, p)
    ensures IsTaken(pat, m, shows) <==>
            c != 9 && !Contains(path, "vhci_hcd") && Matches(pat, SpecOf(DeviceOf(m, shows)))
  {
    ClassInType(c, s, p);
  }

  lemma FoundExactlyWhen(pat: DevPattern, d: Usb)
    ensures IsFound(pat, d) <==> Listing.IsDeviceName(d.busid) && !LooksLikeHub(d) && Matches(pat, SpecOf(d))
  {
    FoundIfMatched(pat, d);
  }

  /** findDev goes by the interfaces: with no such word in its texts, a device looks like a hub exactly if
  it has the interface 9/0/0. */
  lemma {:induction false} LooksByNumbers(d: Usb, ifs: seq<(nat, nat, nat)>)
    requires |ifs| == |d.ifaces| && forall i :: 0 <= i < |ifs| ==> d.ifaces[i] == Iface(ifs[i].0, ifs[i].1, ifs[i].2)
    requires forall i :: 0 <= i < |ifs| ==> ifs[i].0 < 256 && ifs[i].1 < 256 && ifs[i].2 < 256
    requires !HoldsHub(d.busid) && !HoldsHub(d.busnum) && !HoldsHub(d.devnum) && !SomeHolds(d.extra)
    ensures LooksLikeHub(d) <==> (9, 0, 0) in ifs
  {
    forall i | 0 <= i < |ifs| ensures HoldsHub(IfSpecs(d.ifaces)[i]) <==> ifs[i] == (9, 0, 0) {
      HubInterfaceExactly(ifs[i].0, ifs[i].1, ifs[i].2);
    }
  }

  // ----- exactly when they differ

  /** Of the devices that a pattern matches, a hot-plug takes one that findDev would not find exactly if it
  has not the class of a hub but looks like one (or has no device's name); and does not take one that it
  would find exactly if it has that class and does not look like a hub, or has come through vhci. */
  lemma DifferExactlyWhen(pat: DevPattern, m: Uevent.Env, shows: string -> Attributes, path: string,
                          c: nat, s: nat, p: nat)
    requires IsBindOf(m, path, c, s, p)
    ensures var d := DeviceOf(m, shows);
            var vhci := Contains(path, "vhci_hcd");
            Matches(pat, SpecOf(d)) ==>
            && (IsTaken(pat, m, shows) && !IsFound(pat, d) <==>
                c != 9 && !vhci && (LooksLikeHub(d) || !Listing.IsDeviceName(d.busid)))
            && (IsFound(pat, d) && !IsTaken(pat, m, shows) <==>
                (c == 9 || vhci) && !LooksLikeHub(d) && Listing.IsDeviceName(d.busid))
  {
    TakenExactlyWhen(pat, m, shows, path, c, s, p);
    FoundExactlyWhen(pat, DeviceOf(m, shows));
  }

  ghost predicate Agree(m: Uevent.Env, shows: string -> Attributes, c: nat) {
    forall pat :: IsTaken(pat, m, shows) <==> IsExportedFirst(pat, DeviceOf(m, shows), Hex2(c))
  }

  /** A session exports a device that is plugged in later just as one that is there from the first, whatever
  the pattern, exactly if it is a hub by its class, or both filters pass it, or both stop it. */
  lemma AgreeExactlyWhen(m: Uevent.Env, shows: string -> Attributes, path: string, c: nat, s: nat, p: nat)
    requires IsBindOf(m, path, c, s, p) && c < 256
    ensures var d := DeviceOf(m, shows);
            Agree(m, shows, c) <==>
            c == 9 || (!Contains(path, "vhci_hcd") <==> Listing.IsDeviceName(d.busid) && !LooksLikeHub(d))
  {
    var d := DeviceOf(m, shows);
    ClassInHex(c);
    forall pat
      ensures IsTaken(pat, m, shows) <==> c != 9 && !Contains(path, "vhci_hcd") && Matches(pat, SpecOf(d))
      ensures IsExportedFirst(pat, d, Hex2(c)) <==>
              c != 9 && Listing.IsDeviceName(d.busid) && !LooksLikeHub(d) && Matches(pat, SpecOf(d))
    {
      TakenExactlyWhen(pat, m, shows, path, c, s, p);
      FoundExactlyWhen(pat, d);
    }
    AnythingMatches(SpecOf(d));
    if Agree(m, shows, c) {
      assert IsTaken(DevPattern([], false), m, shows) <==> IsExportedFirst(DevPattern([], false), d, Hex2(c));
    }
  }

  // ----- devices on which they differ

  /** A device that is no hub but has the word as its serial number, say: exported if it is plugged in
  later, never if it is there from the first. */
  lemma TakenThoughHidden(pat: DevPattern, m: Uevent.Env, shows: string -> Attributes, path: string, k: nat,
                          c: nat, s: nat, p: nat)
    requires IsBindOf(m, path, c, s, p) && c != 9 && !Contains(path, "vhci_hcd")
    requires k < |shows(path).extra| && shows(path).extra[k] == HUB
    ensures IsTaken(DevPattern([], false), m, shows) && !IsFound(pat, DeviceOf(m, shows))
  {
    TakenExactlyWhen(DevPattern([], false), m, shows, path, c, s, p);
    AnythingMatches(SpecOf(DeviceOf(m, shows)));
    TextCanHide(pat, DeviceOf(m, shows), k);
  }

  /** A hub with several transaction translators: found by its ids, and exported neither way. */
  lemma FoundThoughHub(m: Uevent.Env, shows: string -> Attributes, path: string, vid: nat, pid: nat, p: nat)
    requires vid <= MAX_INT && pid <= MAX_INT && (p == 1 || p == 2)
    requires IsBindOf(m, path, 9, 0, p) && DeviceOf(m, shows) == OneHub(vid, pid, p)
    ensures var ids := MkDevPattern(Numeral(vid, 16) + ":" + Numeral(pid, 16));
            && ids.Some? && IsFound(ids.value, DeviceOf(m, shows))
            && !IsTaken(ids.value, m, shows) && !IsExportedFirst(ids.value, DeviceOf(m, shows), Hex2(9))
  {
    MultiHubIsFound(vid, pid, p);
    var ids := MkDevPattern(Numeral(vid, 16) + ":" + Numeral(pid, 16));
    TakenExactlyWhen(ids.value, m, shows, path, 9, 0, p);
    ClassInHex(9);
  }

  // ----- from the message to the connection

  ghost predicate HasIds(a: string, b: string, vid: nat, pid: nat) {
    (a != "" ==> Value(a, 16) == vid) && (b != "" ==> Value(b, 16) == pid)
  }

  /** With the pattern vid:pid, the message of a device leads to a held connection exactly if the device
  has these ids, is no hub by its class, has not come through vhci, and its export goes well. */
  lemma HotPlugByIds(a: string, b: string, o: Options, w: World, r: Round, reverse: bool, header: string,
                     pairs: seq<Uevent.Pair>, m: Uevent.Env, shows: string -> Attributes, dir: string, name: string,
                     c: nat, s: nat, p: nat, vid: nat, pid: nat, version: string)
    requires (a == "" || IsHexToken(a)) && (b == "" || IsHexToken(b)) && !(a == "" && b == "")
    requires var pat := MkDevPattern(a + ":" + b); pat.Some? ==> o.selects == Selecting(pat.value, shows)
    requires '=' !in header && '\0' !in header && forall i :: 0 <= i < |pairs| ==> Uevent.PairOk(pairs[i], '\0')
    requires r.recv == Received(Uevent.Message(header, pairs)) && Uevent.IsLastWins(pairs, m)
    requires IsBindOf(m, dir + "/" + name, c, s, p) && name != "" && '/' !in name
    requires Says(m, "PRODUCT", Numeral(vid, 16) + "/" + Numeral(pid, 16) + "/" + version) && '/' !in version
    requires vid <= MAX_INT && pid <= MAX_INT && PlainTexts(DeviceOf(m, shows))
    ensures HotPlug(o, w, r, reverse) ==
            if c == 9 || Contains(dir + "/" + name, "vhci_hcd") || !HasIds(a, b, vid, pid) then Turn(w, StillRunning)
            else if ExportFails(r.readable, r.exported) then Turn(w, if reverse then StillRunning else Fatal)
            else if o.noLinger then Turn(w, StillRunning)
            else Turn(Take(w, Sock(r.exported.file, name)), StillRunning)
  {
    var d := DeviceOf(m, shows);
    IdsMatchExactly(a, b, d, vid, pid, version);
    HotPlugOfMessage(o, w, r, reverse, header, pairs, m, dir, name);
    IsHotPlugExactly(m);
    TakenExactlyWhen(MkDevPattern(a + ":" + b).value, m, shows, dir + "/" + name, c, s, p);
  }
}
