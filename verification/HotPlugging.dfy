/** Hot-plugging: a uevent, from the kernel's message to the connection that is held because of it. */
module HotPlugging {
  import opened Text
  import opened Linger
  import opened Uevent

  // ----- looking into a path

  lemma {:induction false} ContainsExactly(s: string, t: string)
    requires t != ""
    ensures Contains(s, t) <==> exists i :: OccursAt(s, t, i)
  {
    if HasPrefix(s, t) {
      assert OccursAt(s, t, 0);
    } else if s != "" {
      ContainsExactly(s[1..], t);
      if i :| OccursAt(s[1..], t, i) {
        assert s[1..][i..i + |t|] == s[i + 1..i + 1 + |t|];
        assert OccursAt(s, t, i + 1);
      }
      if i :| OccursAt(s, t, i) {
        assert s[0..|t|] == s[..|t|] && i > 0;
        assert s[1..][i - 1..i - 1 + |t|] == s[i..i + |t|];
        assert OccursAt(s[1..], t, i - 1);
      }
    }
  }

  lemma {:induction false} BaseOfPath(dir: string, name: string)
    requires name != "" && '/' !in name
    ensures Base(dir + "/" + name) == name
    decreases |dir|
  {
    var path := dir + "/" + name;
    var i := IndexOf(dir, '/');
    if i == |dir| {
      assert '/' !in dir by { NoneBefore(dir, '/'); }
      IndexOfFirst(dir, '/', name);
      assert path[|dir| + 1..] == name;
      IndexOfMissing(name, '/');
    } else {
      NoneBefore(dir, '/');
      IndexOfFirst(dir[..i], '/', dir[i + 1..] + "/" + name);
      assert path == dir[..i] + ['/'] + (dir[i + 1..] + "/" + name);
      assert path[i + 1..] == dir[i + 1..] + "/" + name;
      BaseOfPath(dir[i + 1..], name);
    }
  }

  lemma {:induction false} NoneBefore(s: string, c: char)
    ensures c !in s[..IndexOf(s, c)]
  {
    if s != "" && s[0] != c {
      NoneBefore(s[1..], c);
      assert s[..IndexOf(s, c)] == [s[0]] + s[1..][..IndexOf(s[1..], c)];
    }
  }

  // ----- which devices are taken

  predicate Says(m: Env, key: string, value: string) {
    key in m && m[key] == value
  }

  /** The generic driver was bound to a device; it is no hub and has not come through vhci. */
  ghost predicate IsNewDevice(m: Env) {
    && Says(m, "ACTION", "bind") && Says(m, "DEVTYPE", "usb_device") && Says(m, "DRIVER", "usb")
    && !("TYPE" in m && OccursAt(m["TYPE"], "9/", 0))
    && !("DEVPATH" in m && exists i :: OccursAt(m["DEVPATH"], "vhci_hcd", i))
  }

  lemma IsHotPlugExactly(m: Env)
    ensures IsHotPlug(m) <==> IsNewDevice(m)
  {
    ContainsExactly(Lookup(m, "DEVPATH"), "vhci_hcd");
    assert !OccursAt("", "9/", 0);
    var t := Lookup(m, "TYPE");
    assert |t| >= 2 ==> t[0..2] == t[..2];
  }

  /** One message of the kernel: its pairs, of several with one key the last, decide whether the device
  is exported; if it is, and the export goes well, it is held under the last component of its path;
  otherwise nothing changes.  A failed export is the end of a forward session only. */
  lemma HotPlugOfMessage(o: Options, w: World, r: Round, reverse: bool, header: string, pairs: seq<Pair>, m: Env,
                         dir: string, name: string)
    requires '=' !in header && '\0' !in header && forall i :: 0 <= i < |pairs| ==> PairOk(pairs[i], '\0')
    requires r.recv == Received(Message(header, pairs)) && IsLastWins(pairs, m)
    requires Says(m, "DEVPATH", dir + "/" + name) && name != "" && '/' !in name
    ensures HotPlug(o, w, r, reverse) ==
            if !IsNewDevice(m) || !o.selects(m) then Turn(w, StillRunning)
            else if ExportFails(r.readable, r.exported) then Turn(w, if reverse then StillRunning else Fatal)
            else if o.noLinger then Turn(w, StillRunning)
            else Turn(Take(w, Sock(r.exported.file, name)), StillRunning)
  {
    ParseOfMessage(header, pairs);
    LastWinsIsUnique(pairs, m, Collect(Split(Message(header, pairs), '\0')));
    IsHotPlugExactly(m);
    BaseOfPath(dir, name);
  }

  // ----- a message that is one

  function BindPairs(path: string): seq<Pair> {
    [Pair("ACTION", "bind"), Pair("DEVPATH", path), Pair("DEVTYPE", "usb_device"), Pair("DRIVER", "usb")]
  }

  function BindMessage(path: string): string {
    Message("bind@" + path, BindPairs(path))
  }

  lemma KeysDiffer()
    ensures "ACTION" != "DEVPATH" && "ACTION" != "DEVTYPE" && "ACTION" != "DRIVER" && "DEVPATH" != "DEVTYPE"
    ensures "DEVPATH" != "DRIVER" && "DEVTYPE" != "DRIVER"
    ensures "TYPE" !in ["ACTION", "DEVPATH", "DEVTYPE", "DRIVER"]
  {
    assert "DEVPATH"[3] == 'P' && "DEVTYPE"[3] == 'T' && "ACTION"[0] == 'A' && "DRIVER"[1] == 'R';
    assert "TYPE"[0] == 'T' && "DRIVER"[0] == 'D' && "DEVPATH"[0] == 'D' && "DEVTYPE"[0] == 'D';
  }

  lemma LastSays(pairs: seq<Pair>, m: Env, i: nat)
    requires IsLastWins(pairs, m) && i < |pairs| && forall j :: i < j < |pairs| ==> pairs[j].key != pairs[i].key
    ensures Says(m, pairs[i].key, pairs[i].value)
  {
    var rest := pairs[i + 1..];
    assert forall j :: 0 <= j < |rest| ==> rest[j] == pairs[i + 1 + j];
    assert IsLast(pairs, i);
  }

  lemma NoSuchKey(pairs: seq<Pair>, k: string, m: Env)
    requires IsLastWins(pairs, m) && forall i :: 0 <= i < |pairs| ==> pairs[i].key != k
    ensures k !in m
  {
  }

  ghost predicate DistinctKeys(pairs: seq<Pair>) {
    forall i, j :: 0 <= i < j < |pairs| ==> pairs[j].key != pairs[i].key
  }

  lemma BindKeysDiffer(path: string)
    ensures DistinctKeys(BindPairs(path)) && forall i :: 0 <= i < 4 ==> BindPairs(path)[i].key != "TYPE"
  {
    KeysDiffer();
  }

  lemma AllSay(pairs: seq<Pair>, m: Env)
    requires IsLastWins(pairs, m) && DistinctKeys(pairs)
    ensures forall i :: 0 <= i < |pairs| ==> Says(m, pairs[i].key, pairs[i].value)
  {
    forall i | 0 <= i < |pairs| ensures Says(m, pairs[i].key, pairs[i].value) {
      LastSays(pairs, m, i);
    }
  }

  lemma BindSays(path: string, m: Env)
    requires IsLastWins(BindPairs(path), m)
    ensures Says(m, "ACTION", "bind") && Says(m, "DEVPATH", path) && Says(m, "DEVTYPE", "usb_device")
    ensures Says(m, "DRIVER", "usb") && "TYPE" !in m
  {
    var pairs := BindPairs(path);
    BindKeysDiffer(path);
    AllSay(pairs, m);
    NoSuchKey(pairs, "TYPE", m);
    assert pairs[0] == Pair("ACTION", "bind") && pairs[1] == Pair("DEVPATH", path);
    assert pairs[2] == Pair("DEVTYPE", "usb_device") && pairs[3] == Pair("DRIVER", "usb");
  }

  predicate IsPlain(s: string) {
    '=' !in s && '\0' !in s
  }

  lemma ConstantsArePlain()
    ensures IsPlain("ACTION") && IsPlain("DEVPATH") && IsPlain("DEVTYPE") && IsPlain("DRIVER")
    ensures IsPlain("bind") && IsPlain("usb_device") && IsPlain("usb") && IsPlain("bind@")
  {
  }

  lemma BindIsMessage(path: string)
    requires IsPlain(path)
    ensures IsPlain("bind@" + path)
    ensures forall i :: 0 <= i < 4 ==> PairOk(BindPairs(path)[i], '\0')
  {
    ConstantsArePlain();
  }

  lemma BindIsWanted(path: string, m: Env)
    requires Says(m, "ACTION", "bind") && Says(m, "DEVPATH", path) && Says(m, "DEVTYPE", "usb_device")
    requires Says(m, "DRIVER", "usb") && "TYPE" !in m && !Contains(path, "vhci_hcd")
    ensures IsHotPlug(m)
  {
  }

  /** The kernel's message that usb has been bound to the device at this path. */
  lemma BindIsHotPlug(path: string)
    requires '=' !in path && '\0' !in path && !Contains(path, "vhci_hcd")
    ensures IsHotPlug(Collect(Split(BindMessage(path), '\0')))
  {
    BindIsMessage(path);
    ParseOfMessage("bind@" + path, BindPairs(path));
    var m := Collect(Split(BindMessage(path), '\0'));
    BindSays(path, m);
    BindIsWanted(path, m);
  }
}
