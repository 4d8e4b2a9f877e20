/** The part of the kernel that the exporter's sysfs writes act on.

Every write is one atomic step, described as a relation between the device table before and after
it.  Of a release only these facts about usbip-host are relied on: `unbind` succeeds exactly on a
device bound to usbip-host, which it then is not, and otherwise gives ENODEV; a driverless device goes
to usbip-host only while it is on usbip-host's match list; `drivers_probe` gives a driverless device a
driver; and the `usbip_status` of a device is a number other than 0 exactly while it is bound.
Everything else is left open: whether the released device is reprobed within the unbind write,
whether `match_busid` and `rebind` work, when the kernel's own probing happens, whether a device that
is still on the list goes back to usbip-host, and when a device is unplugged. */
module Kernel {
  type BusId = string

  datatype Driver = NoDriver | UsbipHost | Normal(name: string)

  const SDEV_ST_AVAILABLE := 1
  const SDEV_ST_USED := 2
  const SDEV_ST_ERROR := 3

  type Status = n: nat | SDEV_ST_AVAILABLE <= n <= SDEV_ST_ERROR witness SDEV_ST_AVAILABLE

  // status and sock belong to usbip-host and mean something only while the device is bound to it
  datatype Device = Device(driver: Driver, matched: bool, status: Status, sock: int)

  type Devices = map<BusId, Device>

  datatype Errno = ENODEV | EINVAL | EOTHER | NOTHING_BOUND | IS_HUB

  datatype Outcome = Ok | Fail(errno: Errno)

  predicate IsExported(devs: Devices, b: BusId) {
    b in devs && devs[b].driver == UsbipHost
  }

  /** The number in usbip-host/b/usbip_status, a missing file reading as 0. */
  function UsbipStatus(devs: Devices, b: BusId): nat {
    if IsExported(devs, b) then devs[b].status else 0
  }

  predicate HasDriver(devs: Devices, b: BusId) {
    b in devs && devs[b].driver != NoDriver
  }

  /** What usbip-host makes of a device that it is bound to. */
  function Bound(d: Device): Device {
    d.(driver := UsbipHost, status := SDEV_ST_AVAILABLE, sock := -1)
  }

  /** All devices but b are as before, and b has not appeared or gone. */
  ghost predicate OnlyChanges(before: Devices, after: Devices, b: BusId) {
    && after.Keys == before.Keys
    && forall c :: c in before && c != b ==> after[c] == before[c]
  }

  /** Writing b to usbip-host/unbind. */
  ghost predicate Unbind(before: Devices, after: Devices, b: BusId, r: Outcome) {
    if IsExported(before, b) then
      && r == Ok && OnlyChanges(before, after, b)
      && after[b].driver != UsbipHost && after[b].matched == before[b].matched
    else
      r == Fail(ENODEV) && after == before
  }

  /** Writing "del b" to usbip-host/match_busid, which may fail. */
  ghost predicate MatchDel(before: Devices, after: Devices, b: BusId) {
    after == before || (b in before && after == before[b := before[b].(matched := false)])
  }

  /** Writing b to usbip-host/rebind, which may fail, and otherwise asks the driver core to probe. */
  ghost predicate Rebind(before: Devices, after: Devices, b: BusId) {
    after == before || Reprobed(before, after, b)
  }

  /** A driverless b has got a driver; usbip-host's, where nobody uses it yet, only if it is still on its
  list. */
  ghost predicate Reprobed(before: Devices, after: Devices, b: BusId) {
    && OnlyChanges(before, after, b)
    && b in before && before[b].driver == NoDriver && after[b].matched == before[b].matched
    && (after[b].driver.Normal? || (after[b] == Bound(before[b]) && before[b].matched))
  }

  /** Writing b to drivers_probe.  On a device with a driver it changes nothing, whatever it says. */
  ghost predicate DriversProbe(before: Devices, after: Devices, b: BusId, r: Outcome) {
    if b !in before then r == Fail(ENODEV) && after == before
    else if before[b].driver == NoDriver then r == Ok && Reprobed(before, after, b)
    else (r == Ok || r == Fail(EOTHER)) && after == before
  }

  // ----- the writes of an attach

  /** Writing b to its driver's unbind. */
  ghost predicate DriverUnbind(before: Devices, after: Devices, b: BusId, r: Outcome) {
    if HasDriver(before, b) then r == Ok && after == before[b := before[b].(driver := NoDriver)]
    else r == Fail(ENODEV) && after == before
  }

  /** Writing "add b" to usbip-host/match_busid. */
  ghost predicate MatchAdd(before: Devices, after: Devices, b: BusId, r: Outcome) {
    r == Ok && after == if b in before then before[b := before[b].(matched := true)] else before
  }

  /** Writing b to usbip-host/bind: for a device that has no driver and is to be matched. */
  ghost predicate Bind(before: Devices, after: Devices, b: BusId, r: Outcome) {
    if b in before && before[b].driver == NoDriver && before[b].matched then
      r == Ok && after == before[b := Bound(before[b])]
    else r == Fail(ENODEV) && after == before
  }

  /** Writing a socket, or -1, to b's usbip_sockfd: the one for a device that is available, the other for
  one in use. */
  ghost predicate SetSock(before: Devices, after: Devices, b: BusId, sock: int, r: Outcome) {
    if IsExported(before, b) && before[b].status == (if sock == -1 then SDEV_ST_USED else SDEV_ST_AVAILABLE) then
      && r == Ok
      && after == before[b := before[b].(status := if sock == -1 then SDEV_ST_AVAILABLE else SDEV_ST_USED,
                                         sock := sock)]
    else r == Fail(EINVAL) && after == before
  }

  /** What the kernel does by itself: nothing, probe a driverless device, or lose an unplugged one. */
  ghost predicate OnItsOwn(before: Devices, after: Devices) {
    || after == before
    || (exists b :: Reprobed(before, after, b))
    || (exists b :: after == before - {b})
  }

  /** The devices that a step has given back to usbip-host. */
  function Back(before: Devices, after: Devices): set<BusId> {
    set b | b in after && !IsExported(before, b) && IsExported(after, b)
  }

  /** What any number of steps of the kernel and of concurrent exporterDetach calls can do, those
  included that gave the devices in back to usbip-host again: none appears, a normal driver stays, the
  match list only shrinks, and only what was on it can come back. */
  ghost predicate Rely(before: Devices, after: Devices, back: set<BusId>) {
    && after.Keys <= before.Keys
    && (forall b :: b in after ==>
          && (before[b].driver.Normal? ==> after[b].driver.Normal?)
          && (after[b].matched ==> before[b].matched)
          && (before[b].driver != UsbipHost && b !in back ==> after[b].driver != UsbipHost))
    && forall b :: b in back ==> b in before && before[b].matched
  }

  lemma RelyIsTransitive(d: Devices, e: Devices, f: Devices, back: set<BusId>, more: set<BusId>)
    requires Rely(d, e, back) && Rely(e, f, more)
    ensures Rely(d, f, back + more)
  {
  }

  /** A write of a release, or what the kernel does by itself. */
  ghost predicate IsStep(before: Devices, after: Devices, b: BusId, r: Outcome) {
    || Unbind(before, after, b, r) || MatchDel(before, after, b) || Rebind(before, after, b)
    || DriversProbe(before, after, b, r) || OnItsOwn(before, after)
  }

  lemma WritesObeyRely(before: Devices, after: Devices, b: BusId, r: Outcome)
    requires IsStep(before, after, b, r)
    ensures Rely(before, after, Back(before, after))
  {
  }
}
