/** The results of a BLE scan with legacy advertising: which devices are stored, what payload they hold, and
    when the application is told about them. */
module ScanResults {
  import opened AdvertisedDevice
  import opened Bytes

  const ADV_IND: byte := 0
  const ADV_SCAN_IND: byte := 2
  const SCAN_RSP: byte := 4
  const UNLIMITED: byte := 0xff

  /** One advertising report. */
  datatype Report = Report(address: Address, eventType: byte, data: seq<byte>)

  datatype Settings = Settings(passive: bool, filterDuplicates: bool, maxResults: byte, hasCallbacks: bool)

  /** The stored devices and the addresses the callback was given. */
  datatype Scan = Scan(devices: seq<Device>, told: seq<Address>)

  const EMPTY := Scan([], [])

  // ----- the event handler -----

  /** The position of the first device with this address, or the number of devices. */
  function Find(devices: seq<Device>, a: Address): (i: nat)
    ensures i <= |devices|
    ensures i < |devices| ==> devices[i].address == a
    ensures forall k | 0 <= k < i :: devices[k].address != a
  {
    if devices == [] || devices[0].address == a then 0 else 1 + Find(devices[1..], a)
  }

  /** A new device is not stored: a scan response, or the limit is reached. */
  predicate Refused(c: Settings, devices: seq<Device>, r: Report) {
    r.eventType == SCAN_RSP || (0 < c.maxResults < UNLIMITED && |devices| >= c.maxResults)
  }

  function SetPayload(d: Device, r: Report): Device {
    d.(payload := if r.eventType == SCAN_RSP then d.payload + r.data else r.data)
  }

  /** The callback is due now, not after a scan response. */
  predicate TellsNow(c: Settings, d: Device, eventType: byte) {
    c.passive || d.advType !in {ADV_IND, ADV_SCAN_IND} || eventType == SCAN_RSP
  }

  /** The device at `i` has been updated: tell the application, unless it is a duplicate. */
  function Tell(c: Settings, s: Scan, i: nat, eventType: byte): Scan
    requires i < |s.devices|
  {
    var d := s.devices[i];
    if !c.hasCallbacks || (c.filterDuplicates && d.callbackSent) then s
    else
      var now := TellsNow(c, d, eventType);
      var told := if now then s.told + [d.address] else s.told;
      var devices := if now then s.devices[i := d.(callbackSent := true)] else s.devices;
      if c.maxResults == 0 && devices[i].callbackSent then
        Scan(devices[..i] + devices[i + 1..], told)
      else
        Scan(devices, told)
  }

  function Discover(c: Settings, s: Scan, r: Report): Scan {
    var i := Find(s.devices, r.address);
    if i < |s.devices| then
      Tell(c, s.(devices := s.devices[i := SetPayload(s.devices[i], r)]), i, r.eventType)
    else if Refused(c, s.devices, r) then s
    else Tell(c, s.(devices := s.devices + [SetPayload(Device(r.address, r.eventType, [], false), r)]), i, r.eventType)
  }

  /** Devices that no callback was made for, in order. */
  function Unreported(devices: seq<Device>): seq<Address> {
    if devices == [] then []
    else Unreported(devices[..|devices| - 1])
         + if devices[|devices| - 1].callbackSent then [] else [devices[|devices| - 1].address]
  }

  function Complete(c: Settings, s: Scan): Scan {
    Scan(if c.maxResults == 0 then [] else s.devices,
         s.told + if c.hasCallbacks then Unreported(s.devices) else [])
  }

  /** The reports of one scan that starts from nothing. */
  function Run(c: Settings, reports: seq<Report>): Scan {
    if reports == [] then EMPTY
    else Discover(c, Run(c, reports[..|reports| - 1]), reports[|reports| - 1])
  }

  // ----- what is stored -----

  ghost predicate Distinct(devices: seq<Device>) {
    forall i, j | 0 <= i < j < |devices| :: devices[i].address != devices[j].address
  }

  /** The data of the last advertisement from `a` and of all scan responses from it since. */
  function Heard(reports: seq<Report>, a: Address): seq<byte> {
    if reports == [] then []
    else
      var before, last := Heard(reports[..|reports| - 1], a), reports[|reports| - 1];
      if last.address != a then before
      else if last.eventType == SCAN_RSP then before + last.data
      else last.data
  }

  ghost predicate Stored(c: Settings, s: Scan, reports: seq<Report>) {
    && Distinct(s.devices)
    && (0 < c.maxResults < UNLIMITED ==> |s.devices| <= c.maxResults)
    && forall i | 0 <= i < |s.devices| :: s.devices[i].payload == Heard(reports, s.devices[i].address)
  }

  lemma TellKeeps(c: Settings, s: Scan, i: nat, eventType: byte, reports: seq<Report>)
    requires Stored(c, s, reports) && i < |s.devices|
    ensures Stored(c, Tell(c, s, i, eventType), reports)
  {
  }

  lemma DiscoverKeeps(c: Settings, s: Scan, r: Report, reports: seq<Report>)
    requires Stored(c, s, reports)
    ensures Stored(c, Discover(c, s, r), reports + [r])
  {
    assert (reports + [r])[..|reports|] == reports;
    var i := Find(s.devices, r.address);
    var later := reports + [r];
    assert forall a :: Heard(later, a) == if r.address != a then Heard(reports, a)
      else if r.eventType == SCAN_RSP then Heard(reports, a) + r.data else r.data;
    if i < |s.devices| {
      TellKeeps(c, s.(devices := s.devices[i := SetPayload(s.devices[i], r)]), i, r.eventType, later);
    } else if !Refused(c, s.devices, r) {
      var d := SetPayload(Device(r.address, r.eventType, [], false), r);
      TellKeeps(c, s.(devices := s.devices + [d]), i, r.eventType, later);
    }
  }

  lemma {:induction false} ReportsStored(c: Settings, reports: seq<Report>)
    ensures Stored(c, Run(c, reports), reports)
  {
    if reports == [] {
    } else {
      var n := |reports| - 1;
      ReportsStored(c, reports[..n]);
      DiscoverKeeps(c, Run(c, reports[..n]), reports[n], reports[..n]);
      assert reports[..n] + [reports[n]] == reports;
    }
  }

  // ----- runs of everything that touches the results -----

  datatype Event =
    | Disc(report: Report, ignored: bool)     // a report; its address may be on the list of ignored ones
    | DiscComplete
    | StartBegin(isContinue: bool)            // start() up to the request
    | StartEnd(rc: int, isContinue: bool)     // the rest of start(), with the answer of the controller
    | EraseDevice(address: Address)
    | Clear
    | HostReset
    | HostSync

  datatype State = State(scan: Scan, ignoring: bool)

  const START := State(EMPTY, false)

  function Without(devices: seq<Device>, a: Address): seq<Device> {
    var i := Find(devices, a);
    if i < |devices| then devices[..i] + devices[i + 1..] else devices
  }

  function Step(c: Settings, s: State, e: Event): State {
    match e
    case Disc(r, ignored) => if ignored || s.ignoring then s else s.(scan := Discover(c, s.scan, r))
    case DiscComplete => s.(scan := Complete(c, s.scan))
    case StartBegin(isContinue) => s.(ignoring := s.ignoring || !isContinue)
    case StartEnd(rc, isContinue) =>
      State(if rc == 0 && !isContinue then s.scan.(devices := []) else s.scan, false)
    case EraseDevice(a) => s.(scan := s.scan.(devices := Without(s.scan.devices, a)))
    case Clear => s.(scan := s.scan.(devices := []))
    case HostReset => s.(ignoring := true)
    case HostSync => s.(ignoring := false)
  }

  function RunFrom(c: Settings, s: State, events: seq<Event>): State {
    if events == [] then s else Step(c, RunFrom(c, s, events[..|events| - 1]), events[|events| - 1])
  }

  /** The reports of a run that were not ignored. */
  function Heeded(c: Settings, s: State, events: seq<Event>): seq<Report> {
    if events == [] then []
    else
      var before, e := events[..|events| - 1], events[|events| - 1];
      Heeded(c, s, before)
      + if e.Disc? && !e.ignored && !RunFrom(c, s, before).ignoring then [e.report] else []
  }

  lemma WithoutKeeps(c: Settings, s: Scan, a: Address, reports: seq<Report>)
    requires Stored(c, s, reports)
    ensures Stored(c, s.(devices := Without(s.devices, a)), reports)
  {
  }

  lemma StepKeeps(c: Settings, s: State, e: Event, reports: seq<Report>)
    requires Stored(c, s.scan, reports)
    ensures var heeded := if e.Disc? && !e.ignored && !s.ignoring then [e.report] else [];
      Stored(c, Step(c, s, e).scan, reports + heeded)
  {
    assert reports + [] == reports;
    if e.EraseDevice? {
      WithoutKeeps(c, s.scan, e.address, reports);
    } else if e.Disc? && !e.ignored && !s.ignoring {
      hide Stored, Discover;
      DiscoverKeeps(c, s.scan, e.report, reports);
    } else {
      hide Discover, Without;
    }
  }

  /** Over every run of reports, completions, starts, erasures, clearings and host resets, in any order: the stored
      devices have different addresses, respect the limit, and each holds its last advertisement followed by the scan
      responses since, of those that were not ignored. */
  lemma {:induction false} EveryScanStores(c: Settings, events: seq<Event>)
    ensures Stored(c, RunFrom(c, START, events).scan, Heeded(c, START, events))
  {
    if events == [] {
    } else {
      hide Stored, Step;
      var n := |events| - 1;
      EveryScanStores(c, events[..n]);
      StepKeeps(c, RunFrom(c, START, events[..n]), events[n], Heeded(c, START, events[..n]));
    }
  }

  // ----- what is reported -----

  function Count(told: seq<Address>, a: Address): nat {
    multiset(told)[a]
  }

  ghost predicate IsStored(devices: seq<Device>, a: Address) {
    exists i | 0 <= i < |devices| :: devices[i].address == a
  }

  ghost predicate IsReported(devices: seq<Device>, a: Address) {
    exists i | 0 <= i < |devices| :: devices[i].address == a && devices[i].callbackSent
  }

  /** Every address was reported once if its stored device is marked so, and otherwise not at all. */
  ghost predicate Counted(s: Scan) {
    forall a :: Count(s.told, a) == if IsReported(s.devices, a) then 1 else 0
  }

  lemma CountAppend(told: seq<Address>, extra: seq<Address>, a: Address)
    ensures Count(told + extra, a) == Count(told, a) + Count(extra, a)
  {
  }

  lemma TellCounts(c: Settings, s: Scan, i: nat, eventType: byte)
    requires c.filterDuplicates && c.maxResults != 0
    requires Distinct(s.devices) && Counted(s) && i < |s.devices|
    ensures Counted(Tell(c, s, i, eventType))
  {
    var t, d := Tell(c, s, i, eventType), s.devices[i];
    if t != s {
      forall a
        ensures Count(t.told, a) == if IsReported(t.devices, a) then 1 else 0
      {
        CountAppend(s.told, [d.address], a);
        assert t.devices[i].callbackSent && t.devices[i].address == d.address;
        assert forall k | 0 <= k < |s.devices| && k != i :: t.devices[k] == s.devices[k];
        assert !IsReported(s.devices, d.address);
        assert IsReported(t.devices, a) <==> a == d.address || IsReported(s.devices, a);
      }
    }
  }

  lemma DiscoverCounts(c: Settings, s: Scan, r: Report)
    requires c.filterDuplicates && c.maxResults != 0
    requires Distinct(s.devices) && Counted(s)
    ensures Counted(Discover(c, s, r))
  {
    hide Tell;
    var i := Find(s.devices, r.address);
    if i < |s.devices| {
      var updated := s.devices[i := SetPayload(s.devices[i], r)];
      SameReported(s.devices, updated);
      TellCounts(c, s.(devices := updated), i, r.eventType);
    } else if !Refused(c, s.devices, r) {
      var d := SetPayload(Device(r.address, r.eventType, [], false), r);
      NotReported(s.devices, d);
      TellCounts(c, s.(devices := s.devices + [d]), i, r.eventType);
    }
  }

  lemma SameReported(d: seq<Device>, e: seq<Device>)
    requires |d| == |e|
    requires forall i | 0 <= i < |d| :: d[i].address == e[i].address && d[i].callbackSent == e[i].callbackSent
    ensures forall a :: IsReported(d, a) == IsReported(e, a)
  {
    forall a
      ensures IsReported(d, a) == IsReported(e, a)
    {
    }
  }

  lemma NotReported(devices: seq<Device>, d: Device)
    requires !d.callbackSent
    ensures forall a :: IsReported(devices + [d], a) == IsReported(devices, a)
  {
    var grown := devices + [d];
    assert forall k | 0 <= k < |devices| :: grown[k] == devices[k];
  }

  lemma {:induction false} EveryScanCounts(c: Settings, reports: seq<Report>)
    requires c.filterDuplicates && c.maxResults != 0
    ensures Counted(Run(c, reports))
  {
    if reports == [] {
    } else {
      var n := |reports| - 1;
      EveryScanCounts(c, reports[..n]);
      ReportsStored(c, reports[..n]);
      DiscoverCounts(c, Run(c, reports[..n]), reports[n]);
    }
  }

  lemma StoredExtends(before: seq<Device>, last: Device, a: Address)
    ensures IsStored(before + [last], a) <==> last.address == a || IsStored(before, a)
    ensures IsReported(before + [last], a) <==> (last.address == a && last.callbackSent) || IsReported(before, a)
  {
    var all := before + [last];
    assert all[|before|] == last && forall k | 0 <= k < |before| :: all[k] == before[k];
  }

  lemma {:induction false} UnreportedCounts(devices: seq<Device>, a: Address)
    requires Distinct(devices)
    ensures Count(Unreported(devices), a) == if IsStored(devices, a) && !IsReported(devices, a) then 1 else 0
  {
    if devices == [] {
    } else {
      var n := |devices| - 1;
      var before, last := devices[..n], devices[n];
      assert last.address == a ==> !IsStored(before, a) && !IsReported(before, a);
      UnreportedCounts(before, a);
      assert devices == before + [last];
      StoredExtends(before, last, a);
      hide IsStored, IsReported, Distinct;
      CountAppend(Unreported(before), if last.callbackSent then [] else [last.address], a);
    }
  }

  lemma OneScanReports(c: Settings, reports: seq<Report>, a: Address)
    requires c.filterDuplicates && c.maxResults != 0
    ensures Count(Run(c, reports).told, a) <= 1
    ensures c.hasCallbacks ==>
      var done := Complete(c, Run(c, reports));
      Count(done.told, a) == if IsStored(done.devices, a) then 1 else 0
  {
    var s := Run(c, reports);
    EveryScanCounts(c, reports);
    ReportsStored(c, reports);
    assert Count(s.told, a) == if IsReported(s.devices, a) then 1 else 0;
    UnreportedCounts(s.devices, a);
    CountAppend(s.told, Unreported(s.devices), a);
  }

  /** What can happen during one scan without an end to it: anything but a completion, a fresh start that succeeds,
      and the application removing results. */
  predicate DuringScan(e: Event) {
    match e
    case DiscComplete => false
    case StartEnd(rc, isContinue) => rc != 0 || isContinue
    case EraseDevice(_) => false
    case Clear => false
    case _ => true
  }

  /** What was reported before does not matter. */
  lemma DiscoverShift(c: Settings, base: seq<Address>, s: Scan, r: Report)
    ensures var t := Discover(c, s, r);
      Discover(c, s.(told := base + s.told), r) == t.(told := base + t.told)
  {
    hide Refused, TellsNow, SetPayload;
    var a: seq<Address> := [r.address];
    assert base + (s.told + a) == (base + s.told) + a;
  }

  lemma {:induction false} ScanIsRun(c: Settings, s0: State, during: seq<Event>)
    requires s0.scan.devices == [] && forall e | e in during :: DuringScan(e)
    ensures var t := Run(c, Heeded(c, s0, during));
      RunFrom(c, s0, during).scan == t.(told := s0.scan.told + t.told)
  {
    if during == [] {
      assert s0.scan.told + [] == s0.scan.told;
    } else {
      var n := |during| - 1;
      var before, e := during[..n], during[n];
      var s, reports := RunFrom(c, s0, before), Heeded(c, s0, before);
      assert e in during && forall d | d in before :: d in during;
      hide Discover;
      ScanIsRun(c, s0, before);
      assert reports + [] == reports;
      if e.Disc? && !e.ignored && !s.ignoring {
        assert (reports + [e.report])[..|reports|] == reports;
        DiscoverShift(c, s0.scan.told, Run(c, reports), e.report);
      }
    }
  }

  /** One scan inside any run, with duplicates filtered and results stored: from a fresh start on, every device is
      reported at most once, and once the scan is completed, every stored device exactly once and nothing else. */
  lemma ReportedOnce(c: Settings, before: seq<Event>, during: seq<Event>, a: Address)
    requires c.filterDuplicates && c.maxResults != 0
    requires forall e | e in during :: DuringScan(e)
    ensures var s0 := Step(c, RunFrom(c, START, before), StartEnd(0, false));
      var s1, first := RunFrom(c, s0, during), |s0.scan.told|;
      && s0.scan.told <= s1.scan.told
      && Count(s1.scan.told[first..], a) <= 1
      && (c.hasCallbacks ==>
           var s2 := Step(c, s1, DiscComplete);
           && s0.scan.told <= s2.scan.told
           && Count(s2.scan.told[first..], a) == if IsStored(s2.scan.devices, a) then 1 else 0)
  {
    hide Run, RunFrom, Heeded, IsStored, Unreported, Count, Discover, Without;
    var s0 := Step(c, RunFrom(c, START, before), StartEnd(0, false));
    var s1, t := RunFrom(c, s0, during), Run(c, Heeded(c, s0, during));
    ScanIsRun(c, s0, during);
    OneScanReports(c, Heeded(c, s0, during), a);
    Later(s0.scan.told, t.told);
    if c.hasCallbacks {
      var more := Unreported(t.devices);
      Associative(s0.scan.told, t.told, more);
      Later(s0.scan.told, t.told + more);
      assert Step(c, s1, DiscComplete).scan.told == s0.scan.told + (t.told + more);
      assert Step(c, s1, DiscComplete).scan.devices == t.devices;
    }
  }

  lemma Later(base: seq<Address>, more: seq<Address>)
    ensures base <= base + more && (base + more)[|base|..] == more
  {
  }

  // ----- the classes -----

  ghost function Contents(devices: seq<NimBLEAdvertisedDevice>): (values: seq<Device>)
    reads devices
    ensures |values| == |devices|
    ensures forall i | 0 <= i < |devices| :: values[i] == devices[i].AsDevice()
  {
    seq(|devices|, i requires 0 <= i < |devices| reads devices => devices[i].AsDevice())
  }

  ghost predicate Injective(devices: seq<NimBLEAdvertisedDevice>) {
    forall i, j | 0 <= i < j < |devices| :: devices[i] != devices[j]
  }

  lemma FindIs(devices: seq<Device>, a: Address, i: nat)
    requires i <= |devices| && (i < |devices| ==> devices[i].address == a)
    requires forall k | 0 <= k < i :: devices[k].address != a
    ensures Find(devices, a) == i
  {
  }

  lemma FindStill(before: seq<Device>, after: seq<Device>, i: nat)
    requires |before| == |after| && i < |before| && Find(before, before[i].address) == i
    requires forall k | 0 <= k < |before| :: before[k].address == after[k].address
    ensures Find(after, after[i].address) == i
  {
    FindIs(after, after[i].address, i);
  }

  class NimBLEScan {
    const settings: Settings
    var ignoreResults: bool
    var devicesVector: seq<NimBLEAdvertisedDevice>
    ghost var told: seq<Address>

    constructor (settings: Settings)
      ensures Valid() && AsState() == START && this.settings == settings
    {
      this.settings := settings;
      ignoreResults, devicesVector, told := false, [], [];
    }

    ghost predicate Valid()
      reads this
    {
      Injective(devicesVector)
    }

    ghost function AsScan(): Scan
      reads this, devicesVector
    {
      Scan(Contents(devicesVector), told)
    }

    ghost function AsState(): State
      reads this, devicesVector
    {
      State(AsScan(), ignoreResults)
    }

    /** The position of the device with this address, or the size of the vector. */
    method Lookup(address: Address) returns (i: nat)
      ensures i == Find(Contents(devicesVector), address)
    {
      i := 0;
      while i < |devicesVector| && devicesVector[i].address != address
        invariant i <= |devicesVector|
        invariant forall k | 0 <= k < i :: Contents(devicesVector)[k].address != address
      {
        i := i + 1;
      }
      FindIs(Contents(devicesVector), address, i);
    }

    /** The callback. */
    method OnResult(d: NimBLEAdvertisedDevice)
      modifies `told
      ensures told == old(told) + [d.address]
    {
      told := told + [d.address];
    }

    method Erase(address: Address)
      requires Valid()
      modifies `devicesVector
      ensures Valid() && forall d | d in devicesVector :: d in old(devicesVector)
      ensures Contents(devicesVector) == Without(old(Contents(devicesVector)), address)
      ensures AsState() == Step(settings, old(AsState()), EraseDevice(address))
    {
      var i := Lookup(address);
      if i < |devicesVector| {
        devicesVector := devicesVector[..i] + devicesVector[i + 1..];
      }
    }

    method ClearResults()
      modifies `devicesVector
      ensures devicesVector == []
      ensures AsState() == Step(settings, old(AsState()), Clear)
    {
      devicesVector := [];
    }

    /** Marks the device at `i` as reported and calls back. */
    method CallBack(i: nat)
      requires Valid() && i < |devicesVector|
      modifies `told, devicesVector[i]
      ensures told == old(told) + [old(devicesVector[i].address)]
      ensures Contents(devicesVector)
           == old(Contents(devicesVector))[i := old(devicesVector[i].AsDevice()).(callbackSent := true)]
    {
      devicesVector[i].callbackSent := true;
      OnResult(devicesVector[i]);
    }

    /** Calls back for the device at `i` unless its scan response is still to come. */
    method CallBackIfDue(i: nat, eventType: byte)
      requires Valid() && i < |devicesVector|
      modifies `told, devicesVector[i]
      ensures var before, d := old(Contents(devicesVector)), old(devicesVector[i].AsDevice());
        if TellsNow(settings, d, eventType) then
          told == old(told) + [d.address] && Contents(devicesVector) == before[i := d.(callbackSent := true)]
        else
          told == old(told) && Contents(devicesVector) == before
    {
      var device := devicesVector[i];
      if settings.passive || (device.advType != ADV_IND && device.advType != ADV_SCAN_IND) {
        CallBack(i);
      } else if eventType == SCAN_RSP {
        CallBack(i);
      }
    }

    /** The device at `i` was updated: calls back, or not. */
    method ReportDevice(i: nat, eventType: byte)
      requires Valid() && i < |devicesVector|
      requires Find(Contents(devicesVector), devicesVector[i].address) == i
      modifies `devicesVector, `told, devicesVector
      ensures Valid() && forall d | d in devicesVector :: d in old(devicesVector)
      ensures AsScan() == Tell(settings, old(AsScan()), i, eventType)
    {
      hide TellsNow, Find;
      var device := devicesVector[i];
      if settings.hasCallbacks {
        if settings.filterDuplicates && device.callbackSent {
          return;
        }
        CallBackIfDue(i, eventType);
        if settings.maxResults == 0 && device.callbackSent {
          FindStill(old(Contents(devicesVector)), Contents(devicesVector), i);
          Erase(device.address);
        }
      }
    }

    method UpdatePayload(i: nat, data: seq<byte>, append: bool)
      requires Valid() && i < |devicesVector|
      modifies devicesVector[i]
      ensures var d := old(devicesVector[i].AsDevice());
        Contents(devicesVector)
        == old(Contents(devicesVector))[i := d.(payload := if append then d.payload + data else data)]
    {
      devicesVector[i].SetPayload(data, append);
    }

    /** Finds or stores the device that `r` comes from, and updates its payload. */
    method Receive(r: Report) returns (stored: bool, i: nat)
      requires Valid()
      modifies `devicesVector, devicesVector
      ensures Valid()
      ensures forall k | 0 <= k < |devicesVector| :: devicesVector[k] in old(devicesVector) || fresh(devicesVector[k])
      ensures i == Find(old(Contents(devicesVector)), r.address)
      ensures stored == (i < |old(devicesVector)| || !Refused(settings, old(Contents(devicesVector)), r))
      ensures var before := old(Contents(devicesVector));
        Contents(devicesVector) ==
          if !stored then before
          else if i < |before| then before[i := SetPayload(before[i], r)]
          else before + [SetPayload(Device(r.address, r.eventType, [], false), r)]
    {
      i := Lookup(r.address);
      ghost var before := Contents(devicesVector);
      if i == |devicesVector| {
        if r.eventType == SCAN_RSP {
          return false, i;
        }
        if 0 < settings.maxResults < UNLIMITED && |devicesVector| >= settings.maxResults {
          return false, i;
        }
        AddDevice(r);
      }
      ghost var added := Contents(devicesVector);
      assert i < |before| ==> added == before;
      UpdatePayload(i, r.data, r.eventType == SCAN_RSP);
      if i == |before| {
        assert Contents(devicesVector)[i] == SetPayload(Device(r.address, r.eventType, [], false), r);
        assert Contents(devicesVector) == before + [SetPayload(Device(r.address, r.eventType, [], false), r)];
      }
      stored := true;
    }

    /** A report from the controller; `ignored` says whether its address is on the list of ignored ones. */
    method HandleDisc(r: Report, ignored: bool)
      requires Valid()
      modifies this, devicesVector
      ensures Valid() && forall d | d in devicesVector :: d in old(devicesVector) || fresh(d)
      ensures AsState() == Step(settings, old(AsState()), Disc(r, ignored))
    {
      hide Tell, Find;
      if ignoreResults || ignored {
        return;
      }
      ghost var before := AsScan();
      var stored, i := Receive(r);
      if stored {
        FindIs(Contents(devicesVector), r.address, i);
        ReportDevice(i, r.eventType);
      }
    }

    /** Stores a new device with no payload of its own yet. */
    method AddDevice(r: Report)
      requires Valid()
      modifies `devicesVector
      ensures Valid() && |devicesVector| == |old(devicesVector)| + 1
      ensures devicesVector[..|old(devicesVector)|] == old(devicesVector) && fresh(devicesVector[|old(devicesVector)|])
      ensures Contents(devicesVector)[..|old(devicesVector)|] == old(Contents(devicesVector))
      ensures var d := devicesVector[|old(devicesVector)|];
        d.address == r.address && d.advType == r.eventType && !d.callbackSent
    {
      var device := new NimBLEAdvertisedDevice();
      device.SetAddress(r.address);
      device.SetAdvType(r.eventType);
      devicesVector := devicesVector + [device];
    }

    /** The end of a scan: reports the devices whose scan response never came. */
    method HandleDiscComplete()
      requires Valid()
      modifies `told, `devicesVector
      ensures Valid() && AsState() == Step(settings, old(AsState()), DiscComplete)
    {
      if settings.hasCallbacks {
        ghost var values, start := Contents(devicesVector), told;
        var k := 0;
        while k < |devicesVector|
          invariant 0 <= k <= |devicesVector| && devicesVector == old(devicesVector)
          invariant told == start + Unreported(values[..k])
        {
          assert values[..k + 1][..k] == values[..k];
          if !devicesVector[k].callbackSent {
            OnResult(devicesVector[k]);
          }
          k := k + 1;
        }
        assert values[..k] == values;
      }
      if settings.maxResults == 0 {
        ClearResults();
      }
    }

    /** `start()` up to the request: results are ignored while the old ones are deleted. */
    method StartBegin(isContinue: bool)
      modifies `ignoreResults
      ensures AsState() == Step(settings, old(AsState()), Event.StartBegin(isContinue))
    {
      if !isContinue {
        ignoreResults := true;
      }
    }

    /** The rest of `start()`, with the answer of the controller. */
    method StartEnd(rc: int, isContinue: bool)
      requires Valid()
      modifies `ignoreResults, `devicesVector
      ensures Valid() && AsState() == Step(settings, old(AsState()), Event.StartEnd(rc, isContinue))
    {
      if rc == 0 && !isContinue {
        ClearResults();
      }
      ignoreResults := false;
    }

    method OnHostReset()
      modifies `ignoreResults
      ensures AsState() == Step(settings, old(AsState()), HostReset)
    {
      ignoreResults := true;
    }

    /** `onHostSync()` before it may call `start()`. */
    method OnHostSync()
      modifies `ignoreResults
      ensures AsState() == Step(settings, old(AsState()), HostSync)
    {
      ignoreResults := false;
    }
  }
}
