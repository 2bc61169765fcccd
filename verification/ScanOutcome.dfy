/** What a scan amounts to, read off its reports alone: which devices are stored, and which the application is told
    about and when. The event types are those of the reports: 0 and 2 are advertisements that a scan response can
    follow, 4 is a scan response. */
module ScanOutcome {
  import opened AdvertisedDevice
  import opened Bytes
  import opened ScanResults

  ghost predicate IsAdvertisement(r: Report, a: Address) {
    r.address == a && r.eventType != 4
  }

  ghost predicate IsResponse(r: Report, a: Address) {
    r.address == a && r.eventType == 4
  }

  ghost predicate Advertised(reports: seq<Report>, a: Address) {
    exists k | 0 <= k < |reports| :: IsAdvertisement(reports[k], a)
  }

  function Addresses(devices: seq<Device>): (a: seq<Address>)
    ensures |a| == |devices|
    ensures forall i | 0 <= i < |devices| :: a[i] == devices[i].address
  {
    seq(|devices|, i requires 0 <= i < |devices| => devices[i].address)
  }

  // ----- who is stored -----

  /** Who advertised, in the order of the first advertisements. */
  ghost function Advertisers(reports: seq<Report>): (a: seq<Address>) {
    if reports == [] then []
    else
      var before, last := Advertisers(reports[..|reports| - 1]), reports[|reports| - 1];
      if last.eventType != 4 && last.address !in before then before + [last.address] else before
  }

  lemma AdvertisedExtends(reports: seq<Report>, r: Report, a: Address)
    ensures Advertised(reports + [r], a) <==> Advertised(reports, a) || IsAdvertisement(r, a)
  {
    var later := reports + [r];
    assert later[|reports|] == r && forall k | 0 <= k < |reports| :: later[k] == reports[k];
  }

  ghost predicate NoRepeats(all: seq<Address>) {
    forall i, j | 0 <= i < j < |all| :: all[i] != all[j]
  }

  lemma NoRepeatsExtends(all: seq<Address>, a: Address)
    requires NoRepeats(all)
    ensures a !in all ==> NoRepeats(all + [a])
  {
    var more := all + [a];
    assert forall i | 0 <= i < |all| :: more[i] == all[i] && all[i] in all;
  }

  lemma {:induction false} AdvertisersAre(reports: seq<Report>)
    ensures forall a :: a in Advertisers(reports) <==> Advertised(reports, a)
    ensures NoRepeats(Advertisers(reports))
  {
    if reports == [] {
    } else {
      var n := |reports| - 1;
      var before, last := reports[..n], reports[n];
      AdvertisersAre(before);
      assert reports == before + [last];
      forall a
        ensures a in Advertisers(reports) <==> Advertised(reports, a)
      {
        AdvertisedExtends(before, last, a);
      }
      NoRepeatsExtends(Advertisers(before), last.address);
    }
  }

  ghost function Sources(reports: seq<Report>): set<Address> {
    set r | r in reports && r.eventType != 4 :: r.address
  }

  lemma SourcesExtend(reports: seq<Report>, r: Report)
    ensures Sources(reports + [r]) == Sources(reports) + if r.eventType != 4 then {r.address} else {}
  {
  }

  lemma ElementsExtend(all: seq<Address>, a: Address)
    ensures (set b | b in all + [a]) == (set b | b in all) + {a}
  {
  }

  lemma {:induction false} AdvertisersCount(reports: seq<Report>)
    ensures (set a | a in Advertisers(reports)) == Sources(reports)
    ensures |Advertisers(reports)| == |Sources(reports)|
  {
    if reports == [] {
      assert Sources(reports) == {};
    } else {
      hide Sources;
      var n := |reports| - 1;
      var before, last := Advertisers(reports[..n]), reports[n];
      AdvertisersCount(reports[..n]);
      SourcesExtend(reports[..n], last);
      assert reports[..n] + [last] == reports;
      ElementsExtend(before, last.address);
      assert last.address in before <==> last.address in Sources(reports[..n]);
    }
  }

  /** The first ones, as many as are stored at most. */
  ghost function Kept(c: Settings, all: seq<Address>): seq<Address> {
    if 0 < c.maxResults < 255 && c.maxResults as int <= |all| then all[..c.maxResults] else all
  }

  lemma DiscoverAddresses(c: Settings, s: Scan, r: Report)
    requires c.maxResults != 0 || !c.hasCallbacks
    ensures var a := Addresses(s.devices);
      Addresses(Discover(c, s, r).devices)
      == if r.address in a || r.eventType == 4 || (0 < c.maxResults < 255 && |a| >= c.maxResults as int) then a
         else a + [r.address]
  {
    var i := Find(s.devices, r.address);
    assert i < |s.devices| ==> Addresses(s.devices)[i] == r.address;
  }

  /** Stored are the first that advertised, in that order: all of them if the limit is 255, and as many as the limit
      allows if it is from 1 to 254. */
  lemma {:induction false} StoresAdvertisers(c: Settings, reports: seq<Report>)
    requires c.maxResults != 0 || !c.hasCallbacks
    ensures Addresses(Run(c, reports).devices) == Kept(c, Advertisers(reports))
  {
    if reports == [] {
    } else {
      var n := |reports| - 1;
      hide Discover;
      StoresAdvertisers(c, reports[..n]);
      DiscoverAddresses(c, Run(c, reports[..n]), reports[n]);
    }
  }

  // ----- what each stored device remembers -----

  /** The position of the first advertisement from `a`, or the number of reports. */
  ghost function First(reports: seq<Report>, a: Address): (k: nat)
    ensures k <= |reports|
    ensures k < |reports| ==> IsAdvertisement(reports[k], a)
    ensures forall j | 0 <= j < k :: !IsAdvertisement(reports[j], a)
  {
    if reports == [] then 0
    else
      var n := |reports| - 1;
      var k := First(reports[..n], a);
      if k < n || IsAdvertisement(reports[n], a) then k else n + 1
  }

  lemma FirstIs(reports: seq<Report>, a: Address, k: nat)
    requires k <= |reports| && (k < |reports| ==> IsAdvertisement(reports[k], a))
    requires forall j | 0 <= j < k :: !IsAdvertisement(reports[j], a)
    ensures First(reports, a) == k
  {
  }

  /** The application may be told about `a`: no scan response can come or is asked for, or it has come. */
  ghost predicate Due(c: Settings, reports: seq<Report>, a: Address) {
    var k := First(reports, a);
    && k < |reports|
    && (c.passive || reports[k].eventType !in {0, 2}
        || exists j | k < j < |reports| :: IsResponse(reports[j], a))
  }

  ghost predicate Remembers(c: Settings, reports: seq<Report>, d: Device) {
    var k := First(reports, d.address);
    && k < |reports|
    && d.advType == reports[k].eventType
    && (d.callbackSent <==> c.hasCallbacks && Due(c, reports, d.address))
  }

  lemma DueExtends(c: Settings, reports: seq<Report>, r: Report, a: Address)
    ensures var k, later := First(reports, a), reports + [r];
      && First(later, a) == (if k < |reports| || IsAdvertisement(r, a) then k else |later|)
      && (k < |reports| ==> (Due(c, later, a) <==> Due(c, reports, a) || IsResponse(r, a)))
      && (k == |reports| && IsAdvertisement(r, a) ==>
           (Due(c, later, a) <==> c.passive || r.eventType !in {0, 2}))
  {
    var later := reports + [r];
    assert later[..|later| - 1] == reports && later[|reports|] == r;
    assert forall j | 0 <= j < |reports| :: later[j] == reports[j];
    var k := First(reports, a);
    if k < |reports| {
      assert (exists j | k < j < |later| :: IsResponse(later[j], a))
        <==> (exists j | k < j < |reports| :: IsResponse(reports[j], a)) || IsResponse(later[|reports|], a);
    }
  }

  /** What one report does to the marks, where results are stored. */
  lemma DiscoverMarks(c: Settings, s: Scan, r: Report)
    requires Distinct(s.devices) && c.maxResults != 0
    ensures var t := Discover(c, s, r);
      && |s.devices| <= |t.devices| <= |s.devices| + 1
      && (forall i | 0 <= i < |s.devices| ::
           var d, e := s.devices[i], t.devices[i];
           && e.address == d.address && e.advType == d.advType
           && (e.callbackSent <==>
                (d.callbackSent
                 || (c.hasCallbacks && d.address == r.address
                     && (c.passive || d.advType !in {0, 2} || r.eventType == 4)))))
      && (|s.devices| < |t.devices| ==>
           var e := t.devices[|s.devices|];
           && e.address == r.address && e.advType == r.eventType != 4
           && (e.callbackSent <==> c.hasCallbacks && (c.passive || r.eventType !in {0, 2})))
  {
    hide Without;
    var i := Find(s.devices, r.address);
  }

  lemma RemembersLater(c: Settings, reports: seq<Report>, r: Report, d: Device, e: Device)
    requires Remembers(c, reports, d) && e.address == d.address && e.advType == d.advType
    requires e.callbackSent <==>
      (d.callbackSent
       || (c.hasCallbacks && d.address == r.address && (c.passive || d.advType !in {0, 2} || r.eventType == 4)))
    ensures Remembers(c, reports + [r], e)
  {
    DueExtends(c, reports, r, d.address);
  }

  lemma RemembersNew(c: Settings, reports: seq<Report>, r: Report, e: Device)
    requires e.address == r.address && e.advType == r.eventType != 4 && First(reports, r.address) == |reports|
    requires e.callbackSent <==> c.hasCallbacks && (c.passive || r.eventType !in {0, 2})
    ensures Remembers(c, reports + [r], e)
  {
    DueExtends(c, reports, r, r.address);
  }

  ghost predicate AllRemember(c: Settings, reports: seq<Report>, devices: seq<Device>) {
    forall i | 0 <= i < |devices| :: Remembers(c, reports, devices[i])
  }

  lemma NewIsFirst(c: Settings, reports: seq<Report>, a: Address)
    requires c.maxResults != 0
    requires !(0 < c.maxResults < 255 && |Run(c, reports).devices| >= c.maxResults as int)
    requires a !in Addresses(Run(c, reports).devices)
    ensures First(reports, a) == |reports|
  {
    hide Run, Advertisers, First;
    StoresAdvertisers(c, reports);
    AdvertisersAre(reports);
    var k := First(reports, a);
  }

  lemma DiscoverRemembers(c: Settings, reports: seq<Report>, r: Report)
    requires c.maxResults != 0
    requires AllRemember(c, reports, Run(c, reports).devices)
    ensures AllRemember(c, reports + [r], Discover(c, Run(c, reports), r).devices)
  {
    hide Discover, Run, Remembers, First, Advertisers;
    var s := Run(c, reports);
    var t := Discover(c, s, r);
    ReportsStored(c, reports);
    DiscoverMarks(c, s, r);
    DiscoverAddresses(c, s, r);
    forall i | 0 <= i < |t.devices|
      ensures Remembers(c, reports + [r], t.devices[i])
    {
      if i < |s.devices| {
        RemembersLater(c, reports, r, s.devices[i], t.devices[i]);
      } else {
        NewIsFirst(c, reports, r.address);
        RemembersNew(c, reports, r, t.devices[i]);
      }
    }
  }

  /** Every stored device has the type of its first advertisement, and is marked as reported exactly if it is due. */
  lemma {:induction false} EveryDeviceRemembers(c: Settings, reports: seq<Report>)
    requires c.maxResults != 0
    ensures AllRemember(c, reports, Run(c, reports).devices)
  {
    if reports == [] {
    } else {
      var n := |reports| - 1;
      hide Discover, Remembers;
      EveryDeviceRemembers(c, reports[..n]);
      DiscoverRemembers(c, reports[..n], reports[n]);
      assert reports[..n] + [reports[n]] == reports;
    }
  }

  // ----- who is told about -----

  lemma StoredIsKept(c: Settings, reports: seq<Report>, a: Address)
    requires c.maxResults != 0 || !c.hasCallbacks
    ensures IsStored(Run(c, reports).devices, a) <==> a in Kept(c, Advertisers(reports))
  {
    hide Run, Advertisers, Kept;
    var devices := Run(c, reports).devices;
    StoresAdvertisers(c, reports);
    assert forall i | 0 <= i < |devices| :: Addresses(devices)[i] == devices[i].address;
  }

  /** Duplicates filtered: while the scan goes on, exactly the stored devices that are due have been told, once. */
  lemma ToldWhenDue(c: Settings, reports: seq<Report>, a: Address)
    requires c.filterDuplicates && c.maxResults != 0
    ensures Count(Run(c, reports).told, a)
         == if c.hasCallbacks && a in Kept(c, Advertisers(reports)) && Due(c, reports, a) then 1 else 0
  {
    hide Run, Advertisers, Kept, Due, Count;
    var devices := Run(c, reports).devices;
    EveryScanCounts(c, reports);
    EveryDeviceRemembers(c, reports);
    StoredIsKept(c, reports, a);
    assert Count(Run(c, reports).told, a) == if IsReported(devices, a) then 1 else 0;
    assert forall i | 0 <= i < |devices| :: Remembers(c, reports, devices[i]);
  }

  lemma DiscoverTells(c: Settings, s: Scan, r: Report)
    requires Distinct(s.devices) && c.hasCallbacks && !c.filterDuplicates && c.maxResults != 0
    ensures var t := Discover(c, s, r);
      t.told == s.told
        + if (exists i | 0 <= i < |t.devices| ::
               t.devices[i].address == r.address
               && (c.passive || t.devices[i].advType !in {0, 2} || r.eventType == 4))
          then [r.address] else []
  {
    hide Without;
    var i := Find(s.devices, r.address);
    var t := Discover(c, s, r);
    assert s.told + [] == s.told;
    assert i < |t.devices| ==> t.devices[i].address == r.address;
  }

  /** Duplicates wanted: each report of a stored device is told, unless a scan response to its first advertisement can
      come and this report is not one. */
  lemma EachReportTold(c: Settings, reports: seq<Report>, r: Report)
    requires c.hasCallbacks && !c.filterDuplicates && c.maxResults != 0
    ensures var later := reports + [r];
      var k := First(later, r.address);
      Run(c, later).told == Run(c, reports).told
        + if r.address in Kept(c, Advertisers(later)) && k < |later|
             && (c.passive || later[k].eventType !in {0, 2} || r.eventType == 4)
          then [r.address] else []
  {
    hide Discover, First, Advertisers, Kept;
    var later := reports + [r];
    assert later[..|later| - 1] == reports;
    var s, t := Run(c, reports), Run(c, later);
    ReportsStored(c, reports);
    DiscoverTells(c, s, r);
    EveryDeviceRemembers(c, later);
    assert forall i | 0 <= i < |t.devices| :: Remembers(c, later, t.devices[i]);
    StoredIsKept(c, later, r.address);
  }

  lemma {:induction false} NobodyTold(c: Settings, reports: seq<Report>)
    requires !c.hasCallbacks
    ensures Complete(c, Run(c, reports)).told == Run(c, reports).told == []
  {
    if reports == [] {
    } else {
      NobodyTold(c, reports[..|reports| - 1]);
    }
  }

  // ----- results that are told and not stored -----

  /** An active scan waits for the scan response to an advertisement from `a`. */
  ghost predicate Waits(c: Settings, reports: seq<Report>, a: Address) {
    !c.passive
    && exists k | 0 <= k < |reports| ::
         reports[k].address == a && reports[k].eventType in {0, 2}
         && forall j | k < j < |reports| :: !IsResponse(reports[j], a)
  }

  lemma WaitsExtends(c: Settings, reports: seq<Report>, r: Report, a: Address)
    ensures Waits(c, reports + [r], a)
      <==> !IsResponse(r, a) && (Waits(c, reports, a) || (!c.passive && r.address == a && r.eventType in {0, 2}))
  {
    var later := reports + [r];
    assert later[|reports|] == r && forall j | 0 <= j < |reports| :: later[j] == reports[j];
    if Waits(c, reports, a) && !IsResponse(r, a) {
      var k :| 0 <= k < |reports| && reports[k].address == a && reports[k].eventType in {0, 2}
        && forall j | k < j < |reports| :: !IsResponse(reports[j], a);
      assert later[k] == reports[k];
    }
  }

  lemma FoundIfStored(devices: seq<Device>, a: Address)
    ensures IsStored(devices, a) <==> Find(devices, a) < |devices|
  {
    var i := Find(devices, a);
  }

  lemma StoredWithout(devices: seq<Device>, i: nat, a: Address)
    requires Distinct(devices) && i < |devices|
    ensures var rest := devices[..i] + devices[i + 1..];
      IsStored(rest, a) <==> a != devices[i].address && IsStored(devices, a)
  {
    var rest := devices[..i] + devices[i + 1..];
    assert forall k | 0 <= k < i :: rest[k] == devices[k];
    assert forall k | i < k < |devices| :: rest[k - 1] == devices[k];
  }

  lemma StoredWith(devices: seq<Device>, d: Device, a: Address)
    ensures IsStored(devices + [d], a) <==> a == d.address || IsStored(devices, a)
  {
    var more := devices + [d];
    assert more[|devices|] == d && forall k | 0 <= k < |devices| :: more[k] == devices[k];
  }

  lemma StoredUpdated(devices: seq<Device>, i: nat, d: Device, a: Address)
    requires i < |devices| && d.address == devices[i].address
    ensures IsStored(devices[i := d], a) <==> IsStored(devices, a)
  {
    var after := devices[i := d];
    assert forall k | 0 <= k < |devices| :: after[k].address == devices[k].address;
  }

  ghost predicate Pending(c: Settings, devices: seq<Device>) {
    forall i | 0 <= i < |devices| :: !c.passive && !devices[i].callbackSent && devices[i].advType in {0, 2}
  }

  lemma KnownUnstored(c: Settings, s: Scan, r: Report, a: Address)
    requires c.hasCallbacks && c.maxResults == 0 && Distinct(s.devices) && Pending(c, s.devices)
    requires IsStored(s.devices, r.address)
    ensures var t := Discover(c, s, r);
      && Pending(c, t.devices)
      && (IsStored(t.devices, a) <==> (a != r.address || r.eventType != 4) && IsStored(s.devices, a))
      && t.told == if r.eventType == 4 then s.told + [r.address] else s.told
  {
    hide IsStored, Without;
    var i := Find(s.devices, r.address);
    FoundIfStored(s.devices, r.address);
    var d := SetPayload(s.devices[i], r);
    StoredUpdated(s.devices, i, d, a);
    if r.eventType == 4 {
      StoredWithout(s.devices, i, a);
      assert Discover(c, s, r).devices == s.devices[..i] + s.devices[i + 1..];
    }
  }

  lemma NewUnstored(c: Settings, s: Scan, r: Report, a: Address)
    requires c.hasCallbacks && c.maxResults == 0 && Distinct(s.devices) && Pending(c, s.devices)
    requires !IsStored(s.devices, r.address)
    ensures var t := Discover(c, s, r);
      var waits := !c.passive && r.eventType in {0, 2};
      && Pending(c, t.devices)
      && (IsStored(t.devices, a) <==> (waits && a == r.address) || IsStored(s.devices, a))
      && t.told == if r.eventType == 4 || waits then s.told else s.told + [r.address]
  {
    hide IsStored;
    FoundIfStored(s.devices, r.address);
    var d := SetPayload(Device(r.address, r.eventType, [], false), r);
    StoredWith(s.devices, d, a);
    if r.eventType != 4 && (c.passive || r.eventType !in {0, 2}) {
      assert Discover(c, s, r).devices == s.devices;
    }
  }

  /** Results not stored, callbacks set: a device is held only while an active scan waits for its scan response.  A scan
      response is told if it was waited for, and an advertisement at once if there is nothing to wait for; duplicates
      make no difference. */
  lemma {:induction false} HeldWhileWaiting(c: Settings, reports: seq<Report>, a: Address)
    requires c.hasCallbacks && c.maxResults == 0
    ensures Pending(c, Run(c, reports).devices)
    ensures IsStored(Run(c, reports).devices, a) <==> Waits(c, reports, a)
    ensures reports != [] ==>
      var before, last := reports[..|reports| - 1], reports[|reports| - 1];
      var waited := Waits(c, before, last.address);
      Run(c, reports).told == Run(c, before).told
        + if (if last.eventType == 4 then waited else c.passive || (!waited && last.eventType !in {0, 2}))
          then [last.address] else []
  {
    if reports == [] {
    } else {
      hide Discover, Waits, IsStored;
      var n := |reports| - 1;
      var before, last := reports[..n], reports[n];
      var s := Run(c, before);
      assert before + [last] == reports && s.told + [] == s.told;
      ReportsStored(c, before);
      HeldWhileWaiting(c, before, a);
      HeldWhileWaiting(c, before, last.address);
      WaitsExtends(c, before, last, a);
      if IsStored(s.devices, last.address) {
        KnownUnstored(c, s, last, a);
      } else {
        NewUnstored(c, s, last, a);
      }
    }
  }

  // ----- what each stored device holds -----

  /** The data of all reports from `a`. */
  ghost function DataFrom(reports: seq<Report>, a: Address): seq<byte> {
    if reports == [] then []
    else
      var n := |reports| - 1;
      DataFrom(reports[..n], a) + if reports[n].address == a then reports[n].data else []
  }

  /** The payload held is the data from the last advertisement on. */
  lemma {:induction false} HeardFromLast(reports: seq<Report>, k: nat, a: Address)
    requires k < |reports| && IsAdvertisement(reports[k], a)
    requires forall j | k < j < |reports| :: !IsAdvertisement(reports[j], a)
    ensures ScanResults.Heard(reports, a) == DataFrom(reports[k..], a)
  {
    var n := |reports| - 1;
    var since := reports[k..];
    assert since[..|since| - 1] == reports[..n][k..] && since[|since| - 1] == reports[n];
    if k == n {
      assert reports[..n][k..] == [];
    } else {
      HeardFromLast(reports[..n], k, a);
    }
  }

  // ----- removing results, and ignoring reports -----

  /** Erasing removes exactly the device with the address. */
  lemma ErasesExactly(devices: seq<Device>, a: Address, d: Device)
    requires Distinct(devices)
    ensures d in Without(devices, a) <==> d in devices && d.address != a
    ensures |Without(devices, a)| == |devices| - if IsStored(devices, a) then 1 else 0
  {
    var i, rest := Find(devices, a), Without(devices, a);
    if i < |devices| {
      assert forall k | 0 <= k < i :: rest[k] == devices[k];
      assert forall k | i < k < |devices| :: rest[k - 1] == devices[k];
    }
  }

  ghost predicate StartsIgnoring(e: Event) {
    e == StartBegin(false) || e == HostReset
  }

  ghost predicate StopsIgnoring(e: Event) {
    e.StartEnd? || e == HostSync
  }

  /** Reports are being ignored since a fresh start or a host reset: the start has not ended since, and the host is not
      in sync again. */
  ghost predicate Ignoring(events: seq<Event>) {
    exists k | 0 <= k < |events| ::
      StartsIgnoring(events[k]) && forall j | k < j < |events| :: !StopsIgnoring(events[j])
  }

  lemma IgnoringExtends(events: seq<Event>, e: Event)
    ensures Ignoring(events + [e]) <==> StartsIgnoring(e) || (Ignoring(events) && !StopsIgnoring(e))
  {
    var later := events + [e];
    assert later[|events|] == e && forall j | 0 <= j < |events| :: later[j] == events[j];
    if Ignoring(events) && !StopsIgnoring(e) {
      var k :| 0 <= k < |events| && StartsIgnoring(events[k])
        && forall j | k < j < |events| :: !StopsIgnoring(events[j]);
      assert StartsIgnoring(later[k]);
    }
  }

  lemma {:induction false} IgnoringSince(c: Settings, events: seq<Event>)
    ensures RunFrom(c, START, events).ignoring <==> Ignoring(events)
  {
    if events == [] {
    } else {
      hide Ignoring, Discover, Complete, Without;
      var n := |events| - 1;
      IgnoringSince(c, events[..n]);
      IgnoringExtends(events[..n], events[n]);
      assert events[..n] + [events[n]] == events;
    }
  }

  /** Without a fresh start or a host reset, the reports heeded are those whose address is not on the ignored list. */
  lemma {:induction false} HeedsAll(c: Settings, s: State, events: seq<Event>)
    requires !s.ignoring && forall e | e in events :: !StartsIgnoring(e)
    ensures !RunFrom(c, s, events).ignoring
    ensures forall r :: r in Heeded(c, s, events) <==> Disc(r, false) in events
  {
    if events == [] {
    } else {
      hide Discover, Complete, Without;
      var n := |events| - 1;
      var before, e := events[..n], events[n];
      assert e in events && forall d | d in before :: d in events;
      HeedsAll(c, s, before);
      assert events == before + [e];
    }
  }

  // ----- one scan inside any run -----

  /** From a fresh start that succeeded until the scan is completed, after whatever came before. */
  ghost function ScanAfter(c: Settings, before: seq<Event>): State {
    Step(c, RunFrom(c, START, before), StartEnd(0, false))
  }

  /** One scan that stores without limit: exactly the devices with an advertisement heeded are stored. */
  lemma ScanFindsAll(c: Settings, before: seq<Event>, during: seq<Event>, a: Address)
    requires c.maxResults == 255
    requires forall e | e in during :: DuringScan(e)
    ensures var s0 := ScanAfter(c, before);
      IsStored(RunFrom(c, s0, during).scan.devices, a) <==>
        exists r | r in Heeded(c, s0, during) :: r.address == a && r.eventType != 4
  {
    hide Run, RunFrom, Heeded, IsStored, Advertisers;
    var s0 := ScanAfter(c, before);
    var reports := Heeded(c, s0, during);
    ScanIsRun(c, s0, during);
    StoredIsKept(c, reports, a);
    AdvertisersAre(reports);
    AdvertisedIn(reports, a);
  }

  lemma AdvertisedIn(reports: seq<Report>, a: Address)
    ensures Advertised(reports, a) <==> exists r | r in reports :: r.address == a && r.eventType != 4
  {
    if r :| r in reports && r.address == a && r.eventType != 4 {
      var k :| 0 <= k < |reports| && reports[k] == r;
      assert IsAdvertisement(reports[k], a);
    }
  }

  /** With a limit from 1 to 254, as many are stored as advertised, up to the limit. */
  lemma ScanFindsUpToLimit(c: Settings, before: seq<Event>, during: seq<Event>)
    requires 1 <= c.maxResults <= 254
    requires forall e | e in during :: DuringScan(e)
    ensures var s0 := ScanAfter(c, before);
      var devices, reports := RunFrom(c, s0, during).scan.devices, Heeded(c, s0, during);
      var all := |set r | r in reports && r.eventType != 4 :: r.address|;
      |devices| == if all < c.maxResults as int then all else c.maxResults as int
  {
    hide Run, RunFrom, Heeded, Advertisers;
    var s0 := ScanAfter(c, before);
    var reports := Heeded(c, s0, during);
    ScanIsRun(c, s0, during);
    StoresAdvertisers(c, reports);
    AdvertisersCount(reports);
  }

  /** With callbacks and duplicates filtered, a scan that stores without limit has told of every device with an
      advertisement heeded exactly once when it is completed, and of no other. */
  lemma ScanTellsAll(c: Settings, before: seq<Event>, during: seq<Event>, a: Address)
    requires c.maxResults == 255 && c.hasCallbacks && c.filterDuplicates
    requires forall e | e in during :: DuringScan(e)
    ensures var s0 := ScanAfter(c, before);
      var s2, first := Step(c, RunFrom(c, s0, during), DiscComplete), |s0.scan.told|;
      && s0.scan.told <= s2.scan.told
      && Count(s2.scan.told[first..], a)
         == if exists r | r in Heeded(c, s0, during) :: r.address == a && r.eventType != 4 then 1 else 0
  {
    hide RunFrom, Heeded, IsStored, Count, Discover, Unreported;
    ReportedOnce(c, before, during, a);
    ScanFindsAll(c, before, during, a);
  }

  /** And while it goes on, of exactly the devices that are due. */
  lemma ScanTellsWhenDue(c: Settings, before: seq<Event>, during: seq<Event>, a: Address)
    requires c.maxResults == 255 && c.hasCallbacks && c.filterDuplicates
    requires forall e | e in during :: DuringScan(e)
    ensures var s0 := ScanAfter(c, before);
      var s1, first := RunFrom(c, s0, during), |s0.scan.told|;
      && s0.scan.told <= s1.scan.told
      && Count(s1.scan.told[first..], a) == if Due(c, Heeded(c, s0, during), a) then 1 else 0
  {
    hide Run, RunFrom, Heeded, Advertisers, Count;
    var s0 := ScanAfter(c, before);
    var reports := Heeded(c, s0, during);
    ScanIsRun(c, s0, during);
    ToldWhenDue(c, reports, a);
    AdvertisersAre(reports);
    Later(s0.scan.told, Run(c, reports).told);
  }

  /** Results not stored: the completion tells of the devices still waiting, once each, and leaves nothing. */
  lemma CompletesUnstored(c: Settings, reports: seq<Report>, a: Address)
    requires c.hasCallbacks && c.maxResults == 0
    ensures var s := Run(c, reports);
      var done := Complete(c, s);
      && done.devices == []
      && s.told <= done.told
      && Count(done.told[|s.told|..], a) == if Waits(c, reports, a) then 1 else 0
  {
    hide Run, Waits, IsStored, Unreported, Count;
    var s := Run(c, reports);
    HeldWhileWaiting(c, reports, a);
    ReportsStored(c, reports);
    UnreportedCounts(s.devices, a);
    Later(s.told, Unreported(s.devices));
  }
}
