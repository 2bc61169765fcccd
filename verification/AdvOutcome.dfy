/** What goes over the air when advertising starts, in the numbers of the format: kind by kind, and where the name
    is read. */
module AdvOutcome {
  import opened Bytes
  import opened AdvFields
  import opened AdvServices
  import opened AdvBuilder
  import opened AdvertisedDevice
  import opened AdvPacker

  /** A structure, if it is there. */
  function Opt(there: bool, kind: byte, data: seq<byte>): seq<Structure> {
    if there then [Structure(kind, data)] else []
  }

  function OptOf(s: Structure): seq<Structure> {
    Opt(s.data != [], s.kind, s.data)
  }

  lemma {:induction false} PresentAppend(a: seq<Structure>, b: seq<Structure>)
    ensures Present(a + b) == Present(a) + Present(b)
  {
    if a == [] {
      assert a + b == b;
    } else {
      assert (a + b)[1..] == a[1..] + b;
      PresentAppend(a[1..], b);
      Associative(OptOf(a[0]), Present(a[1..]), Present(b));
    }
  }

  lemma PresentSingle(s: Structure)
    ensures Present([s]) == OptOf(s)
  {
  }

  lemma PresentThree(a: Structure, b: Structure, c: Structure)
    ensures Present([a, b, c]) == OptOf(a) + OptOf(b) + OptOf(c)
  {
    hide Present, OptOf;
    assert [a, b, c] == [a] + [b] + [c];
    PresentAppend([a] + [b], [c]);
    PresentAppend([a], [b]);
    PresentSingle(a);
    PresentSingle(b);
    PresentSingle(c);
  }

  lemma PresentFour(a: Structure, b: Structure, c: Structure, d: Structure)
    ensures Present([a, b, c, d]) == OptOf(a) + OptOf(b) + OptOf(c) + OptOf(d)
  {
    hide Present, OptOf;
    assert [a, b, c, d] == [a, b, c] + [d];
    PresentAppend([a, b, c], [d]);
    PresentThree(a, b, c);
    PresentSingle(d);
  }

  /** The fields after the name, kind by kind. */
  ghost function RestOnAir(f: Fields): seq<Structure> {
    (PowerOnAir(f.txPower) + IntervalOnAir(f.interval) + Opt(f.data16 != [], 0x16, f.data16)
     + AppearanceOnAir(f.appearance))
    + (Opt(f.data32 != [], 0x20, f.data32) + Opt(f.data128 != [], 0x21, f.data128) + Opt(f.uri != [], 0x24, f.uri)
       + Opt(|f.manufacturer| >= 2, 0xff, f.manufacturer))
  }

  ghost function PowerOnAir(power: Option<byte>): seq<Structure> {
    if power.Some? then [Structure(0x0a, [power.value])] else []
  }

  ghost function IntervalOnAir(i: Option<(uint16, uint16)>): seq<Structure> {
    if i.Some? then [Structure(0x12, [i.value.0 % 256, i.value.0 / 256, i.value.1 % 256, i.value.1 / 256])] else []
  }

  ghost function AppearanceOnAir(a: Option<uint16>): seq<Structure> {
    if a.Some? then [Structure(0x19, [a.value % 256, a.value / 256])] else []
  }

  ghost function ListsOnAir(l: Lists): seq<Structure> {
    Opt(l.u16.uuids != [], if l.u16.complete then 0x03 else 0x02, Flatten(l.u16.uuids))
    + Opt(l.u32.uuids != [], if l.u32.complete then 0x05 else 0x04, Flatten(l.u32.uuids))
    + Opt(l.u128.uuids != [], if l.u128.complete then 0x07 else 0x06, Flatten(l.u128.uuids))
  }

  ghost function NameOnAir(name: Option<Memory>, length: byte, complete: bool): seq<Structure> {
    if name.Some? && length != 0 then [Structure(if complete then 0x09 else 0x08, name.value[..length])] else []
  }

  /** All fields that are not empty, under the kinds of the format and in the order of the kinds. */
  ghost function OnAir(f: Fields): seq<Structure> {
    Opt(f.flags != 0, 0x01, [f.flags]) + ListsOnAir(f.lists)
    + NameOnAir(f.name, f.nameLen, f.nameComplete) + RestOnAir(f)
  }

  lemma SomeOnAir(f: Fields)
    ensures OptOf(TxPowerOf(f)) == PowerOnAir(f.txPower)
    ensures OptOf(AppearanceOf(f)) == AppearanceOnAir(f.appearance)
    ensures OptOf(ManufacturerOf(f)) == Opt(|f.manufacturer| >= 2, 0xff, f.manufacturer)
    ensures OptOf(FlagsOf(f)) == Opt(f.flags != 0, 0x01, [f.flags])
    ensures OptOf(NameOf(f)) == NameOnAir(f.name, f.nameLen, f.nameComplete)
  {
  }

  lemma IntervalIsOnAir(f: Fields)
    ensures OptOf(IntervalOf(f)) == IntervalOnAir(f.interval)
  {
    if f.interval.Some? {
      var i := f.interval.value;
      assert Little16(i.0) + Little16(i.1) == [i.0 % 256, i.0 / 256, i.1 % 256, i.1 / 256];
    }
  }

  lemma PresentRest(f: Fields)
    ensures Present(Rest(f)) == RestOnAir(f)
  {
    var r := Rest(f);
    SomeOnAir(f);
    IntervalIsOnAir(f);
    assert r == [r[0], r[1], r[2], r[3]] + [r[4], r[5], r[6], r[7]];
    PresentAppend([r[0], r[1], r[2], r[3]], [r[4], r[5], r[6], r[7]]);
    PresentFour(r[0], r[1], r[2], r[3]);
    PresentFour(r[4], r[5], r[6], r[7]);
    hide Present, TxPowerOf, IntervalOf, AppearanceOf, ManufacturerOf, PowerOnAir, IntervalOnAir, AppearanceOnAir;
  }

  lemma ListThere(l: UuidList, w: nat)
    requires AllOfWidth(l.uuids, w) && IsWidth(w)
    ensures (Flatten(l.uuids) != []) == (l.uuids != [])
  {
    FlattenWidth(l.uuids, w);
  }

  lemma PresentLists(l: Lists)
    requires OfTheirWidths(l)
    ensures Present(ListsOf(l)) == ListsOnAir(l)
  {
    ListThere(l.u16, 2);
    ListThere(l.u32, 4);
    ListThere(l.u128, 16);
    hide Present, Flatten;
    PresentThree(ListOf(l.u16, 2), ListOf(l.u32, 4), ListOf(l.u128, 16));
  }

  /** Every field of an advertisement that was sent is read by a scanner under its own kind, in order, and nothing else
      is. */
  lemma SentInOrder(f: Fields)
    requires OfTheirWidths(f.lists) && HostSize(f) <= 31
    ensures Structures(SetFields(f).value) == OnAir(f)
  {
    ReadAsSent(f);
    PresentIsOnAir(f);
  }

  lemma PresentIsOnAir(f: Fields)
    requires OfTheirWidths(f.lists)
    ensures Present(AllOf(f)) == OnAir(f)
  {
    hide Present, ListsOf, Rest, Flatten, OfTheirWidths, ListsOnAir, NameOnAir, RestOnAir, FlagsOf, NameOf, OptOf, Opt;
    var flags, name, lists, rest := FlagsOf(f), NameOf(f), ListsOf(f.lists), Rest(f);
    assert AllOf(f) == [flags] + lists + [name] + rest;
    PresentSingle(flags);
    PresentSingle(name);
    PresentRest(f);
    PresentLists(f.lists);
    SomeOnAir(f);
    PresentAppend([flags] + lists + [name], rest);
    PresentAppend([flags] + lists, [name]);
    PresentAppend([flags], lists);
  }

  // ----- the name -----

  lemma {:induction false} FirstOfTwo(a: seq<Structure>, b: seq<Structure>, kind: byte)
    ensures First(a + b, kind) == if First(a, kind).Some? then First(a, kind) else First(b, kind)
  {
    if a == [] {
      assert a + b == b;
    } else {
      assert (a + b)[1..] == a[1..] + b;
      FirstOfTwo(a[1..], b, kind);
    }
  }

  lemma NameKinds(f: Fields, kind: byte)
    requires kind in {0x08, 0x09}
    ensures First(Present(AllOf(f)), kind)
         == if SentName(f) != [] && f.nameComplete == (kind == 0x09) then Some(SentName(f)) else None
  {
    AllKinds(f);
    var all := AllOf(f);
    hide AllOf, Flatten, ServicesKind;
    NameFirst(all, kind);
    PresentFirst(all, kind);
    hide Present, First;
  }

  /** Of two names in one payload the first is shown, unless only the second is marked complete. */
  predicate Shown(first: seq<byte>, complete: bool, second: seq<byte>, secondComplete: bool) {
    first != [] && (complete || second == [] || !secondComplete)
  }

  /** The name in what a scanner holds after the advertisement and the scan response. */
  lemma NameOfBoth(f: Fields, scan: Fields)
    requires OfTheirWidths(f.lists) && HostSize(f) <= 31
    requires OfTheirWidths(scan.lists) && HostSize(scan) <= 31
    ensures NameIn(Structures(SetFields(f).value + SetFields(scan).value))
         == if Shown(SentName(f), f.nameComplete, SentName(scan), scan.nameComplete) then SentName(f)
            else SentName(scan)
  {
    hide Structures, EncodeAll, AllOf, Present, HostSize, OfTheirWidths, First;
    var list, more := Present(AllOf(f)), Present(AllOf(scan));
    ReadAsSent(f);
    ReadAsSent(scan);
    SizeOfAll(f);
    ShortIsSound(list);
    if SetFields(scan).value == [] {
      assert SetFields(f).value + SetFields(scan).value == SetFields(f).value;
      NothingRead(more, SetFields(scan).value);
      assert list + more == list;
    } else {
      ReadPast(list, SetFields(scan).value);
    }
    FirstOfTwo(list, more, 0x09);
    FirstOfTwo(list, more, 0x08);
    NameKinds(f, 0x09);
    NameKinds(f, 0x08);
    NameKinds(scan, 0x09);
    NameKinds(scan, 0x08);
  }

  lemma NothingRead(list: seq<Structure>, p: seq<byte>)
    requires p == [] && Structures(p) == list
    ensures list == []
  {
  }

  /** What is sent of the name: all of it in the advertisement if it fits; or else in the scan response, marked
      complete exactly if all of it is there; or else what fits in the advertisement without the transmission
      power. */
  lemma NamePlaced(f: Fields, scan: Fields, len: byte, useScan: bool)
    requires f.name.Some? && HasRoom(f, len, useScan)
    requires f.txPower.Some? ==> len >= 3
    ensures var g, h, bytes := Placed(f, len, useScan), Response(f, scan, len, useScan), f.name.value;
      && (len + 2 + f.nameLen <= 31 ==>
           SentName(g) == bytes[..f.nameLen] && g.nameComplete == f.nameComplete && h == scan)
      && (len + 2 + f.nameLen > 31 && useScan ==>
           && SentName(g) == []
           && SentName(h) == bytes[..if f.nameLen <= 29 then f.nameLen else 29]
           && h.nameComplete == (f.nameLen <= 29))
      && (len + 2 + f.nameLen > 31 && !useScan ==>
           var room := 29 - (if f.txPower.Some? then len - 3 else len);
           && 0 <= room
           && SentName(g) == bytes[..if f.nameLen <= room then f.nameLen else room]
           && g.nameComplete == (f.nameComplete && f.nameLen <= room)
           && h == scan)
  {
  }

  /** All other fields stay as they are, but for the transmission power that makes way for the name. */
  lemma OthersStay(f: Fields, scan: Fields, len: byte, useScan: bool)
    ensures var g := Placed(f, len, useScan);
      g == f.(name := g.name, nameLen := g.nameLen, nameComplete := g.nameComplete,
              txPower := if len + 2 + f.nameLen <= 31 || useScan then f.txPower else None)
    ensures var h := Response(f, scan, len, useScan);
      h == scan.(name := h.name, nameLen := h.nameLen, nameComplete := h.nameComplete)
  {
  }

  /** The bytes of the name that are sent in an advertisement of `len` bytes without it. */
  ghost function NameRead(f: Fields, len: byte, useScan: bool): seq<byte> {
    var room: int :=
      if len + 2 + f.nameLen <= 31 then f.nameLen
      else if useScan then 29
      else 29 - (if f.txPower.Some? then len - 3 else len);
    if f.name.None? then []
    else f.name.value[..if f.nameLen <= room then f.nameLen else if 0 <= room then room else 0]
  }

  /** The name goes to the scan response. */
  predicate Moves(f: Fields, len: byte, useScan: bool) {
    useScan && len + 2 + f.nameLen > 31
  }

  lemma NameSent(f: Fields, scan: Fields, len: byte, useScan: bool)
    requires HasRoom(f, len, useScan) && (f.txPower.Some? ==> len >= 3)
    ensures var g, h := Placed(f, len, useScan), Response(f, scan, len, useScan);
      if Moves(f, len, useScan) then
        SentName(g) == [] && SentName(h) == NameRead(f, len, useScan)
      else
        && SentName(g) == NameRead(f, len, useScan)
        && (useScan ==> g.nameComplete == f.nameComplete && h == scan)
  {
    if f.name.Some? {
      NamePlaced(f, scan, len, useScan);
      hide Placed, Response, HasRoom;
    }
  }

  lemma ListsApart(f: Fields, l: Lists, scan: Fields, len: byte, useScan: bool)
    ensures var g := f.(lists := l);
      && HasRoom(g, len, useScan) == HasRoom(f, len, useScan)
      && Response(g, scan, len, useScan) == Response(f, scan, len, useScan)
      && NameRead(g, len, useScan) == NameRead(f, len, useScan)
      && (FixedSize(f) == Mod8(FixedSize(f)) <= len && f.txPower.Some? ==> len >= 3)
  {
  }

  lemma ResponseKeeps(f: Fields, scan: Fields, len: byte, useScan: bool)
    requires FixedSize(scan) == ListsSize(scan.lists) == 0 && scan.nameLen <= 29
    ensures var h := Response(f, scan, len, useScan);
      h.lists == scan.lists && HostSize(h) <= 31
  {
    var h := Response(f, scan, len, useScan);
    OthersStay(f, scan, len, useScan);
    NameOnly(scan, h.name, h.nameLen, h.nameComplete);
    hide FixedSize, ListsSize, HostSize;
    ResponseFits(h);
  }

  /** What the receiver reads of the name after both packets. */
  lemma NameReceived(f: Fields, l: Lists, scan: Fields, len: byte, useScan: bool)
    requires OfTheirWidths(l) && OfTheirWidths(scan.lists)
    requires FixedSize(scan) == ListsSize(scan.lists) == 0 && scan.nameLen <= 29
    requires HasRoom(f, len, useScan) && FixedSize(f) == Mod8(FixedSize(f)) <= len
    requires HostSize(Placed(f.(lists := l), len, useScan)) <= 31
    ensures var g, h := Placed(f.(lists := l), len, useScan), Response(f, scan, len, useScan);
      && HostSize(h) <= 31
      && (!useScan ==> NameIn(Structures(SetFields(g).value)) == NameRead(f, len, useScan))
      && (useScan ==>
           var own := NameRead(f, len, useScan);
           NameIn(Structures(SetFields(g).value + SetFields(h).value))
           == if Moves(f, len, useScan) || Shown(own, f.nameComplete, SentName(scan), scan.nameComplete) then own
              else SentName(scan))
  {
    var k := f.(lists := l);
    ListsApart(f, l, scan, len, useScan);
    NameSent(k, scan, len, useScan);
    PlacedLists(k, len, useScan);
    ResponseKeeps(k, scan, len, useScan);
    var g, h := Placed(k, len, useScan), Response(k, scan, len, useScan);
    hide FixedSize, ListsSize, HostSize, HasRoom, Placed, Response, SentName, NameRead;
    hide Structures, NameIn, SetFields, OfTheirWidths, AllInStep, Regular, ServiceUuids;
    SeenByScanner(g);
    NameOfBoth(g, h);
  }

  /** From one device to another, with the scan response appended to the advertisement as the scan does: if the
      advertisement is sent, the receiver reads the name, all of it or what the place it was given leaves room for.
      Only if the name stays in the advertisement, and is empty or not marked complete, a name that an earlier start
      left in the scan response may be read instead. */
  method NameOverAir(sender: NimBLEAdvertising, receiver: NimBLEAdvertisedDevice)
      returns (sent: bool, name: seq<byte>)
    requires sender.Idle() && OfTheirWidths(sender.scanData.lists)
    modifies sender`advData, sender`scanData, receiver`payload
    ensures var f, useScan := old(sender.advData), sender.useScan;
      var len := PlaceAll(Mod8(FixedSize(f)), f.lists, sender.serviceUUIDs).0;
      && len < 256
      && (sent ==>
           var own, stale := NameRead(f, len, useScan), old(sender.scanData);
           name == if !useScan || Moves(f, len, useScan)
                      || Shown(own, f.nameComplete, SentName(stale), stale.nameComplete) then own
                   else SentName(stale))
  {
    hide FixedSize, Mod8, HostSize, ListsSize, HasRoom, PlaceAll, OfTheirWidths, Placed, Response, NameRead;
    hide Structures, SetFields, NameIn, SentName, Greedy;
    ghost var f, scan, start := sender.advData, sender.scanData, Mod8(FixedSize(sender.advData));
    ghost var r := PlaceAll(start, f.lists, sender.serviceUUIDs);
    PackingIsExact(start, f.lists, sender.serviceUUIDs);
    PackedWidths(start, r.0, r.1, sender.serviceUUIDs);
    var advert, response := sender.StartData();
    sent, name := advert.Some?, [];
    if sent {
      NotWrapped(FixedSize(f));
      NameReceived(f, r.1, scan, r.0, sender.useScan);
      receiver.SetPayload(advert.value, false);
      if response.Some? {
        receiver.SetPayload(response.value, true);
      }
      name := receiver.GetName();
    }
  }

  lemma NotWrapped(n: nat)
    requires n < 256
    ensures Mod8(n) == n
  {
  }
}
