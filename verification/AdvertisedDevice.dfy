/** A device that was heard: its payload is set by the scan and read field by field by the application. */
module AdvertisedDevice {
  import opened Bytes
  import opened AdvFields
  import opened AdvServices

  type Address = seq<byte>

  datatype Device = Device(address: Address, advType: byte, payload: seq<byte>, callbackSent: bool)

  lemma {:induction false} StructuresShort(p: seq<byte>)
    ensures forall s | s in Structures(p) :: |s.data| <= 254
  {
    if |p| > 2 && p[0] < |p| {
      StructuresShort(p[1 + p[0]..]);
    }
  }

  /** The name a payload gives: the first complete one, or else the first short one. */
  function NameIn(list: seq<Structure>): seq<byte> {
    match First(list, COMP_NAME)
    case Some(name) => name
    case None => ValueIn(list, INCOMP_NAME)
  }

  /** The value of the first structure of a kind, or nothing. */
  function ValueIn(list: seq<Structure>, kind: byte): seq<byte> {
    match First(list, kind)
    case Some(value) => value
    case None => []
  }

  /** The first of a kind is the one with none before it. */
  lemma {:induction false} FirstIs(list: seq<Structure>, kind: byte, k: nat)
    requires k <= |list| && forall j | 0 <= j < k :: list[j].kind != kind
    requires k < |list| ==> list[k].kind == kind
    ensures First(list, kind) == if k < |list| then Some(list[k].data) else None
  {
    if list == [] || k == 0 {
    } else {
      assert forall j | 0 <= j < k - 1 :: list[1..][j] == list[j + 1];
      FirstIs(list[1..], kind, k - 1);
    }
  }

  lemma ValueIs(list: seq<Structure>, kind: byte, k: nat)
    requires k <= |list| && forall j | 0 <= j < k :: list[j].kind != kind
    requires k < |list| ==> list[k].kind == kind
    ensures ValueIn(list, kind) == if k < |list| then list[k].data else []
  {
    FirstIs(list, kind, k);
  }

  /** The name is that of the first structure of kind 9, a complete name, wherever it stands; without one it is that of
      the first structure of kind 8, a short name. */
  lemma NameIs(list: seq<Structure>, k: nat)
    requires k <= |list| && forall j | 0 <= j < k :: list[j].kind != 0x09
    ensures k < |list| && list[k].kind == 0x09 ==> NameIn(list) == list[k].data
    ensures k == |list| ==> NameIn(list) == ValueIn(list, 0x08)
  {
    if k == |list| || list[k].kind == 0x09 {
      FirstIs(list, 0x09, k);
    }
  }

  class NimBLEAdvertisedDevice {
    var address: Address
    var advType: byte
    var payload: seq<byte>
    var callbackSent: bool

    constructor ()
      ensures !callbackSent
    {
      address, advType, payload, callbackSent := [], 0, seq(62, i => 0), false;
    }

    ghost function AsDevice(): Device
      reads this
    {
      Device(address, advType, payload, callbackSent)
    }

    method SetAddress(a: Address)
      modifies `address
      ensures address == a
    {
      address := a;
    }

    method SetAdvType(eventType: byte)
      modifies `advType
      ensures advType == eventType
    {
      advType := eventType;
    }

    method SetPayload(data: seq<byte>, append: bool)
      modifies `payload
      ensures payload == if append then old(payload) + data else data
    {
      if !append {
        payload := data;
      } else {
        payload := payload + data;
      }
    }

    /** Counts the entries of one kind. Given an index, it stops at the field where the count reaches it and gives
        the place of that field. The count and the index are of 8 bits. */
    method FindAdvField(kind: byte, index: Option<byte>) returns (count: byte, dataLoc: Option<nat>)
      ensures var list := Structures(payload);
        var r := Seek(list, kind, index, 0);
        && count == r.1
        && (r.0 < |list| ==>
            dataLoc.Some? && IsField(payload, dataLoc.value) && FieldAt(payload, dataLoc.value) == list[r.0])
    {
      hide Structures, Seek, FieldAt, CountOf, Plus8, Walking;
      var p := payload;
      var length, data := |p|, 0;
      ghost var position := 0;
      count, dataLoc := 0, None;
      WalkStart(p, kind, index);
      if length < 3 {
        WalkEnd(p, data, position, kind, index, count);
        return;
      }
      while length > 2
        invariant 0 <= data && 0 <= length && data + length == |p|
        invariant Walking(p, data, position, kind, index, count)
      {
        var size: nat := p[data];
        if size >= length {
          WalkEnd(p, data, position, kind, index, count);
          return;
        }
        WalkStep(p, data, position, kind, index, count);
        if p[data + 1] == kind {
          count := Plus8(count, CountOf(kind, p[data]));
          if index.Some? && (index.value == 0 || count >= index.value) {
            break;
          }
        }
        length := length - (1 + size);
        data := data + 1 + size;
        position := position + 1;
      }
      if length <= 2 {
        WalkEnd(p, data, position, kind, index, count);
      }
      if index.Some? {
        dataLoc := Some(data);
      }
    }

    /** The value at a place, without the length and the kind. */
    method ValueAt(dataLoc: nat) returns (value: seq<byte>)
      requires IsField(payload, dataLoc)
      ensures value == FieldAt(payload, dataLoc).data
    {
      if payload[dataLoc] > 1 {
        return payload[dataLoc + 2..dataLoc + 1 + payload[dataLoc]];
      }
      return [];
    }

    method GetName() returns (name: seq<byte>)
      ensures name == NameIn(Structures(payload))
    {
      SeekFirst(Structures(payload), COMP_NAME);
      SeekFirst(Structures(payload), INCOMP_NAME);
      var count, dataLoc := FindAdvField(COMP_NAME, Some(0));
      if count == 0 {
        count, dataLoc := FindAdvField(INCOMP_NAME, Some(0));
      }
      if count > 0 {
        name := ValueAt(dataLoc.value);
      } else {
        name := [];
      }
    }

    method GetManufacturerData() returns (value: seq<byte>)
      ensures value == ValueIn(Structures(payload), 0xff)
    {
      SeekFirst(Structures(payload), MFG_DATA);
      var count, dataLoc := FindAdvField(MFG_DATA, Some(0));
      if count > 0 {
        value := ValueAt(dataLoc.value);
      } else {
        value := [];
      }
    }

    method GetURI() returns (value: seq<byte>)
      ensures value == ValueIn(Structures(payload), 0x24)
    {
      SeekFirst(Structures(payload), URI);
      var count, dataLoc := FindAdvField(URI, Some(0));
      if count > 0 {
        value := ValueAt(dataLoc.value);
      } else {
        value := [];
      }
    }

    /** The service data field at an index below 255, and the width of its UUID. */
    method FindServiceData(index: byte) returns (dataLoc: Option<nat>, width: nat)
      requires index < 255
      ensures var list := Structures(payload);
        dataLoc.None? <==>
          index >= |Select(list, 0x16)| + |Select(list, 0x20)| + |Select(list, 0x21)|
      ensures dataLoc.Some? ==>
        && IsField(payload, dataLoc.value)
        && width in {2, 4, 16}
        && ServiceData(Structures(payload), index) == WithoutUuid(FieldAt(payload, dataLoc.value).data, width)
    {
      ghost var list := Structures(payload);
      hide Seek, Structures, FieldAt, IsField, Select;
      var number: byte := index + 1;
      SeekNth(list, SVC_DATA_UUID16, number, 0);
      var found, at := FindAdvField(SVC_DATA_UUID16, Some(number));
      if found == number {
        return at, 2;
      }
      number := number - found;
      SeekNth(list, SVC_DATA_UUID32, number, 0);
      found, at := FindAdvField(SVC_DATA_UUID32, Some(number));
      if found == number {
        return at, 4;
      }
      number := number - found;
      SeekNth(list, SVC_DATA_UUID128, number, 0);
      found, at := FindAdvField(SVC_DATA_UUID128, Some(number));
      if found == number {
        return at, 16;
      }
      return None, 0;
    }

    method GetServiceData(index: byte) returns (value: seq<byte>)
      requires index < 255
      ensures value == ServiceData(Structures(payload), index)
    {
      hide Structures;
      var dataLoc, width := FindServiceData(index);
      value := [];
      if dataLoc.Some? {
        var at, length: nat := dataLoc.value, payload[dataLoc.value];
        if length > width {
          value := payload[at + 2 + width..at + 1 + length];
        }
      }
    }

    /** The service UUID at an index below 255, or none. */
    method GetServiceUUID(index: byte) returns (uuid: Uuid)
      requires index < 255
      ensures uuid == UuidAt(Structures(payload), INCOMP_UUIDS16, index + 1)
    {
      ghost var list := Structures(payload);
      StructuresShort(payload);
      hide Structures, Seek, UuidAt, Pick, Entries;
      var kind: byte, number: byte := INCOMP_UUIDS16, index + 1;
      uuid := [];
      var found := false;
      while !found && kind <= COMP_UUIDS128
        invariant INCOMP_UUIDS16 <= kind <= COMP_UUIDS128 + 1 && 0 < number
        invariant !found ==> uuid == []
        invariant UuidAt(list, INCOMP_UUIDS16, index + 1) == if found then uuid else UuidAt(list, kind, number)
        decreases !found, COMP_UUIDS128 - kind
      {
        NextKind(list, kind, number);
        SeekStops(list, kind, number, 0);
        var count, dataLoc := FindAdvField(kind, Some(number));
        if count >= number {
          uuid := UuidInField(dataLoc.value, count, number);
          found := true;
        } else {
          kind := kind + 1;
          number := number - count;
        }
      }
      NoMoreKinds(list, number);
    }

    /** The UUID in the field where the count reached the number. */
    method UuidInField(dataLoc: nat, count: byte, number: byte) returns (uuid: Uuid)
      requires IsField(payload, dataLoc) && IsList(FieldAt(payload, dataLoc).kind)
      requires 0 < number && count - Entries(FieldAt(payload, dataLoc)) < number <= count
      ensures uuid == Pick(FieldAt(payload, dataLoc), count, number)
    {
      hide Pick;
      var length: nat, kind := payload[dataLoc], payload[dataLoc + 1];
      var width := if kind < INCOMP_UUIDS32 then 2 else if kind < INCOMP_UUIDS128 then 4 else 16;
      ghost var field := FieldAt(payload, dataLoc);
      assert length == |field.data| + 1 && Width(kind) == width && Entries(field) == length / width;
      hide FieldAt, Width, Entries;
      var index: nat := number;
      if length < number * width {
        index := number - (count - length / width);
      }
      Multiples(width, 0, index);
      PickIs(field, width, count, number, index);
      uuid := [];
      if length > width * index {
        SubField(payload, dataLoc, width * (index - 1), width * index);
        uuid := payload[dataLoc + 2 + width * (index - 1)..dataLoc + 2 + width * index];
      }
    }

    /** The number of entries in all lists of UUIDs, in 8 bits; the number of UUIDs if the lists hold whole ones. */
    method GetServiceUUIDCount() returns (count: byte)
      ensures count == Mod8(EntriesFrom(Structures(payload), INCOMP_UUIDS16))
      ensures Regular(Structures(payload)) && |ServiceUuids(Structures(payload))| < 256 ==>
        count == |ServiceUuids(Structures(payload))|
    {
      ghost var list := Structures(payload);
      hide Structures, Seek, EntriesOf, Mod8, Regular, UuidsFrom;
      count := 0;
      var kind: byte := INCOMP_UUIDS16;
      ghost var done: nat := 0;
      ZeroMod8();
      while kind <= COMP_UUIDS128
        invariant INCOMP_UUIDS16 <= kind <= COMP_UUIDS128 + 1 && count == Mod8(done)
        invariant done + EntriesFrom(list, kind) == EntriesFrom(list, INCOMP_UUIDS16)
      {
        var found, _ := FindAdvField(kind, None);
        SeekAll(list, kind, 0);
        AddMod8(done, EntriesOf(list, kind));
        count := (count + found) % 256;
        done := done + EntriesOf(list, kind);
        kind := kind + 1;
      }
      hide EntriesFrom;
      if Regular(list) && |ServiceUuids(list)| < 256 {
        EntriesAreUuids(list, INCOMP_UUIDS16);
        SmallMod8(|ServiceUuids(list)|);
      }
    }

    /** Some number gives a UUID that equals the given one; for lists that are in step, some listed UUID equals it. */
    method IsAdvertisingService(uuid: Uuid) returns (advertised: bool)
      ensures var list := Structures(payload);
        advertised <==> Numbered(list, uuid, Mod8(EntriesFrom(list, INCOMP_UUIDS16)))
      ensures var list := Structures(payload);
        Regular(list) && |ServiceUuids(list)| < 256 && AllInStep(list, INCOMP_UUIDS16) ==>
          (advertised <==> exists u :: Listed(list, u) && SameUuid(uuid, u))
    {
      ghost var list := Structures(payload);
      hide Structures, UuidsFrom, UuidAt, SameUuid, AllInStep, Regular, EntriesFrom, Mod8;
      var count := GetServiceUUIDCount();
      hide Listed;
      if Regular(list) && |ServiceUuids(list)| < 256 && AllInStep(list, INCOMP_UUIDS16) {
        NumberedIffListed(list, uuid);
      }
      var i := 0;
      while i < count
        invariant 0 <= i <= count
        invariant forall k: nat | k < i :: !SameUuid(uuid, UuidNumber(list, k))
      {
        var u := GetServiceUUID(i);
        assert u == UuidNumber(list, i);
        if SameUuid(uuid, u) {
          assert Numbered(list, uuid, count);
          return true;
        }
        i := i + 1;
      }
      return false;
    }
  }

  /** The UUID that getServiceUUID gives for an index. */
  function UuidNumber(list: seq<Structure>, i: nat): Uuid {
    if i < 255 then UuidAt(list, INCOMP_UUIDS16, i + 1) else []
  }

  /** One of the first numbers gives a UUID that equals the given one. */
  ghost predicate Numbered(list: seq<Structure>, uuid: Uuid, count: byte) {
    exists i: nat | i < count :: SameUuid(uuid, UuidNumber(list, i))
  }

  lemma NumberedIffListed(list: seq<Structure>, uuid: Uuid)
    requires Regular(list) && |ServiceUuids(list)| < 256 && AllInStep(list, INCOMP_UUIDS16)
    ensures Numbered(list, uuid, |ServiceUuids(list)|) <==> exists u :: Listed(list, u) && SameUuid(uuid, u)
  {
    InStepEnumerates(list);
    forall u
      ensures u in ServiceUuids(list) <==> Listed(list, u)
    {
      ListedExactly(list, u);
    }
    hide Listed, UuidsFrom, UuidAt, SameUuid, AllInStep, Regular;
    var all := ServiceUuids(list);
    forall i: nat | i < |all|
      ensures UuidNumber(list, i) == all[i]
    {
      assert UuidAt(list, INCOMP_UUIDS16, i + 1) == all[i];
    }
    if u :| u in all && SameUuid(uuid, u) {
      var i: nat :| i < |all| && all[i] == u;
      assert SameUuid(uuid, UuidNumber(list, i));
    }
  }

  /** What the battery client relies on: asked for the long form of a UUID that a device lists in two bytes, the device
      says yes. */
  method FindsShortForm(device: NimBLEAdvertisedDevice, a: byte, b: byte) returns (found: bool)
    requires var list := Structures(device.payload);
      Regular(list) && |ServiceUuids(list)| < 256 && AllInStep(list, INCOMP_UUIDS16) && Listed(list, [a, b])
    ensures found
  {
    hide Structures, Regular, AllInStep, UuidsFrom, Listed, SameUuid;
    ShortFormsAreSame(a, b, 0, 0);
    found := device.IsAdvertisingService(
      [0xfb, 0x34, 0x9b, 0x5f, 0x80, 0x00, 0x00, 0x80, 0x00, 0x10, 0x00, 0x00, a, b, 0x00, 0x00]);
  }

  function EntriesOf(list: seq<Structure>, kind: byte): nat {
    if list == [] then 0 else (if list[0].kind == kind then Entries(list[0]) else 0) + EntriesOf(list[1..], kind)
  }

  function EntriesFrom(list: seq<Structure>, kind: byte): nat
    decreases COMP_UUIDS128 - kind
  {
    if !IsList(kind) then 0 else EntriesOf(list, kind) + EntriesFrom(list, kind + 1)
  }

  lemma {:induction false} EntriesOfUuids(list: seq<Structure>, kind: byte)
    requires IsList(kind) && Regular(list)
    ensures EntriesOf(list, kind) == |UuidsOf(list, kind)|
  {
    hide Chunks, Entries, IsRegular;
    if list == [] {
    } else {
      assert list[0] in list;
      if list[0].kind == kind {
        RegularEntries(list[0]);
      }
      EntriesOfUuids(list[1..], kind);
    }
  }

  lemma {:induction false} EntriesAreUuids(list: seq<Structure>, kind: byte)
    requires Regular(list)
    ensures EntriesFrom(list, kind) == |UuidsFrom(list, kind)|
    decreases COMP_UUIDS128 - kind
  {
    hide EntriesOf, UuidsOf, Regular;
    if IsList(kind) {
      EntriesOfUuids(list, kind);
      EntriesAreUuids(list, kind + 1);
    }
  }

  lemma AddMod8(a: nat, b: nat)
    ensures Mod8(a + b) == (Mod8(a) + Mod8(b)) % 256
  {
  }

  lemma ZeroMod8()
    ensures Mod8(0) == 0
  {
  }

  lemma SmallMod8(n: nat)
    requires n < 256
    ensures Mod8(n) == n
  {
  }

  /** A step of the walk at a place in a payload. */
  lemma StructuresAt(p: seq<byte>, at: nat)
    requires at <= |p|
    ensures |p| - at <= 2 || at + p[at] >= |p| ==> Structures(p[at..]) == []
    ensures |p| - at > 2 && at + p[at] < |p| ==>
      Structures(p[at..]) == [FieldAt(p, at)] + Structures(p[at + 1 + p[at]..])
  {
    var q := p[at..];
    if |q| > 2 {
      assert q[0] == p[at];
      if q[0] < |q| {
        FieldShift(p, at);
        assert q[1 + q[0]..] == p[at + 1 + p[at]..];
        StructuresOf(q);
      }
    }
  }

  lemma FieldShift(p: seq<byte>, at: nat)
    requires IsField(p, at)
    ensures FieldAt(p[at..], 0) == FieldAt(p, at)
  {
    var q := p[at..];
    assert p[at] > 0 ==> q[2..1 + q[0]] == p[at + 2..at + 1 + p[at]];
  }

  lemma SubSlice(p: seq<byte>, from: nat, to: nat, lo: nat, hi: nat)
    requires from <= to <= |p| && lo <= hi <= to - from
    ensures p[from + lo..from + hi] == p[from..to][lo..hi]
  {
    var part := p[from..to];
    assert forall k | 0 <= k < hi - lo :: part[lo..hi][k] == part[lo + k] == p[from + (lo + k)];
  }

  lemma SubField(p: seq<byte>, at: nat, lo: nat, hi: nat)
    requires IsField(p, at) && lo <= hi < p[at]
    ensures p[at + 2 + lo..at + 2 + hi] == FieldAt(p, at).data[lo..hi]
  {
    var end: nat := p[at];
    assert FieldAt(p, at).data == p[at + 2..at + 1 + end];
    SubSlice(p, at + 2, at + 1 + end, lo, hi);
  }

  lemma CountIsEntries(p: seq<byte>, at: nat)
    requires IsField(p, at)
    ensures CountOf(p[at + 1], p[at]) == Entries(FieldAt(p, at)) && FieldAt(p, at).kind == p[at + 1]
  {
  }

  lemma SeekEnd(list: seq<Structure>, kind: byte, index: Option<byte>, count: byte)
    requires list == []
    ensures Seek(list, kind, index, count) == (0, count)
  {
  }

  lemma SeekStep(list: seq<Structure>, kind: byte, index: Option<byte>, count: byte)
    requires list != []
    ensures var c: byte := if list[0].kind == kind then (count + Entries(list[0])) % 256 else count;
      Seek(list, kind, index, count)
        == if list[0].kind == kind && index.Some? && (index.value == 0 || c >= index.value) then (0, c)
           else Next(Seek(list[1..], kind, index, c))
  {
    hide Entries;
  }

  function Shift(n: nat, r: (nat, byte)): (nat, byte) {
    (n + r.0, r.1)
  }

  function Plus8(count: byte, n: nat): byte {
    Mod8(count + n)
  }

  /** What a field of this length adds to the count. */
  function CountOf(kind: byte, length: byte): nat {
    if kind == INCOMP_UUIDS16 || kind == COMP_UUIDS16 then length / 2
    else if kind == INCOMP_UUIDS32 || kind == COMP_UUIDS32 then length / 4
    else if kind == INCOMP_UUIDS128 || kind == COMP_UUIDS128 then length / 16
    else if kind == PUBLIC_TGT_ADDR || kind == RANDOM_TGT_ADDR then length / 6
    else 1
  }

  lemma PickIs(s: Structure, w: nat, count: byte, number: byte, index: nat)
    requires IsList(s.kind) && w == Width(s.kind) && 0 < index
    requires var length := |s.data| + 1;
      index == if length < number * w then number - (count - length / w) else number
    ensures 0 <= w * (index - 1) <= w * index
    ensures Pick(s, count, number)
         == if |s.data| + 1 > w * index then s.data[w * (index - 1)..w * index] else []
  {
    assert w in {2, 4, 16};
    Multiples(w, 0, index);
    hide Width;
  }

  lemma NoMoreKinds(list: seq<Structure>, number: byte)
    ensures UuidAt(list, COMP_UUIDS128 + 1, number) == []
  {
  }

  /** The walk has come to a place and to a position in the list of structures, with this count. */
  ghost predicate Walking(p: seq<byte>, at: nat, position: nat, kind: byte, index: Option<byte>, count: byte) {
    var list := Structures(p);
    && at <= |p|
    && position <= |list|
    && list[position..] == Structures(p[at..])
    && Seek(list, kind, index, 0) == Shift(position, Seek(list[position..], kind, index, count))
  }

  lemma WalkStart(p: seq<byte>, kind: byte, index: Option<byte>)
    ensures Walking(p, 0, 0, kind, index, 0)
  {
    assert p[0..] == p;
  }

  lemma WalkEnd(p: seq<byte>, at: nat, position: nat, kind: byte, index: Option<byte>, count: byte)
    requires Walking(p, at, position, kind, index, count)
    requires |p| - at <= 2 || at + p[at] >= |p|
    ensures Seek(Structures(p), kind, index, 0) == (|Structures(p)|, count)
  {
    StructuresAt(p, at);
    SeekEnd(Structures(p)[position..], kind, index, count);
  }

  predicate Stops(kind: byte, index: Option<byte>, field: byte, count: byte) {
    field == kind && index.Some? && (index.value == 0 || count >= index.value)
  }

  lemma WalkStep(p: seq<byte>, at: nat, position: nat, kind: byte, index: Option<byte>, count: byte)
    requires Walking(p, at, position, kind, index, count) && |p| - at > 2 && at + p[at] < |p|
    ensures var c: byte := if p[at + 1] == kind then Plus8(count, CountOf(kind, p[at])) else count;
      if Stops(kind, index, p[at + 1], c) then
        && position < |Structures(p)|
        && Structures(p)[position] == FieldAt(p, at)
        && Seek(Structures(p), kind, index, 0) == (position, c)
      else
        Walking(p, at + 1 + p[at], position + 1, kind, index, c)
  {
    hide Structures, Seek, FieldAt, CountOf, Entries;
    StructuresAt(p, at);
    CountIsEntries(p, at);
    var list := Structures(p);
    var rest := list[position..];
    SeekStep(rest, kind, index, count);
    assert list[position] == rest[0] && rest[1..] == list[position + 1..];
  }

  /** Without an index all entries are counted, modulo 256. */
  lemma {:induction false} SeekAll(list: seq<Structure>, kind: byte, count: byte)
    ensures Seek(list, kind, None, count).1 == Mod8(count + EntriesOf(list, kind))
  {
    hide Entries, Mod8;
    if list == [] {
      SmallMod8(count);
    } else if list[0].kind == kind {
      var n := Entries(list[0]);
      SeekAll(list[1..], kind, (count + n) % 256);
      Mod8Twice(count + n, EntriesOf(list[1..], kind));
    } else {
      SeekAll(list[1..], kind, count);
    }
  }

  lemma Mod8Twice(a: nat, b: nat)
    ensures Mod8(a % 256 + b) == Mod8(a + b)
  {
  }
}
