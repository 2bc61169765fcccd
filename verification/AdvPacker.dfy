/** Filling a legacy advertisement from the service UUIDs and the name: as many UUIDs as fit, then the name, in the
    advertisement or in the scan response. */
module AdvPacker {
  import opened Bytes
  import opened AdvFields
  import opened AdvServices
  import opened AdvBuilder
  import opened AdvertisedDevice

  type Value = v: seq<byte> | |v| < 256

  type ServiceUuid = u: Uuid | IsWidth(|u|) witness [0, 0]

  datatype UuidList = UuidList(uuids: seq<Uuid>, complete: bool)

  datatype Lists = Lists(u16: UuidList, u32: UuidList, u128: UuidList) {
    function Get(w: nat): UuidList {
      if w == 2 then u16 else if w == 4 then u32 else u128
    }

    function Set(w: nat, l: UuidList): Lists {
      if w == 2 then this.(u16 := l) else if w == 4 then this.(u32 := l) else this.(u128 := l)
    }
  }

  /** The 255 bytes at a pointer to a name: the name, and whatever follows it in memory. */
  type Memory = m: seq<byte> | |m| == 255 witness seq(255, i => 0)

  /** The fields given to the host. An empty value is a field that is left out. The name may be a null pointer; what
      is sent of it are its first `nameLen` bytes, however long it is. */
  datatype Fields = Fields(flags: byte, lists: Lists, name: Option<Memory>, nameLen: byte, nameComplete: bool,
                           txPower: Option<byte>, interval: Option<(uint16, uint16)>, appearance: Option<uint16>,
                           data16: Value, data32: Value, data128: Value, uri: Value, manufacturer: Value)

  // ----- the size of an advertisement -----

  /** A field that is not empty. */
  function Size(s: Structure): nat {
    if s.data == [] then 0 else 2 + |s.data|
  }

  function Total(list: seq<Structure>): nat {
    if list == [] then 0 else Size(list[0]) + Total(list[1..])
  }

  /** The fields that are not empty. */
  function Present(list: seq<Structure>): seq<Structure> {
    if list == [] then [] else (if list[0].data == [] then [] else [list[0]]) + Present(list[1..])
  }

  lemma {:induction false} PresentSize(list: seq<Structure>)
    ensures |EncodeAll(Present(list))| == Total(list)
  {
    if list == [] {
    } else {
      PresentSize(list[1..]);
      if list[0].data != [] {
        assert Present(list)[1..] == Present(list[1..]);
      } else {
        assert Present(list) == Present(list[1..]);
      }
    }
  }

  lemma {:induction false} TotalAppend(a: seq<Structure>, b: seq<Structure>)
    ensures Total(a + b) == Total(a) + Total(b)
  {
    if a == [] {
      assert a + b == b;
    } else {
      assert (a + b)[1..] == a[1..] + b;
      TotalAppend(a[1..], b);
    }
  }

  function FlagsOf(f: Fields): Structure {
    Structure(FLAGS, if f.flags == 0 then [] else [f.flags])
  }

  function ListOf(l: UuidList, w: nat): Structure {
    Structure(ServicesKind(l.complete, w), Flatten(l.uuids))
  }

  function SentName(f: Fields): seq<byte> {
    if f.name.None? then [] else f.name.value[..f.nameLen]
  }

  function NameOf(f: Fields): Structure {
    Structure(if f.nameComplete then COMP_NAME else INCOMP_NAME, SentName(f))
  }

  function TxPowerOf(f: Fields): Structure {
    Structure(TX_PWR_LVL, if f.txPower.None? then [] else [f.txPower.value])
  }

  function IntervalOf(f: Fields): Structure {
    Structure(SLAVE_ITVL_RANGE,
              if f.interval.None? then [] else Little16(f.interval.value.0) + Little16(f.interval.value.1))
  }

  function AppearanceOf(f: Fields): Structure {
    Structure(APPEARANCE, if f.appearance.None? then [] else Little16(f.appearance.value))
  }

  /** The host leaves out manufacturer data of one byte; the packer counts it. */
  function ManufacturerOf(f: Fields): Structure {
    Structure(MFG_DATA, if |f.manufacturer| >= 2 then f.manufacturer else [])
  }

  function Ignored(f: Fields): nat {
    if |f.manufacturer| == 1 then 3 else 0
  }

  function ListsOf(l: Lists): seq<Structure> {
    [ListOf(l.u16, 2), ListOf(l.u32, 4), ListOf(l.u128, 16)]
  }

  /** The fields after the name, in the order of the host. */
  function Rest(f: Fields): seq<Structure> {
    [TxPowerOf(f), IntervalOf(f), Structure(SVC_DATA_UUID16, f.data16), AppearanceOf(f),
     Structure(SVC_DATA_UUID32, f.data32), Structure(SVC_DATA_UUID128, f.data128),
     Structure(URI, f.uri), ManufacturerOf(f)]
  }

  function AllOf(f: Fields): seq<Structure> {
    [FlagsOf(f)] + ListsOf(f.lists) + [NameOf(f)] + Rest(f)
  }

  function FixedSize(f: Fields): nat {
    Size(FlagsOf(f)) + Size(Structure(MFG_DATA, f.manufacturer)) + Size(Structure(SVC_DATA_UUID16, f.data16))
    + Size(Structure(SVC_DATA_UUID32, f.data32)) + Size(Structure(SVC_DATA_UUID128, f.data128))
    + Size(Structure(URI, f.uri)) + Size(AppearanceOf(f)) + Size(TxPowerOf(f)) + Size(IntervalOf(f))
  }

  function ListsSize(l: Lists): nat {
    Size(ListOf(l.u16, 2)) + Size(ListOf(l.u32, 4)) + Size(ListOf(l.u128, 16))
  }

  /** The host leaves out a name that is a null pointer, whatever its length. */
  function NameSize(f: Fields): nat {
    if f.name.None? || f.nameLen == 0 then 0 else 2 + f.nameLen
  }

  lemma NameSizeIs(f: Fields)
    ensures Size(NameOf(f)) == NameSize(f)
  {
  }

  /** The size with the fixed fields as the packer counts them. */
  function FieldsSize(f: Fields): nat {
    FixedSize(f) + ListsSize(f.lists) + NameSize(f)
  }

  /** The size as the host lays it out. */
  function HostSize(f: Fields): nat {
    assert Ignored(f) <= Size(Structure(MFG_DATA, f.manufacturer));
    FieldsSize(f) - Ignored(f)
  }

  /** What the host makes of the fields: the bytes, or nothing if they exceed 31. */
  function SetFields(f: Fields): Option<seq<byte>> {
    if HostSize(f) <= MAX_SIZE then Some(EncodeAll(Present(AllOf(f)))) else None
  }

  lemma SizeOfAll(f: Fields)
    ensures |EncodeAll(Present(AllOf(f)))| == HostSize(f)
  {
    PresentSize(AllOf(f));
    TotalAppend([FlagsOf(f)] + ListsOf(f.lists) + [NameOf(f)], Rest(f));
    TotalAppend([FlagsOf(f)] + ListsOf(f.lists), [NameOf(f)]);
    TotalAppend([FlagsOf(f)], ListsOf(f.lists));
    TotalOne(FlagsOf(f));
    TotalOne(NameOf(f));
    NameSizeIs(f);
    TotalThree(ListOf(f.lists.u16, 2), ListOf(f.lists.u32, 4), ListOf(f.lists.u128, 16));
    var r := Rest(f);
    TotalFour(r[0], r[1], r[2], r[3]);
    TotalFour(r[4], r[5], r[6], r[7]);
    assert r == [r[0], r[1], r[2], r[3]] + [r[4], r[5], r[6], r[7]];
    TotalAppend([r[0], r[1], r[2], r[3]], [r[4], r[5], r[6], r[7]]);
    assert Size(r[7]) == Size(Structure(MFG_DATA, f.manufacturer)) - Ignored(f);
    hide Total, ListsOf, FlagsOf, ManufacturerOf, Ignored, TxPowerOf, IntervalOf, AppearanceOf;
    hide ListOf, NameOf, NameSize, EncodeAll, Present;
  }

  /** The count of the packer is the size the host needs, unless there is one byte of manufacturer data. */
  lemma CountedIsEncoded(f: Fields)
    ensures |EncodeAll(Present(AllOf(f)))| == FieldsSize(f) <==> |f.manufacturer| != 1
  {
    SizeOfAll(f);
    hide AllOf, EncodeAll, Present, FieldsSize;
  }

  lemma TotalOne(a: Structure)
    ensures Total([a]) == Size(a)
  {
  }

  lemma TotalThree(a: Structure, b: Structure, c: Structure)
    ensures Total([a, b, c]) == Size(a) + Size(b) + Size(c)
  {
    assert [a, b, c] == [a] + ([b] + [c]);
    TotalAppend([a], [b] + [c]);
    TotalAppend([b], [c]);
  }

  lemma TotalFour(a: Structure, b: Structure, c: Structure, d: Structure)
    ensures Total([a, b, c, d]) == Size(a) + Size(b) + Size(c) + Size(d)
  {
    TotalThree(b, c, d);
    assert [a, b, c, d] == [a] + [b, c, d];
    TotalAppend([a], [b, c, d]);
  }

  // ----- the UUIDs -----

  /** The bytes that one more UUID takes. */
  function Room(l: UuidList, w: nat): nat {
    if l.uuids == [] then w + 2 else w
  }

  function Place(len: nat, l: Lists, u: ServiceUuid): (nat, Lists) {
    var w := |u|;
    var own := l.Get(w);
    if len + Room(own, w) > MAX_SIZE then (len, l.Set(w, own.(complete := false)))
    else (len + Room(own, w), l.Set(w, UuidList(own.uuids + [u], true)))
  }

  function PlaceAll(len: nat, l: Lists, uuids: seq<ServiceUuid>): (nat, Lists) {
    if uuids == [] then (len, l)
    else
      var before := PlaceAll(len, l, uuids[..|uuids| - 1]);
      Place(before.0, before.1, uuids[|uuids| - 1])
  }

  function OfWidth(uuids: seq<ServiceUuid>, w: nat): seq<Uuid> {
    if uuids == [] then []
    else OfWidth(uuids[..|uuids| - 1], w) + if |uuids[|uuids| - 1]| == w then [uuids[|uuids| - 1]] else []
  }

  ghost predicate Empty(l: Lists) {
    l.u16.uuids == l.u32.uuids == l.u128.uuids == []
  }

  /** The UUIDs of one width in an advertisement of `len` bytes: the first ones that are wanted; marked complete if
      they are all; and if they are not all, the next one does not fit. */
  ghost predicate Greedy(len: nat, l: UuidList, wanted: seq<Uuid>, w: nat) {
    && AllOfWidth(l.uuids, w)
    && l.uuids <= wanted
    && (wanted != [] ==> (l.complete <==> l.uuids == wanted))
    && (l.uuids != wanted ==> len + (if l.uuids == [] then 2 + w else w) > 31)
  }

  ghost predicate Packed(start: nat, len: nat, l: Lists, uuids: seq<ServiceUuid>) {
    && len == start + ListsSize(l)
    && len <= (if start <= 31 then 31 else start)
    && Greedy(len, l.u16, OfWidth(uuids, 2), 2)
    && Greedy(len, l.u32, OfWidth(uuids, 4), 4)
    && Greedy(len, l.u128, OfWidth(uuids, 16), 16)
  }

  lemma ListGrows(l: UuidList, u: Uuid, w: nat)
    requires |u| == w > 0
    ensures Size(ListOf(UuidList(l.uuids + [u], true), w)) == Size(ListOf(l, w)) + Room(l, w)
            || (l.uuids != [] && Flatten(l.uuids) == [])
  {
    FlattenNext(l.uuids + [u], |l.uuids|);
    assert (l.uuids + [u])[..|l.uuids|] == l.uuids && (l.uuids + [u])[..|l.uuids| + 1] == l.uuids + [u];
  }

  lemma ListKeepsSize(l: UuidList, w: nat)
    ensures Size(ListOf(l.(complete := false), w)) == Size(ListOf(l, w))
  {
  }

  lemma GreedyNext(len: nat, l: UuidList, wanted: seq<Uuid>, w: nat, u: Uuid)
    requires Greedy(len, l, wanted, w) && |u| == w && w > 0
    ensures len + Room(l, w) > 31 ==>
      Greedy(len, l.(complete := false), wanted + [u], w)
    ensures len + Room(l, w) <= 31 ==>
      && Greedy(len + Room(l, w), UuidList(l.uuids + [u], true), wanted + [u], w)
      && Size(ListOf(UuidList(l.uuids + [u], true), w)) == Size(ListOf(l, w)) + Room(l, w)
  {
    if len + Room(l, w) <= MAX_SIZE {
      assert l.uuids == wanted;
      FlattenWidth(l.uuids, w);
      ListGrows(l, u, w);
    } else {
      assert |l.uuids| < |wanted + [u]| && l.uuids <= wanted + [u];
    }
  }

  lemma PlaceKeeps(start: nat, len: nat, l: Lists, uuids: seq<ServiceUuid>, u: ServiceUuid)
    requires Packed(start, len, l, uuids)
    ensures var r := Place(len, l, u);
      Packed(start, r.0, r.1, uuids + [u])
  {
    hide OfWidth, Greedy, ListOf, Size, Room;
    var w, r := |u|, Place(len, l, u);
    OfWidthLast(uuids, u, 2);
    OfWidthLast(uuids, u, 4);
    OfWidthLast(uuids, u, 16);
    GreedyNext(len, l.Get(w), OfWidth(uuids, w), w, u);
    ListKeepsSize(l.Get(w), w);
    GreedyLater(len, r.0, l.u16, OfWidth(uuids, 2), 2);
    GreedyLater(len, r.0, l.u32, OfWidth(uuids, 4), 4);
    GreedyLater(len, r.0, l.u128, OfWidth(uuids, 16), 16);
  }

  lemma GreedyLater(len: nat, later: nat, l: UuidList, wanted: seq<Uuid>, w: nat)
    requires Greedy(len, l, wanted, w) && len <= later
    ensures Greedy(later, l, wanted, w)
  {
  }

  lemma OfWidthLast(uuids: seq<ServiceUuid>, u: ServiceUuid, w: nat)
    ensures OfWidth(uuids + [u], w) == if |u| == w then OfWidth(uuids, w) + [u] else OfWidth(uuids, w)
  {
    assert (uuids + [u])[..|uuids|] == uuids;
  }

  /** The packing is exact: the length is the size of what was put in, it stays within 31 bytes if the fixed fields
      do, and every width is packed greedily. */
  lemma {:induction false} PackingIsExact(start: nat, l: Lists, uuids: seq<ServiceUuid>)
    requires Empty(l)
    ensures var r := PlaceAll(start, l, uuids);
      Packed(start, r.0, r.1, uuids)
  {
    hide Packed, Place, PlaceAll, Empty;
    PlaceLast(start, l, uuids);
    if uuids == [] {
      NothingPacked(start, l);
    } else {
      var n := |uuids| - 1;
      var before := PlaceAll(start, l, uuids[..n]);
      PackingIsExact(start, l, uuids[..n]);
      PlaceKeeps(start, before.0, before.1, uuids[..n], uuids[n]);
      assert uuids[..n] + [uuids[n]] == uuids;
    }
  }

  lemma PlaceLast(start: nat, l: Lists, uuids: seq<ServiceUuid>)
    ensures PlaceAll(start, l, uuids) ==
      if uuids == [] then (start, l)
      else
        var before := PlaceAll(start, l, uuids[..|uuids| - 1]);
        Place(before.0, before.1, uuids[|uuids| - 1])
  {
    hide Place;
  }

  lemma NothingPacked(start: nat, l: Lists)
    requires Empty(l)
    ensures Packed(start, start, l, [])
  {
    assert Flatten<byte>([]) == [];
  }

  // ----- the name -----

  function WithoutTxPower(f: Fields, len: byte): byte {
    if f.txPower.Some? then (len - 3) % 256 else len
  }

  /** The fields after the name found its place, in an advertisement of `len` bytes without it. */
  function Placed(f: Fields, len: byte, useScan: bool): Fields {
    if len + 2 + f.nameLen <= MAX_SIZE then f
    else if useScan then f.(name := None, nameLen := 0, nameComplete := false)
    else
      var room, g := MAX_SIZE - WithoutTxPower(f, len) - 2, f.(txPower := None);
      if f.nameLen > room then g.(nameLen := room % 256, nameComplete := false) else g
  }

  /** The fields of the scan response after that: the name may have moved there, cut to what fits. */
  function Response(f: Fields, scan: Fields, len: byte, useScan: bool): Fields {
    if len + 2 + f.nameLen <= MAX_SIZE || !useScan then scan
    else
      var room := MAX_SIZE - 2;
      scan.(name := f.name, nameLen := Min(f.nameLen, room), nameComplete := f.nameLen <= room)
  }

  /** The advertisement can be sent: with the name; or without, because it goes to the scan response or is a null
      pointer; or at least two bytes are left when the transmission power is dropped. */
  predicate HasRoom(f: Fields, len: byte, useScan: bool) {
    || len + 2 + f.nameLen <= MAX_SIZE
    || (if useScan then len <= MAX_SIZE + Ignored(f)
        else WithoutTxPower(f, len) <= if f.name.None? then MAX_SIZE + Ignored(f) else MAX_SIZE - 2)
  }

  lemma PlacedFits(f: Fields, len: byte, useScan: bool)
    requires len == FixedSize(f) + ListsSize(f.lists)
    ensures HostSize(Placed(f, len, useScan)) <= 31 <==> HasRoom(f, len, useScan)
  {
    var g, lean := Placed(f, len, useScan), f.(txPower := None);
    WithoutPower(f);
    assert FixedSize(lean) + ListsSize(f.lists) == WithoutTxPower(f, len);
    NameOnly(f, g.name, g.nameLen, g.nameComplete);
    NameOnly(lean, g.name, g.nameLen, g.nameComplete);
    hide FixedSize, ListsSize, WithoutTxPower;
    if len + 2 + f.nameLen <= MAX_SIZE {
      assert g == f;
    } else if useScan {
      assert FixedSize(g) == FixedSize(f) && g.nameLen == 0;
    } else {
      CutFits(f, len);
    }
  }

  lemma CutFits(f: Fields, len: byte)
    requires len + 2 + f.nameLen > 31
    requires FixedSize(f.(txPower := None)) + ListsSize(f.lists) == WithoutTxPower(f, len)
    ensures HostSize(Placed(f, len, false)) <= 31 <==> HasRoom(f, len, false)
  {
    var g, lean, p := Placed(f, len, false), f.(txPower := None), WithoutTxPower(f, len);
    NameOnly(lean, g.name, g.nameLen, g.nameComplete);
    assert FixedSize(g) == FixedSize(lean);
    hide FixedSize, ListsSize, WithoutTxPower;
    var room := MAX_SIZE - p - 2;
    if f.nameLen > room {
      assert g.nameLen == if room >= 0 then room else room + 256;
    }
    if f.name.None? {
      assert HostSize(g) == p - Ignored(f);
    }
  }

  lemma WithoutPower(f: Fields)
    ensures FixedSize(f.(txPower := None)) == if f.txPower.Some? then FixedSize(f) - 3 else FixedSize(f)
  {
  }

  /** A name that is cut down fills the advertisement, unless not one byte of it fits. */
  lemma CutNameFills(f: Fields, len: byte)
    requires len == FixedSize(f) + ListsSize(f.lists) && HasRoom(f, len, false)
    requires f.name.Some? && Placed(f, len, false).nameLen < f.nameLen
    ensures var g := Placed(f, len, false);
      HostSize(g) == (if g.nameLen > 0 then 31 else 29) - Ignored(f)
  {
    var g, lean := Placed(f, len, false), f.(txPower := None);
    WithoutPower(f);
    NameOnly(lean, g.name, g.nameLen, g.nameComplete);
    hide FixedSize, ListsSize;
  }

  /** An empty name, nothing to shorten, and one byte left: the length of the name wraps to 255. With a name to
      point to, nothing is sent; with a null pointer, everything is. */
  lemma NamelessRefused(f: Fields)
    requires FixedSize(f) == 30 && Empty(f.lists) && f.nameLen == 0 && f.txPower.None?
    ensures Placed(f, 30, false).nameLen == 255
    ensures HostSize(f) <= 31
    ensures HostSize(Placed(f, 30, false)) <= 31 <==> f.name.None?
  {
    assert Flatten<byte>([]) == [];
    assert ListsSize(f.lists) == 0;
    PlacedFits(f, 30, false);
  }

  /** What a later `start` does after a refusal for want of room, with other fields but the same name: once there is
      room it fills it from the memory at the name, however short the name was. */
  lemma AfterRefusal(f: Fields, len: byte, later: Fields, laterLen: byte)
    requires len == FixedSize(f) + ListsSize(f.lists) && f.name.Some? && !HasRoom(f, len, false)
    requires later.name == f.name && later.nameLen == Placed(f, len, false).nameLen
    requires laterLen == FixedSize(later) + ListsSize(later.lists) && HasRoom(later, laterLen, false)
    ensures var g := Placed(later, laterLen, false);
      SentName(g) == f.name.value[..29 - WithoutTxPower(later, laterLen)]
  {
    hide FixedSize, ListsSize, Placed, HasRoom, SentName, WithoutTxPower;
    RefusedLength(f, len);
    LongNameCut(later, laterLen);
  }

  lemma RefusedLength(f: Fields, len: byte)
    requires len == FixedSize(f) + ListsSize(f.lists) && f.name.Some? && !HasRoom(f, len, false)
    ensures Placed(f, len, false).nameLen >= 30
  {
    WithoutPower(f);
    hide FixedSize, ListsSize;
  }

  lemma LongNameCut(f: Fields, len: byte)
    requires f.name.Some? && f.nameLen >= 30 && HasRoom(f, len, false)
    ensures 0 <= 29 - WithoutTxPower(f, len)
    ensures SentName(Placed(f, len, false)) == f.name.value[..29 - WithoutTxPower(f, len)]
  {
  }

  /** The sizes of the fixed fields in the order in which they are added up. */
  function FixedSizes(f: Fields): seq<nat> {
    [Size(FlagsOf(f)), Size(Structure(MFG_DATA, f.manufacturer)), Size(Structure(SVC_DATA_UUID16, f.data16)),
     Size(Structure(SVC_DATA_UUID32, f.data32)), Size(Structure(SVC_DATA_UUID128, f.data128)),
     Size(Structure(URI, f.uri)), Size(AppearanceOf(f)), Size(TxPowerOf(f)), Size(IntervalOf(f))]
  }

  lemma FixedSizeIs(f: Fields)
    ensures FixedSize(f) == Sum(FixedSizes(f))
  {
    SumOfNine(FixedSizes(f));
    hide FlagsOf, AppearanceOf, TxPowerOf, IntervalOf, Size, Sum;
  }

  lemma FixedSizeValues(f: Fields)
    ensures var s := FixedSizes(f);
      && |s| == 9
      && s[0] == (if f.flags > 0 then 3 else 0)
      && s[1] == (if |f.manufacturer| > 0 then 2 + |f.manufacturer| else 0)
      && s[2] == (if |f.data16| > 0 then 2 + |f.data16| else 0)
      && s[3] == (if |f.data32| > 0 then 2 + |f.data32| else 0)
      && s[4] == (if |f.data128| > 0 then 2 + |f.data128| else 0)
      && s[5] == (if |f.uri| > 0 then 2 + |f.uri| else 0)
      && s[6] == (if f.appearance.Some? then 4 else 0)
      && s[7] == (if f.txPower.Some? then 3 else 0)
      && s[8] == (if f.interval.Some? then 6 else 0)
  {
  }

  lemma SumOfNine(s: seq<nat>)
    requires |s| == 9
    ensures Sum(s) == s[0] + s[1] + s[2] + s[3] + s[4] + s[5] + s[6] + s[7] + s[8]
  {
    hide Sum;
    SumStart(s);
    SumNext(s, 0);
    SumNext(s, 1);
    SumNext(s, 2);
    SumNext(s, 3);
    SumNext(s, 4);
    SumNext(s, 5);
    SumNext(s, 6);
    SumNext(s, 7);
    SumNext(s, 8);
    assert s[..9] == s;
  }

  lemma SumStart(s: seq<nat>)
    ensures Sum(s[..0]) == 0
  {
  }

  lemma NameOnly(f: Fields, name: Option<Memory>, nameLen: byte, complete: bool)
    ensures FixedSize(f.(name := name, nameLen := nameLen, nameComplete := complete)) == FixedSize(f)
  {
  }

  class NimBLEAdvertising {
    var advData: Fields
    var scanData: Fields
    var serviceUUIDs: seq<ServiceUuid>
    var useScan: bool

    constructor (advData: Fields, scanData: Fields, serviceUUIDs: seq<ServiceUuid>, useScan: bool)
      ensures this.advData == advData && this.scanData == scanData
      ensures this.serviceUUIDs == serviceUUIDs && this.useScan == useScan
    {
      this.advData, this.scanData, this.serviceUUIDs, this.useScan := advData, scanData, serviceUUIDs, useScan;
    }

    /** Between two calls of `start`: no UUIDs are left over, and the scan response holds a name at most. */
    ghost predicate Idle()
      reads this
    {
      && Empty(advData.lists)
      && FixedSize(scanData) == ListsSize(scanData.lists) == 0
      && scanData.nameLen <= 29
    }

    /** The bytes of the fields without a list of UUIDs and without the name, in 8 bits. */
    method FixedLength() returns (payloadLen: byte)
      ensures payloadLen == Mod8(FixedSize(advData))
    {
      hide FixedSize;
      hide Sum;
      FixedSizeIs(advData);
      FixedSizeValues(advData);
      ghost var sizes := FixedSizes(advData);
      hide FixedSizes;
      SumStart(sizes);
      SumNext(sizes, 0);
      payloadLen := if advData.flags > 0 then 3 else 0;
      payloadLen := AddValue(payloadLen, |advData.manufacturer|, sizes, 1);
      payloadLen := AddValue(payloadLen, |advData.data16|, sizes, 2);
      payloadLen := AddValue(payloadLen, |advData.data32|, sizes, 3);
      payloadLen := AddValue(payloadLen, |advData.data128|, sizes, 4);
      payloadLen := AddValue(payloadLen, |advData.uri|, sizes, 5);
      payloadLen := AddValue(payloadLen, if advData.appearance.Some? then 2 else 0, sizes, 6);
      payloadLen := AddValue(payloadLen, if advData.txPower.Some? then 1 else 0, sizes, 7);
      payloadLen := AddValue(payloadLen, if advData.interval.Some? then 4 else 0, sizes, 8);
      assert sizes[..9] == sizes;
    }

    static method AddValue(before: byte, length: nat, ghost sizes: seq<nat>, ghost n: nat) returns (payloadLen: byte)
      requires n < |sizes| && sizes[n] == (if length > 0 then 2 + length else 0)
      requires before == Mod8(Sum(sizes[..n]))
      ensures payloadLen == Mod8(Sum(sizes[..n + 1]))
    {
      assert sizes[..n + 1][..n] == sizes[..n];
      payloadLen := if length > 0 then (before + 2 + length) % 256 else before;
    }

    /** Adds the service UUIDs in order, each to the list of its width if it fits. */
    method PackServices(start: byte) returns (payloadLen: byte)
      modifies `advData
      ensures var r := PlaceAll(start, old(advData.lists), serviceUUIDs);
        payloadLen == r.0 && advData == old(advData).(lists := r.1)
    {
      payloadLen := start;
      var i := 0;
      while i < |serviceUUIDs|
        invariant 0 <= i <= |serviceUUIDs|
        invariant var r := PlaceAll(start, old(advData.lists), serviceUUIDs[..i]);
          payloadLen == r.0 && advData == old(advData).(lists := r.1)
      {
        var uuid := serviceUUIDs[i];
        assert serviceUUIDs[..i + 1][..i] == serviceUUIDs[..i];
        payloadLen := PackService(payloadLen, uuid);
        i := i + 1;
      }
      assert serviceUUIDs[..i] == serviceUUIDs;
    }

    method PackService(start: byte, uuid: ServiceUuid) returns (payloadLen: byte)
      modifies `advData
      ensures var r := Place(start, old(advData.lists), uuid);
        payloadLen == r.0 && advData == old(advData).(lists := r.1)
    {
      payloadLen := start;
      if |uuid| == 2 {
        var add := if |advData.lists.u16.uuids| > 0 then 2 else 4;
        if payloadLen + add > MAX_SIZE {
          advData := advData.(lists := advData.lists.(u16 := advData.lists.u16.(complete := false)));
          return;
        }
        payloadLen := payloadLen + add;
        advData := advData.(lists := advData.lists.(u16 := UuidList(advData.lists.u16.uuids + [uuid], true)));
      }
      if |uuid| == 4 {
        var add := if |advData.lists.u32.uuids| > 0 then 4 else 6;
        if payloadLen + add > MAX_SIZE {
          advData := advData.(lists := advData.lists.(u32 := advData.lists.u32.(complete := false)));
          return;
        }
        payloadLen := payloadLen + add;
        advData := advData.(lists := advData.lists.(u32 := UuidList(advData.lists.u32.uuids + [uuid], true)));
      }
      if |uuid| == 16 {
        var add := if |advData.lists.u128.uuids| > 0 then 16 else 18;
        if payloadLen + add > MAX_SIZE {
          advData := advData.(lists := advData.lists.(u128 := advData.lists.u128.(complete := false)));
          return;
        }
        payloadLen := payloadLen + add;
        advData := advData.(lists := advData.lists.(u128 := UuidList(advData.lists.u128.uuids + [uuid], true)));
      }
    }

    /** Leaves the name where it is if there is room, moves it to the scan response, or cuts it down. */
    method PlaceName(start: byte)
      modifies `advData, `scanData
      ensures advData == Placed(old(advData), start, useScan)
      ensures scanData == Response(old(advData), old(scanData), start, useScan)
    {
      var payloadLen := start;
      if payloadLen + 2 + advData.nameLen > MAX_SIZE {
        if useScan {
          scanData := scanData.(name := advData.name, nameLen := advData.nameLen);
          if scanData.nameLen > MAX_SIZE - 2 {
            scanData := scanData.(nameLen := MAX_SIZE - 2, nameComplete := false);
          } else {
            scanData := scanData.(nameComplete := true);
          }
          advData := advData.(name := None, nameLen := 0, nameComplete := false);
        } else {
          if advData.txPower.Some? {
            advData := advData.(txPower := None);
            payloadLen := (payloadLen - 3) % 256;
          }
          if advData.nameLen > MAX_SIZE - payloadLen - 2 {
            advData := advData.(nameLen := (MAX_SIZE - payloadLen - 2) % 256, nameComplete := false);
          }
        }
      }
    }

    /** The part of `start` that fills the advertisement and the scan response and gives them to the host. */
    method StartData() returns (advert: Option<seq<byte>>, response: Option<seq<byte>>)
      requires Idle()
      modifies `advData, `scanData
      ensures Idle()
      ensures var f, fixed := old(advData), FixedSize(old(advData));
        var r := PlaceAll(Mod8(fixed), f.lists, serviceUUIDs);
        && r.0 < 256
        && (advert.Some? <==> fixed < 256 && HasRoom(f, r.0, useScan))
        && var g := Placed(f.(lists := r.1), r.0, useScan);
        && (advert.Some? ==> HostSize(g) <= 31 && advert == SetFields(g))
        && advData == g.(lists := Cleared(r.1))
        && scanData == Response(f, old(scanData), r.0, useScan)
      ensures response.Some? <==> useScan
      ensures useScan ==> |response.value| <= 31 && response == SetFields(scanData)
    {
      hide Placed, HasRoom, HostSize, FixedSize, ListsSize, PlaceAll, Greedy, SetFields, Mod8;
      var payloadLen := FixedLength();
      PackingIsExact(payloadLen, advData.lists, serviceUUIDs);
      ghost var f, scan := advData, scanData;
      payloadLen := PackServices(payloadLen);
      ghost var g := advData;
      SentIff(f, g, payloadLen, useScan);
      PlaceName(payloadLen);
      PlacedLists(g, payloadLen, useScan);
      NameOnly(scan, scanData.name, scanData.nameLen, scanData.nameComplete);
      advert, response := None, None;
      if useScan {
        ResponseFits(scanData);
        response := SetFields(scanData);
      }
      advert := SetFields(advData);
      SetFieldsIff(advData);
      advData := advData.(lists := Cleared(advData.lists));
    }
  }

  lemma PlacedLists(f: Fields, len: byte, useScan: bool)
    ensures Placed(f, len, useScan).lists == f.lists
  {
  }

  lemma SetFieldsIff(f: Fields)
    ensures SetFields(f).Some? <==> HostSize(f) <= 31
  {
    hide HostSize, AllOf, EncodeAll, Present;
  }

  function Cleared(l: Lists): Lists {
    Lists(l.u16.(uuids := []), l.u32.(uuids := []), l.u128.(uuids := []))
  }

  lemma ResponseFits(scan: Fields)
    requires FixedSize(scan) == ListsSize(scan.lists) == 0
    requires scan.nameLen <= 29
    ensures HostSize(scan) <= 31 && SetFields(scan).Some? && |SetFields(scan).value| <= 31
  {
    SizeOfAll(scan);
    hide AllOf, EncodeAll, Present;
  }

  lemma SentIff(f: Fields, g: Fields, len: byte, useScan: bool)
    requires g == f.(lists := g.lists) && len == Mod8(FixedSize(f)) + ListsSize(g.lists)
    ensures HostSize(Placed(g, len, useScan)) <= 31 <==> FixedSize(f) < 256 && HasRoom(f, len, useScan)
  {
    hide FixedSize, ListsSize, HostSize, Placed;
    ListsOnly(f, g.lists);
    if FixedSize(f) < 256 {
      assert Mod8(FixedSize(f)) == FixedSize(f);
      PlacedFits(g, len, useScan);
    } else {
      TooLong(g, len, useScan);
    }
  }

  lemma ListsOnly(f: Fields, l: Lists)
    ensures FixedSize(f.(lists := l)) == FixedSize(f)
  {
  }

  lemma TooLong(f: Fields, len: byte, useScan: bool)
    requires FixedSize(f) >= 256
    ensures HostSize(Placed(f, len, useScan)) > 31
  {
    var g, lean := Placed(f, len, useScan), f.(txPower := None);
    WithoutPower(f);
    NameOnly(f, g.name, g.nameLen, g.nameComplete);
    NameOnly(lean, g.name, g.nameLen, g.nameComplete);
    hide FixedSize, ListsSize;
  }

  // ----- what a scanner sees -----

  lemma {:induction false} PresentOnly(list: seq<Structure>, s: Structure)
    requires s in Present(list)
    ensures s in list && s.data != []
  {
    if list[0].data == [] || s != list[0] {
      PresentOnly(list[1..], s);
    }
  }

  lemma {:induction false} PresentUuids(list: seq<Structure>, kind: byte)
    requires IsList(kind)
    ensures UuidsOf(Present(list), kind) == UuidsOf(list, kind)
  {
    if list == [] {
    } else {
      PresentUuids(list[1..], kind);
      if list[0].data == [] {
        assert Present(list) == Present(list[1..]);
      } else {
        assert Present(list)[1..] == Present(list[1..]);
      }
      hide Present;
    }
  }

  lemma {:induction false} PresentOne(list: seq<Structure>)
    requires OneOfEach(list)
    ensures OneOfEach(Present(list))
  {
    if list == [] {
    } else {
      var later := Present(list[1..]);
      PresentOne(list[1..]);
      forall s | s in later
        ensures IsList(list[0].kind) ==> s.kind != list[0].kind
      {
        PresentOnly(list[1..], s);
      }
      if list[0].data == [] {
        assert Present(list) == later;
      } else {
        assert Present(list) == [list[0]] + later;
      }
      hide Present;
    }
  }

  lemma {:induction false} PresentFirst(list: seq<Structure>, kind: byte)
    requires forall i, j | 0 <= i < j < |list| && list[i].kind == kind :: list[j].kind != kind
    ensures First(Present(list), kind) ==
      match First(list, kind) case Some(v) => (if v == [] then None else Some(v)) case None => None
  {
    if list == [] {
    } else {
      PresentFirst(list[1..], kind);
      if list[0].data == [] {
        assert Present(list) == Present(list[1..]);
        if list[0].kind == kind {
          assert forall k | 0 <= k < |list[1..]| :: list[1..][k].kind != kind;
          NotFirst(list[1..], kind);
        }
      } else {
        assert Present(list)[1..] == Present(list[1..]);
      }
      hide Present;
    }
  }

  lemma {:induction false} NotFirst(list: seq<Structure>, kind: byte)
    requires forall k | 0 <= k < |list| :: list[k].kind != kind
    ensures First(list, kind) == None
  {
    if list == [] {
    } else {
      NotFirst(list[1..], kind);
    }
  }

  lemma {:induction false} NoUuids(list: seq<Structure>, kind: byte)
    requires IsList(kind) && forall k | 0 <= k < |list| :: list[k].kind != kind
    ensures UuidsOf(list, kind) == []
  {
    if list == [] {
    } else {
      NoUuids(list[1..], kind);
    }
  }

  lemma {:induction false} ChunksOfFlat(uuids: seq<Uuid>, w: nat)
    requires AllOfWidth(uuids, w) && w > 0
    ensures Chunks(Flatten(uuids), w) == uuids
  {
    if uuids == [] {
    } else {
      assert uuids[0] in uuids;
      assert forall u | u in uuids[1..] :: u in uuids;
      ChunksOfFlat(uuids[1..], w);
      var data := Flatten(uuids);
      assert data[..w] == uuids[0] && data[w..] == Flatten(uuids[1..]);
    }
  }

  ghost predicate OfTheirWidths(l: Lists) {
    AllOfWidth(l.u16.uuids, 2) && AllOfWidth(l.u32.uuids, 4) && AllOfWidth(l.u128.uuids, 16)
  }

  lemma ListIsRegular(l: UuidList, w: nat)
    requires AllOfWidth(l.uuids, w) && IsWidth(w)
    ensures IsList(ListOf(l, w).kind) && IsRegular(ListOf(l, w))
    ensures Width(ListOf(l, w).kind) == w && Chunks(ListOf(l, w).data, w) == l.uuids
  {
    ChunksOfFlat(l.uuids, w);
    FlattenWidth(l.uuids, w);
    hide Chunks, Flatten, AllOfWidth;
  }

  lemma RestKinds(f: Fields)
    ensures |Rest(f)| == 8
    ensures forall k | 0 <= k < 8 :: !IsList(Rest(f)[k].kind) && !IsName(Rest(f)[k].kind)
  {
  }

  predicate IsName(kind: byte) {
    kind == COMP_NAME || kind == INCOMP_NAME
  }

  lemma AllKinds(f: Fields)
    ensures var all := AllOf(f);
      && |all| == 13
      && all[1] == ListOf(f.lists.u16, 2)
      && all[2] == ListOf(f.lists.u32, 4)
      && all[3] == ListOf(f.lists.u128, 16)
      && all[4] == NameOf(f)
      && (forall k | 0 <= k < 13 && !(1 <= k <= 3) :: !IsList(all[k].kind))
      && (forall k | 0 <= k < 13 && k != 4 :: !IsName(all[k].kind))
  {
    RestKinds(f);
    var all, rest := AllOf(f), Rest(f);
    hide Rest, Flatten;
    assert all[0] == FlagsOf(f);
    assert forall k | 5 <= k < 13 :: all[k] == rest[k - 5];
    hide AllOf;
  }

  lemma AllRegular(f: Fields, s: Structure)
    requires OfTheirWidths(f.lists) && s in AllOf(f) && IsList(s.kind)
    ensures IsRegular(s)
  {
    AllKinds(f);
    var all := AllOf(f);
    hide AllOf, IsRegular, Flatten, Chunks, IsName, IsList;
    var k :| 0 <= k < |all| && all[k] == s;
    if k == 1 {
      ListIsRegular(f.lists.u16, 2);
    } else if k == 2 {
      ListIsRegular(f.lists.u32, 4);
    } else if k == 3 {
      ListIsRegular(f.lists.u128, 16);
    } else {
      assert false;
    }
  }

  lemma AllOnce(f: Fields)
    ensures OneOfEach(AllOf(f))
  {
    AllKinds(f);
    var all := AllOf(f);
    hide AllOf, Flatten, IsName;
    assert all[1].kind in {INCOMP_UUIDS16, COMP_UUIDS16};
    assert all[2].kind in {INCOMP_UUIDS32, COMP_UUIDS32};
    assert all[3].kind in {INCOMP_UUIDS128, COMP_UUIDS128};
    hide ListOf;
    forall i, j | 0 <= i < j < |all| && IsList(all[i].kind)
      ensures all[i].kind != all[j].kind
    {
      if j > 3 {
        assert !IsList(all[j].kind);
      }
    }
  }

  lemma UuidsOfAll(f: Fields, kind: byte)
    requires OfTheirWidths(f.lists) && IsList(kind)
    ensures UuidsOf(AllOf(f), kind) ==
      if kind == ServicesKind(f.lists.u16.complete, 2) then f.lists.u16.uuids
      else if kind == ServicesKind(f.lists.u32.complete, 4) then f.lists.u32.uuids
      else if kind == ServicesKind(f.lists.u128.complete, 16) then f.lists.u128.uuids
      else []
  {
    ListIsRegular(f.lists.u16, 2);
    ListIsRegular(f.lists.u32, 4);
    ListIsRegular(f.lists.u128, 16);
    AllKinds(f);
    var all := AllOf(f);
    hide AllOf, Chunks, Flatten, IsRegular, OfTheirWidths, IsName, Width;
    UuidsSplit(all, kind);
  }

  /** The lists are the structures at 1, 2 and 3. */
  lemma UuidsSplit(all: seq<Structure>, kind: byte)
    requires |all| > 4 && IsList(kind) && forall k | 0 <= k < |all| && !(1 <= k <= 3) :: !IsList(all[k].kind)
    ensures UuidsOf(all, kind) == UuidsIn(all[1], kind) + UuidsIn(all[2], kind) + UuidsIn(all[3], kind)
  {
    hide UuidsOf, UuidsIn;
    var tail := all[4..];
    assert all[1..][0] == all[1] && all[1..][1..] == all[2..];
    assert all[2..][0] == all[2] && all[2..][1..] == all[3..];
    assert all[3..][0] == all[3] && all[3..][1..] == tail;
    NoUuids(tail, kind);
    UuidsStep(all, kind);
    UuidsStep(all[1..], kind);
    UuidsStep(all[2..], kind);
    UuidsStep(all[3..], kind);
    NotInList(all[0], kind);
    JoinThree(UuidsIn(all[1], kind), UuidsIn(all[2], kind), UuidsIn(all[3], kind));
  }

  lemma JoinThree(a: seq<Uuid>, b: seq<Uuid>, c: seq<Uuid>)
    ensures [] + (a + (b + (c + []))) == a + b + c
  {
  }

  lemma NotInList(s: Structure, kind: byte)
    requires IsList(kind) && !IsList(s.kind)
    ensures UuidsIn(s, kind) == []
  {
  }

  function UuidsIn(s: Structure, kind: byte): seq<Uuid>
    requires IsList(kind)
  {
    if s.kind == kind then Chunks(s.data, Width(kind)) else []
  }

  lemma UuidsStep(list: seq<Structure>, kind: byte)
    requires list != [] && IsList(kind)
    ensures UuidsOf(list, kind) == UuidsIn(list[0], kind) + UuidsOf(list[1..], kind)
  {
  }

  lemma NameOfAll(f: Fields)
    ensures NameIn(Present(AllOf(f))) == SentName(f)
  {
    AllKinds(f);
    var all := AllOf(f);
    hide AllOf, Flatten, ServicesKind;
    NameFirst(all, COMP_NAME);
    NameFirst(all, INCOMP_NAME);
    PresentFirst(all, COMP_NAME);
    PresentFirst(all, INCOMP_NAME);
    hide Present, First;
  }

  lemma NameFirst(all: seq<Structure>, kind: byte)
    requires IsName(kind) && |all| == 13 && forall k | 0 <= k < 13 && k != 4 :: !IsName(all[k].kind)
    ensures First(all, kind) == if all[4].kind == kind then Some(all[4].data) else None
  {
    FirstAfter(all, kind, 4);
    assert all[4..][1..] == all[5..];
    NotFirst(all[5..], kind);
  }

  lemma {:induction false} FirstAfter(list: seq<Structure>, kind: byte, n: nat)
    requires n <= |list| && forall k | 0 <= k < n :: list[k].kind != kind
    ensures First(list, kind) == First(list[n..], kind)
  {
    if n == 0 {
      assert list[0..] == list;
    } else {
      FirstAfter(list[1..], kind, n - 1);
      assert list[1..][n - 1..] == list[n..];
    }
  }

  lemma ServicesOfAll(f: Fields)
    requires OfTheirWidths(f.lists)
    ensures ServiceUuids(Present(AllOf(f))) == f.lists.u16.uuids + f.lists.u32.uuids + f.lists.u128.uuids
  {
    hide Present, AllOf, UuidsOf, OfTheirWidths, UuidsFrom, OneIs, ServiceUuids;
    var list := Present(AllOf(f));
    ServicesOfWidth(f, list);
    PairUnfolds(list, INCOMP_UUIDS16, f.lists.u16.uuids);
    PairUnfolds(list, INCOMP_UUIDS32, f.lists.u32.uuids);
    PairUnfolds(list, INCOMP_UUIDS128, f.lists.u128.uuids);
    NoneLeft(list);
    var a, b, c := f.lists.u16.uuids, f.lists.u32.uuids, f.lists.u128.uuids;
    assert UuidsFrom(list, INCOMP_UUIDS16) == a + (b + (c + []));
    assert a + (b + (c + [])) == a + b + c;
  }

  lemma NoneLeft(list: seq<Structure>)
    ensures UuidsFrom(list, COMP_UUIDS128 + 1) == []
    ensures ServiceUuids(list) == UuidsFrom(list, INCOMP_UUIDS16)
  {
  }

  /** The incomplete and the complete list of one width. */
  lemma PairUnfolds(list: seq<Structure>, kind: byte, uuids: seq<Uuid>)
    requires IsList(kind) && IsList(kind + 1) && OneIs(UuidsOf(list, kind), UuidsOf(list, kind + 1), uuids)
    ensures UuidsFrom(list, kind) == uuids + UuidsFrom(list, kind + 2)
  {
    hide UuidsFrom, UuidsOf, OneIs;
    FromUnfolds(list, kind);
    FromUnfolds(list, kind + 1);
    OneOrOther(UuidsOf(list, kind), UuidsOf(list, kind + 1), uuids, UuidsFrom(list, kind + 2));
  }

  lemma OneOrOther(a: seq<Uuid>, b: seq<Uuid>, uuids: seq<Uuid>, rest: seq<Uuid>)
    requires OneIs(a, b, uuids)
    ensures a + (b + rest) == uuids + rest
  {
    if a == uuids && b == [] {
      assert b + rest == rest;
    } else {
      assert a + (b + rest) == b + rest;
    }
  }

  lemma ServicesOfWidth(f: Fields, list: seq<Structure>)
    requires OfTheirWidths(f.lists) && list == Present(AllOf(f))
    ensures OneIs(UuidsOf(list, INCOMP_UUIDS16), UuidsOf(list, COMP_UUIDS16), f.lists.u16.uuids)
    ensures OneIs(UuidsOf(list, INCOMP_UUIDS32), UuidsOf(list, COMP_UUIDS32), f.lists.u32.uuids)
    ensures OneIs(UuidsOf(list, INCOMP_UUIDS128), UuidsOf(list, COMP_UUIDS128), f.lists.u128.uuids)
  {
    hide Present, AllOf, UuidsOf, OfTheirWidths;
    ServicesOfKind(f, INCOMP_UUIDS16);
    ServicesOfKind(f, COMP_UUIDS16);
    ServicesOfKind(f, INCOMP_UUIDS32);
    ServicesOfKind(f, COMP_UUIDS32);
    ServicesOfKind(f, INCOMP_UUIDS128);
    ServicesOfKind(f, COMP_UUIDS128);
  }

  ghost predicate OneIs(a: seq<Uuid>, b: seq<Uuid>, uuids: seq<Uuid>) {
    (a == uuids && b == []) || (a == [] && b == uuids)
  }

  lemma FromUnfolds(list: seq<Structure>, kind: byte)
    requires IsList(kind)
    ensures UuidsFrom(list, kind) == UuidsOf(list, kind) + UuidsFrom(list, kind + 1)
  {
  }

  lemma ServicesOfKind(f: Fields, kind: byte)
    requires OfTheirWidths(f.lists) && IsList(kind)
    ensures UuidsOf(Present(AllOf(f)), kind) ==
      if kind == ServicesKind(f.lists.u16.complete, 2) then f.lists.u16.uuids
      else if kind == ServicesKind(f.lists.u32.complete, 4) then f.lists.u32.uuids
      else if kind == ServicesKind(f.lists.u128.complete, 16) then f.lists.u128.uuids
      else []
  {
    PresentUuids(AllOf(f), kind);
    UuidsOfAll(f, kind);
  }

  /** What a scanner sees in an advertisement that was sent: exactly the UUIDs that were put in, each with one number,
      and exactly the name. */
  lemma SeenByScanner(f: Fields)
    requires OfTheirWidths(f.lists) && HostSize(f) <= 31
    ensures var list := Structures(SetFields(f).value);
      && Regular(list)
      && AllInStep(list, INCOMP_UUIDS16)
      && ServiceUuids(list) == f.lists.u16.uuids + f.lists.u32.uuids + f.lists.u128.uuids
      && |ServiceUuids(list)| < 256
      && NameIn(list) == SentName(f)
  {
    hide AllOf, Present, HostSize, UuidsFrom, AllInStep, OneOfEach, NameIn, OfTheirWidths, Structures, EncodeAll;
    ServicesOfAll(f);
    NameOfAll(f);
    AllOnce(f);
    PresentOne(AllOf(f));
    OneOfEachIsInStep(Present(AllOf(f)), INCOMP_UUIDS16);
    ReadAsSent(f);
    FewUuids(f);
  }

  lemma FewUuids(f: Fields)
    requires OfTheirWidths(f.lists) && HostSize(f) <= 31
    ensures |f.lists.u16.uuids + f.lists.u32.uuids + f.lists.u128.uuids| < 256
  {
    assert ListsSize(f.lists) <= HostSize(f);
    hide FixedSize, ListOf, Size, AllOfWidth;
    ListHolds(f.lists.u16, 2);
    ListHolds(f.lists.u32, 4);
    ListHolds(f.lists.u128, 16);
  }

  lemma ListHolds(l: UuidList, w: nat)
    requires AllOfWidth(l.uuids, w) && IsWidth(w)
    ensures |l.uuids| <= Size(ListOf(l, w))
  {
    FlattenWidth(l.uuids, w);
    hide Flatten, AllOfWidth;
    if w == 2 {
    } else if w == 4 {
    } else {
    }
  }

  lemma ReadAsSent(f: Fields)
    requires OfTheirWidths(f.lists) && HostSize(f) <= 31
    ensures Structures(SetFields(f).value) == Present(AllOf(f)) && Regular(Present(AllOf(f)))
  {
    hide AllOf, Present, HostSize, OfTheirWidths, Structures, EncodeAll, IsRegular, Flatten;
    var all, list := AllOf(f), Present(AllOf(f));
    SizeOfAll(f);
    forall s | s in list
      ensures s.data != [] && (IsList(s.kind) ==> IsRegular(s))
    {
      PresentOnly(all, s);
      if IsList(s.kind) {
        AllRegular(f, s);
      }
    }
    ShortIsSound(list);
    ReadBack(list);
  }

  /** From one device to another: if the advertisement is sent, the receiver finds a service advertised exactly if a
      UUID that was put in equals it, and reads the name that was placed. */
  method AdvertiseTo(sender: NimBLEAdvertising, receiver: NimBLEAdvertisedDevice, uuid: Uuid)
      returns (sent: bool, advertised: bool, name: seq<byte>)
    requires sender.Idle()
    modifies sender`advData, sender`scanData, receiver`payload
    ensures var f := old(sender.advData);
      var r := PlaceAll(Mod8(FixedSize(f)), f.lists, sender.serviceUUIDs);
      var l := r.1;
      && r.0 < 256
      && (sent <==> FixedSize(f) < 256 && HasRoom(f, r.0, sender.useScan))
      && (sent ==>
          var g := Placed(f.(lists := l), r.0, sender.useScan);
          && (advertised <==> exists u :: u in l.u16.uuids + l.u32.uuids + l.u128.uuids && SameUuid(uuid, u))
          && name == SentName(g))
  {
    hide FixedSize, Mod8, HostSize, ListsSize, HasRoom, PlaceAll, SameUuid, Packed, OfTheirWidths;
    hide Structures, SetFields, NameIn, AllInStep, Regular, ServiceUuids;
    ghost var f, start := sender.advData, Mod8(FixedSize(sender.advData));
    PackingIsExact(start, f.lists, sender.serviceUUIDs);
    ghost var r := PlaceAll(start, f.lists, sender.serviceUUIDs);
    PackedWidths(start, r.0, r.1, sender.serviceUUIDs);
    var advert, response := sender.StartData();
    sent, advertised, name := advert.Some?, false, [];
    if sent {
      ghost var g := Placed(f.(lists := r.1), r.0, sender.useScan);
      assert g.lists == r.1;
      hide Placed;
      SeenByScanner(g);
      SetFieldsIff(g);
      forall u
        ensures u in ServiceUuids(Structures(advert.value)) <==> Listed(Structures(advert.value), u)
      {
        ListedExactly(Structures(advert.value), u);
      }
      hide Listed;
      receiver.SetPayload(advert.value, false);
      advertised := receiver.IsAdvertisingService(uuid);
      name := receiver.GetName();
    }
  }

  lemma PackedWidths(start: nat, len: nat, l: Lists, uuids: seq<ServiceUuid>)
    requires Packed(start, len, l, uuids)
    ensures OfTheirWidths(l)
  {
  }
}
