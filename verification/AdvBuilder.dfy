/** Building a legacy advertisement field by field. */
module AdvBuilder {
  import opened Bytes
  import opened AdvFields
  import opened AdvServices
  import opened AdvertisedDevice

  const BREDR_UNSUP: byte := 0x04

  /** A field is added whole, or not at all if it would exceed the 31 bytes of a legacy advertisement. */
  function Added(fields: seq<Structure>, s: Structure): seq<Structure> {
    if |EncodeAll(fields)| + 2 + |s.data| <= MAX_SIZE then fields + [s] else fields
  }

  /** `flag` with the bit for "no BR/EDR" set. */
  function WithBredrUnsup(flag: byte): (r: byte)
    ensures r / 4 % 2 == 1 && r % 4 == flag % 4 && r / 8 == flag / 8
  {
    if flag / BREDR_UNSUP % 2 == 1 then flag else flag + BREDR_UNSUP
  }

  /** Least significant byte first. */
  function Little16(n: uint16): (b: seq<byte>)
    ensures |b| == 2 && b[0] as int + 256 * b[1] as int == n as int
  {
    [n % 256, n / 256]
  }

  function ServicesKind(complete: bool, width: nat): (kind: byte)
    ensures complete && width in {2, 4, 16} ==> kind == if width == 2 then 0x03 else if width == 4 then 0x05 else 0x07
    ensures !complete && width in {2, 4, 16} ==> kind == if width == 2 then 0x02 else if width == 4 then 0x04 else 0x06
  {
    if width == 2 then (if complete then COMP_UUIDS16 else INCOMP_UUIDS16)
    else if width == 4 then (if complete then COMP_UUIDS32 else INCOMP_UUIDS32)
    else (if complete then COMP_UUIDS128 else INCOMP_UUIDS128)
  }

  function ServiceDataKind(width: nat): (kind: byte)
    ensures width in {2, 4, 16} ==> kind == if width == 2 then 0x16 else if width == 4 then 0x20 else 0x21
  {
    if width == 2 then SVC_DATA_UUID16 else if width == 4 then SVC_DATA_UUID32 else SVC_DATA_UUID128
  }

  predicate IsWidth(n: int) {
    n == 2 || n == 4 || n == 16
  }

  ghost predicate AllOfWidth(uuids: seq<Uuid>, width: nat) {
    forall u | u in uuids :: |u| == width
  }

  lemma Times(w: nat, n: nat)
    requires n > 0
    ensures w + w * (n - 1) == w * n
  {
  }

  lemma {:induction false} FlattenWidth(uuids: seq<Uuid>, width: nat)
    requires AllOfWidth(uuids, width)
    ensures |Flatten(uuids)| == width * |uuids|
  {
    if uuids == [] {
    } else {
      assert uuids[0] in uuids;
      assert forall u | u in uuids[1..] :: u in uuids;
      FlattenWidth(uuids[1..], width);
      hide AllOfWidth;
      Times(width, |uuids|);
    }
  }

  class NimBLEAdvertisementData {
    var payload: seq<byte>
    /** The fields that were added. */
    ghost var fields: seq<Structure>

    ghost predicate Valid()
      reads this
    {
      payload == EncodeAll(fields) && |payload| <= 31
    }

    constructor ()
      ensures Valid() && fields == []
    {
      payload, fields := [], [];
    }

    method AddData(data: seq<byte>, ghost s: Structure)
      requires Valid() && data == Encode(s)
      modifies this
      ensures Valid()
      ensures fields == if |old(payload)| + |data| <= 31 then old(fields) + [s] else old(fields)
      ensures fields == Added(old(fields), s)
    {
      if |payload| + |data| > MAX_SIZE {
        return;
      }
      EncodeLast(fields, s);
      payload := payload + data;
      fields := fields + [s];
    }

    /** The setters of one value: a length, a kind and the value. */
    method SetValue(kind: byte, value: seq<byte>)
      requires Valid()
      modifies this
      ensures Valid() && fields == Added(old(fields), Structure(kind, value))
    {
      var cdata: seq<byte> := [(|value| + 1) % 256, kind];
      AddData(cdata + value, Structure(kind, value));
    }

    method SetName(name: seq<byte>)
      requires Valid()
      modifies this
      ensures Valid() && fields == Added(old(fields), Structure(0x09, name))
    {
      SetValue(COMP_NAME, name);
    }

    method SetShortName(name: seq<byte>)
      requires Valid()
      modifies this
      ensures Valid() && fields == Added(old(fields), Structure(0x08, name))
    {
      SetValue(INCOMP_NAME, name);
    }

    method SetManufacturerData(data: seq<byte>)
      requires Valid()
      modifies this
      ensures Valid() && fields == Added(old(fields), Structure(0xff, data))
    {
      SetValue(MFG_DATA, data);
    }

    method SetURI(uri: seq<byte>)
      requires Valid()
      modifies this
      ensures Valid() && fields == Added(old(fields), Structure(0x24, uri))
    {
      SetValue(URI, uri);
    }

    method SetAppearance(appearance: uint16)
      requires Valid()
      modifies this
      ensures Valid() && fields == Added(old(fields), Structure(0x19, [appearance % 256, appearance / 256]))
    {
      AddData([3, APPEARANCE] + Little16(appearance), Structure(APPEARANCE, Little16(appearance)));
    }

    method SetFlags(flag: byte)
      requires Valid()
      modifies this
      ensures Valid() && fields == Added(old(fields), Structure(0x01, [WithBredrUnsup(flag)]))
    {
      var cdata: seq<byte> := [2, FLAGS, WithBredrUnsup(flag)];
      assert cdata == Encode(Structure(FLAGS, [WithBredrUnsup(flag)]));
      AddData(cdata, Structure(FLAGS, [WithBredrUnsup(flag)]));
    }

    method AddTxPower(power: byte)
      requires Valid()
      modifies this
      ensures Valid() && fields == Added(old(fields), Structure(0x0a, [power]))
    {
      var cdata: seq<byte> := [2, TX_PWR_LVL, power];
      assert cdata == Encode(Structure(TX_PWR_LVL, [power]));
      AddData(cdata, Structure(TX_PWR_LVL, [power]));
    }

    method SetPreferredParams(min: uint16, max: uint16)
      requires Valid()
      modifies this
      ensures Valid()
      ensures fields
        == Added(old(fields), Structure(0x12, [min % 256, min / 256, max % 256, max / 256]))
    {
      var cdata: seq<byte> := [5, SLAVE_ITVL_RANGE, min % 256, min / 256, max % 256, max / 256];
      assert Little16(min) + Little16(max) == [min % 256, min / 256, max % 256, max / 256];
      assert cdata == Encode(Structure(SLAVE_ITVL_RANGE, Little16(min) + Little16(max)));
      AddData(cdata, Structure(SLAVE_ITVL_RANGE, Little16(min) + Little16(max)));
    }

    /** A list of services of `size` bits: none is added if one of them has another size. */
    method SetServices(complete: bool, size: byte, uuids: seq<Uuid>)
      requires Valid()
      modifies this
      ensures Valid()
      ensures fields ==
        if IsWidth(size / 8) && size % 8 == 0 && AllOfWidth(uuids, size / 8)
        then Added(old(fields), Structure(ServicesKind(complete, size / 8), Flatten(uuids)))
        else old(fields)
    {
      var width: nat := size / 8;
      if size != 16 && size != 32 && size != 128 {
        return;
      }
      var cdata: seq<byte> := [(width * |uuids| + 1) % 256, ServicesKind(complete, width)];
      var same, data := JoinUuids(size, uuids);
      if same {
        AddData(cdata + data, Structure(ServicesKind(complete, width), data));
      }
    }

    /** The UUIDs one after the other, if all are of `size` bits. */
    method JoinUuids(size: byte, uuids: seq<Uuid>) returns (same: bool, data: seq<byte>)
      requires size in {16, 32, 128}
      ensures same == AllOfWidth(uuids, size / 8)
      ensures same ==> data == Flatten(uuids) && |data| == size / 8 * |uuids|
    {
      ghost var width := size / 8;
      var i := 0;
      data := [];
      assert Flatten(uuids[..0]) == [];
      hide Flatten;
      while i < |uuids|
        invariant 0 <= i <= |uuids| && AllOfWidth(uuids[..i], width)
        invariant data == Flatten(uuids[..i])
      {
        assert uuids[i] in uuids;
        if 8 * |uuids[i]| != size {
          return false, [];
        }
        data := data + uuids[i];
        FlattenNext(uuids, i);
        i := i + 1;
      }
      assert uuids[..i] == uuids;
      FlattenWidth(uuids, width);
      same := true;
    }

    method SetServiceData(uuid: Uuid, data: seq<byte>)
      requires Valid()
      modifies this
      ensures Valid()
      ensures fields ==
        if IsWidth(|uuid|) then Added(old(fields), Structure(ServiceDataKind(|uuid|), uuid + data)) else old(fields)
    {
      if !IsWidth(|uuid|) {
        return;
      }
      var cdata: seq<byte> := [(|data| + 1 + |uuid|) % 256, ServiceDataKind(|uuid|)];
      assert cdata + uuid + data == Encode(Structure(ServiceDataKind(|uuid|), uuid + data));
      AddData(cdata + uuid + data, Structure(ServiceDataKind(|uuid|), uuid + data));
    }
  }

  // ----- whatever is built is read back -----

  /** The fields that are left of everything that was set, one after the other. */
  function Build(values: seq<Structure>): seq<Structure> {
    if values == [] then [] else Added(Build(values[..|values| - 1]), values[|values| - 1])
  }

  /** Whatever values are set, what is built is at most 31 bytes and is read as the fields that were added, but for
      an empty one at the end. */
  lemma {:induction false} BuiltIsRead(values: seq<Structure>)
    ensures |EncodeAll(Build(values))| <= 31
    ensures Structures(EncodeAll(Build(values))) == Readable(Build(values))
  {
    if values == [] {
    } else {
      var n := |values| - 1;
      BuiltIsRead(values[..n]);
      EncodeLast(Build(values[..n]), values[n]);
    }
    ShortIsSound(Build(values));
    ReadBack(Build(values));
  }

  lemma {:induction false} ShortIsSound(fields: seq<Structure>)
    requires |EncodeAll(fields)| <= MAX_SIZE
    ensures Sound(fields)
  {
    if fields == [] {
    } else {
      ShortIsSound(fields[1..]);
      assert fields == [fields[0]] + fields[1..];
    }
  }

  /** A device that receives what was built reads the first name, the first manufacturer data, the first URI and
      every service data as they were added. */
  method Receive(built: NimBLEAdvertisementData, device: NimBLEAdvertisedDevice, index: byte)
      returns (name: seq<byte>, manufacturer: seq<byte>, uri: seq<byte>, data: seq<byte>)
    requires built.Valid() && index < 255
    modifies device`payload
    ensures var fields := Readable(built.fields);
      && name == NameIn(fields)
      && manufacturer == ValueIn(fields, 0xff)
      && uri == ValueIn(fields, 0x24)
      && data == ServiceData(fields, index)
  {
    ShortIsSound(built.fields);
    ReadBack(built.fields);
    hide Structures, EncodeAll, NameIn, ValueIn, ServiceData, Readable;
    device.SetPayload(built.payload, false);
    name := device.GetName();
    manufacturer := device.GetManufacturerData();
    uri := device.GetURI();
    data := device.GetServiceData(index);
  }

  /** How many service data fields are numbered before those with a UUID of this width. */
  function NarrowerServiceData(fields: seq<Structure>, width: nat): nat {
    if width == 2 then 0
    else if width == 4 then |Select(fields, SVC_DATA_UUID16)|
    else |Select(fields, SVC_DATA_UUID16)| + |Select(fields, SVC_DATA_UUID32)|
  }

  /** Service data is read as it was set, at the index that counts the narrower ones and those set before. */
  lemma ServiceDataAsSet(before: seq<Structure>, uuid: Uuid, data: seq<byte>, after: seq<Structure>)
    requires IsWidth(|uuid|)
    ensures var kind := if |uuid| == 2 then 0x16 else if |uuid| == 4 then 0x20 else 0x21;
      var all := before + [Structure(kind, uuid + data)] + after;
      var narrower := if |uuid| == 2 then 0 else |Select(all, 0x16)| + if |uuid| == 4 then 0 else |Select(all, 0x20)|;
      ServiceData(all, narrower + |Select(before, kind)|) == data
  {
    var kind, n := ServiceDataKind(|uuid|), |Select(before, ServiceDataKind(|uuid|))|;
    var all := before + [Structure(kind, uuid + data)] + after;
    SelectedAt(before, Structure(kind, uuid + data), after);
    assert (uuid + data)[|uuid|..] == data;
    hide Select, ServiceData, NarrowerServiceData;
    ServiceDataAt(all, |uuid|, n);
  }

  lemma ServiceDataAt(all: seq<Structure>, width: nat, n: nat)
    requires IsWidth(width) && n < |Select(all, ServiceDataKind(width))|
    ensures ServiceData(all, NarrowerServiceData(all, width) + n)
         == WithoutUuid(Select(all, ServiceDataKind(width))[n], width)
  {
    hide Select, WithoutUuid;
  }

  lemma SelectedAt(before: seq<Structure>, s: Structure, after: seq<Structure>)
    ensures var all := before + [s] + after;
      |Select(before, s.kind)| < |Select(all, s.kind)| && Select(all, s.kind)[|Select(before, s.kind)|] == s.data
  {
    SelectAppend(before + [s], after, s.kind);
    SelectAppend(before, [s], s.kind);
    assert Select([s], s.kind) == [s.data];
    hide Select;
  }

  lemma {:induction false} SelectAppend(a: seq<Structure>, b: seq<Structure>, kind: byte)
    ensures Select(a + b, kind) == Select(a, kind) + Select(b, kind)
  {
    if a == [] {
      assert a + b == b;
    } else {
      assert (a + b)[1..] == a[1..] + b;
      SelectAppend(a[1..], b, kind);
    }
  }
}
