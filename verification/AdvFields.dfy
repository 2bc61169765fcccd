/** Advertising data: length/type/value structures, and what a walk over a payload finds in it (the format is
    in section 11 of Vol 3 Part C of the Bluetooth Core Specification). */
module AdvFields {
  import opened Bytes

  const MAX_SIZE := 31

  const FLAGS: byte := 0x01
  const INCOMP_UUIDS16: byte := 0x02
  const COMP_UUIDS16: byte := 0x03
  const INCOMP_UUIDS32: byte := 0x04
  const COMP_UUIDS32: byte := 0x05
  const INCOMP_UUIDS128: byte := 0x06
  const COMP_UUIDS128: byte := 0x07
  const INCOMP_NAME: byte := 0x08
  const COMP_NAME: byte := 0x09
  const TX_PWR_LVL: byte := 0x0a
  const SLAVE_ITVL_RANGE: byte := 0x12
  const SVC_DATA_UUID16: byte := 0x16
  const PUBLIC_TGT_ADDR: byte := 0x17
  const RANDOM_TGT_ADDR: byte := 0x18
  const APPEARANCE: byte := 0x19
  const SVC_DATA_UUID32: byte := 0x20
  const SVC_DATA_UUID128: byte := 0x21
  const URI: byte := 0x24
  const MFG_DATA: byte := 0xff

  datatype Structure = Structure(kind: byte, data: seq<byte>)

  function Encode(s: Structure): seq<byte> {
    [(|s.data| + 1) % 256, s.kind] + s.data
  }

  function EncodeAll(list: seq<Structure>): seq<byte> {
    if list == [] then [] else Encode(list[0]) + EncodeAll(list[1..])
  }

  lemma {:induction false} EncodeAppend(list: seq<Structure>, more: seq<Structure>)
    ensures EncodeAll(list + more) == EncodeAll(list) + EncodeAll(more)
  {
    if list == [] {
      assert list + more == more;
    } else {
      assert (list + more)[1..] == list[1..] + more;
      EncodeAppend(list[1..], more);
      Associative(Encode(list[0]), EncodeAll(list[1..]), EncodeAll(more));
    }
  }

  lemma EncodeLast(list: seq<Structure>, s: Structure)
    ensures EncodeAll(list + [s]) == EncodeAll(list) + Encode(s)
  {
    EncodeAppend(list, [s]);
    assert EncodeAll([s]) == Encode(s) + EncodeAll([]);
  }

  // ----- the walk -----

  /** The structures a walk over any bytes meets: it stops at one that does not fit in what is left, and at a
      rest of two bytes or fewer. */
  function Structures(p: seq<byte>): seq<Structure> {
    if |p| <= 2 || p[0] >= |p| then []
    else [FieldAt(p, 0)] + Structures(p[1 + p[0]..])
  }

  predicate IsField(p: seq<byte>, at: nat) {
    at + 2 <= |p| && at + p[at] < |p|
  }

  function FieldAt(p: seq<byte>, at: nat): Structure
    requires IsField(p, at)
  {
    Structure(p[at + 1], if p[at] == 0 then [] else p[at + 2..at + 1 + p[at]])
  }

  ghost predicate Sound(list: seq<Structure>) {
    forall s | s in list :: |s.data| <= 254
  }

  /** The walk does not look at an empty structure at the end. */
  function Readable(list: seq<Structure>): seq<Structure> {
    if list != [] && list[|list| - 1].data == [] then list[..|list| - 1] else list
  }

  lemma FirstStructure(s: Structure, rest: seq<byte>)
    requires |s.data| <= 254 && (s.data != [] || rest != [])
    ensures Structures(Encode(s) + rest) == [s] + Structures(rest)
  {
    hide Structures;
    var p, n := Encode(s) + rest, |s.data| + 1;
    assert p[0] == n && p[1] == s.kind && |p| == 1 + n + |rest|;
    assert p[2..1 + n] == s.data;
    assert p[1 + n..] == rest;
    assert FieldAt(p, 0) == s;
    StructuresOf(p);
  }

  lemma StructuresOf(p: seq<byte>)
    requires |p| > 2 && p[0] < |p|
    ensures Structures(p) == [FieldAt(p, 0)] + Structures(p[1 + p[0]..])
  {
  }

  /** A payload of structures is read back as those structures, but for an empty one at the end. */
  lemma {:induction false} ReadBack(list: seq<Structure>)
    requires Sound(list)
    ensures Structures(EncodeAll(list)) == Readable(list)
  {
    if list == [] {
    } else if |list| == 1 && list[0].data == [] {
      assert |EncodeAll(list)| == 2;
    } else {
      assert list[0] in list;
      ReadBack(list[1..]);
      assert list[1..] != [] ==> EncodeAll(list[1..]) != [];
      FirstStructure(list[0], EncodeAll(list[1..]));
      assert Readable(list) == [list[0]] + Readable(list[1..]);
    }
  }

  /** The walk passes whole structures, whatever bytes follow. */
  lemma {:induction false} ReadPast(list: seq<Structure>, rest: seq<byte>)
    requires Sound(list) && rest != []
    ensures Structures(EncodeAll(list) + rest) == list + Structures(rest)
  {
    if list == [] {
      assert EncodeAll(list) + rest == rest;
    } else {
      hide Structures, Encode;
      var tail := EncodeAll(list[1..]);
      assert list[0] in list;
      ReadPast(list[1..], rest);
      Associative(Encode(list[0]), tail, rest);
      FirstStructure(list[0], tail + rest);
      assert list == [list[0]] + list[1..];
      Associative([list[0]], list[1..], Structures(rest));
    }
  }

  /** It ends at a structure that is cut off, and it reads a length of zero as an empty structure whose kind is the
      next byte, which is then read again as a length. */
  lemma DamagedIsRead(list: seq<Structure>, n: byte, rest: seq<byte>)
    requires Sound(list)
    ensures n > |rest| ==> Structures(EncodeAll(list) + ([n] + rest)) == list
    ensures n == 0 && |rest| >= 2 ==>
      Structures(EncodeAll(list) + ([n] + rest)) == list + ([Structure(rest[0], [])] + Structures(rest))
  {
    var p := [n] + rest;
    ReadPast(list, p);
    if n > |rest| {
      assert Structures(p) == [];
    } else if n == 0 && |rest| >= 2 {
      StructuresOf(p);
      assert p[1..] == rest;
    }
  }

  // ----- finding a field -----

  /** The bytes of one element of a list field, 0 for the other kinds. */
  function Width(kind: byte): (w: nat)
    ensures kind in {0x02, 0x03} ==> w == 2
    ensures kind in {0x04, 0x05} ==> w == 4
    ensures kind in {0x06, 0x07} ==> w == 16
    ensures kind in {0x17, 0x18} ==> w == 6
    ensures kind !in {0x02, 0x03, 0x04, 0x05, 0x06, 0x07, 0x17, 0x18} ==> w == 0
  {
    if kind == INCOMP_UUIDS16 || kind == COMP_UUIDS16 then 2
    else if kind == INCOMP_UUIDS32 || kind == COMP_UUIDS32 then 4
    else if kind == INCOMP_UUIDS128 || kind == COMP_UUIDS128 then 16
    else if kind == PUBLIC_TGT_ADDR || kind == RANDOM_TGT_ADDR then 6
    else 0
  }

  /** How many entries a structure counts for; the byte of the kind is counted with the UUIDs. */
  function Entries(s: Structure): (n: nat)
    ensures 0x02 <= s.kind <= 0x03 ==> 2 * n <= |s.data| + 1 < 2 * n + 2
    ensures 0x04 <= s.kind <= 0x05 ==> 4 * n <= |s.data| + 1 < 4 * n + 4
    ensures 0x06 <= s.kind <= 0x07 ==> 16 * n <= |s.data| + 1 < 16 * n + 16
    ensures s.kind < 0x02 || 0x07 < s.kind < 0x17 || 0x18 < s.kind ==> n == 1
  {
    if Width(s.kind) == 0 then 1 else (|s.data| + 1) / Width(s.kind)
  }

  /** Counts the entries of one kind, modulo 256. With an index it stops at the structure where the count reaches
      it (or at the first one if the index is 0). Gives the position and the count. */
  function Seek(list: seq<Structure>, kind: byte, index: Option<byte>, count: byte): (r: (nat, byte))
    ensures r.0 <= |list| && (r.0 < |list| ==> index.Some? && list[r.0].kind == kind)
  {
    if list == [] then (0, count)
    else if list[0].kind != kind then Next(Seek(list[1..], kind, index, count))
    else
      var c := (count + Entries(list[0])) % 256;
      if index.Some? && (index.value == 0 || c >= index.value) then (0, c)
      else Next(Seek(list[1..], kind, index, c))
  }

  function Next(r: (nat, byte)): (nat, byte) {
    (r.0 + 1, r.1)
  }

  /** It stops exactly when the count reaches the index, and then the count has not wrapped. */
  lemma {:induction false} SeekStops(list: seq<Structure>, kind: byte, index: byte, count: byte)
    requires count < index && forall s | s in list :: |s.data| <= 254
    ensures var r := Seek(list, kind, Some(index), count);
      if r.0 < |list| then r.1 - Entries(list[r.0]) < index <= r.1 else r.1 < index
  {
    if list == [] {
    } else {
      assert list[0] in list;
      var c := (count + Entries(list[0])) % 256;
      if list[0].kind != kind {
        SeekStops(list[1..], kind, index, count);
      } else if c < index {
        SeekStops(list[1..], kind, index, c);
      }
    }
  }

  // ----- single fields -----

  /** The value of the first structure of a kind. */
  function First(list: seq<Structure>, kind: byte): Option<seq<byte>> {
    if list == [] then None
    else if list[0].kind == kind then Some(list[0].data)
    else First(list[1..], kind)
  }

  lemma {:induction false} SeekFirst(list: seq<Structure>, kind: byte)
    requires Width(kind) == 0
    ensures var r := Seek(list, kind, Some(0), 0);
      if r.0 < |list| then r.1 == 1 && First(list, kind) == Some(list[r.0].data)
      else r.1 == 0 && First(list, kind) == None
  {
    if list == [] {
    } else {
      SeekFirst(list[1..], kind);
    }
  }

  /** The values of all structures of a kind. */
  function Select(list: seq<Structure>, kind: byte): seq<seq<byte>> {
    if list == [] then []
    else (if list[0].kind == kind then [list[0].data] else []) + Select(list[1..], kind)
  }

  lemma {:induction false} SeekNth(list: seq<Structure>, kind: byte, index: byte, count: byte)
    requires Width(kind) == 0 && count < index
    ensures var r, found := Seek(list, kind, Some(index), count), Select(list, kind);
      if index - count <= |found| then
        r.0 < |list| && r.1 == index && list[r.0].data == found[index - count - 1]
      else r.0 == |list| && r.1 == count + |found|
  {
    if list == [] {
    } else {
      SeekOne(list, kind, index, count);
      hide Seek, Select, Width, Entries;
      if list[0].kind != kind {
        SeekNth(list[1..], kind, index, count);
      } else if count + 1 < index {
        SeekNth(list[1..], kind, index, count + 1);
      }
    }
  }

  lemma SeekOne(list: seq<Structure>, kind: byte, index: byte, count: byte)
    requires list != [] && Width(kind) == 0 && count < index
    ensures Seek(list, kind, Some(index), count) ==
      if list[0].kind != kind then Next(Seek(list[1..], kind, Some(index), count))
      else if count + 1 == index then (0, index)
      else Next(Seek(list[1..], kind, Some(index), count + 1))
    ensures Select(list, kind) == (if list[0].kind == kind then [list[0].data] else []) + Select(list[1..], kind)
  {
  }

  /** A service data field without its UUID of `width` bytes. */
  function WithoutUuid(data: seq<byte>, width: nat): seq<byte> {
    if |data| >= width then data[width..] else []
  }

  /** The value of the service data field at an index: those with a 16-bit UUID first, then 32, then 128. */
  function ServiceData(list: seq<Structure>, index: nat): seq<byte> {
    var a, b, c := Select(list, SVC_DATA_UUID16), Select(list, SVC_DATA_UUID32), Select(list, SVC_DATA_UUID128);
    if index < |a| then WithoutUuid(a[index], 2)
    else if index < |a| + |b| then WithoutUuid(b[index - |a|], 4)
    else if index < |a| + |b| + |c| then WithoutUuid(c[index - |a| - |b|], 16)
    else []
  }
}
