/** The service UUIDs listed in advertising data, and how they are numbered across fields. */
module AdvServices {
  import opened Bytes
  import opened AdvFields

  /** A UUID of 2, 4 or 16 bytes, least significant first; no bytes if it is not set. */
  type Uuid = seq<byte>

  predicate IsList(kind: byte) {
    INCOMP_UUIDS16 <= kind <= COMP_UUIDS128
  }

  const BASE: seq<byte> := [0xfb, 0x34, 0x9b, 0x5f, 0x80, 0x00, 0x00, 0x80, 0x00, 0x10, 0x00, 0x00]

  /** Equality of UUIDs: a short one also equals its 128-bit form, but forms of 16 and 32 bits never agree. */
  predicate SameUuid(u: Uuid, v: Uuid) {
    if |u| == |v| then u == v
    else if |u| == 16 then u == Long(v)
    else if |v| == 16 then v == Long(u)
    else false
  }

  function Long(u: Uuid): Uuid {
    if |u| == 2 then BASE + u + [0, 0] else if |u| == 4 then BASE + u else []
  }

  /** Equality of UUIDs with the bytes of the Bluetooth base UUID written out. */
  lemma SameUuidExactly(u: Uuid, v: Uuid)
    requires |u| in {0, 2, 4, 16} && |v| in {0, 2, 4, 16}
    ensures SameUuid(u, v) <==>
      || u == v
      || IsLongForm(u, v)
      || IsLongForm(v, u)
  {
    assert BASE == [0xfb, 0x34, 0x9b, 0x5f, 0x80, 0x00, 0x00, 0x80, 0x00, 0x10, 0x00, 0x00];
  }

  /** `u` is xxxxxxxx-0000-1000-8000-00805f9b34fb, least significant byte first, with the short UUID `v` at its end. */
  predicate IsLongForm(u: Uuid, v: Uuid) {
    && |u| == 16 && |v| in {2, 4}
    && u[..12] == [0xfb, 0x34, 0x9b, 0x5f, 0x80, 0x00, 0x00, 0x80, 0x00, 0x10, 0x00, 0x00]
    && u[12..] == if |v| == 2 then v + [0x00, 0x00] else v
  }

  lemma ShortFormsAreSame(a: byte, b: byte, c: byte, d: byte)
    ensures var u: Uuid := [0xfb, 0x34, 0x9b, 0x5f, 0x80, 0x00, 0x00, 0x80, 0x00, 0x10, 0x00, 0x00, a, b, 0x00, 0x00];
      SameUuid(u, [a, b]) && SameUuid([a, b], u)
    ensures var u: Uuid := [0xfb, 0x34, 0x9b, 0x5f, 0x80, 0x00, 0x00, 0x80, 0x00, 0x10, 0x00, 0x00, a, b, c, d];
      SameUuid(u, [a, b, c, d]) && SameUuid([a, b, c, d], u)
  {
  }

  /** A long UUID has at most one short form of each width. */
  lemma OneShortForm(u: Uuid, v: Uuid, w: Uuid)
    requires |u| == 16 && |v| == |w| && |v| in {2, 4} && SameUuid(u, v) && SameUuid(u, w)
    ensures v == w
  {
    assert v == u[12..12 + |v|] && w == u[12..12 + |w|];
  }

  // ----- the UUIDs of a list -----

  function Chunks(data: seq<byte>, w: nat): seq<Uuid>
    requires w > 0
  {
    if |data| < w then [] else [data[..w]] + Chunks(data[w..], w)
  }

  lemma {:induction false} ChunkAt(data: seq<byte>, w: nat, i: nat)
    requires w > 0 && i < |Chunks(data, w)|
    ensures 0 <= w * i <= w * i + w <= |data| && Chunks(data, w)[i] == data[w * i..w * i + w]
  {
    if i > 0 {
      ChunkAt(data[w..], w, i - 1);
      assert w * (i - 1) + w == w * i;
    }
  }

  function UuidsOf(list: seq<Structure>, kind: byte): seq<Uuid>
    requires IsList(kind)
  {
    if list == [] then []
    else (if list[0].kind == kind then Chunks(list[0].data, Width(kind)) else []) + UuidsOf(list[1..], kind)
  }

  /** The UUIDs of all lists from one kind on, in the order of the kinds. */
  function UuidsFrom(list: seq<Structure>, kind: byte): seq<Uuid>
    decreases COMP_UUIDS128 - kind
  {
    if !IsList(kind) then [] else UuidsOf(list, kind) + UuidsFrom(list, kind + 1)
  }

  function ServiceUuids(list: seq<Structure>): seq<Uuid> {
    UuidsFrom(list, INCOMP_UUIDS16)
  }

  /** A UUID stands in a list at a multiple of its width. */
  ghost predicate InData(data: seq<byte>, w: nat, u: Uuid) {
    exists i: nat :: At(data, w, i, u)
  }

  predicate At(data: seq<byte>, w: nat, i: nat, u: Uuid) {
    0 <= w * i <= w * i + w <= |data| && data[w * i..w * i + w] == u
  }

  /** A payload lists a UUID: in a structure of a kind from 2 to 7, of 2, 4 or 16 bytes a UUID. */
  ghost predicate Listed(list: seq<Structure>, u: Uuid) {
    exists s :: s in list && ListedIn(s, u)
  }

  ghost predicate ListedIn(s: Structure, u: Uuid) {
    || (0x02 <= s.kind <= 0x03 && InData(s.data, 2, u))
    || (0x04 <= s.kind <= 0x05 && InData(s.data, 4, u))
    || (0x06 <= s.kind <= 0x07 && InData(s.data, 16, u))
  }

  lemma {:induction false} InChunks(data: seq<byte>, w: nat, u: Uuid)
    requires w > 0
    ensures u in Chunks(data, w) <==> InData(data, w, u)
  {
    if u in Chunks(data, w) {
      var i: nat :| i < |Chunks(data, w)| && Chunks(data, w)[i] == u;
      ChunkAt(data, w, i);
      assert At(data, w, i, u);
    }
    if InData(data, w, u) {
      var i: nat :| At(data, w, i, u);
      ChunkReached(data, w, i);
      ChunkAt(data, w, i);
    }
  }

  lemma {:induction false} ChunkReached(data: seq<byte>, w: nat, i: nat)
    requires w > 0 && w * i + w <= |data|
    ensures i < |Chunks(data, w)|
  {
    if i == 0 {
    } else {
      assert w * (i - 1) + w == w * i;
      ChunkReached(data[w..], w, i - 1);
    }
  }

  lemma {:induction false} InUuidsOf(list: seq<Structure>, kind: byte, u: Uuid)
    requires IsList(kind)
    ensures u in UuidsOf(list, kind) <==> exists s :: s in list && s.kind == kind && u in Chunks(s.data, Width(kind))
  {
    if list == [] {
    } else {
      InUuidsOf(list[1..], kind, u);
      assert list == [list[0]] + list[1..];
      hide Chunks;
    }
  }

  lemma {:induction false} InUuidsFrom(list: seq<Structure>, kind: byte, u: Uuid)
    requires kind >= 2
    ensures u in UuidsFrom(list, kind) <==>
      exists s :: s in list && kind <= s.kind <= 7 && u in Chunks(s.data, Width(s.kind))
    decreases COMP_UUIDS128 - kind
  {
    hide Chunks, UuidsOf, Width;
    if IsList(kind) {
      InUuidsOf(list, kind, u);
      InUuidsFrom(list, kind + 1, u);
    }
  }

  /** The service UUIDs are the listed ones. */
  lemma ListedExactly(list: seq<Structure>, u: Uuid)
    ensures u in ServiceUuids(list) <==> Listed(list, u)
  {
    InUuidsFrom(list, INCOMP_UUIDS16, u);
    forall s | s in list && 2 <= s.kind <= 7
      ensures u in Chunks(s.data, Width(s.kind)) <==> ListedIn(s, u)
    {
      InChunks(s.data, Width(s.kind), u);
    }
    hide Chunks, InData, UuidsFrom;
  }

  /** Every UUID list holds a whole number of UUIDs. */
  ghost predicate Regular(list: seq<Structure>) {
    forall s | s in list :: |s.data| <= 254 && (IsList(s.kind) ==> IsRegular(s))
  }

  ghost predicate IsRegular(s: Structure)
    requires IsList(s.kind)
  {
    |s.data| == Width(s.kind) * |Chunks(s.data, Width(s.kind))|
  }

  lemma RegularEntries(s: Structure)
    requires IsList(s.kind) && IsRegular(s)
    ensures Entries(s) == |Chunks(s.data, Width(s.kind))|
  {
    var n := |Chunks(s.data, Width(s.kind))|;
    if Width(s.kind) == 2 {
      assert |s.data| == 2 * n;
    } else if Width(s.kind) == 4 {
      assert |s.data| == 4 * n;
    } else {
      assert |s.data| == 16 * n;
    }
  }

  // ----- the numbering -----

  /** The UUID that number `index`, counted from 1, gives in the structure where the count reached it. */
  function Pick(s: Structure, count: byte, index: byte): Uuid
    requires IsList(s.kind)
  {
    var w, length := Width(s.kind), |s.data| + 1;
    var i := if length < index * w then index - (count - length / w) else index;
    if i > 0 && length > w * i then s.data[w * (i - 1)..w * i] else []
  }

  /** The UUID with a number, looked for in the lists from one kind on. */
  function UuidAt(list: seq<Structure>, kind: byte, index: byte): Uuid
    decreases COMP_UUIDS128 - kind
  {
    if !IsList(kind) then []
    else
      var r := Seek(list, kind, Some(index), 0);
      if r.0 < |list| then Pick(list[r.0], r.1, index)
      else UuidAt(list, kind + 1, (index - r.1) % 256)
  }

  /** From a place on, a list repeats what stands that many places before. */
  predicate Periodic(own: seq<Uuid>, period: nat) {
    forall i | period <= i < |own| :: own[i] == own[i - period]
  }

  /** Each list of a kind that goes on beyond the number of UUIDs in those before it repeats itself with that period.
      The first one does, and so does one that is not longer than those before it together. */
  ghost predicate InStep(list: seq<Structure>, kind: byte, count: nat)
    requires IsList(kind)
  {
    list != [] ==>
      if list[0].kind == kind then
        && Periodic(Chunks(list[0].data, Width(kind)), count)
        && InStep(list[1..], kind, count + Entries(list[0]))
      else InStep(list[1..], kind, count)
  }

  /** A further list without repeats is in step exactly if it is not longer than those before it. */
  lemma PeriodicIfNotLonger(own: seq<Uuid>, period: nat)
    requires period > 0 && NoDuplicates(own)
    ensures Periodic(own, period) <==> |own| <= period
  {
    if |own| > period {
      assert own[period] != own[0];
      assert own[period] != own[period - period];
    }
  }

  lemma PickSlice(s: Structure, n: nat, before: nat, count: byte, index: byte)
    requires IsList(s.kind) && |s.data| == Width(s.kind) * n && count == before + n
    requires before < index <= count
    ensures At(s.data, Width(s.kind), (if index > n then index - before else index) - 1, Pick(s, count, index))
  {
    var w, length := Width(s.kind), |s.data| + 1;
    assert w in {2, 4, 16};
    hide Width;
    Multiples(w, n, index);
    assert length / w == n;
    var i: nat := if index > n then index - before else index;
    assert i <= n;
    Multiples(w, n, i);
  }

  lemma Multiples(w: nat, n: nat, i: nat)
    requires w in {2, 4, 16}
    ensures (w * n + 1) / w == n
    ensures w * n + 1 < i * w <==> n < i
    ensures w * n + 1 > w * i <==> n >= i
    ensures i > 0 ==> 0 <= w * (i - 1) <= w * i
    ensures n >= i ==> w * i <= w * n
  {
    if w == 2 {
    } else if w == 4 {
    } else {
    }
  }

  lemma PickInside(s: Structure, before: nat, count: byte, index: byte)
    requires IsList(s.kind) && IsRegular(s) && count == before + Entries(s)
    requires before < index <= count
    ensures var own := Chunks(s.data, Width(s.kind));
      Pick(s, count, index) == if index > |own| then own[index - before - 1] else own[index - 1]
  {
    var w, n := Width(s.kind), |Chunks(s.data, Width(s.kind))|;
    RegularEntries(s);
    assert w > 0 && |s.data| == w * n;
    hide Chunks, Pick, Entries, Width, At, IsRegular;
    PickSlice(s, n, before, count, index);
    ChunkIsAt(s.data, w, (if index > n then index - before else index) - 1);
  }

  lemma ChunkIsAt(data: seq<byte>, w: nat, i: nat)
    requires w > 0 && i < |Chunks(data, w)|
    ensures forall u :: At(data, w, i, u) <==> u == Chunks(data, w)[i]
  {
    ChunkAt(data, w, i);
  }

  lemma OtherKind(list: seq<Structure>, kind: byte, index: byte, count: byte)
    requires list != [] && list[0].kind != kind && IsList(kind)
    ensures UuidsOf(list, kind) == UuidsOf(list[1..], kind)
    ensures InStep(list, kind, count) == InStep(list[1..], kind, count)
    ensures Seek(list, kind, Some(index), count) == Next(Seek(list[1..], kind, Some(index), count))
  {
  }

  lemma SameKind(list: seq<Structure>, kind: byte, index: byte, count: byte)
    requires list != [] && list[0].kind == kind && IsList(kind) && IsRegular(list[0])
    requires count + |UuidsOf(list, kind)| < 256 && 0 < index
    ensures UuidsOf(list, kind) == Chunks(list[0].data, Width(kind)) + UuidsOf(list[1..], kind)
    ensures Entries(list[0]) == |Chunks(list[0].data, Width(kind))|
    ensures var c: byte := count + Entries(list[0]);
      Seek(list, kind, Some(index), count)
        == if c >= index then (0, c) else Next(Seek(list[1..], kind, Some(index), c))
  {
    RegularEntries(list[0]);
    hide Chunks, Entries, IsRegular, Width, IsList;
    assert UuidsOf(list, kind) == Chunks(list[0].data, Width(kind)) + UuidsOf(list[1..], kind);
    hide UuidsOf;
    SeekSame(list, kind, index, count);
  }

  lemma SeekSame(list: seq<Structure>, kind: byte, index: byte, count: byte)
    requires list != [] && list[0].kind == kind && 0 < index && count + Entries(list[0]) < 256
    ensures var c: byte := count + Entries(list[0]);
      Seek(list, kind, Some(index), count)
        == if c >= index then (0, c) else Next(Seek(list[1..], kind, Some(index), c))
  {
    hide Entries;
  }

  /** Within one kind. */
  lemma {:induction false} PickedOfKind(list: seq<Structure>, kind: byte, index: byte, count: byte)
    requires IsList(kind) && Regular(list) && InStep(list, kind, count)
    requires count < index && count + |UuidsOf(list, kind)| < 256
    ensures var r, all := Seek(list, kind, Some(index), count), UuidsOf(list, kind);
      if index - count <= |all| then r.0 < |list| && Pick(list[r.0], r.1, index) == all[index - count - 1]
      else r.0 == |list| && r.1 == count + |all|
  {
    hide Pick, Chunks, IsRegular, Entries;
    if list == [] {
    } else {
      assert list[0] in list;
      if list[0].kind != kind {
        OtherKind(list, kind, index, count);
        hide Seek, UuidsOf, InStep;
        PickedOfKind(list[1..], kind, index, count);
      } else {
        SameKind(list, kind, index, count);
        var c: byte := count + Entries(list[0]);
        assert c < index ==> InStep(list[1..], kind, c);
        assert Periodic(Chunks(list[0].data, Width(kind)), count);
        hide Seek, UuidsOf;
        if c < index {
          hide InStep;
          PickedOfKind(list[1..], kind, index, c);
        } else {
          PickInside(list[0], count, c, index);
          hide InStep;
          var own := Chunks(list[0].data, Width(kind));
          assert index <= |own| ==> own[index - 1] == own[(index - 1) - count];
        }
      }
    }
  }

  ghost predicate NoDuplicates(all: seq<Uuid>) {
    forall i, j | 0 <= i < j < |all| :: all[i] != all[j]
  }

  /** Where a list is out of step, some number gives the wrong UUID. */
  lemma {:induction false} SkippedOfKind(list: seq<Structure>, kind: byte, count: byte) returns (index: byte)
    requires IsList(kind) && Regular(list) && !InStep(list, kind, count)
    requires count + |UuidsOf(list, kind)| < 256
    ensures count < index <= count + |UuidsOf(list, kind)|
    ensures var r := Seek(list, kind, Some(index), count);
      r.0 < |list| && Pick(list[r.0], r.1, index) != UuidsOf(list, kind)[index - count - 1]
  {
    hide Pick, Chunks, IsRegular, Entries, UuidsOf, Periodic, Seek;
    assert list[0] in list;
    if list[0].kind != kind {
      OtherKind(list, kind, 0, count);
      hide InStep;
      index := SkippedOfKind(list[1..], kind, count);
      OtherKind(list, kind, index, count);
    } else if !Periodic(Chunks(list[0].data, Width(kind)), count) {
      index := SkippedHere(list, kind, count);
    } else {
      index := SkippedLater(list, kind, count);
    }
  }

  lemma SkippedHere(list: seq<Structure>, kind: byte, count: byte) returns (index: byte)
    requires IsList(kind) && list != [] && list[0].kind == kind && IsRegular(list[0])
    requires !Periodic(Chunks(list[0].data, Width(kind)), count)
    requires count + |UuidsOf(list, kind)| < 256
    ensures count < index <= count + |UuidsOf(list, kind)|
    ensures var r := Seek(list, kind, Some(index), count);
      r.0 < |list| && Pick(list[r.0], r.1, index) != UuidsOf(list, kind)[index - count - 1]
  {
    hide Pick, Chunks, IsRegular, Entries, Seek, UuidsOf;
    var own := Chunks(list[0].data, Width(kind));
    var i :| count <= i < |own| && own[i] != own[i - count];
    SameKind(list, kind, 255, count);
    index := i + 1;
    SameKind(list, kind, index, count);
    PickInside(list[0], count, count + |own|, index);
    assert UuidsOf(list, kind)[i - count] == own[i - count];
  }

  lemma {:induction false} SkippedLater(list: seq<Structure>, kind: byte, count: byte) returns (index: byte)
    requires IsList(kind) && Regular(list) && list != [] && list[0].kind == kind
    requires Periodic(Chunks(list[0].data, Width(kind)), count) && !InStep(list, kind, count)
    requires count + |UuidsOf(list, kind)| < 256
    ensures count < index <= count + |UuidsOf(list, kind)|
    ensures var r := Seek(list, kind, Some(index), count);
      r.0 < |list| && Pick(list[r.0], r.1, index) != UuidsOf(list, kind)[index - count - 1]
    decreases list, 0
  {
    hide Pick, Chunks, IsRegular, Entries, Seek, Periodic;
    assert list[0] in list;
    RegularEntries(list[0]);
    var own, rest := Chunks(list[0].data, Width(kind)), UuidsOf(list[1..], kind);
    assert UuidsOf(list, kind) == own + rest;
    var c: byte := count + |own|;
    assert !InStep(list[1..], kind, c);
    hide UuidsOf, InStep;
    index := SkippedOfKind(list[1..], kind, c);
    SameKind(list, kind, index, count);
  }

  ghost predicate AllInStep(list: seq<Structure>, from: byte)
    decreases COMP_UUIDS128 - from
  {
    IsList(from) ==> InStep(list, from, 0) && AllInStep(list, from + 1)
  }

  ghost predicate Enumerates(list: seq<Structure>, kind: byte) {
    forall i | 0 <= i < |UuidsFrom(list, kind)| && i < 255 :: UuidAt(list, kind, i + 1) == UuidsFrom(list, kind)[i]
  }

  lemma NextKind(list: seq<Structure>, kind: byte, index: byte)
    requires IsList(kind)
    ensures UuidsFrom(list, kind) == UuidsOf(list, kind) + UuidsFrom(list, kind + 1)
    ensures var r := Seek(list, kind, Some(index), 0);
      UuidAt(list, kind, index)
        == if r.0 < |list| then Pick(list[r.0], r.1, index) else UuidAt(list, kind + 1, (index - r.1) % 256)
  {
    hide Seek, Pick, UuidsOf;
  }

  lemma {:induction false} PickedFrom(list: seq<Structure>, kind: byte, index: byte)
    requires 2 <= kind && Regular(list) && AllInStep(list, kind) && 0 < index
    requires |UuidsFrom(list, kind)| < 256
    ensures UuidAt(list, kind, index)
         == if index <= |UuidsFrom(list, kind)| then UuidsFrom(list, kind)[index - 1] else []
    decreases COMP_UUIDS128 - kind
  {
    hide Seek, Pick, UuidsOf, Regular, InStep;
    if IsList(kind) {
      NextKind(list, kind, index);
      hide UuidsFrom, UuidAt;
      PickedOfKind(list, kind, index, 0);
      if index > |UuidsOf(list, kind)| {
        PickedFrom(list, kind + 1, index - |UuidsOf(list, kind)|);
      }
    }
  }

  lemma EnumeratesNext(list: seq<Structure>, kind: byte)
    requires IsList(kind) && Regular(list) && |UuidsFrom(list, kind)| < 256
    requires Enumerates(list, kind) && InStep(list, kind, 0)
    ensures Enumerates(list, kind + 1)
  {
    hide Seek, Pick, UuidsOf, Regular, InStep, UuidsFrom, UuidAt;
    var own, rest := UuidsOf(list, kind), UuidsFrom(list, kind + 1);
    forall i | 0 <= i < |rest| && i < 255
      ensures UuidAt(list, kind + 1, i + 1) == rest[i]
    {
      NextKind(list, kind, 0);
      var index: byte := |own| + i + 1;
      NextKind(list, kind, index);
      PickedOfKind(list, kind, index, 0);
      assert UuidAt(list, kind, (index - 1) + 1) == UuidsFrom(list, kind)[index - 1];
    }
  }

  lemma OutOfStepMisses(list: seq<Structure>, kind: byte)
    requires IsList(kind) && Regular(list) && |UuidsFrom(list, kind)| < 256
    requires !InStep(list, kind, 0)
    ensures !Enumerates(list, kind)
  {
    hide Seek, Pick, UuidsOf, Regular, InStep, UuidsFrom, UuidAt;
    NextKind(list, kind, 0);
    var index := SkippedOfKind(list, kind, 0);
    NextKind(list, kind, index);
    var i := index - 1;
    assert UuidAt(list, kind, i + 1) != UuidsFrom(list, kind)[i];
  }

  /** If no number gives a wrong UUID, every list is in step. */
  lemma {:induction false} OnlyInStep(list: seq<Structure>, kind: byte)
    requires 2 <= kind && Regular(list) && |UuidsFrom(list, kind)| < 256
    requires Enumerates(list, kind)
    ensures AllInStep(list, kind)
    decreases COMP_UUIDS128 - kind
  {
    hide UuidsOf, UuidsFrom, Regular, InStep, Enumerates;
    if IsList(kind) {
      NextKind(list, kind, 0);
      if !InStep(list, kind, 0) {
        OutOfStepMisses(list, kind);
      }
      EnumeratesNext(list, kind);
      OnlyInStep(list, kind + 1);
    }
  }

  /** The numbers give exactly the listed UUIDs, in order, if and only if every list is in step: for lists without
      repeats, if and only if no further list of a kind is longer than those before it together. */
  lemma EnumeratesIffInStep(list: seq<Structure>)
    requires Regular(list) && |ServiceUuids(list)| < 256
    ensures Enumerates(list, INCOMP_UUIDS16) <==> AllInStep(list, INCOMP_UUIDS16)
  {
    hide UuidAt, UuidsFrom, AllInStep, Regular;
    if AllInStep(list, INCOMP_UUIDS16) {
      InStepEnumerates(list);
    } else if Enumerates(list, INCOMP_UUIDS16) {
      OnlyInStep(list, INCOMP_UUIDS16);
    }
  }

  lemma InStepEnumerates(list: seq<Structure>)
    requires Regular(list) && |ServiceUuids(list)| < 256 && AllInStep(list, INCOMP_UUIDS16)
    ensures Enumerates(list, INCOMP_UUIDS16)
  {
    hide UuidAt, UuidsFrom, AllInStep, Regular;
    forall i | 0 <= i < |UuidsFrom(list, INCOMP_UUIDS16)| && i < 255
      ensures UuidAt(list, INCOMP_UUIDS16, i + 1) == UuidsFrom(list, INCOMP_UUIDS16)[i]
    {
      PickedFrom(list, INCOMP_UUIDS16, i + 1);
    }
  }

  /** Every kind of list occurs in at most one structure. */
  ghost predicate OneOfEach(list: seq<Structure>) {
    forall i, j | 0 <= i < j < |list| && IsList(list[i].kind) :: list[i].kind != list[j].kind
  }

  lemma {:induction false} AbsentIsInStep(list: seq<Structure>, kind: byte, count: nat)
    requires IsList(kind) && forall s | s in list :: s.kind != kind
    ensures InStep(list, kind, count)
  {
    if list == [] {
    } else {
      assert list[0] in list;
      AbsentIsInStep(list[1..], kind, count);
    }
  }

  lemma {:induction false} OneIsInStep(list: seq<Structure>, kind: byte)
    requires OneOfEach(list) && IsList(kind)
    ensures InStep(list, kind, 0)
  {
    if list == [] {
    } else {
      if list[0].kind == kind {
        AbsentIsInStep(list[1..], kind, Entries(list[0]));
      } else {
        OneIsInStep(list[1..], kind);
      }
    }
  }

  lemma {:induction false} OneOfEachIsInStep(list: seq<Structure>, from: byte)
    requires OneOfEach(list)
    ensures AllInStep(list, from)
    decreases COMP_UUIDS128 - from
  {
    hide OneOfEach, InStep;
    if IsList(from) {
      OneIsInStep(list, from);
      OneOfEachIsInStep(list, from + 1);
    }
  }

  lemma ExampleUuids(a: Uuid, b: Uuid, c: Uuid)
    requires |a| == |b| == |c| == 2
    ensures UuidsOf([Structure(COMP_UUIDS16, a), Structure(COMP_UUIDS16, b + c)], COMP_UUIDS16) == [a, b, c]
  {
    var two := Structure(COMP_UUIDS16, b + c);
    var list := [Structure(COMP_UUIDS16, a), two];
    OneChunk(a);
    OneChunk(c);
    assert (b + c)[..2] == b && (b + c)[2..] == c;
    assert Chunks(b + c, 2) == [b] + Chunks(c, 2);
    hide Chunks;
    assert [two][1..] == [] && UuidsOf([], COMP_UUIDS16) == [];
    assert UuidsOf([two], COMP_UUIDS16) == Chunks(b + c, 2) + UuidsOf([], COMP_UUIDS16);
    assert list[1..] == [two];
    assert UuidsOf(list, COMP_UUIDS16) == Chunks(a, 2) + UuidsOf([two], COMP_UUIDS16);
  }

  lemma OneChunk(u: Uuid)
    requires |u| == 2
    ensures Chunks(u, 2) == [u]
  {
    assert u[..2] == u && Chunks(u[2..], 2) == [];
  }

  lemma ExamplePicks(a: Uuid, b: Uuid, c: Uuid)
    requires |a| == |b| == |c| == 2
    ensures Pick(Structure(COMP_UUIDS16, a), 1, 1) == a
    ensures Pick(Structure(COMP_UUIDS16, b + c), 3, 2) == Pick(Structure(COMP_UUIDS16, b + c), 3, 3) == c
  {
    assert a[0..2] == a && (b + c)[2..4] == c;
  }

  lemma ExampleSeeks(a: Uuid, b: Uuid, c: Uuid, index: byte)
    requires |a| == |b| == |c| == 2 && 1 <= index <= 3
    ensures var list := [Structure(COMP_UUIDS16, a), Structure(COMP_UUIDS16, b + c)];
      Seek(list, COMP_UUIDS16, Some(index), 0) == if index == 1 then (0, 1) else (1, 3)
  {
    var two := Structure(COMP_UUIDS16, b + c);
    var list := [Structure(COMP_UUIDS16, a), two];
    assert list[1..] == [two];
    assert Entries(two) == 2 && Entries(list[0]) == 1;
    hide Entries;
    if index > 1 {
      assert Seek([two], COMP_UUIDS16, Some(index), 1) == (0, 3);
    }
  }

  /** One 16-bit UUID in a list and two in the next: the first of the two is never given. */
  lemma SkippedExample(a: Uuid, b: Uuid, c: Uuid, index: byte)
    requires |a| == |b| == |c| == 2 && 1 <= index <= 3
    ensures var list := [Structure(COMP_UUIDS16, a), Structure(COMP_UUIDS16, b + c)];
      && UuidsOf(list, COMP_UUIDS16) == [a, b, c]
      && UuidAt(list, COMP_UUIDS16, index) == if index == 1 then a else c
  {
    hide Seek, Entries, UuidsOf, Chunks, Pick, UuidAt;
    ExampleUuids(a, b, c);
    ExamplePicks(a, b, c);
    ExampleSeeks(a, b, c, index);
    var list := [Structure(COMP_UUIDS16, a), Structure(COMP_UUIDS16, b + c)];
    NextKind(list, COMP_UUIDS16, index);
    if index == 1 {
      assert UuidAt(list, COMP_UUIDS16, 1) == Pick(list[0], 1, 1);
    } else {
      assert UuidAt(list, COMP_UUIDS16, index) == Pick(list[1], 3, index);
    }
  }
}
