/** The frames of the JBD battery protocol: the checksum, and putting frames together again from the
    fragments that Bluetooth notifications bring. */
module JbdFrames {
  import opened Bytes

  const STX: byte := 0xdd
  const ETX: byte := 0x77
  const BUFFER_SIZE := 44

  // ----- the checksum -----

  /** The data length byte of the header. */
  function DataLen(packet: seq<byte>): nat
    requires |packet| >= 4
  {
    packet[3]
  }

  /** The bytes the checksum covers: status, data length and data. */
  function Covered(packet: seq<byte>): seq<byte>
    requires |packet| >= 4 && |packet| >= DataLen(packet) + 6
  {
    packet[2..DataLen(packet) + 4]
  }

  /** The packet is as long as its data length says, if the checksum routine gets to look. */
  predicate Readable(packet: seq<byte>) {
    |packet| >= 3 && (packet[0] == STX && packet[2] == 0 ==> |packet| >= 4 && |packet| >= DataLen(packet) + 6)
  }

  method Checksum(packet: array<byte>) returns (checksum: byte)
    requires packet.Length >= 4 && packet.Length >= DataLen(packet[..]) + 6
    ensures (checksum + Sum(Covered(packet[..]))) % 256 == 0
  {
    hide Sum, Mod8;
    var checksumLen: nat := packet[3];
    checksumLen := checksumLen + 2;
    checksum := 0;
    ghost var covered := Covered(packet[..]);
    SumOfNone(covered);
    for i := 0 to checksumLen
      invariant checksum == Mod8(Sum(covered[..i]))
    {
      SumNext(covered, i);
      AddByte(Sum(covered[..i]), covered[i]);
      checksum := (checksum + packet[i + 2]) % 256;
    }
    assert covered[..checksumLen] == covered;
    Complement(Sum(covered));
    checksum := (255 - checksum + 1) % 256;
  }

  lemma SumOfNone(s: seq<byte>)
    ensures Mod8(Sum(s[..0])) == 0
  {
  }

  lemma AddByte(sum: nat, b: byte)
    ensures Mod8(sum + b) == (Mod8(sum) + b) % 256
  {
  }

  lemma Complement(sum: nat)
    ensures ((255 - Mod8(sum) + 1) % 256 + sum) % 256 == 0
  {
  }

  /** Accepted exactly if the covered bytes and the low checksum byte add up to zero. */
  predicate Accepted(packet: seq<byte>)
    requires Readable(packet)
  {
    packet[0] == STX && packet[2] == 0 && (Sum(Covered(packet)) + packet[DataLen(packet) + 5]) % 256 == 0
  }

  method ChecksumOk(packet: array<byte>) returns (ok: bool)
    requires Readable(packet[..])
    ensures ok == Accepted(packet[..])
  {
    if packet[0] != STX || packet[2] != 0 {
      return false;
    }
    var checksumLen: nat := packet[3];
    checksumLen := checksumLen + 2;
    var rxChecksum := packet[2 + checksumLen + 1];
    var checksum := Checksum(packet);
    ok := checksum == rxChecksum;
    SameComplement(Sum(Covered(packet[..])), checksum, rxChecksum);
  }

  lemma SameComplement(sum: nat, a: byte, b: byte)
    requires (a + sum) % 256 == 0
    ensures (sum + b) % 256 == 0 <==> a == b
  {
  }

  lemma {:induction false} SumUpdated(s: seq<byte>, i: nat, b: byte)
    requires i < |s|
    ensures Sum(s[i := b]) == Sum(s) - s[i] + b
  {
    var n := |s| - 1;
    if i == n {
      assert s[i := b][..n] == s[..n];
    } else {
      SumUpdated(s[..n], i, b);
      assert s[i := b][..n] == s[..n][i := b];
    }
  }

  lemma SumLast(s: seq<byte>, b: byte)
    ensures Sum(s + [b]) == Sum(s) + b
  {
    assert (s + [b])[..|s|] == s;
  }

  lemma SumFour(s: seq<byte>, a: byte, b: byte, c: byte, d: byte)
    ensures Sum(s + [a, b, c, d]) == Sum(s) + a + b + c + d
  {
    hide Sum;
    SumLast(s, a);
    SumLast(s + [a], b);
    SumLast(s + [a] + [b], c);
    SumLast(s + [a] + [b] + [c], d);
    assert s + [a] + [b] + [c] + [d] == s + [a, b, c, d];
  }

  /** The cell packet that the source shows. */
  function CellPacket(): seq<byte> {
    [0xdd, 0x04, 0x00, 0x10]
    + ([0x0c, 0xde, 0x0c, 0xdd] + [0x0c, 0xdd, 0x0c, 0xdd] + [0x0c, 0xdd, 0x0c, 0xde] + [0x0c, 0xde, 0x0c, 0xde])
    + [0xf8, 0xa4, 0x77]
  }

  lemma ExampleAccepted()
    ensures Readable(CellPacket()) && Accepted(CellPacket())
  {
    var p := CellPacket();
    assert p[0] == 0xdd && p[2] == 0 && p[3] == 16 && |p| == 23 && p[21] == 0xa4;
    hide CellPacket, Covered, Sum;
    ExampleSum();
  }

  lemma ExampleSum()
    ensures |CellPacket()| == 23 && CellPacket()[3] == 16
    ensures Sum(Covered(CellPacket())) == 0x75c
  {
    var p, head: seq<byte> := CellPacket(), [0x00, 0x10];
    var a: seq<byte>, b: seq<byte> := head + [0x0c, 0xde, 0x0c, 0xdd], [0x0c, 0xdd, 0x0c, 0xdd];
    var c: seq<byte> := [0x0c, 0xdd, 0x0c, 0xde];
    assert p[3] == 16 && |p| == 23;
    assert Covered(p) == a + b + c + [0x0c, 0xde, 0x0c, 0xde];
    assert Sum(head) == 0x10 by {
      assert [] + [0x00] + [0x10] == head;
      SumLast([] + [0x00], 0x10);
      SumLast([], 0x00);
    }
    hide Sum, CellPacket, Covered;
    SumFour(head, 0x0c, 0xde, 0x0c, 0xdd);
    SumFour(a, 0x0c, 0xdd, 0x0c, 0xdd);
    SumFour(a + b, 0x0c, 0xdd, 0x0c, 0xde);
    SumFour(a + b + c, 0x0c, 0xde, 0x0c, 0xde);
  }

  /** Changing one byte of an accepted frame, other than its length byte, gets it rejected if and only if the
      byte is the start byte, the status, a data byte or the low checksum byte. The type, the high checksum
      byte and the end byte are not protected. */
  lemma SingleChangeDetected(p: seq<byte>, i: nat, b: byte)
    requires Readable(p) && Accepted(p) && |p| == DataLen(p) + 7
    requires i < |p| && i != 3 && b != p[i]
    ensures Readable(p[i := b])
    ensures !Accepted(p[i := b]) <==> i == 0 || i == 2 || 4 <= i < DataLen(p) + 4 || i == DataLen(p) + 5
  {
    var q := p[i := b];
    if 2 < i < DataLen(p) + 4 {
      assert Covered(q) == Covered(p)[i - 2 := b];
      SumUpdated(Covered(p), i - 2, b);
      SumUpdated(Covered(p), i - 2, 0);
      Different(Sum(Covered(p)), p[DataLen(p) + 5], p[i], b);
    } else if i != 0 && i != 2 {
      assert Covered(q) == Covered(p);
      SameComplement(Sum(Covered(p)), p[DataLen(p) + 5], q[DataLen(p) + 5]);
    }
  }

  lemma Different(sum: nat, low: byte, old_: byte, new_: byte)
    requires (sum + low) % 256 == 0 && old_ != new_ && old_ <= sum
    ensures (sum - old_ + new_ + low) % 256 != 0
  {
  }

  // ----- collecting fragments -----

  /** Nothing, or the fragments so far. */
  datatype Partial = Empty | Partial(bytes: seq<byte>)

  /** One notification; a frame if this completes one. */
  function Collect(p: Partial, data: seq<byte>): (Partial, Option<seq<byte>>)
    requires data != []
  {
    match p
    case Empty => (if data[0] == STX then Partial(data) else Empty, None)
    case Partial(bytes) =>
      if data[|data| - 1] == ETX then (Empty, Some(bytes + data)) else (Partial(bytes + data), None)
  }

  /** The state after a run of notifications, and what each of them completed. */
  function CollectAll(p: Partial, fragments: seq<seq<byte>>): (Partial, seq<Option<seq<byte>>>)
    requires forall i | 0 <= i < |fragments| :: fragments[i] != []
    decreases |fragments|
  {
    if fragments == [] then (p, [])
    else
      var (p1, first) := Collect(p, fragments[0]);
      var (p2, rest) := CollectAll(p1, fragments[1..]);
      (p2, [first] + rest)
  }

  /** The fragments of one frame: at least two, the first starting with the start byte, and of those after the
      first only the last ending with the end byte. */
  predicate GoodSplit(fragments: seq<seq<byte>>) {
    && |fragments| >= 2 && (forall i | 0 <= i < |fragments| :: fragments[i] != [])
    && fragments[0][0] == 0xdd
    && forall i | 0 < i < |fragments| :: fragments[i][|fragments[i]| - 1] == 0x77 <==> i == |fragments| - 1
  }

  function Pending(n: nat): seq<Option<seq<byte>>> {
    if n == 0 then [] else [None] + Pending(n - 1)
  }

  /** Nothing until the last fragment, which completes the frame. */
  function Whole(fragments: seq<seq<byte>>): seq<Option<seq<byte>>>
    requires fragments != []
  {
    Pending(|fragments| - 1) + [Some(Flatten(fragments))]
  }

  class Collector {
    var packetstate: byte
    const packetbuff: array<byte>
    var packetSize: uint16
    ghost var seen: seq<seq<byte>>  // the frames handed to the packet check

    constructor ()
      ensures Valid() && Held() == Empty && seen == [] && fresh(packetbuff)
    {
      packetbuff := new byte[BUFFER_SIZE];
      packetstate, packetSize, seen := 0, 0, [];
    }

    ghost predicate Valid()
      reads this
    {
      packetstate <= 1 && packetSize <= packetbuff.Length == 44
    }

    ghost function Held(): Partial
      reads this, packetbuff
      requires Valid()
    {
      if packetstate == 0 then Empty else Partial(packetbuff[..packetSize])
    }

    method Store(data: seq<byte>, at: nat)
      requires at + |data| <= packetbuff.Length
      modifies packetbuff
      ensures packetbuff[..at + |data|] == old(packetbuff[..at]) + data
    {
      var i := 0;
      while i < |data|
        invariant 0 <= i <= |data| && packetbuff[..at + i] == old(packetbuff[..at]) + data[..i]
      {
        packetbuff[at + i] := data[i];
        i := i + 1;
      }
    }

    /** `handled` is what the handler for the packet's type returns for a frame with a good checksum. */
    method CollectPacket(data: seq<byte>, handled: bool) returns (ok: bool)
      requires Valid() && data != []
      requires match Held() case Empty => |data| <= 44 case Partial(b) => |b| + |data| <= 44
      requires var frame := Collect(Held(), data).1; frame.Some? ==> Readable(frame.value)
      modifies this, packetbuff
      ensures Valid()
      ensures var (held, frame) := Collect(old(Held()), data);
        && Held() == held
        && seen == old(seen) + (if frame.Some? then [frame.value] else [])
        && ok == (frame.Some? && Accepted(frame.value) && handled)
    {
      hide Accepted, Readable;
      ok := false;
      if packetstate == 0 && data[0] == STX {
        Store(data, 0);
        packetSize := |data|;
        packetstate := 1;
      } else if packetstate == 1 {
        Store(data, packetSize);
        packetSize := packetSize + |data|;
        if data[|data| - 1] == ETX {
          var packet := new byte[packetSize](i requires 0 <= i < packetSize <= packetbuff.Length
                                               reads this, packetbuff => packetbuff[i]);
          assert packet[..] == packetbuff[..packetSize];
          seen := seen + [packet[..]];
          var accepted := ChecksumOk(packet);
          ok := accepted && handled;
          packetstate := 0;
        }
      }
    }
  }

  // ----- reassembly -----

  lemma {:induction false} LaterFragments(bytes: seq<byte>, fragments: seq<seq<byte>>)
    requires fragments != [] && forall i | 0 <= i < |fragments| :: fragments[i] != []
    ensures CollectAll(Partial(bytes), fragments)
         == (Empty, Pending(|fragments| - 1) + [Some(bytes + Flatten(fragments))])
      <==> forall i | 0 <= i < |fragments| :: fragments[i][|fragments[i]| - 1] == 0x77 <==> i == |fragments| - 1
    decreases |fragments|
  {
    var f, rest := fragments[0], fragments[1..];
    var n := |fragments| - 1;
    if rest == [] {
      assert Flatten(fragments) == f;
      assert Pending(0) + [Some(bytes + f)] == [Some(bytes + f)] + [];
    } else if f[|f| - 1] == ETX {
      assert CollectAll(Partial(bytes), fragments).1[0] == Some(bytes + f);
      assert (Pending(n) + [Some(bytes + Flatten(fragments))])[0] == None;
    } else {
      LaterFragments(bytes + f, rest);
      Associative(bytes, f, Flatten(rest));
      var expected := Pending(n - 1) + [Some(bytes + Flatten(fragments))];
      assert Pending(n) + [Some(bytes + Flatten(fragments))] == [None] + expected;
      assert CollectAll(Partial(bytes), fragments).1[1..] == CollectAll(Partial(bytes + f), rest).1;
      assert ([None] + expected)[1..] == expected;
      assert forall i | 1 <= i < |fragments| :: fragments[i] == rest[i - 1];
    }
  }

  /** A frame is put together, by its last fragment and not before, if and only if it is split well. */
  lemma ReassembledIffGoodSplit(fragments: seq<seq<byte>>)
    requires fragments != [] && forall i | 0 <= i < |fragments| :: fragments[i] != []
    requires fragments[0][0] == 0xdd
    ensures CollectAll(Empty, fragments) == (Empty, Whole(fragments)) <==> GoodSplit(fragments)
  {
    var first, rest := fragments[0], fragments[1..];
    if rest == [] {
      assert CollectAll(Empty, fragments).0 == Partial(first);
    } else {
      LaterFragments(first, rest);
      var expected := Pending(|rest| - 1) + [Some(Flatten(fragments))];
      assert Whole(fragments) == [None] + expected;
      assert CollectAll(Empty, fragments).1[1..] == CollectAll(Partial(first), rest).1;
      assert ([None] + expected)[1..] == expected;
      assert forall i | 1 <= i < |fragments| :: fragments[i] == rest[i - 1];
    }
  }

  /** Notifications that do not start a frame are dropped while no frame is held. */
  lemma {:induction false} NoiseDropped(noise: seq<seq<byte>>, more: seq<seq<byte>>)
    requires forall i | 0 <= i < |noise| :: noise[i] != [] && noise[i][0] != 0xdd
    requires forall i | 0 <= i < |more| :: more[i] != []
    ensures forall i | 0 <= i < |noise + more| :: (noise + more)[i] != []
    ensures CollectAll(Empty, noise + more)
         == (CollectAll(Empty, more).0, Pending(|noise|) + CollectAll(Empty, more).1)
    decreases |noise|
  {
    if noise == [] {
      assert noise + more == more;
      assert Pending(0) + CollectAll(Empty, more).1 == CollectAll(Empty, more).1;
    } else {
      assert (noise + more)[1..] == noise[1..] + more;
      NoiseDropped(noise[1..], more);
      Associative([None], Pending(|noise| - 1), CollectAll(Empty, more).1);
    }
  }

  lemma {:induction false} CollectAppend(p: Partial, a: seq<seq<byte>>, b: seq<seq<byte>>)
    requires forall i | 0 <= i < |a| :: a[i] != []
    requires forall i | 0 <= i < |b| :: b[i] != []
    ensures forall i | 0 <= i < |a + b| :: (a + b)[i] != []
    ensures var (q, first) := CollectAll(p, a);
      var (r, second) := CollectAll(q, b);
      CollectAll(p, a + b) == (r, first + second)
    decreases |a|
  {
    if a == [] {
      assert a + b == b;
      assert [] + CollectAll(p, b).1 == CollectAll(p, b).1;
    } else {
      assert (a + b)[1..] == a[1..] + b;
      var (p1, head) := Collect(p, a[0]);
      CollectAppend(p1, a[1..], b);
      var (q, first) := CollectAll(p1, a[1..]);
      Associative([head], first, CollectAll(q, b).1);
    }
  }

  /** Any run of well-split frames is put together frame by frame, and the collector ends empty. */
  lemma {:induction false} FramesReassembled(frames: seq<seq<seq<byte>>>)
    requires forall i | 0 <= i < |frames| :: GoodSplit(frames[i])
    ensures forall i | 0 <= i < |Flatten(frames)| :: Flatten(frames)[i] != []
    ensures CollectAll(Empty, Flatten(frames)) == (Empty, AllWhole(frames))
    decreases |frames|
  {
    if frames == [] {
    } else {
      ReassembledIffGoodSplit(frames[0]);
      FramesReassembled(frames[1..]);
      CollectAppend(Empty, frames[0], Flatten(frames[1..]));
    }
  }

  function AllWhole(frames: seq<seq<seq<byte>>>): seq<Option<seq<byte>>>
    requires forall i | 0 <= i < |frames| :: GoodSplit(frames[i])
    decreases |frames|
  {
    if frames == [] then [] else
    assert GoodSplit(frames[0]);
    Whole(frames[0]) + AllWhole(frames[1..])
  }

  // ----- frames through the collector -----

  /** A frame that the buffer holds and whose length byte can be trusted. */
  predicate Fits(frame: seq<byte>) {
    |frame| <= 44 && Readable(frame)
  }

  /** One well-split frame: no notification but the last says yes, and the packet check sees exactly the frame. */
  method CollectFrame(c: Collector, fragments: seq<seq<byte>>, handled: bool) returns (results: seq<bool>)
    requires c.Valid() && c.Held() == Empty
    requires GoodSplit(fragments) && Fits(Flatten(fragments))
    modifies c, c.packetbuff
    ensures c.Valid() && c.Held() == Empty
    ensures c.seen == old(c.seen) + [Flatten(fragments)]
    ensures |results| == |fragments|
    ensures forall i | 0 <= i < |results| ::
      results[i] <==> i == |results| - 1 && Accepted(Flatten(fragments)) && handled
  {
    hide Flatten, Readable, Accepted;
    results := [];
    var i := 0;
    FlattenSome(fragments, 0);
    while i < |fragments|
      invariant 0 <= i <= |fragments| && |results| == i && c.Valid()
      invariant c.Held() == if i == 0 || i == |fragments| then Empty else Partial(Flatten(fragments[..i]))
      invariant c.seen == old(c.seen) + (if i < |fragments| then [] else [Flatten(fragments)])
      invariant forall k | 0 <= k < i ::
        results[k] <==> k == |fragments| - 1 && Accepted(Flatten(fragments)) && handled
    {
      FlattenSome(fragments, i);
      FlattenSome(fragments, i + 1);
      FlattenNext(fragments, i);
      FlattenGrows(fragments, i + 1);
      var ok := c.CollectPacket(fragments[i], handled);
      results := results + [ok];
      i := i + 1;
    }
  }

  lemma FlattenSome(fragments: seq<seq<byte>>, i: nat)
    requires i <= |fragments|
    ensures i == 0 ==> Flatten(fragments[..i]) == []
    ensures i == |fragments| ==> Flatten(fragments[..i]) == Flatten(fragments)
  {
    assert fragments[..|fragments|] == fragments;
  }

  function Joined(frames: seq<seq<seq<byte>>>): seq<seq<byte>> {
    if frames == [] then [] else Joined(frames[..|frames| - 1]) + [Flatten(frames[|frames| - 1])]
  }

  /** Any run of well-split frames: the packet check sees exactly the frames, in order. */
  method CollectFrames(c: Collector, frames: seq<seq<seq<byte>>>, handled: bool)
    requires c.Valid() && c.Held() == Empty
    requires forall i | 0 <= i < |frames| :: GoodSplit(frames[i]) && Fits(Flatten(frames[i]))
    modifies c, c.packetbuff
    ensures c.Valid() && c.Held() == Empty
    ensures c.seen == old(c.seen) + Joined(frames)
  {
    hide Flatten, Fits, GoodSplit;
    var i := 0;
    while i < |frames|
      invariant 0 <= i <= |frames| && c.Valid() && c.Held() == Empty
      invariant c.seen == old(c.seen) + Joined(frames[..i])
    {
      var results := CollectFrame(c, frames[i], handled);
      assert frames[..i + 1][..i] == frames[..i];
      Associative(old(c.seen), Joined(frames[..i]), [Flatten(frames[i])]);
      i := i + 1;
    }
    assert frames[..i] == frames;
  }
}
