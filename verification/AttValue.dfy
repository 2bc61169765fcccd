/** The growable value of a GATT attribute, and the write request that fills it from a chain of buffers. */
module AttValue {
  import opened Bytes

  const BLE_ATT_ATTR_MAX_LEN: uint16 := 512
  const BLE_ATT_ERR_INVALID_ATTR_VALUE_LEN := 0x0d

  // ----- what the class refines: a byte sequence with a maximum length -----

  datatype Value = Value(bytes: seq<byte>, max: uint16) {
    predicate Bounded() {
      |bytes| <= max <= 512
    }
  }

  datatype Op = Set(data: seq<byte>) | Append(data: seq<byte>) | CopyOf(other: Value)

  /** Whether an operation is carried out; a refused one changes nothing. */
  predicate Accepted(v: Value, op: Op) {
    match op
    case Set(data) => |data| <= v.max
    case Append(data) => |v.bytes| + |data| <= v.max
    case CopyOf(_) => true
  }

  function Apply(v: Value, op: Op): Value {
    if !Accepted(v, op) then v
    else match op
      case Set(data) => v.(bytes := data)
      case Append(data) => v.(bytes := v.bytes + data)
      case CopyOf(other) => other
  }

  function Run(v: Value, ops: seq<Op>): Value {
    if ops == [] then v else Apply(Run(v, ops[..|ops| - 1]), ops[|ops| - 1])
  }

  /** Over every run of operations the value stays within its maximum. */
  lemma {:induction false} RunStaysBounded(v: Value, ops: seq<Op>)
    requires v.Bounded() && forall op | op in ops && op.CopyOf? :: op.other.Bounded()
    ensures Run(v, ops).Bounded()
  {
    if ops == [] {
    } else {
      RunStaysBounded(v, ops[..|ops| - 1]);
    }
  }

  /** A run of appends adds the whole of the data in order if it all fits. */
  lemma {:induction false} AppendsConcatenate(v: Value, parts: seq<seq<byte>>)
    requires v.Bounded() && |v.bytes| + |Flatten(parts)| <= v.max
    ensures Run(v, Appends(parts)) == v.(bytes := v.bytes + Flatten(parts))
    decreases |parts|
  {
    if parts == [] {
      assert v.bytes + [] == v.bytes;
    } else {
      var init, last := parts[..|parts| - 1], parts[|parts| - 1];
      FlattenLast(parts);
      AppendsConcatenate(v, init);
      assert Appends(parts)[..|parts| - 1] == Appends(init);
      Associative(v.bytes, Flatten(init), last);
    }
  }

  function Appends(parts: seq<seq<byte>>): seq<Op> {
    seq(|parts|, i requires 0 <= i < |parts| => Append(parts[i]))
  }

  // ----- the class -----

  class NimBLEAttValue {
    var value: array<byte>
    var maxLen: uint16
    var len: uint16
    var capacity: uint16

    ghost predicate Valid()
      reads this, value
    {
      value.Length == capacity + 1 && len <= capacity && value[len] == 0
    }

    ghost function Abstract(): Value
      reads this, value
      requires Valid()
    {
      Value(value[..len], maxLen)
    }

    constructor (initLen: uint16, maxLen: uint16)
      ensures Valid() && fresh(value) && capacity == initLen
      ensures Abstract() == Value([], if maxLen < 512 then maxLen else 512)
    {
      value := new byte[initLen + 1](i => 0);
      this.maxLen := Min(BLE_ATT_ATTR_MAX_LEN, maxLen);
      len, capacity := 0, initLen;
    }

    /** The initial value is not checked: it is within the maximum exactly if the caller sees to it. */
    constructor FromBytes(data: seq<byte>, maxLen: uint16)
      requires |data| < 0x1_0000
      ensures Valid() && fresh(value) && capacity == |data|
      ensures Abstract() == Value(data, if maxLen < 512 then maxLen else 512)
      ensures Abstract().Bounded() <==> |data| <= 512 && |data| <= maxLen
    {
      value := new byte[|data| + 1](i requires 0 <= i < |data| + 1 => if i < |data| then data[i] else 0);
      this.maxLen := Min(BLE_ATT_ATTR_MAX_LEN, maxLen);
      len, capacity := |data|, |data|;
    }

    /** `realloc`: a buffer of another size that starts with the same bytes. */
    static method Realloc(a: array<byte>, size: nat) returns (b: array<byte>)
      ensures fresh(b) && b.Length == size
      ensures b[..Min(size, a.Length)] == a[..Min(size, a.Length)]
    {
      b := new byte[size];
      forall i | 0 <= i < Min(size, a.Length) {
        b[i] := a[i];
      }
    }

    /** Writes `data` at `at` and a zero after it. */
    method Store(at: nat, data: seq<byte>)
      requires at + |data| < value.Length
      modifies value
      ensures value[..at] == old(value[..at]) && value[at..at + |data|] == data && value[at + |data|] == 0
    {
      forall i | 0 <= i < |data| {
        value[at + i] := data[i];
      }
      assert value[at..at + |data|] == data;
      value[at + |data|] := 0;
    }

    method SetValue(data: seq<byte>) returns (ok: bool)
      requires Valid() && |data| < 0x1_0000
      modifies this, value
      ensures Valid() && (value == old(value) || fresh(value))
      ensures Abstract() == Apply(old(Abstract()), Set(data))
      ensures ok == Accepted(old(Abstract()), Set(data))
      ensures capacity == if ok && |data| > old(capacity) then |data| else old(capacity)
    {
      if |data| > maxLen {
        return false;
      }
      if |data| > capacity {
        value := Realloc(value, |data| + 1);
        capacity := |data|;
      }
      Store(0, data);
      len := |data|;
      ok := true;
    }

    method AppendData(data: seq<byte>)
      requires Valid() && |data| < 0x1_0000
      modifies this, value
      ensures Valid() && (value == old(value) || fresh(value))
      ensures Abstract() == Apply(old(Abstract()), Append(data))
      ensures capacity >= old(capacity)
    {
      if |data| < 1 {
        assert value[..len] + data == value[..len];
        return;
      }
      if len + |data| > maxLen {
        return;
      }
      ghost var before := value[..len];
      var newLen: uint16 := len + |data|;
      if newLen > capacity {
        value := Realloc(value, newLen + 1);
        capacity := newLen;
      }
      assert value[..len] == before;
      Store(len, data);
      len := newLen;
    }

    /** The copy takes over the maximum and the capacity of the source. */
    method DeepCopy(source: NimBLEAttValue)
      requires Valid() && source.Valid() && source != this && source.value != value
      modifies this, value
      ensures Valid() && fresh(value) && capacity == source.capacity
      ensures source.Valid() && source.Abstract() == old(source.Abstract())
      ensures Abstract() == Apply(old(Abstract()), CopyOf(source.Abstract()))
    {
      value := Realloc(value, source.capacity + 1);
      maxLen, len, capacity := source.maxLen, source.len, source.capacity;
      forall i | 0 <= i < len + 1 {
        value[i] := source.value[i];
      }
      assert value[..len] == source.value[..len];
    }
  }

  // ----- a write request -----

  /** One buffer of a chain. */
  class OsMbuf {
    const data: seq<byte>
    const next: OsMbuf?
    ghost const parts: seq<seq<byte>>  // the data of this buffer and those after it

    ghost predicate Valid()
      decreases |parts|
    {
      && parts != [] && parts[0] == data
      && (if next == null then |parts| == 1 else next.parts == parts[1..] && next.Valid())
    }

    constructor (data: seq<byte>, next: OsMbuf?)
      requires next != null ==> next.Valid()
      ensures Valid() && this.data == data && this.next == next
    {
      this.data, this.next := data, next;
      parts := [data] + if next == null then [] else next.parts;
    }
  }

  /** A write stores the concatenation of the chain, or refuses it and changes nothing. */
  method HandleWrite(om: OsMbuf, v: NimBLEAttValue) returns (rc: int)
    requires om.Valid() && v.Valid()
    modifies v, v.value
    ensures v.Valid()
    ensures rc == if |Flatten(om.parts)| <= old(v.maxLen) then 0 else 0x0d
    ensures rc == 0 ==> v.Abstract() == old(v.Abstract()).(bytes := Flatten(om.parts))
    ensures rc != 0 ==> v.Abstract() == old(v.Abstract()) && v.value == old(v.value) && v.capacity == old(v.capacity)
  {
    if |om.data| > v.maxLen {
      FlattenGrows(om.parts, 1);
      return BLE_ATT_ERR_INVALID_ATTR_VALUE_LEN;
    }
    var buf := new byte[v.maxLen];
    var len := |om.data|;
    forall i | 0 <= i < len {
      buf[i] := om.data[i];
    }
    var next := om.next;
    ghost var done := 1;
    assert buf[..len] == Flatten(om.parts[..1]);
    while next != null
      invariant 1 <= done <= |om.parts|
      invariant if next == null then done == |om.parts| else next.Valid() && next.parts == om.parts[done..]
      invariant 0 <= len <= buf.Length && buf[..len] == Flatten(om.parts[..done])
      decreases |om.parts| - done
      modifies buf
    {
      assert om.parts[..done + 1][..done] == om.parts[..done];
      FlattenLast(om.parts[..done + 1]);
      if len + |next.data| > v.maxLen {
        FlattenGrows(om.parts, done + 1);
        return BLE_ATT_ERR_INVALID_ATTR_VALUE_LEN;
      }
      ghost var before := buf[..len];
      forall i | 0 <= i < |next.data| {
        buf[len + i] := next.data[i];
      }
      assert buf[..len + |next.data|] == before + next.data;
      len := len + |next.data|;
      next := next.next;
      done := done + 1;
    }
    assert om.parts[..done] == om.parts;
    var ok := v.SetValue(buf[..len]);
    rc := 0;
  }
}
