/** Reading MQTT control packets off a byte stream: the fixed header of section 2.2 of MQTT 3.1.1 and
    what one call of `readPacket` takes. */
module MqttFraming {
  import opened Bytes

  const MQTTPUBLISH: byte := 0x30

  /** Section 2.2.3 of MQTT 3.1.1: seven bits a digit, least significant first, the top bit set on
      all digits but the last. */
  function EncodeLength(n: nat): (digits: seq<byte>)
    ensures digits != []
  {
    if n < 128 then [n] else [n % 128 + 128] + EncodeLength(n / 128)
  }

  datatype Length =
    | Value(n: nat, digits: nat)  // decoded from this many digits
    | TooLong                     // a fourth digit that announces a fifth
    | Short                       // the stream ended inside the digits

  /** Decodes at most `limit` digits. */
  function DecodeLength(s: seq<byte>, limit: nat): Length
    decreases limit
  {
    if limit == 0 then TooLong
    else if s == [] then Short
    else if s[0] < 128 then Value(s[0], 1)
    else match DecodeLength(s[1..], limit - 1)
      case Value(n, digits) => Value(s[0] - 128 + 128 * n, digits + 1)
      case other => other
  }

  function Power128(k: nat): nat {
    if k == 0 then 1 else 128 * Power128(k - 1)
  }

  lemma PowerValues()
    ensures Power128(0) == 1 && Power128(1) == 128 && Power128(2) == 0x4000
    ensures Power128(3) == 0x20_0000 && Power128(4) == 0x1000_0000
  {
    assert Power128(4) == 128 * Power128(3) == 128 * 128 * Power128(2) == 128 * 128 * 128 * Power128(1);
  }

  lemma PowerBound(k: nat)
    requires k <= 4
    ensures Power128(k) <= 0x1000_0000
    ensures k > 0 ==> Power128(k) == Power128(k - 1) * 128
  {
    PowerValues();
  }

  lemma {:induction false} PowerPositive(k: nat)
    ensures Power128(k) >= 1
  {
    if k > 0 {
      PowerPositive(k - 1);
    }
  }

  lemma {:induction false} DecodeBounds(s: seq<byte>, limit: nat)
    requires limit <= 4 && DecodeLength(s, limit).Value?
    ensures 1 <= DecodeLength(s, limit).digits <= Min(limit, |s|)
    ensures DecodeLength(s, limit).n < Power128(limit)
  {
    assert Power128(limit) == 128 * Power128(limit - 1);
    PowerPositive(limit - 1);
    if s[0] >= 128 {
      DecodeBounds(s[1..], limit - 1);
    }
  }

  /** What was encoded is decoded, whatever follows, if it needs no more digits than allowed. */
  lemma {:induction false} DecodeEncode(n: nat, rest: seq<byte>, limit: nat)
    requires limit >= 1 && n < Power128(limit)
    ensures |EncodeLength(n)| <= limit
    ensures DecodeLength(EncodeLength(n) + rest, limit) == Value(n, |EncodeLength(n)|)
    decreases limit
  {
    if n >= 128 {
      assert limit >= 2 by {
        assert Power128(1) == 128;
      }
      DecodeEncode(n / 128, rest, limit - 1);
      assert (EncodeLength(n) + rest)[1..] == EncodeLength(n / 128) + rest;
    }
  }

  /** What follows the digits does not matter. */
  lemma {:induction false} DecodeLocal(s: seq<byte>, rest: seq<byte>, limit: nat)
    requires DecodeLength(s, limit).Value?
    ensures DecodeLength(s + rest, limit) == DecodeLength(s, limit)
    decreases limit
  {
    if s[0] >= 128 {
      DecodeLocal(s[1..], rest, limit - 1);
      assert (s + rest)[1..] == s[1..] + rest;
    }
  }

  // ----- one control packet -----

  predicate IsPublish(header: byte) {
    header / 16 == 3
  }

  /** A whole control packet: a header byte, up to four length digits, as many bytes as they say. */
  predicate IsPacket(w: seq<byte>) {
    w != [] && match DecodeLength(w[1..], 4)
      case Value(n, digits) => |w| == 1 + digits + n
      case _ => false
  }

  /** A PUBLISH packet has at least its topic length. */
  predicate HasTopicLength(w: seq<byte>)
    requires IsPacket(w)
  {
    IsPublish(w[0]) ==> DecodeLength(w[1..], 4).n >= 2
  }

  predicate WellFormed(w: seq<byte>) {
    IsPacket(w) && HasTopicLength(w)
  }

  /** What comes after the length digits. */
  function Body(w: seq<byte>): seq<byte>
    requires IsPacket(w)
  {
    w[1 + DecodeLength(w[1..], 4).digits..]
  }

  function Packet(header: byte, body: seq<byte>): seq<byte> {
    [header] + EncodeLength(|body|) + body
  }

  lemma PacketIsPacket(header: byte, body: seq<byte>, rest: seq<byte>)
    requires |body| < 0x1000_0000
    ensures IsPacket(Packet(header, body)) && Body(Packet(header, body)) == body
    ensures |EncodeLength(|body|)| <= 4
    ensures DecodeLength((Packet(header, body) + rest)[1..], 4) == Value(|body|, |EncodeLength(|body|)|)
  {
    hide EncodeLength, DecodeLength, Power128;
    PowerValues();
    DecodeEncode(|body|, body, 4);
    DecodeEncode(|body|, body + rest, 4);
    assert Packet(header, body)[1..] == EncodeLength(|body|) + body;
    assert (Packet(header, body) + rest)[1..] == EncodeLength(|body|) + (body + rest);
  }

  // ----- one call of readPacket on the bytes still to come -----

  datatype Outcome =
    | Got(used: nat, lengthLength: nat)  // read this many bytes as one packet
    | TimedOut                           // the stream ran dry inside the packet
    | Dropped                            // invalid length: connection closed

  function ReadOutcome(s: seq<byte>): (o: Outcome)
    ensures o.Got? ==> o.used <= |s|
  {
    if s == [] then TimedOut
    else match DecodeLength(s[1..], 4)
      case TooLong => Dropped
      case Short => TimedOut
      case Value(n, digits) =>
        // the two topic length bytes of a PUBLISH are read whatever the length says
        var body := if IsPublish(s[0]) && n < 2 then 2 else n;
        if |s| < 1 + digits + body then TimedOut else Got(1 + digits + body, digits)
  }

  /** One packet is taken exactly, unless it is a PUBLISH too short to hold a topic length. */
  lemma TakenExactly(w: seq<byte>, rest: seq<byte>)
    requires IsPacket(w) && |rest| >= 2
    ensures ReadOutcome(w + rest).Got?
    ensures ReadOutcome(w + rest).used == |w| <==> HasTopicLength(w)
  {
    assert (w + rest)[1..] == w[1..] + rest;
    DecodeLocal(w[1..], rest, 4);
  }

  lemma WellFormedTaken(w: seq<byte>, rest: seq<byte>)
    requires WellFormed(w)
    ensures ReadOutcome(w + rest) == Got(|w|, DecodeLength(w[1..], 4).digits)
    ensures |w| >= 2
  {
    assert (w + rest)[1..] == w[1..] + rest;
    DecodeLocal(w[1..], rest, 4);
    DecodeBounds(w[1..], 4);
  }

  /** A packet that has not arrived in full is waited for: the call fails but the connection stays. */
  lemma PartTimesOut(w: seq<byte>, n: nat)
    requires WellFormed(w) && n < |w|
    ensures ReadOutcome(w[..n]) == TimedOut
  {
    if n > 0 {
      var part := w[..n];
      assert part[1..] == w[1..][..n - 1];
      DecodePart(w[1..], n - 1, 4);
      DecodeBounds(w[1..], 4);
    }
  }

  lemma {:induction false} DecodePart(s: seq<byte>, n: nat, limit: nat)
    requires n <= |s| && DecodeLength(s, limit).Value?
    ensures DecodeLength(s[..n], limit) == if n < DecodeLength(s, limit).digits then Short else DecodeLength(s, limit)
  {
    if n > 0 && s[0] >= 128 {
      DecodePart(s[1..], n - 1, limit - 1);
      assert s[..n][1..] == s[1..][..n - 1];
    }
  }

  /** The results of `calls` successive calls with a buffer of `size` bytes (an empty result stands for
      a packet that was skipped), and the bytes left; None if a call fails. */
  function ReadMany(s: seq<byte>, size: nat, calls: nat): Option<(seq<seq<byte>>, seq<byte>)>
    decreases calls
  {
    if calls == 0 then Some(([], s))
    else match ReadOutcome(s)
      case Got(used, _) =>
        (match ReadMany(s[used..], size, calls - 1)
         case Some((results, left)) => Some(([if used <= size then s[..used] else []] + results, left))
         case None => None)
      case _ => None
  }

  /** The packets, those that are too big replaced by nothing. */
  function Fitting(packets: seq<seq<byte>>, size: nat): seq<seq<byte>> {
    if packets == [] then []
    else [if |packets[0]| <= size then packets[0] else []] + Fitting(packets[1..], size)
  }

  lemma ReadManyStep(w: seq<byte>, tail: seq<byte>, size: nat, calls: nat)
    requires WellFormed(w) && ReadMany(tail, size, calls).Some?
    ensures ReadMany(w + tail, size, calls + 1)
         == Some(([if |w| <= size then w else []] + ReadMany(tail, size, calls).value.0,
                  ReadMany(tail, size, calls).value.1))
  {
    hide ReadOutcome, WellFormed, DecodeLength;
    WellFormedTaken(w, tail);
    assert (w + tail)[|w|..] == tail && (w + tail)[..|w|] == w;
  }

  /** Framing never loses sync: on any run of well-formed packets each call takes exactly one of them,
      whole if it fits the buffer, and the bytes after the run are untouched. */
  lemma {:induction false} NeverLosesSync(packets: seq<seq<byte>>, rest: seq<byte>, size: nat)
    requires forall w | w in packets :: WellFormed(w)
    ensures ReadMany(Flatten(packets) + rest, size, |packets|) == Some((Fitting(packets, size), rest))
  {
    hide WellFormed;
    if packets == [] {
      assert Flatten(packets) + rest == rest;
    } else {
      var w, later := packets[0], packets[1..];
      assert Flatten(packets) == w + Flatten(later);
      hide ReadMany, Flatten;
      NeverLosesSync(later, rest, size);
      ReadManyStep(w, Flatten(later) + rest, size, |later|);
      Associative(w, Flatten(later), rest);
    }
  }

  /** Four digits that all announce another close the connection. */
  lemma FifthDigitDrops(header: byte, d0: byte, d1: byte, d2: byte, d3: byte, rest: seq<byte>)
    requires d0 >= 128 && d1 >= 128 && d2 >= 128
    ensures ReadOutcome([header, d0, d1, d2, d3] + rest).Dropped? <==> d3 >= 128
  {
    var s := [header, d0, d1, d2, d3] + rest;
    assert s[1..][0] == d0 && s[1..][1..][0] == d1 && s[1..][1..][1..][0] == d2;
    assert s[1..][1..][1..][1..][0] == d3;
    assert DecodeLength(s[1..][1..][1..][1..], 1).TooLong? <==> d3 >= 128;
    assert DecodeLength(s[1..][1..][1..], 2).TooLong? <==> d3 >= 128;
  }
}
