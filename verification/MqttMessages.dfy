/** The packets the client sends and what it makes of the packets it receives: sections 3.1, 3.3 and 3.4
    of MQTT 3.1.1. */
module MqttMessages {
  import opened Bytes
  import opened MqttFraming

  const MQTTCONNECT: byte := 0x10
  const MQTTPUBACK: byte := 0x40
  const MQTTPINGREQ: byte := 0xc0
  const MQTTPINGRESP: byte := 0xd0

  /** A string as the source passes it: no NUL inside. */
  predicate NulFree(s: seq<byte>) {
    0 !in s
  }

  /** A length-prefixed string, as `writeString` lays it out. */
  function StringField(s: seq<byte>): seq<byte>
    requires |s| < 0x1_0000
  {
    U16(|s|) + s
  }

  /** The string that starts at `i` and ends before the first NUL. */
  function CString(s: seq<byte>, i: nat): seq<byte>
    requires i <= |s|
    decreases |s| - i
  {
    if i == |s| || s[i] == 0 then [] else [s[i]] + CString(s, i + 1)
  }

  lemma {:induction false} CStringReads(s: seq<byte>, i: nat, text: seq<byte>)
    requires i + |text| < |s| && s[i..i + |text|] == text
    requires NulFree(text) && s[i + |text|] == 0
    ensures CString(s, i) == text
    decreases |text|
  {
    if text == [] {
    } else {
      assert s[i] == text[0] && text[0] in text;
      assert s[i + 1..i + 1 + |text[1..]|] == s[i..i + |text|][1..];
      CStringReads(s, i + 1, text[1..]);
    }
  }

  // ----- PUBLISH -----

  function PublishPacket(topic: seq<byte>, payload: seq<byte>, retained: bool): seq<byte>
    requires |topic| < 0x1_0000
  {
    Packet(MQTTPUBLISH + if retained then 1 else 0, StringField(topic) + payload)
  }

  /** What `loop` does with a packet that was read whole. */
  datatype Reaction =
    | Deliver(topic: seq<byte>, payload: seq<byte>, ack: seq<byte>)  // the callback, then the bytes sent
    | Respond(answer: seq<byte>)
    | PingAnswered
    | Ignore

  /** The QoS bits of a PUBLISH header are 01. */
  predicate IsQos1(header: byte) {
    header / 2 % 4 == 1
  }

  function TopicLength(p: seq<byte>, lengthLength: nat): uint16
    requires lengthLength + 2 < |p|
  {
    FromU16(p[lengthLength + 1], p[lengthLength + 2])
  }

  /** Where the payload of a PUBLISH starts: after the topic and, for QoS 1, the message id. */
  function PayloadStart(p: seq<byte>, lengthLength: nat): nat
    requires lengthLength + 2 < |p|
  {
    lengthLength + 3 + TopicLength(p, lengthLength) + if IsQos1(p[0]) then 2 else 0
  }

  /** The topic and message id of a PUBLISH lie inside the packet. */
  predicate SoundPublish(p: seq<byte>, lengthLength: nat) {
    lengthLength + 2 < |p| && PayloadStart(p, lengthLength) <= |p|
  }

  function React(p: seq<byte>, lengthLength: nat, hasCallback: bool): Reaction
    requires p != [] && (hasCallback && IsPublish(p[0]) ==> SoundPublish(p, lengthLength))
  {
    if IsPublish(p[0]) then
      if !hasCallback then Ignore else
      var idAt := lengthLength + 3 + TopicLength(p, lengthLength);
      Deliver(CString(p[lengthLength + 3..idAt], 0), p[PayloadStart(p, lengthLength)..],
              if IsQos1(p[0]) then [MQTTPUBACK, 2, p[idAt], p[idAt + 1]] else [])
    else if p[0] / 16 == 12 then Respond([MQTTPINGRESP, 0])
    else if p[0] / 16 == 13 then PingAnswered
    else Ignore
  }

  /** Lengths below 2^16 take at most three digits. */
  lemma LengthDigits(n: nat)
    requires n < 0x1_0000
    ensures |EncodeLength(n)| <= 3
  {
    PowerValues();
    DecodeEncode(n, [], 3);
  }

  lemma {:induction false} WholeCString(text: seq<byte>, i: nat)
    requires NulFree(text) && i <= |text|
    ensures CString(text, i) == text[i..]
    decreases |text| - i
  {
    if i < |text| {
      assert text[i] in text;
      WholeCString(text, i + 1);
    }
  }

  /** Where the parts of a published packet are. */
  lemma PublishLayout(topic: seq<byte>, payload: seq<byte>, retained: bool)
    requires |topic| < 0x1_0000
    ensures var d := |EncodeLength(2 + |topic| + |payload|)|;
      var p := PublishPacket(topic, payload, retained);
      && |p| == 1 + d + 2 + |topic| + |payload|
      && p[0] == (if retained then 0x31 else 0x30)
      && TopicLength(p, d) == |topic|
      && p[d + 3..d + 3 + |topic|] == topic
      && p[d + 3 + |topic|..] == payload
  {
    var digits := EncodeLength(2 + |topic| + |payload|);
    var p := PublishPacket(topic, payload, retained);
    assert p == [p[0]] + digits + StringField(topic) + payload;
    assert p[|digits| + 1] == U16(|topic|)[0] && p[|digits| + 2] == U16(|topic|)[1];
  }

  /** A published packet that fits the reader's buffer is read whole, and the callback gets the topic and
      the payload that were published. */
  lemma PublishRoundTrip(topic: seq<byte>, payload: seq<byte>, retained: bool, rest: seq<byte>, size: nat)
    requires NulFree(topic) && 7 + |topic| + |payload| <= size < 0x1_0000
    ensures var p := PublishPacket(topic, payload, retained);
      && |p| <= size && WellFormed(p)
      && ReadOutcome(p + rest).Got? && ReadOutcome(p + rest).used == |p|
      && SoundPublish(p, ReadOutcome(p + rest).lengthLength)
      && React(p, ReadOutcome(p + rest).lengthLength, true) == Deliver(topic, payload, [])
  {
    hide Packet, EncodeLength, CString;
    var header := MQTTPUBLISH + if retained then 1 else 0;
    var body := StringField(topic) + payload;
    var p := PublishPacket(topic, payload, retained);
    PublishLayout(topic, payload, retained);
    PacketIsPacket(header, body, []);
    assert p + [] == p;
    WellFormedTaken(p, rest);
    WholeCString(topic, 0);
    LengthDigits(|body|);
  }

  /** A PUBLISH with any header, section 3.3 of MQTT 3.1.1; one of QoS 1 has an id after the topic. */
  function AnyPublish(header: byte, topic: seq<byte>, id: uint16, payload: seq<byte>): seq<byte>
    requires |topic| < 0x1_0000
  {
    Packet(header, StringField(topic) + (if header in {0x32, 0x33, 0x3a, 0x3b} then U16(id) else []) + payload)
  }

  /** It brings the topic and the payload to the callback, and one of QoS 1 is acknowledged with its id. */
  lemma PublishReaction(header: byte, topic: seq<byte>, id: uint16, payload: seq<byte>)
    requires 0x30 <= header <= 0x3f && NulFree(topic) && |topic| < 0x1_0000 && |payload| < 0x100_0000
    ensures var p := AnyPublish(header, topic, id, payload);
      var d := DecodeLength(p[1..], 4);
      && WellFormed(p) && d.Value? && SoundPublish(p, d.digits)
      && React(p, d.digits, true)
         == Deliver(topic, payload,
                    if header in {0x32, 0x33, 0x3a, 0x3b} then [0x40, 0x02, id / 256, id % 256] else [])
  {
    hide EncodeLength, DecodeLength, CString, NulFree, IsPacket, Body;
    var middle := if header in {0x32, 0x33, 0x3a, 0x3b} then U16(id) else [];
    var body := StringField(topic) + middle + payload;
    var p, n := AnyPublish(header, topic, id, payload), |EncodeLength(|body|)|;
    PacketIsPacket(header, body, []);
    assert p + [] == p;
    assert p[1 + n..] == body;
    PublishParts(p, n, topic, middle, payload);
    Qos1Headers(header);
    IdBytes(id);
    hide StringField, U16, TopicLength, React, SoundPublish, IsQos1;
    if middle != [] {
      assert p[n + 3 + |topic| + 0] == middle[0] && p[n + 3 + |topic| + 1] == middle[1];
    }
    PartsReaction(p, n, topic, middle, payload);
  }

  lemma PartsReaction(p: seq<byte>, n: nat, topic: seq<byte>, middle: seq<byte>, payload: seq<byte>)
    requires |p| == n + 3 + |topic| + |middle| + |payload| && IsPublish(p[0]) && NulFree(topic)
    requires TopicLength(p, n) == |topic| && p[n + 3..n + 3 + |topic|] == topic
    requires p[n + 3 + |topic| + |middle|..] == payload
    requires if IsQos1(p[0]) then |middle| == 2 else middle == []
    requires forall i | 0 <= i < |middle| :: p[n + 3 + |topic| + i] == middle[i]
    ensures SoundPublish(p, n)
    ensures React(p, n, true) == Deliver(topic, payload, if middle == [] then [] else [0x40, 0x02] + middle)
  {
    hide IsQos1, TopicLength, IsPublish, CString, NulFree;
    WholeCString(topic, 0);
    assert PayloadStart(p, n) == n + 3 + |topic| + |middle|;
    if middle != [] {
      var at := n + 3 + |topic|;
      assert p[at + 0] == middle[0] && p[at + 1] == middle[1];
      assert [0x40, 0x02] + middle == [0x40, 0x02, middle[0], middle[1]];
    }
  }

  lemma Qos1Headers(header: byte)
    requires 0x30 <= header <= 0x3f
    ensures IsQos1(header) <==> header in {0x32, 0x33, 0x3a, 0x3b}
  {
  }

  lemma IdBytes(id: uint16)
    ensures U16(id) == [id / 256, id % 256]
  {
  }

  lemma PublishParts(p: seq<byte>, n: nat, topic: seq<byte>, middle: seq<byte>, payload: seq<byte>)
    requires |topic| < 0x1_0000 && 1 + n <= |p| && p[1 + n..] == StringField(topic) + middle + payload
    ensures |p| == n + 3 + |topic| + |middle| + |payload|
    ensures TopicLength(p, n) == |topic| && p[n + 3..n + 3 + |topic|] == topic
    ensures p[n + 3 + |topic| + |middle|..] == payload
    ensures forall i | 0 <= i < |middle| :: p[n + 3 + |topic| + i] == middle[i]
  {
    var body := p[1 + n..];
    assert body[0] == U16(|topic|)[0] && body[1] == U16(|topic|)[1];
    assert p[n + 1] == body[0] && p[n + 2] == body[1];
    assert p[n + 3..n + 3 + |topic|] == body[2..2 + |topic|] == topic;
    assert p[n + 3 + |topic| + |middle|..] == body[2 + |topic| + |middle|..] == payload;
    forall i | 0 <= i < |middle|
      ensures p[n + 3 + |topic| + i] == middle[i]
    {
      assert p[n + 3 + |topic| + i] == body[2 + |topic| + i];
    }
  }

  /** What the other packets bring: a PINGREQ is answered, a PINGRESP noted, anything else ignored. */
  lemma OtherReactions(p: seq<byte>, lengthLength: nat, hasCallback: bool)
    requires p != [] && !(0x30 <= p[0] <= 0x3f && hasCallback)
    ensures React(p, lengthLength, hasCallback) ==
      if 0xc0 <= p[0] <= 0xcf then Respond([0xd0, 0x00])
      else if 0xd0 <= p[0] <= 0xdf then PingAnswered
      else Ignore
  {
  }

  // ----- CONNECT -----

  datatype Will = Will(topic: seq<byte>, message: seq<byte>, qos: byte, retain: bool)

  datatype ConnectArgs = ConnectArgs(
    id: seq<byte>, will: Option<Will>, user: Option<seq<byte>>, pass: Option<seq<byte>>,
    cleanSession: bool, keepAlive: uint16)
  {
    /** What can be sent: a password only goes with a user name. */
    function Sent(): ConnectArgs {
      if user.None? then this.(pass := None) else this
    }

    predicate ShortWill() {
      will.Some? ==> |will.value.topic| < 0x1_0000 && |will.value.message| < 0x1_0000
    }

    predicate ShortUser() {
      user.Some? ==> |user.value| < 0x1_0000 && (pass.Some? ==> |pass.value| < 0x1_0000)
    }

    /** Every string that is sent has a two-byte length. */
    predicate Short() {
      |id| < 0x1_0000 && ShortWill() && ShortUser()
    }

    /** No will, or one with a QoS that exists. */
    predicate ValidQos() {
      will.Some? ==> will.value.qos <= 2
    }
  }

  function Bit(b: bool, weight: byte): byte {
    if b then weight else 0
  }

  /** The bits of the connect flags, section 3.1.2.3. */
  datatype Flags = Flags(user: bool, pass: bool, retain: bool, qos: byte, will: bool, clean: bool, reserved: bool)

  function SplitFlags(f: byte): Flags {
    var f7 := f - Bit(f >= 128, 128);
    var f6 := f7 - Bit(f7 >= 64, 64);
    var f5 := f6 - Bit(f6 >= 32, 32);
    var qos := if f5 >= 24 then 3 else if f5 >= 16 then 2 else if f5 >= 8 then 1 else 0;
    var f3 := f5 - 8 * qos;
    var f2 := f3 - Bit(f3 >= 4, 4);
    Flags(f >= 128, f7 >= 64, f6 >= 32, qos, f3 >= 4, f2 >= 2, f2 - Bit(f2 >= 2, 2) >= 1)
  }

  function JoinFlags(f: Flags): byte
    requires f.qos < 4
  {
    Bit(f.reserved, 1) + Bit(f.clean, 2) + Bit(f.will, 4) + 8 * f.qos
    + Bit(f.retain, 32) + Bit(f.pass, 64) + Bit(f.user, 128)
  }

  /** The connect flags. The QoS is shifted left three places and or-ed in, so its bits above the second
      land on the retain, password and user flags. */
  function ConnectFlags(a: ConnectArgs): byte {
    var qos := if a.will.Some? then a.will.value.qos else 0;
    var retain := a.will.Some? && a.will.value.retain;
    JoinFlags(Flags(a.user.Some? || qos / 16 % 2 == 1, (a.user.Some? && a.pass.Some?) || qos / 8 % 2 == 1,
                    retain || qos / 4 % 2 == 1, qos % 4, a.will.Some?, a.cleanSession, false))
  }

  /** Protocol name and level of MQTT 3.1.1. */
  const PROTOCOL: seq<byte> := [0x00, 0x04, 0x4d, 0x51, 0x54, 0x54, 0x04]

  function WillFields(a: ConnectArgs): seq<byte>
    requires a.ShortWill()
  {
    if a.will.None? then [] else StringField(a.will.value.topic) + StringField(a.will.value.message)
  }

  function UserFields(a: ConnectArgs): seq<byte>
    requires a.ShortUser()
  {
    if a.user.None? then [] else StringField(a.user.value) + PassField(a)
  }

  function PassField(a: ConnectArgs): seq<byte>
    requires a.ShortUser() && a.user.Some?
  {
    if a.pass.None? then [] else StringField(a.pass.value)
  }

  function ConnectBody(a: ConnectArgs): seq<byte>
    requires a.Short()
  {
    PROTOCOL + [ConnectFlags(a)] + U16(a.keepAlive) + (StringField(a.id) + (WillFields(a) + UserFields(a)))
  }

  function ConnectPacket(a: ConnectArgs): seq<byte>
    requires a.Short()
  {
    Packet(MQTTCONNECT, ConnectBody(a))
  }

  // The server's side: a decoder written from section 3.1 of MQTT 3.1.1.

  function ParseString(s: seq<byte>): Option<(seq<byte>, seq<byte>)> {
    if |s| < 2 then None else
    var n := FromU16(s[0], s[1]);
    if |s| < 2 + n then None else Some((s[2..2 + n], s[2 + n..]))
  }

  function ParseWill(f: Flags, s: seq<byte>): Option<(Option<Will>, seq<byte>)> {
    if !f.will then
      if f.qos == 0 && !f.retain then Some((None, s)) else None
    else if f.qos == 3 then None
    else match ParseString(s)
      case None => None
      case Some((topic, s1)) => match ParseString(s1)
        case None => None
        case Some((message, s2)) => Some((Some(Will(topic, message, f.qos, f.retain)), s2))
  }

  function ParseOptional(present: bool, s: seq<byte>): Option<(Option<seq<byte>>, seq<byte>)> {
    if !present then Some((None, s))
    else match ParseString(s)
      case None => None
      case Some((text, rest)) => Some((Some(text), rest))
  }

  function ParsePayload(f: Flags, keepAlive: uint16, s: seq<byte>): Option<ConnectArgs> {
    match ParseString(s)
    case None => None
    case Some((id, s1)) => match ParseWill(f, s1)
      case None => None
      case Some((will, s2)) => match ParseOptional(f.user, s2)
        case None => None
        case Some((user, s3)) => match ParseOptional(f.pass, s3)
          case None => None
          case Some((pass, s4)) =>
            if s4 != [] || f.reserved || (f.pass && !f.user) then None
            else Some(ConnectArgs(id, will, user, pass, f.clean, keepAlive))
  }

  function ParseConnect(p: seq<byte>): Option<ConnectArgs> {
    if p == [] || p[0] != MQTTCONNECT || !IsPacket(p) then None else
    var body := p[1 + DecodeLength(p[1..], 4).digits..];
    if |body| < 10 || body[..7] != PROTOCOL then None
    else ParsePayload(SplitFlags(body[7]), FromU16(body[8], body[9]), body[10..])
  }

  lemma StringParses(s: seq<byte>, rest: seq<byte>)
    requires |s| < 0x1_0000
    ensures ParseString(StringField(s) + rest) == Some((s, rest))
  {
    var f := StringField(s) + rest;
    assert f[0] == U16(|s|)[0] && f[1] == U16(|s|)[1];
    assert f[2..2 + |s|] == s && f[2 + |s|..] == rest;
  }

  /** The top bit is read off by comparing with its weight. */
  lemma Peel(low: nat, b: bool, weight: byte)
    requires low < weight
    ensures (low + Bit(b, weight) >= weight) == b
    ensures low + Bit(b, weight) < 2 * weight
  {
  }

  lemma SplitJoin(f: Flags)
    requires f.qos < 4
    ensures SplitFlags(JoinFlags(f)) == f
  {
    hide Bit;
    Peel(0, f.reserved, 1);
    var f1 := Bit(f.reserved, 1);
    Peel(f1, f.clean, 2);
    var f2 := f1 + Bit(f.clean, 2);
    Peel(f2, f.will, 4);
    var f3 := f2 + Bit(f.will, 4);
    var f5 := f3 + 8 * f.qos;
    Peel(f5, f.retain, 32);
    var f6 := f5 + Bit(f.retain, 32);
    Peel(f6, f.pass, 64);
    var f7 := f6 + Bit(f.pass, 64);
    Peel(f7, f.user, 128);
  }

  /** What a server reads off the flags, for every QoS: it is the given one modulo 4, and the bits above the second
      land on the retain, password and user flags. */
  lemma FlagsDecode(a: ConnectArgs)
    ensures var f := SplitFlags(ConnectFlags(a));
      var qos := if a.will.Some? then a.will.value.qos else 0;
      && !f.reserved && f.clean == a.cleanSession && f.will == a.will.Some?
      && f.qos == qos % 4
      && f.retain == ((a.will.Some? && a.will.value.retain) || qos / 4 % 2 == 1)
      && f.pass == ((a.user.Some? && a.pass.Some?) || qos / 8 % 2 == 1)
      && f.user == (a.user.Some? || qos / 16 % 2 == 1)
  {
    hide SplitFlags, JoinFlags;
    var qos := if a.will.Some? then a.will.value.qos else 0;
    var retain := a.will.Some? && a.will.value.retain;
    SplitJoin(Flags(a.user.Some? || qos / 16 % 2 == 1, (a.user.Some? && a.pass.Some?) || qos / 8 % 2 == 1,
                    retain || qos / 4 % 2 == 1, qos % 4, a.will.Some?, a.cleanSession, false));
  }

  lemma PayloadParses(a: ConnectArgs)
    requires a.Short() && a.ValidQos()
    ensures ParsePayload(SplitFlags(ConnectFlags(a)), a.keepAlive, StringField(a.id) + (WillFields(a) + UserFields(a)))
         == Some(a.Sent())
  {
    hide ConnectFlags, SplitFlags, StringField, ParseString;
    FlagsDecode(a);
    StringParses(a.id, WillFields(a) + UserFields(a));
    if a.will.Some? {
      var w := a.will.value;
      assert WillFields(a) + UserFields(a) == StringField(w.topic) + (StringField(w.message) + UserFields(a));
      StringParses(w.topic, StringField(w.message) + UserFields(a));
      StringParses(w.message, UserFields(a));
    } else {
      assert WillFields(a) + UserFields(a) == UserFields(a);
    }
    if a.user.Some? {
      StringParses(a.user.value, PassField(a));
      if a.pass.Some? {
        assert PassField(a) == StringField(a.pass.value) + [];
        StringParses(a.pass.value, []);
      }
    }
  }

  lemma BodyLength(a: ConnectArgs)
    requires a.Short()
    ensures |ConnectBody(a)| < 0x1000_0000
  {
  }

  lemma ConnectLayout(a: ConnectArgs)
    requires a.Short()
    ensures ParseConnect(ConnectPacket(a))
         == ParsePayload(SplitFlags(ConnectFlags(a)), a.keepAlive, StringField(a.id) + (WillFields(a) + UserFields(a)))
  {
    hide ConnectFlags, SplitFlags, StringField, ParsePayload, EncodeLength, DecodeLength;
    var body, p := ConnectBody(a), ConnectPacket(a);
    BodyLength(a);
    PacketIsPacket(MQTTCONNECT, body, []);
    assert p + [] == p;
    assert p[1 + |EncodeLength(|body|)|..] == body;
    assert body[..7] == PROTOCOL;
    assert body[8..10] == U16(a.keepAlive) && body[8] == body[8..10][0] && body[9] == body[8..10][1];
    assert body[10..] == StringField(a.id) + (WillFields(a) + UserFields(a));
  }

  /** A CONNECT packet starts as section 3.1 of MQTT 3.1.1 says: the type, the length, the name and level of the
      protocol, the flags, the keep-alive time, and then the strings. */
  lemma ConnectBytes(a: ConnectArgs)
    requires a.Short()
    ensures var p := ConnectPacket(a);
      && IsPacket(p) && p[0] == 0x10
      && var body := Body(p);
      && |body| >= 12 + |a.id|
      && body[..7] == [0x00, 0x04, 0x4d, 0x51, 0x54, 0x54, 0x04]
      && body[8] == a.keepAlive / 256 && body[9] == a.keepAlive % 256
      && body[10] == |a.id| / 256 && body[11] == |a.id| % 256
      && body[12..12 + |a.id|] == a.id
  {
    hide ConnectFlags, EncodeLength, DecodeLength, IsPacket, Body;
    var body := ConnectBody(a);
    BodyLength(a);
    PacketIsPacket(MQTTCONNECT, body, []);
    BodyParts(body, ConnectFlags(a), a.keepAlive, a.id, WillFields(a) + UserFields(a));
  }

  lemma BodyParts(body: seq<byte>, flags: byte, keepAlive: uint16, id: seq<byte>, rest: seq<byte>)
    requires |id| < 0x1_0000
    requires body == PROTOCOL + [flags] + U16(keepAlive) + (StringField(id) + rest)
    ensures |body| >= 12 + |id|
    ensures body[..7] == [0x00, 0x04, 0x4d, 0x51, 0x54, 0x54, 0x04]
    ensures body[8] == keepAlive / 256 && body[9] == keepAlive % 256
    ensures body[10] == |id| / 256 && body[11] == |id| % 256
    ensures body[12..12 + |id|] == id
  {
  }

  /** A CONNECT packet decodes to exactly what was asked for, for every combination of absent fields, if
      and only if the will has a QoS that MQTT defines. */
  lemma ConnectRoundTrip(a: ConnectArgs)
    requires a.Short()
    ensures ParseConnect(ConnectPacket(a)) == Some(a.Sent()) <==> a.ValidQos()
  {
    hide ConnectFlags, SplitFlags, StringField, ConnectPacket, WillFields, UserFields, ParseString;
    ConnectLayout(a);
    FlagsDecode(a);
    if a.ValidQos() {
      PayloadParses(a);
    }
  }
}
