/** The MQTT client: a packet buffer, a socket and the state that `connect`, `publish` and `loop` keep. */
module MqttClient {
  import opened Bytes
  import opened MqttFraming
  import opened MqttMessages
  import K = MqttKeepAlive

  const MQTT_MAX_HEADER_SIZE := 5
  const MQTT_CONNECTION_TIMEOUT := -4
  const MQTT_CONNECTION_LOST := -3
  const MQTT_CONNECT_FAILED := -2
  const MQTT_DISCONNECTED := -1
  const MQTT_CONNECTED := 0

  /** The network client: bytes from the broker not read yet, bytes sent, and how many more bytes the
      transport takes. */
  class Socket {
    var open: bool
    var inbound: seq<byte>
    var wire: seq<byte>
    var room: nat

    method Stop()
      modifies `open, `inbound
      ensures !open && inbound == []
    {
      open, inbound := false, [];
    }

    /** A new connection. */
    method Open()
      modifies `open, `inbound
      ensures open && inbound == []
    {
      open, inbound := true, [];
    }

    /** More bytes arrive. */
    method Arrive(data: seq<byte>)
      modifies `inbound
      ensures inbound == old(inbound) + data
    {
      inbound := inbound + data;
    }

    method Read() returns (b: byte)
      requires inbound != []
      modifies `inbound
      ensures b == old(inbound)[0] && inbound == old(inbound)[1..]
    {
      b, inbound := inbound[0], inbound[1..];
    }

    method Write(data: seq<byte>) returns (n: nat)
      modifies `wire, `room
      ensures n == Min(|data|, old(room))
      ensures wire == old(wire) + data[..n] && room == old(room) - n
    {
      n := Min(|data|, room);
      wire, room := wire + data[..n], room - n;
    }
  }

  class PubSubClient {
    const socket: Socket
    const buffer: array<byte>
    var state: int
    var keepAlive: uint16
    var nextMsgId: uint16
    var lastIn: uint32
    var lastOut: uint32
    var pingOutstanding: bool
    var hasCallback: bool
    ghost var delivered: seq<(seq<byte>, seq<byte>)>  // the topics and payloads the callback was given
    ghost var trace: seq<K.Event>                     // what matters to the keep-alive, in order

    constructor (socket: Socket, size: uint16)
      requires 7 <= size
      ensures Valid() && fresh(buffer) && buffer.Length == size && this.socket == socket
      ensures state == -1 && delivered == [] && trace == []
    {
      this.socket := socket;
      buffer := new byte[size];
      state, keepAlive, hasCallback, delivered, trace := MQTT_DISCONNECTED, 15, false, [], [];
      nextMsgId, lastIn, lastOut, pingOutstanding := 0, 0, 0, false;
    }

    ghost predicate Valid() {
      7 <= buffer.Length < 0x1_0000
    }

    /** The network connection of a connected client is gone. */
    ghost predicate Lost()
      reads this, socket
    {
      !socket.open && state == MQTT_CONNECTED
    }

    ghost function Keep(): K.Keep
      reads this
    {
      K.Keep(state == MQTT_CONNECTED, pingOutstanding, lastIn, lastOut)
    }

    /** `connected()`: also notices a connection that was lost. */
    method Connected() returns (rc: bool)
      modifies `state, socket`open, socket`inbound
      ensures rc == (old(socket.open) && old(state) == 0)
      ensures state == if !old(socket.open) && old(state) == 0 then -3 else old(state)
      ensures socket.open == old(socket.open)
      ensures old(socket.open) ==> socket.inbound == old(socket.inbound)
    {
      rc := socket.open;
      if !rc {
        if state == MQTT_CONNECTED {
          state := MQTT_CONNECTION_LOST;
          socket.Stop();
        }
      } else {
        rc := state == MQTT_CONNECTED;
      }
    }

    method ReadByte() returns (ok: bool, b: byte)
      modifies socket`inbound
      ensures ok == (old(socket.inbound) != [])
      ensures if ok then [b] + socket.inbound == old(socket.inbound) else socket.inbound == []
    {
      ok, b := socket.inbound != [], 0;
      if ok {
        b := socket.Read();
      }
    }

    // ----- receiving -----

    /** Reads one byte into `buffer[at]`. */
    method ReadByteAt(at: uint16) returns (ok: bool)
      requires at < buffer.Length
      modifies buffer, socket`inbound
      ensures ok == (old(socket.inbound) != [])
      ensures ok ==> socket.inbound == old(socket.inbound)[1..]
      ensures ok ==> buffer[..at + 1] == old(buffer[..at]) + [old(socket.inbound)[0]]
      ensures !ok ==> socket.inbound == []
    {
      var b;
      ok, b := ReadByte();
      if ok {
        buffer[at] := b;
      }
    }

    /** The remaining length digits: decodes them into `length` and stores them after the header. */
    method ReadLength(ghost s: seq<byte>) returns (result: Length)
      requires Valid() && s != []
      requires buffer[0] == s[0] && socket.inbound == s[1..]
      modifies buffer, socket`inbound
      ensures result == DecodeLength(s[1..], 4)
      ensures result.Value? ==>
        && 1 <= result.digits <= 4 && 1 + result.digits <= |s|
        && socket.inbound == s[1 + result.digits..]
        && buffer[..1 + result.digits] == s[..1 + result.digits]
      ensures result.Short? ==> socket.inbound == []
    {
      hide Resume, DecodeLength, Power128;
      var len: uint16 := 1;
      var multiplier: uint32 := 1;
      var length: uint32 := 0;
      var digit: byte := 128;
      ResumeStart(DecodeLength(s[1..], 4));
      while digit >= 128
        invariant 1 <= len <= 5 && len <= |s| && length < multiplier
        invariant multiplier == Power128(len - 1)
        invariant digit >= 128 ==>
          DecodeLength(s[1..], 4) == Resume(length, multiplier, len - 1, DecodeLength(s[len..], 5 - len))
        invariant digit < 128 ==> DecodeLength(s[1..], 4) == Value(length, len - 1) && len > 1
        invariant socket.inbound == s[len..] && buffer[..len] == s[..len]
        decreases 5 - len, digit
      {
        ResumeStep(length, multiplier, len - 1, s[len..], 5 - len);
        if len == 5 {
          return TooLong;
        }
        var ok;
        ok, digit := ReadByte();
        if !ok {
          return Short;
        }
        PowerBound(len);
        DigitBound(length, digit % 128, multiplier);
        buffer[len] := digit;
        length := length + digit % 128 * multiplier;
        multiplier := multiplier * 128;
        len := len + 1;
      }
      result := Value(length, len - 1);
    }

    /** Takes one packet off the socket; 0 if it was skipped or could not be read. */
    method ReadPacket() returns (len: uint16, lengthLength: nat)
      requires Valid()
      modifies buffer, socket`inbound, socket`open, `state
      ensures match ReadOutcome(old(socket.inbound))
        case Got(used, digits) =>
          && len == (if used <= buffer.Length then used else 0) && lengthLength == digits
          && (len > 0 ==> buffer[..len] == old(socket.inbound)[..len])
          && socket.inbound == old(socket.inbound)[used..]
          && socket.open == old(socket.open) && state == old(state)
        case TimedOut =>
          len == 0 && socket.inbound == [] && socket.open == old(socket.open) && state == old(state)
        case Dropped =>
          len == 0 && socket.inbound == [] && !socket.open && state == -1
    {
      ghost var s := socket.inbound;
      hide DecodeLength;
      var ok := ReadByteAt(0);
      if !ok {
        return 0, 0;
      }
      assert buffer[0] == buffer[..1][0] == s[0];
      var result := ReadLength(s);
      if result.TooLong? {
        state := MQTT_DISCONNECTED;
        socket.Stop();
        return 0, 0;
      }
      if result.Short? {
        return 0, 0;
      }
      DecodeBounds(s[1..], 4);
      PowerBound(4);
      lengthLength := result.digits;
      len := 1 + lengthLength;
      var start: nat := 0;
      assert buffer[0] == buffer[..len][0] == s[0];
      if IsPublish(buffer[0]) {
        start := 2;
        ok := ReadTopicLength(s, len);
        if !ok {
          return 0, 0;
        }
        len := len + 2;
      }
      len := ReadBody(s, len, if result.n < start then 0 else result.n - start);
    }

    method ReadTopicLength(ghost s: seq<byte>, at: uint16) returns (ok: bool)
      requires Valid() && at <= 5 && at <= |s|
      requires buffer[..at] == s[..at] && socket.inbound == s[at..]
      modifies buffer, socket`inbound
      ensures ok == (|s| >= at + 2)
      ensures ok ==> buffer[..at + 2] == s[..at + 2] && socket.inbound == s[at + 2..]
      ensures !ok ==> socket.inbound == []
    {
      ok := ReadByteAt(at);
      if ok {
        ok := ReadByteAt(at + 1);
      }
    }

    /** The rest of the packet: what does not fit the buffer is read and thrown away. */
    method ReadBody(ghost s: seq<byte>, at: uint16, count: uint32) returns (len: uint16)
      requires Valid() && at <= buffer.Length && at <= |s|
      requires at + count < 0x1_0000_0000
      requires buffer[..at] == s[..at] && socket.inbound == s[at..]
      modifies buffer, socket`inbound
      ensures |s| < at + count ==> len == 0 && socket.inbound == []
      ensures |s| >= at + count ==>
        && socket.inbound == s[at + count..]
        && len == (if at + count <= buffer.Length then at + count else 0)
        && buffer[..len] == s[..len]
    {
      len := at;
      var idx: uint32 := at;
      for i := 0 to count
        invariant idx == at + i && idx <= |s| && len == Min(idx, buffer.Length)
        invariant socket.inbound == s[idx..] && buffer[..len] == s[..len]
      {
        var ok, digit := ReadByte();
        if !ok {
          return 0;
        }
        if len < buffer.Length {
          buffer[len] := digit;
          len := len + 1;
        }
        idx := idx + 1;
      }
      if idx > buffer.Length {
        len := 0;
      }
    }

    // ----- sending -----

    /** Appends a length-prefixed string at `pos`. */
    method WriteString(s: seq<byte>, pos: uint16) returns (end: uint16)
      requires Valid() && pos + 2 + |s| <= buffer.Length
      modifies buffer
      ensures end == pos + 2 + |s|
      ensures buffer[..end] == old(buffer[..pos]) + StringField(s)
    {
      end := pos + 2;
      var i := 0;
      while i < |s|
        invariant 0 <= i <= |s| && end == pos + 2 + i
        invariant buffer[..pos] == old(buffer[..pos]) && buffer[pos + 2..end] == s[..i]
      {
        buffer[end] := s[i];
        end, i := end + 1, i + 1;
      }
      buffer[end - i - 2] := i / 256;
      buffer[end - i - 1] := i % 256;
      assert buffer[pos + 2..end] == s;
      assert buffer[..end] == buffer[..pos] + [buffer[pos], buffer[pos + 1]] + buffer[pos + 2..end];
    }

    /** Builds the fixed header so that it ends where the packet body starts. */
    method BuildHeader(header: byte, length: uint16) returns (size: nat)
      requires Valid()
      modifies buffer
      ensures size == 1 + |EncodeLength(length)| <= 4
      ensures buffer[MQTT_MAX_HEADER_SIZE - size..MQTT_MAX_HEADER_SIZE] == [header] + EncodeLength(length)
      ensures buffer[MQTT_MAX_HEADER_SIZE..] == old(buffer[MQTT_MAX_HEADER_SIZE..])
    {
      LengthDigits(length);
      var lenBuf: seq<byte>, len := [], length;
      var more := true;
      while more
        invariant EncodeLength(length) == lenBuf + (if more then EncodeLength(len) else [])
        decreases len, more
      {
        var digit := len % 128;
        len := len / 128;
        if len > 0 {
          digit := digit + 128;
        }
        lenBuf := lenBuf + [digit];
        more := len > 0;
      }
      size := |lenBuf| + 1;
      buffer[4 - |lenBuf|] := header;
      for i := 0 to |lenBuf|
        invariant buffer[4 - |lenBuf|] == header
        invariant buffer[5 - |lenBuf|..5 - |lenBuf| + i] == lenBuf[..i]
        invariant buffer[5..] == old(buffer[5..])
      {
        buffer[5 - |lenBuf| + i] := lenBuf[i];
      }
      assert buffer[5 - size..5] == [buffer[4 - |lenBuf|]] + buffer[5 - |lenBuf|..5];
    }

    /** Sends the packet whose body is `buffer[5..5 + length]`. */
    method Send(header: byte, length: uint16, now: uint32) returns (sent: bool)
      requires Valid() && MQTT_MAX_HEADER_SIZE + length <= buffer.Length
      modifies buffer, socket`wire, socket`room, `lastOut
      ensures var p := Packet(header, old(buffer[5..5 + length]));
        && sent == (old(socket.room) >= |p|)
        && socket.wire == old(socket.wire) + p[..Min(|p|, old(socket.room))]
        && socket.room == old(socket.room) - Min(|p|, old(socket.room))
      ensures lastOut == now
    {
      ghost var body := buffer[5..5 + length];
      var size := BuildHeader(header, length);
      assert buffer[5..5 + length] == buffer[5..][..length] == body;
      assert buffer[5 - size..5 + length] == buffer[5 - size..5] + buffer[5..5 + length];
      var rc := socket.Write(buffer[5 - size..5 + length]);
      lastOut := now;
      sent := rc == size + length;
    }

    /** The topic and the payload as one PUBLISH packet, if they fit the buffer. */
    method Publish(topic: seq<byte>, payload: seq<byte>, retained: bool, now: uint32) returns (ok: bool)
      requires Valid()
      modifies buffer, socket, `state, `lastOut, `trace
      ensures socket.open == old(socket.open) && (socket.open ==> socket.inbound == old(socket.inbound))
      ensures var accepted := old(socket.open) && old(state) == 0
                              && 7 + |topic| + |payload| <= buffer.Length;
        if accepted then
          var p := PublishPacket(topic, payload, retained);
          && ok == (old(socket.room) >= |p|)
          && socket.wire == old(socket.wire) + p[..Min(|p|, old(socket.room))]
          && (Keep(), trace) == Follow(old(Keep()), old(trace), K.Step(old(Keep()), keepAlive, K.AppSends(now)))
        else
          && !ok && socket.wire == old(socket.wire)
          && (Keep(), trace) == (if socket.open then old(Keep()) else old(Keep()).(connected := false), old(trace))
    {
      var up := Connected();
      if !up {
        return false;
      }
      if buffer.Length < MQTT_MAX_HEADER_SIZE + 2 + Min(|topic|, buffer.Length) + |payload| {
        return false;
      }
      var length: uint16 := MQTT_MAX_HEADER_SIZE;
      length := WriteString(topic, length);
      ghost var prefix := buffer[..length];
      for i := 0 to |payload|
        invariant length == 7 + |topic| + i && buffer[..length] == prefix + payload[..i]
        modifies buffer
      {
        buffer[length] := payload[i];
        length := length + 1;
      }
      assert buffer[5..length] == buffer[..length][5..] == StringField(topic) + payload;
      var header: byte := MQTTPUBLISH;
      if retained {
        header := header + 1;
      }
      ok := Send(header, length - MQTT_MAX_HEADER_SIZE, now);
      trace := trace + [K.AppSent(now)];
    }

    // ----- connecting -----

    /** CHECK_STRING_LENGTH and then the string. */
    method CheckedString(s: seq<byte>, pos: uint16) returns (fits: bool, end: uint16)
      requires Valid() && pos <= buffer.Length
      modifies buffer
      ensures fits == (pos + 2 + |s| <= buffer.Length)
      ensures fits ==> |s| < 0x1_0000 && end == pos + 2 + |s| && buffer[..end] == old(buffer[..pos]) + StringField(s)
    {
      fits, end := pos + 2 + Min(|s|, buffer.Length) <= buffer.Length, pos;
      if fits {
        end := WriteString(s, pos);
      }
    }

    /** The two strings of a will, if there is one. */
    method WriteWill(a: ConnectArgs, pos: uint16) returns (fits: bool, end: uint16)
      requires Valid() && pos <= buffer.Length
      modifies buffer
      ensures fits == (pos + WillSize(a) <= buffer.Length)
      ensures fits ==> a.ShortWill() && end == pos + WillSize(a) && buffer[..end] == old(buffer[..pos]) + WillFields(a)
    {
      fits, end := true, pos;
      if a.will.Some? {
        fits, end := CheckedString(a.will.value.topic, end);
        if fits {
          fits, end := CheckedString(a.will.value.message, end);
        }
      }
    }

    method WriteUser(a: ConnectArgs, pos: uint16) returns (fits: bool, end: uint16)
      requires Valid() && pos <= buffer.Length
      modifies buffer
      ensures fits == (pos + UserSize(a) <= buffer.Length)
      ensures fits ==> a.ShortUser() && end == pos + UserSize(a) && buffer[..end] == old(buffer[..pos]) + UserFields(a)
    {
      fits, end := true, pos;
      if a.user.Some? {
        fits, end := CheckedString(a.user.value, end);
        if fits && a.pass.Some? {
          fits, end := CheckedString(a.pass.value, end);
        }
      }
    }

    /** The variable header of CONNECT. */
    method WriteConnectHeader(a: ConnectArgs) returns (end: uint16)
      requires Valid() && 15 <= buffer.Length
      modifies buffer
      ensures end == 15 && buffer[5..15] == PROTOCOL + [ConnectFlags(a)] + U16(a.keepAlive)
    {
      hide ConnectFlags;
      var d, j := PROTOCOL, 0;
      end := MQTT_MAX_HEADER_SIZE;
      while j < 7
        invariant 0 <= j <= 7 && end == MQTT_MAX_HEADER_SIZE + j && buffer[5..end] == d[..j]
      {
        buffer[end] := d[j];
        end, j := end + 1, j + 1;
      }
      buffer[end] := ConnectFlags(a);
      buffer[end + 1] := a.keepAlive / 256;
      buffer[end + 2] := a.keepAlive % 256;
      end := end + 3;
      assert buffer[5..15] == buffer[5..12] + [buffer[12], buffer[13], buffer[14]];
    }

    /** The variable header and payload of CONNECT, from `buffer[5]` on. */
    method WriteConnect(a: ConnectArgs) returns (fits: bool, end: uint16)
      requires Valid() && 15 <= buffer.Length
      modifies buffer
      ensures fits == (MQTT_MAX_HEADER_SIZE + ConnectSize(a) <= buffer.Length)
      ensures fits ==>
        && a.Short() && end == MQTT_MAX_HEADER_SIZE + ConnectSize(a)
        && buffer[MQTT_MAX_HEADER_SIZE..end] == ConnectBody(a)
    {
      hide ConnectFlags, StringField, WillFields, UserFields;
      end := WriteConnectHeader(a);
      ghost var start, header := buffer[..5], buffer[5..15];
      assert buffer[..15] == start + header;
      fits, end := CheckedString(a.id, end);
      if fits {
        fits, end := WriteWill(a, end);
        if fits {
          fits, end := WriteUser(a, end);
          if fits {
            Regroup(start, header, StringField(a.id), WillFields(a), UserFields(a));
            assert buffer[5..end] == buffer[..end][5..];
          }
        }
      }
    }

    /** Waits for the CONNACK; any packet of four bytes that ends in zero is taken for one. */
    method AwaitConnack(reply: seq<byte>, at: uint32) returns (ok: bool)
      requires Valid() && socket.open
      modifies buffer, socket`inbound, socket`open, `state, `lastIn, `pingOutstanding, `trace
      ensures var s := old(socket.inbound) + reply;
        ok == Accepts(s) && state == StateAfter(s, old(state))
      ensures ok ==> socket.open && !pingOutstanding && lastIn == at
      ensures ok ==> trace == old(trace) + [K.Connected(old(lastOut), at)]
      ensures !ok ==> trace == old(trace)
      ensures !ok ==> !socket.open
    {
      socket.Arrive(reply);
      ghost var s := socket.inbound;
      if socket.inbound == [] {
        state := MQTT_CONNECTION_TIMEOUT;
        socket.Stop();
        return false;
      }
      var len, lengthLength := ReadPacket();
      if len == 4 {
        assert buffer[3] == buffer[..4][3] == s[3];
        if buffer[3] == 0 {
          lastIn := at;
          pingOutstanding := false;
          state := MQTT_CONNECTED;
          trace := trace + [K.Connected(lastOut, at)];
          return true;
        } else {
          state := buffer[3];
        }
      }
      socket.Stop();
      ok := false;
    }

    /** `connect()`. `reachable` says whether a new network connection can be made, `reply` is what the broker
        sends before the socket timeout. */
    method Connect(args: ConnectArgs, reachable: bool, reply: seq<byte>, sentAt: uint32, at: uint32)
      returns (ok: bool)
      requires Valid() && 15 <= buffer.Length
      modifies buffer, socket, `state, `nextMsgId, `lastIn, `lastOut, `pingOutstanding, `trace
      ensures var a := args.(keepAlive := keepAlive);
        var up, before := old(socket.open), if old(Lost()) then -3 else old(state);
        if up && old(state) == 0 then
          ok && Keep() == old(Keep()) && state == old(state) && socket.wire == old(socket.wire)
        else if !up && !reachable then
          !ok && state == -2 && socket.wire == old(socket.wire)
        else if MQTT_MAX_HEADER_SIZE + ConnectSize(a) > buffer.Length then
          !ok && state == before && !socket.open && socket.wire == old(socket.wire)
        else
          var s := (if up then old(socket.inbound) else []) + reply;
          && a.Short()
          && socket.wire == old(socket.wire) + ConnectPacket(a)[..Min(|ConnectPacket(a)|, old(socket.room))]
          && ok == Accepts(s) && state == StateAfter(s, before)
          && (ok ==>
               && socket.open && Keep() == K.Keep(true, false, at, sentAt)
               && trace == old(trace) + [K.Connected(sentAt, at)])
          && (!ok ==> !socket.open)
      ensures !ok ==> !Keep().connected
      ensures !ok || (old(socket.open) && old(state) == 0) ==> trace == old(trace)
    {
      hide ConnectPacket, ConnectBody, Packet, Accepts, StateAfter, ConnectSize;
      var up := Connected();
      if up {
        return true;
      }
      if !socket.open {
        if !reachable {
          state := MQTT_CONNECT_FAILED;
          return false;
        }
        socket.Open();
      }
      nextMsgId := 1;
      var a := args.(keepAlive := keepAlive);
      var fits, end := WriteConnect(a);
      if !fits {
        socket.Stop();
        return false;
      }
      assert ConnectPacket(a) == Packet(MQTTCONNECT, buffer[5..end]) by {
        ConnectPacketIs(a);
      }
      var sent := Send(MQTTCONNECT, end - MQTT_MAX_HEADER_SIZE, sentAt);
      lastIn := sentAt;
      NotAccepted((if old(socket.open) then old(socket.inbound) else []) + reply, state);
      ok := AwaitConnack(reply, at);
    }

    // ----- the loop -----

    method MemMove(to: nat, from: nat, count: nat)
      requires to <= from && from + count <= buffer.Length
      modifies buffer
      ensures buffer[to..to + count] == old(buffer[from..from + count])
      ensures buffer[..to] == old(buffer[..to]) && buffer[to + count..] == old(buffer[to + count..])
    {
      forall i | 0 <= i < count {
        buffer[to + i] := buffer[from + i];
      }
    }

    /** The application's callback gets a NUL-terminated topic and a payload, both inside the buffer. */
    ghost method Callback(topic: nat, payload: nat, length: nat)
      requires topic < buffer.Length && payload + length <= buffer.Length
      modifies `delivered
      ensures delivered == old(delivered) + [(CString(buffer[..], topic), buffer[payload..payload + length])]
    {
      delivered := delivered + [(CString(buffer[..], topic), buffer[payload..payload + length])];
    }

    /** Moves the topic one byte to the front, over its length, to make room for the NUL that ends it. */
    method TerminateTopic(lengthLength: nat, topicLength: nat)
      requires lengthLength + 3 + topicLength <= buffer.Length
      modifies buffer
      ensures CString(buffer[..], lengthLength + 2)
           == CString(old(buffer[lengthLength + 3..lengthLength + 3 + topicLength]), 0)
      ensures buffer[lengthLength + 3 + topicLength..] == old(buffer[lengthLength + 3 + topicLength..])
      ensures buffer[..lengthLength + 2] == old(buffer[..lengthLength + 2])
    {
      var at := lengthLength + 2;
      MemMove(at, at + 1, topicLength);
      ghost var tail := buffer[at + topicLength..];
      buffer[at + topicLength] := 0;
      ghost var topic := buffer[at..at + topicLength];
      assert buffer[..][at..at + |topic|] == topic;
      CStringMoved(buffer[..], at, topic, 0);
      assert buffer[at + 1 + topicLength..] == tail[1..];
    }

    method Acknowledge(msgId: uint16, t: uint32)
      requires Valid()
      modifies buffer, socket`wire, socket`room, `lastOut
      ensures var ack := [0x40, 0x02, msgId / 256, msgId % 256];
        && socket.wire == old(socket.wire) + ack[..Min(|ack|, old(socket.room))]
        && socket.room == old(socket.room) - Min(|ack|, old(socket.room))
      ensures lastOut == t
    {
      buffer[0] := MQTTPUBACK;
      buffer[1] := 2;
      buffer[2] := msgId / 256;
      buffer[3] := msgId % 256;
      assert buffer[..4] == [MQTTPUBACK, 2] + U16(msgId);
      var rc := socket.Write(buffer[..4]);
      lastOut := t;
    }

    /** A PUBLISH of `len` bytes in the buffer: calls back and, for QoS 1, acknowledges. */
    method HandlePublish(len: uint16, lengthLength: nat, t: uint32)
      requires Valid() && hasCallback && lengthLength <= 4
      requires 0 < len <= buffer.Length && IsPublish(buffer[0]) && SoundPublish(buffer[..len], lengthLength)
      modifies buffer, socket`wire, socket`room, `lastOut, `delivered
      ensures var r := React(old(buffer[..len]), lengthLength, true);
        && delivered == old(delivered) + [(r.topic, r.payload)]
        && socket.wire == old(socket.wire) + r.ack[..Min(|r.ack|, old(socket.room))]
        && socket.room == old(socket.room) - Min(|r.ack|, old(socket.room))
        && lastOut == if IsQos1(old(buffer[0])) then t else old(lastOut)
    {
      hide CString;
      ghost var p := buffer[..len];
      var tl := FromU16(buffer[lengthLength + 1], buffer[lengthLength + 2]);
      assert tl == TopicLength(p, lengthLength);
      var idAt := lengthLength + 3 + tl;
      assert p[lengthLength + 3..idAt] == buffer[lengthLength + 3..idAt];
      ghost var tail := buffer[idAt..];
      TerminateTopic(lengthLength, tl);
      assert buffer[0] == buffer[..lengthLength + 2][0] == p[0];
      if IsQos1(buffer[0]) {
        assert tail[2..len - idAt] == p[idAt + 2..] && tail[0] == p[idAt] && tail[1] == p[idAt + 1];
        var msgId := FromU16(buffer[idAt..][0], buffer[idAt..][1]);
        assert buffer[idAt + 2..len] == buffer[idAt..][2..len - idAt];
        Callback(lengthLength + 2, idAt + 2, len - idAt - 2);
        Acknowledge(msgId, t);
      } else {
        assert tail[..len - idAt] == p[idAt..];
        assert buffer[idAt..len] == buffer[idAt..][..len - idAt];
        Callback(lengthLength + 2, idAt, len - idAt);
      }
    }

    /** The keep-alive part of `loop`. */
    method KeepAliveCheck(t: uint32) returns (ok: bool)
      requires Valid() && state == 0
      modifies buffer, socket, `state, `lastIn, `lastOut, `pingOutstanding, `trace
      ensures var k := old(Keep());
        var ping := if K.Overdue(k, keepAlive, t) && !k.outstanding then [0xc0, 0x00] else [];
        && ok == !(K.Overdue(k, keepAlive, t) && k.outstanding)
        && Keep() == (if !ok then k.(connected := false) else if ping != [] then K.Keep(true, true, t, t) else k)
        && trace == old(trace) + (if !ok then [K.GaveUp(t)] else if ping != [] then [K.PingReq(t)] else [])
        && socket.wire == old(socket.wire) + ping[..Min(|ping|, old(socket.room))]
        && socket.room == old(socket.room) - Min(|ping|, old(socket.room))
      ensures var idle := K.Idle(keepAlive, old(lastIn), t) || K.Idle(keepAlive, old(lastOut), t);
        && ok == !(idle && old(pingOutstanding))
        && (ok ==> pingOutstanding == (idle || old(pingOutstanding)))
        && (ok ==> !K.Idle(keepAlive, lastIn, t) && !K.Idle(keepAlive, lastOut, t))
      ensures ok ==> socket.open == old(socket.open) && socket.inbound == old(socket.inbound)
      ensures !ok ==> !socket.open && state == -4
    {
      ok := true;
      if Elapsed(t, lastIn) > keepAlive * 1000 || Elapsed(t, lastOut) > keepAlive * 1000 {
        if pingOutstanding {
          state := MQTT_CONNECTION_TIMEOUT;
          socket.Stop();
          trace := trace + [K.GaveUp(t)];
          ok := false;
        } else {
          buffer[0] := MQTTPINGREQ;
          buffer[1] := 0;
          assert buffer[..2] == [MQTTPINGREQ, 0];
          var rc := socket.Write(buffer[..2]);
          lastOut := t;
          lastIn := t;
          pingOutstanding := true;
          trace := trace + [K.PingReq(t)];
        }
      }
    }

    /** The packet of `len` bytes in the buffer. */
    method HandleRead(len: uint16, lengthLength: nat, t: uint32)
      requires Valid() && 0 < len <= buffer.Length && lengthLength <= 4
      requires hasCallback && IsPublish(buffer[0]) ==> SoundPublish(buffer[..len], lengthLength)
      modifies buffer, socket`wire, socket`room, `lastIn, `lastOut, `pingOutstanding, `delivered, `trace
      ensures var p := old(buffer[..len]);
        var r := React(p, lengthLength, hasCallback);
        && (Keep(), trace) == Follow(old(Keep()), old(trace), K.Hear(old(Keep()), t, HeardOf(p[0], hasCallback)))
        && socket.wire == old(socket.wire) + Sends(r)[..Min(|Sends(r)|, old(socket.room))]
        && delivered == old(delivered) + (if r.Deliver? then [(r.topic, r.payload)] else [])
    {
      hide CString, IsQos1, PayloadStart;
      assert buffer[0] == buffer[..len][0];
      lastIn := t;
      ghost var acked := hasCallback && IsPublish(buffer[0]) && IsQos1(buffer[0]);
      trace := trace + [if buffer[0] / 16 == 13 then K.PingResp(t) else K.Packet(t, acked)];
      if IsPublish(buffer[0]) {
        if hasCallback {
          HandlePublish(len, lengthLength, t);
        }
      } else if buffer[0] / 16 == 12 {
        buffer[0] := MQTTPINGRESP;
        buffer[1] := 0;
        assert buffer[..2] == [MQTTPINGRESP, 0];
        var rc := socket.Write(buffer[..2]);
      } else if buffer[0] / 16 == 13 {
        pingOutstanding := false;
      }
    }

    /** The receiving part of `loop`. */
    method HandlePacket(t: uint32)
      requires Valid() && state == 0 && socket.open
      requires Sound(socket.inbound, buffer.Length, hasCallback)
      modifies buffer, socket, `state, `lastIn, `lastOut, `pingOutstanding, `delivered, `trace
      ensures var s := old(socket.inbound);
        var r := Reacts(s, buffer.Length, hasCallback);
        && (Keep(), trace)
           == Follow(old(Keep()), old(trace), K.Hear(old(Keep()), t, HeardIn(s, buffer.Length, hasCallback)))
        && socket.open == Keep().connected && socket.inbound == Left(s)
        && socket.wire == old(socket.wire) + Sends(r)[..Min(|Sends(r)|, old(socket.room))]
        && delivered == old(delivered) + (if r.Deliver? then [(r.topic, r.payload)] else [])
    {
      hide React, SoundPublish, DecodeLength, HeardOf;
      assert trace + [] == trace;
      if socket.inbound != [] {
        ghost var s := socket.inbound;
        var len, lengthLength := ReadPacket();
        if len > 0 {
          DecodeBounds(s[1..], 4);
          assert buffer[0] == buffer[..len][0] == s[..len][0];
          HandleRead(len, lengthLength, t);
        }
      }
    }

    /** `loop()`, as a step of the keep-alive machine. */
    method LoopStep(t: uint32) returns (ok: bool)
      requires Valid()
      requires Sound(socket.inbound, buffer.Length, hasCallback)
      modifies buffer, socket, `state, `lastIn, `lastOut, `pingOutstanding, `delivered, `trace
      ensures var step := K.LoopStep(old(Keep()), keepAlive, t, old(socket.open),
                                     HeardIn(old(socket.inbound), buffer.Length, hasCallback));
        (Keep(), trace) == Follow(old(Keep()), old(trace), step) && ok == step.0.connected
      ensures ok ==> socket.open
      ensures old(Listens(t)) ==> socket.inbound == Left(old(socket.inbound))
      ensures var ping := old(Listens(t)) && K.Overdue(old(Keep()), keepAlive, t);
        var r := if old(Listens(t)) then Reacts(old(socket.inbound), buffer.Length, hasCallback) else Ignore;
        var sends := (if ping then [0xc0, 0x00] else []) + Sends(r);
        && socket.wire == old(socket.wire) + sends[..Min(|sends|, old(socket.room))]
        && delivered == old(delivered) + (if r.Deliver? then [(r.topic, r.payload)] else [])
    {
      hide Reacts, HeardIn, Sound, Sends, Left;
      ghost var s, room := socket.inbound, socket.room;
      ghost var ping := if Listens(t) && K.Overdue(Keep(), keepAlive, t) then [0xc0, 0x00] else [];
      ghost var r := if Listens(t) then Reacts(s, buffer.Length, hasCallback) else Ignore;
      ghost var heard := HeardIn(s, buffer.Length, hasCallback);
      assert trace + [] == trace;
      ok := Connected();
      if ok {
        ok := KeepAliveCheck(t);
        Associative(old(trace), [K.PingReq(t)], K.Hear(Keep(), t, heard).1);
        Associative(old(trace), [], K.Hear(Keep(), t, heard).1);
        if ok {
          TwoWrites(ping, Sends(r), room);
          HandlePacket(t);
          ok := state == MQTT_CONNECTED && socket.open;
        }
      }
      NoReaction();
    }

    /** `loop()`. */
    method Loop(t: uint32) returns (ok: bool)
      requires Valid()
      requires Sound(socket.inbound, buffer.Length, hasCallback)
      modifies buffer, socket, `state, `lastIn, `lastOut, `pingOutstanding, `delivered, `trace
      ensures var step := K.LoopStep(old(Keep()), keepAlive, t, old(socket.open),
                                     HeardIn(old(socket.inbound), buffer.Length, hasCallback));
        (Keep(), trace) == Follow(old(Keep()), old(trace), step) && ok == step.0.connected
      ensures ok ==> socket.open
      ensures ok ==> !K.Idle(keepAlive, lastIn, t) && !K.Idle(keepAlive, lastOut, t)
      ensures old(socket.open && state == 0) ==>
        var idle := K.Idle(keepAlive, old(lastIn), t) || K.Idle(keepAlive, old(lastOut), t);
        var news := trace[|old(trace)|..];
        && (K.PingReq(t) in news <==> idle && !old(pingOutstanding))
        && (K.GaveUp(t) in news <==> idle && old(pingOutstanding))
      ensures old(Listens(t)) ==> socket.inbound == Left(old(socket.inbound))
      ensures var ping := old(Listens(t)) && K.Overdue(old(Keep()), keepAlive, t);
        var r := if old(Listens(t)) then Reacts(old(socket.inbound), buffer.Length, hasCallback) else Ignore;
        var sends := (if ping then [0xc0, 0x00] else []) + Sends(r);
        && socket.wire == old(socket.wire) + sends[..Min(|sends|, old(socket.room))]
        && delivered == old(delivered) + (if r.Deliver? then [(r.topic, r.payload)] else [])
    {
      hide Reacts, HeardIn, Sound, Sends, Left, K.LoopStep, K.Idle, K.Overdue;
      ghost var heard := HeardIn(socket.inbound, buffer.Length, hasCallback);
      if Keep().connected && socket.open {
        K.LoopKeepsAlive(Keep(), keepAlive, t, heard);
      } else {
        K.LoopOfLost(Keep(), keepAlive, t, socket.open, heard);
      }
      ok := LoopStep(t);
      assert trace[|old(trace)|..] == K.LoopStep(old(Keep()), keepAlive, t, old(socket.open), heard).1;
    }

    /** `loop` gets as far as looking at the socket. */
    ghost predicate Listens(t: uint32)
      reads this, socket
    {
      Keep().connected && socket.open && !(K.Overdue(Keep(), keepAlive, t) && pingOutstanding)
    }
  }

  /** A whole PUBLISH that fits the buffer has its topic inside it; the client does not check. */
  predicate Sound(s: seq<byte>, size: nat, hasCallback: bool) {
    hasCallback ==> match ReadOutcome(s)
      case Got(used, digits) => used <= size && IsPublish(s[0]) ==> SoundPublish(s[..used], digits)
      case _ => true
  }

  lemma TwoWrites(a: seq<byte>, b: seq<byte>, room: nat)
    ensures var n := Min(|a|, room);
      a[..n] + b[..Min(|b|, room - n)] == (a + b)[..Min(|a + b|, room)]
  {
  }

  lemma NoReaction()
    ensures Sends(Ignore) == []
  {
  }

  /** What `loop` does about the bytes on the socket. */
  function Reacts(s: seq<byte>, size: nat, hasCallback: bool): Reaction
    requires Sound(s, size, hasCallback)
  {
    match ReadOutcome(s)
    case Got(used, digits) => if 0 < used <= size then React(s[..used], digits, hasCallback) else Ignore
    case _ => Ignore
  }

  function Sends(r: Reaction): seq<byte> {
    match r
    case Deliver(_, _, ack) => ack
    case Respond(answer) => answer
    case _ => []
  }

  /** The same bytes, as the keep-alive machine sees them. */
  function HeardIn(s: seq<byte>, size: nat, hasCallback: bool): K.Heard {
    match ReadOutcome(s)
    case Got(used, digits) =>
      if 0 < used <= size then HeardOf(s[0], hasCallback) else K.Nothing
    case TimedOut => K.Nothing
    case Dropped => K.Broken
  }

  function HeardOf(header: byte, hasCallback: bool): K.Heard {
    if header / 16 == 13 then K.Answered else K.Received(hasCallback && IsPublish(header) && IsQos1(header))
  }

  /** What is left on the socket after one packet was read. */
  function Left(s: seq<byte>): seq<byte> {
    match ReadOutcome(s)
    case Got(used, _) => s[used..]
    case _ => []
  }

  lemma {:induction false} CStringMoved(s: seq<byte>, at: nat, text: seq<byte>, i: nat)
    requires i <= |text| && at + |text| < |s|
    requires s[at..at + |text|] == text && s[at + |text|] == 0
    ensures CString(s, at + i) == CString(text, i)
    decreases |text| - i
  {
    if i < |text| {
      assert s[at + i] == s[at..at + |text|][i];
      CStringMoved(s, at, text, i + 1);
    }
  }

  function WillSize(a: ConnectArgs): nat {
    if a.will.None? then 0 else 4 + |a.will.value.topic| + |a.will.value.message|
  }

  function UserSize(a: ConnectArgs): nat {
    if a.user.None? then 0 else 2 + |a.user.value| + if a.pass.None? then 0 else 2 + |a.pass.value|
  }

  function ConnectSize(a: ConnectArgs): nat {
    12 + |a.id| + WillSize(a) + UserSize(a)
  }

  /** The next packet has four bytes, the last of them zero. */
  predicate Accepts(s: seq<byte>) {
    ReadOutcome(s).Got? && ReadOutcome(s).used == 4 && s[3] == 0
  }

  /** The state after the wait for a CONNACK. */
  function StateAfter(s: seq<byte>, before: int): int {
    if s == [] then -4
    else match ReadOutcome(s)
      case Dropped => -1
      case Got(used, _) => if used == 4 then s[3] else before
      case TimedOut => before
  }

  lemma NotAccepted(s: seq<byte>, before: int)
    requires before != 0
    ensures StateAfter(s, before) == 0 <==> Accepts(s)
  {
  }

  /** A CONNACK, section 3.2 of MQTT 3.1.1, connects the client exactly if its return code is zero; otherwise the code
      is the state. No packet of another size connects it. */
  lemma Connack(flags: byte, code: byte, rest: seq<byte>, before: int)
    ensures var s := [0x20, 0x02, flags, code] + rest;
      (Accepts(s) <==> code == 0) && StateAfter(s, before) == code
  {
    var w: seq<byte> := [0x20, 0x02, flags, code];
    assert w[1..] == [0x02, flags, code];
    assert DecodeLength(w[1..], 4) == Value(2, 1);
    hide DecodeLength;
    WellFormedTaken(w, rest);
    hide ReadOutcome;
  }

  lemma OtherSizeRefused(w: seq<byte>, rest: seq<byte>, before: int)
    requires WellFormed(w) && |w| != 4
    ensures !Accepts(w + rest) && StateAfter(w + rest, before) == before
  {
    hide WellFormed, ReadOutcome;
    WellFormedTaken(w, rest);
  }

  /** What the keep-alive machine hears in a whole packet that fits: a PINGRESP, or a packet that was acknowledged if it
      is a PUBLISH of QoS 1 for the callback. */
  lemma HeardInPacket(w: seq<byte>, rest: seq<byte>, size: nat, hasCallback: bool)
    requires WellFormed(w) && |w| <= size
    ensures HeardIn(w + rest, size, hasCallback) ==
      if 0xd0 <= w[0] <= 0xdf then K.Answered
      else K.Received(hasCallback && w[0] in {0x32, 0x33, 0x3a, 0x3b})
  {
    WellFormedTaken(w, rest);
    hide WellFormed, ReadOutcome;
    assert (w + rest)[0] == w[0];
    if 0x30 <= w[0] <= 0x3f {
      Qos1Headers(w[0]);
    }
  }

  /** What is sent back for a whole packet that fits: a PINGRESP for a PINGREQ, a PUBACK for a PUBLISH of QoS 1 that
      goes to the callback, nothing else. */
  lemma AnswerTo(w: seq<byte>, rest: seq<byte>, size: nat, hasCallback: bool)
    requires WellFormed(w) && |w| <= size && Sound(w + rest, size, hasCallback)
    ensures var answer := Sends(Reacts(w + rest, size, hasCallback));
      if 0xc0 <= w[0] <= 0xcf then answer == [0xd0, 0x00]
      else if hasCallback && w[0] in {0x32, 0x33, 0x3a, 0x3b} then |answer| == 4 && answer[..2] == [0x40, 0x02]
      else answer == []
  {
    WellFormedTaken(w, rest);
    hide WellFormed, ReadOutcome, CString;
    assert (w + rest)[..|w|] == w && (w + rest)[0] == w[0];
    if 0x30 <= w[0] <= 0x3f {
      Qos1Headers(w[0]);
    } else {
      OtherReactions(w, DecodeLength(w[1..], 4).digits, hasCallback);
    }
  }

  /** The keep-alive state and the trace after a step. */
  ghost function Follow(k: K.Keep, trace: seq<K.Event>, step: (K.Keep, seq<K.Event>)): (K.Keep, seq<K.Event>) {
    (step.0, trace + step.1)
  }

  lemma Regroup(a: seq<byte>, b: seq<byte>, c: seq<byte>, d: seq<byte>, e: seq<byte>)
    ensures (a + b + c + d + e)[|a|..] == b + (c + (d + e))
  {
  }

  lemma ConnectPacketIs(a: ConnectArgs)
    requires a.Short()
    ensures ConnectPacket(a) == Packet(MQTTCONNECT, ConnectBody(a))
  {
  }

  /** The decoding of all digits, from the sum of those already read and the decoding of the rest. */
  function Resume(sum: nat, multiplier: nat, read: nat, rest: Length): Length {
    match rest
    case Value(n, digits) => Value(sum + multiplier * n, read + digits)
    case other => other
  }

  lemma ResumeStart(rest: Length)
    ensures Resume(0, 1, 0, rest) == rest
    ensures Power128(0) == 1
  {
  }

  lemma DigitBound(sum: nat, digit: nat, multiplier: nat)
    requires sum < multiplier && digit < 128
    ensures sum + digit * multiplier < multiplier * 128
  {
    assert digit * multiplier <= 127 * multiplier;
  }

  lemma ResumeStep(sum: nat, multiplier: nat, read: nat, s: seq<byte>, limit: nat)
    ensures limit == 0 ==> Resume(sum, multiplier, read, DecodeLength(s, limit)) == TooLong
    ensures limit > 0 && s == [] ==> Resume(sum, multiplier, read, DecodeLength(s, limit)) == Short
    ensures limit > 0 && s != [] && s[0] < 128 ==>
      Resume(sum, multiplier, read, DecodeLength(s, limit)) == Value(sum + s[0] % 128 * multiplier, read + 1)
    ensures limit > 0 && s != [] && s[0] >= 128 ==>
      Resume(sum, multiplier, read, DecodeLength(s, limit))
      == Resume(sum + s[0] % 128 * multiplier, multiplier * 128, read + 1, DecodeLength(s[1..], limit - 1))
  {
    if limit > 0 && s != [] && s[0] >= 128 && DecodeLength(s[1..], limit - 1).Value? {
      var n := DecodeLength(s[1..], limit - 1).n;
      assert s[0] % 128 == s[0] - 128;
      assert multiplier * (s[0] - 128 + 128 * n) == (s[0] - 128) * multiplier + multiplier * 128 * n;
    }
  }

  lemma PublishedIsDelivered(topic: seq<byte>, payload: seq<byte>, retained: bool, size: nat)
    requires NulFree(topic) && 7 + |topic| + |payload| <= size < 0x1_0000
    ensures var p := PublishPacket(topic, payload, retained);
      WellFormed(p) && Sound(p, size, true) && Reacts(p, size, true) == Deliver(topic, payload, [])
  {
    hide PublishPacket, React, ReadOutcome, SoundPublish, WellFormed;
    PublishRoundTrip(topic, payload, retained, [], size);
    var p := PublishPacket(topic, payload, retained);
    assert p + [] == p;
    assert p[..|p|] == p;
    WellFormedTaken(p, []);
  }

  /** The topics and payloads that a run of packets brings to the callback. */
  function Deliveries(packets: seq<seq<byte>>, size: nat): seq<(seq<byte>, seq<byte>)>
    requires forall w | w in packets :: Sound(w, size, true)
  {
    if packets == [] then []
    else
      var r := Reacts(packets[|packets| - 1], size, true);
      Deliveries(packets[..|packets| - 1], size) + if r.Deliver? then [(r.topic, r.payload)] else []
  }

  lemma NoDeliveries(size: nat)
    ensures Deliveries([], size) == []
  {
  }

  lemma MoreDeliveries(packets: seq<seq<byte>>, i: nat, size: nat)
    requires i < |packets| && forall w | w in packets :: Sound(w, size, true)
    ensures forall w | w in packets[..i] + packets[..i + 1] :: Sound(w, size, true)
    ensures var r := Reacts(packets[i], size, true);
      Deliveries(packets[..i + 1], size)
      == Deliveries(packets[..i], size) + if r.Deliver? then [(r.topic, r.payload)] else []
  {
    hide Sound, Reacts;
    assert packets[..i + 1][..i] == packets[..i];
  }

  lemma FirstPacket(w: seq<byte>, rest: seq<byte>, size: nat)
    requires WellFormed(w) && Sound(w, size, true)
    ensures Sound(w + rest, size, true) && Reacts(w + rest, size, true) == Reacts(w, size, true)
    ensures Left(w + rest) == rest && !HeardIn(w + rest, size, true).Broken?
  {
    hide WellFormed, SoundPublish, React, ReadOutcome;
    WellFormedTaken(w, rest);
    WellFormedTaken(w, []);
    assert w + [] == w;
    assert w[..|w|] == (w + rest)[..|w|] == w && (w + rest)[|w|..] == rest && (w + rest)[0] == w[0];
  }

  /** One call of `loop` on a well-formed packet takes it, delivers it and goes on listening. */
  method LoopOnce(b: PubSubClient, w: seq<byte>, rest: seq<byte>, t: uint32)
    requires b.Valid() && b.hasCallback && b.Listens(t) && b.socket.inbound == w + rest
    requires WellFormed(w) && Sound(w, b.buffer.Length, true)
    modifies b, b.buffer, b.socket
    ensures b.hasCallback && b.Listens(t) && b.socket.inbound == rest
    ensures var r := Reacts(w, b.buffer.Length, true);
      b.delivered == old(b.delivered) + (if r.Deliver? then [(r.topic, r.payload)] else [])
  {
    hide WellFormed, Sound, Reacts, HeardIn, Left;
    FirstPacket(w, rest, b.buffer.Length);
    K.KeepsListening(b.Keep(), b.keepAlive, t, HeardIn(w + rest, b.buffer.Length, true));
    var ok := b.Loop(t);
  }

  /** What one client publishes reaches another's callback: once the other has looped over what was unread on its
      socket, it delivers the topic and payload that the first accepted, exactly and in order. */
  method PublishReachesPeer(a: PubSubClient, b: PubSubClient, topic: seq<byte>, payload: seq<byte>,
                            retained: bool, unread: seq<seq<byte>>, now: uint32, t: uint32)
    returns (accepted: bool)
    requires a.Valid() && b.Valid() && a.buffer.Length == b.buffer.Length && b.hasCallback
    requires a != b && a.buffer != b.buffer && a.socket != b.socket
    requires NulFree(topic) && b.socket.inbound == Flatten(unread) && b.Listens(t)
    requires forall w | w in unread :: WellFormed(w) && Sound(w, b.buffer.Length, true)
    modifies a, a.buffer, a.socket, b, b.buffer, b.socket
    ensures accepted == (old(a.socket.open && a.state == 0)
      && 7 + |topic| + |payload| <= a.buffer.Length
      && |PublishPacket(topic, payload, retained)| <= old(a.socket.room))
    ensures b.delivered == old(b.delivered) + Deliveries(unread, b.buffer.Length)
                           + (if accepted then [(topic, payload)] else [])
  {
    hide PublishPacket, WellFormed, Sound, Reacts, Deliveries;
    var start, size := |a.socket.wire|, b.buffer.Length;
    accepted := a.Publish(topic, payload, retained, now);
    ghost var before := b.delivered;
    var i := 0;
    NoDeliveries(size);
    while i < |unread|
      invariant 0 <= i <= |unread| && b.hasCallback && b.Listens(t)
      invariant b.socket.inbound == Flatten(unread[i..])
      invariant b.delivered == before + Deliveries(unread[..i], size)
      modifies b, b.buffer, b.socket
    {
      assert unread[i] in unread;
      assert unread[i..][1..] == unread[i + 1..];
      LoopOnce(b, unread[i], Flatten(unread[i + 1..]), t);
      MoreDeliveries(unread, i, size);
      i := i + 1;
    }
    assert unread[..i] == unread;
    if accepted {
      PublishedIsDelivered(topic, payload, retained, size);
      ghost var p := PublishPacket(topic, payload, retained);
      assert a.socket.wire[start..] == p;
      b.socket.Arrive(a.socket.wire[start..]);
      assert b.socket.inbound == p + [];
      LoopOnce(b, a.socket.wire[start..], [], t);
    }
  }

  // ----- every run of the client -----

  datatype Call =
    | Loops(at: uint32)
    | Publishes(topic: seq<byte>, payload: seq<byte>, retained: bool, at: uint32)
    | Connects(args: ConnectArgs, reachable: bool, reply: seq<byte>, sentAt: uint32, at: uint32)
    | SetsKeepAlive(seconds: uint16)
    | SetsCallback(given: bool)
    // the network
    | Arrives(data: seq<byte>)
    | Closes

  /** Over every run of calls on a new client, in any order and with anything on the network: while it is connected,
      a ping is outstanding exactly if one was sent since the last answer, and if nothing was read since a PINGREQ its
      time is kept; and there are never two. The run ends early only before a loop over a PUBLISH whose topic leaves
      its packet. */
  method RunCalls(c: PubSubClient, calls: seq<Call>) returns (done: nat)
    requires c.Valid() && 15 <= c.buffer.Length && c.state == -1 && c.trace == []
    modifies c, c.buffer, c.socket
    ensures done <= |calls|
    ensures done < |calls| ==> calls[done].Loops? && !Sound(c.socket.inbound, c.buffer.Length, c.hasCallback)
    ensures K.OneAtATime(c.trace)
    ensures c.state == 0 ==> (c.pingOutstanding <==> K.Unanswered(c.trace))
    ensures c.state == 0 ==> K.LastIn(c.trace) == Some(c.lastIn) && K.LastOut(c.trace) == Some(c.lastOut)
  {
    done := 0;
    while done < |calls|
      invariant done <= |calls| && K.Agrees(c.Keep(), c.trace)
    {
      if calls[done].Loops? && !Sound(c.socket.inbound, c.buffer.Length, c.hasCallback) {
        return;
      }
      RunCall(c, calls[done]);
      done := done + 1;
    }
  }

  /** One call keeps the agreement of the client's fields with what it did. */
  method RunCall(c: PubSubClient, call: Call)
    requires c.Valid() && 15 <= c.buffer.Length && K.Agrees(c.Keep(), c.trace)
    requires call.Loops? ==> Sound(c.socket.inbound, c.buffer.Length, c.hasCallback)
    modifies c, c.buffer, c.socket
    ensures K.Agrees(c.Keep(), c.trace)
  {
    hide Sound, Reacts, HeardIn, PublishPacket, ConnectPacket, Accepts, StateAfter, ConnectSize;
    ghost var k, trace := c.Keep(), c.trace;
    StillAgrees(k, trace);
    match call {
      case Loops(at) =>
        ghost var heard := HeardIn(c.socket.inbound, c.buffer.Length, c.hasCallback);
        K.AgreesAfterStep(k, trace, c.keepAlive, K.Loop(at, c.socket.open, heard));
        var ok := c.Loop(at);
      case Publishes(topic, payload, retained, at) =>
        K.AgreesAfterStep(k, trace, c.keepAlive, K.AppSends(at));
        var ok := c.Publish(topic, payload, retained, at);
      case Connects(args, reachable, reply, sentAt, at) =>
        K.AgreesAfterStep(k.(connected := false), trace, c.keepAlive, K.Accepted(sentAt, at));
        var ok := c.Connect(args, reachable, reply, sentAt, at);
      case SetsKeepAlive(seconds) =>
        c.keepAlive := seconds;
      case SetsCallback(given) =>
        c.hasCallback := given;
      case Arrives(data) =>
        if c.socket.open {
          c.socket.Arrive(data);
        }
      case Closes =>
        c.socket.Stop();
    }
  }

  /** A client that is not connected has nothing left to agree on but the pings that were sent. */
  lemma StillAgrees(k: K.Keep, trace: seq<K.Event>)
    requires K.Agrees(k, trace)
    ensures forall l: K.Keep | !l.connected :: K.Agrees(l, trace)
  {
  }
}
