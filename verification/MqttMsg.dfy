/** MQTT packets: what domo/mqtt/mqtt_msg.c writes and how it reads packets back. */
module MqttMsg {
  import opened Bytes

  datatype Option<+T> = None | Some(value: T)

  const MAX_FIXED_HEADER_SIZE := 3

  const CONNECT := 1
  const CONNACK := 2
  const PUBLISH := 3
  const PUBACK := 4
  const PUBREC := 5
  const PUBREL := 6
  const PUBCOMP := 7
  const SUBSCRIBE := 8
  const SUBACK := 9
  const UNSUBSCRIBE := 10
  const UNSUBACK := 11
  const PINGREQ := 12
  const PINGRESP := 13

  // ---------------------------------------------------------------- packets as values

  function HeaderByte(type_: int, dup: int, qos: int, retain: int): byte {
    (type_ % 16) * 16 + (dup % 2) * 8 + (qos % 4) * 2 + retain % 2
  }

  /** The remaining length in one byte, or in two of which the second is cut to eight bits. */
  function RemainingLength(n: nat): seq<byte> {
    if n > 127 then [0x80 + n % 128, (n / 128) % 0x100] else [n]
  }

  function Encode(type_: int, dup: int, qos: int, retain: int, body: seq<byte>): seq<byte> {
    [HeaderByte(type_, dup, qos, retain)] + RemainingLength(|body|) + body
  }

  /** The first byte of the output buffer once `m` has been built in it: only a three-byte fixed header reaches it. */
  function FirstByte(before: byte, m: seq<byte>): byte { if |m| > 129 then m[0] else before }

  function Str(s: seq<byte>): seq<byte> requires |s| < 0x1_0000 { Word(|s|) + s }

  function PublishBody(topic: seq<byte>, data: seq<byte>, qos: int, id: u16): seq<byte>
    requires |topic| < 0x1_0000
  {
    Str(topic) + if qos > 0 then Word(id) + data else data
  }

  /** Packet identifiers count up and skip zero, section 2.3.1 of MQTT 3.1.1. */
  function NextId(id: u16): u16 { if id == 0xFFFF then 1 else id + 1 }

  /** A zero identifier asks for a fresh one. */
  function IdFor(wanted: u16, counter: u16): u16 { if wanted == 0 then NextId(counter) else wanted }

  /** mqtt_connect_info_t; None is a NULL string, [] an empty one. */
  datatype ConnectInfo = ConnectInfo(
    clientId: Option<seq<byte>>, username: Option<seq<byte>>, password: Option<seq<byte>>,
    willTopic: Option<seq<byte>>, willMessage: Option<seq<byte>>,
    keepalive: nat, willQos: int, willRetain: int, cleanSession: int)

  predicate Present(s: Option<seq<byte>>) { s.Some? && s.value != [] }

  predicate Short(s: Option<seq<byte>>) { Present(s) ==> |s.value| < 0x1_0000 }

  /** Position of the flags in the variable header of CONNECT. */
  const FLAGS_AT := 9

  /** Length, "MQIsdp", version 3, flags and the low 16 bits of the keep alive time. */
  function ConnectHeader(flags: byte, keepalive: nat): seq<byte> {
    [0, 6, 77, 81, 73, 115, 100, 112, 3, flags, (keepalive / 0x100) % 0x100, keepalive % 0x100]
  }

  function CleanFlag(info: ConnectInfo): nat { if info.cleanSession != 0 then 2 else 0 }

  function WillFlags(info: ConnectInfo): nat {
    if Present(info.willTopic) then 4 + (info.willQos % 4) * 8 + (if info.willRetain != 0 then 0x20 else 0) else 0
  }

  function ConnectFlags(info: ConnectInfo): (f: byte) {
    CleanFlag(info) + WillFlags(info)
    + (if Present(info.username) then 0x80 else 0) + (if Present(info.password) then 0x40 else 0)
  }

  function Field(s: Option<seq<byte>>): seq<byte> requires Short(s) { if Present(s) then Str(s.value) else [] }

  predicate WillFits(info: ConnectInfo) {
    Present(info.willTopic) ==> Short(info.willTopic) && info.willMessage.Some? && |info.willMessage.value| < 0x1_0000
  }

  function Will(info: ConnectInfo): seq<byte>
    requires WillFits(info)
  {
    if Present(info.willTopic) then Str(info.willTopic.value) + Str(info.willMessage.value) else []
  }

  /** The flags of a variable header, increased by bits that are clear in it. */
  function Flagged(body: seq<byte>, mask: nat): seq<byte>
    requires |body| > FLAGS_AT && body[FLAGS_AT] + mask < 0x100
  {
    body[FLAGS_AT := body[FLAGS_AT] + mask]
  }

  lemma {:induction false} FlagHeader(flags: byte, mask: nat, keepalive: nat, rest: seq<byte>, field: seq<byte>)
    requires flags + mask < 0x100
    ensures var body := ConnectHeader(flags, keepalive) + rest + field;
            && Flagged(body, mask) == ConnectHeader(flags + mask, keepalive) + (rest + field)
            && Flagged(body, 0) == ConnectHeader(flags, keepalive) + (rest + field)
  {}

  // ---------------------------------------------------------------- the builders

  /** mqtt_connection_t: the output buffer, the message under construction in it, and the id counter. */
  class Connection {
    const buffer: array<byte>
    var messageId: u16
    var length: nat   // message.length
    var data: nat     // message.data, as an index into buffer
    ghost var Body: seq<byte>  // what stands behind the room left for the fixed header
    ghost var First: byte      // the first byte of the buffer

    ghost predicate Valid() reads this, buffer {
      && MAX_FIXED_HEADER_SIZE <= buffer.Length < 0x1_0000 && data + length <= buffer.Length
      && First == buffer[0]
    }

    /** The packet that message.data and message.length delimit. */
    function Message(): seq<byte> requires Valid() reads this, buffer { buffer[data..data + length] }

    /** A message is under construction. */
    ghost predicate Building() reads this, buffer {
      Valid() && data == 0 && length >= MAX_FIXED_HEADER_SIZE && Body == buffer[MAX_FIXED_HEADER_SIZE..length]
    }

    /** mqtt_msg_init on a buffer of the client's. */
    constructor (space: array<byte>)
      requires MAX_FIXED_HEADER_SIZE <= space.Length < 0x1_0000
      ensures Valid() && buffer == space && messageId == 0 && length == 0 && First == space[0]
    {
      buffer, messageId, length, data, First := space, 0, 0, 0, space[0];
    }

    /** The memcpy that follows every capacity check. */
    method AppendBytes(s: seq<byte>)
      requires Building() && length + |s| <= buffer.Length
      modifies this`length, this`Body, buffer
      ensures Building() && length == old(length) + |s| && Body == old(Body) + s
    {
      forall i | 0 <= i < |s| { buffer[length + i] := s[i]; }
      length, Body := length + |s|, Body + s;
    }

    /** mqtt_msg_init on the same buffer. */
    method Init()
      requires Valid()
      modifies this
      ensures Valid() && messageId == 0 && Message() == [] && First == old(First)
    {
      messageId, length, data := 0, 0, 0;
    }

    method AppendString(s: seq<byte>) returns (ret: int)
      requires Building()
      modifies this, buffer
      ensures Building() && messageId == old(messageId) && First == old(First)
      ensures ret == if old(length) + |s| + 2 > buffer.Length then -1 else |s| + 2
      ensures ret >= 0 ==> |s| < 0x1_0000 && Body == old(Body) + Str(s)
      ensures ret < 0 ==> Body == old(Body)
    {
      if length + |s| + 2 > buffer.Length { return -1; }
      AppendBytes([|s| / 0x100, |s| % 0x100]);
      AppendBytes(s);
      return |s| + 2;
    }

    /** Zero when the identifier does not fit; the counter has moved all the same. */
    method AppendMessageId(wanted: u16) returns (id: u16)
      requires Building()
      modifies this, buffer
      ensures Building() && First == old(First)
      ensures messageId == if wanted == 0 then NextId(old(messageId)) else old(messageId)
      ensures id == if old(length) + 2 > buffer.Length then 0 else IdFor(wanted, old(messageId))
      ensures id != 0 ==> Body == old(Body) + Word(id)
      ensures id == 0 ==> Body == old(Body)
    {
      id := wanted;
      while id == 0
        invariant id == 0 ==> wanted == 0
        invariant id == 0 ==> messageId == old(messageId) || (messageId == 0 && old(messageId) == 0xFFFF)
        invariant id != 0 ==> id == IdFor(wanted, old(messageId))
        invariant id != 0 ==> messageId == if wanted == 0 then id else old(messageId)
        invariant Building() && length == old(length) && Body == old(Body) && First == old(First)
        decreases id == 0, if messageId == old(messageId) then 1 else 0
      {
        messageId := if messageId == 0xFFFF then 0 else messageId + 1;
        id := messageId;
      }
      if length + 2 > buffer.Length { return 0; }
      AppendBytes([id / 0x100, id % 0x100]);
    }

    method InitMessage()
      requires Valid()
      modifies this
      ensures Building() && length == MAX_FIXED_HEADER_SIZE && Body == []
      ensures messageId == old(messageId) && First == old(First)
    {
      data, length, Body := 0, MAX_FIXED_HEADER_SIZE, [];
    }

    method FailMessage()
      requires Valid()
      modifies this
      ensures Valid() && Message() == [] && data == 0 && messageId == old(messageId) && First == old(First)
    {
      data, length := 0, 0;
    }

    method FiniMessage(type_: int, dup: int, qos: int, retain: int)
      requires Building()
      modifies this, buffer
      ensures Valid() && messageId == old(messageId)
      ensures Message() == Encode(type_, dup, qos, retain, old(Body))
      ensures First == FirstByte(old(First), Message())
      ensures Message() != []
      ensures Message()[0] == 16 * (type_ % 16) + 8 * (dup % 2) + 2 * (qos % 4) + retain % 2
    {
      var remaining := length - MAX_FIXED_HEADER_SIZE;
      if remaining > 127 {
        buffer[0] := HeaderByte(type_, dup, qos, retain);
        buffer[1] := 0x80 + remaining % 128;
        buffer[2] := (remaining / 128) % 0x100;
        length, data, First := remaining + 3, 0, buffer[0];
      } else {
        buffer[1] := HeaderByte(type_, dup, qos, retain);
        buffer[2] := remaining;
        length, data := remaining + 2, 1;
      }
      assert buffer[MAX_FIXED_HEADER_SIZE..MAX_FIXED_HEADER_SIZE + remaining] == Body;
    }

    /** mqtt_msg_publish up to `fini_message`; `id` is what it stores through its message_id argument. */
    method BuildPublish(topic: seq<byte>, payload: seq<byte>, qos: int) returns (ok: bool, id: u16)
      requires Building() && Body == [] && length == MAX_FIXED_HEADER_SIZE
      modifies this, buffer
      ensures Building() && First == old(First)
      ensures messageId == if qos > 0 && 5 + |topic| <= buffer.Length then NextId(old(messageId)) else old(messageId)
      ensures ok == (PublishSize(topic, payload, qos) <= buffer.Length)
      ensures ok ==> id == (if qos > 0 then messageId else 0)
                     && |topic| < 0x1_0000 && Body == PublishBody(topic, payload, qos, NextId(old(messageId)))
    {
      id := 0;
      var ret := AppendString(topic);
      if ret < 0 { return false, 0; }
      if qos > 0 {
        id := AppendMessageId(0);
        if id == 0 { return false, 0; }
      }
      if length + |payload| > buffer.Length { return false, id; }
      AppendBytes(payload);
      ConcatAssoc(Str(topic), Word(id), payload);
      return true, id;
    }

    /** mqtt_msg_publish. */
    method Publish(topic: Option<seq<byte>>, payload: seq<byte>, qos: int, retain: int) returns (id: u16)
      requires Valid()
      modifies this, buffer
      ensures Valid() && First == FirstByte(old(First), Message())
      ensures messageId == PublishCounter(topic, qos, buffer.Length, old(messageId))
      ensures Message() == PublishMessage(topic, payload, qos, retain, buffer.Length, old(messageId))
      ensures Message() != [] ==> id == if qos > 0 then messageId else 0
    {
      InitMessage();
      if topic.None? || topic.value == [] { FailMessage(); return 0; }
      var ok;
      ok, id := BuildPublish(topic.value, payload, qos);
      if ok { FiniMessage(PUBLISH, 0, qos, retain); } else { FailMessage(); }
    }

    /** `variable_header->flags |= mask` on bits that are still clear. */
    method SetFlags(mask: nat)
      requires Building() && |Body| > FLAGS_AT && Body[FLAGS_AT] + mask < 0x100
      modifies this`Body, buffer
      ensures Building() && Body == old(Body)[FLAGS_AT := old(Body)[FLAGS_AT] + mask]
    {
      buffer[MAX_FIXED_HEADER_SIZE + FLAGS_AT] := buffer[MAX_FIXED_HEADER_SIZE + FLAGS_AT] + mask;
      Body := Body[FLAGS_AT := Body[FLAGS_AT] + mask];
    }

    /** mqtt_msg_connect up to the client identifier, with the flags known so far. */
    method BuildConnectHead(info: ConnectInfo) returns (ok: bool)
      requires Building() && Body == [] && length == MAX_FIXED_HEADER_SIZE
      modifies this, buffer
      ensures Building() && messageId == old(messageId) && First == old(First)
      ensures ok == (Present(info.clientId) && 17 + |info.clientId.value| <= buffer.Length)
      ensures ok ==> length == 17 + |info.clientId.value| && |info.clientId.value| < 0x1_0000
      ensures ok ==> Body == ConnectHeader(CleanFlag(info), info.keepalive) + Str(info.clientId.value)
    {
      if length + 12 > buffer.Length { return false; }
      AppendBytes(ConnectHeader(0, info.keepalive));
      if info.cleanSession != 0 { SetFlags(2); }
      assert Body == ConnectHeader(CleanFlag(info), info.keepalive);
      if info.clientId.None? || info.clientId.value == [] { return false; }
      var ret := AppendString(info.clientId.value);
      return ret >= 0;
    }

    /** One optional string of the CONNECT payload and its flag. */
    method AddField(field: Option<seq<byte>>, mask: nat) returns (ok: bool)
      requires Building() && |Body| > FLAGS_AT && Body[FLAGS_AT] + mask < 0x100
      modifies this, buffer
      ensures Building() && messageId == old(messageId) && First == old(First)
      ensures ok == (Present(field) ==> old(length) + |field.value| + 2 <= buffer.Length)
      ensures ok ==> Short(field) && length == old(length) + if Present(field) then 2 + |field.value| else 0
      ensures ok ==> Body == Flagged(old(Body) + Field(field), if Present(field) then mask else 0)
    {
      if field.Some? && field.value != [] {
        var ret := AppendString(field.value);
        if ret < 0 { return false; }
        SetFlags(mask);
      }
      return true;
    }

    /** The will: two strings and four flag bits. */
    method AddWill(info: ConnectInfo) returns (ok: bool)
      requires Present(info.willTopic) ==> info.willMessage.Some?
      requires Building() && |Body| > FLAGS_AT && Body[FLAGS_AT] < 4
      modifies this, buffer
      ensures Building() && messageId == old(messageId) && First == old(First)
      ensures ok == (Present(info.willTopic) ==>
                       old(length) + |info.willTopic.value| + |info.willMessage.value| + 4 <= buffer.Length)
      ensures ok ==> WillFits(info) && length == old(length) + |Will(info)|
      ensures ok ==> Body == Flagged(old(Body) + Will(info), WillFlags(info))
    {
      if info.willTopic.Some? && info.willTopic.value != [] {
        var ret := AppendString(info.willTopic.value);
        if ret < 0 { return false; }
        ret := AppendString(info.willMessage.value);
        if ret < 0 { return false; }
        SetFlags(4);
        if info.willRetain != 0 { SetFlags(0x20); }
        SetFlags((info.willQos % 4) * 8);
      }
      return true;
    }

    /** mqtt_msg_connect up to the will. */
    method BuildConnectWill(info: ConnectInfo) returns (ok: bool)
      requires Building() && Body == [] && length == MAX_FIXED_HEADER_SIZE
      requires Present(info.willTopic) ==> info.willMessage.Some?
      modifies this, buffer
      ensures Building() && messageId == old(messageId) && First == old(First)
      ensures ok == (Present(info.clientId) && ConnectSize(info.(username := None, password := None)) <= buffer.Length)
      ensures ok ==> |info.clientId.value| < 0x1_0000 && WillFits(info)
      ensures ok ==> length == ConnectSize(info.(username := None, password := None))
      ensures ok ==> Body == ConnectHeader(CleanFlag(info) + WillFlags(info), info.keepalive)
                             + (Str(info.clientId.value) + Will(info))
    {
      ok := BuildConnectHead(info);
      if !ok { return; }
      ok := AddWill(info);
      if !ok { return; }
      FlagHeader(CleanFlag(info), WillFlags(info), info.keepalive, Str(info.clientId.value), Will(info));
    }

    /** mqtt_msg_connect up to `fini_message`. */
    method BuildConnect(info: ConnectInfo) returns (ok: bool)
      requires Building() && Body == [] && length == MAX_FIXED_HEADER_SIZE
      requires Present(info.willTopic) ==> info.willMessage.Some?
      modifies this, buffer
      ensures Building() && messageId == old(messageId) && First == old(First)
      ensures ok == (Present(info.clientId) && ConnectSize(info) <= buffer.Length)
      ensures ok ==> Body == ConnectBody(info)
    {
      hide Str, Field, Will, Flagged;
      ok := BuildConnectWill(info);
      if !ok { return; }
      ghost var f, rest := CleanFlag(info) + WillFlags(info), Str(info.clientId.value) + Will(info);
      ok := AddField(info.username, 0x80);
      if !ok { return; }
      FlagHeader(f, 0x80, info.keepalive, rest, Field(info.username));
      f, rest := f + (if Present(info.username) then 0x80 else 0), rest + Field(info.username);
      ok := AddField(info.password, 0x40);
      if !ok { return; }
      FlagHeader(f, 0x40, info.keepalive, rest, Field(info.password));
    }

    /** mqtt_msg_connect in the build with the 3.1 protocol name. */
    method Connect(info: ConnectInfo)
      requires Valid() && (Present(info.willTopic) ==> info.willMessage.Some?)
      modifies this, buffer
      ensures Valid() && messageId == old(messageId) && First == FirstByte(old(First), Message())
      ensures Message() == ConnectMessage(info, buffer.Length)
      ensures Message() == [] ==> data == 0
    {
      InitMessage();
      var ok := BuildConnect(info);
      if ok { FiniMessage(CONNECT, 0, 0, 0); } else { FailMessage(); }
    }

    /** mqtt_msg_puback, pubrec, pubrel and pubcomp: an identifier and nothing else. */
    method Ack(type_: int, qos: int, wanted: u16)
      requires Valid()
      modifies this, buffer
      ensures Valid() && First == old(First)
      ensures messageId == if wanted == 0 then NextId(old(messageId)) else old(messageId)
      ensures Message() == AckMessage(type_, qos, wanted, buffer.Length, old(messageId))
    {
      InitMessage();
      var id := AppendMessageId(wanted);
      if id == 0 { FailMessage(); return; }
      FiniMessage(type_, 0, qos, 0);
    }

    method BuildSubscribe(topic: seq<byte>, qos: Option<byte>) returns (ok: bool, id: u16)
      requires Building() && Body == [] && length == MAX_FIXED_HEADER_SIZE
      modifies this, buffer
      ensures Building() && messageId == NextId(old(messageId)) && First == old(First)
      ensures ok == (SubscribeSize(topic, qos) <= buffer.Length)
      ensures ok ==> |topic| < 0x1_0000 && Body == SubscribeBody(topic, qos, NextId(old(messageId)))
    {
      id := AppendMessageId(0);
      if id == 0 { return false, id; }
      var ret := AppendString(topic);
      if ret < 0 { return false, id; }
      if qos.Some? {
        if length + 1 > buffer.Length { return false, id; }
        AppendBytes([qos.value]);
      }
      return true, id;
    }

    /** mqtt_msg_subscribe, with the requested QoS, and mqtt_msg_unsubscribe, without one. */
    method Subscribe(type_: int, topic: Option<seq<byte>>, qos: Option<byte>) returns (id: u16)
      requires Valid()
      modifies this, buffer
      ensures Valid() && First == FirstByte(old(First), Message())
      ensures messageId == if topic.None? || topic.value == [] then old(messageId) else NextId(old(messageId))
      ensures Message() == SubscribeMessage(type_, topic, qos, buffer.Length, old(messageId))
    {
      InitMessage();
      if topic.None? || topic.value == [] { FailMessage(); return 0; }
      var ok;
      ok, id := BuildSubscribe(topic.value, qos);
      if ok { FiniMessage(type_, 0, 1, 0); } else { FailMessage(); }
    }

    /** mqtt_msg_pingreq and mqtt_msg_pingresp. */
    method Ping(type_: int)
      requires Valid()
      modifies this, buffer
      ensures Valid() && messageId == old(messageId) && First == old(First)
      ensures Message() == Encode(type_, 0, 0, 0, []) == [16 * (type_ % 16), 0]
    {
      InitMessage();
      FiniMessage(type_, 0, 0, 0);
    }
  }

  // ---------------------------------------------------------------- what each builder builds; [] is a failed message

  /** Buffer space for a packet, with three bytes for the fixed header. */
  function PublishSize(topic: seq<byte>, payload: seq<byte>, qos: int): nat {
    5 + |topic| + (if qos > 0 then 2 else 0) + |payload|
  }

  function PublishMessage(topic: Option<seq<byte>>, payload: seq<byte>, qos: int, retain: int, bufLen: nat,
                          counter: u16): seq<byte>
    requires bufLen < 0x1_0000
  {
    if topic.None? || topic.value == [] || PublishSize(topic.value, payload, qos) > bufLen then []
    else Encode(PUBLISH, 0, qos, retain, PublishBody(topic.value, payload, qos, NextId(counter)))
  }

  function PublishCounter(topic: Option<seq<byte>>, qos: int, bufLen: nat, counter: u16): u16 {
    if topic.None? || topic.value == [] || 5 + |topic.value| > bufLen || qos <= 0 then counter else NextId(counter)
  }

  function ConnectSize(info: ConnectInfo): nat
    requires Present(info.clientId) && (Present(info.willTopic) ==> info.willMessage.Some?)
  {
    17 + |info.clientId.value|
    + (if Present(info.willTopic) then 4 + |info.willTopic.value| + |info.willMessage.value| else 0)
    + (if Present(info.username) then 2 + |info.username.value| else 0)
    + (if Present(info.password) then 2 + |info.password.value| else 0)
  }

  function ConnectBody(info: ConnectInfo): seq<byte>
    requires Present(info.clientId) && |info.clientId.value| < 0x1_0000
    requires WillFits(info) && Short(info.username) && Short(info.password)
  {
    ConnectHeader(ConnectFlags(info), info.keepalive)
    + (Str(info.clientId.value) + Will(info) + Field(info.username) + Field(info.password))
  }

  function ConnectMessage(info: ConnectInfo, bufLen: nat): seq<byte>
    requires bufLen < 0x1_0000 && (Present(info.willTopic) ==> info.willMessage.Some?)
  {
    if !Present(info.clientId) || ConnectSize(info) > bufLen then []
    else Encode(CONNECT, 0, 0, 0, ConnectBody(info))
  }

  function AckMessage(type_: int, qos: int, wanted: u16, bufLen: nat, counter: u16): seq<byte> {
    if bufLen < 5 then [] else Encode(type_, 0, qos, 0, Word(IdFor(wanted, counter)))
  }

  function SubscribeSize(topic: seq<byte>, qos: Option<byte>): nat {
    7 + |topic| + (if qos.Some? then 1 else 0)
  }

  function SubscribeBody(topic: seq<byte>, qos: Option<byte>, id: u16): seq<byte>
    requires |topic| < 0x1_0000
  {
    Word(id) + Str(topic) + (if qos.Some? then [qos.value] else [])
  }

  function SubscribeMessage(type_: int, topic: Option<seq<byte>>, qos: Option<byte>, bufLen: nat,
                            counter: u16): seq<byte>
    requires bufLen < 0x1_0000
  {
    if topic.None? || topic.value == [] || SubscribeSize(topic.value, qos) > bufLen then []
    else Encode(type_, 0, 1, 0, SubscribeBody(topic.value, qos, NextId(counter)))
  }

  // ---------------------------------------------------------------- successive identifiers

  /** The `n`-th identifier that a counter gives out. */
  function NthId(counter: u16, n: nat): u16 { if n == 0 then counter else NextId(NthId(counter, n - 1)) }

  lemma {:induction false} NthIdIs(counter: u16, n: nat)
    requires n >= 1
    ensures NthId(counter, n) == (counter + n - 1) % 0xFFFF + 1
    decreases n
  {
    if n > 1 {
      NthIdIs(counter, n - 1);
      var r := (counter + n - 2) % 0xFFFF;
      assert (counter + n - 1) % 0xFFFF == if r + 1 == 0xFFFF then 0 else r + 1;
    } else {
      assert NthId(counter, 0) == counter;
    }
  }

  /** No identifier is zero, and none comes back within 65535 identifiers. */
  lemma {:induction false} IdsAreDistinct(counter: u16, i: nat, j: nat)
    requires 1 <= i < j < i + 0xFFFF
    ensures NthId(counter, i) != 0 && NthId(counter, i) != NthId(counter, j)
    ensures NthId(counter, i + 0xFFFF) == NthId(counter, i)
  {
    hide NthId;
    NthIdIs(counter, i);
    NthIdIs(counter, j);
    NthIdIs(counter, i + 0xFFFF);
    ModMoves(counter + i - 1, j - i);
    ModReturns(counter + i - 1);
  }

  lemma ModMoves(a: nat, d: nat)
    requires 0 < d < 0xFFFF
    ensures (a + d) % 0xFFFF == if a % 0xFFFF + d < 0xFFFF then a % 0xFFFF + d else a % 0xFFFF + d - 0xFFFF
  {
    assert a == 0xFFFF * (a / 0xFFFF) + a % 0xFFFF;
  }

  lemma ModReturns(a: nat)
    ensures (a + 0xFFFF) % 0xFFFF == a % 0xFFFF
  {}
}
