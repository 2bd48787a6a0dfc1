/** Readers of CONNECT, SUBSCRIBE and UNSUBSCRIBE by MQTT 3.1.1, and what mqtt_msg.c's packets look like to them. */
module MqttConnect {
  import opened Bytes
  import opened MqttMsg
  import opened MqttDecode

  datatype Will = Will(topic: seq<byte>, message: seq<byte>, qos: nat, retain: bool)

  datatype Fields = Fields(clean: bool, keepalive: u16, clientId: seq<byte>, will: Option<Will>,
                           username: Option<seq<byte>>, password: Option<seq<byte>>)

  // ---------------------------------------------------------------- the grammar

  predicate Bit(flags: byte, mask: int) requires mask > 0 { (flags / mask) % 2 == 1 }

  /** A length-prefixed string, and what follows it. */
  function ReadStr(s: seq<byte>): Option<(seq<byte>, seq<byte>)> {
    if |s| < 2 then None
    else
      var n := WordOf(s[0], s[1]);
      if |s| < 2 + n then None else Some((s[2..2 + n], s[2 + n..]))
  }

  function ReadOptional(present: bool, s: seq<byte>): Option<(Option<seq<byte>>, seq<byte>)> {
    if !present then Some((None, s))
    else match ReadStr(s) case None => None case Some((x, rest)) => Some((Some(x), rest))
  }

  /** Will topic and message; without the will flag, will QoS and will retain must be clear. */
  function ReadWill(flags: byte, s: seq<byte>): Option<(Option<Will>, seq<byte>)> {
    var qos := (flags / 8) % 4;
    if !Bit(flags, 4) then if qos != 0 || Bit(flags, 0x20) then None else Some((None, s))
    else if qos == 3 then None
    else match ReadStr(s)
      case None => None
      case Some((topic, rest)) =>
        match ReadStr(rest)
        case None => None
        case Some((message, rest')) => Some((Some(Will(topic, message, qos, Bit(flags, 0x20))), rest'))
  }

  /** Client identifier, will, user name and password, in this order and with nothing behind them. */
  function ReadPayload(flags: byte, keepalive: u16, s: seq<byte>): Option<Fields> {
    if Bit(flags, 1) || (Bit(flags, 0x40) && !Bit(flags, 0x80)) then None
    else match ReadStr(s)
      case None => None
      case Some((clientId, s1)) =>
        match ReadWill(flags, s1)
        case None => None
        case Some((will, s2)) =>
          match ReadOptional(Bit(flags, 0x80), s2)
          case None => None
          case Some((username, s3)) =>
            match ReadOptional(Bit(flags, 0x40), s3)
            case None => None
            case Some((password, s4)) =>
              if s4 != [] then None else Some(Fields(Bit(flags, 2), keepalive, clientId, will, username, password))
  }

  /** A whole CONNECT packet with the MQIsdp protocol name, level 3. */
  function ReadConnect(p: seq<byte>): Option<Fields> {
    if |p| < 2 || p[0] != 0x10 || TotalLength(p, |p|) != |p| then None
    else
      var b := p[VarEnd(p, 1, |p|)..];
      if |b| < 12 || b[..9] != [0, 6, 77, 81, 73, 115, 100, 112, 3] then None
      else ReadPayload(b[9], WordOf(b[10], b[11]), b[12..])
  }

  // ---------------------------------------------------------------- what the client was asked to send

  function WillOf(info: ConnectInfo): Option<Will>
    requires Present(info.willTopic) ==> info.willMessage.Some?
  {
    if !Present(info.willTopic) then None
    else Some(Will(info.willTopic.value, info.willMessage.value, info.willQos % 4, info.willRetain != 0))
  }

  function Given(s: Option<seq<byte>>): Option<seq<byte>> { if Present(s) then s else None }

  function FieldsOf(info: ConnectInfo): Fields
    requires info.clientId.Some? && (Present(info.willTopic) ==> info.willMessage.Some?)
  {
    Fields(info.cleanSession != 0, info.keepalive % 0x1_0000, info.clientId.value, WillOf(info),
           Given(info.username), Given(info.password))
  }

  /** What the standard asks of the supplied fields and the builder does not check. */
  predicate Acceptable(info: ConnectInfo) {
    && (Present(info.willTopic) ==> info.willQos % 4 != 3)
    && (Present(info.password) ==> Present(info.username))
  }

  // ---------------------------------------------------------------- proof

  lemma {:induction false} ReadsStr(x: seq<byte>, rest: seq<byte>)
    requires |x| < 0x1_0000
    ensures ReadStr(Str(x) + rest) == Some((x, rest))
  {
    var s := Str(x) + rest;
    assert s[0] == Word(|x|)[0] && s[1] == Word(|x|)[1];
  }

  lemma FlagBits(c: nat, w: nat, q: nat, r: nat, u: nat, p: nat)
    requires c < 2 && w < 2 && q < 4 && r < 2 && u < 2 && p < 2
    ensures var f := c * 2 + w * 4 + q * 8 + r * 0x20 + u * 0x80 + p * 0x40;
            && f < 0x100 && f % 2 == 0 && (f / 2) % 2 == c && (f / 4) % 2 == w && (f / 8) % 4 == q
            && (f / 0x20) % 2 == r && (f / 0x40) % 2 == p && (f / 0x80) % 2 == u
  {
    var f := c * 2 + w * 4 + q * 8 + r * 0x20 + u * 0x80 + p * 0x40;
    assert f / 2 == c + 2 * (w + 2 * q + 8 * r + 16 * p + 32 * u);
    assert f / 4 == w + 2 * (q + 4 * r + 8 * p + 16 * u);
    assert f / 8 == q + 4 * (r + 2 * p + 4 * u);
    assert f / 0x20 == r + 2 * (p + 2 * u);
    assert f / 0x40 == p + 2 * u;
  }

  /** Each flag is set exactly when its field is present. */
  lemma FlagsTell(info: ConnectInfo)
    ensures var f := ConnectFlags(info);
            && !Bit(f, 1)
            && (Bit(f, 2) <==> info.cleanSession != 0)
            && (Bit(f, 4) <==> Present(info.willTopic))
            && (f / 8) % 4 == (if Present(info.willTopic) then info.willQos % 4 else 0)
            && (Bit(f, 0x20) <==> Present(info.willTopic) && info.willRetain != 0)
            && (Bit(f, 0x80) <==> Present(info.username))
            && (Bit(f, 0x40) <==> Present(info.password))
  {
    var w := if Present(info.willTopic) then 1 else 0;
    FlagBits(if info.cleanSession != 0 then 1 else 0, w, w * (info.willQos % 4),
             if w == 1 && info.willRetain != 0 then 1 else 0,
             if Present(info.username) then 1 else 0, if Present(info.password) then 1 else 0);
  }

  lemma {:induction false} ReadsWill(info: ConnectInfo, rest: seq<byte>)
    requires WillFits(info)
    ensures ReadWill(ConnectFlags(info), MqttMsg.Will(info) + rest)
         == if Present(info.willTopic) && info.willQos % 4 == 3 then None else Some((WillOf(info), rest))
  {
    FlagsTell(info);
    if Present(info.willTopic) {
      var topic, message := info.willTopic.value, info.willMessage.value;
      ConcatAssoc(Str(topic), Str(message), rest);
      ReadsStr(topic, Str(message) + rest);
      ReadsStr(message, rest);
    } else {
      assert MqttMsg.Will(info) + rest == rest;
    }
  }

  lemma {:induction false} ReadsOptional(field: Option<seq<byte>>, rest: seq<byte>)
    requires Short(field)
    ensures ReadOptional(Present(field), Field(field) + rest) == Some((Given(field), rest))
  {
    if Present(field) {
      ReadsStr(field.value, rest);
    } else {
      assert Field(field) + rest == rest;
    }
  }

  lemma {:induction false} ReadsPayload(info: ConnectInfo, keepalive: u16)
    requires Present(info.clientId) && |info.clientId.value| < 0x1_0000
    requires WillFits(info) && Short(info.username) && Short(info.password)
    ensures ReadPayload(ConnectFlags(info), keepalive,
                        Str(info.clientId.value) + MqttMsg.Will(info) + Field(info.username) + Field(info.password))
         == if Acceptable(info) then Some(FieldsOf(info).(keepalive := keepalive)) else None
  {
    hide ReadStr, ReadWill, ReadOptional, ConnectFlags, Str, Field, MqttMsg.Will;
    FlagsTell(info);
    hide Bit;
    var id, w, u, p := Str(info.clientId.value), MqttMsg.Will(info), Field(info.username), Field(info.password);
    assert id + w + u + p == id + (w + (u + p));
    ReadsStr(info.clientId.value, w + (u + p));
    ReadsWill(info, u + p);
    ReadsOptional(info.username, p);
    assert p + [] == p;
    ReadsOptional(info.password, []);
  }

  lemma LowWord(n: nat)
    ensures (n / 0x100) % 0x100 * 0x100 + n % 0x100 == n % 0x1_0000
  {
    assert n / 0x100 == 0x100 * (n / 0x1_0000) + (n % 0x1_0000) / 0x100;
  }

  lemma {:induction false} ReadsHeader(flags: byte, keepalive: nat, rest: seq<byte>)
    requires |rest| + 12 <= MAX_REMAINING
    ensures ReadConnect(Encode(CONNECT, 0, 0, 0, ConnectHeader(flags, keepalive) + rest))
         == ReadPayload(flags, keepalive % 0x1_0000, rest)
  {
    hide ReadPayload;
    var body := ConnectHeader(flags, keepalive) + rest;
    var p := Encode(CONNECT, 0, 0, 0, body);
    HeaderReadsBack(CONNECT, 0, 0, 0, body, p, |p|);
    assert p[0] == 0x10;
    assert p[|p| - |body|..] == body;
    assert body[..9] == [0, 6, 77, 81, 73, 115, 100, 112, 3] && body[12..] == rest;
    LowWord(keepalive);
  }

  /**
   * Every CONNECT the builder does not refuse reads back, by the standard's grammar, as the supplied fields,
   * with the keep alive time cut to 16 bits, exactly when the will QoS is not 3 and no password comes without
   * a user name.
   */
  lemma {:induction false} ConnectReadsBack(info: ConnectInfo, bufLen: nat)
    requires bufLen <= MAX_REMAINING + MAX_FIXED_HEADER_SIZE
    requires Present(info.willTopic) ==> info.willMessage.Some?
    ensures ConnectMessage(info, bufLen) != [] <==> Present(info.clientId) && ConnectSize(info) <= bufLen
    ensures ConnectMessage(info, bufLen) != [] ==>
              |ConnectMessage(info, bufLen)| <= bufLen &&
              ReadConnect(ConnectMessage(info, bufLen)) == if Acceptable(info) then Some(FieldsOf(info)) else None
  {
    if Present(info.clientId) && ConnectSize(info) <= bufLen {
      hide Pow128;
      ReadsHeader(ConnectFlags(info), info.keepalive,
                  Str(info.clientId.value) + MqttMsg.Will(info) + Field(info.username) + Field(info.password));
      ReadsPayload(info, info.keepalive % 0x1_0000);
    }
  }

  /** `f` is the remaining length field of section 2.2.3 of MQTT 3.1.1 for `n`. */
  ghost predicate EncodesLength(f: seq<byte>, n: nat) {
    if |f| == 0 then false
    else if |f| == 1 then f[0] < 0x80 && n == f[0]
    else f[0] >= 0x80 && n % 0x80 == f[0] - 0x80 && EncodesLength(f[1..], n / 0x80)
  }

  /** `fini_message` writes that field exactly for the lengths that two bytes can hold. */
  lemma {:induction false} TwoByteLengths(n: nat)
    ensures EncodesLength(RemainingLength(n), n) <==> n <= MAX_REMAINING
  {
    var f := RemainingLength(n);
    if n > 127 {
      assert f[1..] == [(n / 128) % 0x100];
      assert EncodesLength(f, n) <==> EncodesLength(f[1..], n / 0x80);
    }
  }

  /** The readers, unlike the builder, take the standard's remaining length field of any size. */
  lemma {:induction false} AnyLengthReadsBack(f: seq<byte>, n: nat, b: seq<byte>, length: nat)
    requires EncodesLength(f, n) && 1 + |f| <= length <= |b| && b[1..1 + |f|] == f
    ensures VarEnd(b, 1, length) == 1 + |f| && TotalLength(b, length) == n + 1 + |f|
  {
    assert Pow128(0) == 1;
    LengthFrom(f, n, b, 1, length);
  }

  lemma {:induction false} LengthFrom(f: seq<byte>, n: nat, b: seq<byte>, i: nat, length: nat)
    requires EncodesLength(f, n) && i >= 1 && i + |f| <= length <= |b| && b[i..i + |f|] == f
    ensures VarEnd(b, i, length) == i + |f| && VarSum(b, i, length) == n * Pow128(i - 1)
    decreases |f|
  {
    hide Pow128, VarEnd, VarSum, Digit;
    var p := Pow128(i - 1);
    assert f[0] == b[i];
    ReadsDigit(b, i, length);
    if |f| > 1 {
      assert b[i + 1..i + 1 + |f[1..]|] == f[1..];
      LengthFrom(f[1..], n / 0x80, b, i + 1, length);
      hide EncodesLength;
      PowNext(i);
      DigitsAdd(n, p);
    }
  }

  lemma ReadsDigit(b: seq<byte>, i: nat, length: nat)
    requires 1 <= i < length <= |b|
    ensures VarEnd(b, i, length) == if b[i] < 0x80 then i + 1 else VarEnd(b, i + 1, length)
    ensures VarSum(b, i, length)
         == (b[i] % 0x80) * Pow128(i - 1) + if b[i] < 0x80 then 0 else VarSum(b, i + 1, length)
  {
    hide Pow128;
  }

  lemma PowNext(i: nat)
    requires i >= 1
    ensures Pow128(i) == 128 * Pow128(i - 1)
  {}

  lemma DigitsAdd(n: nat, p: nat)
    ensures (n % 0x80) * p + (n / 0x80) * (128 * p) == n * p
  {
    assert n == 128 * (n / 0x80) + n % 0x80;
    assert (n / 0x80) * (128 * p) == (128 * (n / 0x80)) * p;
    assert (n % 0x80) * p + (128 * (n / 0x80)) * p == (n % 0x80 + 128 * (n / 0x80)) * p;
  }

  // ---------------------------------------------------------------- SUBSCRIBE and UNSUBSCRIBE

  /** Packet identifier, topic filter and what follows it, by sections 3.8 and 3.10 of MQTT 3.1.1. */
  function ReadSubscribe(p: seq<byte>): Option<(u16, seq<byte>, seq<byte>)> {
    if |p| < 2 || TotalLength(p, |p|) != |p| then None
    else
      var b := p[VarEnd(p, 1, |p|)..];
      if |b| < 2 then None
      else match ReadStr(b[2..])
        case None => None
        case Some((topic, rest)) => Some((WordOf(b[0], b[1]), topic, rest))
  }

  /**
   * A request is built exactly when it fits; it carries the standard's first byte, a fresh identifier that is not
   * zero, the topic and, for SUBSCRIBE only, the requested QoS. `mqtt_get_id` finds the identifier exactly in a
   * SUBSCRIBE whose remaining length takes one byte.
   */
  lemma {:induction false} SubscribeReadsBack(topic: Option<seq<byte>>, qos: Option<byte>, bufLen: nat, counter: u16)
    requires bufLen <= MAX_REMAINING + MAX_FIXED_HEADER_SIZE
    ensures var type_ := if qos.Some? then SUBSCRIBE else UNSUBSCRIBE;
            var p := SubscribeMessage(type_, topic, qos, bufLen, counter);
            && (p != [] <==> Present(topic) && SubscribeSize(topic.value, qos) <= bufLen)
            && |p| <= bufLen
            && (p != [] ==>
                && p[0] == (if qos.Some? then 0x82 else 0xA2)
                && ReadSubscribe(p) == Some((NextId(counter), topic.value, if qos.Some? then [qos.value] else []))
                && NextId(counter) != 0
                && Id(p, |p|) == if qos.Some? && |p| < 130 then NextId(counter) else 0)
  {
    var type_ := if qos.Some? then SUBSCRIBE else UNSUBSCRIBE;
    var p := SubscribeMessage(type_, topic, qos, bufLen, counter);
    hide ReadSubscribe, Id, Encode, SubscribeBody;
    if Present(topic) && SubscribeSize(topic.value, qos) <= bufLen {
      BodySize(topic.value, qos, NextId(counter));
      EncodeBegins(type_, SubscribeBody(topic.value, qos, NextId(counter)));
      RequestReadsBack(type_, topic.value, qos, NextId(counter));
    }
  }

  lemma EncodeBegins(type_: int, body: seq<byte>)
    requires 0 <= type_ < 16
    ensures var p := Encode(type_, 0, 1, 0, body); 0 < |p| <= |body| + 3 && p[0] == type_ * 16 + 2
  {}

  lemma BodySize(topic: seq<byte>, qos: Option<byte>, id: u16)
    requires |topic| < 0x1_0000
    ensures |SubscribeBody(topic, qos, id)| + 3 == SubscribeSize(topic, qos)
  {}

  lemma {:induction false} RequestReadsBack(type_: int, topic: seq<byte>, qos: Option<byte>, id: u16)
    requires type_ == (if qos.Some? then SUBSCRIBE else UNSUBSCRIBE) && |topic| < 0x1_0000
    requires |SubscribeBody(topic, qos, id)| <= MAX_REMAINING
    ensures var p := Encode(type_, 0, 1, 0, SubscribeBody(topic, qos, id));
            && ReadSubscribe(p) == Some((id, topic, if qos.Some? then [qos.value] else []))
            && Id(p, |p|) == if qos.Some? && |p| < 130 then id else 0
  {
    hide VarEnd, VarSum, ReadStr, Id;
    var body, rest := SubscribeBody(topic, qos, id), if qos.Some? then [qos.value] else [];
    var p := Encode(type_, 0, 1, 0, body);
    HeaderReadsBack(type_, 0, 1, 0, body, p, |p|);
    assert p[VarEnd(p, 1, |p|)..] == body;
    assert body[2..] == Str(topic) + rest;
    assert body[0] == Word(id)[0] && body[1] == Word(id)[1];
    ReadsStr(topic, rest);
    RequestId(type_, body, id);
  }

  lemma {:induction false} RequestId(type_: int, body: seq<byte>, id: u16)
    requires type_ in {SUBSCRIBE, UNSUBSCRIBE} && 2 <= |body| <= MAX_REMAINING && WordOf(body[0], body[1]) == id
    ensures var p := Encode(type_, 0, 1, 0, body);
            Id(p, |p|) == if type_ == SUBSCRIBE && |p| < 130 then id else 0
  {
    HeaderBits(type_, 0, 1, 0);
  }

  /** The identifier of an acknowledgement reads back, whatever follows it. */
  lemma {:induction false} AckReadsBack(type_: int, qos: nat, wanted: u16, bufLen: nat, counter: u16, tail: seq<byte>)
    requires type_ in {PUBACK, PUBREC, PUBREL, PUBCOMP} && qos < 4 && bufLen >= 5
    ensures var p := AckMessage(type_, qos, wanted, bufLen, counter);
            && |p| == 4 && GetType(p + tail) == type_ && GetQos(p + tail) == qos
            && Id(p + tail, |p + tail|) == (if wanted != 0 then wanted else NextId(counter)) != 0
  {
    HeaderBits(type_, 0, qos, 0);
  }
}
