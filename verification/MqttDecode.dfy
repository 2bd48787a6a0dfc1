/** The readers of domo/mqtt/mqtt_msg.c, and the proof that they undo mqtt_msg_publish. */
module MqttDecode {
  import opened Bytes
  import opened MqttMsg

  function GetType(b: seq<byte>): int requires b != [] { b[0] / 16 }

  function GetQos(b: seq<byte>): int requires b != [] { (b[0] / 2) % 4 }

  function GetDup(b: seq<byte>): int requires b != [] { (b[0] / 8) % 2 }

  function GetRetain(b: seq<byte>): int requires b != [] { b[0] % 2 }

  /** The first byte of a packet by section 2.2 of MQTT 3.1.1: type, DUP, QoS and RETAIN, from the top bit down. */
  ghost predicate Begins(b: seq<byte>, type_: int, dup: int, qos: int, retain: int) {
    && b != [] && b[0] == 16 * type_ + 8 * (dup % 2) + 2 * (qos % 4) + retain % 2
    && GetType(b) == type_ && GetDup(b) == dup % 2 && GetQos(b) == qos % 4 && GetRetain(b) == retain % 2
  }

  // ---------------------------------------------------------------- the readers as functions

  function Pow128(n: nat): nat { if n == 0 then 1 else 128 * Pow128(n - 1) }

  /** What the length byte `c` at index `i` adds: `(c & 0x7f) << (7 * (i - 1))`. */
  function Digit(c: byte, i: nat): nat requires i >= 1 { (c % 0x80) * Pow128(i - 1) }

  /** The index behind the remaining length field that is read from index `i` on. */
  function VarEnd(b: seq<byte>, i: nat, length: nat): (e: nat)
    requires length <= |b|
    ensures i <= e && (i < length ==> i < e <= length)
    decreases length - i
  {
    if i >= length then i else if b[i] < 0x80 then i + 1 else VarEnd(b, i + 1, length)
  }

  function VarSum(b: seq<byte>, i: nat, length: nat): nat
    requires length <= |b| && i >= 1
    decreases length - i
  {
    if i >= length then 0
    else Digit(b[i], i) + if b[i] < 0x80 then 0 else VarSum(b, i + 1, length)
  }

  function TotalLength(b: seq<byte>, length: nat): (n: nat)
    requires length <= |b|
    ensures n >= 1
  {
    VarSum(b, 1, length) + VarEnd(b, 1, length)
  }

  /** Start and end of the topic, or None for NULL. */
  function Topic(b: seq<byte>, length: nat): (t: Option<(nat, nat)>)
    requires length <= |b|
    ensures t.Some? ==> t.value.0 <= t.value.1 <= length
  {
    var i := VarEnd(b, 1, length);
    if i + 2 >= length then None
    else
      var e := i + 2 + WordOf(b[i], b[i + 1]);
      if e > length then None else Some((i + 2, e))
  }

  /** Start and end of the payload, or None for NULL. */
  function Payload(b: seq<byte>, length: nat): (t: Option<(nat, nat)>)
    requires 0 < length <= |b|
    ensures t.Some? ==> t.value.0 <= t.value.1 <= length
  {
    var t := Topic(b, length);
    if t.None? || t.value.1 >= length then None
    else if GetQos(b) > 0 && t.value.1 + 2 >= length then None
    else
      var i := t.value.1 + if GetQos(b) > 0 then 2 else 0;
      var totlen := TotalLength(b, length);
      if totlen < i then None else Some((i, Min(totlen, length)))
  }

  function Id(b: seq<byte>, length: nat): u16
    requires length <= |b|
  {
    if length < 1 then 0
    else if GetType(b) == PUBLISH then
      var t := Topic(b, length);
      if t.None? || t.value.1 + 2 >= length || GetQos(b) == 0 then 0
      else WordOf(b[t.value.1], b[t.value.1 + 1])
    else if GetType(b) in {PUBACK, PUBREC, PUBREL, PUBCOMP, SUBACK, UNSUBACK, SUBSCRIBE} then
      if length >= 4 && b[1] < 0x80 then WordOf(b[2], b[3]) else 0
    else 0
  }

  // ---------------------------------------------------------------- the readers themselves

  method GetTotalLength(buffer: seq<byte>, length: nat) returns (totlen: nat)
    requires length <= |buffer|
    ensures totlen == TotalLength(buffer, length)
  {
    totlen := 0;
    var i := 1;
    while i < length
      invariant 1 <= i
      invariant VarEnd(buffer, i, length) == VarEnd(buffer, 1, length)
      invariant totlen + VarSum(buffer, i, length) == VarSum(buffer, 1, length)
      decreases length - i
    {
      totlen := totlen + Digit(buffer[i], i);
      if buffer[i] < 0x80 {
        i := i + 1;
        break;
      }
      i := i + 1;
    }
    totlen := totlen + i;
  }

  /** The loop with which every other reader skips the remaining length. */
  method SkipLength(buffer: seq<byte>, length: nat) returns (i: nat)
    requires length <= |buffer|
    ensures i == VarEnd(buffer, 1, length)
  {
    i := 1;
    while i < length
      invariant 1 <= i && VarEnd(buffer, i, length) == VarEnd(buffer, 1, length)
    {
      if buffer[i] < 0x80 { return i + 1; }
      i := i + 1;
    }
  }

  method GetPublishTopic(buffer: seq<byte>, length: nat) returns (ptr: Option<nat>, len: nat)
    requires length <= |buffer|
    ensures match Topic(buffer, length)
            case None => ptr == None && len == length
            case Some(t) => ptr == Some(t.0) && len == t.1 - t.0
  {
    var i := SkipLength(buffer, length);
    if i + 2 >= length { return None, length; }
    var topiclen := WordOf(buffer[i], buffer[i + 1]);
    i := i + 2;
    if i + topiclen > length { return None, length; }
    return Some(i), topiclen;
  }

  method GetPublishData(buffer: seq<byte>, length: nat) returns (ptr: Option<nat>, len: nat)
    requires 0 < length <= |buffer|
    ensures match Payload(buffer, length)
            case None => ptr == None && len == 0
            case Some(t) => ptr == Some(t.0) && len == t.1 - t.0
  {
    var totlen := GetTotalLength(buffer, length);
    var i := SkipLength(buffer, length);
    if i + 2 >= length { return None, 0; }
    var topiclen := WordOf(buffer[i], buffer[i + 1]);
    i := i + 2;
    if i + topiclen >= length { return None, 0; }
    i := i + topiclen;
    if GetQos(buffer) > 0 {
      if i + 2 >= length { return None, 0; }
      i := i + 2;
    }
    if totlen < i { return None, 0; }
    len := if totlen <= length then totlen - i else length - i;
    return Some(i), len;
  }

  method GetId(buffer: seq<byte>, length: nat) returns (id: u16)
    requires length <= |buffer|
    ensures id == Id(buffer, length)
  {
    if length < 1 { return 0; }
    var type_ := GetType(buffer);
    if type_ == PUBLISH {
      var i := SkipLength(buffer, length);
      if i + 2 >= length { return 0; }
      var topiclen := WordOf(buffer[i], buffer[i + 1]);
      i := i + 2;
      if i + topiclen >= length { return 0; }
      i := i + topiclen;
      if GetQos(buffer) > 0 {
        if i + 2 >= length { return 0; }
      } else {
        return 0;
      }
      return WordOf(buffer[i], buffer[i + 1]);
    } else if type_ in {PUBACK, PUBREC, PUBREL, PUBCOMP, SUBACK, UNSUBACK, SUBSCRIBE} {
      return if length >= 4 && buffer[1] < 0x80 then WordOf(buffer[2], buffer[3]) else 0;
    } else {
      return 0;
    }
  }

  // ---------------------------------------------------------------- round trip

  /** Two bytes of remaining length reach up to here, section 2.2.3 of MQTT 3.1.1. */
  const MAX_REMAINING := 16383

  lemma HeaderBits(type_: nat, dup: int, qos: int, retain: int)
    requires type_ < 16
    ensures HeaderByte(type_, dup, qos, retain) / 16 == type_
    ensures (HeaderByte(type_, dup, qos, retain) / 2) % 4 == qos % 4
    ensures Begins([HeaderByte(type_, dup, qos, retain)], type_, dup, qos, retain)
  {
    var d, q, r := dup % 2, qos % 4, retain % 2;
    assert HeaderByte(type_, dup, qos, retain) == 16 * type_ + 8 * d + 2 * q + r;
    assert (16 * type_ + 8 * d + 2 * q + r) / 2 == 4 * (2 * type_ + d) + q;
    assert (16 * type_ + 8 * d + 2 * q + r) / 8 == 2 * type_ + d;
  }

  lemma {:induction false} LengthReadsBack(n: nat, b: seq<byte>, length: nat)
    requires n <= MAX_REMAINING && 1 + |RemainingLength(n)| <= length <= |b|
    requires b[1..1 + |RemainingLength(n)|] == RemainingLength(n)
    ensures VarEnd(b, 1, length) == 1 + |RemainingLength(n)| && VarSum(b, 1, length) == n
  {
    var f := RemainingLength(n);
    assert b[1] == f[0] && Pow128(0) == 1;
    if n > 127 {
      assert b[2] == b[1..3][1] == f[1] == n / 128;
      assert Pow128(1) == 128;
      assert VarSum(b, 2, length) == n / 128 * 128;
    }
  }

  /** The fixed header reads back as written. */
  lemma {:induction false} HeaderReadsBack(type_: nat, dup: int, qos: int, retain: int, body: seq<byte>,
                                           b: seq<byte>, length: nat)
    requires type_ < 16 && |body| <= MAX_REMAINING
    requires Encode(type_, dup, qos, retain, body) <= b && |Encode(type_, dup, qos, retain, body)| <= length <= |b|
    ensures Begins(b, type_, dup, qos, retain)
    ensures TotalLength(b, length) == |Encode(type_, dup, qos, retain, body)|
    ensures VarEnd(b, 1, length) == |Encode(type_, dup, qos, retain, body)| - |body|
  {
    var p := Encode(type_, dup, qos, retain, body);
    assert b[0] == p[0];
    HeaderBits(type_, dup, qos, retain);
    var e := 1 + |RemainingLength(|body|)|;
    assert b[1..e] == p[1..e] == RemainingLength(|body|);
    LengthReadsBack(|body|, b, length);
  }

  /** Where topic, identifier and payload stand in a PUBLISH whose body begins at `h`. */
  lemma {:induction false} PublishLayout(topic: seq<byte>, payload: seq<byte>, qos: nat, id: u16, b: seq<byte>, h: nat)
    requires |topic| < 0x1_0000
    requires h + |PublishBody(topic, payload, qos, id)| <= |b|
    requires b[h..h + |PublishBody(topic, payload, qos, id)|] == PublishBody(topic, payload, qos, id)
    ensures WordOf(b[h], b[h + 1]) == |topic| && b[h + 2..h + 2 + |topic|] == topic
    ensures var e := h + 2 + |topic|;
            if qos > 0 then WordOf(b[e], b[e + 1]) == id && b[e + 2..e + 2 + |payload|] == payload
            else b[e..e + |payload|] == payload
  {
    var n := |topic|;
    SliceAt(b, h, Str(topic), if qos > 0 then Word(id) + payload else payload);
    SliceAt(b, h, Word(n), topic);
    WordAt(b, h, n);
    if qos > 0 {
      SliceAt(b, h + 2 + n, Word(id), payload);
      WordAt(b, h + 2 + n, id);
    }
  }

  lemma SliceAt<T>(b: seq<T>, h: nat, x: seq<T>, y: seq<T>)
    requires h + |x + y| <= |b| && b[h..h + |x + y|] == x + y
    ensures b[h..h + |x|] == x && b[h + |x|..h + |x| + |y|] == y
  {
    assert (x + y)[..|x|] == x && (x + y)[|x|..] == y;
    assert b[h..h + |x + y|][..|x|] == b[h..h + |x|];
    assert b[h..h + |x + y|][|x|..] == b[h + |x|..h + |x| + |y|];
  }

  lemma WordAt(b: seq<byte>, i: nat, w: u16)
    requires i + 2 <= |b| && b[i..i + 2] == Word(w)
    ensures WordOf(b[i], b[i + 1]) == w
  {
    assert b[i] == b[i..i + 2][0] && b[i + 1] == b[i..i + 2][1];
  }

  ghost predicate DecodesAs(b: seq<byte>, length: nat, topic: seq<byte>, payload: seq<byte>)
    requires 0 < length <= |b|
  {
    && Topic(b, length).Some?
    && (var t := Topic(b, length).value; b[t.0..t.1] == topic)
    && match Payload(b, length) case None => payload == [] case Some(d) => b[d.0..d.1] == payload
  }

  /**
   * Reading back what mqtt_msg_publish built from a buffer that starts with it, told that `more` of the bytes behind
   * it are valid: total length, topic and payload are recovered; the identifier exactly when some byte follows it.
   */
  lemma {:induction false} PublishRoundTrip(topic: seq<byte>, payload: seq<byte>, dup: int, qos: nat, retain: int,
                                            id: u16, tail: seq<byte>, more: nat)
    requires topic != [] && |topic| < 0x1_0000 && qos < 4
    requires |PublishBody(topic, payload, qos, id)| <= MAX_REMAINING && more <= |tail|
    ensures var p := Encode(PUBLISH, dup, qos, retain, PublishBody(topic, payload, qos, id));
            var b, length := p + tail, |p| + more;
            && Begins(b, PUBLISH, dup, qos, retain)
            && TotalLength(b, length) == |p|
            && DecodesAs(b, length, topic, payload)
            && Id(b, length) == (if qos > 0 && (payload != [] || more > 0) then id else 0)
  {
    hide Encode, Topic, Payload, Id, DecodesAs, PublishBody, VarEnd, TotalLength, GetType, GetQos;
    var body := PublishBody(topic, payload, qos, id);
    var p := Encode(PUBLISH, dup, qos, retain, body);
    var b := p + tail;
    HeaderReadsBack(PUBLISH, dup, qos, retain, body, b, |p| + more);
    EncodeEnds(PUBLISH, dup, qos, retain, body);
    var h := |p| - |body|;
    assert b[h..|p|] == p[h..] == body;
    PublishDecodes(topic, payload, qos, id, b, |p| + more, h);
  }

  lemma EncodeEnds(type_: int, dup: int, qos: int, retain: int, body: seq<byte>)
    ensures var p := Encode(type_, dup, qos, retain, body);
            |body| + 2 <= |p| <= |body| + 3 && p[|p| - |body|..] == body
  {}

  /** What the readers find in a PUBLISH whose header they have read. */
  lemma {:induction false} PublishDecodes(topic: seq<byte>, payload: seq<byte>, qos: nat, id: u16,
                                          b: seq<byte>, length: nat, h: nat)
    requires topic != [] && |topic| < 0x1_0000 && h > 0
    requires var n := |PublishBody(topic, payload, qos, id)|;
             && h + n <= length <= |b| && b[h..h + n] == PublishBody(topic, payload, qos, id)
             && VarEnd(b, 1, length) == h && TotalLength(b, length) == h + n
    requires GetType(b) == PUBLISH && GetQos(b) == qos
    ensures DecodesAs(b, length, topic, payload)
    ensures var n := |PublishBody(topic, payload, qos, id)|;
            Id(b, length) == (if qos > 0 && (payload != [] || h + n < length) then id else 0)
  {
    hide VarEnd, TotalLength, GetType, GetQos;
    PublishLayout(topic, payload, qos, id, b, h);
  }

  /**
   * Of a PUBLISH whose first `length` bytes have arrived, the header among them, the topic is found if and only if it
   * is there as a whole, and the payload found is the part that has arrived, none if there is no byte of it.
   */
  lemma {:induction false} PublishCut(topic: seq<byte>, payload: seq<byte>, dup: int, qos: nat, retain: int, id: u16,
                                      tail: seq<byte>, length: nat)
    requires topic != [] && |topic| < 0x1_0000 && qos < 4 && |PublishBody(topic, payload, qos, id)| <= MAX_REMAINING
    requires var p, n := Encode(PUBLISH, dup, qos, retain, PublishBody(topic, payload, qos, id)),
                         |PublishBody(topic, payload, qos, id)|;
             |p| - n <= length <= |p|
    ensures var p := Encode(PUBLISH, dup, qos, retain, PublishBody(topic, payload, qos, id));
            var b, start := p + tail, |p| - |payload|;
            var end := start - if qos > 0 then 2 else 0;
            && (Topic(b, length).Some? <==> length >= end)
            && (length >= end ==> var t := Topic(b, length).value; b[t.0..t.1] == topic)
            && (Payload(b, length).Some? <==> length > start)
            && (length > start ==> var d := Payload(b, length).value; b[d.0..d.1] == payload[..length - start])
  {
    hide Encode, PublishBody, VarEnd, TotalLength, GetQos, Topic, Payload;
    var body := PublishBody(topic, payload, qos, id);
    var p := Encode(PUBLISH, dup, qos, retain, body);
    var b, h := p + tail, |p| - |body|;
    CutHeader(PUBLISH, dup, qos, retain, body, tail, length);
    EncodeEnds(PUBLISH, dup, qos, retain, body);
    assert b[h..|p|] == p[h..] == body;
    CutDecodes(topic, payload, qos, id, b, length, h);
  }

  lemma {:induction false} CutDecodes(topic: seq<byte>, payload: seq<byte>, qos: nat, id: u16,
                                      b: seq<byte>, length: nat, h: nat)
    requires topic != [] && |topic| < 0x1_0000 && h > 0
    requires var n := |PublishBody(topic, payload, qos, id)|;
             && h <= length <= h + n <= |b| && b[h..h + n] == PublishBody(topic, payload, qos, id)
             && VarEnd(b, 1, length) == h && TotalLength(b, length) == h + n && GetQos(b) == qos
    ensures var start := h + |PublishBody(topic, payload, qos, id)| - |payload|;
            var end := start - if qos > 0 then 2 else 0;
            && (Topic(b, length).Some? <==> length >= end)
            && (length >= end ==> var t := Topic(b, length).value; b[t.0..t.1] == topic)
            && (Payload(b, length).Some? <==> length > start)
            && (length > start ==> var d := Payload(b, length).value; b[d.0..d.1] == payload[..length - start])
  {
    hide VarEnd, TotalLength, GetQos;
    PublishLayout(topic, payload, qos, id, b, h);
    var start := h + 2 + |topic| + if qos > 0 then 2 else 0;
    assert b[start..start + |payload|] == payload;
    if length > start { assert b[start..length] == b[start..start + |payload|][..length - start]; }
  }

  /** The header reads back as soon as it is there. */
  lemma {:induction false} CutHeader(type_: nat, dup: int, qos: int, retain: int, body: seq<byte>,
                                     tail: seq<byte>, length: nat)
    requires type_ < 16 && |body| <= MAX_REMAINING
    requires var p := Encode(type_, dup, qos, retain, body); |p| - |body| <= length <= |p|
    ensures var p := Encode(type_, dup, qos, retain, body);
            var b := p + tail;
            && GetQos(b) == qos % 4 && VarEnd(b, 1, length) == |p| - |body| && TotalLength(b, length) == |p|
  {
    var p := Encode(type_, dup, qos, retain, body);
    var b := p + tail;
    HeaderBits(type_, dup, qos, retain);
    var e := 1 + |RemainingLength(|body|)|;
    assert b[0] == p[0] && b[1..e] == p[1..e] == RemainingLength(|body|);
    LengthReadsBack(|body|, b, length);
  }

  /**
   * What MQTT_Publish queues is never longer than its buffer, carries a non-zero identifier, and reads back, with
   * anything behind it, as the topic and payload that were published.
   */
  lemma {:induction false} PublishedReadsBack(topic: Option<seq<byte>>, payload: seq<byte>, qos: nat, retain: int,
                                              bufLen: nat, counter: u16, tail: seq<byte>)
    requires bufLen <= MAX_REMAINING + MAX_FIXED_HEADER_SIZE && qos < 4
    ensures var p := PublishMessage(topic, payload, qos, retain, bufLen, counter);
            && (p != [] <==> Present(topic) && PublishSize(topic.value, payload, qos) <= bufLen)
            && |p| <= bufLen
            && (p != [] ==> var b := p + tail;
                && p[0] == 0x30 + 2 * qos + retain % 2 && Begins(b, PUBLISH, 0, qos, retain)
                && TotalLength(b, |b|) == |p| && DecodesAs(b, |b|, topic.value, payload)
                && Id(b, |b|) == (if qos > 0 && (payload != [] || tail != [])
                                  then PublishCounter(topic, qos, bufLen, counter) else 0)
                && NextId(counter) != 0)
  {
    hide Encode, DecodesAs, Id, TotalLength, GetType, GetDup, GetQos, GetRetain, Word;
    var p := PublishMessage(topic, payload, qos, retain, bufLen, counter);
    if Present(topic) && PublishSize(topic.value, payload, qos) <= bufLen {
      EncodeEnds(PUBLISH, 0, qos, retain, PublishBody(topic.value, payload, qos, NextId(counter)));
      PublishRoundTrip(topic.value, payload, 0, qos, retain, NextId(counter), tail, |tail|);
      assert (p + tail)[0] == p[0];
    }
  }
}
