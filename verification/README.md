# Verified model of the ESP8266 home automation firmware

The firmware under `domo/` talks MQTT over an espconn TCP connection, drives PWM outputs and a roller shutter
from a software timer, and reads a BME280 sensor; `driver_lib/` holds its UART and SDIO buffer managers, and
`esp_mqtt-master/` an older copy of the MQTT stack. This project models those parts in Dafny and proves what
they keep over every input and every run. `dafny verify dfyconfig.toml` checks all of it.

## How the model is laid out

Objects that the C code updates in place are classes with the same fields (`Ring`, `ProtoParser`, `Queue`,
`Connection`, `MqttClient`, `Node` and `SdioSlave`, `UartBuffer`, `Timer`, `PwmChannel`, `Store`, `Sensor`), and
their methods follow the C functions branch by branch. Each method is proved against a specification function or
a ghost history, and the run-level theorems are lemmas about those functions.

- The MQTT stack, bottom up. `Bytes`, `RingBuffers` (ringbuf.c) and `Proto` (proto.c): a ring of bytes, frames
  opened by 0x7E and closed by 0x7F, and a parser that undoes the stuffing from any state. `Queues` (queue.c) and
  the two retry loops over it; `LegacyQueues` is the older queue without rollback. `MqttMsg`, `MqttDecode` and
  `MqttConnect` (mqtt_msg.c): the builders in the buffer, the readers, and a reader of CONNECT written from
  sections 3.1.2 and 3.1.3 of MQTT 3.1.1. `Session` (mqtt.c) is the client as a state machine, one atomic step per
  callback, timer tick, task run or API call, with a log of what an observer sees; `Clients` is the client
  class, each method of which is proved to be that step. `Effects` says what each step
  does in terms of packets, frames and bytes alone. `Runs`, `Carried`, `Safety`, `Progress` and `Receive` prove what
  holds over every sequence of enabled steps: order, meaning and conservation of what is queued and sent, sessions,
  keep alive, wake-up, reconnects, pacing, and the receive loop.
- `Sdio` (sdio_slv.c) and `Uart` (uart.c): linked buffers between two lists, and block-copied rings, as queues of bytes.
- `Timers` (timer.c), `Pwm` and `Shutter` (user_main.c): callbacks that change the timer table from inside the
  handler, the duty cycle that follows, and the motor control.
- `Bme280` (bme280.c): integer temperature against the double formula read over the reals.

The network, the heap, Wi-Fi, DNS, hardware registers and uninitialised memory are parameters: which step comes
next, what `espconn_send` returns, what a local variable held before it was written (`stale`, `begin`), what a
sensor pin reads. Callbacks are atomic, and none comes for a connection that was deleted.

## Where the code does not do what one may expect

- `MQTT_Publish` makes room for the packet and two delimiters, not for its escape bytes; it then returns TRUE even
  if the packet was not queued. `LuckIsEscapes` is the exact condition; in `LuckCanFail` a topic of one byte and a
  payload of 504 bytes 0x7D are lost in the build's own buffer sizes, with nothing else in the queue.
- `esp_mqtt-master`'s `MQTT_Publish` can refuse a packet that fits the empty queue: torn frames take up the
  room. `LegacyPublish` states exactly when it succeeds; in `LegacyRefusesWhatFits` one short PUBLISH in the queue is
  enough for a second one to be refused.
- The receive loop keeps the packet length in 16 bits. A PUBLISH whose total length is a multiple of 65536 makes it
  read the same packet for ever: `LoopEnds` states exactly when it ends, `SomeSegmentIsStuck` is an instance.
- The return code of a CONNACK is read from the receive buffer, not from the segment: of a segment of fewer than four
  bytes it is what an earlier one left there, or zero. `OpensSession` states exactly when a segment opens a session,
  `ShortConnackOpens` has one of two bytes that does, and `OnlyWhenAccepted` is the session theorem for runs without
  such segments.
- The builder of CONNECT lets through a will QoS of 3 and a password without a user name, which section 3.1.2 of
  MQTT 3.1.1 forbids; `ConnectReadsBack` says when the packet reads back, in both directions.
- The remaining length is written in at most two bytes: right exactly up to 16383 (`TwoByteLengths`).
- The packet identifier of a publish with an empty payload is not found when nothing follows it (`PublishRoundTrip`).
- A failed `mqtt_msg_subscribe` still queues its empty packet, and a failed `mqtt_msg_connect` still sends one.
- In the shutter, `echelle` is unsigned, so the comparison that slows the motor down near the set point never holds
  downwards at full power when 3 percent of the scale are less than one turn (`FullPower`).

## Model

| member | source | states |
|---|---|---|
| Bytes.Xor20 | domo/mqtt/proto.c:36-38 | the escape flips bit 5 of a byte and leaves the other seven alone |
| Bytes.Word | domo/mqtt/mqtt_msg.c:63-90 | lengths and identifiers are written with their high byte first |
| Bytes.WordOf | domo/mqtt/mqtt_msg.c:154-181 | and read that way |
| RingBuffers.Ring.constructor | domo/mqtt/ringbuf.c:16-25 | a ring is empty at first; a buffer shorter than two bytes is refused and leaves a ring of size zero |
| RingBuffers.Ring.Put | domo/mqtt/ringbuf.c:32-46 | appends one byte to the contents exactly when there is room, else changes nothing |
| RingBuffers.Ring.Get | domo/mqtt/ringbuf.c:53-67 | takes the oldest byte exactly when there is one |
| Proto.StuffHasNoDelimiter | domo/mqtt/proto.c:111-124 | no frame delimiter occurs inside a stuffed packet, which at most doubles in length |
| Proto.FrameBytes | domo/mqtt/proto.c:106-128 | a frame begins with 0x7E and ends with 0x7F; 0x7D, 0x7E and 0x7F go in as 0x7D and 0x5D, 0x5E or 0x5F, every other byte as itself |
| Proto.ParseStuffed | domo/mqtt/proto.c:13-47 | inside an open frame the parser recovers the stuffed bytes, cut to the size of its buffer |
| Proto.ParseFrame | domo/mqtt/proto.c:13-69 | from any parser state, a whole frame yields exactly its packet and the parser stops right behind it |
| Proto.ParseSkips | domo/mqtt/proto.c:13-47 | bytes without a closing delimiter only change the state of the parser |
| Proto.ProtoParser.constructor | domo/mqtt/proto.c:3-11 | starts outside a frame or not, as the uninitialised isBegin has it |
| Proto.ProtoParser.ParseByte | domo/mqtt/proto.c:13-47 | reports a frame exactly on 0x7F and otherwise steps the parser as specified |
| Proto.ParseRb | domo/mqtt/proto.c:56-69 | takes the first frame out of the ring, or empties the ring if no frame ends in it |
| Proto.PutStuffed | domo/mqtt/proto.c:111-124 | one packet byte goes into the ring as one or two; succeeds exactly when all of them fit |
| Proto.PutAllStuffed | domo/mqtt/proto.c:111-124 | the whole packet stuffed, or its longest stuffed prefix that fits |
| Proto.AddRb | domo/mqtt/proto.c:106-128 | returns the frame's length and appends it exactly when it fits; else -1 and the ring is filled with its beginning |
| Queues.Queue.constructor | domo/mqtt/queue.c:42-46 | an empty queue |
| Queues.WindowPrefix | domo/mqtt/queue.c:54-59 | rolling the fill count back uncovers exactly the old contents, although cells behind them were overwritten |
| Queues.Queue.Puts | domo/mqtt/queue.c:47-63 | all or nothing: one packet more at the tail exactly when its frame fits, otherwise the same packets as before |
| Queues.Queue.Gets | domo/mqtt/queue.c:64-68 | the oldest packet, cut to the limit, whatever isBegin held; the others stay as they are |
| Queues.Queue.IsEmpty | domo/mqtt/queue.c:70-75 | true exactly when no packet is queued |
| Queues.KeptDropsFewest | domo/mqtt/mqtt.c:640-646 | making room drops a prefix of the queue, and no shorter prefix would do |
| Queues.PutsOrDrop | domo/mqtt/mqtt.c:640-646 | the retry loop ends; it returns TRUE exactly when the frame fits an empty ring, and then the queue is the old one without the fewest oldest packets, plus the new one |
| Queues.PutsIfLucky | domo/mqtt/mqtt.c:610-617 | the loop of MQTT_Publish ends; on TRUE the packet is at the tail exactly when its whole frame fits behind the kept ones, which stay unchanged |
| Queues.FrameLength | domo/mqtt/proto.c:106-128 | a frame is two bytes and its escapes longer than the packet |
| Queues.LuckIsEscapes | domo/mqtt/mqtt.c:610-617 | after the loop the packet gets into the queue if and only if its escape bytes fit what is then left |
| LegacyQueues.ParseStream | esp_mqtt-master/mqtt/queue.c:46-50 | self-synchronisation: from any parser state the torn frames are skipped and the first complete one is read whole |
| LegacyQueues.EndsAreWholes | esp_mqtt-master/mqtt/mqtt.c:602-608 | the ring holds as many 0x7F bytes as complete frames, the measure that makes the retry loop end |
| LegacyQueues.PutEffect | esp_mqtt-master/mqtt/queue.c:42-45 | what a put leaves in the ring: a complete frame more, or a torn one that fills it to the last byte |
| LegacyQueues.TornFramesAreHarmless | esp_mqtt-master/mqtt/queue.c:42-50 | over every run of puts and gets, what was got and what is still complete in the ring is what was accepted, in order |
| LegacyQueues.LegacyQueue.constructor | esp_mqtt-master/mqtt/queue.c:37-41 | an empty queue |
| LegacyQueues.LegacyQueue.Puts | esp_mqtt-master/mqtt/queue.c:42-45 | accepts exactly what fits; a failure leaves the complete frames alone and the ring full |
| LegacyQueues.LegacyQueue.Gets | esp_mqtt-master/mqtt/queue.c:46-50 | returns the oldest complete packet, whatever torn frames stand before it; without one it empties the ring |
| LegacyQueues.GapStep | esp_mqtt-master/mqtt/mqtt.c:602-608 | a dequeue frees the first complete frame and the torn bytes before it; how this decides the retry loop |
| LegacyQueues.FirstGapIsFirst | esp_mqtt-master/mqtt/mqtt.c:602-608 | the complete frame at which the loop stops is the first whose removal frees enough, and removing any before it frees too little |
| LegacyQueues.LegacyPublish | esp_mqtt-master/mqtt/mqtt.c:602-608 | the retry loop ends; it succeeds if and only if the frame fits at once or into the gap that one dequeue opens, it then has dropped the fewest oldest packets that open such a gap, and the complete packets are the others plus the new one |
| LegacyQueues.LegacyRefusesWhatFits | esp_mqtt-master/mqtt/mqtt.c:588-608 | two packets of mqtt_msg_publish: with the short one in a 2048-byte ring the long one is refused, although it fits an empty ring |
| MqttMsg.Connection.constructor | domo/mqtt/mqtt_msg.c:128-133 | the counter of packet identifiers starts at zero, the message is empty |
| MqttMsg.Connection.Init | domo/mqtt/mqtt_msg.c:128-133 | resets the counter and the message |
| MqttMsg.Connection.AppendString | domo/mqtt/mqtt_msg.c:63-74 | length-prefixed string behind the message exactly when it fits the buffer, else -1 and the message as it was |
| MqttMsg.Connection.AppendMessageId | domo/mqtt/mqtt_msg.c:76-90 | appends the given identifier, or a fresh non-zero one; zero when it does not fit, though the counter has moved |
| MqttMsg.Connection.InitMessage | domo/mqtt/mqtt_msg.c:92-96 | leaves room for the fixed header |
| MqttMsg.Connection.FailMessage | domo/mqtt/mqtt_msg.c:98-103 | the empty message |
| MqttMsg.Connection.FiniMessage | domo/mqtt/mqtt_msg.c:105-126 | puts the first byte (type, DUP, QoS and RETAIN from the top bit down) and the remaining length right in front of the body that was appended, which stays as it was |
| MqttMsg.Connection.BuildPublish | domo/mqtt/mqtt_msg.c:383-398 | topic, identifier and payload in this order; fails exactly when they do not fit |
| MqttMsg.Connection.Publish | domo/mqtt/mqtt_msg.c:377-401 | the PUBLISH packet in the buffer, or the empty message; what the counter becomes in each case |
| MqttMsg.Connection.SetFlags | domo/mqtt/mqtt_msg.c:319-371 | sets clear bits of the connect flags and nothing else |
| MqttMsg.Connection.BuildConnectHead | domo/mqtt/mqtt_msg.c:295-342 | variable header and client identifier; fails exactly without an identifier or without room |
| MqttMsg.Connection.AddWill | domo/mqtt/mqtt_msg.c:344-356 | will topic and message with their flags, exactly when there is a will topic and room for both |
| MqttMsg.Connection.AddField | domo/mqtt/mqtt_msg.c:358-372 | user name or password with its flag |
| MqttMsg.Connection.BuildConnect | domo/mqtt/mqtt_msg.c:291-375 | the whole CONNECT body in its order, no write outside the buffer; fails exactly when it does not fit |
| MqttMsg.Connection.Connect | domo/mqtt/mqtt_msg.c:291-375 | the CONNECT packet, or the empty message |
| MqttMsg.Connection.Ack | domo/mqtt/mqtt_msg.c:403-433 | PUBACK, PUBREC, PUBREL or PUBCOMP with its identifier |
| MqttMsg.Connection.BuildSubscribe | domo/mqtt/mqtt_msg.c:438-469 | fresh identifier, topic and requested QoS in this order; fails exactly when they do not fit |
| MqttMsg.Connection.Subscribe | domo/mqtt/mqtt_msg.c:435-469 | the SUBSCRIBE or UNSUBSCRIBE packet, or the empty message |
| MqttMsg.Connection.Ping | domo/mqtt/mqtt_msg.c:471-481 | a packet of two bytes |
| MqttMsg.IdsAreDistinct | domo/mqtt/mqtt_msg.c:76-90 | no identifier is zero, none comes back within 65535 identifiers, and each does after that many |
| MqttDecode.GetTotalLength | domo/mqtt/mqtt_msg.c:135-152 | the loop computes the sum of the length digits and the header's size |
| MqttDecode.GetPublishTopic | domo/mqtt/mqtt_msg.c:154-181 | the topic's place, inside the bytes given; none if it would reach beyond them |
| MqttDecode.GetPublishData | domo/mqtt/mqtt_msg.c:183-227 | the payload's place, cut to the bytes given; none if there is none |
| MqttDecode.GetId | domo/mqtt/mqtt_msg.c:229-289 | the packet identifier, or zero for every packet in which the code finds none |
| MqttDecode.HeaderReadsBack | domo/mqtt/mqtt_msg.c:105-152 | type, DUP, QoS, RETAIN and total length read back from any packet with remaining length up to 16383, the first byte being the standard's |
| MqttDecode.PublishLayout | domo/mqtt/mqtt_msg.c:377-401 | where topic, identifier and payload stand in a PUBLISH |
| MqttDecode.PublishRoundTrip | domo/mqtt/mqtt_msg.c:135-289 | a PUBLISH in front of any bytes reads back: flags, total length, topic and payload, and the identifier exactly when QoS is positive and a byte follows it |
| MqttDecode.PublishCut | domo/mqtt/mqtt_msg.c:154-227 | of a PUBLISH of which only the beginning has arrived, the topic is found if and only if it is there as a whole, and the payload found is the part that is there |
| MqttDecode.PublishedReadsBack | domo/mqtt/mqtt_msg.c:377-401 | mqtt_msg_publish fails exactly when the packet does not fit, never leaves the buffer, begins with 0x30 plus QoS and retain flag, and what it builds reads back as what was published |
| MqttConnect.FlagsTell | domo/mqtt/mqtt_msg.c:315-371 | each connect flag is set if and only if its field is present |
| MqttConnect.ReadsWill | domo/mqtt/mqtt_msg.c:344-356 | the will reads back, unless its QoS is 3 |
| MqttConnect.ReadsPayload | domo/mqtt/mqtt_msg.c:322-372 | identifier, will, user name and password read back in the standard's order, if and only if they are acceptable to it |
| MqttConnect.ReadsHeader | domo/mqtt/mqtt_msg.c:297-320 | protocol name, level, flags and the low 16 bits of the keep alive time read back |
| MqttConnect.ConnectReadsBack | domo/mqtt/mqtt_msg.c:291-375 | CONNECT is built exactly when it fits; it then reads back, under the grammar of sections 3.1.2 and 3.1.3 of MQTT 3.1.1, as the supplied fields, if and only if those are acceptable to it |
| MqttConnect.SubscribeReadsBack | domo/mqtt/mqtt_msg.c:435-469 | SUBSCRIBE and UNSUBSCRIBE are built exactly when they fit, never leave the buffer, and read back by sections 3.8 and 3.10 of MQTT 3.1.1 as a fresh non-zero identifier, the topic and the QoS; mqtt_get_id finds that identifier exactly in a SUBSCRIBE with a one-byte remaining length |
| MqttConnect.AckReadsBack | domo/mqtt/mqtt_msg.c:403-433 | the identifier of an acknowledgement reads back, whatever follows it |
| MqttConnect.TwoByteLengths | domo/mqtt/mqtt_msg.c:105-126 | fini_message writes the remaining length of section 2.2.3 of MQTT 3.1.1 if and only if it is at most 16383 |
| MqttConnect.AnyLengthReadsBack | domo/mqtt/mqtt_msg.c:135-152 | the readers take the remaining length field of section 2.2.3 of MQTT 3.1.1 at any number of bytes |
| Effects.PublishEffect | domo/mqtt/mqtt.c:588-621 | a publish that fits the ring unstuffed drops the fewest oldest packets that leave room for it so, then its packet is at the tail if and only if its frame fits, and an event is posted; one that cannot be built changes nothing |
| Effects.RequestEffect | domo/mqtt/mqtt.c:630-703 | subscribe, unsubscribe and ping: the packet is at the tail behind the old ones without the fewest oldest, exactly when its frame fits the ring |
| Effects.CommandEffect | domo/mqtt/mqtt.c:902-975 | connect, disconnect and delete: the whole new state |
| Effects.SendEffect | domo/mqtt/mqtt.c:748-772 | in MQTT_DATA the task sends the oldest packet, whole, and takes it out of the queue, exactly when one is queued and the send timeout is zero |
| Effects.TaskEffect | domo/mqtt/mqtt.c:705-747 | what the task does in every other state, and that in those left over it does nothing |
| Effects.CallbackEffect | domo/mqtt/mqtt.c:453-576 | the whole new state after the sent, disconnect and reconnect callbacks and the resolver's answer |
| Effects.ConnectCbEffect | domo/mqtt/mqtt.c:524-557 | CONNECT is sent, identifiers and send timeout start again |
| Effects.RecvEffect | domo/mqtt/mqtt.c:289-446 | the receive callback always clears the keep alive counter; outside an open session it neither answers nor delivers |
| Effects.SegmentIgnored | domo/mqtt/mqtt.c:304-445 | a segment that is empty or as long as the buffer is dropped as a whole |
| Effects.ConnackEffect | domo/mqtt/mqtt.c:304-356 | while CONNECT is pending, a segment opens the session, exactly on a zero where the return code is looked for, or only fills the receive buffer |
| Effects.StepConserves | domo/mqtt/mqtt.c:289-775 | in every step but the API's, what was sent and what is still queued is what was queued before and some of the answers offered |
| Runs.RetryOrdered | domo/mqtt/mqtt.c:640-646 | dropping packets for a new one keeps the order of queue and sends |
| Runs.PublishOrdered | domo/mqtt/mqtt.c:588-621 | so does MQTT_Publish, whether or not its packet gets in |
| Runs.DataOrdered | domo/mqtt/mqtt.c:748-772 | a packet taken out and sent is whole: the buffer it is read into is as large as the one it was built in |
| Runs.PassOrdered | domo/mqtt/mqtt.c:297-446 | so do the answers queued by the receive callback |
| Runs.QuietSteps | domo/mqtt/mqtt.c:126-159 | all other steps, keep alive and reconnects among them, leave the queue alone |
| Runs.NextOrdered | domo/mqtt/mqtt.c:454-775 | every step of the client keeps the order |
| Runs.FirstInFirstOut | domo/mqtt/mqtt.c:588-775 | over every run, the packets dequeued and sent, followed by those still queued, are a subsequence of the packets offered to the queue: none is sent twice, cut, merged or overtaken |
| Runs.LuckCanFail | domo/mqtt/mqtt.c:588-621 | a call that MQTT_Publish answers with TRUE in the 1280/512-byte build, with nothing in the queue, and whose packet is not queued |
| Carried.StepSupplies | domo/mqtt/mqtt.c:289-775 | what each step offers to the queue reads back as what its event supplied; it is empty exactly for a request whose topic is absent or too long |
| Carried.SentAsSupplied | domo/mqtt/mqtt.c:588-775 | over every run each packet sent from the queue, or still in it, reads back as the publish, request, ping or acknowledgement of some event of the run |
| Carried.SentWhole | domo/mqtt/mqtt.c:748-772 | over every run each packet sent from the queue is empty or exactly as long as its remaining length says |
| Safety.PassSessions | domo/mqtt/mqtt.c:310-356 | MQTT_DATA is entered only on a segment that begins like a CONNACK, with a zero where the code looks for the return code, after a CONNECT on the same connection |
| Safety.OpensSession | domo/mqtt/mqtt.c:305-332 | after CONNECT, a segment opens a session if and only if it begins like a CONNACK and the fourth byte of the receive buffer, its own only if it has four, is zero |
| Safety.ShortConnackOpens | domo/mqtt/mqtt.c:305-332 | the first two bytes of a CONNACK open the first session of every client |
| Safety.StepShaped | domo/mqtt/mqtt.c:470-775 | a step other than the receive callback sends only in an open session, enters none, and without a CONNECT that can be built never takes one to be pending |
| Safety.OnlyInSession | domo/mqtt/mqtt.c:310-775 | over every run, MQTT_DATA and MQTT_KEEPALIVE_SEND imply a live connection on which a whole CONNECT went out and then came a segment with the type of a CONNACK, its return code zero if it is long enough to have one; every queued packet and ping was sent inside such a session |
| Safety.UnbuiltNeverOpens | domo/mqtt/mqtt.c:524-557 | a client whose CONNECT cannot be built never opens a session and never sends from its queue |
| Safety.OnlyWhenAccepted | domo/mqtt/mqtt.c:310-775 | over every run in which no segment shorter than four bytes arrives, that CONNACK carries the accepting return code itself |
| Safety.NextAwake | domo/mqtt/mqtt.c:470-515 | every step keeps the keep alive bound and leaves no waiting state without a posted event |
| Safety.NeverAsleep | domo/mqtt/mqtt.c:470-515 | over every run, keepAliveTick is at most keepalive/2 in MQTT_DATA and keepalive/2 + 1 elsewhere, and MQTT_KEEPALIVE_SEND, TCP_RECONNECT and MQTT_DELETED each have an event pending in the one-slot task queue |
| Safety.WakesUp | domo/mqtt/mqtt.c:705-747 | that event then pings or gives the connection up, opens a new connection, or deletes the client |
| Safety.PacedAct | domo/mqtt/mqtt.c:748-757 | how sendTimeout counts off the time since each unconfirmed send |
| Safety.SendsAreSpaced | domo/mqtt/mqtt.c:454-493 | over every run, two dequeued sends with no sent callback between them are at least MQTT_SEND_TIMOUT timer ticks apart |
| Progress.CountsUp | domo/mqtt/mqtt.c:470-479 | without sent callback, segment or change of state, the keep alive counter counts the timer periods up to its bound |
| Progress.PingFallsDue | domo/mqtt/mqtt.c:470-479 | with counter t in MQTT_DATA, period keepalive/2 + 1 - t leads to MQTT_KEEPALIVE_SEND with an event pending, and the task then sends a ping |
| Progress.ReconnectFallsDue | domo/mqtt/mqtt.c:481-490 | with counter r in TCP_RECONNECT_REQ, period MQTT_RECONNECT_TIMEOUT + 1 - r leads to TCP_RECONNECT with an event pending, and the task then opens a new connection |
| Progress.ReconnectIsNear | domo/mqtt/mqtt.c:481-490 | over every run r is at most MQTT_RECONNECT_TIMEOUT |
| Progress.LostIsAwaited | domo/mqtt/mqtt.c:495-576 | a connection lost without having been asked to close leads to TCP_RECONNECT_REQ |
| Progress.ClosesOnRequest | domo/mqtt/mqtt.c:495-515 | one asked to close is closed by the first task after the disconnect callback |
| Progress.ClosedStaysClosed | domo/mqtt/mqtt.c:705-775 | and over every run from there nothing is opened or sent until MQTT_Connect is called |
| Progress.TimeoutRunsDown | domo/mqtt/mqtt.c:491-493 | left alone, the send timeout is zero after as many periods as it counts |
| Progress.SentReleases | domo/mqtt/mqtt.c:453-468 | in an open session the sent callback and the task it posts send the next packet |
| Progress.NothingLost | domo/mqtt/mqtt.c:289-775 | over every run between two calls of the API nothing leaves the queue unsent |
| Progress.RunsContinue | domo/mqtt/mqtt.c:289-775 | these runs are the continuations of the runs from initialisation |
| Receive.PassProgress | domo/mqtt/mqtt.c:357-446 | a pass goes back to READPACKET if and only if a PUBLISH in an open session ends before the segment does |
| Receive.PassesSettle | domo/mqtt/mqtt.c:289-446 | once the loop has ended, more rounds change nothing |
| Receive.LoopEnds | domo/mqtt/mqtt.c:289-446 | the READPACKET loop ends if and only if the session is not open or no packet that it reaches has a total length divisible by 65536 |
| Receive.SomeSegmentIsStuck | domo/mqtt/mqtt.c:289-446 | four bytes on which it does not end |
| Receive.AnswersPublish | domo/mqtt/mqtt.c:375-386 | a PUBLISH is answered by PUBACK or PUBREC with its own identifier, as its QoS asks |
| Receive.AnswersFlow | domo/mqtt/mqtt.c:394-419 | PUBREC is answered by PUBREL, PUBREL by PUBCOMP, each with the same identifier and the standard's header byte, PINGREQ by PINGRESP, and no other packet by anything |
| Receive.DeliversPublish | domo/mqtt/mqtt.c:110-123 | dataCb gets exactly the topic and payload of the packet at the front of the segment |
| Receive.PassOverPublish | domo/mqtt/mqtt.c:357-446 | one pass over a PUBLISH consumes exactly that packet |
| Receive.PassesOverSegment | domo/mqtt/mqtt.c:289-446 | after k passes exactly the first k packets of a segment are delivered and answered |
| Receive.SegmentIsDelivered | domo/mqtt/mqtt.c:289-446 | a segment of whole PUBLISH packets is read to its end: dataCb once per packet, in order, with its topic and payload; the queue gains a subsequence of the matching PUBACK and PUBREC packets, all of them if there is room |
| Receive.OtherPacketEndsSegment | domo/mqtt/mqtt.c:289-446 | behind PUBLISH packets, a packet of any other type is answered and ends the loop: whatever follows it in the segment is neither delivered nor answered |
| Clients.InitClient | domo/mqtt/mqtt.c:809-878 | NULL without a client identifier, else a client in its initial state |
| Clients.MqttClient.constructor | domo/mqtt/mqtt.c:785-878 | no connection, no packet, an event posted |
| Clients.MqttClient.Publish | domo/mqtt/mqtt.c:588-621 | TRUE exactly when a packet was built and, unstuffed, fits the ring; the queue then is the old one without the fewest oldest packets, with the packet behind it if its frame fits, and an event is posted |
| Clients.MqttClient.QueueOrDrop | domo/mqtt/mqtt.c:635-650 | TRUE exactly when the frame of the message just built fits an empty ring; then it is at the tail behind the packets kept, and an event is posted |
| Clients.MqttClient.Subscribe | domo/mqtt/mqtt.c:630-650 | TRUE exactly when the frame of the packet built fits an empty ring; it is then queued behind the old packets without the fewest oldest, and an event is posted |
| Clients.MqttClient.Unsubscribe | domo/mqtt/mqtt.c:658-676 | the same for UNSUBSCRIBE |
| Clients.MqttClient.Ping | domo/mqtt/mqtt.c:683-703 | the same for PINGREQ, without an identifier |
| Clients.MqttClient.DeleteTcp | domo/mqtt/mqtt.c:166-183 | the connection object is gone |
| Clients.MqttClient.Connect | domo/mqtt/mqtt.c:902-950 | a new connection object, after the old one is closed |
| Clients.MqttClient.Disconnect | domo/mqtt/mqtt.c:953-958 | TCP_DISCONNECTING and a post |
| Clients.MqttClient.DeleteClient | domo/mqtt/mqtt.c:961-975 | MQTT_DELETED and a post |
| Clients.MqttClient.Timer | domo/mqtt/mqtt.c:470-493 | in MQTT_DATA the keep alive counter grows, and past half the keep alive time MQTT_KEEPALIVE_SEND and a post follow; in TCP_RECONNECT_REQ the same with the reconnect counter; the send timeout falls |
| Clients.MqttClient.SendKeepalive | domo/mqtt/mqtt.c:125-159 | a ping past the queue, and the state that the outcome of the send leads to |
| Clients.MqttClient.SendQueued | domo/mqtt/mqtt.c:748-772 | sends the oldest packet and takes it out of the queue exactly when sendTimeout is zero and one is there |
| Clients.MqttClient.Task | domo/mqtt/mqtt.c:705-775 | what the task does in each state; in all others it only takes its event |
| Clients.MqttClient.BuildConnect | domo/mqtt/mqtt.c:535-538 | the CONNECT packet and the type found for it: its own, or that of whatever packet last left its header in the first byte of the output buffer |
| Clients.MqttClient.ConnectCb | domo/mqtt/mqtt.c:524-557 | CONNECT goes out, identifiers start again |
| Clients.MqttClient.DisconCb | domo/mqtt/mqtt.c:495-515 | the state after a disconnect |
| Clients.MqttClient.ReconCb | domo/mqtt/mqtt.c:564-576 | TCP_RECONNECT_REQ and a post |
| Clients.MqttClient.DnsFound | domo/mqtt/mqtt.c:66-106 | reconnect without an address; connecting exactly when the address is not zero and the client's own ip field is |
| Clients.MqttClient.SentCb | domo/mqtt/mqtt.c:453-468 | clears sendTimeout and keepAliveTick, and posts |
| Clients.MqttClient.AnswerIn | domo/mqtt/mqtt.c:363-421 | the acknowledgements and ping responses that are queued |
| Clients.MqttClient.DeliverPublish | domo/mqtt/mqtt.c:110-123 | the call of dataCb |
| Clients.MqttClient.ReadCopied | domo/mqtt/mqtt.c:307-446 | the switch on the connection state, for the packet at the front of the receive buffer |
| Clients.MqttClient.ReadPacket | domo/mqtt/mqtt.c:297-446 | in-place reading of one packet is one pass of the specification |
| Clients.MqttClient.Watch | domo/mqtt/mqtt.c:289-446 | any number of passes of the callback's loop, on any segment, are that many passes of the specification |
| Clients.MqttClient.Recv | domo/mqtt/mqtt.c:289-446 | on every segment at which the loop ends, the whole callback is the receive step |
| Sdio.MakeNodes | driver_lib/driver/sdio_slv.c:122-139 | four distinct, empty, linked buffers |
| Sdio.SdioSlave.constructor | driver_lib/driver/sdio_slv.c:103-192 | all buffers free, nothing to send, nothing accepted |
| Sdio.ChunkGrows | driver_lib/driver/sdio_slv.c:350-366 | bytes added to the head of the free list come last in the stream |
| Sdio.SdioSlave.MoveHead | driver_lib/driver/sdio_slv.c:368-377 | the head of the free list becomes the last to-send buffer; both lists stay acyclic and disjoint |
| Sdio.SdioSlave.HangHead | driver_lib/driver/sdio_slv.c:419-427 | the links after the head of the to-send list is hung behind the free list |
| Sdio.SdioSlave.HeadToEnd | driver_lib/driver/sdio_slv.c:419-427 | the read buffer becomes the last free one; no buffer is lost or shared |
| Sdio.SdioSlave.ReadDone | driver_lib/driver/sdio_slv.c:414-449 | the host has read exactly the transfer it was told about; it is told of another, the next part of what it has not read, if and only if there is any |
| Sdio.SdioSlave.NextTransfer | driver_lib/driver/sdio_slv.c:428-448 | a transfer is offered if and only if some accepted byte is unread, keeping accepted = read + to-send + partly filled head |
| Sdio.SdioSlave.LoadChunk | driver_lib/driver/sdio_slv.c:350-385 | one round of the loop: takes what fits the head and queues it exactly when it is full |
| Sdio.SdioSlave.FillBuffers | driver_lib/driver/sdio_slv.c:350-385 | the loop takes the data up to the room there is, in order, behind everything accepted before; the returned count leaves out what is in a partly filled buffer |
| Sdio.SdioSlave.LoadData | driver_lib/driver/sdio_slv.c:340-399 | accepted grows by the longest prefix of the data that the free buffers hold, read bytes and order stay; a transfer starts exactly when nothing was queued and no buffer was filled; one in progress keeps its buffer, length and bytes |
| Sdio.SdioSlave.TryToLoad | driver_lib/driver/sdio_slv.c:401-412 | starts the first to-send buffer exactly when the host is idle |
| Uart.RingsAreQueues | driver_lib/driver/uart.c:431-609 | over any interleaving of enqueues and dequeues, accepted = delivered + queued in order; the receive ring never fills its last byte, the transmit ring never overflows |
| Uart.RunStep | driver_lib/driver/uart.c:431-609 | each enqueue takes the whole block exactly if there is room, and each dequeue gives out as many of the oldest bytes as asked for or there are |
| Uart.TransmitRingFills | driver_lib/driver/uart.c:431-563 | the transmit ring, unlike the receive ring, can be full |
| Uart.OneBlockNeedsSpace | driver_lib/driver/uart.c:476-480 | the branch of rx_buff_deq without wrap is right for all queued bytes if and only if the ring is not full |
| Uart.UartBufInit | driver_lib/driver/uart.c:408-427 | NULL exactly when the heap is too short, else an empty ring |
| Uart.UartBuffer.constructor | driver_lib/driver/uart.c:415-425 | an empty ring |
| Uart.UartBuffer.Copy | driver_lib/driver/uart.c:431-452 | appends the data in one or two blocks |
| Uart.UartBuffer.TxEnq | driver_lib/driver/uart.c:550-556 | appends the block exactly when it fits |
| Uart.Transmitter.TxBuffEnq | driver_lib/driver/uart.c:537-563 | the same behind the global pointer; a missing ring is created and holds exactly the block, unless there is no heap for it |
| Uart.UartBuffer.TxFifoInsert | driver_lib/driver/uart.c:568-579 | moves the oldest bytes, in order, into the FIFO |
| Uart.UartBuffer.TxStart | driver_lib/driver/uart.c:588-609 | fills the FIFO up with the oldest bytes |
| Uart.UartBuffer.RxEnq | driver_lib/driver/uart.c:507-532 | appends all bytes of the FIFO exactly when that leaves a free byte |
| Uart.UartBuffer.GetBlock | driver_lib/driver/uart.c:476-498 | one block copy out of the ring is a dequeue, provided the read position wraps where it has to |
| Uart.UartBuffer.RxDeq | driver_lib/driver/uart.c:470-503 | hands out the oldest bytes, as many as asked for or there are |
| Timers.Timer.Change | domo/user/timer.c:84-96 | new period and count for the first slot with this callback, the others untouched |
| Timers.Timer.Remove | domo/user/timer.c:98-110 | clears the first slot with this callback |
| Timers.Timer.Add | domo/user/timer.c:112-125 | fills the first free slot |
| Timers.Timer.Handler | domo/user/timer.c:66-83 | one tick over the table, callbacks changing it while it is walked |
| Timers.SparedWalk | domo/user/timer.c:66-83 | a slot that callbacks spare counts down by one per tick and fires exactly when its count was one |
| Timers.FiresFrom | domo/user/timer.c:66-125 | a callback left alone with n ticks of which q are left fires at ticks q, q + n, q + 2n and at no others |
| Timers.FiresExactly | domo/user/timer.c:66-125 | freshly registered it fires at ticks n, 2n, 3n and at no others, N/n times in N ticks, whatever other callbacks and other code do |
| Timers.AddRegisters | domo/user/timer.c:112-125 | registering a callback fills the first free slot with it, and nothing else; without one it changes nothing |
| Timers.AddedFires | domo/user/timer.c:66-125 | from its registration on, a callback left alone fires every period/us ticks |
| Timers.FiringCalls | domo/user/timer.c:66-83 | its slot fires in a tick if and only if it is called in it |
| Timers.RemovedIsNeverCalled | domo/user/timer.c:98-110 | over every run, a removed callback is not called until it is registered again |
| Timers.FirstFire | domo/user/timer.c:66-125 | a slot with q ticks left fires at tick q and at none before, whatever its own callback does when it is called |
| Timers.ChangingWalk | domo/user/timer.c:66-96 | what a change of period from inside the handler leaves, for earlier, own and later slots |
| Timers.ChangeFromInside | domo/user/timer.c:66-96 | a callback that changes itself or an earlier slot makes it fire next exactly the new count later, a later slot one tick earlier than that (in the same tick for one tick), and at no tick before |
| Pwm.PwmChannel.TimerPwm | domo/user/user_main.c:690-721 | the pin follows the toggled flag, or the power setting at its ends; the period passed to timer_change, never shorter than eight times PWM_SCALL or 10000 |
| Pwm.PhasesShare | domo/user/user_main.c:690-754 | in every build the high and the low phase are in the ratio of power to its complement and make up 100 steps, 400 below 10 and above 90 |
| Pwm.StallsUnless | domo/user/user_main.c:690-754 | no power setting ever reloads the timer with zero ticks, on which it would stall, if and only if the tick is at most 10000 us and at most 8 times PWM_SCALL |
| Pwm.BuildsNeverStall | domo/include/user_config.h:87-165 | so the shutter build and the default build never stall, and a tick of 100 us with the default PWM_SCALL would |
| Pwm.TickIsAfter | domo/user/timer.c:66-96 | a tick of the timer table is a tick of the channel, its callback running exactly when its count is one |
| Pwm.TicksAreLater | domo/user/timer.c:66-96 | the same over any number of ticks and among any other callbacks that spare it |
| Pwm.DutyCycle | domo/user/user_main.c:690-754 | in the shutter build, under constant power p from 2 to 98, the pin is high for exactly p of any 100 ticks in a row, 4p of any 400 below 10 and above 90 |
| Pwm.StartsCycling | domo/user/user_main.c:690-754 | one run of the callback brings a channel into its cycle |
| Pwm.KeepsCycling | domo/user/user_main.c:690-754 | and it never leaves it |
| Shutter.Store.MqttDataCb | domo/user/user_main.c:1282-1342 | the set point is the commanded percentage of the scale, with the wrap of unsigned int; from any state the motor is then safe, and moves exactly when it is not at the set point |
| Shutter.Store.StoreIRQ | domo/user/user_main.c:932-991 | power and level after an interrupt, comparisons in unsigned int; a safe motor stays safe and keeps moving exactly when it was not at the set point |
| Shutter.Store.TimeoutStore | domo/user/user_main.c:1194-1210 | everything off, level put next to the set point if the motor was on; the motor stands and is safe |
| Shutter.AlwaysSafe | domo/user/user_main.c:932-1342 | over every run at most one direction has power, triac power is PUISSANCE_MAX exactly then and 0 otherwise, and the powered direction never has the level past the set point |
| Shutter.FullPower | domo/user/user_main.c:940-967 | full or reduced power at an interrupt: the exact distance, and the case in which the unsigned comparison never grants full power downwards |
| Shutter.StopsAfterDistance | domo/user/user_main.c:932-991 | from distance d, interrupts of its own movement only, the motor has power if and only if fewer than d edges were counted before the last interrupt |
| Shutter.StopsAtEdge | domo/user/user_main.c:932-991 | with every edge counted it stops at exactly edge d + 1 |
| Shutter.CommandStarts | domo/user/user_main.c:1282-1342 | a command starts the motor towards the set point if and only if the level is not there |
| Shutter.CommandSelects | domo/user/user_main.c:1285-1288 | the set point is value percent of the scale rounded down, 0 for 0 and the whole scale from 100 on; for larger scales exactly the wrapped product divided by 100 |
| Shutter.CommandIsMonotone | domo/user/user_main.c:1285-1288 | a larger value never selects a lower position |
| Shutter.CommandIsReached | domo/user/user_main.c:932-1342 | a command and the edges of its movement end with the motor off, one turn past the set point, within one turn and one rounding of value percent |
| Shutter.TimeoutLevel | domo/user/user_main.c:1194-1210 | after a timeout the level is taken to be a 500th of the scale past the set point on its far side; a standing motor keeps its level |
| Bme280.Sensor.CompensateTemperatureInt32 | domo/user/bme280.c:161-190 | t_fine and temperature in 32-bit integers, within 0.012 degrees of the double formula |
| Bme280.FirstTerm | domo/user/bme280.c:167-174 | bounds of the rounding error of the first term |
| Bme280.SecondTerm | domo/user/bme280.c:175-183 | bounds of the rounding error of the second, quadratic term, from the absence of overflow |
| Bme280.ExactIsRational | domo/user/bme280.c:1982-2001 | the double formula read over the reals |
| Bme280.ErrorBound | domo/user/bme280.c:161-190 | for every 20-bit reading and every calibration without 32-bit overflow, the integer temperature is within 0.012 degrees of the double version |
| Bme280.SampleCalibrationFits | domo/user/bme280.c:161-190 | a usual calibration never overflows, whatever the reading |

## Left out

- Sdio.SdioSlave.LoadData: not on an empty block, which could queue an empty buffer and hand `rx_buff_load_done` a length of zero, where it leaves the length of the previous transfer in place; the returned count is only bounded, and that an exactly filled buffer is queued without starting a transfer is stated but liveness is not.
- Clients.MqttClient.Recv: a whole run of the callback only on segments at which its loop ends; on the others, as on all, `Watch` follows it for any number of passes.
- MqttDecode.GetTotalLength: digits add up without bound, where C shifts a 32-bit int beyond its width from the sixth length byte on.
- Shutter.Store.TimeoutStore: the report of the position in percent, which here sends the value of the last interrupt.
- Shutter.Store.StoreIRQ: levels and differences do not wrap at 2^31, the timer of the timeout is not modelled (a timeout may come at any time), nor is the report of the position in percent.
- Shutter.TimeoutLevel: set points and scales whose sum leaves 31 bits.
- Timers.FiresExactly: periods of zero ticks, for which the C counter wraps after 2^32 ticks and ours runs on below zero, are outside the statement.
- Pwm.DutyCycle: for constant power; power settings that change in mid-cycle, and how far the pins of the two directions lag behind the settings.
- Runs.FirstInFirstOut: for a client whose buffer is between 5 and 16386 bytes, so that a remaining length has two bytes; the build uses 1280.
- Widths of the ring's indices (I16 and I32): rings are at most 32767 bytes long, where they do not matter.
- PROTO_Parse, PROTO_Add and the parser's completion callback: no caller.
- MQTT_InitClient's copies of the strings it is given, and MQTT_InitLWT.
- The SSL branches of the client, `pending_msg_id`, time stamps, and user callbacks that call back into the client.
- Failing allocations, the frees of `mqtt_client_delete` (the client is only marked as gone), and stopping the 1 s timer (ticks may come in any state of the model).
- Uart.Transmitter.TxBuffEnq: a first block longer than the ring that has to be created for it, which the code copies without a look at the space.
- Clients.MqttClient.DnsFound: when the resolver writes the client's ip field; its value is an input.
- The interrupt registers of UART and SDIO, and the host's side of SDIO.
- That the queue drains: the timer can bring sendTimeout to zero without posting an event.
- `esp_mqtt-master`'s copies of ringbuf.c, proto.c and mqtt_msg.c, which match those of `domo/`.
- BME280 pressure and humidity, register setters, keys, LED drivers, the configuration menu and flash storage: repetitive or without a property of their own.
