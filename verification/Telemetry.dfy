/** Catalogue signals, readings and the messages the gateway publishes. */
module Telemetry {
  import opened Prelude

  /** A DNP3 point: object group and index. */
  datatype Point = Point(group: int, index: int)

  /** A cached measurement: the number and, for octet strings, the text. */
  datatype Value = Value(raw: real, text: Option<string>)

  datatype DataType = Analog | Binary | Counter | AnalogOutput | BinaryOutput | Text | OtherType(name: string)

  datatype Signal = Signal(key: string, source: string, dataType: DataType,
                           point: Point, scale: real, offset: real)

  predicate DistinctKeys(signals: seq<Signal>) {
    forall i, j :: 0 <= i < j < |signals| ==> signals[i].key != signals[j].key
  }

  datatype Quality = Good | NoChange | CommLost | Invalid

  datatype Reading = Reading(signalKey: string, source: string, dataType: DataType,
                             raw: real, scaled: real, quality: Quality, text: Option<string>)

  /** Command channels and unknown types are never published. */
  predicate Readable(s: Signal)
    ensures Readable(s) <==> s.dataType != BinaryOutput && !s.dataType.OtherType?
  {
    s.dataType in {Analog, Binary, Counter, AnalogOutput, Text}
  }

  /** Python's `round` to the nearest integer, ties to even. */
  function RoundHalfEven(x: real): int {
    var below := x.Floor;
    var rest := x - below as real;
    if rest < 0.5 then below
    else if rest > 0.5 then below + 1
    else if below % 2 == 0 then below else below + 1
  }

  /** No integer is nearer, and of two equally near ones it is the even one. */
  lemma RoundsToNearest(x: real)
    ensures -0.5 <= RoundHalfEven(x) as real - x <= 0.5
    ensures RoundHalfEven(x) as real - x in {-0.5, 0.5} ==> RoundHalfEven(x) % 2 == 0
  {}

  function RoundTo(x: real, unit: real): real
    requires unit > 0.0
  {
    RoundHalfEven(x * unit) as real / unit
  }

  function Scaled(s: Signal, raw: real): (x: real)
    ensures x == raw * s.scale + s.offset
  {
    raw * s.scale + s.offset
  }

  function GoodReading(s: Signal, v: Value): (r: Reading)
    ensures r.signalKey == s.key && r.source == s.source && r.dataType == s.dataType
    ensures r.raw == v.raw && r.text == v.text && r.quality == Good
  {
    Reading(s.key, s.source, s.dataType, v.raw, RoundTo(Scaled(s, v.raw), 1000000.0), Good, v.text)
  }

  /** The result has six decimals and lies within half a millionth. */
  lemma Rounded(x: real)
    ensures var r := RoundTo(x, 1000000.0);
      && -0.0000005 <= r - x <= 0.0000005 && (r * 1000000.0).Floor as real == r * 1000000.0
  {
    hide RoundHalfEven;
    RoundsToNearest(x * 1000000.0);
    assert RoundTo(x, 1000000.0) * 1000000.0 == RoundHalfEven(x * 1000000.0) as real;
  }

  function EmptyReading(s: Signal, quality: Quality): (r: Reading)
    ensures r.signalKey == s.key && r.source == s.source && r.dataType == s.dataType
    ensures r.raw == 0.0 == r.scaled && r.text == None && r.quality == quality
  {
    Reading(s.key, s.source, s.dataType, 0.0, 0.0, quality, None)
  }

  datatype Payload = Payload(messageId: string, correlation: string, gateway: string, device: string,
                             signalKey: string, source: string, dataType: DataType,
                             value: Option<real>, text: Option<string>, quality: Quality, timestamp: string)

  type Headers = map<string, string>

  /** What `publish` is called with. */
  datatype Message = Message(id: string, correlation: Option<string>, headers: Option<Headers>, payload: Payload)

  function Headed(gateway: string, device: string, signalKey: string): Headers {
    map["source_gateway" := gateway, "device_code" := device, "signal_key" := signalKey]
  }

  /** The event built for one reading; text signals carry no number. */
  function MessageFor(gateway: string, device: string, r: Reading, id: string, correlation: string,
                      at: string): Message {
    Message(id, Some(correlation), Some(Headed(gateway, device, r.signalKey)),
            Payload(id, correlation, gateway, device, r.signalKey, r.source, r.dataType,
                    if r.dataType == Text then None else Some(r.scaled), r.text, r.quality, at))
  }

  /** The message says what the reading says, under its own id, in payload and headers alike. */
  ghost predicate Carries(m: Message, gateway: string, device: string, r: Reading, id: string, correlation: string,
                          at: string)
  {
    && m.id == id && m.payload.messageId == id
    && m.correlation == Some(correlation) && m.payload.correlation == correlation
    && m.payload.gateway == gateway && m.payload.device == device && m.payload.signalKey == r.signalKey
    && m.payload.source == r.source && m.payload.dataType == r.dataType && m.payload.quality == r.quality
    && m.payload.timestamp == at && m.payload.text == r.text
    && (r.dataType == Text ==> m.payload.value == None) && (r.dataType != Text ==> m.payload.value == Some(r.scaled))
    && m.headers.Some? && m.headers.value.Keys == {"source_gateway", "device_code", "signal_key"}
    && m.headers.value["source_gateway"] == gateway && m.headers.value["device_code"] == device
    && m.headers.value["signal_key"] == r.signalKey
  }

  lemma MessageCarries(gateway: string, device: string, r: Reading, id: string, correlation: string, at: string)
    ensures Carries(MessageFor(gateway, device, r, id, correlation, at), gateway, device, r, id, correlation, at)
  {}

  /** The message reports a good value of the signal: its number scaled and rounded, or its text. */
  ghost predicate Reports(m: Message, gateway: string, device: string, s: Signal, v: Value) {
    && m.payload.gateway == gateway && m.payload.device == device && m.payload.signalKey == s.key
    && m.payload.source == s.source && m.payload.dataType == s.dataType && m.payload.quality == Good
    && m.payload.text == v.text
    && (s.dataType == Text ==> m.payload.value == None)
    && (s.dataType != Text ==>
          m.payload.value.Some?
          && -0.0000005 <= m.payload.value.value - (v.raw * s.scale + s.offset) <= 0.0000005)
  }

  lemma GoodMessageReports(gateway: string, device: string, s: Signal, v: Value, id: string, correlation: string,
                           at: string)
    ensures var m := MessageFor(gateway, device, GoodReading(s, v), id, correlation, at);
      && Reports(m, gateway, device, s, v)
      && Carries(m, gateway, device, GoodReading(s, v), id, correlation, at)
  {
    hide RoundTo;
    Rounded(Scaled(s, v.raw));
    MessageCarries(gateway, device, GoodReading(s, v), id, correlation, at);
  }
}
