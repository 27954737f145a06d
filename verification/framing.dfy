/** The application framing carried in attribute writes (main.cpp): every
    packet is `'@' <tag> ... '$'`. Outbound, the telemetry loop sends a `'T'`
    frame with an explicit length octet and two 4-octet samples; inbound, the
    attribute-value handler accepts an `'L'` frame on the command handle and
    passes octets 3, 4 and 5 to `rgbled_update`. */
module Framing {
  import opened Types

  const FrameStart: byte := '@' as int
  const FrameEnd: byte := '$' as int
  /** Opcode of the inbound "set LED colour" command. */
  const OpLed: byte := 'L' as int
  /** Tag of the outbound temperature-and-humidity frame. */
  const TagTelemetry: byte := 'T' as int

  /** `GATT_HANDLE_C_RX_DATA`: the characteristic the peer writes commands to. */
  const CommandHandle: uint16 := 17
  /** `GATT_HANDLE_C_TX_DATA`: the characteristic telemetry is written to. */
  const TelemetryHandle: uint16 := 20

  // ---------------------------------------------------------------------
  // Outbound frames
  // ---------------------------------------------------------------------

  /** A frame with an explicit length octet: `'@', tag, n, <n octets>, '$'`. */
  function EncodeFrame(tag: byte, payload: seq<byte>): (f: seq<byte>)
    requires |payload| <= 0xFF
    ensures |f| == |payload| + 4
  {
    [FrameStart, tag, |payload|] + payload + [FrameEnd]
  }

  /** Reads a length-carrying frame: the envelope must be intact and the
      length octet must match the octets between it and the terminator. */
  function DecodeFrame(f: seq<byte>): Option<(byte, seq<byte>)>
  {
    if |f| >= 4 && f[0] == FrameStart && f[|f| - 1] == FrameEnd && f[2] as int + 4 == |f|
    then Some((f[1], f[3..|f| - 1]))
    else None
  }

  /** Decoding an encoded frame gives back its tag and payload. */
  lemma DecodeEncodeFrame(tag: byte, payload: seq<byte>)
    requires |payload| <= 0xFF
    ensures DecodeFrame(EncodeFrame(tag, payload)) == Some((tag, payload))
  {
    var f := EncodeFrame(tag, payload);
    assert f[3..|f| - 1] == payload;
  }

  /** Every frame that decodes is the encoding of what it decodes to, so the
      encoding is the only representation of a tag and payload. */
  lemma EncodeDecodeFrame(f: seq<byte>)
    requires DecodeFrame(f).Some?
    ensures |DecodeFrame(f).value.1| <= 0xFF
    ensures EncodeFrame(DecodeFrame(f).value.0, DecodeFrame(f).value.1) == f
  {
    var payload := f[3..|f| - 1];
    assert f == [f[0], f[1], f[2]] + payload + [f[|f| - 1]];
  }

  /** The 12-octet buffer the telemetry loop fills: `'@'`, `'T'`, the length
      8, the temperature's four octets, the humidity's four octets, and the
      terminator at index `8 + 3`. */
  function TelemetryFrame(temperature: Word, humidity: Word): (f: seq<byte>)
    ensures |f| == 12 == f[2] as int + 4
    ensures f[0] == FrameStart && f[1] == TagTelemetry && f[2] == 8
    ensures f[3..7] == temperature && f[7..11] == humidity
    ensures f[f[2] as int + 3] == FrameEnd
  {
    var f := [FrameStart, TagTelemetry, 8] + temperature + humidity + [FrameEnd];
    assert f[3..7] == temperature;
    assert f[7..11] == humidity;
    f
  }

  /** The telemetry buffer is an ordinary length-carrying frame whose payload
      is the two samples back to back. */
  lemma TelemetryFrameIsFrame(temperature: Word, humidity: Word)
    ensures TelemetryFrame(temperature, humidity) == EncodeFrame(TagTelemetry, temperature + humidity)
  {
  }

  /** What a peer does with a telemetry frame: check the envelope, the tag and
      the length 8, and split the payload into the two samples. */
  function DecodeTelemetry(f: seq<byte>): Option<(Word, Word)>
  {
    match DecodeFrame(f)
    case Some((tag, payload)) =>
      if tag == TagTelemetry && |payload| == 8 then Some((payload[..4], payload[4..])) else None
    case None => None
  }

  /** Decoding octets 3..10 recovers both samples exactly. */
  lemma TelemetryRoundTrip(temperature: Word, humidity: Word)
    ensures DecodeTelemetry(TelemetryFrame(temperature, humidity)) == Some((temperature, humidity))
  {
    TelemetryFrameIsFrame(temperature, humidity);
    DecodeEncodeFrame(TagTelemetry, temperature + humidity);
    assert (temperature + humidity)[..4] == temperature;
    assert (temperature + humidity)[4..] == humidity;
  }

  /** Different samples give different frames. */
  lemma TelemetryFrameInjective(t1: Word, h1: Word, t2: Word, h2: Word)
    requires TelemetryFrame(t1, h1) == TelemetryFrame(t2, h2)
    ensures t1 == t2 && h1 == h2
  {
    TelemetryRoundTrip(t1, h1);
    TelemetryRoundTrip(t2, h2);
  }

  // ---------------------------------------------------------------------
  // Inbound command frames
  // ---------------------------------------------------------------------

  /** One colour command: the three channel intensities 0..255. */
  datatype Rgb = Rgb(red: byte, green: byte, blue: byte)

  /** Passing a `uint8_t` to a `char` parameter: on a target where `char` is
      signed, octets 128..255 arrive as -128..-1. */
  function ToChar(b: byte, signedChar: bool): (c: int)
    ensures -0x80 <= c < 0x100
  {
    if signedChar && b >= 0x80 then b - 0x100 else b
  }

  /** `c & 0xFF` on the promoted `int`: the low eight bits of its two's
      complement, which is `c` modulo 256. */
  function MaskByte(c: int): byte
  {
    c % 0x100
  }

  /** The integer part of `rgbled_update`: whatever the signedness of `char`,
      masking restores the octet that was written, so each channel is 0..255. */
  lemma ChannelRestoresOctet(b: byte, signedChar: bool)
    ensures MaskByte(ToChar(b, signedChar)) == b
  {
  }

  /** The channel value `rgbled_update` works with for one received octet;
      the model takes `char` as signed, the case where the mask matters. */
  function Channel(b: byte): byte
  {
    MaskByte(ToChar(b, true))
  }

  /** What the attribute-value handler does with a write, following the code
      as written, including the reads of `data[1]` and `data[3..5]` that may
      fall past the received length. */
  datatype Handling = Ignored | LedUpdate(rgb: Rgb) | ReadsPastEnd(index: int)

  /** The handler as written: it checks the handle, `len > 0` and the two
      delimiters, then switches on `data[1]` and, for `'L'`, reads
      `data[3]`, `data[4]` and `data[5]` without checking that `len >= 6`.
      The lowest out-of-range index is reported instead of a colour. */
  function HandleWriteAsWritten(handle: uint16, data: seq<byte>): Handling
  {
    if handle == CommandHandle && |data| > 0 then
      if data[0] == FrameStart && data[|data| - 1] == FrameEnd then
        if |data| < 2 then ReadsPastEnd(1)
        else if data[1] == OpLed then
          if |data| < 6 then ReadsPastEnd(|data|)
          else LedUpdate(Rgb(Channel(data[3]), Channel(data[4]), Channel(data[5])))
        else Ignored
      else Ignored
    else Ignored
  }

  /** The handler as written reads past the end of the received value exactly
      for `'L'` frames of 3, 4 or 5 octets on the command handle; `data[1]`
      itself is always in range, because a one-octet value cannot both start
      with '@' and end with '$'. */
  lemma AsWrittenReadsPastEndIff(handle: uint16, data: seq<byte>)
    ensures HandleWriteAsWritten(handle, data).ReadsPastEnd? <==>
              && handle == CommandHandle
              && 3 <= |data| < 6
              && data[0] == FrameStart && data[|data| - 1] == FrameEnd && data[1] == OpLed
    ensures HandleWriteAsWritten(handle, data).ReadsPastEnd? ==>
              HandleWriteAsWritten(handle, data).index == |data| >= 3
  {
  }

  /** The three-octet value "@L$" passes every check the handler makes and
      sends it to read `data[3]`, `data[4]` and `data[5]` of a 3-octet buffer. */
  lemma AsWrittenShortFrame()
    ensures HandleWriteAsWritten(CommandHandle, [FrameStart, OpLed, FrameEnd]) == ReadsPastEnd(3)
  {
  }

  /** The corrected decoder: a colour command is accepted only on the command
      handle, inside an intact `'@' ... '$'` envelope, with opcode `'L'` and at
      least six octets so that octets 3..5 exist. The length octet `data[2]`
      is not inspected. */
  function DecodeCommand(handle: uint16, data: seq<byte>): Option<Rgb>
  {
    if && handle == CommandHandle
       && |data| >= 6
       && data[0] == FrameStart
       && data[|data| - 1] == FrameEnd
       && data[1] == OpLed
    then Some(Rgb(Channel(data[3]), Channel(data[4]), Channel(data[5])))
    else None
  }

  /** The corrected decoder agrees with the handler as written on every input
      where the latter stays inside the buffer, and rejects exactly the
      inputs where it would not. */
  lemma DecodeCommandRefinesAsWritten(handle: uint16, data: seq<byte>)
    ensures HandleWriteAsWritten(handle, data).LedUpdate? ==>
              DecodeCommand(handle, data) == Some(HandleWriteAsWritten(handle, data).rgb)
    ensures HandleWriteAsWritten(handle, data).Ignored? ==> DecodeCommand(handle, data) == None
    ensures HandleWriteAsWritten(handle, data).ReadsPastEnd? ==> DecodeCommand(handle, data) == None
    ensures DecodeCommand(handle, data).Some? ==> HandleWriteAsWritten(handle, data).LedUpdate?
  {
  }

  /** An accepted command carries octets 3, 4 and 5 unchanged as red, green
      and blue. */
  lemma DecodeCommandChannels(handle: uint16, data: seq<byte>)
    requires DecodeCommand(handle, data).Some?
    ensures |data| >= 6
    ensures DecodeCommand(handle, data).value == Rgb(data[3], data[4], data[5])
  {
    ChannelRestoresOctet(data[3], true);
    ChannelRestoresOctet(data[4], true);
    ChannelRestoresOctet(data[5], true);
  }

  /** No colour is set for a write to any other handle, for a value that does
      not start with '@' or end with '$', or for any other opcode. */
  lemma DecodeCommandRejects(handle: uint16, data: seq<byte>)
    ensures handle != CommandHandle ==> DecodeCommand(handle, data) == None
    ensures |data| == 0 ==> DecodeCommand(handle, data) == None
    ensures |data| > 0 && (data[0] != FrameStart || data[|data| - 1] != FrameEnd) ==>
              DecodeCommand(handle, data) == None
    ensures |data| > 1 && data[1] != OpLed ==> DecodeCommand(handle, data) == None
  {
  }

  /** The length octet is never checked: overwriting it changes nothing. */
  lemma DecodeCommandIgnoresLength(handle: uint16, data: seq<byte>, n: byte)
    requires |data| >= 3
    ensures DecodeCommand(handle, data[2 := n]) == DecodeCommand(handle, data)
  {
  }

  /** A colour command written in the outbound frame format with length 3,
      `'@', 'L', 3, r, g, b, '$'`, decodes to that colour. */
  lemma DecodeCommandOfFrame(r: byte, g: byte, b: byte)
    ensures DecodeCommand(CommandHandle, EncodeFrame(OpLed, [r, g, b])) == Some(Rgb(r, g, b))
  {
    var f := EncodeFrame(OpLed, [r, g, b]);
    assert f == [FrameStart, OpLed, 3, r, g, b, FrameEnd];
    DecodeCommandChannels(CommandHandle, f);
  }

  /** A six-octet frame also passes, and its blue channel is the terminator
      '$' itself (0x24). */
  lemma SixOctetFrameBlueIsTerminator(x: byte, r: byte, g: byte)
    ensures DecodeCommand(CommandHandle, [FrameStart, OpLed, x, r, g, FrameEnd]) == Some(Rgb(r, g, 0x24))
  {
    DecodeCommandChannels(CommandHandle, [FrameStart, OpLed, x, r, g, FrameEnd]);
  }
}
