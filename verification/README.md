# IoTEgg BLE peripheral, modelled in Dafny

The IoTEgg firmware (`main.cpp`) runs on an mbed LPC1768 board with a BlueGiga
BLE module. It does four things, and each has a module here.

- **Session** tracks the link in three globals: `ble_state`, `ble_encrypted`
  and `ble_bonding`. The boot, connection-status and disconnect handlers
  update them.
- **Advertising** models how the boot handler builds two payloads:
  - the fixed 21-octet advertising data, made of a flags structure and a
    128-bit service UUID structure;
  - the scan response, whose complete local name is
    "ICS IoTEgg XX:XX:XX". The hex digits come from `address[2]`, `address[1]`
    and `address[0]`, in that order, each written with the formula
    `n + 48 + (n/10)*7`.

  Both payloads are sequences of AD structures. Each structure is a length
  octet, an AD type and its data, as section 11 of Volume 3, Part C of the
  Bluetooth Core Specification (v4.x) lays them out.
- **Framing** covers the application frames `'@' tag … '$'`:
  - the outbound 12-octet temperature/humidity frame
    `'@','T',8,<4 octets>,<4 octets>,'$'`;
  - the inbound LED command on characteristic handle 17, whose red, green and
    blue are octets 3, 4 and 5;
  - the integer part of `rgbled_update`, where `c & 0xFF` is applied to a
    `char`.
- **Telemetry** models the sampling rule of the main loop. While the node is
  connected as peripheral, it takes a sample once
  `(now - last) mod 2^32 >= 1000` ms, and then remembers `now`.

**Firmware** ties these together. Its step function delivers one stack event
to its handler or runs one loop iteration, and lists what the node sends out:
stack commands issued and colours handed to the LED driver. `Firmware.Run`
drives the step function over a whole input sequence.

**Types** holds the octet and word types, an `Option`, and the bitwise AND,
which is defined arithmetically. Its lemmas cover the low masks, up to
`0x0F`. The lemmas for the `0x05` and `0x02` masks of the connection-status
handler are `Session.NewConnectionIffBits` and `Session.EncryptedIsBit1`.

### Behaviour worth noting

- The scan-response name shows the address bytes in the order `address[2]`,
  `address[1]`, `address[0]` (main.cpp:161-166). Bytes 0x05, 0x1B and 0x2A
  at indices 0, 1 and 2 give "ICS IoTEgg 2A:1B:05".
- The disconnect handler sets the state to advertising whatever the state
  before (main.cpp:253-258).
- When the connection-status flags announce a new connection, the handler
  chooses the role from the prior state alone (main.cpp:226-232). A second "new connection" status while connected as
  peripheral finds a state other than advertising, so it sets the central
  role (`Session.RepeatedConnectionStatusFlipsRole`).
- `ble_encrypted` holds `flags & 0x02`, so it is 0 or 2 (main.cpp:236).
  `ble_bonding` holds the raw bonding octet, and 0xFF means none
  (main.cpp:37, 239, 258).
- The handler of the inbound `'L'` command never reads octet 2
  (main.cpp:282-285). The colour is always octets 3..5.

## Model

| member | source | states |
|---|---|---|
| Session.CodeRoundTrip | main.cpp:24-29 | the six state codes are exactly 0..5, and a stored code reads back as the state it encodes |
| Session.Next | main.cpp:177-258 | the link tracker after one handler run: boot sets advertising (line 177); a connection status picks the role from the prior state when bits 0 and 2 are set, then stores `flags & 0x02` and the bonding octet (lines 226-239); a disconnect resets to advertising, 0, 0xFF (lines 254-258); the other handlers leave it alone. Its properties are the `Session` lemma rows below |
| Session.NewConnectionIffBits | main.cpp:214-226 | the test `(flags & 0x05) == 0x05` holds exactly when the connected bit 0 and the completed bit 2 are both set, whatever the other bits are |
| Session.EncryptedIsBit1 | main.cpp:235-236 | `flags & 0x02` is 2 when the encrypted bit 1 is set and 0 otherwise |
| Session.ConnectionStatusState | main.cpp:225-233 | a new connection reached from advertising makes the device peripheral; from any other state it makes it central; a status event without bits 0 and 2 keeps the state |
| Session.ConnectionStatusMetadata | main.cpp:235-239 | every connection-status event overwrites the encryption (0 or 2, following bit 1) and sets the bonding to the event's handle |
| Session.DisconnectResets | main.cpp:253-258 | a disconnect from any session leads to advertising, not encrypted, no bonding; a second disconnect changes nothing |
| Session.BootAdvertises | main.cpp:176-177 | boot ends in the advertising state and leaves encryption and bonding as they were |
| Session.AddressResponseKeepsSession | main.cpp:180-191 | the address-response handler leaves the link tracker unchanged |
| Session.AttributeValueKeepsSession | main.cpp:261-292 | a write to any attribute leaves the link tracker unchanged, whatever its handle and value |
| Session.RepeatedConnectionStatusFlipsRole | main.cpp:226-232 | the same new-connection status applied twice from advertising gives peripheral, then central: the handler is not idempotent |
| Session.NextKeepsReachable | main.cpp:193-259 | no handler assigns the scanning or connecting state, and encryption stays in {0, 2} |
| Session.RunKeepsReachable | main.cpp:193-259 | from any reachable session every sequence of events keeps it reachable (power-on is one: `Firmware.StartStaysReachable`) |
| Session.SlaveOnlyFromAdvertising | main.cpp:226-230 | the peripheral role is entered only through a new-connection status arriving while advertising |
| Types.LowNibble | main.cpp:162 | `x & 0xF` is the remainder of `x` modulo 16 |
| Advertising.ParseEncodeAd | main.cpp:134-141 | parsing a serialised list of AD structures gives that list back, because each length octet counts its own type and data exactly |
| Advertising.AdvDataLayout | main.cpp:134-144 | `adv_data` is 21 octets, within the 31-octet limit, and parses as a flags structure (LE general discoverable, BR/EDR not supported) followed by the 128-bit service UUID structure |
| Advertising.HexDigit | main.cpp:161-166 | the digit formula maps 0..9 to '0'..'9' and 10..15 to 'A'..'F' |
| Advertising.HexDigitIsUpperHex | main.cpp:161-166 | the digit formula agrees with the upper-case hexadecimal table on every nibble |
| Advertising.HexDigitRoundTrip | main.cpp:161-166 | each produced digit reads back as its nibble, so distinct nibbles give distinct digits |
| Advertising.HexPairRoundTrip | main.cpp:161-162 | a byte becomes its high digit then its low digit, and those two digits read back as the byte |
| Advertising.HexPair | main.cpp:161-166 | one address byte as the two octets the boot handler writes, high nibble (`b / 0x10`) then low nibble (`b & 0xF`); its contract gives the length 2, and `HexPairRoundTrip` states what the digits are |
| Advertising.Fill | main.cpp:149-166 | overwriting the template's three `00` pairs puts each pair at 13-14, 16-17 and 19-20 and keeps every other octet of the 21-octet template |
| Advertising.ScanResponseDigits | main.cpp:160-166 | positions 13-14, 16-17 and 19-20 of the scan response hold the hex digits of `address[2]`, `address[1]` and `address[0]` |
| Advertising.ScanResponse | main.cpp:149-166 | `sr_data` as sent: the template with `address[2]`, `address[1]`, `address[0]` written into positions 13-14, 16-17, 19-20; `ScanResponseDigits`, `ScanResponseKeepsTemplate`, `ScanResponseIsLocalName` and `NameAddressRoundTrip` state its properties |
| Advertising.ScanResponseKeepsTemplate | main.cpp:149-153 | every octet outside the digit pairs is the template's: the length 0x14, the local-name type, "ICS IoTEgg " and both colons |
| Advertising.FillIsLocalName | main.cpp:147-153 | whatever digit pairs fill the template, the result is one complete-local-name AD structure whose length octet counts the name |
| Advertising.ScanResponseIsLocalName | main.cpp:147-169 | the scan response is one complete-local-name structure carrying "ICS IoTEgg XX:XX:XX", fits in 31 octets and parses back to that structure |
| Advertising.NameAddressRoundTrip | main.cpp:160-166 | the three address bytes can be read back from the name's suffix, so devices differing in those bytes advertise different names |
| Advertising.HexPairExamples | main.cpp:161-166 | 0x2A, 0x1B and 0x05 are written "2A", "1B" and "05", including the 'A' that needs the +7 offset |
| Advertising.ScanResponseExample | main.cpp:160-166 | address bytes 0..2 of 0x05, 0x1B, 0x2A give the name "ICS IoTEgg 2A:1B:05" |
| Framing.DecodeEncodeFrame | main.cpp:330-336 | a length-carrying frame decodes back to its tag and payload |
| Framing.EncodeDecodeFrame | main.cpp:330-336 | every frame that decodes is the encoding of what it decodes to |
| Framing.TelemetryFrame | main.cpp:330-336 | the telemetry buffer is 12 octets: '@', 'T', length 8, both samples at 3..6 and 7..10, and '$' at index `length + 3` |
| Framing.TelemetryFrameIsFrame | main.cpp:330-336 | the telemetry buffer is the general frame with tag 'T' and the two samples as payload |
| Framing.TelemetryRoundTrip | main.cpp:334-335 | a peer decoding the telemetry frame recovers both samples exactly |
| Framing.TelemetryFrameInjective | main.cpp:334-335 | different sample pairs give different frames |
| Framing.ChannelRestoresOctet | main.cpp:61-64 | masking the `char` argument with 0xFF restores the received octet, whether `char` is signed or not |
| Framing.HandleWriteAsWritten | main.cpp:281-289 | the attribute-value handler exactly as written: the handle, length and delimiter checks, the switch on octet 1, and for `'L'` the reads of octets 3..5, reporting the lowest index past the end when the value is too short |
| Framing.AsWrittenReadsPastEndIff | main.cpp:281-285 | the handler as written reads past the received value exactly for 3- to 5-octet `'L'` frames on handle 17; `data[1]` itself is always in range |
| Framing.AsWrittenShortFrame | main.cpp:281-285 | "@L$" on handle 17 passes every check and makes the handler read `data[3]` of a 3-octet value |
| Framing.DecodeCommand | main.cpp:281-289 | the corrected handler: a colour only for a value of at least six octets on handle 17 with the `'@'`, `'L'`, `'$'` envelope, taken from octets 3..5 after the `& 0xFF` masking |
| Framing.DecodeCommandRefinesAsWritten | main.cpp:280-291 | the corrected decoder gives the handler's colour wherever the handler stays in bounds, ignores what it ignores, and rejects the frames where it would read past the end |
| Framing.DecodeCommandChannels | main.cpp:283-285 | an accepted command carries octets 3, 4 and 5 unchanged as red, green and blue |
| Framing.DecodeCommandRejects | main.cpp:281-289 | no colour is set for another handle, an empty value, a broken '@'…'$' envelope or another opcode |
| Framing.DecodeCommandIgnoresLength | main.cpp:283-285 | octet 2 of a command never affects the outcome |
| Framing.DecodeCommandOfFrame | main.cpp:281-285 | a colour sent in the outbound frame format `'@','L',3,r,g,b,'$'` is decoded to that colour |
| Framing.SixOctetFrameBlueIsTerminator | main.cpp:282-285 | a six-octet `'L'` frame is accepted too, and its blue channel is the terminator '$' (0x24) |
| Telemetry.Elapsed | main.cpp:325 | the unsigned 32-bit difference is the value that, added to the last reading with wrap-around, gives the current one |
| Telemetry.ElapsedCases | main.cpp:325 | the wrapped difference is `cur - last` without a wrap and `cur + 2^32 - last` with one, and it is the only 32-bit value with that property |
| Telemetry.Tick | main.cpp:323-326 | one pass of the loop's sampling test: whether it samples and the new `temphumOldTimer`; `TickRule` and `NoDoubleSample` state its properties |
| Telemetry.TickRule | main.cpp:323-326 | a sample is taken exactly when connected as peripheral and at least 1000 ms have passed, counting a timer wrap as continuing time; then the reading is remembered, otherwise the old one stays |
| Telemetry.NoDoubleSample | main.cpp:325-326 | right after a sample, a second pass with the same timer reading takes none |
| Firmware.BootCommands | main.cpp:120-174 | the five commands of the boot handler in order: advertising parameters 320, 480, 7; `adv_data` with length 0x15 (the advertising data itself is the constant `Advertising.AdvData`, lines 134-141); the address query; `sr_data` with length 0x15; the user-data connectable mode |
| Firmware.HandleEvent | main.cpp:193-292 | the registered handler for one stack event: the session update of `Session.Next`, the commands it issues (boot setup, or the mode command after a disconnect) and the colour handed to the LED driver for an accepted command |
| Firmware.PollTelemetry | main.cpp:323-341 | the telemetry part of one loop iteration: when `Telemetry.Tick` fires, one write of the 12-octet frame to handle 20 and the remembered reading is updated; otherwise nothing |
| Firmware.BootIssuesSetup | main.cpp:120-177 | boot issues its five commands in order, each advertising payload with its true length of at most 31, ends with the discoverable/connectable mode and leaves the node advertising |
| Firmware.DisconnectTwice | main.cpp:250-258 | each disconnect re-issues only the mode command, and a second one leaves the node as the first did |
| Firmware.LedOnlyFromCommand | main.cpp:280-291 | the LED changes only on a well-framed `'L'` write to handle 17, and then to octets 3..5 |
| Firmware.PollSendsTelemetry | main.cpp:323-341 | telemetry goes out only while connected as peripheral after the interval, as one 12-octet write to handle 20 from which both samples decode |
| Firmware.RunStepsKeepsReachable | main.cpp:193-345 | handling any sequence of inputs from a reachable node ends in a reachable session |
| Firmware.StartStaysReachable | main.cpp:35-37 | the node as initialised (standby, not encrypted, no bonding, no sample yet) is reachable, and stays so whatever inputs follow |
| Firmware.Run | main.cpp:321-345 | the returned node and outputs are those of handling the inputs one after the other, and the returned sample times are the timer readings of the iterations that sample; consecutive samples are at least 1000 ms apart (wrap-aware), every issued command's length matches its data, and the session stays reachable |

## Findings

| source | as written | input that shows it | evidently intended | confidence | as-written member | corrected member |
|---|---|---|---|---|---|---|
| main.cpp:281-285 | an `'L'` frame passes when it starts with '@' and ends with '$', then octets 3, 4 and 5 are read without checking that the value holds six octets | the 3-octet value "@L$" written to handle 17 reads `data[3..5]` past the received buffer | accept an `'L'` command only when octets 3..5 exist, i.e. the value is at least 6 octets long | high, not executed | Framing.AsWrittenShortFrame | Framing.DecodeCommandRefinesAsWritten |

`Framing.HandleWriteAsWritten` models the handler as written. It reports the
lowest out-of-range index instead of a colour. `Framing.DecodeCommand` is the
corrected decoder, and `Firmware` uses it. It does not require callers to
pass six or more octets. Instead it returns `None` for a shorter value, as
it does for any other rejected write.

## Left out

- The command/response guard is not modelled: the `checkActivity` busy-waits,
  `onBusy`/`onIdle` driving the status LED, and the reset pulse in
  `onTimeout`. Each command is taken to complete before the next one.
- Events delivered during a handler's own busy-wait are not modelled.
  Every handler is one atomic step, but `checkActivity(1000)` at
  main.cpp:174 and main.cpp:251 can dispatch other stack events before the
  handler's state assignments at lines 177 and 254-258. A connection status
  handled during that wait would be overwritten. The node would then track
  the state as advertising while a peer is connected, and send no
  telemetry. Nothing here establishes whether BGLib dispatches such an
  event there, because BGLib is not part of this model.
- `bleinit` and the pin and serial set-up are not modelled. The handler
  registration is implicit in `Firmware.HandleEvent`.
- Debug `printf` output under `_DEBUG_` is left out.
- HTU21D sampling is left out. Temperature and humidity are opaque 4-octet
  words, because the frame copies their raw float bytes.
- The float conversion `/255` and the PWM write in `RGBLed/RGBLed.cpp` are
  left out (floating point and hardware). Only the integer channel value is
  modelled.
- `malloc`/`free` of the telemetry buffer are left out. The frame is a value.
- The BGLib GAP mode constants are not modelled. The mode command is the
  symbolic `SetUserDataMode`, because BGLib's headers are not part of this
  model.
- Of the connection-status event, only `flags` and `bonding` are modelled.
  The handler reads no other fields.
- The millisecond timer and its `int` to `uint32_t` conversion are left out.
  The reading `now` is an input to each loop iteration.
- The signedness of `char` is fixed as signed in `Framing.Channel`. `Framing.ChannelRestoresOctet`
  shows the result is the same for unsigned `char`.
