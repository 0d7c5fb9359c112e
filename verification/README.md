# WayFinder frame codec and device logic in Dafny

This project models the core of the WayFinder LoRa messaging firmware. The base station builds
and decodes short typed frames, which it sends and receives over a LoRa radio link. The user
device does not use the frame codec: its buttons queue a message id, and its radio task sends
that id as ASCII text (`"Message ID: "` followed by the number). The model covers:

- **`PayloadBuilder`** (`payload_builder.dfy`): the frame codec.
  - It encodes three frame kinds: GPS (tag `0x01`), predefined message (`0x02`) and custom text (`0x03`).
  - Every frame has the same 12-byte header: type, source id, destination id, a big-endian 16-bit
    transmission id, 6 date bytes and a data-length byte.
  - A type-specific body follows, and the frame ends with a one-byte XOR-fold checksum.
  - It also models the classifier (`identify_type_and_check_checksum`, which answers the tag or
    the sentinel 101), the header and body decoders, and the builder's `lastPayloadSize`.
- **`Bytes`** (`bytes.dfy`): `uint8_t` as `bv8`, `uint16_t`, the checksum fold (a reference
  function plus the source's loop), and the big-endian split and join of the transmission id.
- **`BaseStation`** (`base_station.dfy`): the sequential logic of the base station's tasks.
  - The two 1-based message tables and the RSSI bands.
  - The console grammar (`String::trim`, `C:`/`c:` custom, otherwise an integer).
  - The transmitter, as a loop over the dequeued commands. It keeps a wrapping 16-bit id, maps a
    predefined id with `(uint8_t)(id-1)`, and cuts custom text at the first NUL (`c_str()`).
  - The receive dispatch on the classifier's answer.
- **`UserDevice`** (`user_device.dfy`): the user device's button state machine. `states[3][3]` and
  `selectedRow` change in one poll of MODE, UP, DOWN and OK, and `renderUI` picks a screen.

Facts about the code that the model keeps:

- An oversize custom text is still sent, as an empty packet, and it still uses up a
  transmission id (`TransmitCommands`).
- The custom-text limit is `MAX_PAYLOAD_SIZE - 14 = 86`. A custom frame is `13 + |text|` bytes:
  12 header bytes, the text, and the checksum. So the largest custom frame is 99 bytes.
- Longitude and latitude are copied byte for byte in the machine's own order. They are
  modelled as opaque 4-byte patterns.
- The classifier returns 101 for an empty buffer, for a checksum mismatch, and also for a valid
  frame whose type byte is 101. A caller cannot tell these cases apart.

## Model

| member | source | states |
|---|---|---|
| Bytes.CalculateXorChecksum | lib/payload_builder/src/payload_builder.cpp:17-23 | the byte loop returns the left XOR fold of its input, and 0 for an empty input |
| Bytes.XorAppend | lib/payload_builder/src/payload_builder.cpp:17-23 | the checksum of `a ++ b` is checksum(a) xor checksum(b) |
| Bytes.XorUpdate | lib/payload_builder/src/payload_builder.cpp:17-23 | replacing byte i by v changes the checksum by exactly `s[i] ^ v` |
| Bytes.BigEndian16 | lib/payload_builder/src/payload_builder.cpp:126 | `(hi << 8) OR lo` has `hi` as its high byte and `lo` as its low byte |
| Bytes.BigEndian16RoundTrip | lib/payload_builder/src/payload_builder.cpp:38-39 | every `uint16_t` id 0..65535 is recovered from its two big-endian bytes |
| Bytes.BigEndian16Split | lib/payload_builder/src/payload_builder.cpp:126 | every pair of bytes is recovered from the 16-bit value they form |
| PayloadBuilder.ConfigureDevice | lib/payload_builder/src/payload_builder.cpp:25-28 | the builder takes the given source and destination ids and leaves `lastPayloadSize` untouched |
| PayloadBuilder.CreateGpsPayload | lib/payload_builder/src/payload_builder.cpp:30-48 | 21 bytes: tag 1, data length 8, longitude at 12..15, latitude at 16..19; the last byte is the XOR of the rest; `lastPayloadSize` becomes 21 |
| PayloadBuilder.CreatePMsgPayload | lib/payload_builder/src/payload_builder.cpp:50-67 | 14 bytes: tag 2, data length 1, msgID at 12; the last byte is the XOR of the rest; `lastPayloadSize` becomes 14 |
| PayloadBuilder.CreateCMsgPayload | lib/payload_builder/src/payload_builder.cpp:69-87 | empty iff the text is longer than 86. Otherwise 13 + n bytes for a text of n bytes with tag 3, byte 11 = n, the text at 12.. and a valid checksum. `lastPayloadSize` is set on success and unchanged on rejection |
| PayloadBuilder.IdentifyTypeAndCheckChecksum | lib/payload_builder/src/payload_builder.cpp:95-99 | a frame meeting the checksum invariant gets its first byte; an empty frame or a mismatch gets 101 |
| PayloadBuilder.GetPayloadDetails | lib/payload_builder/src/payload_builder.cpp:121-130 | re-encoding the decoded header fields gives back exactly bytes 0..11 |
| PayloadBuilder.DetailsOfHeader | lib/payload_builder/src/payload_builder.cpp:121-130 | decoding an encoded header gives back type, ids, transmission id, date bytes and data length |
| PayloadBuilder.Create | lib/payload_builder/src/payload_builder.cpp:30-87 | no created frame exceeds 100 bytes. Every non-empty frame classifies as its own tag. Only an oversize custom text gives an empty frame. The identity is kept and `lastPayloadSize` tracks the frame |
| PayloadBuilder.CorruptionDetected | lib/payload_builder/src/payload_builder.cpp:95-99 | changing any single byte of a valid frame, checksum byte included, makes the classifier answer 101 |
| PayloadBuilder.GpsDetails | lib/payload_builder/src/payload_builder.cpp:121-130 | a GPS frame's header gives back type 1, the configured ids, the transmission id, the date bytes and data length 8 |
| PayloadBuilder.PMsgDetails | lib/payload_builder/src/payload_builder.cpp:121-130 | a predefined frame's header gives back type 2, the ids, the transmission id, the date bytes and data length 1 |
| PayloadBuilder.CMsgDetails | lib/payload_builder/src/payload_builder.cpp:121-130 | a custom frame's header gives back type 3, the ids, the transmission id, the date bytes and the text length |
| PayloadBuilder.CreatedDetails | lib/payload_builder/src/payload_builder.cpp:121-130 | every created frame's header gives back the configured ids, the transmission id, the date bytes, and a data length of the frame size minus 13 |
| PayloadBuilder.DecodeGpsPayload | lib/payload_builder/src/payload_builder.cpp:101-106 | the two returned 4-byte patterns are exactly bytes 12..19: put back after the header they rebuild the first 20 bytes |
| PayloadBuilder.DecodePMsgPayload | lib/payload_builder/src/payload_builder.cpp:108-112 | the returned msgID is exactly byte 12 |
| PayloadBuilder.DecodeCMsgPayload | lib/payload_builder/src/payload_builder.cpp:114-119 | the returned text has the length announced at byte 11 and is exactly the bytes after the header |
| PayloadBuilder.GpsRoundTrip | lib/payload_builder/src/payload_builder.cpp:101-106 | decoding a GPS frame gives back the same longitude and latitude byte patterns |
| PayloadBuilder.PMsgRoundTrip | lib/payload_builder/src/payload_builder.cpp:108-112 | decoding a predefined frame gives back its msgID, for every byte value |
| PayloadBuilder.CMsgRoundTrip | lib/payload_builder/src/payload_builder.cpp:114-119 | a custom text of at most 86 bytes fits its frame and decodes to itself |
| PayloadBuilder.LastPayloadSizeTracksLastFrame | lib/payload_builder/src/payload_builder.cpp:89-91 | specifies `GetLastPayloadSize`: after any run of encoder calls, `get_last_payload_size` is the size of the last frame actually created (or the starting value), and the identity is unchanged |
| PayloadBuilder.FreshBuilderReportsZero | lib/payload_builder/src/payload_builder.h:49 | a fresh builder reports 0, and keeps reporting 0 exactly while every call has been an oversize custom text |
| BaseStation.GetMessage | src/base/main.cpp:52-59 | for index 1..10 the text is entry index-1 of the emergency table; it is the invalid-index text exactly for other indices |
| BaseStation.GetBaseMessage | src/base/main.cpp:63-70 | the same for the base-station table |
| BaseStation.MessageTextsIdentifyIndex | src/base/main.cpp:23-34 | different valid indices give different emergency texts, so the displayed text identifies the id |
| BaseStation.BaseMessageTextsIdentifyIndex | src/base/main.cpp:37-48 | different valid indices give different base-station texts |
| BaseStation.GetRssiStatus | src/base/main.cpp:73-78 | Excellent above -65 dBm, Good in (-75, -65], Fair in (-85, -75], Weak at -85 and below |
| BaseStation.BandNamesDistinct | src/base/main.cpp:73-78 | the four words `getRSSIStatus` returns are distinct, so the printed word identifies the band |
| BaseStation.RssiBandMonotone | src/base/main.cpp:73-78 | a weaker reading never gets a better band |
| BaseStation.TrimStart | src/base/main.cpp:188 | drops exactly the leading whitespace: the result is a suffix, what was dropped is whitespace, the result starts with a non-space |
| BaseStation.TrimEnd | src/base/main.cpp:188 | drops exactly the trailing whitespace |
| BaseStation.Trim | src/base/main.cpp:188 | the result has no whitespace at either end, and is empty exactly for all-whitespace input |
| BaseStation.TrimAround | src/base/main.cpp:188 | any whitespace around a trimmed text is removed and nothing else |
| BaseStation.TrimIdempotent | src/base/main.cpp:188 | a property of `String::trim`: trimming twice equals trimming once |
| BaseStation.ParseLine | src/base/main.cpp:187-200 | a blank line gives no command. A `C:`/`c:` line gives a custom command with trimmed text. Any other line gives a predefined command holding `toInt` of the trimmed line |
| BaseStation.ParseCustomLine | src/base/main.cpp:192-195 | any trimmed text after `C:` or `c:`, with any whitespace around it, parses back to that text |
| BaseStation.ParsePredefinedLine | src/base/main.cpp:196-200 | any other non-blank line parses to the integer of its trimmed content |
| BaseStation.InputCommands | src/base/main.cpp:184-208 | at most one command per line; no command at all exactly when every line is blank |
| BaseStation.InputCommandsOfLine | src/base/main.cpp:187-201 | one line queues nothing when blank and otherwise exactly the command `ParseLine` reads from it; with the append lemma this fixes the whole fold |
| BaseStation.InputCommandsAppend | src/base/main.cpp:201 | commands are queued in line order: two batches of lines give the first batch's commands, then the second's |
| BaseStation.PredefinedMsgId | src/base/main.cpp:221 | ids 1..256 become bytes 0..255, id 0 wraps to 255, and byte+1 agrees with the id modulo 256 |
| BaseStation.CString | src/base/main.cpp:228 | the text handed to the encoder is the prefix before the first NUL byte |
| BaseStation.Packet | src/base/main.cpp:219-229 | the packet for one command is empty exactly when it is a custom text whose part before the first NUL exceeds 86 bytes |
| BaseStation.TransmitStep | src/base/main.cpp:219-229 | the packet sent depends only on the configured ids, the command, its position and the date, never on the builder's size counter |
| BaseStation.TransmitCommands | src/base/main.cpp:214-243 | one packet per dequeued command, sent even when empty. The k-th command goes out as `Packet` with transmission id k mod 65536, and the next id is the command count mod 65536 |
| BaseStation.BasePacketsCarryBaseIdentity | src/base/main.cpp:215-239 | every non-empty packet the base station sends carries source 0x02 and destination 0x01, as configured in `setup` (base/main.cpp:270) |
| BaseStation.TransmittedFramesCarrySequence | src/base/main.cpp:215-239 | every non-empty transmitted packet classifies as its kind and carries the builder's ids and its sequence id |
| BaseStation.ReceivePacket | src/base/main.cpp:98-178 | unknown/checksum error exactly when the classifier's answer is not 1, 2 or 3. For a valid frame of each tag that holds its body, the event carries the decoded header and exactly the body bytes: bytes 12..15 and 16..19 for GPS; byte m at 12 shown as m+1 with `getMessage(m+1)`; the byte-11 count of text bytes after the header, cut at the first NUL as `c_str()` prints it. `Truncated` is answered exactly for a valid frame of tag 1, 2 or 3 that is too short for its body. The RSSI band always follows |
| BaseStation.ReceiveCreated | src/base/main.cpp:107-166 | every created frame is reported with the encoder's ids, transmission id, date bytes and body; a custom text is shown up to its first NUL |
| BaseStation.CustomTextAcrossLink | src/base/main.cpp:161 | a custom command text whose part before the first NUL fits the frame is shown at the receiver as exactly that part |
| BaseStation.PredefinedIdAcrossLink | src/base/main.cpp:141-143 | a predefined id 1..256 typed at one station is shown as the same id at the other; id 0 is shown as 256, the invalid text |
| BaseStation.CorruptedPacketRejected | src/base/main.cpp:164-166 | a valid frame damaged in any one byte is reported as unknown/checksum error |
| UserDevice.PressMode | src/user/main.cpp:87-96 | the row advances mod 3; column 0 is 1 on the new row and 0 on the other two; values and flags are unchanged |
| UserDevice.PressUp | src/user/main.cpp:98-106 | the selected value goes up mod 256 (255 wraps to 0); nothing else changes |
| UserDevice.PressDown | src/user/main.cpp:108-116 | the selected value goes down by one only when positive, and at 0 the state is unchanged; nothing else changes |
| UserDevice.PressOk | src/user/main.cpp:118-129 | sets the selected row's flag to `!flag`: 1 for 0, otherwise 0. On the send row with the flag clear, it queues exactly the row's value and clears the flag again. No value changes, and other rows are unchanged |
| UserDevice.Poll | src/user/main.cpp:84-133 | MODE moves the row first. The send row stays disarmed. An id is queued exactly when OK is pressed and the row after MODE is the send row, and at most one id is queued per poll |
| UserDevice.UpDownActsOnRow | src/user/main.cpp:98-116 | UP then DOWN change only the selected row's value: +1 mod 256, -1 above 0, both together the identity except 255 becomes 0 |
| UserDevice.PollActsOnSelectedRow | src/user/main.cpp:87-116 | in one poll, UP and DOWN act on the row MODE has just selected, in that order, and no other row's value changes |
| UserDevice.PollFlagsAndMarkers | src/user/main.cpp:87-129 | in one poll OK inverts the flag of the row MODE selected and no other flag; on the send row the flag is cleared again; without OK no flag changes; MODE puts the marker on the selected row only, and without MODE no marker changes |
| UserDevice.FlagsAndMarkersBeforeOk | src/user/main.cpp:87-116 | MODE, UP and DOWN change no flag; after MODE exactly the selected row carries the marker, and UP and DOWN move no marker |
| UserDevice.RunKeepsDisarmed | src/user/main.cpp:118-129 | the send row's flag stays 0 over any run of polls; a run of n polls queues at most n ids, each 0..255 |
| UserDevice.InitialDeviceIsDisarmed | src/user/main.cpp:30-31 | the initial state is all zeros with row 0 selected, so the invariant holds at start |
| UserDevice.ModeThenOkInOnePoll | src/user/main.cpp:87-129 | MODE and OK in one poll on the inbox row move to the send row first, then queue its value |
| UserDevice.UpThenDownRestores | src/user/main.cpp:98-116 | UP then DOWN leaves the state unchanged below 255; at 255 the value ends at 0 |
| UserDevice.RenderUI | src/user/main.cpp:145-153 | each row has its own screen: the screen shown gives back the selected row |
| UserDevice.ModeCyclesScreens | src/user/main.cpp:145-153 | the screen depends on the row alone; MODE walks Welcome, Inbox, Send and back |

## Left out

- Radio I/O is not modelled: `parsePacket`, `available`/`read`, `beginPacket`/`write`/`endPacket`
  and `packetRssi`. Received bytes and the RSSI reading are parameters; sent packets are returned.
- All `Serial` printing is left out. This includes the "Transmitted ..." lines, which are the only
  use of `getBaseMessage`'s result. Only the information a report carries is modelled, as `Event`.
- The FreeRTOS tasks, the command queues (capacity 10 and 5), the mutex, `vTaskDelay` and blocking
  are concurrency. The transmitter is a loop over the commands in dequeue order, the console task
  is a fold over lines, and the button task is a step function.
- `getCurrentDateTime`/`localtime` read the wall clock. The 6 date bytes are a parameter of each
  encoder call.
- Float semantics of longitude and latitude are not modelled. They are the 4 bytes copied in the machine's own order.
- `String::toInt` is a function parameter of `ParseLine`. `readStringUntil` and `Serial.available`
  are I/O, and a line is a parameter.
- PredefinedMsgId: uses unbounded integers for `id - 1`. It does not model the signed
  overflow at the smallest `int`, where the source's behaviour is undefined.
- GetBaseMessage: the same `index - 1` overflow at the smallest `int` happens in
  `getBaseMessage(cmd.predefinedID)`. The model uses unbounded integers there too, so any index
  outside 1..10 gives the invalid-index text.
- The command queue is modelled as carrying `Command` values intact. In the code, `xQueueSend`
  copies a `MessageCommand` bytewise, and that struct holds an Arduino `String` (base/main.cpp:201,
  272). The sender's copy is destroyed after the send, and the transmitter then reads
  `cmd.customText.c_str()` through the copied internals (base/main.cpp:228). Once the text lives
  in a heap buffer, that read is undefined behaviour. The model does not capture it.
- The decoders read past the end of short buffers, which is undefined behaviour.
  `DecodeGpsPayload`, `DecodePMsgPayload`, `DecodeCMsgPayload` and `GetPayloadDetails` instead
  require the length the source assumes. `ReceivePacket` answers `Truncated` for a frame with a
  valid checksum that is too short for its tag, where the source would read out of bounds.
- Debounce (`millis`), GPIO reads and the u8g2 drawing inside `renderInbox`, `renderSend` and
  `renderWelcome` are not modelled. Only the choice of screen is.
- The user device's `LoRaTask` is not modelled; it only prints ASCII text to the radio.
- `serial_monitor.py` (a host-side port scanner) and `lib/MyIoT` (a GPIO LED wrapper) are not part
  of this model.
