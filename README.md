# Fake lens: the lens side of the camera body/lens link

`fakelens.cpp` is firmware for a microcontroller that pretends to be an
interchangeable lens. The camera body clocks bytes over a half-duplex
serial data line. Each side drives its own acknowledgment line, and each
side waits on the other's. On top of one-byte transfers the lens runs two
framed transfers:

- **framed read** (`readBytesChecksum`): take in n bytes, pulsing the ack
  line after each byte but the last, then answer with their 8-bit sum;
- **framed write** (`writeBytesChecksum`): send a count, the payload, and
  the 8-bit sum of the payload, each byte after a wait on the body and an
  ack pulse.

`main` plays one fixed session after power-on:

1. wake-up handshake;
2. a 4-byte command and a lone zero byte;
3. a 4-byte command answered by the 5-byte capability reply;
4. a 4-byte command with no reply;
5. a reset of the serial hardware;
6. a 4-byte command answered by the 21-byte identity reply;
7. a 4-byte command answered by the first two identity bytes;
8. a final 4-byte command and an ack pulse.

The model is built around a protocol log. It has these parts:

- **Bytes** (`bytes.dfy`): the byte type, and the wrapping `uint8` checksum
  `Sum8` as the firmware accumulates it.
- **Trace** (`trace.dfy`): the events of the log:
  - an ack level driven;
  - a blocking wait on the body;
  - a byte received or sent;
  - a serial-hardware reset.

  It also has projections of a log: the bytes sent, the bytes received, the
  data-pin direction and the ack level.
- **Framing** (`framing.dfy`):
  - the wire image of a framed write (`Frame`);
  - a reference decoder of that packet format (`Unframe`): a count byte,
    that many payload bytes, and a trailer equal to their 8-bit sum;
  - the exact event order of each framed transfer (`ReadPacketTrace`,
    `WritePacketTrace`).
- **FakeLens** (`lens.dfy`): class `Lens`, whose fields are updated in place
  by the transport and framer methods:
  - ack level;
  - data-pin direction;
  - staged data register;
  - the queue of bytes the body will clock in;
  - the bytes sent;
  - the log.

  Each method states its exact new state against these specifications and
  keeps the log accounting for that state (`Valid`).
- **Session** (`session.dfy`): the steps of `main` as methods on a `Lens`;
  the session log `SessionTrace` and its bytes on the wire `SessionOutput`;
  the lemmas about the whole session. The fixed handshake logs `Wake`,
  `BeforeZero`, `Handoff` and `Farewell` are constants; the rows of
  `WakeUp`, `LeadToZero`, `DoFollow` and `Finish` describe them.

## Model

| member | source | states |
|---|---|---|
| Bytes.Sum8 | fakelens.cpp:102-111 | the uint8 checksum accumulator: starts at 0 and adds each byte in order, wrapping modulo 256 (its meaning is stated by Sum8IsSumMod256) |
| Bytes.Sum8IsSumMod256 | fakelens.cpp:102-105 | the wrapping uint8 accumulator equals the true sum of the bytes modulo 256 |
| Trace.SentAppend | fakelens.cpp:80-95 | the bytes sent by two logs in sequence are those of the first then those of the second |
| Trace.ReceivedAppend | fakelens.cpp:65-76 | the bytes received by two logs in sequence are those of the first then those of the second |
| Trace.QuietAppend | fakelens.cpp:106-107 | a stretch of log with only ack levels, waits and resets sends and receives nothing and leaves the data-pin direction unchanged |
| Trace.DirectionIsLatestTransfer | fakelens.cpp:65-95 | the data pin is an output exactly when some send is followed by no further transfer: a read switches it to input, a write to output, and nothing else touches it |
| Framing.Frame | fakelens.cpp:124-149 | the bytes a framed write puts on the wire: the count first, then the payload, then its 8-bit sum last |
| Framing.FrameRoundTrip | fakelens.cpp:124-149 | the reference decoder of the packet format gives back the payload from the wire image of a framed write |
| Framing.UnframeIsFrame | fakelens.cpp:124-149 | every image the reference decoder accepts is the frame of the payload it yields, with count below 256 |
| Framing.CorruptTrailerRefused | fakelens.cpp:144-148 | an image whose trailer is not the 8-bit sum of the payload is rejected by the reference decoder |
| Framing.ReadPacketTrace | fakelens.cpp:100-122 | the log of a framed read: it ends with the last byte received, the reply handshake, and the 8-bit sum sent as the final event |
| Framing.PulsedReads | fakelens.cpp:104-108 | the log of the read loop: each byte received, then ack low and ack high (its shape is stated by PulsedReadsAt and PulsedReadsTransfers) |
| Framing.PulsedReadsAt | fakelens.cpp:104-108 | in the read loop, byte k is received at event 3k and followed by ack low then ack high |
| Framing.PulsedReadsTransfers | fakelens.cpp:104-108 | the read loop receives exactly its bytes in order and sends nothing |
| Framing.ReadPacketShape | fakelens.cpp:100-122 | a framed read of any non-empty s, a single byte included, has 3\|s\|+3 events; each byte but the last is followed by an ack pulse; the last by ack low, a falling-edge wait, ack high, a level-high wait and the checksum |
| Framing.ReadPacketPrefix | fakelens.cpp:104-120 | everything of a framed read before the reply receives exactly s and sends nothing |
| Framing.ReadPacketTransfers | fakelens.cpp:100-122 | a framed read receives exactly s, sends exactly Sum8(s), and leaves the data pin an output |
| Framing.ReadReplyIsFrameTrailer | fakelens.cpp:100-149 | the answer to a framed read is the trailer a framed write of the same bytes would carry |
| Framing.WritePacketTrace | fakelens.cpp:124-149 | the log of a framed write: the count is sent as the fourth event, after a falling-edge wait and an ack pulse, and the 8-bit sum of the payload is the final event |
| Framing.PulsedWrites | fakelens.cpp:136-142 | the log of the write loop: for each payload byte a level-low wait, ack low, ack high, then the byte sent (its shape is stated by PulsedWritesAt and PulsedWritesTransfers) |
| Framing.PulsedWritesAt | fakelens.cpp:136-142 | payload byte k is sent at events 4k..4k+3, after a level-low wait and an ack pulse |
| Framing.PulsedWritesTransfers | fakelens.cpp:136-142 | the write loop sends exactly the payload in order and receives nothing |
| Framing.WritePacketShape | fakelens.cpp:124-149 | a framed write of v has 4(\|v\|+2) events; block k is a wait (falling edge for the count, level low otherwise), ack low, ack high, then byte k of Frame(v) |
| Framing.WritePacketTransfers | fakelens.cpp:124-149 | a framed write sends exactly Frame(v), receives nothing and leaves the data pin an output |
| Framing.ReadPacketExtends | fakelens.cpp:100-122 | a framed read appended to any log adds s to what was received and Sum8(s) to what was sent, and leaves the pin an output and the ack high |
| Framing.WritePacketExtends | fakelens.cpp:124-149 | a framed write appended to any log adds nothing received and Frame(v) sent, and leaves the pin an output and the ack high |
| FakeLens.ReadCount | fakelens.cpp:104 | readBytesChecksum(n) takes max(n - 1, 0) bytes in its loop, the bound computed in int, plus the final byte |
| FakeLens.Lens.constructor | fakelens.cpp:13-33 | after setup: data pin an input, ack low, data register 0, nothing transferred, the log accounts for the state |
| FakeLens.Lens.SetAck | fakelens.cpp:106 | the ack level is set and logged; nothing else changes |
| FakeLens.Lens.PulseAck | fakelens.cpp:106-107 | ack driven low then high; nothing else changes |
| FakeLens.Lens.WaitBody | fakelens.cpp:34-60 | a wait on the body is logged; no pin or register changes |
| FakeLens.Lens.WaitThenAck | fakelens.cpp:185-186 | a wait on the body, then the ack level driven and logged; nothing transferred |
| FakeLens.Lens.ResetSpi | fakelens.cpp:223-224 | the serial reset is logged; no pin, queue or output changes |
| FakeLens.Lens.ReadByte | fakelens.cpp:65-76 | takes the head of the body's queue; the data pin becomes an input and the data register 0; nothing is sent |
| FakeLens.Lens.WriteByte | fakelens.cpp:80-95 | appends the byte to the output; the data pin becomes an output and the data register is left at 0xFF |
| FakeLens.Lens.ReadBytesChecksum | fakelens.cpp:100-122 | takes the next ReadCount(n) queued bytes (one when n = 0), logs ReadPacketTrace of them, sends their 8-bit sum, leaves the pin an output and the ack high |
| FakeLens.Lens.ReadLast | fakelens.cpp:110-121 | the last byte taken from the queue, then the reply handshake and the running checksum plus that byte (mod 256) sent |
| FakeLens.Lens.HandshakeRead | fakelens.cpp:105-107 | one loop byte: receive, then ack low and high |
| FakeLens.Lens.Reply | fakelens.cpp:112-121 | ack low, falling-edge wait, ack high, level-high wait, checksum sent |
| FakeLens.Lens.WriteBytesChecksum | fakelens.cpp:125-149 | logs WritePacketTrace(values[..n]) and sends exactly Frame(values[..n]); the queue is untouched |
| FakeLens.Lens.HandshakeWrite | fakelens.cpp:130-140 | wait on the body, ack pulse, byte sent |
| FakeLens.EventKeepsAccounts | fakelens.cpp:34-60 | logging an ack level, a wait or a reset keeps the log accounting for the lens state, with the new ack level when one is driven |
| FakeLens.RecvKeepsAccounts | fakelens.cpp:65-76 | receiving the head of the queue keeps the log accounting for the shorter queue, the pin an input |
| FakeLens.SendKeepsAccounts | fakelens.cpp:80-95 | sending a byte keeps the log accounting for the longer output, the pin an output |
| Session.WakeUp | fakelens.cpp:166-181 | power-on wait, level-high wait, ack high then low, rising-edge wait, ack high; nothing transferred |
| Session.DoFollow | fakelens.cpp:185-188 | wait, ack low, wait, ack high; nothing transferred |
| Session.Greeting | fakelens.cpp:183-202 | first command and its checksum, the handshakes around the lone zero, and the zero itself; the data register is left at 0xFF |
| Session.LeadToZero | fakelens.cpp:185-195 | the two handshakes before the lone zero; nothing transferred, the pin and the data register unchanged |
| Session.Exchange | fakelens.cpp:204-212 | a command, its checksum, Frame(values[..n]), then the low/high handoff; the data register is left at 0xFF |
| Session.Poll | fakelens.cpp:214-219 | a command, its checksum, then the handoff, with no reply |
| Session.Finish | fakelens.cpp:252-257 | the last command, its checksum, a level-low wait and ack low then high |
| Session.Run | fakelens.cpp:161-257 | main consumes exactly 24 command bytes, logs SessionTrace of them, sends SessionOutput, and keeps the log accounting for the lens state |
| Session.GreetingTrace | fakelens.cpp:183-202 | the log of the first step: the framed read of the first command, the handshakes before the zero, the zero sent, and the low/rise handoff |
| Session.ExchangeTrace | fakelens.cpp:204-212 | the log of a command answered by a framed reply: the framed read, the framed write of the reply, then the low/high handoff |
| Session.PollTrace | fakelens.cpp:214-219 | the log of the command at line 214: the framed read, then the low/high handoff, with no framed reply |
| Session.FinishTrace | fakelens.cpp:252-257 | the log of the last step: the framed read, a level-low wait, then ack low and ack high |
| Session.SessionTrace | fakelens.cpp:166-257 | the whole session log, given the 24 command bytes; it starts with the wait for power-on |
| Session.SessionOutput | fakelens.cpp:166-257 | the bytes the lens sends over the session: 41 of them, starting with the first checksum and the lone zero and ending with the last checksum |
| Session.StepsBeforeReset | fakelens.cpp:166-219 | the steps before the reset receive the first 12 command bytes and send their answers, the zero and the capability frame |
| Session.StepsFromReset | fakelens.cpp:221-257 | the reset and the steps after it receive the last 12 command bytes and send their answers and both identity frames |
| Session.TwoExchanges | fakelens.cpp:225-250 | the two exchanges after the reset receive both commands and send their checksums and both frames, in order |
| Session.StepsExtend | fakelens.cpp:166-257 | the session steps, appended to any log, receive each command and send each answer in order and leave the pin an output and the ack high |
| Session.SessionExtends | fakelens.cpp:166-257 | a session appended to any log receives exactly the 24 command bytes and sends exactly SessionOutput |
| Session.SessionSent | fakelens.cpp:166-257 | everything the session sends is SessionOutput |
| Session.SessionReceived | fakelens.cpp:166-257 | the session takes in exactly the 24 command bytes, in order, and nothing else |
| Session.CapabilityWire | fakelens.cpp:206-207 | the capability reply goes out as 05 00 0a 10 c4 09 e7 |
| Session.TruncatedIdentityWire | fakelens.cpp:245 | the truncated identity reply goes out as 02 00 00 00 |
| Session.IdentityChecksum | fakelens.cpp:232-235 | the 8-bit sum of the 21-byte identity reply is 0x1c |
| Session.SessionWire | fakelens.cpp:183-252 | the session's bytes on the wire with the fixed replies spelled out: each command's checksum, the zero, the capability frame, the 21-byte identity frame with its trailer 1c, and the two-byte frame |
| Session.SessionEnd | fakelens.cpp:252-257 | the session log ends with the last checksum, a level-low wait, ack low and ack high: nothing is sent or driven after the final ack |
| Session.PulsedReadsNoReset | fakelens.cpp:104-108 | the read loop never resets the serial hardware |
| Session.PulsedWritesNoReset | fakelens.cpp:136-142 | the write loop never resets the serial hardware |
| Session.StepsNoReset | fakelens.cpp:166-257 | no step but the reset touches the serial hardware; the greeting has 28 events, a poll 19, an exchange 15 + 4(\|reply\|+2) + 4 |
| Session.SessionResetOnce | fakelens.cpp:221-225 | the serial hardware is reset exactly once, at event 100, after the first 12 command bytes and immediately before the first byte of the fourth command |
| Session.BeforeResetReceived | fakelens.cpp:166-219 | the steps before the reset receive exactly the first 12 command bytes |

## Left out

- Pin and serial-port setup: the SPCR bit layout, the serial console and the
  pin modes. The constructor stands for the state setup leaves: data pin an
  input, ack line assumed low.
- `delay` and `delayMicroseconds`: timing is not modelled.
- The busy-wait loops on the body line, on the sleep line and on the
  serial-transfer-complete flag each become one abstract event (`Wait`,
  or the byte transfer itself). A body that never responds hangs the
  firmware. The model instead requires the body's queue to hold the bytes
  the reads will take (`ReadBytesChecksum`, `Run`).
- `standbyPacket` is never called (its only use is commented out) and is
  not modelled.
- The `while(1)` idle loop after the session does nothing and is not
  modelled. `SessionEnd` states that nothing follows the final ack pulse.
- Checksum verification on read: the firmware never checks what the body
  sends, so the model does not either.
- What the body checks: the body's firmware is not part of this model.
  `Unframe` is a reference decoder of the packet format, not the body's
  own check.
- The bit order on the wire (LSB first) and the clock polarity are
  properties of the serial hardware configuration and are not modelled.
  Bytes are whole values.
- The initial value of the serial data register is taken as 0. The
  firmware never reads it before `readByte` overwrites it.

Behaviour of the code the model keeps:

- After a write the data pin stays an output until the next `readByte`
  sets it to input (lines 67, 87).
- `main` reads no single-byte command; after the first 4-byte read it
  writes the lone byte 0x00 (line 197).
- The third 4-byte command (line 214) gets no framed reply.
- `readBytesChecksum(0)` still reads one byte. Its loop bound `nBytes - 1`
  is computed in `int`, so the loop is skipped; see `ReadCount`.
