/** The one scripted session the lens plays after power-on: six 4-byte
    commands from the body, each answered with its checksum, interleaved
    with a lone zero byte, three framed replies and the ack-line handoffs
    between them. */
module Session {
  import opened Bytes
  import opened Trace
  import opened Framing
  import opened FakeLens

  /** The five-byte reply that follows the second command. */
  const Capability: seq<Byte> := [0x00, 0x0a, 0x10, 0xc4, 0x09]

  /** The 21-byte reply that follows the fourth command; the reply to the
      fifth command sends only its first two bytes. */
  const Identity: seq<Byte> :=
    [0x00, 0x00, 0x00, 0x01, 0x10, 0x00, 0x00, 0x41,
     0x41, 0x41, 0x32, 0x34, 0x33, 0x38, 0x34, 0x31,
     0x00, 0x00, 0x00, 0x01, 0x11]

  /** Power-on: wait for the sleep line and for the body line to read high,
      pulse the ack line high then low, wait for the body line to rise, and
      raise the ack line. */
  const Wake: seq<Event> :=
    [Wait(PowerOn), Wait(High), Ack(true), Ack(false), Wait(Rise), Ack(true)]

  /** Wait for the body line to do `down`, drop the ack line, wait for the
      body line to do `up`, raise the ack line. */
  function Follow(down: WaitKind, up: WaitKind): seq<Event>
  {
    [Wait(down), Ack(false), Wait(up), Ack(true)]
  }

  /** After the first command: follow the body down and up, then drop the
      ack line, wait for the body line to read low, raise the ack line and
      wait for the body line to rise before the lone zero byte. */
  const BeforeZero: seq<Event> :=
    Follow(Fall, Rise) + [Ack(false), Wait(Low), Ack(true), Wait(Rise)]

  /** Between the later packets: the body line reads low, the ack line
      drops, the body line reads high, the ack line rises. */
  const Handoff: seq<Event> := Follow(Low, High)

  /** After the last command: the body line reads low and the ack line is
      pulsed low then high; nothing follows. */
  const Farewell: seq<Event> := [Wait(Low), Ack(false), Ack(true)]

  /** The first command, its answer, and the lone zero byte. */
  function GreetingTrace(c: seq<Byte>): seq<Event>
    requires |c| == 4
  {
    ReadPacketTrace(c) + BeforeZero + [Send(0)] + Follow(Low, Rise)
  }

  /** A command answered by its checksum, then a framed reply, then a
      handoff. */
  function ExchangeTrace(c: seq<Byte>, reply: seq<Byte>): seq<Event>
    requires |c| == 4 && |reply| < 256
  {
    ReadPacketTrace(c) + WritePacketTrace(reply) + Handoff
  }

  /** A command answered by its checksum, then a handoff. */
  function PollTrace(c: seq<Byte>): seq<Event>
    requires |c| == 4
  {
    ReadPacketTrace(c) + Handoff
  }

  /** The last command, its answer, and the final ack pulse. */
  function FinishTrace(c: seq<Byte>): seq<Event>
    requires |c| == 4
  {
    ReadPacketTrace(c) + Farewell
  }

  /** The whole session log, given the 24 command bytes the body sends. The
      replies are the prefixes of the two tables that main passes to the
      framed writes. */
  function SessionTrace(w: seq<Byte>): (r: seq<Event>)
    requires |w| == 24
    ensures |r| > 0 && r[0] == Wait(PowerOn)
  {
    Wake + GreetingTrace(w[0..4]) + ExchangeTrace(w[4..8], Capability[..5])
    + PollTrace(w[8..12]) + [SpiReset] + ExchangeTrace(w[12..16], Identity[..21])
    + ExchangeTrace(w[16..20], Identity[..2]) + FinishTrace(w[20..24])
  }

  /** The bytes the lens sends over the session: the checksum of each
      command, the lone zero after the first, and the framed replies after
      the second, fourth and fifth. */
  function SessionOutput(w: seq<Byte>): (r: seq<Byte>)
    requires |w| == 24
    ensures |r| == 41 && r[0] == Sum8(w[0..4]) && r[1] == 0 && r[40] == Sum8(w[20..24])
  {
    [Sum8(w[0..4]), 0] + ([Sum8(w[4..8])] + Frame(Capability[..5]))
    + [Sum8(w[8..12])] + ([Sum8(w[12..16])] + Frame(Identity[..21]))
    + ([Sum8(w[16..20])] + Frame(Identity[..2])) + [Sum8(w[20..24])]
  }

  // The steps of main, as the lens drives them

  /** Power-on: the log grows by Wake and nothing is transferred. */
  method WakeUp(lens: Lens)
    requires lens.Valid()
    modifies lens
    ensures lens.Valid()
    ensures lens.events == old(lens.events) + Wake
    ensures lens.input == old(lens.input) && lens.output == old(lens.output)
    ensures lens.dir == old(lens.dir) && lens.ack && lens.staged == old(lens.staged)
  {
    lens.WaitBody(PowerOn);
    lens.WaitThenAck(High, true);
    lens.SetAck(false);
    lens.WaitThenAck(Rise, true);
  }

  /** One Follow handshake on the ack lines. */
  method DoFollow(lens: Lens, down: WaitKind, up: WaitKind)
    requires lens.Valid()
    modifies lens
    ensures lens.Valid()
    ensures lens.events == old(lens.events) + Follow(down, up)
    ensures lens.input == old(lens.input) && lens.output == old(lens.output)
    ensures lens.dir == old(lens.dir) && lens.ack && lens.staged == old(lens.staged)
  {
    lens.WaitThenAck(down, false);
    lens.WaitThenAck(up, true);
  }

  /** The first command, the handshakes around the lone zero byte, and the
      zero itself. */
  method Greeting(lens: Lens)
    requires lens.Valid() && |lens.input| >= 4
    modifies lens
    ensures lens.Valid()
    ensures lens.input == old(lens.input[4..])
    ensures lens.events == old(lens.events) + GreetingTrace(old(lens.input[..4]))
    ensures lens.output == old(lens.output) + [Sum8(old(lens.input[..4])), 0]
    ensures lens.dir == Output && lens.ack && lens.staged == 0xFF
  {
    lens.ReadBytesChecksum(4);
    LeadToZero(lens);
    lens.WriteByte(0x00);
    DoFollow(lens, Low, Rise);
  }

  /** The handshakes between the first command's answer and the lone zero
      byte. */
  method LeadToZero(lens: Lens)
    requires lens.Valid()
    modifies lens
    ensures lens.Valid()
    ensures lens.events == old(lens.events) + BeforeZero
    ensures lens.input == old(lens.input) && lens.output == old(lens.output)
    ensures lens.dir == old(lens.dir) && lens.ack && lens.staged == old(lens.staged)
  {
    ghost var e1 := lens.events;
    DoFollow(lens, Fall, Rise);
    ghost var e2 := lens.events;
    lens.SetAck(false);
    lens.WaitThenAck(Low, true);
    lens.WaitBody(Rise);
    assert lens.events == e2 + [Ack(false), Wait(Low), Ack(true), Wait(Rise)];
    Regroup2(e1, Follow(Fall, Rise), [Ack(false), Wait(Low), Ack(true), Wait(Rise)]);
  }

  /** A 4-byte command, then a framed write of values[..n], then a
      handoff. */
  method Exchange(lens: Lens, n: Byte, values: seq<Byte>)
    requires lens.Valid() && |lens.input| >= 4 && n <= |values|
    modifies lens
    ensures lens.Valid()
    ensures lens.input == old(lens.input[4..])
    ensures lens.events == old(lens.events) + ExchangeTrace(old(lens.input[..4]), values[..n])
    ensures lens.output == old(lens.output) + [Sum8(old(lens.input[..4]))] + Frame(values[..n])
    ensures lens.dir == Output && lens.ack && lens.staged == 0xFF
  {
    lens.ReadBytesChecksum(4);
    lens.WriteBytesChecksum(n, values);
    DoFollow(lens, Low, High);
  }

  /** A 4-byte command answered by its checksum only, then a handoff. */
  method Poll(lens: Lens)
    requires lens.Valid() && |lens.input| >= 4
    modifies lens
    ensures lens.Valid()
    ensures lens.input == old(lens.input[4..])
    ensures lens.events == old(lens.events) + PollTrace(old(lens.input[..4]))
    ensures lens.output == old(lens.output) + [Sum8(old(lens.input[..4]))]
    ensures lens.dir == Output && lens.ack && lens.staged == 0xFF
  {
    lens.ReadBytesChecksum(4);
    DoFollow(lens, Low, High);
  }

  /** The last command and the closing ack pulse. */
  method Finish(lens: Lens)
    requires lens.Valid() && |lens.input| >= 4
    modifies lens
    ensures lens.Valid()
    ensures lens.input == old(lens.input[4..])
    ensures lens.events == old(lens.events) + FinishTrace(old(lens.input[..4]))
    ensures lens.output == old(lens.output) + [Sum8(old(lens.input[..4]))]
    ensures lens.dir == Output && lens.ack && lens.staged == 0xFF
  {
    lens.ReadBytesChecksum(4);
    ghost var e1 := lens.events;
    lens.WaitThenAck(Low, false);
    lens.SetAck(true);
    assert lens.events == e1 + Farewell;
  }

  /** main, from power-on to the final ack pulse, on a lens whose log
      accounts for its state and whose body has the 24 command bytes to
      send. */
  method Run(lens: Lens)
    requires lens.Valid() && |lens.input| >= 24
    modifies lens
    ensures lens.Valid()
    ensures lens.input == old(lens.input[24..])
    ensures lens.events == old(lens.events) + SessionTrace(old(lens.input[..24]))
    ensures lens.output == old(lens.output) + SessionOutput(old(lens.input[..24]))
    ensures lens.dir == Output && lens.ack && lens.staged == 0xFF
  {
    ghost var in0, e0, o0 := lens.input, lens.events, lens.output;
    WakeUp(lens);
    Greeting(lens);
    Exchange(lens, 5, Capability);
    Poll(lens);
    lens.ResetSpi();
    Exchange(lens, 21, Identity);
    Exchange(lens, 2, Identity);
    Finish(lens);
    Windows(in0);
    SessionSteps(e0, in0[..24]);
    SessionStepsOutput(o0, in0[..24]);
  }

  // Putting the steps together

  /** The six 4-byte commands, as each step finds them at the head of the
      remaining input. */
  lemma Windows(s: seq<Byte>)
    requires |s| >= 24
    ensures s[..4] == s[..24][0..4] && s[4..][..4] == s[..24][4..8]
    ensures s[4..][4..][..4] == s[..24][8..12]
    ensures s[4..][4..][4..][..4] == s[..24][12..16]
    ensures s[4..][4..][4..][4..][..4] == s[..24][16..20]
    ensures s[4..][4..][4..][4..][4..][..4] == s[..24][20..24]
    ensures s[4..][4..][4..][4..][4..][4..] == s[24..]
  {
  }

  /** The logs of the steps, one after another, make up SessionTrace. */
  lemma SessionSteps(e: seq<Event>, w: seq<Byte>)
    requires |w| == 24
    ensures e + Wake + GreetingTrace(w[0..4]) + ExchangeTrace(w[4..8], Capability[..5])
              + PollTrace(w[8..12]) + [SpiReset] + ExchangeTrace(w[12..16], Identity[..21])
              + ExchangeTrace(w[16..20], Identity[..2]) + FinishTrace(w[20..24])
         == e + SessionTrace(w)
  {
    Regroup8(e, Wake, GreetingTrace(w[0..4]), ExchangeTrace(w[4..8], Capability[..5]),
      PollTrace(w[8..12]), [SpiReset], ExchangeTrace(w[12..16], Identity[..21]),
      ExchangeTrace(w[16..20], Identity[..2]), FinishTrace(w[20..24]));
  }

  /** The bytes the steps send, one after another, make up SessionOutput. */
  lemma SessionStepsOutput(o: seq<Byte>, w: seq<Byte>)
    requires |w| == 24
    ensures o + [Sum8(w[0..4]), 0] + [Sum8(w[4..8])] + Frame(Capability[..5])
              + [Sum8(w[8..12])] + [Sum8(w[12..16])] + Frame(Identity[..21])
              + [Sum8(w[16..20])] + Frame(Identity[..2]) + [Sum8(w[20..24])]
         == o + SessionOutput(w)
  {
    Regroup6(o, [Sum8(w[0..4]), 0], [Sum8(w[4..8])] + Frame(Capability[..5]),
      [Sum8(w[8..12])], [Sum8(w[12..16])] + Frame(Identity[..21]),
      [Sum8(w[16..20])] + Frame(Identity[..2]), [Sum8(w[20..24])]);
  }

  /** main passes the capability and identity replies whole. */
  lemma FullReplies()
    ensures Capability[..5] == Capability && Identity[..21] == Identity
  {
  }

  // What each step adds to a log

  lemma HandshakesQuiet()
    ensures Quiet(Wake) && Quiet(BeforeZero) && Quiet(Farewell)
    ensures forall down, up :: Quiet(Follow(down, up))
  {
  }

  lemma GreetingExtends(e: seq<Event>, c: seq<Byte>)
    requires |c| == 4
    ensures Received(e + GreetingTrace(c)) == Received(e) + c
    ensures Sent(e + GreetingTrace(c)) == Sent(e) + [Sum8(c), 0]
  {
    var r := e + ReadPacketTrace(c);
    Regroup3(e, ReadPacketTrace(c), BeforeZero + [Send(0)], Follow(Low, Rise));
    assert e + GreetingTrace(c) == r + BeforeZero + [Send(0)] + Follow(Low, Rise);
    ReadPacketExtends(e, c);
    HandshakesQuiet();
    QuietAppend(r, BeforeZero);
    Snoc(r + BeforeZero, Send(0));
    QuietAppend(r + BeforeZero + [Send(0)], Follow(Low, Rise));
  }

  lemma ExchangeExtends(e: seq<Event>, c: seq<Byte>, reply: seq<Byte>)
    requires |c| == 4 && |reply| < 256
    ensures Received(e + ExchangeTrace(c, reply)) == Received(e) + c
    ensures Sent(e + ExchangeTrace(c, reply)) == Sent(e) + [Sum8(c)] + Frame(reply)
  {
    var r := e + ReadPacketTrace(c);
    Regroup3(e, ReadPacketTrace(c), WritePacketTrace(reply), Handoff);
    ReadPacketExtends(e, c);
    WritePacketExtends(r, reply);
    HandshakesQuiet();
    QuietAppend(r + WritePacketTrace(reply), Handoff);
  }

  lemma PollExtends(e: seq<Event>, c: seq<Byte>)
    requires |c| == 4
    ensures Received(e + PollTrace(c)) == Received(e) + c
    ensures Sent(e + PollTrace(c)) == Sent(e) + [Sum8(c)]
  {
    assert e + PollTrace(c) == e + ReadPacketTrace(c) + Handoff;
    ReadPacketExtends(e, c);
    HandshakesQuiet();
    QuietAppend(e + ReadPacketTrace(c), Handoff);
  }

  lemma FinishExtends(e: seq<Event>, c: seq<Byte>)
    requires |c| == 4
    ensures Received(e + FinishTrace(c)) == Received(e) + c
    ensures Sent(e + FinishTrace(c)) == Sent(e) + [Sum8(c)]
    ensures DirectionAfter(e + FinishTrace(c)) == Output
    ensures AckAfter(e + FinishTrace(c))
  {
    var t := e + FinishTrace(c);
    assert t == e + ReadPacketTrace(c) + Farewell;
    ReadPacketExtends(e, c);
    HandshakesQuiet();
    QuietAppend(e + ReadPacketTrace(c), Farewell);
    assert t[|t| - 1] == Ack(true);
  }

  /** The steps before the reset, appended to any log `e`, receive the
      first three commands and send their answers and the capability reply. */
  lemma {:induction false} StepsBeforeReset(e: seq<Event>, w: seq<Byte>)
    requires |w| == 24
    ensures var t := e + Wake + GreetingTrace(w[0..4]) + ExchangeTrace(w[4..8], Capability[..5])
              + PollTrace(w[8..12]);
      && Received(t) == Received(e) + w[0..4] + w[4..8] + w[8..12]
      && Sent(t) == Sent(e) + [Sum8(w[0..4]), 0] + [Sum8(w[4..8])] + Frame(Capability[..5])
              + [Sum8(w[8..12])]
  {
    var p0 := e + Wake;
    HandshakesQuiet();
    QuietAppend(e, Wake);
    var p1 := p0 + GreetingTrace(w[0..4]);
    GreetingExtends(p0, w[0..4]);
    var p2 := p1 + ExchangeTrace(w[4..8], Capability[..5]);
    ExchangeExtends(p1, w[4..8], Capability[..5]);
    PollExtends(p2, w[8..12]);
  }

  /** The reset and the steps after it, appended to any log `e`, receive the
      last three commands and send their answers and both identity replies,
      leaving the data pin an output and the ack line high. */
  lemma {:induction false} StepsFromReset(e: seq<Event>, w: seq<Byte>)
    requires |w| == 24
    ensures var t := e + [SpiReset] + ExchangeTrace(w[12..16], Identity[..21])
              + ExchangeTrace(w[16..20], Identity[..2]) + FinishTrace(w[20..24]);
      && Received(t) == Received(e) + w[12..16] + w[16..20] + w[20..24]
      && Sent(t) == Sent(e) + [Sum8(w[12..16])] + Frame(Identity[..21])
              + [Sum8(w[16..20])] + Frame(Identity[..2]) + [Sum8(w[20..24])]
      && DirectionAfter(t) == Output && AckAfter(t)
  {
    var p4 := e + [SpiReset];
    assert Quiet([SpiReset]);
    QuietAppend(e, [SpiReset]);
    TwoExchanges(p4, w[12..16], Identity[..21], w[16..20], Identity[..2]);
    FinishExtends(p4 + ExchangeTrace(w[12..16], Identity[..21])
      + ExchangeTrace(w[16..20], Identity[..2]), w[20..24]);
  }

  /** Two exchanges in a row receive both commands and send both answers,
      each followed by its framed reply. */
  lemma TwoExchanges(e: seq<Event>, c1: seq<Byte>, r1: seq<Byte>, c2: seq<Byte>, r2: seq<Byte>)
    requires |c1| == 4 && |r1| < 256 && |c2| == 4 && |r2| < 256
    ensures var t := e + ExchangeTrace(c1, r1) + ExchangeTrace(c2, r2);
      && Received(t) == Received(e) + c1 + c2
      && Sent(t) == Sent(e) + [Sum8(c1)] + Frame(r1) + [Sum8(c2)] + Frame(r2)
  {
    ExchangeExtends(e, c1, r1);
    ExchangeExtends(e + ExchangeTrace(c1, r1), c2, r2);
  }

  /** The log of the session steps, built up one step at a time on top of
      any log `e`, receives each command and sends each answer and reply. */
  lemma StepsExtend(e: seq<Event>, w: seq<Byte>)
    requires |w| == 24
    ensures var t := e + Wake + GreetingTrace(w[0..4]) + ExchangeTrace(w[4..8], Capability[..5])
              + PollTrace(w[8..12]) + [SpiReset] + ExchangeTrace(w[12..16], Identity[..21])
              + ExchangeTrace(w[16..20], Identity[..2]) + FinishTrace(w[20..24]);
      && Received(t) == Received(e) + w[0..4] + w[4..8] + w[8..12] + w[12..16]
                        + w[16..20] + w[20..24]
      && Sent(t) == Sent(e) + [Sum8(w[0..4]), 0] + [Sum8(w[4..8])] + Frame(Capability[..5])
              + [Sum8(w[8..12])] + [Sum8(w[12..16])] + Frame(Identity[..21])
              + [Sum8(w[16..20])] + Frame(Identity[..2]) + [Sum8(w[20..24])]
      && DirectionAfter(t) == Output && AckAfter(t)
  {
    StepsBeforeReset(e, w);
    StepsFromReset(e + Wake + GreetingTrace(w[0..4]) + ExchangeTrace(w[4..8], Capability[..5])
      + PollTrace(w[8..12]), w);
  }

  /** A whole session appended to any log adds exactly the 24 command bytes
      to what was received and SessionOutput to what was sent, and leaves
      the data pin an output and the ack line high. */
  lemma SessionExtends(e: seq<Event>, w: seq<Byte>)
    requires |w| == 24
    ensures Received(e + SessionTrace(w)) == Received(e) + w
    ensures Sent(e + SessionTrace(w)) == Sent(e) + SessionOutput(w)
    ensures DirectionAfter(e + SessionTrace(w)) == Output
    ensures AckAfter(e + SessionTrace(w))
  {
    StepsExtend(e, w);
    SessionSteps(e, w);
    SessionStepsOutput(Sent(e), w);
    Commands(Received(e), w);
  }

  /** The six commands, one after another, are the 24 bytes. */
  lemma Commands(r: seq<Byte>, w: seq<Byte>)
    requires |w| == 24
    ensures r + w[0..4] + w[4..8] + w[8..12] + w[12..16] + w[16..20] + w[20..24] == r + w
  {
    assert w == w[0..4] + w[4..8] + w[8..12] + w[12..16] + w[16..20] + w[20..24];
    Regroup6(r, w[0..4], w[4..8], w[8..12], w[12..16], w[16..20], w[20..24]);
  }

  // What the session promises

  /** Everything the session sends is SessionOutput. */
  lemma SessionSent(w: seq<Byte>)
    requires |w| == 24
    ensures Sent(SessionTrace(w)) == SessionOutput(w)
  {
    SessionExtends([], w);
    EmptyPrefix(SessionTrace(w));
    EmptyPrefix(SessionOutput(w));
  }

  /** The session takes in exactly the 24 command bytes, in order. */
  lemma SessionReceived(w: seq<Byte>)
    requires |w| == 24
    ensures Received(SessionTrace(w)) == w
  {
    SessionExtends([], w);
    EmptyPrefix(SessionTrace(w));
    EmptyPrefix(SessionOutput(w));
  }

  /** The capability reply goes out as 05 00 0a 10 c4 09 e7. */
  lemma CapabilityWire()
    ensures Frame(Capability[..5]) == [0x05, 0x00, 0x0a, 0x10, 0xc4, 0x09, 0xe7]
  {
    FullReplies();
    Sum8IsSumMod256(Capability);
  }

  /** The truncated identity reply goes out as 02 00 00 00. */
  lemma TruncatedIdentityWire()
    ensures Frame(Identity[..2]) == [0x02, 0x00, 0x00, 0x00]
  {
    assert Identity[..2] == [0x00, 0x00];
    Sum8IsSumMod256([0x00, 0x00]);
  }

  /** The first seven identity bytes add up to 17. */
  lemma IdentitySumTo7()
    ensures Sum(Identity[..7]) == 17
  {
    PrefixSums(Identity);
    assert Sum(Identity[..1]) == 0;
    assert Sum(Identity[..2]) == 0;
    assert Sum(Identity[..3]) == 0;
    assert Sum(Identity[..4]) == 1;
    assert Sum(Identity[..5]) == 17;
    assert Sum(Identity[..6]) == 17;
    assert Sum(Identity[..7]) == 17;
  }

  /** The first fourteen identity bytes add up to 421. */
  lemma IdentitySumTo14()
    ensures Sum(Identity[..14]) == 421
  {
    IdentitySumTo7();
    PrefixSums(Identity);
    assert Sum(Identity[..8]) == 82;
    assert Sum(Identity[..9]) == 147;
    assert Sum(Identity[..10]) == 212;
    assert Sum(Identity[..11]) == 262;
    assert Sum(Identity[..12]) == 314;
    assert Sum(Identity[..13]) == 365;
    assert Sum(Identity[..14]) == 421;
  }

  /** All 21 identity bytes add up to 540. */
  lemma IdentitySum()
    ensures Sum(Identity[..21]) == 540
  {
    IdentitySumTo14();
    PrefixSums(Identity);
    assert Sum(Identity[..15]) == 473;
    assert Sum(Identity[..16]) == 522;
    assert Sum(Identity[..17]) == 522;
    assert Sum(Identity[..18]) == 522;
    assert Sum(Identity[..19]) == 522;
    assert Sum(Identity[..20]) == 523;
    assert Sum(Identity[..21]) == 540;
  }

  /** The identity reply's trailer is 1c: 540 modulo 256. */
  lemma IdentityChecksum()
    ensures Sum8(Identity[..21]) == 0x1c
  {
    IdentitySum();
    Sum8IsSumMod256(Identity[..21]);
  }

  /** The session's bytes on the wire, with the fixed replies spelled out. */
  lemma SessionWire(w: seq<Byte>)
    requires |w| == 24
    ensures SessionOutput(w) ==
      [Sum8(w[0..4]), 0, Sum8(w[4..8]), 0x05, 0x00, 0x0a, 0x10, 0xc4, 0x09, 0xe7,
       Sum8(w[8..12]), Sum8(w[12..16]), 21] + Identity
      + [0x1c, Sum8(w[16..20]), 0x02, 0x00, 0x00, 0x00, Sum8(w[20..24])]
  {
    IdentityChecksum();
    FullReplies();
    CapabilityWire();
    TruncatedIdentityWire();
  }

  /** Nothing is sent or driven after the final ack pulse: the session log
      ends with the last checksum, a level-low wait and the ack pulsed low
      then high. */
  lemma SessionEnd(w: seq<Byte>)
    requires |w| == 24
    ensures |SessionTrace(w)| >= 4
    ensures SessionTrace(w)[|SessionTrace(w)| - 4..] ==
      [Send(Sum8(w[20..24])), Wait(Low), Ack(false), Ack(true)]
  {
    var c := w[20..24];
    ReadPacketShape(c, 0);
    var r := ReadPacketTrace(c);
    var t := SessionTrace(w);
    var x := Wake + GreetingTrace(w[0..4]) + ExchangeTrace(w[4..8], Capability[..5])
      + PollTrace(w[8..12]) + [SpiReset] + ExchangeTrace(w[12..16], Identity[..21])
      + ExchangeTrace(w[16..20], Identity[..2]);
    Regroup2(x, r, Farewell);
    assert t == x + r + Farewell;
    assert r[|r| - 1] == Send(Sum8(c));
  }

  // The clock reset

  lemma {:induction false} PulsedReadsNoReset(s: seq<Byte>)
    ensures SpiReset !in PulsedReads(s)
  {
    if s != [] {
      PulsedReadsNoReset(s[..|s| - 1]);
    }
  }

  lemma {:induction false} PulsedWritesNoReset(v: seq<Byte>)
    ensures SpiReset !in PulsedWrites(v)
  {
    if v != [] {
      PulsedWritesNoReset(v[..|v| - 1]);
    }
  }

  /** No step other than the reset itself touches the serial hardware; the
      lengths of the steps before the reset add up to 100 events. */
  lemma StepsNoReset(c: seq<Byte>, reply: seq<Byte>)
    requires |c| == 4 && |reply| < 256
    ensures SpiReset !in Wake && SpiReset !in GreetingTrace(c)
    ensures SpiReset !in ExchangeTrace(c, reply) && SpiReset !in PollTrace(c)
    ensures SpiReset !in FinishTrace(c)
    ensures |GreetingTrace(c)| == 28 && |PollTrace(c)| == 19
    ensures |ExchangeTrace(c, reply)| == 15 + 4 * (|reply| + 2) + 4
  {
    PulsedReadsNoReset(c[..3]);
    PulsedWritesNoReset(reply);
    ReadPacketShape(c, 0);
    WritePacketShape(reply, 0);
  }

  /** The session resets the serial hardware exactly once: after the first
      three commands (event 100 of the log) and immediately before the first
      byte of the fourth. */
  lemma SessionResetOnce(w: seq<Byte>)
    requires |w| == 24
    ensures |SessionTrace(w)| > 101
    ensures SessionTrace(w)[100] == SpiReset
    ensures SessionTrace(w)[101] == Recv(w[12])
    ensures Received(SessionTrace(w)[..100]) == w[..12]
    ensures forall j :: 0 <= j < |SessionTrace(w)| && j != 100 ==> SessionTrace(w)[j] != SpiReset
  {
    var a := Wake + GreetingTrace(w[0..4]) + ExchangeTrace(w[4..8], Capability[..5])
      + PollTrace(w[8..12]);
    var b := ExchangeTrace(w[12..16], Identity[..21]) + ExchangeTrace(w[16..20], Identity[..2])
      + FinishTrace(w[20..24]);
    var t := SessionTrace(w);
    Regroup3(a + [SpiReset], ExchangeTrace(w[12..16], Identity[..21]),
      ExchangeTrace(w[16..20], Identity[..2]), FinishTrace(w[20..24]));
    assert t == a + [SpiReset] + b;
    StepsNoReset(w[0..4], Capability);
    StepsNoReset(w[4..8], Capability[..5]);
    StepsNoReset(w[8..12], Capability);
    StepsNoReset(w[12..16], Identity[..21]);
    StepsNoReset(w[16..20], Identity[..2]);
    StepsNoReset(w[20..24], Identity);
    assert |a| == 100 && SpiReset !in a && SpiReset !in b;
    ReadPacketShape(w[12..16], 0);
    assert t[101] == b[0];
    assert t[..100] == a;
    BeforeResetReceived(w);
    forall j | 0 <= j < |t| && j != 100
      ensures t[j] != SpiReset
    {
      if j < 100 {
        assert t[j] == a[j];
      } else {
        assert t[j] == b[j - 101];
      }
    }
  }

  /** The three commands before the reset are the first twelve bytes. */
  lemma BeforeResetReceived(w: seq<Byte>)
    requires |w| == 24
    ensures Received(Wake + GreetingTrace(w[0..4]) + ExchangeTrace(w[4..8], Capability[..5])
      + PollTrace(w[8..12])) == w[..12]
  {
    HandshakesQuiet();
    QuietAppend([], Wake);
    EmptyPrefix(Wake);
    GreetingExtends(Wake, w[0..4]);
    ExchangeExtends(Wake + GreetingTrace(w[0..4]), w[4..8], Capability[..5]);
    PollExtends(Wake + GreetingTrace(w[0..4]) + ExchangeTrace(w[4..8], Capability[..5]), w[8..12]);
    assert w[..12] == w[0..4] + w[4..8] + w[8..12];
  }
}
