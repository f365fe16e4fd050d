/** The lens side of the body/lens link: the pins and serial registers it
    drives, the single-byte transport over the clocked data line, and the
    two framed transfers built on it. The body is abstract: it supplies the
    queue of bytes it will clock in, and each blocking wait on its line is
    one event in the log. */
module FakeLens {
  import opened Bytes
  import opened Trace
  import opened Framing

  /** How many bytes readBytesChecksum(n) takes in: its loop runs while
      i < n - 1, where n - 1 is computed in `int`, so n = 0 skips the loop
      and still reads the final byte. */
  function ReadCount(n: Byte): (r: nat)
    ensures r == (if n - 1 > 0 then n - 1 else 0) + 1
  {
    if n == 0 then 1 else n
  }

  /** The log accounts for the lens state: what it received followed by what
      is still queued is everything the body supplies, what it sent is the
      output, the data-pin direction is that of the latest transfer and the
      ack level the latest one driven. */
  ghost predicate Accounts(events: seq<Event>, input: seq<Byte>, body: seq<Byte>,
                           output: seq<Byte>, dir: Direction, ack: bool)
  {
    Received(events) + input == body &&
    Sent(events) == output &&
    dir == DirectionAfter(events) &&
    ack == AckAfter(events)
  }

  class Lens {
    /** Level the lens last drove on its ack line. */
    var ack: bool
    /** Direction of the data pin. */
    var dir: Direction
    /** The last value the lens stored in the serial data register. */
    var staged: Byte
    /** The bytes the body has yet to clock in, in order. */
    var input: seq<Byte>
    /** The bytes clocked out so far. */
    var output: seq<Byte>
    /** The protocol log. */
    var events: seq<Event>
    /** Everything the body clocks in over the whole run. */
    ghost const body: seq<Byte>

    ghost predicate Valid()
      reads this
    {
      Accounts(events, input, body, output, dir, ack)
    }

    /** The state after setup: the data pin an input, the ack line low,
        nothing transferred; `supplied` is what the body will send. */
    constructor (supplied: seq<Byte>)
      ensures Valid()
      ensures input == supplied && output == [] && events == []
      ensures ack == false && dir == Input && staged == 0
    {
      ack, dir, staged := false, Input, 0;
      input, output, events := supplied, [], [];
      body := supplied;
    }

    /** digitalWrite(LENS_ACK, level). */
    method SetAck(level: bool)
      requires Valid()
      modifies this
      ensures Valid()
      ensures ack == level && events == old(events) + [Ack(level)]
      ensures dir == old(dir) && staged == old(staged)
      ensures input == old(input) && output == old(output)
    {
      EventKeepsAccounts(events, input, body, output, dir, ack, Ack(level));
      ack := level;
      events := events + [Ack(level)];
    }

    /** The two back-to-back writes of the ack line, low ("working") then
        high ("ready"), that close one byte. */
    method PulseAck()
      requires Valid()
      modifies this
      ensures Valid()
      ensures ack && events == old(events) + [Ack(false), Ack(true)]
      ensures dir == old(dir) && staged == old(staged)
      ensures input == old(input) && output == old(output)
    {
      SetAck(false);
      SetAck(true);
    }

    /** One of the blocking waits on the body's line; it returns once the
        body has done what the wait asks. */
    method WaitBody(kind: WaitKind)
      requires Valid()
      modifies this
      ensures Valid()
      ensures events == old(events) + [Wait(kind)]
      ensures ack == old(ack) && dir == old(dir) && staged == old(staged)
      ensures input == old(input) && output == old(output)
    {
      EventKeepsAccounts(events, input, body, output, dir, ack, Wait(kind));
      events := events + [Wait(kind)];
    }

    /** A wait on the body followed by driving the ack line. */
    method WaitThenAck(kind: WaitKind, level: bool)
      requires Valid()
      modifies this
      ensures Valid()
      ensures ack == level && events == old(events) + [Wait(kind), Ack(level)]
      ensures dir == old(dir) && staged == old(staged)
      ensures input == old(input) && output == old(output)
    {
      WaitBody(kind);
      SetAck(level);
    }

    /** Disable and re-enable the serial hardware. */
    method ResetSpi()
      requires Valid()
      modifies this
      ensures Valid()
      ensures events == old(events) + [SpiReset]
      ensures ack == old(ack) && dir == old(dir) && staged == old(staged)
      ensures input == old(input) && output == old(output)
    {
      EventKeepsAccounts(events, input, body, output, dir, ack, SpiReset);
      events := events + [SpiReset];
    }

    /** readByte: make the data pin an input, clear the data register, and
        take the next byte the body clocks in. The body must have one. */
    method ReadByte() returns (b: Byte)
      requires Valid() && input != []
      modifies this
      ensures Valid()
      ensures b == old(input[0]) && input == old(input[1..])
      ensures events == old(events) + [Recv(b)]
      ensures dir == Input && staged == 0 && ack == old(ack)
      ensures output == old(output)
    {
      RecvKeepsAccounts(events, input, body, output, dir, ack);
      dir := Input;
      staged := 0;
      b := input[0];
      input := input[1..];
      events := events + [Recv(b)];
    }

    /** writeByte: stage the byte, make the data pin an output, let the body
        clock it out, then leave 0xFF in the data register. The pin is left
        an output. */
    method WriteByte(v: Byte)
      requires Valid()
      modifies this
      ensures Valid()
      ensures output == old(output) + [v] && events == old(events) + [Send(v)]
      ensures dir == Output && staged == 0xFF && ack == old(ack)
      ensures input == old(input)
    {
      SendKeepsAccounts(events, input, body, output, dir, ack, v);
      staged := v;
      dir := Output;
      output := output + [v];
      events := events + [Send(v)];
      staged := 0xFF;
    }

    /** readBytesChecksum(n): take the next ReadCount(n) queued bytes with
        the ack pattern of ReadPacketTrace and answer with their 8-bit sum.
        Nothing the body sends is checked. */
    method ReadBytesChecksum(n: Byte)
      requires Valid() && ReadCount(n) <= |input|
      modifies this
      ensures Valid()
      ensures input == old(input[ReadCount(n)..])
      ensures events == old(events) + ReadPacketTrace(old(input[..ReadCount(n)]))
      ensures output == old(output) + [Sum8(old(input[..ReadCount(n)]))]
      ensures dir == Output && ack && staged == 0xFF
    {
      var checksum: Byte := 0;
      ghost var e0, in0 := events, input;
      var i: Byte := 0;
      while i < n as int - 1
        invariant Valid()
        invariant 0 <= i < ReadCount(n)
        invariant output == old(output) && input == in0[i..]
        invariant checksum == Sum8(in0[..i])
        invariant events == e0 + PulsedReads(in0[..i])
      {
        var b := HandshakeRead();
        ReadStep(e0, in0, i);
        checksum := (checksum + b) % 256;
        i := i + 1;
      }
      var b := ReadLast(checksum);
      ReadClose(e0, in0, i);
      assert i + 1 == ReadCount(n);
    }

    /** The last byte of a framed read and the answer: clock the byte in,
        add it to the running checksum, and send the checksum back after
        the reply handshake. */
    method ReadLast(checksum: Byte) returns (b: Byte)
      requires Valid() && input != []
      modifies this
      ensures Valid()
      ensures b == old(input[0]) && input == old(input[1..])
      ensures events == old(events) + [Recv(b)] + ReplyHandshake + [Send((checksum + b) % 256)]
      ensures output == old(output) + [(checksum + b) % 256]
      ensures dir == Output && ack && staged == 0xFF
    {
      b := ReadByte();
      Reply((checksum + b) % 256);
    }

    /** One byte of a framed read other than the last: clock it in, then
        pulse the ack line low then high. */
    method HandshakeRead() returns (b: Byte)
      requires Valid() && input != []
      modifies this
      ensures Valid()
      ensures b == old(input[0]) && input == old(input[1..])
      ensures events == old(events) + [Recv(b), Ack(false), Ack(true)]
      ensures output == old(output) && dir == Input && ack && staged == 0
    {
      b := ReadByte();
      PulseAck();
    }

    /** The close of a framed read: drop the ack line, wait for the body to
        drop its own, raise the ack line, wait for the body line to settle
        high, and clock the checksum out. */
    method Reply(checksum: Byte)
      requires Valid()
      modifies this
      ensures Valid()
      ensures events == old(events) + ReplyHandshake + [Send(checksum)]
      ensures output == old(output) + [checksum] && input == old(input)
      ensures dir == Output && ack && staged == 0xFF
    {
      SetAck(false);
      WaitThenAck(Fall, true);
      WaitBody(High);
      WriteByte(checksum);
    }

    /** writeBytesChecksum(n, values): send Frame(values[..n]) with the ack
        and wait pattern of WritePacketTrace. */
    method WriteBytesChecksum(n: Byte, values: seq<Byte>)
      requires Valid() && n <= |values|
      modifies this
      ensures Valid()
      ensures input == old(input)
      ensures events == old(events) + WritePacketTrace(values[..n])
      ensures output == old(output) + Frame(values[..n])
      ensures dir == Output && ack && staged == 0xFF
    {
      var checksum: Byte := 0;
      ghost var e0, o0 := events, output;
      HandshakeWrite(Fall, n);
      ghost var e1 := events;
      for i := 0 to n
        invariant Valid()
        invariant input == old(input)
        invariant checksum == Sum8(values[..i])
        invariant events == e1 + PulsedWrites(values[..i])
        invariant output == o0 + [n] + values[..i]
      {
        HandshakeWrite(Low, values[i]);
        WriteStep(values, i);
        checksum := (checksum + values[i]) % 256;
      }
      HandshakeWrite(Low, checksum);
      WriteClose(e0, o0, values[..n]);
    }

    /** One byte of a framed write: wait for the body, pulse the ack line
        low then high, and clock the byte out. */
    method HandshakeWrite(kind: WaitKind, v: Byte)
      requires Valid()
      modifies this
      ensures Valid()
      ensures events == old(events) + [Wait(kind), Ack(false), Ack(true), Send(v)]
      ensures output == old(output) + [v] && input == old(input)
      ensures dir == Output && ack && staged == 0xFF
    {
      WaitBody(kind);
      PulseAck();
      WriteByte(v);
    }
  }

  /** An ack level, a wait or a reset keeps the log accounting for the
      state: only the ack level can change. */
  lemma EventKeepsAccounts(e: seq<Event>, input: seq<Byte>, body: seq<Byte>,
                           output: seq<Byte>, dir: Direction, ack: bool, x: Event)
    requires Accounts(e, input, body, output, dir, ack) && !x.Recv? && !x.Send?
    ensures Accounts(e + [x], input, body, output, dir, if x.Ack? then x.high else ack)
  {
    Snoc(e, x);
    SnocState(e, x);
  }

  /** Taking the head of the queue keeps the log accounting for the state:
      the byte moves from the queue to what was received and the data pin
      becomes an input. */
  lemma RecvKeepsAccounts(e: seq<Event>, input: seq<Byte>, body: seq<Byte>,
                          output: seq<Byte>, dir: Direction, ack: bool)
    requires Accounts(e, input, body, output, dir, ack) && input != []
    ensures Accounts(e + [Recv(input[0])], input[1..], body, output, Input, ack)
  {
    Snoc(e, Recv(input[0]));
    SnocState(e, Recv(input[0]));
    SplitAt(input, 1);
    assert input[..1] == [input[0]];
    Regroup2(Received(e), [input[0]], input[1..]);
  }

  /** Sending a byte keeps the log accounting for the state: the byte joins
      the output and the data pin becomes an output. */
  lemma SendKeepsAccounts(e: seq<Event>, input: seq<Byte>, body: seq<Byte>,
                          output: seq<Byte>, dir: Direction, ack: bool, v: Byte)
    requires Accounts(e, input, body, output, dir, ack)
    ensures Accounts(e + [Send(v)], input, body, output + [v], Output, ack)
  {
    Snoc(e, Send(v));
    SnocState(e, Send(v));
  }
}
