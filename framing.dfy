/** Packet framing: what a framed write puts on the wire, what a framed read
    answers, and the exact order of acknowledgments, waits and transfers in
    each. The lens methods are proved against these definitions. */
module Framing {
  import opened Bytes
  import opened Trace

  datatype Option<T> = None | Some(value: T)

  /** The wire image of a framed write: the count, the payload, then the
      8-bit sum of the payload (the count is not summed). */
  function Frame(payload: seq<Byte>): (r: seq<Byte>)
    requires |payload| < 256
    ensures |r| == |payload| + 2 && r[0] == |payload| && r[|r| - 1] == Sum8(payload)
    ensures r[1..|r| - 1] == payload
  {
    [|payload|] + payload + [Sum8(payload)]
  }

  /** A reference decoder of the packet format: a count byte, that many
      payload bytes, and a trailer that must equal their 8-bit sum. */
  function Unframe(wire: seq<Byte>): Option<seq<Byte>>
  {
    if |wire| < 2 || |wire| != wire[0] as int + 2 then None
    else
      var payload := wire[1..|wire| - 1];
      if wire[|wire| - 1] == Sum8(payload) then Some(payload) else None
  }

  /** The reference decoder gives back exactly what the lens frames. */
  lemma FrameRoundTrip(payload: seq<Byte>)
    requires |payload| < 256
    ensures Unframe(Frame(payload)) == Some(payload)
  {
    var w := Frame(payload);
    assert w[1..|w| - 1] == payload;
  }

  /** Every image the reference decoder accepts is the frame of the payload
      it yields. */
  lemma UnframeIsFrame(wire: seq<Byte>, payload: seq<Byte>)
    requires Unframe(wire) == Some(payload)
    ensures |payload| < 256 && Frame(payload) == wire
  {
    assert wire == [wire[0]] + wire[1..|wire| - 1] + [wire[|wire| - 1]];
  }

  /** A framed write whose trailer is corrupted is rejected by the reference
      decoder. */
  lemma CorruptTrailerRefused(payload: seq<Byte>, bad: Byte)
    requires |payload| < 256 && bad != Sum8(payload)
    ensures Unframe([|payload|] + payload + [bad]) == None
  {
    var w := [|payload|] + payload + [bad];
    assert w[1..|w| - 1] == payload;
  }

  // ---------------------------------------------------------------------
  // Framed read: readBytesChecksum

  /** The bytes read before the last one: each is followed by an ack pulse
      low ("working") then high ("ready"). */
  function PulsedReads(s: seq<Byte>): seq<Event>
  {
    if s == [] then []
    else PulsedReads(s[..|s| - 1]) + [Recv(s[|s| - 1]), Ack(false), Ack(true)]
  }

  /** The full log of a framed read of the bytes `s`: pulsed reads of all
      but the last; the last byte with the ack driven low only; a wait for
      the body to fall; ack high; a wait for the body to be high; then the
      8-bit sum of `s` sent back. */
  function ReadPacketTrace(s: seq<Byte>): (r: seq<Event>)
    requires |s| >= 1
    ensures |r| >= 6 && r[|r| - 6] == Recv(s[|s| - 1]) && r[|r| - 1] == Send(Sum8(s))
  {
    PulsedReads(s[..|s| - 1]) + [Recv(s[|s| - 1])] + ReplyHandshake + [Send(Sum8(s))]
  }

  /** Between the last byte of a framed read and the checksum reply: ack
      low, wait for the body to fall, ack high, wait for the body to be high. */
  const ReplyHandshake: seq<Event> := [Ack(false), Wait(Fall), Ack(true), Wait(High)]

  lemma PulsedReadsSnoc(s: seq<Byte>, x: Byte)
    ensures PulsedReads(s + [x]) == PulsedReads(s) + [Recv(x), Ack(false), Ack(true)]
  {
    assert (s + [x])[..|s|] == s;
  }

  lemma {:induction false} PulsedReadsAt(s: seq<Byte>, k: nat)
    requires k < |s|
    ensures |PulsedReads(s)| == 3 * |s|
    ensures PulsedReads(s)[3 * k] == Recv(s[k])
    ensures PulsedReads(s)[3 * k + 1] == Ack(false)
    ensures PulsedReads(s)[3 * k + 2] == Ack(true)
  {
    var init := s[..|s| - 1];
    if k < |s| - 1 {
      PulsedReadsAt(init, k);
    } else if init != [] {
      PulsedReadsAt(init, 0);
    }
  }

  lemma {:induction false} PulsedReadsTransfers(s: seq<Byte>)
    ensures Received(PulsedReads(s)) == s && Sent(PulsedReads(s)) == []
  {
    if s != [] {
      var init, last := s[..|s| - 1], s[|s| - 1];
      var p := PulsedReads(init);
      PulsedReadsTransfers(init);
      Snoc(p, Recv(last));
      assert Quiet([Ack(false), Ack(true)]);
      QuietAppend(p + [Recv(last)], [Ack(false), Ack(true)]);
      assert p + [Recv(last)] + [Ack(false), Ack(true)] == PulsedReads(s);
      assert s == init + [last];
    }
  }

  /** One more byte taken into a framed read: the running sum and the
      pulsed reads grow by that byte. */
  lemma ReadStep(e: seq<Event>, s: seq<Byte>, i: nat)
    requires i < |s|
    ensures Sum8(s[..i + 1]) == (Sum8(s[..i]) + s[i]) % 256
    ensures e + PulsedReads(s[..i]) + [Recv(s[i]), Ack(false), Ack(true)] == e + PulsedReads(s[..i + 1])
    ensures s[i..][0] == s[i] && s[i..][1..] == s[i + 1..]
  {
    assert s[..i + 1] == s[..i] + [s[i]];
    Sum8Snoc(s[..i], s[i]);
    PulsedReadsSnoc(s[..i], s[i]);
    Regroup2(e, PulsedReads(s[..i]), [Recv(s[i]), Ack(false), Ack(true)]);
  }

  /** The last byte of a framed read of s[..i + 1], after pulsed reads of
      the bytes before it, completes ReadPacketTrace once the reply
      handshake and the checksum follow. */
  lemma ReadClose(e: seq<Event>, s: seq<Byte>, i: nat)
    requires i < |s|
    ensures e + PulsedReads(s[..i]) + [Recv(s[i])] + ReplyHandshake
              + [Send((Sum8(s[..i]) + s[i]) % 256)]
         == e + ReadPacketTrace(s[..i + 1])
    ensures Sum8(s[..i + 1]) == (Sum8(s[..i]) + s[i]) % 256
  {
    var got := s[..i + 1];
    assert got[..|got| - 1] == s[..i] && got[|got| - 1] == s[i];
    assert got == s[..i] + [s[i]];
    Sum8Snoc(s[..i], s[i]);
  }

  /** Ack and wait order of a framed read of `s`: after each of the first
      |s|-1 bytes the ack is pulsed low then high; after the last it goes low
      only, and rises again only after a falling-edge wait, which is followed
      by a level-high wait and then the checksum. */
  lemma ReadPacketShape(s: seq<Byte>, k: nat)
    requires k < |s|
    ensures |ReadPacketTrace(s)| == 3 * |s| + 3
    ensures k < |s| - 1 ==> ReadPacketTrace(s)[3 * k] == Recv(s[k])
    ensures k < |s| - 1 ==> ReadPacketTrace(s)[3 * k + 1] == Ack(false)
    ensures k < |s| - 1 ==> ReadPacketTrace(s)[3 * k + 2] == Ack(true)
    ensures ReadPacketTrace(s)[3 * |s| - 3..] ==
      [Recv(s[|s| - 1]), Ack(false), Wait(Fall), Ack(true), Wait(High), Send(Sum8(s))]
  {
    var init := s[..|s| - 1];
    if k < |s| - 1 {
      PulsedReadsAt(init, k);
    } else if init != [] {
      PulsedReadsAt(init, 0);
    }
  }

  lemma ReplyHandshakeQuiet()
    ensures Quiet(ReplyHandshake)
  {
  }

  /** Everything of a framed read of `s` before the checksum reply. */
  lemma {:induction false} ReadPacketPrefix(s: seq<Byte>)
    requires |s| >= 1
    ensures var before := PulsedReads(s[..|s| - 1]) + [Recv(s[|s| - 1])] + ReplyHandshake;
      Received(before) == s && Sent(before) == []
  {
    var init, last := s[..|s| - 1], s[|s| - 1];
    var p := PulsedReads(init);
    PulsedReadsTransfers(init);
    Snoc(p, Recv(last));
    ReplyHandshakeQuiet();
    QuietAppend(p + [Recv(last)], ReplyHandshake);
    assert s == init + [last];
  }

  /** A framed read of `s` takes in exactly the bytes of `s`, in order, and
      sends back exactly one byte: their 8-bit sum. */
  lemma ReadPacketTransfers(s: seq<Byte>)
    requires |s| >= 1
    ensures Received(ReadPacketTrace(s)) == s
    ensures Sent(ReadPacketTrace(s)) == [Sum8(s)]
    ensures DirectionAfter(ReadPacketTrace(s)) == Output
  {
    var before := PulsedReads(s[..|s| - 1]) + [Recv(s[|s| - 1])] + ReplyHandshake;
    ReadPacketPrefix(s);
    Snoc(before, Send(Sum8(s)));
    var t := before + [Send(Sum8(s))];
    assert t[..|t| - 1] == before;
  }

  /** What the lens answers to a read of `p` is the trailer it would put
      after `p` in a framed write: the two directions use one checksum. */
  lemma ReadReplyIsFrameTrailer(p: seq<Byte>)
    requires 1 <= |p| < 256
    ensures Sent(ReadPacketTrace(p)) == [Frame(p)[|p| + 1]]
  {
    ReadPacketTransfers(p);
  }

  // ---------------------------------------------------------------------
  // Framed write: writeBytesChecksum

  /** The payload bytes of a framed write: each preceded by a level-low wait
      and an ack pulse low then high. */
  function PulsedWrites(v: seq<Byte>): seq<Event>
  {
    if v == [] then []
    else PulsedWrites(v[..|v| - 1]) + [Wait(Low), Ack(false), Ack(true), Send(v[|v| - 1])]
  }

  /** The full log of a framed write of `v`. */
  function WritePacketTrace(v: seq<Byte>): (r: seq<Event>)
    requires |v| < 256
    ensures |r| >= 8 && r[3] == Send(|v|) && r[|r| - 1] == Send(Sum8(v))
  {
    [Wait(Fall), Ack(false), Ack(true), Send(|v|)]
      + PulsedWrites(v)
      + [Wait(Low), Ack(false), Ack(true), Send(Sum8(v))]
  }

  lemma PulsedWritesSnoc(v: seq<Byte>, x: Byte)
    ensures PulsedWrites(v + [x]) == PulsedWrites(v) + [Wait(Low), Ack(false), Ack(true), Send(x)]
  {
    assert (v + [x])[..|v|] == v;
  }

  lemma {:induction false} PulsedWritesAt(v: seq<Byte>, k: nat)
    requires k < |v|
    ensures |PulsedWrites(v)| == 4 * |v|
    ensures PulsedWrites(v)[4 * k..4 * k + 4] == [Wait(Low), Ack(false), Ack(true), Send(v[k])]
  {
    var init := v[..|v| - 1];
    if k < |v| - 1 {
      PulsedWritesAt(init, k);
    } else if init != [] {
      PulsedWritesAt(init, 0);
    }
  }

  lemma {:induction false} PulsedWritesTransfers(v: seq<Byte>)
    ensures Sent(PulsedWrites(v)) == v && Received(PulsedWrites(v)) == []
  {
    if v != [] {
      var init, last := v[..|v| - 1], v[|v| - 1];
      var p := PulsedWrites(init);
      PulsedWritesTransfers(init);
      PulseThenSend(p, Low, [Wait(Low), Ack(false), Ack(true)], last);
      assert v == init + [last];
    }
  }

  /** One more payload byte of a framed write: the running sum and the
      pulsed writes grow by that byte. */
  lemma WriteStep(v: seq<Byte>, i: nat)
    requires i < |v|
    ensures v[..i + 1] == v[..i] + [v[i]]
    ensures Sum8(v[..i + 1]) == (Sum8(v[..i]) + v[i]) % 256
    ensures PulsedWrites(v[..i + 1]) == PulsedWrites(v[..i]) + [Wait(Low), Ack(false), Ack(true), Send(v[i])]
  {
    Sum8Snoc(v[..i], v[i]);
    PulsedWritesSnoc(v[..i], v[i]);
  }

  /** The count handshake, the pulsed payload and the checksum handshake,
      appended one after another, are WritePacketTrace; the bytes they send
      are the frame. */
  lemma WriteClose(e: seq<Event>, o: seq<Byte>, v: seq<Byte>)
    requires |v| < 256
    ensures e + [Wait(Fall), Ack(false), Ack(true), Send(|v|)] + PulsedWrites(v)
              + [Wait(Low), Ack(false), Ack(true), Send(Sum8(v))]
         == e + WritePacketTrace(v)
    ensures o + [|v|] + v + [Sum8(v)] == o + Frame(v)
  {
    Regroup3(e, [Wait(Fall), Ack(false), Ack(true), Send(|v|)], PulsedWrites(v),
      [Wait(Low), Ack(false), Ack(true), Send(Sum8(v))]);
    Regroup3(o, [|v|], v, [Sum8(v)]);
  }

  /** A handshake without transfers followed by one send adds just that
      byte to what a log has sent. */
  lemma PulseThenSend(p: seq<Event>, kind: WaitKind, pulse: seq<Event>, x: Byte)
    requires pulse == [Wait(kind), Ack(false), Ack(true)]
    ensures p + pulse + [Send(x)] == p + [Wait(kind), Ack(false), Ack(true), Send(x)]
    ensures Sent(p + pulse + [Send(x)]) == Sent(p) + [x]
    ensures Received(p + pulse + [Send(x)]) == Received(p)
  {
    assert Quiet(pulse);
    QuietAppend(p, pulse);
    Snoc(p + pulse, Send(x));
  }

  /** Every byte of a framed write of `v` goes out right after a wait on the
      body and an ack pulse low then high; the wait before the count is a
      falling edge, the one before each payload byte and before the checksum
      a level-low wait; byte k on the wire is byte k of Frame(v). */
  lemma WritePacketShape(v: seq<Byte>, k: nat)
    requires |v| < 256 && k < |v| + 2
    ensures |WritePacketTrace(v)| == 4 * (|v| + 2)
    ensures WritePacketTrace(v)[4 * k..4 * k + 4] ==
      [Wait(if k == 0 then Fall else Low), Ack(false), Ack(true), Send(Frame(v)[k])]
  {
    var t := WritePacketTrace(v);
    var head := [Wait(Fall), Ack(false), Ack(true), Send(|v|)];
    var tail := [Wait(Low), Ack(false), Ack(true), Send(Sum8(v))];
    if v != [] { PulsedWritesAt(v, 0); }
    assert |PulsedWrites(v)| == 4 * |v|;
    if k == 0 {
      assert t[..4] == head;
    } else if k <= |v| {
      PulsedWritesAt(v, k - 1);
      assert t[4 * k..4 * k + 4] == PulsedWrites(v)[4 * (k - 1)..4 * (k - 1) + 4];
    } else {
      assert t[4 * k..4 * k + 4] == tail;
    }
  }

  /** A framed write of `v` puts exactly Frame(v) on the wire and receives
      nothing. */
  lemma WritePacketTransfers(v: seq<Byte>)
    requires |v| < 256
    ensures Sent(WritePacketTrace(v)) == Frame(v)
    ensures Received(WritePacketTrace(v)) == []
    ensures DirectionAfter(WritePacketTrace(v)) == Output
  {
    var head := [Wait(Fall), Ack(false), Ack(true), Send(|v|)];
    var body := head + PulsedWrites(v);
    PulseThenSend([], Fall, [Wait(Fall), Ack(false), Ack(true)], |v|);
    assert [] + head == head;
    PulsedWritesTransfers(v);
    SentAppend(head, PulsedWrites(v));
    ReceivedAppend(head, PulsedWrites(v));
    PulseThenSend(body, Low, [Wait(Low), Ack(false), Ack(true)], Sum8(v));
  }

  // ---------------------------------------------------------------------
  // Appending a framed transfer to a log

  /** After a framed read is appended to any log, the log has received
      exactly the bytes read and sent exactly their sum; the data pin is an
      output and the ack line high. */
  lemma ReadPacketExtends(e: seq<Event>, s: seq<Byte>)
    requires |s| >= 1
    ensures Received(e + ReadPacketTrace(s)) == Received(e) + s
    ensures Sent(e + ReadPacketTrace(s)) == Sent(e) + [Sum8(s)]
    ensures DirectionAfter(e + ReadPacketTrace(s)) == Output
    ensures AckAfter(e + ReadPacketTrace(s))
  {
    ReadPacketTransfers(s);
    ReceivedAppend(e, ReadPacketTrace(s));
    SentAppend(e, ReadPacketTrace(s));
    var t := e + ReadPacketTrace(s);
    var k := |t|;
    assert t[k - 1] == Send(Sum8(s)) && t[k - 2] == Wait(High) && t[k - 3] == Ack(true);
    assert t[..k - 1][..k - 2] == t[..k - 2];
    assert t[..k - 2][..k - 3] == t[..k - 3];
  }

  /** After a framed write is appended to any log, the log has received
      nothing more and sent exactly Frame(v); the data pin is an output and
      the ack line high. */
  lemma WritePacketExtends(e: seq<Event>, v: seq<Byte>)
    requires |v| < 256
    ensures Received(e + WritePacketTrace(v)) == Received(e)
    ensures Sent(e + WritePacketTrace(v)) == Sent(e) + Frame(v)
    ensures DirectionAfter(e + WritePacketTrace(v)) == Output
    ensures AckAfter(e + WritePacketTrace(v))
  {
    WritePacketTransfers(v);
    ReceivedAppend(e, WritePacketTrace(v));
    SentAppend(e, WritePacketTrace(v));
    var t := e + WritePacketTrace(v);
    var k := |t|;
    assert t[k - 1] == Send(Sum8(v)) && t[k - 2] == Ack(true);
    assert t[..k - 1][..k - 2] == t[..k - 2];
  }
}
