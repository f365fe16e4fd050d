/** The observable protocol log of the lens: every level it drives on its
    acknowledgment line, every wait on the body's line, every byte shifted
    in or out over the data line, and every reset of the serial hardware. */
module Trace {
  import opened Bytes

  /** The kinds of blocking wait on the body's acknowledgment line (and the
      power-on wait on the sleep line). Each completes when the body moves
      its line; the polling that implements it is not modelled. */
  datatype WaitKind =
    | PowerOn   // the sleep line goes high: the camera was switched on
    | Fall      // a high-then-low transition of the body line
    | Rise      // a low-then-high transition of the body line
    | Low       // after a settling delay, the body line reads low
    | High      // after a settling delay, the body line reads high

  /** Which way the lens's data pin (MISO) is driven. */
  datatype Direction = Input | Output

  datatype Event =
    | Ack(high: bool)        // the lens drives its ack line to this level
    | Wait(kind: WaitKind)   // the lens blocks until the body line does this
    | Recv(value: Byte)      // a byte clocked in from the body
    | Send(value: Byte)      // a byte clocked out to the body
    | SpiReset               // the serial hardware is disabled and re-enabled

  /** The bytes a log shows the lens sending, in order. */
  function Sent(t: seq<Event>): seq<Byte>
  {
    if t == [] then []
    else Sent(t[..|t| - 1]) + (if t[|t| - 1].Send? then [t[|t| - 1].value] else [])
  }

  /** The bytes a log shows the lens receiving, in order. */
  function Received(t: seq<Event>): seq<Byte>
  {
    if t == [] then []
    else Received(t[..|t| - 1]) + (if t[|t| - 1].Recv? then [t[|t| - 1].value] else [])
  }

  /** The data-pin direction after a log: set by the latest transfer, and
      an input before any transfer (the pin is configured as an input at
      start-up). */
  function DirectionAfter(t: seq<Event>): Direction
  {
    if t == [] then Input
    else if t[|t| - 1].Recv? then Input
    else if t[|t| - 1].Send? then Output
    else DirectionAfter(t[..|t| - 1])
  }

  /** The ack-line level after a log: the latest level driven, and low
      before the lens has driven it. */
  function AckAfter(t: seq<Event>): bool
  {
    if t == [] then false
    else if t[|t| - 1].Ack? then t[|t| - 1].high
    else AckAfter(t[..|t| - 1])
  }

  /** A log with no transfer in it. */
  predicate Quiet(t: seq<Event>)
  {
    forall i :: 0 <= i < |t| ==> !t[i].Recv? && !t[i].Send?
  }

  lemma {:induction false} SentAppend(a: seq<Event>, b: seq<Event>)
    ensures Sent(a + b) == Sent(a) + Sent(b)
  {
    if b == [] {
      assert a + b == a;
    } else {
      var init := b[..|b| - 1];
      assert (a + b)[..|a + b| - 1] == a + init;
      SentAppend(a, init);
    }
  }

  lemma {:induction false} ReceivedAppend(a: seq<Event>, b: seq<Event>)
    ensures Received(a + b) == Received(a) + Received(b)
  {
    if b == [] {
      assert a + b == a;
    } else {
      var init := b[..|b| - 1];
      assert (a + b)[..|a + b| - 1] == a + init;
      ReceivedAppend(a, init);
    }
  }

  /** One more event adds its own transfer, if any, to the projections. */
  lemma Snoc(t: seq<Event>, e: Event)
    ensures Sent(t + [e]) == if e.Send? then Sent(t) + [e.value] else Sent(t)
    ensures Received(t + [e]) == if e.Recv? then Received(t) + [e.value] else Received(t)
  {
    assert (t + [e])[..|t|] == t;
  }

  /** One more event sets the direction when it is a transfer and the ack
      level when it is an ack, and leaves each as it was otherwise. */
  lemma SnocState(t: seq<Event>, e: Event)
    ensures DirectionAfter(t + [e]) ==
      if e.Recv? then Input else if e.Send? then Output else DirectionAfter(t)
    ensures AckAfter(t + [e]) == if e.Ack? then e.high else AckAfter(t)
  {
    assert (t + [e])[..|t|] == t;
  }

  /** A log without transfers neither sends nor receives anything and leaves
      the data-pin direction as it was. */
  lemma {:induction false} QuietAppend(a: seq<Event>, b: seq<Event>)
    requires Quiet(b)
    ensures Sent(a + b) == Sent(a) && Received(a + b) == Received(a)
    ensures DirectionAfter(a + b) == DirectionAfter(a)
  {
    if b == [] {
      assert a + b == a;
    } else {
      var init := b[..|b| - 1];
      assert (a + b)[..|a + b| - 1] == a + init;
      assert !b[|b| - 1].Recv? && !b[|b| - 1].Send?;
      QuietAppend(a, init);
    }
  }

  /** A suffix that reaches the last event is quiet exactly when the same
      suffix without that event is quiet and the event is no transfer. */
  lemma QuietSuffix(t: seq<Event>, i: nat)
    requires i < |t| - 1
    ensures Quiet(t[i + 1..]) <==>
      Quiet(t[..|t| - 1][i + 1..]) && !t[|t| - 1].Recv? && !t[|t| - 1].Send?
  {
    var n := |t| - 1;
    assert t[i + 1..] == t[..n][i + 1..] + [t[n]];
    assert t[i + 1..][n - i - 1] == t[n];
  }

  /** The direction is the one the latest transfer left: output exactly when
      some send is followed by no further transfer. */
  lemma {:induction false} DirectionIsLatestTransfer(t: seq<Event>)
    ensures DirectionAfter(t) == Output <==>
      exists i :: 0 <= i < |t| && t[i].Send? && Quiet(t[i + 1..])
  {
    if t != [] {
      var n := |t| - 1;
      var init := t[..n];
      DirectionIsLatestTransfer(init);
      if t[n].Send? {
        assert Quiet(t[n + 1..]);
      } else {
        forall i | 0 <= i < n
          ensures t[i] == init[i]
          ensures Quiet(t[i + 1..]) <==> Quiet(init[i + 1..]) && !t[n].Recv?
        {
          QuietSuffix(t, i);
        }
      }
    }
  }
}
