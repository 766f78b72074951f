/** From the threads that call send_tcp to the client's receive loop: whole packets, in the order of the mutex. */
module Framing {
  import opened WireFields
  import opened Frames
  import opened Sending
  import opened Receiving

  predicate CallsPackets(es: seq<Event>) {
    forall i :: 0 <= i < |es| && es[i].Call? ==> IsPacket(es[i].packet)
  }

  predicate NoErrors(es: seq<Event>) {
    forall i :: 0 <= i < |es| ==> !es[i].Fail?
  }

  predicate AllPackets(s: State) {
    && ArePackets(s.order)
    && forall t :: 0 <= t < |s.threads| && !s.threads[t].Idle? ==> IsPacket(s.threads[t].packet)
  }

  lemma {:induction false} RunPackets(s: State, es: seq<Event>)
    requires AllPackets(s) && IsRun(s, es) && CallsPackets(es)
    ensures AllPackets(Run(s, es))
    decreases |es|
  {
    if es != [] {
      var next := Next(s, es[0]);
      assert AllPackets(next) by {
        assert es[0].Lock? ==> IsPacket(s.threads[es[0].t].packet);
      }
      assert forall i :: 0 < i < |es| ==> es[i] == es[1..][i - 1];
      RunPackets(next, es[1..]);
    }
  }

  lemma UnfinishedIsPartial(s: State)
    requires Inv(s) && ArePackets(s.order) && PartOfNext(s)
    ensures IsPartial(Unfinished(s))
  {
    var u := Unfinished(s);
    if u != [] {
      var p := s.order[|Complete(s)|];
      assert p[..|u|] == u;
      PartOfPacket(p, |u|);
    }
  }

  /** Any number of threads, any interleaving, any cuts on the way out and on the way in: at every moment the client
      that reads the stream gets a prefix of the packets that are out in full, in lock order, and it gets them all
      if and only if no read needs more than nine calls of recv. */
  lemma EndToEnd(start: State, es: seq<Event>, replies: seq<int>)
    requires Initial(start) && IsRun(start, es) && NoErrors(es) && CallsPackets(es)
    ensures Inv(Run(start, es))
    ensures var s := Run(start, es);
            && Complete(s) <= s.order && ArePackets(Complete(s))
            && Receive(Link(s.stream, replies)) <= Contents(Complete(s))
            && (Receive(Link(s.stream, replies)) == Contents(Complete(s)) <==> Patient(replies, Sizes(Complete(s))))
    ensures Run(start, es).owner == -1 ==> Complete(Run(start, es)) == Run(start, es).order
  {
    WholePackets(start, es);
    RunPackets(start, es);
    var s := Run(start, es);
    var ps := Complete(s);
    assert forall i :: 0 <= i < |ps| ==> ps[i] == s.order[i];
    UnfinishedIsPartial(s);
    ReceivesPackets(Link(s.stream, replies), ps, Unfinished(s));
    RunUnfailed(start, es);
    if s.owner == -1 {
      WholeAtRest(s);
    }
  }

  lemma RunUnfailed(start: State, es: seq<Event>)
    requires Initial(start) && IsRun(start, es) && NoErrors(es)
    ensures !Run(start, es).failed
  {
    InitialInv(start);
    RunInv(start, es);
  }

  // ----- From sender to receiver, field by field -----

  /** Packet number i that the client gets is number i in the lock order. */
  lemma GetsInOrder(start: State, es: seq<Event>, replies: seq<int>, i: nat)
    requires Initial(start) && IsRun(start, es) && NoErrors(es) && CallsPackets(es)
    requires i < |Receive(Link(Run(start, es).stream, replies))|
    ensures i < |Run(start, es).order| && IsPacket(Run(start, es).order[i])
    ensures Receive(Link(Run(start, es).stream, replies))[i] == Content(Run(start, es).order[i])
  {
    EndToEnd(start, es, replies);
    var s := Run(start, es);
    var got, ps := Receive(Link(s.stream, replies)), Complete(s);
    assert got[i] == Contents(ps)[i] == Content(ps[i]) && ps[i] == s.order[i];
  }

  /** The i-th packet that reaches the client was sent with this type, these header bytes and this body, and so the
      client reads it. */
  lemma PacketArrives(start: State, es: seq<Event>, replies: seq<int>, i: nat, kind: int, six: seq<Byte>,
                      body: seq<Byte>)
    requires Initial(start) && IsRun(start, es) && NoErrors(es) && CallsPackets(es)
    requires i < |Receive(Link(Run(start, es).stream, replies))|
    requires IsShort(kind) && |six| == 6 && |body| == BodyLength(kind)
    requires i < |Run(start, es).order| && Run(start, es).order[i] == Sent(kind, six, body)
    ensures var c := Receive(Link(Run(start, es).stream, replies))[i];
            |c| == 8 + |body| && TypeOf(c[..2]) == kind && c[2..8] == six && c[8..] == body
  {
    GetsInOrder(start, es, replies, i);
    SentIsPacket(kind, six, body);
  }

  /** A VFO packet arrives with its 18 fields, exactly if each fits. */
  lemma VfoPacketArrives(start: State, es: seq<Event>, replies: seq<int>, i: nat, six: seq<Byte>, v: VfoData)
    requires Initial(start) && IsRun(start, es) && NoErrors(es) && CallsPackets(es)
    requires i < |Receive(Link(Run(start, es).stream, replies))| && |six| == 6
    requires i < |Run(start, es).order| && Run(start, es).order[i] == Sent(INFO_VFO, six, EncodeVfo(v))
    ensures var c := Receive(Link(Run(start, es).stream, replies))[i];
            && |c| == 8 + 69 && TypeOf(c[..2]) == INFO_VFO && c[2..8] == six && c[8..] == EncodeVfo(v)
            && (DecodeVfo(c[8..]) == v <==> VfoInRange(v))
  {
    VfoBody();
    PacketArrives(start, es, replies, i, INFO_VFO, six, EncodeVfo(v));
    VfoRoundTrip(v);
  }

  /** An AGC packet arrives with its reals to within 1e-10 and the other fields exactly if they fit. */
  lemma AgcPacketArrives(start: State, es: seq<Event>, replies: seq<int>, i: nat, six: seq<Byte>, a: AgcData)
    requires Initial(start) && IsRun(start, es) && NoErrors(es) && CallsPackets(es)
    requires i < |Receive(Link(Run(start, es).stream, replies))| && |six| == 6 && AgcReals(a)
    requires i < |Run(start, es).order| && Run(start, es).order[i] == Sent(CMD_AGC, six, EncodeAgc(a))
    ensures var c := Receive(Link(Run(start, es).stream, replies))[i];
            && |c| == 8 + 42 && TypeOf(c[..2]) == CMD_AGC && c[2..8] == six && c[8..] == EncodeAgc(a)
            && var b := DecodeAgc(c[8..]);
               && Close(a.gain, b.gain) && Close(a.hang, b.hang) && Close(a.thresh, b.thresh)
               && Close(a.hangThresh, b.hangThresh)
               && (b.(gain := a.gain, hang := a.hang, thresh := a.thresh, hangThresh := a.hangThresh) == a
                   <==> AgcInRange(a))
  {
    AgcBody();
    PacketArrives(start, es, replies, i, CMD_AGC, six, EncodeAgc(a));
    AgcRoundTrip(a);
  }

  /** And a band packet with its calibration to within 1e-10 and the other fields exactly if they fit. */
  lemma BandPacketArrives(start: State, es: seq<Event>, replies: seq<int>, i: nat, six: seq<Byte>, b: BandData,
                          rest: seq<Byte>)
    requires Initial(start) && IsRun(start, es) && NoErrors(es) && CallsPackets(es)
    requires i < |Receive(Link(Run(start, es).stream, replies))| && |six| == 6
    requires |rest| == TITLE_SIZE && DoubleRange(b.paCalibration)
    requires i < |Run(start, es).order| && Run(start, es).order[i] == Sent(INFO_BAND, six, EncodeBand(b, rest))
    ensures var c := Receive(Link(Run(start, es).stream, replies))[i];
            && |c| == 8 + 65 && TypeOf(c[..2]) == INFO_BAND && c[2..8] == six && c[8..] == EncodeBand(b, rest)
            && var d := DecodeBand(c[8..]);
               && Close(b.paCalibration, d.paCalibration)
               && (d.(paCalibration := b.paCalibration) == b <==> BandInRange(b))
  {
    BandBody();
    PacketArrives(start, es, replies, i, INFO_BAND, six, EncodeBand(b, rest));
    BandRoundTrip(b, rest);
  }
}
