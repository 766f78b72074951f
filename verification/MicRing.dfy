/** The microphone ring of src/audio.c: the audio thread puts samples in, the transmitter thread takes them out,
    and the only synchronisation is that each side writes its own index after it has touched the slot. */
module MicRing {

  const MICRINGLEN: nat := 8192

  /** (i + 1) & MICRINGMASK */
  function Next(i: nat): (j: nat)
    requires i < MICRINGLEN
    ensures j == (i + 1) % MICRINGLEN
  {
    if i + 1 < MICRINGLEN then i + 1 else 0
  }

  /** The slot `k` places after slot `i`. */
  function Slot(i: nat, k: nat): (j: nat)
    requires i < MICRINGLEN && k < MICRINGLEN
    ensures j < MICRINGLEN
  {
    if i + k < MICRINGLEN then i + k else i + k - MICRINGLEN
  }

  function Fill(inpt: nat, outpt: nat): (n: nat)
    requires inpt < MICRINGLEN && outpt < MICRINGLEN
    ensures n < MICRINGLEN
  {
    if inpt >= outpt then inpt - outpt else inpt + MICRINGLEN - outpt
  }

  /** The unread samples, oldest first. */
  function Held(buffer: seq<real>, inpt: nat, outpt: nat): (h: seq<real>)
    requires |buffer| == MICRINGLEN && inpt < MICRINGLEN && outpt < MICRINGLEN
    ensures |h| == Fill(inpt, outpt)
  {
    seq(Fill(inpt, outpt), k requires 0 <= k < Fill(inpt, outpt) => buffer[Slot(outpt, k)])
  }

  /** Filling the slot at inpt disturbs no unread sample. */
  lemma StoreKeepsHeld(buffer: seq<real>, inpt: nat, outpt: nat, sample: real)
    requires |buffer| == MICRINGLEN && inpt < MICRINGLEN && outpt < MICRINGLEN
    ensures Held(buffer[inpt := sample], inpt, outpt) == Held(buffer, inpt, outpt)
    ensures forall k :: 0 <= k < Fill(inpt, outpt) ==> Slot(outpt, k) != inpt
  {
  }

  /** Advancing inpt makes the sample in its slot the newest one. */
  lemma PublishAppends(buffer: seq<real>, inpt: nat, outpt: nat)
    requires |buffer| == MICRINGLEN && inpt < MICRINGLEN && outpt < MICRINGLEN && Next(inpt) != outpt
    ensures Held(buffer, Next(inpt), outpt) == Held(buffer, inpt, outpt) + [buffer[inpt]]
  {
    assert Fill(Next(inpt), outpt) == Fill(inpt, outpt) + 1;
    assert Slot(outpt, Fill(inpt, outpt)) == inpt;
  }

  /** Advancing outpt drops the oldest one. */
  lemma PublishDrops(buffer: seq<real>, inpt: nat, outpt: nat)
    requires |buffer| == MICRINGLEN && inpt < MICRINGLEN && outpt < MICRINGLEN && inpt != outpt
    ensures Held(buffer, inpt, outpt) == [buffer[outpt]] + Held(buffer, inpt, Next(outpt))
  {
    assert Fill(inpt, outpt) == Fill(inpt, Next(outpt)) + 1;
    assert forall k :: 0 < k < Fill(inpt, outpt) ==> Slot(outpt, k) == Slot(Next(outpt), k - 1);
  }

  // ----- The two threads, one access at a time -----

  datatype Producer =
    | Ready                                // waiting for the next sample of the sound card
    | Test(sample: real, newpt: nat)       // newpt computed; compare it with outpt
    | Store(sample: real, newpt: nat)      // there is room; write the slot
    | PublishIn(sample: real, newpt: nat)  // slot written; inpt = newpt is next

  datatype Consumer =
    | Resting
    | Load(newpt: nat)                      // the ring was not empty; read the slot
    | PublishOut(sample: real, newpt: nat)  // slot read; outpt = newpt is next

  /** `accepted` are the samples published by the producer, `consumed` those returned by the consumer. */
  datatype State = State(buffer: seq<real>, inpt: nat, outpt: nat, producer: Producer, consumer: Consumer,
                         accepted: seq<real>, consumed: seq<real>)

  /** One step of one of the threads. A producer that is ready gets `sample`; a consumer at rest polls. */
  datatype Event = Produce(sample: real) | Consume

  ghost predicate Bounds(s: State) {
    && |s.buffer| == MICRINGLEN && s.inpt < MICRINGLEN && s.outpt < MICRINGLEN
    && (!s.producer.Ready? ==> s.producer.newpt < MICRINGLEN)
    && (!s.consumer.Resting? ==> s.consumer.newpt < MICRINGLEN)
  }

  ghost predicate Initial(s: State) {
    Bounds(s) && s.inpt == s.outpt == 0 && s.producer.Ready? && s.consumer.Resting?
    && s.accepted == s.consumed == []
  }

  ghost function ProducerStep(s: State, sample: real): State
    requires Bounds(s)
  {
    match s.producer
    case Ready => s.(producer := Test(sample, Next(s.inpt)))
    case Test(x, newpt) => s.(producer := if newpt != s.outpt then Store(x, newpt) else Ready)
    case Store(x, newpt) => s.(buffer := s.buffer[s.inpt := x], producer := PublishIn(x, newpt))
    case PublishIn(x, newpt) => s.(inpt := newpt, producer := Ready, accepted := s.accepted + [x])
  }

  ghost function ConsumerStep(s: State): State
    requires Bounds(s)
  {
    match s.consumer
    case Resting => if s.inpt == s.outpt then s else s.(consumer := Load(Next(s.outpt)))
    case Load(newpt) => s.(consumer := PublishOut(s.buffer[s.outpt], newpt))
    case PublishOut(x, newpt) => s.(outpt := newpt, consumer := Resting, consumed := s.consumed + [x])
  }

  ghost function Step(s: State, e: Event): (t: State)
    requires Bounds(s)
    ensures Bounds(t)
  {
    match e
    case Produce(sample) => ProducerStep(s, sample)
    case Consume => ConsumerStep(s)
  }

  ghost predicate Inv(s: State) {
    && Bounds(s)
    // first in, first out
    && s.accepted == s.consumed + Held(s.buffer, s.inpt, s.outpt)
    // what each side may rely on while the other moves
    && (!s.producer.Ready? ==> s.producer.newpt == Next(s.inpt))
    && (s.producer.Store? || s.producer.PublishIn? ==> Next(s.inpt) != s.outpt)
    && (s.producer.PublishIn? ==> s.buffer[s.inpt] == s.producer.sample)
    && (!s.consumer.Resting? ==> s.consumer.newpt == Next(s.outpt) && s.inpt != s.outpt)
    && (s.consumer.PublishOut? ==> s.buffer[s.outpt] == s.consumer.sample)
  }

  /** A step of the producer keeps the invariant. A sample is dropped exactly when 8191 samples are waiting at the
      moment of the test, and the slot that is written holds no unread sample. */
  lemma ProducerInv(s: State, sample: real)
    requires Inv(s)
    ensures Inv(ProducerStep(s, sample))
    ensures s.producer.Test? ==>
              (ProducerStep(s, sample).producer.Ready? <==> Fill(s.inpt, s.outpt) == MICRINGLEN - 1)
    ensures s.producer.Store? ==> forall k :: 0 <= k < Fill(s.inpt, s.outpt) ==> Slot(s.outpt, k) != s.inpt
  {
    match s.producer
    case Store(x, _) => StoreKeepsHeld(s.buffer, s.inpt, s.outpt, x);
    case PublishIn(_, _) => PublishAppends(s.buffer, s.inpt, s.outpt);
    case _ =>
  }

  /** A step of the consumer keeps the invariant; what it returns is the oldest unread sample. */
  lemma ConsumerInv(s: State)
    requires Inv(s)
    ensures Inv(ConsumerStep(s))
    ensures s.consumer.PublishOut? ==>
              Fill(s.inpt, s.outpt) > 0 && s.consumer.sample == Held(s.buffer, s.inpt, s.outpt)[0]
  {
    if s.consumer.PublishOut? {
      PublishDrops(s.buffer, s.inpt, s.outpt);
    }
  }

  lemma StepKeepsInv(s: State, e: Event)
    requires Inv(s)
    ensures Inv(Step(s, e))
  {
    match e
    case Produce(sample) => ProducerInv(s, sample);
    case Consume => ConsumerInv(s);
  }

  ghost function Run(s: State, es: seq<Event>): (t: State)
    requires Bounds(s)
    ensures Bounds(t)
    decreases |es|
  {
    if es == [] then s else Run(Step(s, es[0]), es[1..])
  }

  lemma {:induction false} RunInv(s: State, es: seq<Event>)
    requires Inv(s)
    ensures Inv(Run(s, es))
    decreases |es|
  {
    if es != [] {
      StepKeepsInv(s, es[0]);
      RunInv(Step(s, es[0]), es[1..]);
    }
  }

  /** Over every interleaving: the samples consumed, followed by those still in the ring, are the accepted samples
      in order, and at most 8191 are held. */
  lemma LockFreeFifo(s: State, es: seq<Event>)
    requires Initial(s)
    ensures var t := Run(s, es);
            t.accepted == t.consumed + Held(t.buffer, t.inpt, t.outpt)
            && |Held(t.buffer, t.inpt, t.outpt)| <= 8191
  {
    assert Inv(s);
    RunInv(s, es);
  }

  // ----- What is accepted, read off the samples of the sound card -----

  /** The samples that find room: one is taken from the sound card when the producer is ready, and it is accepted if
      fewer than 8191 are unread when its turn to be tested comes. `x` is the sample in hand. */
  ghost function Admitted(s: State, es: seq<Event>, x: real): seq<real>
    requires Bounds(s)
    decreases |es|
  {
    if es == [] then []
    else
      var e := es[0];
      var hand := if e.Produce? && s.producer.Ready? then e.sample else x;
      (if e.Produce? && s.producer.Test? && Fill(s.inpt, s.outpt) < 8191 then [x] else [])
      + Admitted(Step(s, e), es[1..], hand)
  }

  /** The sample that has found room and is not published yet. */
  ghost function UnderWay(s: State): seq<real> {
    if s.producer.Store? || s.producer.PublishIn? then [s.producer.sample] else []
  }

  ghost predicate InHand(s: State, x: real) {
    !s.producer.Ready? ==> s.producer.sample == x
  }

  lemma StepAdmits(s: State, e: Event, x: real)
    requires Inv(s) && InHand(s, x)
    ensures var t, hand := Step(s, e), if e.Produce? && s.producer.Ready? then e.sample else x;
            && InHand(t, hand)
            && t.accepted + UnderWay(t)
               == (s.accepted + UnderWay(s))
                  + if e.Produce? && s.producer.Test? && Fill(s.inpt, s.outpt) < 8191 then [x] else []
  {
    if e.Produce? {
      ProducerInv(s, e.sample);
    }
  }

  lemma AssocSamples(a: seq<real>, b: seq<real>, c: seq<real>)
    ensures (a + b) + c == a + (b + c)
  {
  }

  lemma {:induction false} RunAdmits(s: State, es: seq<Event>, x: real)
    requires Inv(s) && InHand(s, x)
    ensures var t := Run(s, es); t.accepted + UnderWay(t) == (s.accepted + UnderWay(s)) + Admitted(s, es, x)
    decreases |es|
  {
    if es != [] {
      var e := es[0];
      var t, hand := Step(s, e), if e.Produce? && s.producer.Ready? then e.sample else x;
      var one := if e.Produce? && s.producer.Test? && Fill(s.inpt, s.outpt) < 8191 then [x] else [];
      StepAdmits(s, e, x);
      StepKeepsInv(s, e);
      RunAdmits(t, es[1..], hand);
      AssocSamples(s.accepted + UnderWay(s), one, Admitted(t, es[1..], hand));
    }
  }

  /** Over every interleaving the accepted samples, and the one under way, are the samples of the sound card that found
      room, in order. */
  lemma AcceptedIsAdmitted(s: State, es: seq<Event>, x: real)
    requires Initial(s)
    ensures var t := Run(s, es); t.accepted + UnderWay(t) == Admitted(s, es, x)
  {
    RunAdmits(s, es, x);
    assert s.accepted + UnderWay(s) == [];
  }

  // ----- Neither side waits for the other -----

  function Polls(es: seq<Event>): nat {
    if es == [] then 0 else (if es[0].Consume? then 1 else 0) + Polls(es[1..])
  }

  function Offers(es: seq<Event>): nat {
    if es == [] then 0 else (if es[0].Produce? then 1 else 0) + Offers(es[1..])
  }

  /** How many accesses a read needs from here, the ring not being empty. */
  function ReadLeft(c: Consumer): nat {
    match c
    case Resting => 3
    case Load(_) => 2
    case PublishOut(_, _) => 1
  }

  lemma ReadStep(s: State, e: Event)
    requires Inv(s) && s.inpt != s.outpt
    ensures var t, h := Step(s, e), Held(s.buffer, s.inpt, s.outpt);
            if e.Consume? && s.consumer.PublishOut? then t.consumed == s.consumed + [h[0]] && t.consumer.Resting?
            else && t.consumed == s.consumed && t.outpt == s.outpt && t.inpt != t.outpt
                 && Held(t.buffer, t.inpt, t.outpt)[0] == h[0]
                 && ReadLeft(t.consumer) == ReadLeft(s.consumer) - if e.Consume? then 1 else 0
  {
    if e.Produce? {
      ProducerInv(s, e.sample);
      assert Inv(Step(s, e));
      assert s.accepted == s.consumed + Held(s.buffer, s.inpt, s.outpt);
      assert Slot(s.outpt, 0) == s.outpt;
    } else {
      ConsumerInv(s);
    }
  }

  /** Whatever the producer does, a read of a ring that is not empty ends after three accesses of the consumer, with the
      oldest sample. */
  lemma {:induction false} ReadEnds(s: State, es: seq<Event>)
    requires Inv(s) && s.inpt != s.outpt && es != [] && es[|es| - 1].Consume?
    requires Polls(es) == ReadLeft(s.consumer)
    ensures var t := Run(s, es);
            t.consumer.Resting? && t.consumed == s.consumed + [Held(s.buffer, s.inpt, s.outpt)[0]]
    decreases |es|
  {
    ReadStep(s, es[0]);
    if |es| > 1 {
      StepKeepsInv(s, es[0]);
      assert es[1..][|es| - 2] == es[|es| - 1];
      SomePoll(es[1..]);
      ReadEnds(Step(s, es[0]), es[1..]);
    } else {
      assert Run(Step(s, es[0]), es[1..]) == Step(s, es[0]);
    }
  }

  lemma {:induction false} SomePoll(es: seq<Event>)
    requires es != [] && es[|es| - 1].Consume?
    ensures Polls(es) > 0
  {
    if |es| > 1 {
      SomePoll(es[1..]);
    }
  }

  /** How many accesses a write needs from here, if there is room. */
  function WriteLeft(p: Producer): nat {
    match p
    case Ready => 4
    case Test(_, _) => 3
    case Store(_, _) => 2
    case PublishIn(_, _) => 1
  }

  ghost predicate Writing(s: State) {
    Inv(s) && !s.producer.Ready? && (s.producer.Test? ==> Fill(s.inpt, s.outpt) < 8191)
  }

  lemma WriteStep(s: State, e: Event)
    requires Writing(s)
    ensures var t := Step(s, e);
            if e.Produce? && s.producer.PublishIn? then
              t.accepted == s.accepted + [s.producer.sample] && t.producer.Ready?
            else
              && t.accepted == s.accepted && Writing(t) && t.producer.sample == s.producer.sample
              && WriteLeft(t.producer) == WriteLeft(s.producer) - if e.Produce? then 1 else 0
  {
    StepKeepsInv(s, e);
    if e.Consume? {
      assert Fill(s.inpt, Step(s, e).outpt) <= Fill(s.inpt, s.outpt);
    } else {
      ProducerInv(s, e.sample);
    }
  }

  lemma {:induction false} SomeOffer(es: seq<Event>)
    requires es != [] && es[|es| - 1].Produce?
    ensures Offers(es) > 0
  {
    if |es| > 1 {
      SomeOffer(es[1..]);
    }
  }

  lemma {:induction false} WritingEnds(s: State, es: seq<Event>)
    requires Writing(s) && es != [] && es[|es| - 1].Produce? && Offers(es) == WriteLeft(s.producer)
    ensures var t := Run(s, es); t.producer.Ready? && t.accepted == s.accepted + [s.producer.sample]
    decreases |es|
  {
    WriteStep(s, es[0]);
    if |es| > 1 {
      assert es[1..][|es| - 2] == es[|es| - 1];
      SomeOffer(es[1..]);
      WritingEnds(Step(s, es[0]), es[1..]);
    } else {
      assert Run(Step(s, es[0]), es[1..]) == Step(s, es[0]);
    }
  }

  /** Whatever the consumer does, a sample for which there is room when it comes from the sound card is accepted after
      four accesses of the producer. */
  lemma WriteEnds(s: State, es: seq<Event>)
    requires Inv(s) && s.producer.Ready? && Fill(s.inpt, s.outpt) < 8191
    requires |es| > 1 && es[0].Produce? && es[|es| - 1].Produce? && Offers(es) == 4
    ensures var t := Run(s, es); t.producer.Ready? && t.accepted == s.accepted + [es[0].sample]
  {
    StepKeepsInv(s, es[0]);
    assert es[1..][|es| - 2] == es[|es| - 1];
    WritingEnds(Step(s, es[0]), es[1..]);
  }

  // ----- The two functions, each run to its end -----

  class AudioData {
    const audioBuffer: array<real>
    var audioBufferInpt: nat
    var audioBufferOutpt: nat

    ghost predicate Valid()
      reads this
    {
      audioBuffer.Length == MICRINGLEN && audioBufferInpt < MICRINGLEN && audioBufferOutpt < MICRINGLEN
    }

    ghost function Contents(): seq<real>
      requires Valid()
      reads this, audioBuffer
    {
      Held(audioBuffer[..], audioBufferInpt, audioBufferOutpt)
    }

    constructor ()
      ensures Valid() && Contents() == [] && fresh(audioBuffer)
    {
      audioBuffer := new real[MICRINGLEN];
      audioBufferInpt, audioBufferOutpt := 0, 0;
    }

    /** The ring part of the loop in tx_audio_thread. */
    method Put(sample: real)
      requires Valid()
      modifies this`audioBufferInpt, audioBuffer
      ensures Valid()
      ensures Contents() == old(Contents()) + if old(|Contents()|) < 8191 then [sample] else []
    {
      var newpt := Next(audioBufferInpt);
      if newpt != audioBufferOutpt {
        ghost var before := audioBuffer[..];
        audioBuffer[audioBufferInpt] := sample;
        assert audioBuffer[..] == before[audioBufferInpt := sample];
        StoreKeepsHeld(before, audioBufferInpt, audioBufferOutpt, sample);
        PublishAppends(audioBuffer[..], audioBufferInpt, audioBufferOutpt);
        audioBufferInpt := newpt;
      }
    }

    /** audio_get_next_mic_sample: silence if there is nothing to read. */
    method GetNextMicSample() returns (sample: real)
      requires Valid()
      modifies this`audioBufferOutpt
      ensures Valid()
      ensures old(Contents()) == [] ==> sample == 0.0 && Contents() == []
      ensures old(Contents()) != [] ==> old(Contents()) == [sample] + Contents()
    {
      if audioBufferInpt == audioBufferOutpt {
        return 0.0;
      }
      PublishDrops(audioBuffer[..], audioBufferInpt, audioBufferOutpt);
      var newpt := Next(audioBufferOutpt);
      sample := audioBuffer[audioBufferOutpt];
      audioBufferOutpt := newpt;
    }
  }
}
