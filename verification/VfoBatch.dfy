/** Batched VFO updates of a remote client (src/client_thread.c): knob turns are added up and sent every 100 ms, as
    steps in a signed 16-bit word (send_vfo_step) and as a frequency difference in a signed 64-bit word
    (send_vfo_move). The server adds what it decodes. */
module VfoBatch {
  import opened Words

  /** A packet with the arguments of send_vfo_step or send_vfo_move. */
  datatype Packet =
    | Step(vfo: nat, steps: int)
    | Move(vfo: nat, hz: int, round: bool)

  /** The pending batch of one VFO. */
  datatype Batch = Batch(steps: int, hz: int, round: bool)

  const VFOS: nat := 2
  const EMPTY := Batch(0, 0, false)

  datatype Event =
    | AddSteps(vfo: nat, steps: int)
    | AddMove(vfo: nat, hz: int, round: bool)
    | Tick

  /** What the timer sends for VFO v. */
  function Sent(v: nat, b: Batch): seq<Packet> {
    (if b.steps != 0 then [Step(v, b.steps)] else []) + if b.hz != 0 || b.round then [Move(v, b.hz, b.round)] else []
  }

  datatype State = State(pending: seq<Batch>, wire: seq<Packet>)

  ghost predicate Shape(s: State) {
    |s.pending| == VFOS
  }

  predicate Possible(e: Event) {
    !e.Tick? ==> e.vfo < VFOS
  }

  function Next(s: State, e: Event): (t: State)
    requires |s.pending| == VFOS && Possible(e)
    ensures |t.pending| == VFOS
  {
    match e
    case AddSteps(v, n) => s.(pending := s.pending[v := s.pending[v].(steps := s.pending[v].steps + n)])
    case AddMove(v, hz, round) =>
      s.(pending := s.pending[v := s.pending[v].(hz := s.pending[v].hz + hz, round := round)])
    case Tick =>
      State([EMPTY, EMPTY], s.wire + Sent(0, s.pending[0]) + Sent(1, s.pending[1]))
  }

  function Run(es: seq<Event>): (t: State)
    requires forall i :: 0 <= i < |es| ==> Possible(es[i])
    ensures |t.pending| == VFOS
  {
    if es == [] then State([EMPTY, EMPTY], [])
    else Next(Run(es[..|es| - 1]), es[|es| - 1])
  }

  // ----- Conservation -----

  function AskedSteps(v: nat, es: seq<Event>): int {
    if es == [] then 0
    else
      var e := es[|es| - 1];
      AskedSteps(v, es[..|es| - 1]) + if e.AddSteps? && e.vfo == v then e.steps else 0
  }

  function AskedHz(v: nat, es: seq<Event>): int {
    if es == [] then 0
    else
      var e := es[|es| - 1];
      AskedHz(v, es[..|es| - 1]) + if e.AddMove? && e.vfo == v then e.hz else 0
  }

  /** What the server makes of the packets. */
  function DecodedSteps(v: nat, wire: seq<Packet>): int {
    if wire == [] then 0
    else
      var p := wire[|wire| - 1];
      DecodedSteps(v, wire[..|wire| - 1]) + if p.Step? && p.vfo == v then Wrap(p.steps, HALF16) else 0
  }

  function DecodedHz(v: nat, wire: seq<Packet>): int {
    if wire == [] then 0
    else
      var p := wire[|wire| - 1];
      DecodedHz(v, wire[..|wire| - 1]) + if p.Move? && p.vfo == v then Wrap(p.hz, HALF64) else 0
  }

  lemma {:induction false} DecodedAppend(v: nat, w: seq<Packet>, x: seq<Packet>)
    ensures DecodedSteps(v, w + x) == DecodedSteps(v, w) + DecodedSteps(v, x)
    ensures DecodedHz(v, w + x) == DecodedHz(v, w) + DecodedHz(v, x)
  {
    if x == [] {
      assert w + x == w;
    } else {
      assert (w + x)[..|w + x| - 1] == w + x[..|x| - 1];
      DecodedAppend(v, w, x[..|x| - 1]);
    }
  }

  lemma OneDecodes(v: nat, p: Packet)
    ensures DecodedSteps(v, [p]) == if p.Step? && p.vfo == v then Wrap(p.steps, HALF16) else 0
    ensures DecodedHz(v, [p]) == if p.Move? && p.vfo == v then Wrap(p.hz, HALF64) else 0
  {
    assert [p][..0] == [];
  }

  lemma SentDecodes(v: nat, u: nat, b: Batch)
    ensures DecodedSteps(v, Sent(u, b)) == if u == v then Wrap(b.steps, HALF16) else 0
    ensures DecodedHz(v, Sent(u, b)) == if u == v then Wrap(b.hz, HALF64) else 0
  {
    var step, move := Step(u, b.steps), Move(u, b.hz, b.round);
    OneDecodes(v, step);
    OneDecodes(v, move);
    DecodedAppend(v, if b.steps != 0 then [step] else [], if b.hz != 0 || b.round then [move] else []);
  }

  lemma TickDecodes(s: State, v: nat)
    requires Shape(s) && v < VFOS
    ensures DecodedSteps(v, Next(s, Tick).wire) == DecodedSteps(v, s.wire) + Wrap(s.pending[v].steps, HALF16)
    ensures DecodedHz(v, Next(s, Tick).wire) == DecodedHz(v, s.wire) + Wrap(s.pending[v].hz, HALF64)
  {
    DecodedAppend(v, s.wire + Sent(0, s.pending[0]), Sent(1, s.pending[1]));
    DecodedAppend(v, s.wire, Sent(0, s.pending[0]));
    SentDecodes(v, 0, s.pending[0]);
    SentDecodes(v, 1, s.pending[1]);
  }

  /** How many times 65536 steps were lost on the way: once for each multiple by which a batch exceeded its word. */
  ghost function LostSteps(v: nat, es: seq<Event>): int
    requires v < VFOS && forall i :: 0 <= i < |es| ==> Possible(es[i])
  {
    if es == [] then 0
    else
      var before := es[..|es| - 1];
      LostSteps(v, before) + if es[|es| - 1].Tick? then Lost(Run(before).pending[v].steps, HALF16) else 0
  }

  ghost function LostHz(v: nat, es: seq<Event>): int
    requires v < VFOS && forall i :: 0 <= i < |es| ==> Possible(es[i])
  {
    if es == [] then 0
    else
      var before := es[..|es| - 1];
      LostHz(v, before) + if es[|es| - 1].Tick? then Lost(Run(before).pending[v].hz, HALF64) else 0
  }

  /** Over any interleaving of updates and timer ticks, what was asked for is what the far end has decoded, plus what
      is pending, plus a multiple of the range of the word. */
  lemma {:induction false} Conservation(v: nat, es: seq<Event>)
    requires v < VFOS && forall i :: 0 <= i < |es| ==> Possible(es[i])
    ensures AskedSteps(v, es)
         == DecodedSteps(v, Run(es).wire) + Run(es).pending[v].steps + 65536 * LostSteps(v, es)
    ensures AskedHz(v, es)
         == DecodedHz(v, Run(es).wire) + Run(es).pending[v].hz + 2 * HALF64 * LostHz(v, es)
  {
    if es != [] {
      var before := es[..|es| - 1];
      Conservation(v, before);
      if es[|es| - 1].Tick? {
        TickDecodes(Run(before), v);
        WrapLoses(Run(before).pending[v].steps, HALF16);
        WrapLoses(Run(before).pending[v].hz, HALF64);
      }
    }
  }

  /** Every batch of steps that a tick of this run sends for VFO v fits its word. */
  ghost predicate StepsFit(v: nat, es: seq<Event>)
    requires v < VFOS && forall i :: 0 <= i < |es| ==> Possible(es[i])
  {
    es == [] ||
    (var before := es[..|es| - 1];
     && StepsFit(v, before)
     && (es[|es| - 1].Tick? ==> -HALF16 <= Run(before).pending[v].steps < HALF16))
  }

  /** Its Hz stay within the 64 bits of the accumulator, and so of the wire. */
  ghost predicate HzFit(v: nat, es: seq<Event>)
    requires v < VFOS && forall i :: 0 <= i < |es| ==> Possible(es[i])
  {
    es == [] ||
    (var before := es[..|es| - 1];
     && HzFit(v, before)
     && (es[|es| - 1].Tick? ==> -HALF64 <= Run(before).pending[v].hz < HALF64))
  }

  /** No step is lost if every batch fits in 16 bits. */
  lemma {:induction false} NoStepLost(v: nat, es: seq<Event>)
    requires v < VFOS && (forall i :: 0 <= i < |es| ==> Possible(es[i])) && StepsFit(v, es)
    ensures AskedSteps(v, es) == DecodedSteps(v, Run(es).wire) + Run(es).pending[v].steps
  {
    if es != [] {
      var before := es[..|es| - 1];
      NoStepLost(v, before);
      if es[|es| - 1].Tick? {
        TickDecodes(Run(before), v);
      }
    }
  }

  /** And no Hz, whatever the steps do. */
  lemma {:induction false} NoHzLost(v: nat, es: seq<Event>)
    requires v < VFOS && (forall i :: 0 <= i < |es| ==> Possible(es[i])) && HzFit(v, es)
    ensures AskedHz(v, es) == DecodedHz(v, Run(es).wire) + Run(es).pending[v].hz
  {
    if es != [] {
      var before := es[..|es| - 1];
      NoHzLost(v, before);
      if es[|es| - 1].Tick? {
        TickDecodes(Run(before), v);
      }
    }
  }

  /** A tick keeps the account of the steps exactly when the batch fits; 32768 steps in one batch do not. */
  lemma TickKeepsStepsIffFit(s: State, v: nat)
    requires Shape(s) && v < VFOS
    ensures var t := Next(s, Tick);
            DecodedSteps(v, t.wire) + t.pending[v].steps == DecodedSteps(v, s.wire) + s.pending[v].steps
            <==> -32768 <= s.pending[v].steps < 32768
  {
    TickDecodes(s, v);
  }

  // ----- What the wire carries, read off the events alone -----

  /** The events after the last tick. */
  function Since(es: seq<Event>): seq<Event> {
    if es == [] || es[|es| - 1].Tick? then [] else Since(es[..|es| - 1]) + [es[|es| - 1]]
  }

  /** The rounding flag of the last move of VFO v, if there is one. */
  function LastRound(v: nat, es: seq<Event>): bool {
    if es == [] then false
    else
      var e := es[|es| - 1];
      if e.AddMove? && e.vfo == v then e.round else LastRound(v, es[..|es| - 1])
  }

  lemma SumsLast(v: nat, es: seq<Event>, e: Event)
    ensures AskedSteps(v, es + [e]) == AskedSteps(v, es) + if e.AddSteps? && e.vfo == v then e.steps else 0
    ensures AskedHz(v, es + [e]) == AskedHz(v, es) + if e.AddMove? && e.vfo == v then e.hz else 0
    ensures LastRound(v, es + [e]) == if e.AddMove? && e.vfo == v then e.round else LastRound(v, es)
  {
    assert (es + [e])[..|es|] == es;
  }

  /** What is pending is what was asked for since the last tick. */
  lemma {:induction false} PendingIs(v: nat, es: seq<Event>)
    requires v < VFOS && forall i :: 0 <= i < |es| ==> Possible(es[i])
    ensures Run(es).pending[v] == Batch(AskedSteps(v, Since(es)), AskedHz(v, Since(es)), LastRound(v, Since(es)))
  {
    if es != [] && !es[|es| - 1].Tick? {
      var before := es[..|es| - 1];
      PendingIs(v, before);
      SumsLast(v, Since(before), es[|es| - 1]);
    }
  }

  /** The packets of VFO v at a tick: the sum of the steps if it is not zero, and then the sum of the Hz with the flag
      of the last move, if the sum is not zero or the flag is set; so a move of 0 Hz that asks for rounding is sent. */
  function Packets(v: nat, since: seq<Event>): seq<Packet> {
    (if AskedSteps(v, since) == 0 then [] else [Step(v, AskedSteps(v, since))])
    + if AskedHz(v, since) == 0 && !LastRound(v, since) then []
      else [Move(v, AskedHz(v, since), LastRound(v, since))]
  }

  function Carried(es: seq<Event>): seq<Packet> {
    if es == [] then []
    else
      var before := es[..|es| - 1];
      Carried(before) + if es[|es| - 1].Tick? then Packets(0, Since(before)) + Packets(1, Since(before)) else []
  }

  lemma SentIsPackets(v: nat, since: seq<Event>)
    ensures Sent(v, Batch(AskedSteps(v, since), AskedHz(v, since), LastRound(v, since))) == Packets(v, since)
  {
  }

  lemma AssocPackets(a: seq<Packet>, b: seq<Packet>, c: seq<Packet>)
    ensures (a + b) + c == a + (b + c)
  {
  }

  lemma TickCarries(es: seq<Event>)
    requires forall i :: 0 <= i < |es| ==> Possible(es[i])
    ensures Next(Run(es), Tick).wire == Run(es).wire + (Packets(0, Since(es)) + Packets(1, Since(es)))
  {
    PendingIs(0, es);
    PendingIs(1, es);
    SentIsPackets(0, Since(es));
    SentIsPackets(1, Since(es));
    AssocPackets(Run(es).wire, Packets(0, Since(es)), Packets(1, Since(es)));
  }

  /** Over any run the wire carries, for each tick, just these packets, first of one VFO and then of the other. */
  lemma {:induction false} WireIs(es: seq<Event>)
    requires forall i :: 0 <= i < |es| ==> Possible(es[i])
    ensures Run(es).wire == Carried(es)
  {
    if es != [] {
      var before := es[..|es| - 1];
      WireIs(before);
      TickCarries(before);
    }
  }

  // ----- The accumulators themselves; each method runs under accumulated_mutex -----

  class Accumulators {
    const steps: array<int>
    const hz: array<int>
    const round: array<bool>
    var wire: seq<Packet>

    ghost predicate Valid()
      reads this
    {
      steps.Length == VFOS && hz.Length == VFOS && round.Length == VFOS && steps != hz
    }

    ghost function Pending(v: nat): Batch
      requires Valid() && v < VFOS
      reads this, steps, hz, round
    {
      Batch(steps[v], hz[v], round[v])
    }

    ghost function Abstract(): State
      requires Valid()
      reads this, steps, hz, round
    {
      State([Pending(0), Pending(1)], wire)
    }

    constructor ()
      ensures Valid() && Abstract() == Run([]) && fresh(steps) && fresh(hz) && fresh(round)
    {
      steps := new int[VFOS](_ => 0);
      hz := new int[VFOS](_ => 0);
      round := new bool[VFOS](_ => false);
      wire := [];
    }

    method UpdateVfoMove(v: nat, dhz: int, rnd: bool)
      requires Valid() && v < VFOS
      modifies hz, round
      ensures Valid() && Abstract() == Next(old(Abstract()), AddMove(v, dhz, rnd))
    {
      hz[v] := hz[v] + dhz;
      round[v] := rnd;
    }

    method UpdateVfoStep(v: nat, n: int)
      requires Valid() && v < VFOS
      modifies steps
      ensures Valid() && Abstract() == Next(old(Abstract()), AddSteps(v, n))
    {
      steps[v] := steps[v] + n;
    }

    /** One round of the loop in check_vfo. */
    method Send(v: nat)
      requires Valid() && v < VFOS
      modifies this`wire, steps, hz, round
      ensures Valid() && wire == old(wire) + Sent(v, old(Pending(v)))
      ensures Pending(v) == EMPTY && Pending(1 - v) == old(Pending(1 - v))
    {
      if steps[v] != 0 {
        wire := wire + [Step(v, steps[v])];
        steps[v] := 0;
      }
      if hz[v] != 0 || round[v] {
        wire := wire + [Move(v, hz[v], round[v])];
        hz[v] := 0;
        round[v] := false;
      }
    }

    /** The timer of check_vfo, without its ping. */
    method CheckVfo()
      requires Valid()
      modifies this`wire, steps, hz, round
      ensures Valid() && Abstract() == Next(old(Abstract()), Tick)
    {
      for v := 0 to VFOS
        invariant Valid()
        invariant forall u :: 0 <= u < v ==> Pending(u) == EMPTY
        invariant forall u :: v <= u < VFOS ==> Pending(u) == old(Pending(u))
        invariant v == 0 ==> wire == old(wire)
        invariant v == 1 ==> wire == old(wire) + Sent(0, old(Pending(0)))
        invariant v == 2 ==> wire == old(wire) + Sent(0, old(Pending(0))) + Sent(1, old(Pending(1)))
      {
        Send(v);
      }
    }
  }
}
