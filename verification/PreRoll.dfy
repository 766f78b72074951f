/** The microphone buffer of a remote client (src/client_thread.c, remote_txaudio_thread): samples are collected into
    packets of N, which are sent while transmitting; otherwise half of a full buffer is kept, so that some audio from
    before a transmission is available when it begins. N is 512 for PCM and 960 for Opus. */
module PreRoll {

  type Sample = int

  /** One microphone sample, and whether the transmitter wants audio at that moment. */
  datatype Tick = Tick(sample: Sample, on: bool)

  /** The buffer became full after `pos` samples of the stream, and was sent or not. */
  datatype Full = Full(pos: nat, sent: bool)

  /** `buffer` are the samples collected and `packets` those sent; `mic` is the whole stream and `fulls` the moments
      at which the buffer was full. */
  datatype State = State(buffer: seq<Sample>, packets: seq<seq<Sample>>, mic: seq<Sample>, fulls: seq<Full>)

  function Start(): State {
    State([], [], [], [])
  }

  function Add(n: nat, s: State, t: Tick): State {
    var buffer, mic := s.buffer + [t.sample], s.mic + [t.sample];
    if |buffer| < n then s.(buffer := buffer, mic := mic)
    else
      var fulls := s.fulls + [Full(|mic|, t.on)];
      if t.on then State([], s.packets + [buffer], mic, fulls)
      else State(buffer[n / 2..], s.packets, mic, fulls)
  }

  function Run(n: nat, ticks: seq<Tick>): State {
    if ticks == [] then Start()
    else Add(n, Run(n, ticks[..|ticks| - 1]), ticks[|ticks| - 1])
  }

  // ----- What was sent -----

  /** The last `k` samples of the stream. */
  function Recent(mic: seq<Sample>, k: nat): seq<Sample>
    requires k <= |mic|
  {
    mic[|mic| - k..]
  }

  /** How many more samples fill the buffer again after a full event: all n if it was sent, else what was dropped. */
  function Refill(n: nat, e: Full): nat {
    if e.sent then n else n - n / 2
  }

  /** Full events lie in the stream, the first one after exactly n samples and each later one exactly after the
      refill of the one before. */
  ghost predicate Spaced(n: nat, fulls: seq<Full>) {
    && (fulls != [] ==> fulls[0].pos == n)
    && forall i, j :: 0 <= i && j == i + 1 < |fulls| ==> fulls[j].pos == fulls[i].pos + Refill(n, fulls[i])
  }

  /** The packets of the full events that were sent: for each the n samples before it. */
  ghost function Blocks(n: nat, mic: seq<Sample>, fulls: seq<Full>): seq<seq<Sample>>
    requires forall i :: 0 <= i < |fulls| ==> n <= fulls[i].pos <= |mic|
  {
    if fulls == [] then []
    else
      var last := fulls[|fulls| - 1];
      Blocks(n, mic, fulls[..|fulls| - 1]) + if last.sent then [mic[last.pos - n..last.pos]] else []
  }

  lemma {:induction false} BlocksExtend(n: nat, mic: seq<Sample>, more: seq<Sample>, fulls: seq<Full>)
    requires forall i :: 0 <= i < |fulls| ==> n <= fulls[i].pos <= |mic|
    ensures Blocks(n, mic + more, fulls) == Blocks(n, mic, fulls)
  {
    if fulls != [] {
      var last := fulls[|fulls| - 1];
      BlocksExtend(n, mic, more, fulls[..|fulls| - 1]);
      assert (mic + more)[last.pos - n..last.pos] == mic[last.pos - n..last.pos];
    }
  }

  /** The position in the stream at which the buffer was last empty or, after a full event that was not sent, began. */
  ghost function Origin(n: nat, fulls: seq<Full>): int {
    if fulls == [] then 0
    else
      var last := fulls[|fulls| - 1];
      if last.sent then last.pos else last.pos - n / 2
  }

  /** The buffer holds the most recent samples, back to the origin. */
  ghost predicate Buffered(n: nat, buffer: seq<Sample>, mic: seq<Sample>, fulls: seq<Full>) {
    && |buffer| < n && |buffer| <= |mic| && buffer == Recent(mic, |buffer|)
    && |mic| - |buffer| == Origin(n, fulls)
  }

  ghost predicate InStream(n: nat, length: nat, fulls: seq<Full>) {
    forall i :: 0 <= i < |fulls| ==> n <= fulls[i].pos <= length
  }

  ghost predicate Inv(n: nat, s: State) {
    && Buffered(n, s.buffer, s.mic, s.fulls)
    && InStream(n, |s.mic|, s.fulls)
    && Spaced(n, s.fulls)
    && s.packets == Blocks(n, s.mic, s.fulls)
  }

  /** What is left of a buffer without its first k samples is still the most recent part of the stream. */
  lemma KeptIsRecent(mic: seq<Sample>, buffer: seq<Sample>, x: Sample, k: nat)
    requires |buffer| <= |mic| && buffer == Recent(mic, |buffer|) && k <= |buffer| + 1
    ensures (buffer + [x])[k..] == Recent(mic + [x], |buffer| + 1 - k)
  {
    var from := |mic| - |buffer| + k;
    assert (mic + [x])[from - k..] == buffer + [x];
    assert (mic + [x])[from - k..][k..] == (mic + [x])[from..];
  }

  lemma CollectBuffered(n: nat, buffer: seq<Sample>, mic: seq<Sample>, fulls: seq<Full>, x: Sample)
    requires Buffered(n, buffer, mic, fulls) && |buffer| + 1 < n
    ensures Buffered(n, buffer + [x], mic + [x], fulls)
  {
    KeptIsRecent(mic, buffer, x, 0);
    assert (buffer + [x])[0..] == buffer + [x];
  }

  lemma CollectInv(n: nat, s: State, t: Tick)
    requires Inv(n, s) && |s.buffer| + 1 < n
    ensures Inv(n, Add(n, s, t))
  {
    CollectBuffered(n, s.buffer, s.mic, s.fulls, t.sample);
    BlocksExtend(n, s.mic, [t.sample], s.fulls);
  }

  /** The full event now: it lies in the stream, and where the spacing wants it. */
  lemma FullPlaced(n: nat, s: State, on: bool)
    requires Inv(n, s) && |s.buffer| + 1 == n
    ensures var fulls := s.fulls + [Full(|s.mic| + 1, on)];
            InStream(n, |s.mic| + 1, fulls) && Spaced(n, fulls)
  {
  }

  lemma FullBlocks(n: nat, s: State, t: Tick)
    requires Inv(n, s) && |s.buffer| + 1 == n
    requires InStream(n, |s.mic| + 1, s.fulls + [Full(|s.mic| + 1, t.on)])
    ensures var mic, full := s.mic + [t.sample], Full(|s.mic| + 1, t.on);
            Blocks(n, mic, s.fulls + [full]) == s.packets + if t.on then [s.buffer + [t.sample]] else []
  {
    var mic, full := s.mic + [t.sample], Full(|s.mic| + 1, t.on);
    BlocksExtend(n, s.mic, [t.sample], s.fulls);
    assert (s.fulls + [full])[..|s.fulls|] == s.fulls;
    KeptIsRecent(s.mic, s.buffer, t.sample, 0);
    assert mic[full.pos - n..full.pos] == Recent(mic, n) == (s.buffer + [t.sample])[0..] == s.buffer + [t.sample];
  }

  lemma OriginIs(n: nat, fulls: seq<Full>, full: Full)
    ensures Origin(n, fulls + [full]) == if full.sent then full.pos else full.pos - n / 2
  {
  }

  lemma SentBuffered(n: nat, mic: seq<Sample>, fulls: seq<Full>)
    requires n > 0
    ensures Buffered(n, [], mic, fulls + [Full(|mic|, true)])
  {
    OriginIs(n, fulls, Full(|mic|, true));
    assert Recent(mic, 0) == [];
  }

  lemma KeptBuffered(n: nat, buffer: seq<Sample>, mic: seq<Sample>, fulls: seq<Full>, x: Sample)
    requires n >= 2 && n % 2 == 0 && Buffered(n, buffer, mic, fulls) && |buffer| + 1 == n
    ensures Buffered(n, (buffer + [x])[n / 2..], mic + [x], fulls + [Full(|mic| + 1, false)])
  {
    OriginIs(n, fulls, Full(|mic| + 1, false));
    KeptIsRecent(mic, buffer, x, n / 2);
  }

  lemma SentInv(n: nat, s: State, x: Sample)
    requires n >= 2 && Inv(n, s) && |s.buffer| + 1 == n
    ensures Inv(n, Add(n, s, Tick(x, true)))
  {
    FullPlaced(n, s, true);
    FullBlocks(n, s, Tick(x, true));
    SentBuffered(n, s.mic + [x], s.fulls);
  }

  lemma KeptInv(n: nat, s: State, x: Sample)
    requires n >= 2 && n % 2 == 0 && Inv(n, s) && |s.buffer| + 1 == n
    ensures Inv(n, Add(n, s, Tick(x, false)))
  {
    FullPlaced(n, s, false);
    FullBlocks(n, s, Tick(x, false));
    KeptBuffered(n, s.buffer, s.mic, s.fulls, x);
  }

  lemma FullInv(n: nat, s: State, t: Tick)
    requires n >= 2 && n % 2 == 0 && Inv(n, s) && |s.buffer| + 1 == n
    ensures Inv(n, Add(n, s, t))
  {
    if t.on {
      SentInv(n, s, t.sample);
    } else {
      KeptInv(n, s, t.sample);
    }
  }

  /** Over any run of samples and switches: the buffer holds the most recent samples; the packets are exactly the n
      samples before each full event that was sent, in order; and full events are spaced so that successive packets
      join without a gap. */
  lemma {:induction false} SentIsContiguous(n: nat, ticks: seq<Tick>)
    requires n >= 2 && n % 2 == 0
    ensures Inv(n, Run(n, ticks))
  {
    if ticks != [] {
      var before, t := ticks[..|ticks| - 1], ticks[|ticks| - 1];
      SentIsContiguous(n, before);
      if |Run(n, before).buffer| + 1 < n {
        CollectInv(n, Run(n, before), t);
      } else {
        FullInv(n, Run(n, before), t);
      }
    }
  }

  function Mic(ticks: seq<Tick>): (mic: seq<Sample>)
    ensures |mic| == |ticks|
  {
    seq(|ticks|, i requires 0 <= i < |ticks| => ticks[i].sample)
  }

  /** The stream that the packets are cut from is the microphone's. */
  lemma {:induction false} StreamIsMic(n: nat, ticks: seq<Tick>)
    ensures Run(n, ticks).mic == Mic(ticks)
  {
    if ticks != [] {
      StreamIsMic(n, ticks[..|ticks| - 1]);
    }
  }

  /** Every sample is sent at most once: a later packet begins where an earlier one ends, or after; and exactly there
      if the full events follow each other. */
  lemma {:induction false} SentOnce(n: nat, fulls: seq<Full>, i: nat, j: nat)
    requires n >= 2 && Spaced(n, fulls) && i < j < |fulls| && fulls[i].sent
    ensures fulls[i].pos + n <= fulls[j].pos
    ensures j == i + 1 ==> fulls[i].pos + n == fulls[j].pos
    decreases j
  {
    if j > i + 1 {
      SentOnce(n, fulls, i, j - 1);
      assert fulls[j].pos == fulls[j - 1].pos + Refill(n, fulls[j - 1]);
    }
  }

  /** A full buffer is sent exactly if the transmitter wants audio at that moment. */
  lemma {:induction false} FullsFollowSwitch(n: nat, ticks: seq<Tick>, i: nat)
    requires i < |Run(n, ticks).fulls|
    ensures var full := Run(n, ticks).fulls[i];
            1 <= full.pos <= |ticks| && full.sent == ticks[full.pos - 1].on
  {
    StreamIsMic(n, ticks);
    var before := ticks[..|ticks| - 1];
    StreamIsMic(n, before);
    if i < |Run(n, before).fulls| {
      FullsFollowSwitch(n, before, i);
      assert Run(n, ticks).fulls[i] == Run(n, before).fulls[i];
    }
  }

  // ----- The packets, read off the microphone and the switch alone -----

  /** The buffer being full after p samples, when will it be full again? Another n samples if it is sent, else as many
      as half of it takes. */
  function Again(n: nat, p: nat, on: bool): nat {
    p + if on then n else n - n / 2
  }

  /** The packets that are due when the buffer is full after p samples: the last n samples if the transmitter wants
      audio then, and so on from the next time it is full. */
  function Due(n: nat, ticks: seq<Tick>, p: nat): seq<seq<Sample>>
    requires 2 <= n <= p
    decreases |ticks| - p
  {
    if p > |ticks| then [] else At(n, ticks, p) + Due(n, ticks, Again(n, p, ticks[p - 1].on))
  }

  /** The packet after p samples, if one is sent then. */
  function At(n: nat, ticks: seq<Tick>, p: nat): seq<seq<Sample>>
    requires 1 <= n <= p <= |ticks|
  {
    if ticks[p - 1].on then [Mic(ticks[p - n..p])] else []
  }

  /** The first time after the end that it is full. */
  function NextFull(n: nat, ticks: seq<Tick>, p: nat): (q: nat)
    requires 2 <= n <= p
    ensures q > |ticks|
    decreases |ticks| - p
  {
    if p > |ticks| then p else NextFull(n, ticks, Again(n, p, ticks[p - 1].on))
  }

  lemma AssocPackets(a: seq<seq<Sample>>, b: seq<seq<Sample>>, c: seq<seq<Sample>>)
    ensures (a + b) + c == a + (b + c)
  {
  }

  lemma AtStays(n: nat, ticks: seq<Tick>, t: Tick, p: nat)
    requires 1 <= n <= p <= |ticks|
    ensures At(n, ticks + [t], p) == At(n, ticks, p) && (ticks + [t])[p - 1] == ticks[p - 1]
  {
    assert (ticks + [t])[p - n..p] == ticks[p - n..p];
  }

  /** What one more sample brings, if the buffer is full after q samples. */
  function Brings(n: nat, all: seq<Tick>, q: nat): seq<seq<Sample>>
    requires 1 <= n <= q
  {
    if q == |all| then At(n, all, q) else []
  }

  lemma DueNow(n: nat, ticks: seq<Tick>, t: Tick)
    requires 2 <= n <= |ticks| + 1
    ensures var all := ticks + [t];
            Due(n, all, |all|) == At(n, all, |all|) && NextFull(n, all, |all|) == Again(n, |all|, t.on)
  {
    var all := ticks + [t];
    var p := |all|;
    assert all[p - 1] == t;
    assert Due(n, all, Again(n, p, t.on)) == [];
  }

  lemma {:induction false} NextFullLarge(n: nat, ticks: seq<Tick>, p: nat)
    requires 2 <= n <= p
    ensures n <= NextFull(n, ticks, p)
    decreases |ticks| - p
  {
    if p <= |ticks| {
      NextFullLarge(n, ticks, Again(n, p, ticks[p - 1].on));
    }
  }

  /** One more sample. */
  lemma {:induction false} DueStep(n: nat, ticks: seq<Tick>, t: Tick, p: nat)
    requires 2 <= n <= p
    ensures n <= NextFull(n, ticks, p)
    ensures var all, q := ticks + [t], NextFull(n, ticks, p);
            && Due(n, all, p) == Due(n, ticks, p) + Brings(n, all, q)
            && NextFull(n, all, p) == if q == |all| then Again(n, q, t.on) else q
    decreases |ticks| - p
  {
    NextFullLarge(n, ticks, p);
    if p <= |ticks| {
      var r := Again(n, p, ticks[p - 1].on);
      AtStays(n, ticks, t, p);
      DueStep(n, ticks, t, r);
      AssocPackets(At(n, ticks, p), Due(n, ticks, r), Brings(n, ticks + [t], NextFull(n, ticks, r)));
    } else if p == |ticks| + 1 {
      DueNow(n, ticks, t);
    }
  }

  /** The packet that goes out is the last n samples. */
  lemma PacketIsLast(n: nat, before: seq<Tick>, t: Tick)
    requires n >= 2 && n % 2 == 0 && |Run(n, before).buffer| + 1 == n
    ensures n <= |before| + 1
    ensures Run(n, before).buffer + [t.sample] == Mic((before + [t])[|before| + 1 - n..|before| + 1])
  {
    SentIsContiguous(n, before);
    StreamIsMic(n, before);
    var s := Run(n, before);
    KeptIsRecent(s.mic, s.buffer, t.sample, 0);
    assert (s.buffer + [t.sample])[0..] == s.buffer + [t.sample];
    assert Mic(before + [t]) == s.mic + [t.sample];
    var from := |before| + 1 - n;
    assert Mic((before + [t])[from..|before| + 1]) == Mic(before + [t])[from..];
  }

  /** What a sample does to the packets and the length of the buffer. */
  lemma AddSends(n: nat, s: State, t: Tick)
    requires n >= 2 && n % 2 == 0 && |s.buffer| < n
    ensures var full := |s.buffer| + 1 == n;
            && Add(n, s, t).packets == s.packets + (if full && t.on then [s.buffer + [t.sample]] else [])
            && |Add(n, s, t).buffer| == if !full then |s.buffer| + 1 else if t.on then 0 else n / 2
  {
  }

  lemma AddIsDue(n: nat, before: seq<Tick>, t: Tick)
    requires n >= 2 && n % 2 == 0
    requires Run(n, before).packets == Due(n, before, n)
    requires |Run(n, before).buffer| == n - (NextFull(n, before, n) - |before|)
    ensures var all, u := before + [t], Add(n, Run(n, before), t);
            u.packets == Due(n, all, n) && |u.buffer| == n - (NextFull(n, all, n) - |all|)
  {
    DueStep(n, before, t, n);
    AddSends(n, Run(n, before), t);
    var all := before + [t];
    if NextFull(n, before, n) == |all| {
      PacketIsLast(n, before, t);
      assert all[|all| - 1] == t;
    }
  }

  /** Over every run the packets sent are those that are due, and the buffer has as many samples as it lacks till it is
      full again: the packets depend on nothing but the samples and the switch. */
  lemma {:induction false} PacketsAreDue(n: nat, ticks: seq<Tick>)
    requires n >= 2 && n % 2 == 0
    ensures Run(n, ticks).packets == Due(n, ticks, n)
    ensures |Run(n, ticks).buffer| == n - (NextFull(n, ticks, n) - |ticks|)
  {
    if ticks != [] {
      var before, t := ticks[..|ticks| - 1], ticks[|ticks| - 1];
      assert ticks == before + [t];
      PacketsAreDue(n, before);
      AddIsDue(n, before, t);
    }
  }

  // ----- The buffer itself -----

  class TxAudio {
    const samples: array<Sample>
    var index: nat
    var sent: seq<seq<Sample>>
    ghost var state: State

    ghost predicate Valid()
      reads this, samples
    {
      && samples.Length >= 2 && samples.Length % 2 == 0
      && index == |state.buffer| < samples.Length
      && samples[..index] == state.buffer
      && sent == state.packets
    }

    constructor (n: nat)
      requires n >= 2 && n % 2 == 0
      ensures Valid() && fresh(samples) && samples.Length == n && state == Start()
    {
      samples := new Sample[n];
      index, sent := 0, [];
      state := Start();
    }

    /** Put a sample into the buffer; if it is full, send it or keep its second half. */
    method PutSample(t: Tick)
      requires Valid()
      modifies this`index, this`sent, this`state, samples
      ensures Valid() && state == Add(samples.Length, old(state), t)
    {
      samples[index] := t.sample;
      index := index + 1;
      state := Add(samples.Length, state, t);
      if index >= samples.Length {
        var n := samples.Length;
        assert samples[..] == old(state.buffer) + [t.sample];
        if t.on {
          sent := sent + [samples[..]];
          index := 0;
        } else {
          forall i | 0 <= i < n / 2 {
            samples[i] := samples[n / 2 + i];
          }
          index := n / 2;
        }
      }
    }
  }
}
