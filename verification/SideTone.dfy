/** The CW side tone writer of src/audio.c (tx_audio_write): samples are collected into blocks of 256 frames, and to
    hold the fill level of the sound card one zero sample of a longer silence is now and then dropped or doubled. */
module SideTone {

  const OUT_BUFFER_SIZE: nat := 256
  const CW_LOW_WATER := 816
  const CW_MID_WATER: nat := 960
  const CW_HIGH_WATER := 1104

  /** What one transmit episode has done so far. `pending` are the frames collected for the next block, `blocks`
      those handed to the sound card, `queued` the fill level the card reported at the last of them. */
  datatype Episode = Episode(cwcount: nat, queued: int, pending: seq<real>, blocks: seq<seq<real>>)

  function Begin(): Episode {
    Episode(0, CW_MID_WATER, [], [])
  }

  /** The counter after `sample`, before it is reset at 16. */
  function Count(e: Episode, sample: real): nat {
    (if sample != 0.0 then 0 else e.cwcount) + 1
  }

  /** 0 to drop the sample, 2 to double it. */
  function Adjust(e: Episode, sample: real): nat {
    if Count(e, sample) < 16 then 1
    else if e.queued < CW_LOW_WATER then 2
    else if e.queued > CW_HIGH_WATER then 0
    else 1
  }

  /** How often the sample is written: the second time only if the block has room for it. */
  function Copies(e: Episode, sample: real): (n: nat)
    ensures n <= 2 && (|e.pending| < OUT_BUFFER_SIZE ==> |e.pending| + n <= OUT_BUFFER_SIZE)
  {
    if Adjust(e, sample) == 2 && |e.pending| + 1 >= OUT_BUFFER_SIZE then 1 else Adjust(e, sample)
  }

  function Repeat(n: nat, sample: real): seq<real> {
    seq(n, _ => sample)
  }

  /** One call of tx_audio_write, with a card that reports `level` if it is asked. */
  function Write(e: Episode, sample: real, level: int): Episode {
    var count := Count(e, sample);
    var pending := e.pending + Repeat(Copies(e, sample), sample);
    var next := e.(cwcount := if count >= 16 then 0 else count, pending := pending);
    if |pending| < OUT_BUFFER_SIZE then next
    else next.(queued := level, pending := [], blocks := e.blocks + [pending])
  }

  datatype Call = Call(sample: real, level: int)

  function Run(calls: seq<Call>): Episode {
    if calls == [] then Begin()
    else
      var last := |calls| - 1;
      Write(Run(calls[..last]), calls[last].sample, calls[last].level)
  }

  // ----- Integrity -----

  ghost function Concat(blocks: seq<seq<real>>): seq<real> {
    if blocks == [] then [] else Concat(blocks[..|blocks| - 1]) + blocks[|blocks| - 1]
  }

  /** Everything written so far, in order. */
  ghost function Output(e: Episode): seq<real> {
    Concat(e.blocks) + e.pending
  }

  ghost function Samples(calls: seq<Call>): seq<real> {
    seq(|calls|, i requires 0 <= i < |calls| => calls[i].sample)
  }

  ghost function NonZero(s: seq<real>): seq<real> {
    if s == [] then []
    else NonZero(s[..|s| - 1]) + if s[|s| - 1] == 0.0 then [] else [s[|s| - 1]]
  }

  lemma {:induction false} NonZeroAppend(s: seq<real>, t: seq<real>)
    ensures NonZero(s + t) == NonZero(s) + NonZero(t)
  {
    if t == [] {
      assert s + t == s;
    } else {
      var last := |t| - 1;
      assert (s + t)[..|s + t| - 1] == s + t[..last];
      NonZeroAppend(s, t[..last]);
    }
  }

  lemma WriteOutput(e: Episode, sample: real, level: int)
    ensures Output(Write(e, sample, level)) == Output(e) + Repeat(Copies(e, sample), sample)
  {
    var t := Write(e, sample, level);
    if t.pending == [] && t.blocks != e.blocks {
      assert t.blocks[..|t.blocks| - 1] == e.blocks;
    }
  }

  /** The last `n` samples were zero. */
  ghost predicate SilentTail(calls: seq<Call>, n: nat) {
    n <= |calls| && forall k :: |calls| - n <= k < |calls| ==> calls[k].sample == 0.0
  }

  lemma {:induction false} CountMeansSilence(calls: seq<Call>)
    ensures var c := Run(calls).cwcount; c < 16 && SilentTail(calls, if c > 0 then c - 1 else 0)
  {
    if calls != [] {
      CountMeansSilence(calls[..|calls| - 1]);
    }
  }

  /** A sample that is dropped or written twice is zero, and so are the 14 before it. It is dropped only if the card
      was too full and written twice only if it was too empty. */
  lemma AdjustedSampleEndsSilence(calls: seq<Call>, last: Call)
    requires Copies(Run(calls), last.sample) != 1
    ensures SilentTail(calls + [last], 15)
    ensures if Copies(Run(calls), last.sample) == 0 then Run(calls).queued > 1104 else Run(calls).queued < 816
  {
    CountMeansSilence(calls);
  }

  ghost predicate Silent(calls: seq<Call>) {
    forall k :: 0 <= k < |calls| ==> calls[k].sample == 0.0
  }

  lemma OneZero(calls: seq<Call>, zero: Call)
    requires zero.sample == 0.0 && Run(calls).cwcount < 15
    ensures Run(calls + [zero]).cwcount == Run(calls).cwcount + 1
  {
    assert (calls + [zero])[..|calls|] == calls;
  }

  lemma TakeFirst(calls: seq<Call>, zeros: seq<Call>)
    requires zeros != []
    ensures (calls + [zeros[0]]) + zeros[1..] == calls + zeros
  {
  }

  /** Conversely, no 16 zero samples pass without the adjustment being considered, whatever the card reports. */
  lemma {:induction false} SilenceIsUsed(calls: seq<Call>, zeros: seq<Call>)
    requires Silent(zeros) && |zeros| == 15 - Run(calls).cwcount
    ensures Count(Run(calls + zeros), 0.0) == 16
    decreases |zeros|
  {
    if zeros == [] {
      assert calls + zeros == calls;
    } else {
      OneZero(calls, zeros[0]);
      TakeFirst(calls, zeros);
      SilenceIsUsed(calls + [zeros[0]], zeros[1..]);
    }
  }

  // ----- The fill level is corrected -----

  /** How many zeros the samples end with. */
  function Zeros(calls: seq<Call>): (n: nat)
    ensures n <= |calls|
  {
    if calls == [] || calls[|calls| - 1].sample != 0.0 then 0 else 1 + Zeros(calls[..|calls| - 1])
  }

  /** The counter is the number of zeros at the end, and of the sample before them, if there is one; it starts again
      at 16. */
  lemma {:induction false} CountIs(calls: seq<Call>)
    ensures Run(calls).cwcount == (Zeros(calls) + if Zeros(calls) < |calls| then 1 else 0) % 16
  {
    if calls != [] {
      CountIs(calls[..|calls| - 1]);
    }
  }

  /** What the card said last: half full at the beginning, and then its answer whenever a block went out. */
  function LastLevel(calls: seq<Call>): int {
    if calls == [] then 960
    else
      var before, last := calls[..|calls| - 1], calls[|calls| - 1];
      if |Run(calls).blocks| > |Run(before).blocks| then last.level else LastLevel(before)
  }

  lemma {:induction false} QueuedIs(calls: seq<Call>)
    ensures Run(calls).queued == LastLevel(calls)
  {
    if calls != [] {
      QueuedIs(calls[..|calls| - 1]);
    }
  }

  /** This sample is the one at which the fill level is looked at: the 15th zero behind another sample, or the 16th
      zero if there is none, and again every 16 zeros. */
  predicate Looks(calls: seq<Call>, sample: real) {
    sample == 0.0 && (Zeros(calls) + if Zeros(calls) < |calls| then 1 else 0) % 16 == 15
  }

  /** What the next call adds to the output: its sample once, except that a zero at which the fill level is looked at
      is left out if the card last reported more than 1104 frames, and is written twice if it reported less than 816
      and both frames fit into the block. */
  lemma FillLevelIsCorrected(calls: seq<Call>, call: Call)
    ensures var before, level := Run(calls), LastLevel(calls);
            var copies := if !Looks(calls, call.sample) then 1
                          else if level > 1104 then 0
                          else if level < 816 && |before.pending| + 2 <= 256 then 2
                          else 1;
            Output(Run(calls + [call])) == Output(before) + seq(copies, _ => call.sample)
  {
    assert (calls + [call])[..|calls|] == calls;
    CountIs(calls);
    QueuedIs(calls);
    WriteOutput(Run(calls), call.sample, call.level);
  }

  lemma CopiesKeepNonZero(calls: seq<Call>, last: Call)
    ensures NonZero(Repeat(Copies(Run(calls), last.sample), last.sample)) == NonZero([last.sample])
  {
    var n := Copies(Run(calls), last.sample);
    if n == 1 {
      assert Repeat(1, last.sample) == [last.sample];
    } else {
      AdjustedSampleEndsSilence(calls, last);
      assert (calls + [last])[|calls|] == last;
      NonZeroOfZeros(Repeat(n, last.sample));
      NonZeroOfZeros([last.sample]);
    }
  }

  lemma {:induction false} NonZeroOfZeros(s: seq<real>)
    requires forall k :: 0 <= k < |s| ==> s[k] == 0.0
    ensures NonZero(s) == []
  {
    if s != [] {
      NonZeroOfZeros(s[..|s| - 1]);
    }
  }

  /** Every block has exactly 256 frames, and fewer are pending. */
  lemma {:induction false} BlocksAreFull(calls: seq<Call>)
    ensures |Run(calls).pending| < 256
    ensures forall i :: 0 <= i < |Run(calls).blocks| ==> |Run(calls).blocks[i]| == 256
  {
    if calls != [] {
      BlocksAreFull(calls[..|calls| - 1]);
    }
  }

  lemma OneMoreNonZero(calls: seq<Call>, call: Call)
    ensures NonZero(Output(Write(Run(calls), call.sample, call.level)))
         == NonZero(Output(Run(calls))) + NonZero([call.sample])
  {
    WriteOutput(Run(calls), call.sample, call.level);
    NonZeroAppend(Output(Run(calls)), Repeat(Copies(Run(calls), call.sample), call.sample));
    CopiesKeepNonZero(calls, call);
  }

  /** Within an episode the non-zero samples handed on are the non-zero samples given in, in order. */
  lemma {:induction false} SideToneIntegrity(calls: seq<Call>)
    ensures NonZero(Output(Run(calls))) == NonZero(Samples(calls))
  {
    if calls != [] {
      var before, call := calls[..|calls| - 1], calls[|calls| - 1];
      SideToneIntegrity(before);
      OneMoreNonZero(before, call);
      assert Samples(calls) == Samples(before) + [call.sample];
      NonZeroAppend(Samples(before), [call.sample]);
    }
  }

  // ----- The writer itself -----

  /** The frames as they lie in memory: once for mono, twice for stereo. */
  function Interleaved(channels: nat, frames: seq<real>): (raw: seq<real>)
    ensures |raw| == if channels == 1 then |frames| else 2 * |frames|
  {
    if channels == 1 then frames else seq(2 * |frames|, i requires 0 <= i < 2 * |frames| => frames[i / 2])
  }

  lemma InterleavedAppend(channels: nat, frames: seq<real>, sample: real)
    ensures Interleaved(channels, frames + [sample])
         == Interleaved(channels, frames) + if channels == 1 then [sample] else [sample, sample]
  {
    if channels != 1 {
      var raw := Interleaved(channels, frames + [sample]);
      assert forall i :: 0 <= i < 2 * |frames| ==> raw[i] == frames[i / 2];
    }
  }

  class AudioData {
    const audioChannels: nat
    const audioBuffer: array<real>
    var audioBufferOffset: nat
    var cwaudio: nat
    var cwcount: nat
    var queued: int

    /** What snd_pcm_writei was given since the episode began: first the silence that fills the card half. */
    var card: seq<seq<real>>

    ghost var episode: Episode

    /** The buffer holds exactly these frames. */
    ghost predicate Holds(frames: seq<real>)
      reads this`audioBufferOffset, audioBuffer
    {
      && 1 <= audioChannels <= 2 && audioBuffer.Length == audioChannels * OUT_BUFFER_SIZE
      && audioBufferOffset == |frames| <= OUT_BUFFER_SIZE
      && audioBuffer[..audioChannels * audioBufferOffset] == Interleaved(audioChannels, frames)
    }

    /** The card got the silence and these blocks. */
    ghost predicate CardHas(blocks: seq<seq<real>>)
      reads this`card
    {
      && |card| == 1 + |blocks| && card[0] == Interleaved(audioChannels, Repeat(CW_MID_WATER, 0.0))
      && forall i :: 0 < i < |card| ==> card[i] == Interleaved(audioChannels, blocks[i - 1])
    }

    ghost predicate Valid()
      reads this, audioBuffer
    {
      && Holds(episode.pending) && |episode.pending| < OUT_BUFFER_SIZE
      && cwcount == episode.cwcount && queued == episode.queued
      && (cwaudio == 1 ==> CardHas(episode.blocks))
    }

    constructor (channels: nat)
      requires 1 <= channels <= 2
      ensures Valid() && cwaudio == 0 && audioChannels == channels && fresh(audioBuffer)
    {
      audioChannels := channels;
      audioBuffer := new real[channels * OUT_BUFFER_SIZE];
      audioBufferOffset, cwaudio, cwcount, queued, card := 0, 0, 0, CW_MID_WATER, [];
      episode := Begin();
    }

    /** One frame into the buffer, on every channel. */
    method Put(sample: real, ghost frames: seq<real>)
      requires Holds(frames) && |frames| < OUT_BUFFER_SIZE
      modifies this`audioBufferOffset, audioBuffer
      ensures Holds(frames + [sample])
    {
      InterleavedAppend(audioChannels, frames, sample);
      ghost var before := audioBuffer[..audioChannels * audioBufferOffset];
      if audioChannels == 1 {
        audioBuffer[audioBufferOffset] := sample;
        assert audioBuffer[..audioBufferOffset + 1] == before + [sample];
      } else {
        audioBuffer[audioBufferOffset * 2] := sample;
        audioBuffer[audioBufferOffset * 2 + 1] := sample;
        assert audioBuffer[..audioBufferOffset * 2 + 2] == before + [sample, sample];
      }
      audioBufferOffset := audioBufferOffset + 1;
    }

    /** The `switch` of the source: `adjust` copies of the frame, as far as there is room for the second. */
    method Collect(sample: real, adjust: nat, ghost frames: seq<real>) returns (ghost after: seq<real>)
      requires Holds(frames) && |frames| < OUT_BUFFER_SIZE && adjust <= 2
      modifies this`audioBufferOffset, audioBuffer
      ensures Holds(after)
      ensures after == frames + Repeat(if adjust == 2 && |frames| + 1 >= OUT_BUFFER_SIZE then 1 else adjust, sample)
    {
      after := frames;
      if adjust >= 1 {
        Put(sample, after);
        after := after + [sample];
        if adjust == 2 && audioBufferOffset < OUT_BUFFER_SIZE {
          Put(sample, after);
          after := after + [sample];
        }
      }
    }

    /** A full buffer goes to the sound card. */
    method Flush(level: int, ghost frames: seq<real>)
      requires Holds(frames)
      modifies this`audioBufferOffset, this`queued, this`card
      ensures if |frames| < OUT_BUFFER_SIZE then Holds(frames) && queued == old(queued) && card == old(card)
              else Holds([]) && queued == level && card == old(card) + [Interleaved(audioChannels, frames)]
    {
      if audioBufferOffset >= OUT_BUFFER_SIZE {
        queued := level;
        assert audioBuffer[..audioChannels * audioBufferOffset] == audioBuffer[..];
        card := card + [audioBuffer[..]];
        audioBufferOffset := 0;
      }
    }

    /** The first call after a reception: no frames, and silence to fill the card half. */
    method BeginEpisode()
      requires Valid()
      modifies this`audioBufferOffset, this`cwaudio, this`cwcount, this`queued, this`card, this`episode
      ensures Valid() && cwaudio == 1 && episode == Begin()
    {
      audioBufferOffset, cwcount, cwaudio, queued := 0, 0, 1, CW_MID_WATER;
      card := [Interleaved(audioChannels, Repeat(CW_MID_WATER, 0.0))];
      episode := Begin();
    }

    /** How often the sample is to be written. */
    method CountSilence(sample: real) returns (adjust: nat)
      requires cwcount == episode.cwcount && queued == episode.queued
      modifies this`cwcount
      ensures adjust == Adjust(episode, sample)
      ensures cwcount == if Count(episode, sample) >= 16 then 0 else Count(episode, sample)
    {
      adjust := 1;
      if sample != 0.0 {
        cwcount := 0;
      }
      cwcount := cwcount + 1;
      if cwcount >= 16 {
        cwcount := 0;
        if queued > CW_HIGH_WATER {
          adjust := 0;
        }
        if queued < CW_LOW_WATER {
          adjust := 2;
        }
      }
    }

    /** tx_audio_write, where `level` is what snd_pcm_rewindable reports. The first call after a reception begins a
        new episode and forgets frames left over from the old one. */
    method TxAudioWrite(sample: real, level: int)
      requires Valid()
      modifies this`audioBufferOffset, this`cwaudio, this`cwcount, this`queued, this`card, this`episode, audioBuffer
      ensures Valid() && cwaudio == 1 && CardHas(episode.blocks)
      ensures episode == Write(if old(cwaudio) != 1 then Begin() else old(episode), sample, level)
    {
      if cwaudio != 1 {
        BeginEpisode();
      }
      var adjust := CountSilence(sample);
      ghost var frames := Collect(sample, adjust, episode.pending);
      episode := Write(episode, sample, level);
      Flush(level, frames);
    }
  }
}