/** send_tcp of src/client_server.c: a packet goes out in the pieces that the kernel accepts, and a mutex keeps the
    pieces of two packets apart. */
module Sending {
  import opened WireFields
  import opened Frames

  // ----- One call, under the mutex -----

  class Connection {
    /** False once the socket number is negative. */
    const open: bool
    /** What the coming calls of send will say. When there is none left, the peer is gone and send fails. */
    var replies: seq<int>
    /** What the kernel has accepted so far. */
    var stream: seq<Byte>

    constructor (open: bool, replies: seq<int>)
      ensures this.open == open && this.replies == replies && stream == []
    {
      this.open, this.replies, stream := open, replies, [];
    }

    /** send(s, &buffer[from], upto - from, 0) */
    method Send(buffer: array<Byte>, from: nat, upto: nat) returns (rc: int)
      requires from <= upto <= buffer.Length
      modifies this
      ensures old(replies) == [] ==> rc < 0 && replies == []
      ensures old(replies) != [] ==> replies == old(replies)[1..]
      ensures old(replies) != [] && old(replies)[0] < 0 ==> rc < 0
      ensures old(replies) != [] && old(replies)[0] >= 0 ==> rc == Min(old(replies)[0], upto - from)
      ensures stream == if rc < 0 then old(stream) else old(stream) + buffer[from..from + rc]
    {
      if replies == [] {
        return -1;
      }
      rc := if replies[0] < 0 then -1 else Min(replies[0], upto - from);
      replies := replies[1..];
      if rc >= 0 {
        stream := stream + buffer[from..from + rc];
      }
    }

    /** The whole packet goes out if and only if the socket is open and the kernel accepts that many bytes before it
        reports an error. Otherwise the peer is left with a beginning of the packet. */
    method SendTcp(buffer: array<Byte>, bytes: nat) returns (sent: int)
      requires bytes <= buffer.Length
      modifies this
      ensures sent == bytes || sent == -1
      ensures sent == bytes <==> open && Served(old(replies), bytes, |old(replies)|)
      ensures sent == bytes ==> stream == old(stream) + buffer[..bytes] && replies == Rest(old(replies), bytes)
      ensures sent == -1 ==> IsCut(old(stream), buffer[..bytes], stream)
    {
      if !open {
        assert stream == stream + buffer[..bytes][..0];
        return -1;
      }
      sent := 0;
      assert buffer[..0] == [];
      while sent != bytes
        invariant 0 <= sent <= bytes
        invariant stream == old(stream) + buffer[..sent]
        invariant Served(old(replies), bytes, |old(replies)|) <==> Served(replies, bytes - sent, |replies|)
        invariant Rest(old(replies), bytes) == Rest(replies, bytes - sent)
        decreases |replies|
      {
        var rc := Send(buffer, sent, bytes);
        if rc < 0 {
          assert buffer[..bytes][..sent] == buffer[..sent];
          sent := -1;
          break;
        }
        assert buffer[..sent] + buffer[sent..sent + rc] == buffer[..sent + rc];
        Assoc(old(stream), buffer[..sent], buffer[sent..sent + rc]);
        sent := sent + rc;
      }
    }
  }

  /** `after` is `before` and a part of the packet that is not all of it, or nothing for an empty packet. */
  ghost predicate IsCut(before: seq<Byte>, packet: seq<Byte>, after: seq<Byte>) {
    exists k: nat :: k <= |packet| && (k < |packet| || k == 0) && after == before + packet[..k]
  }

  // ----- Many threads -----

  datatype Thread =
    | Idle
    | Waiting(packet: seq<Byte>)            // before the mutex
    | Sending(packet: seq<Byte>, sent: nat)  // in the loop
    | Broken(packet: seq<Byte>, sent: nat)   // send has failed; only the unlocking is left

  datatype Event =
    | Call(t: nat, packet: seq<Byte>)
    | Lock(t: nat)
    | Piece(t: nat, rc: nat)
    | Fail(t: nat)
    | Unlock(t: nat)

  /** `owner` is the thread that holds the mutex, or -1. `order` are the packets in the order in which their threads
      got the mutex, `left` what each call that is over has left in the stream. */
  datatype State = State(threads: seq<Thread>, owner: int, stream: seq<Byte>, order: seq<seq<Byte>>,
                         left: seq<seq<Byte>>, failed: bool)

  predicate Inside(th: Thread) {
    th.Sending? || th.Broken?
  }

  /** What the thread with the mutex has sent of its packet. */
  function Current(s: State): seq<Byte> {
    if && 0 <= s.owner < |s.threads| && Inside(s.threads[s.owner])
       && s.threads[s.owner].sent <= |s.threads[s.owner].packet|
    then s.threads[s.owner].packet[..s.threads[s.owner].sent]
    else []
  }

  predicate Possible(s: State, e: Event) {
    && e.t < |s.threads|
    && var th := s.threads[e.t];
       match e
       case Call(_, _) => th.Idle?
       case Lock(_) => th.Waiting? && s.owner == -1
       case Piece(_, rc) => th.Sending? && th.sent != |th.packet| && th.sent + rc <= |th.packet|
       case Fail(_) => th.Sending? && th.sent != |th.packet|
       case Unlock(_) => th.Broken? || (th.Sending? && th.sent == |th.packet|)
  }

  function Next(s: State, e: Event): State
    requires Possible(s, e)
  {
    var th := s.threads[e.t];
    match e
    case Call(t, p) => s.(threads := s.threads[t := Waiting(p)])
    case Lock(t) =>
      s.(threads := s.threads[t := Sending(th.packet, 0)], owner := t, order := s.order + [th.packet])
    case Piece(t, rc) =>
      s.(threads := s.threads[t := Sending(th.packet, th.sent + rc)],
         stream := s.stream + th.packet[th.sent..th.sent + rc])
    case Fail(t) => s.(threads := s.threads[t := Broken(th.packet, th.sent)], failed := true)
    case Unlock(t) => s.(threads := s.threads[t := Idle], owner := -1, left := s.left + [Current(s)])
  }

  predicate Initial(s: State) {
    && (forall t :: 0 <= t < |s.threads| ==> s.threads[t].Idle?)
    && s.owner == -1 && s.stream == [] && s.order == [] && s.left == [] && !s.failed
  }

  predicate Exclusive(s: State) {
    && (s.owner == -1 || 0 <= s.owner < |s.threads|)
    && forall t :: 0 <= t < |s.threads| ==> (Inside(s.threads[t]) <==> t == s.owner)
  }

  predicate InOrder(s: State)
    requires Exclusive(s)
  {
    && |s.order| == |s.left| + (if s.owner == -1 then 0 else 1)
    && (forall i :: 0 <= i < |s.left| ==> s.left[i] <= s.order[i])
    && (!s.failed ==> s.left == s.order[..|s.left|])
    && (s.owner != -1 ==>
          && s.threads[s.owner].packet == s.order[|s.left|]
          && s.threads[s.owner].sent <= |s.threads[s.owner].packet|
          && (!s.failed ==> s.threads[s.owner].Sending?))
  }

  /** One thread at a time; the stream is what the finished calls left, in lock order, and then what the thread with
      the mutex has sent; each call left a beginning of its packet, and all of it unless a send has failed. */
  predicate Inv(s: State) {
    && Exclusive(s)
    && InOrder(s)
    && s.stream == Concat(s.left) + Current(s)
  }

  lemma InitialInv(s: State)
    requires Initial(s)
    ensures Inv(s)
  {
  }

  /** The thread of the event is inside afterwards exactly if it then has the mutex; the others are as before. */
  lemma StepExclusive(s: State, e: Event)
    requires Inv(s) && Possible(s, e)
    ensures Exclusive(Next(s, e))
  {
    var u := Next(s, e);
    var th := u.threads[e.t];
    assert Inside(th) <==> e.t == u.owner;
    forall t | 0 <= t < |u.threads|
      ensures Inside(u.threads[t]) <==> t == u.owner
    {
      if t != e.t {
        assert u.threads[t] == s.threads[t];
      }
    }
  }

  /** Steps that do not touch the stream: a call, or a send that fails. */
  lemma QuietInv(s: State, e: Event)
    requires Inv(s) && Possible(s, e) && (e.Call? || e.Fail?)
    ensures Inv(Next(s, e))
  {
    StepExclusive(s, e);
    assert Current(Next(s, e)) == Current(s);
  }

  lemma LockInv(s: State, t: nat)
    requires Inv(s) && Possible(s, Lock(t))
    ensures Inv(Next(s, Lock(t)))
  {
    StepExclusive(s, Lock(t));
    assert Current(Next(s, Lock(t))) == [] && Current(s) == [];
  }

  lemma PieceInv(s: State, t: nat, rc: nat)
    requires Inv(s) && Possible(s, Piece(t, rc))
    ensures Inv(Next(s, Piece(t, rc)))
  {
    StepExclusive(s, Piece(t, rc));
    var u, th := Next(s, Piece(t, rc)), s.threads[t];
    var piece := th.packet[th.sent..th.sent + rc];
    assert Current(s) == th.packet[..th.sent];
    assert Current(u) == th.packet[..th.sent + rc];
    Assoc(Concat(s.left), Current(s), piece);
    assert Current(u) == Current(s) + piece;
  }

  lemma UnlockOrder(s: State, t: nat)
    requires Inv(s) && Possible(s, Unlock(t)) && Exclusive(Next(s, Unlock(t)))
    ensures InOrder(Next(s, Unlock(t)))
  {
    var u, th := Next(s, Unlock(t)), s.threads[t];
    assert Current(s) == th.packet[..th.sent] <= th.packet;
    assert !s.failed ==> Current(s) == th.packet;
    assert u.left == s.left + [Current(s)];
  }

  lemma UnlockInv(s: State, t: nat)
    requires Inv(s) && Possible(s, Unlock(t))
    ensures Inv(Next(s, Unlock(t)))
  {
    StepExclusive(s, Unlock(t));
    UnlockOrder(s, t);
    ConcatAppend(s.left, Current(s));
    assert Current(Next(s, Unlock(t))) == [];
  }

  lemma StepInv(s: State, e: Event)
    requires Inv(s) && Possible(s, e)
    ensures Inv(Next(s, e))
  {
    match e
    case Call(_, _) => QuietInv(s, e);
    case Lock(t) => LockInv(s, t);
    case Piece(t, rc) => PieceInv(s, t, rc);
    case Fail(_) => QuietInv(s, e);
    case Unlock(t) => UnlockInv(s, t);
  }

  predicate IsRun(s: State, es: seq<Event>)
    decreases |es|
  {
    es == [] || (Possible(s, es[0]) && IsRun(Next(s, es[0]), es[1..]))
  }

  function Run(s: State, es: seq<Event>): State
    requires IsRun(s, es)
    decreases |es|
  {
    if es == [] then s else Run(Next(s, es[0]), es[1..])
  }

  lemma {:induction false} RunInv(s: State, es: seq<Event>)
    requires Inv(s) && IsRun(s, es)
    ensures Inv(Run(s, es))
    ensures Run(s, es).failed <==> s.failed || exists i :: 0 <= i < |es| && es[i].Fail?
    decreases |es|
  {
    if es != [] {
      StepInv(s, es[0]);
      RunInv(Next(s, es[0]), es[1..]);
      assert forall i :: 0 < i < |es| ==> es[i] == es[1..][i - 1];
    }
  }

  // ----- No packet is lost or sent twice -----

  function One(yes: bool): nat {
    if yes then 1 else 0
  }

  /** How many threads wait with packet p. */
  function Waiters(threads: seq<Thread>, p: seq<Byte>): nat {
    if threads == [] then 0 else One(threads[0] == Waiting(p)) + Waiters(threads[1..], p)
  }

  lemma {:induction false} WaitersUpdate(threads: seq<Thread>, t: nat, th: Thread, p: seq<Byte>)
    requires t < |threads|
    ensures Waiters(threads[t := th], p) + One(threads[t] == Waiting(p)) == Waiters(threads, p) + One(th == Waiting(p))
  {
    var changed := threads[t := th];
    if t == 0 {
      assert changed[1..] == threads[1..];
    } else {
      assert changed[1..] == threads[1..][t - 1 := th];
      WaitersUpdate(threads[1..], t - 1, th, p);
    }
  }

  /** How many times send_tcp was called with p. */
  function Calls(es: seq<Event>, p: seq<Byte>): nat {
    if es == [] then 0 else One(es[0].Call? && es[0].packet == p) + Calls(es[1..], p)
  }

  /** How many times p got the mutex. */
  function Locks(order: seq<seq<Byte>>, p: seq<Byte>): nat {
    multiset(order)[p]
  }

  lemma StepKeepsPackets(s: State, e: Event, p: seq<Byte>)
    requires Possible(s, e)
    ensures Locks(Next(s, e).order, p) + Waiters(Next(s, e).threads, p)
         == Locks(s.order, p) + Waiters(s.threads, p) + One(e.Call? && e.packet == p)
  {
    var th := Next(s, e).threads[e.t];
    WaitersUpdate(s.threads, e.t, th, p);
    assert Next(s, e).threads == s.threads[e.t := th];
  }

  /** Each call of send_tcp is waiting for the mutex or has one place in the lock order. */
  lemma {:induction false} CalledIsOrdered(s: State, es: seq<Event>, p: seq<Byte>)
    requires IsRun(s, es)
    ensures Locks(Run(s, es).order, p) + Waiters(Run(s, es).threads, p)
         == Locks(s.order, p) + Waiters(s.threads, p) + Calls(es, p)
    decreases |es|
  {
    if es != [] {
      StepKeepsPackets(s, es[0], p);
      CalledIsOrdered(Next(s, es[0]), es[1..], p);
    }
  }

  // ----- The stream -----

  /** The packets that are out in full. */
  function Complete(s: State): seq<seq<Byte>>
    requires Inv(s)
  {
    if s.owner != -1 && s.threads[s.owner].sent == |s.threads[s.owner].packet| then s.order else s.order[..|s.left|]
  }

  /** What is out of the packet after them. */
  function Unfinished(s: State): seq<Byte>
    requires Inv(s)
  {
    if s.owner != -1 && s.threads[s.owner].sent == |s.threads[s.owner].packet| then [] else Current(s)
  }

  predicate PartOfNext(s: State)
    requires Inv(s)
  {
    Unfinished(s) != [] ==> |Complete(s)| < |s.order| && Unfinished(s) < s.order[|Complete(s)|]
  }

  lemma WholeAtRest(s: State)
    requires Inv(s) && !s.failed && s.owner == -1
    ensures s.stream == Concat(s.order) && Complete(s) == s.order && Unfinished(s) == []
  {
    assert s.left == s.order;
  }

  lemma WholeInside(s: State)
    requires Inv(s) && !s.failed && s.owner != -1
    ensures s.stream == Concat(Complete(s)) + Unfinished(s) && Complete(s) <= s.order && PartOfNext(s)
  {
    assert s.left == s.order[..|s.left|];
    var th := s.threads[s.owner];
    if th.sent == |th.packet| {
      assert Current(s) == th.packet;
      assert s.order == s.left + [th.packet];
      ConcatAppend(s.left, th.packet);
    }
  }

  /** Without errors the stream is at every moment a sequence of whole packets in lock order, followed by a beginning
      of the next one. */
  lemma WholePackets(start: State, es: seq<Event>)
    requires Initial(start) && IsRun(start, es)
    requires forall i :: 0 <= i < |es| ==> !es[i].Fail?
    ensures var s := Run(start, es);
            && Inv(s)
            && s.stream == Concat(Complete(s)) + Unfinished(s)
            && Complete(s) <= s.order && PartOfNext(s)
            && (s.owner == -1 ==> s.stream == Concat(s.order))
  {
    InitialInv(start);
    RunInv(start, es);
    var s := Run(start, es);
    if s.owner == -1 {
      WholeAtRest(s);
    } else {
      WholeInside(s);
    }
  }

  // ----- Every packet gets out -----

  /** How many threads are in send_tcp. */
  function Callers(threads: seq<Thread>): nat {
    if threads == [] then 0 else One(!threads[0].Idle?) + Callers(threads[1..])
  }

  lemma {:induction false} CallersUpdate(threads: seq<Thread>, t: nat, th: Thread)
    requires t < |threads|
    ensures Callers(threads[t := th]) + One(!threads[t].Idle?) == Callers(threads) + One(!th.Idle?)
  {
    var changed := threads[t := th];
    if t == 0 {
      assert changed[1..] == threads[1..];
    } else {
      assert changed[1..] == threads[1..][t - 1 := th];
      CallersUpdate(threads[1..], t - 1, th);
    }
  }

  lemma {:induction false} SomeCaller(threads: seq<Thread>) returns (t: nat)
    requires Callers(threads) > 0
    ensures t < |threads| && !threads[t].Idle?
  {
    if !threads[0].Idle? {
      t := 0;
    } else {
      var u := SomeCaller(threads[1..]);
      t := u + 1;
    }
  }

  lemma {:induction false} AllIdle(threads: seq<Thread>)
    requires Callers(threads) == 0
    ensures forall t :: 0 <= t < |threads| ==> threads[t].Idle?
  {
    if threads != [] {
      AllIdle(threads[1..]);
    }
  }

  /** How much the thread with the mutex has still to send. */
  function ToSend(s: State): nat {
    if && 0 <= s.owner < |s.threads| && s.threads[s.owner].Sending?
       && s.threads[s.owner].sent < |s.threads[s.owner].packet|
    then 1
    else 0
  }

  /** What happens next if the kernel takes all that it is given and nobody calls. */
  lemma NextStep(s: State) returns (e: Event)
    requires Inv(s) && !s.failed && Callers(s.threads) > 0
    ensures Possible(s, e) && !e.Call? && !e.Fail?
    ensures var u := Next(s, e);
            && (Callers(u.threads) < Callers(s.threads)
                || (Callers(u.threads) == Callers(s.threads) && s.owner == -1 && u.owner != -1)
                || (Callers(u.threads) == Callers(s.threads) && u.owner == s.owner && ToSend(u) < ToSend(s)))
  {
    if s.owner == -1 {
      var t := SomeCaller(s.threads);
      e := Lock(t);
    } else if ToSend(s) > 0 {
      var th := s.threads[s.owner];
      e := Piece(s.owner, |th.packet| - th.sent);
    } else {
      e := Unlock(s.owner);
    }
    CallersUpdate(s.threads, e.t, Next(s, e).threads[e.t]);
    assert Next(s, e).threads == s.threads[e.t := Next(s, e).threads[e.t]];
  }

  /** As long as no send has failed, all that was called can get out in full: some run without errors and without
      new calls ends with every thread back and the stream made up of all packets in lock order. */
  lemma {:induction false} EverythingGetsOut(s: State) returns (es: seq<Event>)
    requires Inv(s) && !s.failed
    ensures IsRun(s, es) && forall i :: 0 <= i < |es| ==> !es[i].Fail? && !es[i].Call?
    ensures var t := Run(s, es);
            t.stream == Concat(t.order) && forall k :: 0 <= k < |t.threads| ==> t.threads[k].Idle?
    decreases Callers(s.threads), if s.owner == -1 then 1 else 0, ToSend(s)
  {
    if Callers(s.threads) == 0 {
      es := [];
      AllIdle(s.threads);
      assert s.owner == -1;
      WholeAtRest(s);
    } else {
      var e := NextStep(s);
      StepInv(s, e);
      var rest := EverythingGetsOut(Next(s, e));
      es := [e] + rest;
      assert es[1..] == rest;
    }
  }

  lemma {:induction false} NobodyWaits(threads: seq<Thread>, p: seq<Byte>)
    requires forall t :: 0 <= t < |threads| ==> threads[t].Idle?
    ensures Waiters(threads, p) == 0
  {
    if threads != [] {
      NobodyWaits(threads[1..], p);
    }
  }

  /** Whatever the other threads are doing, a thread that is not in send_tcp can call it, and its packet gets out in
      full, once more than it has got the mutex or waits for it already. */
  lemma PacketGetsOut(s: State, t: nat, p: seq<Byte>) returns (es: seq<Event>)
    requires Inv(s) && !s.failed && t < |s.threads| && s.threads[t].Idle?
    ensures es != [] && es[0] == Call(t, p) && IsRun(s, es) && forall i :: 0 < i < |es| ==> !es[i].Fail? && !es[i].Call?
    ensures var u := Run(s, es);
            && u.stream == Concat(u.order) && (forall k :: 0 <= k < |u.threads| ==> u.threads[k].Idle?)
            && multiset(u.order)[p] == multiset(s.order)[p] + Waiters(s.threads, p) + 1
  {
    var call := Call(t, p);
    StepInv(s, call);
    var rest := EverythingGetsOut(Next(s, call));
    es := [call] + rest;
    assert es[1..] == rest;
    CalledIsOrdered(s, es, p);
    NobodyWaits(Run(s, es).threads, p);
    NoCalls(rest, p);
  }

  lemma {:induction false} NoCalls(es: seq<Event>, p: seq<Byte>)
    requires forall i :: 0 <= i < |es| ==> !es[i].Call?
    ensures Calls(es, p) == 0
  {
    if es != [] {
      NoCalls(es[1..], p);
    }
  }
}
