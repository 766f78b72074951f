/** The spot store of src/dxcluster.c: a ring of the last 500 spots, queried from the newest to the oldest. */
module SpotRing {
  import opened DxSpot

  const MAX_SPOTS: nat := 500

  /** (h - j + 500) % 500, without the division. */
  function Back(h: nat, j: nat): (i: nat)
    requires h < MAX_SPOTS && j <= MAX_SPOTS
    ensures i < MAX_SPOTS
  {
    if h < j then h - j + MAX_SPOTS else h - j
  }

  /** (h + 1) % 500 */
  function Forward(h: nat): (i: nat)
    requires h < MAX_SPOTS
    ensures i < MAX_SPOTS
  {
    if h + 1 < MAX_SPOTS then h + 1 else 0
  }

  lemma Modular(h: nat, j: nat)
    requires h < MAX_SPOTS && j <= MAX_SPOTS
    ensures Back(h, j) == (h - j + MAX_SPOTS) % MAX_SPOTS
    ensures Forward(h) == (h + 1) % MAX_SPOTS
  {
  }

  /** The place of the k-th newest spot. */
  function Slot(head: nat, k: nat): (i: nat)
    requires head < MAX_SPOTS && k < MAX_SPOTS
    ensures i < MAX_SPOTS
  {
    Back(head, k + 1)
  }

  function Kept(n: nat): nat {
    if n < MAX_SPOTS then n else MAX_SPOTS
  }

  /** The spots the ring still has, as they were pushed. */
  function OldestFirst(history: seq<Spot>): (s: seq<Spot>)
    ensures |s| == Kept(|history|)
  {
    history[|history| - Kept(|history|)..]
  }

  function NewestFirst(history: seq<Spot>): (s: seq<Spot>)
    ensures |s| == Kept(|history|)
  {
    seq(Kept(|history|), k requires 0 <= k < Kept(|history|) => history[|history| - 1 - k])
  }

  /** A query: display switched on or not, frequency window, and the filters of the settings. */
  datatype Query = Query(display: bool, loHz: int, hiHz: int, passes: Spot -> bool)

  function Matches(q: Query, s: Spot): bool {
    q.loHz <= s.freqHz <= q.hiHz && q.passes(s)
  }

  /** The matching spots, in order. */
  function Select(q: Query, spots: seq<Spot>): seq<Spot> {
    if spots == [] then []
    else
      var last := spots[|spots| - 1];
      Select(q, spots[..|spots| - 1]) + if Matches(q, last) then [last] else []
  }

  lemma {:induction false} SelectPrefix(q: Query, spots: seq<Spot>, i: nat)
    requires i <= |spots|
    ensures Select(q, spots[..i]) <= Select(q, spots)
  {
    if i < |spots| {
      SelectPrefix(q, spots[..|spots| - 1], i);
      assert spots[..|spots| - 1][..i] == spots[..i];
    } else {
      assert spots[..i] == spots;
    }
  }

  lemma SelectStep(q: Query, spots: seq<Spot>, i: nat)
    requires i < |spots|
    ensures Select(q, spots[..i + 1]) == Select(q, spots[..i]) + if Matches(q, spots[i]) then [spots[i]] else []
  {
    assert spots[..i + 1][..i] == spots[..i];
  }

  /** Stopping early, with as many spots as were asked for, is no loss. */
  lemma StopEarly(q: Query, spots: seq<Spot>, i: nat, n: nat)
    requires i <= |spots| && |Select(q, spots[..i])| <= n
    requires i == |spots| || |Select(q, spots[..i])| == n
    ensures Select(q, spots[..i]) == First(n, Select(q, spots))
  {
    SelectPrefix(q, spots, i);
    assert spots[..|spots|] == spots;
  }

  // ----- What a query answers, spelt out -----

  /** The spot was pushed as number k, the ring still has it, and it is asked for. */
  ghost predicate Wanted(q: Query, history: seq<Spot>, k: int) {
    && 0 <= k < |history| && |history| - 500 <= k
    && q.loHz <= history[k].freqHz && history[k].freqHz <= q.hiHz && q.passes(history[k])
  }

  /** `ks` are the numbers of the spots of `out`, from the newest down to number `from`, none left out. */
  ghost predicate Lists(q: Query, history: seq<Spot>, out: seq<Spot>, ks: seq<int>, from: int) {
    && |ks| == |out|
    && (forall i :: 0 <= i < |ks| ==> Wanted(q, history, ks[i]) && from <= ks[i] && out[i] == history[ks[i]])
    && (forall i, j :: 0 <= i < j < |ks| ==> ks[i] > ks[j])
    && (forall k :: Wanted(q, history, k) && from <= k ==> k in ks)
  }

  lemma ListsOneMore(q: Query, history: seq<Spot>, out: seq<Spot>, ks: seq<int>, k: int)
    requires Lists(q, history, out, ks, k + 1) && Wanted(q, history, k)
    ensures Lists(q, history, out + [history[k]], ks + [k], k)
  {
    assert (ks + [k])[|ks|] == k;
    forall l | Wanted(q, history, l) && k <= l
      ensures l in ks + [k]
    {
      assert l == k || l in ks;
    }
  }

  lemma ListsNoMore(q: Query, history: seq<Spot>, out: seq<Spot>, ks: seq<int>, k: int)
    requires Lists(q, history, out, ks, k + 1) && !Wanted(q, history, k)
    ensures Lists(q, history, out, ks, k)
  {
  }

  /** The first n of the kept spots, the newest ones, and those of them that are selected. */
  lemma {:induction false} SelectLists(q: Query, history: seq<Spot>, n: nat) returns (ks: seq<int>)
    requires n <= Kept(|history|)
    ensures Lists(q, history, Select(q, NewestFirst(history)[..n]), ks, |history| - n)
  {
    if n == 0 {
      ks := [];
    } else {
      var rest := SelectLists(q, history, n - 1);
      var all, k := NewestFirst(history), |history| - n;
      SelectStep(q, all, n - 1);
      assert all[n - 1] == history[k];
      if Wanted(q, history, k) {
        ListsOneMore(q, history, Select(q, all[..n - 1]), rest, k);
        ks := rest + [k];
      } else {
        ListsNoMore(q, history, Select(q, all[..n - 1]), rest, k);
        ks := rest;
      }
    }
  }

  /** The answer to a query: of the last 500 spots pushed, those in the frequency window that pass the filters, the
      newest first and none left out, but no more than were asked for. */
  lemma QueryAnswer(q: Query, history: seq<Spot>, maxOut: nat) returns (ks: seq<int>)
    ensures var out := First(maxOut, Select(q, NewestFirst(history)));
            && |out| <= maxOut && |ks| == |out|
            && (forall i :: 0 <= i < |ks| ==> Wanted(q, history, ks[i]) && out[i] == history[ks[i]])
            && (forall i, j :: 0 <= i < j < |ks| ==> ks[i] > ks[j])
            && (forall k :: Wanted(q, history, k) && k !in ks ==>
                  |out| == maxOut && forall i :: 0 <= i < |ks| ==> k < ks[i])
  {
    var n := Kept(|history|);
    var all := SelectLists(q, history, n);
    assert NewestFirst(history)[..n] == NewestFirst(history);
    ks := if |all| <= maxOut then all else all[..maxOut];
    forall k | Wanted(q, history, k)
      ensures k in ks || (|ks| == maxOut && forall i :: 0 <= i < |ks| ==> k < ks[i])
    {
      assert k in all;
      var i :| 0 <= i < |all| && all[i] == k;
      if i < |ks| {
        assert ks[i] == k;
      }
    }
  }

  class Ring {
    const ring: array<Spot>
    var count: nat
    var head: nat
    ghost var history: seq<Spot>

    ghost predicate Valid()
      reads this, ring
    {
      && ring.Length == MAX_SPOTS && head < MAX_SPOTS && count == Kept(|history|)
      && forall k :: 0 <= k < count ==> ring[Slot(head, k)] == history[|history| - 1 - k]
    }

    constructor ()
      ensures Valid() && history == [] && fresh(ring)
    {
      ring := new Spot[MAX_SPOTS](_ => Spot(0, "", "", "", "", 0));
      count, head, history := 0, 0, [];
    }

    /** ring_push_locked */
    method Push(s: Spot)
      requires Valid()
      modifies this`count, this`head, this`history, ring
      ensures Valid() && history == old(history) + [s]
    {
      ring[head] := s;
      head := Forward(head);
      if count < MAX_SPOTS {
        count := count + 1;
      }
      history := history + [s];
      assert forall k :: 1 <= k < count ==> Slot(head, k) == Slot(old(head), k - 1);
    }

    /** dxcluster_query_spots: the first maxOut matching spots, newest first. */
    method QuerySpots(maxOut: int, q: Query) returns (out: seq<Spot>)
      requires Valid()
      ensures out == if maxOut <= 0 || !q.display then [] else First(maxOut, Select(q, NewestFirst(history)))
    {
      out := [];
      if maxOut <= 0 || !q.display {
        return;
      }
      ghost var all := NewestFirst(history);
      var idx := Back(head, 1);
      var i := 0;
      while i < count && |out| < maxOut
        invariant 0 <= i <= count && |out| <= maxOut
        invariant i < count ==> idx == Slot(head, i)
        invariant out == Select(q, all[..i])
      {
        var sp := ring[idx];
        assert sp == all[i];
        SelectStep(q, all, i);
        if Matches(q, sp) {
          out := out + [sp];
        }
        idx := Back(idx, 1);
        i := i + 1;
      }
      StopEarly(q, all, i, maxOut);
    }
  }
}
