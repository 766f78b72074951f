/** Who has which buffer, read off a run of the pool (module PoolSchedule) alone: what was handed out and has not come
    back since is in use, nothing else is; and what has come back is used again. */
module PoolLedger {
  import BufferPool
  import opened PoolSchedule

  // ----- The ledger -----

  /** What leaves the allocator at each event of a run. */
  ghost function Outs(s: State, es: seq<Event>): (outs: seq<set<Id>>)
    requires Shape(s) && Legal(s, es)
    ensures |outs| == |es|
    decreases |es|
  {
    if es == [] then [] else [HandedOut(s, es[0])] + Outs(Step(s, es[0]), es[1..])
  }

  /** From event number `from` on buffer b is not released. */
  ghost predicate NotReleased(es: seq<Event>, from: nat, b: Id) {
    forall k :: from <= k < |es| ==> es[k] != Release(b)
  }

  /** It was in use from the start and has not been released, or it was handed out and has not been released since. */
  ghost predicate Owed(before: set<Id>, es: seq<Event>, outs: seq<set<Id>>, b: Id)
    requires |outs| == |es|
  {
    || (b in before && NotReleased(es, 0, b))
    || exists i :: 0 <= i < |es| && b in outs[i] && NotReleased(es, i, b)
  }

  lemma NotReleasedStep(es: seq<Event>, from: nat, b: Id)
    requires es != []
    ensures NotReleased(es, from + 1, b) <==> NotReleased(es[1..], from, b)
    ensures NotReleased(es, 0, b) <==> es[0] != Release(b) && NotReleased(es[1..], 0, b)
  {
    assert forall k :: 0 <= k < |es| - 1 ==> es[1..][k] == es[k + 1];
    if NotReleased(es[1..], from, b) {
      forall k | from + 1 <= k < |es|
        ensures es[k] != Release(b)
      {
        assert es[1..][k - 1] == es[k];
      }
    }
    if es[0] != Release(b) && NotReleased(es[1..], 0, b) {
      forall k | 0 <= k < |es|
        ensures es[k] != Release(b)
      {
        assert k > 0 ==> es[1..][k - 1] == es[k];
      }
    }
  }

  /** The first event of a run, and then the others. */
  lemma OwedStep(before: set<Id>, es: seq<Event>, outs: seq<set<Id>>, b: Id)
    requires |outs| == |es| && es != [] && (es[0] == Release(b) ==> b !in outs[0])
    ensures Owed(before, es, outs, b)
            <==> Owed(if es[0] == Release(b) then before - {b} else before + outs[0], es[1..], outs[1..], b)
  {
    var next := if es[0] == Release(b) then before - {b} else before + outs[0];
    NotReleasedStep(es, 0, b);
    if i :| 0 <= i < |es| && b in outs[i] && NotReleased(es, i, b) {
      if i > 0 {
        NotReleasedStep(es, i - 1, b);
        assert outs[1..][i - 1] == outs[i];
      }
    }
    if i :| 0 <= i < |es[1..]| && b in outs[1..][i] && NotReleased(es[1..], i, b) {
      NotReleasedStep(es, i, b);
      assert outs[i + 1] == outs[1..][i];
    }
    if b in next && NotReleased(es[1..], 0, b) && b !in before {
      assert b in outs[0] && NotReleased(es, 0, b);
    }
  }

  /** One step in the books. */
  lemma StepHeld(s: State, e: Event, b: Id)
    requires Inv(s) && Enabled(s, e)
    ensures e == Release(b) ==> HandedOut(s, e) == {}
    ensures b in Step(s, e).held <==> b in if e == Release(b) then s.held - {b} else s.held + HandedOut(s, e)
  {
  }

  lemma OwedSame(one: set<Id>, two: set<Id>, es: seq<Event>, outs: seq<set<Id>>, b: Id)
    requires |outs| == |es| && (b in one <==> b in two)
    ensures Owed(one, es, outs, b) <==> Owed(two, es, outs, b)
  {
  }

  /** Over every run, a buffer is in use exactly if it was before or was handed out, and has not been released since. */
  lemma {:induction false} HeldIsOwed(s: State, es: seq<Event>, b: Id)
    requires Inv(s) && Legal(s, es)
    ensures b in Run(s, es).held <==> Owed(s.held, es, Outs(s, es), b)
    decreases |es|
  {
    if es != [] {
      var e, t := es[0], Step(s, es[0]);
      StepInv(s, e);
      HeldIsOwed(t, es[1..], b);
      StepHeld(s, e, b);
      var outs := Outs(s, es);
      assert outs[0] == HandedOut(s, e) && outs[1..] == Outs(t, es[1..]);
      OwedStep(s.held, es, outs, b);
      OwedSame(t.held, if e == Release(b) then s.held - {b} else s.held + outs[0], es[1..], outs[1..], b);
    }
  }

  /** And it is free exactly if it is not in use. */
  lemma FreeIsNotOwed(s: State, es: seq<Event>, b: Id)
    requires Inv(s) && Legal(s, es)
    ensures b in Run(s, es).free <==> b in Run(s, es).nodes && !Owed(s.held, es, Outs(s, es), b)
  {
    HeldIsOwed(s, es, b);
    RunInv(s, es);
  }

  // ----- Reuse -----

  /** Buffer b has come back in this run, and has not been handed out again. */
  ghost predicate Returned(s: State, es: seq<Event>, b: Id)
    requires Shape(s) && Legal(s, es)
  {
    exists k :: 0 <= k < |es| && es[k] == Release(b) && forall i :: k < i < |es| ==> b !in Outs(s, es)[i]
  }

  lemma ReturnedIsNotOwed(before: set<Id>, es: seq<Event>, outs: seq<set<Id>>, b: Id, k: nat)
    requires |outs| == |es| && k < |es| && es[k] == Release(b)
    requires b !in outs[k] && forall i :: k < i < |es| ==> b !in outs[i]
    ensures !Owed(before, es, outs, b)
  {
  }

  lemma {:induction false} ReleaseGivesNothing(s: State, es: seq<Event>, k: nat)
    requires Shape(s) && Legal(s, es) && k < |es| && es[k].Release?
    ensures Outs(s, es)[k] == {}
    decreases |es|
  {
    if k > 0 {
      ReleaseGivesNothing(Step(s, es[0]), es[1..], k - 1);
    }
  }

  lemma NodesStay(s: State, e: Event)
    requires Inv(s) && Enabled(s, e)
    ensures s.nodes <= Step(s, e).nodes
  {
  }

  lemma {:induction false} ReleasedIsNode(s: State, es: seq<Event>, k: nat)
    requires Inv(s) && Legal(s, es) && k < |es| && es[k].Release?
    ensures es[k].id in Run(s, es).nodes
    decreases |es|
  {
    StepInv(s, es[0]);
    if k > 0 {
      ReleasedIsNode(Step(s, es[0]), es[1..], k - 1);
    } else {
      RunNodes(Step(s, es[0]), es[1..]);
    }
  }

  lemma {:induction false} RunNodes(s: State, es: seq<Event>)
    requires Inv(s) && Legal(s, es)
    ensures s.nodes <= Run(s, es).nodes
    decreases |es|
  {
    if es != [] {
      StepInv(s, es[0]);
      RunNodes(Step(s, es[0]), es[1..]);
    }
  }

  lemma ReturnedIsFree(s: State, es: seq<Event>, b: Id)
    requires Inv(s) && Legal(s, es) && Returned(s, es, b)
    ensures b in Run(s, es).free
  {
    var k :| 0 <= k < |es| && es[k] == Release(b) && forall i :: k < i < |es| ==> b !in Outs(s, es)[i];
    ReleaseGivesNothing(s, es, k);
    ReleasedIsNode(s, es, k);
    ReturnedIsNotOwed(s.held, es, Outs(s, es), b, k);
    FreeIsNotOwed(s, es, b);
  }

  /** If some buffer of the list whose turn is next has come back, the next get allocates nothing, whatever is
      released meanwhile. */
  lemma ReleasedIsReused(s: State, es: seq<Event>, b: Id, more: seq<Event>)
    requires Inv(s) && Legal(s, es) && Run(s, es).phase.Idle? && Returned(s, es, b)
    requires b in Run(s, es).lists[BufferPool.Ahead(Run(s, es).turn, 1)]
    requires Legal(Run(s, es), more) && Gets(more) <= 1
    ensures var t := Run(s, es); Run(t, more).lists == t.lists && Run(t, more).total == t.total
  {
    RunInv(s, es);
    ReturnedIsFree(s, es, b);
    var t := Run(s, es);
    var i := BufferPool.Ahead(t.turn, 1);
    var k :| 0 <= k < |t.lists[i]| && t.lists[i][k] == b;
    assert HasFree(t, i);
    RunStocked(t, more, 1);
  }

  // ----- Preallocation happens -----

  lemma {:induction false} RunAppend(s: State, a: seq<Event>, b: seq<Event>)
    requires Shape(s) && Legal(s, a) && Legal(Run(s, a), b)
    ensures Legal(s, a + b) && Run(s, a + b) == Run(Run(s, a), b) && Gets(a + b) == Gets(a) + Gets(b)
    ensures Given(s, a + b) == Given(s, a) + Given(Run(s, a), b)
    decreases |a|
  {
    if a == [] {
      assert a + b == b;
    } else {
      assert (a + b)[1..] == a[1..] + b;
      RunAppend(Step(s, a[0]), a[1..], b);
    }
  }

  lemma OneEvent(s: State, e: Event)
    requires Shape(s) && Enabled(s, e)
    ensures Legal(s, [e]) && Run(s, [e]) == Step(s, e) && Gets([e]) == if e.Start? then 1 else 0
    ensures Given(s, [e]) == HandedOut(s, e)
  {
    assert [e][1..] == [];
    assert Legal(Step(s, e), []);
    assert Run(Step(s, e), []) == Step(s, e);
  }

  /** A get that is going on comes to its end. */
  lemma {:induction false} GetEnds(s: State) returns (es: seq<Event>)
    requires Inv(s) && !s.phase.Idle?
    ensures Legal(s, es) && Run(s, es).phase.Idle? && Inv(Run(s, es)) && Gets(es) == 0
    ensures Run(s, es).held == s.held + Given(s, es)
    decreases Rank(s)
  {
    var e := NextOf(s);
    StepInv(s, e);
    OneEvent(s, e);
    var t := Step(s, e);
    if t.phase.Idle? {
      es := [e];
    } else {
      var rest := GetEnds(t);
      RunAppend(s, [e], rest);
      es := [e] + rest;
    }
  }

  /** n gets, one after the other. */
  lemma {:induction false} SomeGets(s: State, n: nat) returns (es: seq<Event>)
    requires Inv(s) && s.phase.Idle?
    ensures Legal(s, es) && Run(s, es).phase.Idle? && Inv(Run(s, es)) && Gets(es) == n
    ensures Run(s, es).held == s.held + Given(s, es)
    decreases n
  {
    if n == 0 {
      es := [];
    } else {
      OneEvent(s, Start);
      StepInv(s, Start);
      var get := GetEnds(Step(s, Start));
      RunAppend(s, [Start], get);
      var one := [Start] + get;
      var rest := SomeGets(Run(s, one), n - 1);
      RunAppend(s, one, rest);
      es := one + rest;
    }
  }

  /** The buffers of `bs` come back. */
  lemma {:induction false} Releases(s: State, bs: set<Id>) returns (es: seq<Event>)
    requires Inv(s) && bs <= s.held
    ensures Legal(s, es) && Inv(Run(s, es)) && Run(s, es).phase == s.phase && Run(s, es).held == s.held - bs
    ensures Gets(es) == 0 && Given(s, es) == {}
    decreases bs
  {
    if bs == {} {
      es := [];
    } else {
      var b :| b in bs;
      OneEvent(s, Release(b));
      StepInv(s, Release(b));
      var rest := Releases(Step(s, Release(b)), bs - {b});
      RunAppend(s, [Release(b)], rest);
      es := [Release(b)] + rest;
    }
  }

  /** prealloc_p2buffers can run: from every idle state in which nothing is in use, eight gets and the release of what
      they gave, after which nothing is in use again. */
  lemma PreallocRuns(s: State) returns (es: seq<Event>)
    requires Inv(s) && s.phase.Idle? && s.held == {}
    ensures Legal(s, es) && Gets(es) == 8 && Run(s, es).phase.Idle? && Run(s, es).held == {}
    ensures forall i :: 0 <= i < SIBLINGS ==> HasFree(Run(s, es), i)
  {
    var gets := SomeGets(s, 8);
    var t := Run(s, gets);
    var back := Releases(t, t.held);
    RunAppend(s, gets, back);
    es := gets + back;
    PreallocStocks(s, es);
  }

  /** In particular from the start, where all lists are empty. */
  lemma PreallocRunsAtStart(bunch: nat) returns (es: seq<Event>)
    requires bunch > 0
    ensures Legal(Init(bunch), es) && Gets(es) == 8
    ensures var t := Run(Init(bunch), es);
            t.phase.Idle? && t.held == {} && forall i :: 0 <= i < SIBLINGS ==> HasFree(t, i)
  {
    InitInv(bunch);
    es := PreallocRuns(Init(bunch));
  }
}
