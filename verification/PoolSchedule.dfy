/** The buffer pool under concurrency (src/buffer.c): one thread allocates, scanning a list node by node, while
    any number of threads release buffers by a plain store of `free = 1`, without lock or test-and-set.
    Each event below is one atomic access of one thread; a run is any legal interleaving. */
module PoolSchedule {
  import BufferPool

  const SIBLINGS: nat := BufferPool.SIBLINGS

  /** The address of a buffer. */
  type Id = nat

  /** Where the allocating thread is. Its list is `lists[turn]`, its cursor a position in that list. */
  datatype Phase =
    | Idle
    | Scan(pos: nat)   // bp is the node at pos, or null at the end of the list
    | Claim(pos: nat)  // bp->free was found set; bp->free = 0 is next
    | Grow(made: nat)  // `made` new buffers have been linked

  /** Besides the variables of the program: `nodes` are all buffers ever allocated, `held` those handed out and not
      yet released, `busy` those that were held when the current scan began. */
  datatype State = State(bunch: nat, lists: seq<seq<Id>>, free: set<Id>, turn: nat, total: nat, phase: Phase,
                         nodes: set<Id>, held: set<Id>, busy: set<Id>)

  datatype Event =
    | Start            // allocator: next list, cursor at its head
    | Look             // allocator: test bp->free, or notice the end of the list
    | Take             // allocator: bp->free = 0 and return bp
    | Link(id: Id)     // allocator: one new buffer in front of the list
    | TakeHead         // allocator: mark the head as used and return it
    | Release(id: Id)  // a consumer: free = 1
    | MarkAllFree      // mark_p2buffers_free, with the allocator stopped

  function Init(bunch: nat): State {
    State(bunch, seq(SIBLINGS, _ => []), {}, 7, 0, Idle, {}, {}, {})
  }

  ghost predicate Shape(s: State) {
    s.bunch > 0 && |s.lists| == SIBLINGS && s.turn < SIBLINGS
  }

  ghost function List(s: State): seq<Id>
    requires Shape(s)
  {
    s.lists[s.turn]
  }

  ghost predicate Enabled(s: State, e: Event)
    requires Shape(s)
  {
    match e
    case Start => s.phase.Idle?
    case Look => s.phase.Scan? && s.phase.pos <= |List(s)|
    case Take => s.phase.Claim? && s.phase.pos < |List(s)|
    case Link(id) => s.phase.Grow? && s.phase.made < s.bunch && id !in s.nodes
    case TakeHead => s.phase.Grow? && s.phase.made == s.bunch && List(s) != []
    case Release(id) => id in s.held
    case MarkAllFree => s.phase.Idle? && s.held == {}
  }

  /** The buffer that leaves the allocator in this step, if one does. */
  ghost function HandedOut(s: State, e: Event): (r: set<Id>)
    requires Shape(s) && Enabled(s, e)
  {
    match e
    case Take => {List(s)[s.phase.pos]}
    case TakeHead => {List(s)[0]}
    case _ => {}
  }

  ghost function Step(s: State, e: Event): (t: State)
    requires Shape(s) && Enabled(s, e)
    ensures Shape(t) && t.bunch == s.bunch
  {
    match e
    case Start => s.(turn := BufferPool.Ahead(s.turn, 1), phase := Scan(0), busy := s.held)
    case Look =>
      var pos := s.phase.pos;
      if pos == |List(s)| then s.(phase := Grow(0))
      else if List(s)[pos] in s.free then s.(phase := Claim(pos))
      else s.(phase := Scan(pos + 1))
    case Take =>
      var b := List(s)[s.phase.pos];
      s.(free := s.free - {b}, held := s.held + {b}, phase := Idle)
    case Link(id) =>
      s.(lists := s.lists[s.turn := [id] + List(s)], free := s.free + {id}, nodes := s.nodes + {id},
         total := s.total + 1, phase := Grow(s.phase.made + 1))
    case TakeHead =>
      var b := List(s)[0];
      s.(free := s.free - {b}, held := s.held + {b}, phase := Idle)
    case Release(id) => s.(free := s.free + {id}, held := s.held - {id})
    case MarkAllFree => s.(free := s.nodes)
  }

  /** A run is a sequence of events, each of them possible where it occurs. */
  ghost predicate Legal(s: State, es: seq<Event>)
    requires Shape(s)
    decreases |es|
  {
    es == [] || (Enabled(s, es[0]) && Legal(Step(s, es[0]), es[1..]))
  }

  ghost function Run(s: State, es: seq<Event>): (t: State)
    requires Shape(s) && Legal(s, es)
    ensures Shape(t) && t.bunch == s.bunch
    decreases |es|
  {
    if es == [] then s else Run(Step(s, es[0]), es[1..])
  }

  // ----- What every step keeps -----

  ghost predicate NoRepeats(list: seq<Id>) {
    forall k, l :: 0 <= k < l < |list| ==> list[k] != list[l]
  }

  ghost predicate Apart(lists: seq<seq<Id>>) {
    forall i, j, b :: 0 <= i < j < |lists| && b in lists[i] ==> b !in lists[j]
  }

  /** The lists hold exactly the buffers of `nodes`. */
  ghost predicate Covers(lists: seq<seq<Id>>, nodes: set<Id>) {
    && (forall i, b :: 0 <= i < |lists| && b in lists[i] ==> b in nodes)
    && (forall b :: b in nodes ==> exists i :: 0 <= i < |lists| && b in lists[i])
  }

  ghost function TotalLength(lists: seq<seq<Id>>): nat {
    if lists == [] then 0 else |lists[0]| + TotalLength(lists[1..])
  }

  /** Acyclic and disjoint lists, no buffer lost, an exact counter. */
  ghost predicate Sound(s: State)
    requires Shape(s)
  {
    && (forall i :: 0 <= i < SIBLINGS ==> NoRepeats(s.lists[i]))
    && Apart(s.lists) && Covers(s.lists, s.nodes)
    && s.total == TotalLength(s.lists)
  }

  /** Every buffer is either free or handed out, never both. */
  ghost predicate Exclusive(s: State) {
    s.free !! s.held && s.free + s.held == s.nodes
  }

  /** What the allocator knows of its list: a node it has passed was handed out before the scan began, for
      only it hands out buffers; a node it is about to claim cannot stop being free. */
  ghost predicate Cursor(s: State)
    requires Shape(s)
  {
    match s.phase
    case Idle => true
    case Scan(pos) => pos <= |List(s)| && s.held <= s.busy && forall k :: 0 <= k < pos ==> List(s)[k] in s.busy
    case Claim(pos) => pos < |List(s)| && List(s)[pos] in s.free
    case Grow(made) =>
      && made <= s.bunch && made <= |List(s)|
      && (forall k :: 0 <= k < made ==> List(s)[k] in s.free)
      && (forall k :: made <= k < |List(s)| ==> List(s)[k] in s.busy)
  }

  ghost predicate Inv(s: State) {
    Shape(s) && Sound(s) && Exclusive(s) && Cursor(s)
  }

  lemma {:induction false} TotalLengthUpdate(lists: seq<seq<Id>>, i: nat, list: seq<Id>)
    requires i < |lists|
    ensures TotalLength(lists[i := list]) == TotalLength(lists) - |lists[i]| + |list|
  {
    var updated := lists[i := list];
    if i == 0 {
      assert updated[1..] == lists[1..];
    } else {
      assert updated[1..] == lists[1..][i - 1 := list];
      TotalLengthUpdate(lists[1..], i - 1, list);
    }
  }

  lemma {:induction false} EmptyTotal(lists: seq<seq<Id>>)
    requires forall i :: 0 <= i < |lists| ==> lists[i] == []
    ensures TotalLength(lists) == 0
  {
    if lists != [] {
      EmptyTotal(lists[1..]);
    }
  }

  /** The pool begins empty, and the first get serves list 0. */
  lemma InitInv(bunch: nat)
    requires bunch > 0
    ensures Inv(Init(bunch)) && Init(bunch).nodes == {} && BufferPool.Ahead(Init(bunch).turn, 1) == 0
  {
    EmptyTotal(Init(bunch).lists);
  }

  lemma LinkSound(s: State, id: Id)
    requires Shape(s) && Sound(s) && Enabled(s, Link(id))
    ensures Sound(Step(s, Link(id)))
  {
    var t := Step(s, Link(id));
    TotalLengthUpdate(s.lists, s.turn, [id] + List(s));
    assert id !in List(s);
    forall b | b in t.nodes
      ensures exists i :: 0 <= i < |t.lists| && b in t.lists[i]
    {
      if b == id {
        assert b in t.lists[s.turn];
      } else {
        var i :| 0 <= i < |s.lists| && b in s.lists[i];
        assert b in t.lists[i];
      }
    }
  }

  lemma LinkInv(s: State, id: Id)
    requires Inv(s) && Enabled(s, Link(id))
    ensures Inv(Step(s, Link(id)))
  {
    LinkSound(s, id);
    var t := Step(s, Link(id));
    assert forall k :: 1 <= k < |List(t)| ==> List(t)[k] == List(s)[k - 1];
  }

  lemma LookInv(s: State)
    requires Inv(s) && Enabled(s, Look)
    ensures Inv(Step(s, Look))
  {
    if s.phase.pos < |List(s)| {
      assert List(s)[s.phase.pos] in List(s);
      assert List(s)[s.phase.pos] in s.nodes;
    }
  }

  lemma TakeInv(s: State)
    requires Inv(s) && Enabled(s, Take)
    ensures Inv(Step(s, Take))
  {
    assert List(s)[s.phase.pos] in s.nodes;
  }

  lemma TakeHeadInv(s: State)
    requires Inv(s) && Enabled(s, TakeHead)
    ensures Inv(Step(s, TakeHead))
  {
    assert List(s)[0] in s.nodes;
  }

  /** A release can only free more buffers, which neither the scan nor the claim minds. */
  lemma ReleaseInv(s: State, id: Id)
    requires Inv(s) && Enabled(s, Release(id))
    ensures Inv(Step(s, Release(id))) && id in Step(s, Release(id)).free
  {
  }

  /** Every step keeps the invariant, and a buffer that is released is free afterwards. */
  lemma StepInv(s: State, e: Event)
    requires Inv(s) && Enabled(s, e)
    ensures Inv(Step(s, e)) && (e.Release? ==> e.id in Step(s, e).free)
  {
    match e
    case Link(id) => LinkInv(s, id);
    case Take => TakeInv(s);
    case Look => LookInv(s);
    case TakeHead => TakeHeadInv(s);
    case Release(id) => ReleaseInv(s, id);
    case _ =>
  }

  lemma {:induction false} RunInv(s: State, es: seq<Event>)
    requires Inv(s) && Legal(s, es)
    ensures Inv(Run(s, es))
    decreases |es|
  {
    if es != [] {
      StepInv(s, es[0]);
      RunInv(Step(s, es[0]), es[1..]);
    }
  }

  /** Exclusive ownership: in every interleaving, a buffer that is handed out was free and is held by nobody; the
      lists are acyclic and disjoint and hold every buffer ever allocated; the counter is their total length. */
  lemma ExclusiveOwnership(bunch: nat, es: seq<Event>, e: Event)
    requires bunch > 0 && Legal(Init(bunch), es) && Enabled(Run(Init(bunch), es), e)
    ensures var s := Run(Init(bunch), es);
            && HandedOut(s, e) <= s.free && HandedOut(s, e) !! s.held
            && Sound(s) && Sound(Step(s, e))
            && s.nodes <= Step(s, e).nodes
  {
    InitInv(bunch);
    RunInv(Init(bunch), es);
    StepInv(Run(Init(bunch), es), e);
  }

  // ----- How long the lists get -----

  /** Never more than `n` buffers in use at once, anywhere in the run. */
  ghost predicate AtMost(s: State, es: seq<Event>, n: nat)
    requires Shape(s) && Legal(s, es)
    decreases |es|
  {
    |s.held| <= n && (es == [] || AtMost(Step(s, es[0]), es[1..], n))
  }

  /** `length` is a number of whole bunches. */
  ghost predicate Whole(bunch: nat, length: int)
    requires bunch > 0
    decreases length
  {
    length == 0 || (length >= bunch && Whole(bunch, length - bunch))
  }

  /** One bunch more than `n` buffers fill. */
  ghost function Limit(bunch: nat, n: nat): nat
    requires bunch > 0
    decreases n
  {
    bunch + if n < bunch then 0 else Limit(bunch, n - bunch)
  }

  lemma {:induction false} LimitIs(bunch: nat, q: nat, r: nat)
    requires r < bunch
    ensures Limit(bunch, bunch * q + r) == bunch * (q + 1)
    decreases q
  {
    if q > 0 {
      assert bunch * q + r - bunch == bunch * (q - 1) + r;
      LimitIs(bunch, q - 1, r);
    }
  }

  /** The length list i had before the growth now going on, if any. */
  ghost function Base(s: State, i: nat): int
    requires Shape(s) && i < SIBLINGS
  {
    if s.phase.Grow? && i == s.turn then |s.lists[i]| - s.phase.made else |s.lists[i]|
  }

  ghost predicate Short(s: State, n: nat)
    requires Shape(s)
  {
    && (forall i :: 0 <= i < SIBLINGS ==> |s.lists[i]| <= Limit(s.bunch, n) && Whole(s.bunch, Base(s, i)))
    && (!s.phase.Idle? ==> |s.busy| <= n)
    && (s.phase.Grow? ==> s.phase.made <= s.bunch && Base(s, s.turn) <= n)
  }

  lemma {:induction false} DistinctBound(list: seq<Id>, all: set<Id>)
    requires NoRepeats(list) && forall k :: 0 <= k < |list| ==> list[k] in all
    ensures |list| <= |all|
  {
    if list != [] {
      var last := |list| - 1;
      DistinctBound(list[..last], all - {list[last]});
    }
  }

  lemma {:induction false} WholeBound(bunch: nat, base: nat, n: nat)
    requires bunch > 0 && Whole(bunch, base) && base <= n
    ensures base + bunch <= Limit(bunch, n)
    decreases base
  {
    if base > 0 {
      WholeBound(bunch, base - bunch, n - bunch);
    }
  }

  lemma LinkShort(s: State, id: Id, n: nat)
    requires Inv(s) && Short(s, n) && Enabled(s, Link(id))
    ensures Short(Step(s, Link(id)), n)
  {
    WholeBound(s.bunch, Base(s, s.turn), n);
    var t := Step(s, Link(id));
    assert forall i :: 0 <= i < SIBLINGS ==> Base(t, i) == Base(s, i);
  }

  lemma TakeHeadShort(s: State, n: nat)
    requires Inv(s) && Short(s, n) && Enabled(s, TakeHead)
    ensures Short(Step(s, TakeHead), n)
  {
    var t := Step(s, TakeHead);
    assert forall i :: 0 <= i < SIBLINGS && i != s.turn ==> Base(t, i) == Base(s, i);
    assert Base(t, s.turn) == Base(s, s.turn) + s.bunch;
  }

  lemma SameBases(s: State, e: Event)
    requires Inv(s) && Enabled(s, e) && !e.Link? && !e.TakeHead?
    ensures forall i :: 0 <= i < SIBLINGS ==> Base(Step(s, e), i) == Base(s, i)
  {
  }

  /** A growth begins only when every buffer of the list was in use. */
  lemma LookShort(s: State, n: nat)
    requires Inv(s) && Short(s, n) && Enabled(s, Look)
    ensures Short(Step(s, Look), n)
  {
    SameBases(s, Look);
    if s.phase.pos == |List(s)| {
      DistinctBound(List(s), s.busy);
    }
  }

  lemma StepShort(s: State, e: Event, n: nat)
    requires Inv(s) && Short(s, n) && Enabled(s, e) && |s.held| <= n
    ensures Short(Step(s, e), n)
  {
    if e.Link? {
      LinkShort(s, e.id, n);
    } else if e.TakeHead? {
      TakeHeadShort(s, n);
    } else if e.Look? {
      LookShort(s, n);
    } else {
      SameBases(s, e);
    }
  }

  lemma {:induction false} RunShort(s: State, es: seq<Event>, n: nat)
    requires Inv(s) && Short(s, n) && Legal(s, es) && AtMost(s, es, n)
    ensures Short(Run(s, es), n)
    decreases |es|
  {
    if es != [] {
      StepInv(s, es[0]);
      StepShort(s, es[0], n);
      RunShort(Step(s, es[0]), es[1..], n);
    }
  }

  /** Growth bound: if never more than n buffers of the pool are in use at once, no list exceeds
      bunch * (n / bunch + 1) buffers, however releases fall between the steps of a scan. */
  lemma GrowthBound(bunch: nat, n: nat, es: seq<Event>, i: nat)
    requires bunch > 0 && i < SIBLINGS
    requires Legal(Init(bunch), es) && AtMost(Init(bunch), es, n)
    ensures |Run(Init(bunch), es).lists[i]| <= bunch * (n / bunch + 1)
  {
    InitInv(bunch);
    LimitIs(bunch, n / bunch, n % bunch);
    assert n == bunch * (n / bunch) + n % bunch;
    RunShort(Init(bunch), es, n);
  }

  // ----- After preallocation -----

  ghost predicate HasFree(s: State, i: nat)
    requires Shape(s) && i < SIBLINGS
  {
    exists k :: 0 <= k < |s.lists[i]| && s.lists[i][k] in s.free
  }

  function Gets(es: seq<Event>): nat {
    if es == [] then 0 else (if es[0].Start? then 1 else 0) + Gets(es[1..])
  }

  /** The next `left` lists each have a free buffer, and a scan now going on has one in front of it. */
  ghost predicate Stocked(s: State, left: nat)
    requires Shape(s)
  {
    && left <= SIBLINGS
    && (forall j :: 1 <= j <= left ==> HasFree(s, BufferPool.Ahead(s.turn, j)))
    && (s.phase.Scan? ==> exists k :: s.phase.pos <= k < |List(s)| && List(s)[k] in s.free)
    && !s.phase.Grow?
    && (!s.phase.Idle? ==> left < SIBLINGS)
  }

  lemma TakeLeavesOthers(s: State, i: nat)
    requires Inv(s) && Enabled(s, Take) && i < SIBLINGS && i != s.turn && HasFree(s, i)
    ensures HasFree(Step(s, Take), i)
  {
    var k :| 0 <= k < |s.lists[i]| && s.lists[i][k] in s.free;
    assert s.lists[i][k] in s.lists[i] && List(s)[s.phase.pos] in List(s);
    assert Step(s, Take).lists[i][k] in Step(s, Take).free;
  }

  /** Other steps free buffers if anything. */
  lemma StillFree(s: State, t: State, i: nat)
    requires Shape(s) && Shape(t) && t.lists == s.lists && s.free <= t.free
    requires i < SIBLINGS && HasFree(s, i)
    ensures HasFree(t, i)
  {
    var k :| 0 <= k < |s.lists[i]| && s.lists[i][k] in s.free;
    assert t.lists[i][k] in t.free;
  }

  /** The lists that are still to come keep their free buffers. */
  lemma StepKeepsAhead(s: State, e: Event, left: nat, j: nat)
    requires Inv(s) && Stocked(s, left) && Enabled(s, e) && 1 <= j <= (if e.Start? then left - 1 else left)
    ensures HasFree(Step(s, e), BufferPool.Ahead(Step(s, e).turn, j))
  {
    var t := Step(s, e);
    var i := BufferPool.Ahead(t.turn, j);
    assert i == BufferPool.Ahead(s.turn, if e.Start? then j + 1 else j);
    if e.Take? {
      TakeLeavesOthers(s, i);
    } else {
      StillFree(s, t, i);
    }
  }

  /** A scan never passes the last free buffer of its list. */
  lemma StepKeepsScan(s: State, e: Event, left: nat)
    requires Inv(s) && Stocked(s, left) && Enabled(s, e) && (e.Start? ==> left > 0)
    requires Step(s, e).phase.Scan?
    ensures var t := Step(s, e); exists k :: t.phase.pos <= k < |List(t)| && List(t)[k] in t.free
  {
    var t := Step(s, e);
    if e.Start? {
      assert HasFree(s, BufferPool.Ahead(s.turn, 1));
      var k :| 0 <= k < |List(t)| && List(t)[k] in s.free;
      assert List(t)[k] in t.free;
    } else {
      var k :| s.phase.pos <= k < |List(s)| && List(s)[k] in s.free;
      assert List(t)[k] in t.free;
    }
  }

  lemma StepStocked(s: State, e: Event, left: nat)
    requires Inv(s) && Stocked(s, left) && Enabled(s, e) && (e.Start? ==> left > 0)
    ensures Stocked(Step(s, e), if e.Start? then left - 1 else left)
    ensures Step(s, e).lists == s.lists && Step(s, e).total == s.total
  {
    forall j | 1 <= j <= (if e.Start? then left - 1 else left)
      ensures HasFree(Step(s, e), BufferPool.Ahead(Step(s, e).turn, j))
    {
      StepKeepsAhead(s, e, left, j);
    }
    if Step(s, e).phase.Scan? {
      StepKeepsScan(s, e, left);
    }
  }

  lemma {:induction false} RunStocked(s: State, es: seq<Event>, left: nat)
    requires Inv(s) && Stocked(s, left) && Legal(s, es) && Gets(es) <= left
    ensures Run(s, es).lists == s.lists && Run(s, es).total == s.total
    decreases |es|
  {
    if es != [] {
      StepInv(s, es[0]);
      StepStocked(s, es[0], left);
      RunStocked(Step(s, es[0]), es[1..], if es[0].Start? then left - 1 else left);
    }
  }

  /** After preallocation, when every list has a free buffer, the next eight gets allocate nothing, whatever is
      released in between. */
  lemma EightGetsWithoutGrowth(s: State, es: seq<Event>)
    requires Inv(s) && s.phase.Idle? && forall i :: 0 <= i < SIBLINGS ==> HasFree(s, i)
    requires Legal(s, es) && Gets(es) <= 8
    ensures Run(s, es).lists == s.lists && Run(s, es).total == s.total
  {
    RunStocked(s, es, 8);
  }

  // ----- Preallocation -----

  /** The buffers that the allocator hands out in a run. */
  ghost function Given(s: State, es: seq<Event>): set<Id>
    requires Shape(s) && Legal(s, es)
    decreases |es|
  {
    if es == [] then {} else HandedOut(s, es[0]) + Given(Step(s, es[0]), es[1..])
  }

  /** One of these buffers is in list i. */
  ghost predicate Serves(given: set<Id>, s: State, i: nat)
    requires Shape(s) && i < SIBLINGS
  {
    exists b :: b in given && b in s.lists[i]
  }

  lemma {:induction false} RunKeepsNodes(s: State, es: seq<Event>, i: nat, b: Id)
    requires Shape(s) && Legal(s, es) && i < SIBLINGS && b in s.lists[i]
    ensures b in Run(s, es).lists[i]
    decreases |es|
  {
    if es != [] {
      RunKeepsNodes(Step(s, es[0]), es[1..], i, b);
    }
  }

  /** A get that hands out its buffer has served its list. */
  lemma HandingOutServes(s: State, es: seq<Event>)
    requires Inv(s) && Legal(s, es) && es != [] && (es[0].Take? || es[0].TakeHead?)
    ensures Serves(Given(s, es), Run(s, es), s.turn)
  {
    var b := if es[0].Take? then List(s)[s.phase.pos] else List(s)[0];
    RunKeepsNodes(s, es, s.turn, b);
    assert b in HandedOut(s, es[0]);
  }

  /** The gets of a run serve the lists one after the other; one that is going on when the run begins serves its own.
      Here list j is the one j places ahead, and 0 the present one. */
  lemma {:induction false} GetsServe(s: State, es: seq<Event>, j: nat)
    requires Inv(s) && Legal(s, es) && Run(s, es).phase.Idle?
    requires j <= Gets(es) && j <= SIBLINGS && (j == 0 ==> !s.phase.Idle?)
    ensures Serves(Given(s, es), Run(s, es), if j == 0 then s.turn else BufferPool.Ahead(s.turn, j))
    decreases |es|
  {
    if es != [] {
      var e, t := es[0], Step(s, es[0]);
      StepInv(s, e);
      if (e.Take? || e.TakeHead?) && j == 0 {
        HandingOutServes(s, es);
      } else if e.Start? {
        GetsServe(t, es[1..], j - 1);
        assert j > 1 ==> BufferPool.Ahead(t.turn, j - 1) == BufferPool.Ahead(s.turn, j);
      } else {
        GetsServe(t, es[1..], j);
      }
    }
  }

  /** prealloc_p2buffers: when eight gets are over and the buffers that they gave have been released, every list has
      a free buffer, whatever else is released in between. */
  lemma PreallocStocks(s: State, es: seq<Event>)
    requires Inv(s) && Legal(s, es) && Gets(es) >= 8
    requires Run(s, es).phase.Idle? && Run(s, es).held !! Given(s, es)
    ensures forall i :: 0 <= i < SIBLINGS ==> HasFree(Run(s, es), i)
  {
    RunInv(s, es);
    var t := Run(s, es);
    forall i | 0 <= i < SIBLINGS
      ensures HasFree(t, i)
    {
      var j := BufferPool.AheadOnto(s.turn, i);
      GetsServe(s, es, j + 1);
      var b :| b in Given(s, es) && b in t.lists[i];
      assert b in t.nodes;
      var k :| 0 <= k < |t.lists[i]| && t.lists[i][k] == b;
      assert t.lists[i][k] in t.free;
    }
  }

  /** After preallocation the next eight gets allocate nothing. */
  lemma EightGetsAfterPrealloc(s: State, prealloc: seq<Event>, es: seq<Event>)
    requires Inv(s) && Legal(s, prealloc) && Gets(prealloc) >= 8
    requires Run(s, prealloc).phase.Idle? && Run(s, prealloc).held !! Given(s, prealloc)
    requires Legal(Run(s, prealloc), es) && Gets(es) <= 8
    ensures var t := Run(s, prealloc); Run(t, es).lists == t.lists && Run(t, es).total == t.total
  {
    RunInv(s, prealloc);
    PreallocStocks(s, prealloc);
    EightGetsWithoutGrowth(Run(s, prealloc), es);
  }

  // ----- The one forced release -----

  /** Some run hands out a buffer that is in use at that moment. */
  ghost predicate CanHandOutTwice(s: State)
    requires Shape(s)
  {
    exists es, e :: HandsOutHeld(s, es, e)
  }

  ghost predicate HandsOutHeld(s: State, es: seq<Event>, e: Event)
    requires Shape(s)
  {
    Legal(s, es) && Enabled(Run(s, es), e) && HandedOut(Run(s, es), e) * Run(s, es).held != {}
  }

  /** What can happen after a step can happen. */
  lemma TwiceLater(s: State, e: Event)
    requires Shape(s) && Enabled(s, e) && CanHandOutTwice(Step(s, e))
    ensures CanHandOutTwice(s)
  {
    var es, last :| HandsOutHeld(Step(s, e), es, last);
    var all := [e] + es;
    assert all[1..] == es;
    assert HandsOutHeld(s, all, last);
  }

  lemma TwiceNow(s: State, e: Event)
    requires Shape(s) && Enabled(s, e) && HandedOut(s, e) * s.held != {}
    ensures CanHandOutTwice(s)
  {
    assert HandsOutHeld(s, [], e);
  }

  lemma {:induction false} Fresh(nodes: set<Id>) returns (id: Id)
    ensures forall b :: b in nodes ==> b < id
  {
    if nodes == {} {
      id := 0;
    } else {
      var b :| b in nodes;
      var least := Fresh(nodes - {b});
      id := if b < least then least else b + 1;
      assert forall c :: c in nodes ==> c == b || c in nodes - {b};
    }
  }

  /** Buffer b is in list i, and it is in use although it is marked as free; and the allocator, if it scans that list,
      has not passed b. */
  ghost predicate Doomed(s: State, i: nat, b: Id) {
    && Shape(s) && Sound(s) && i < SIBLINGS && b in s.lists[i] && b in s.free && b in s.held && s.held <= s.nodes
    && match s.phase
       case Idle => true
       case Scan(pos) =>
         pos <= |List(s)| && (s.turn == i ==> exists k :: pos <= k < |List(s)| && List(s)[k] == b)
       case Claim(pos) => pos < |List(s)| && List(s)[pos] in s.free
       case Grow(made) => s.turn != i && made <= s.bunch && made <= |List(s)|
  }

  ghost function FreeIn(s: State, i: nat): set<Id>
    requires Shape(s) && i < SIBLINGS
  {
    set x | x in s.lists[i] && x in s.free
  }

  /** How many gets begin until one serves list i. */
  ghost function Wait(s: State, i: nat): nat
    requires Shape(s) && i < SIBLINGS
  {
    if s.phase.Idle? then (if i > s.turn then i - s.turn else i + SIBLINGS - s.turn)
    else if i >= s.turn then i - s.turn else i + SIBLINGS - s.turn
  }

  ghost function Rank(s: State): int
    requires Shape(s)
  {
    match s.phase
    case Idle => 0
    case Scan(pos) => s.bunch + 4 + |List(s)| - pos
    case Claim(_) => 1
    case Grow(made) => s.bunch - made + 1
  }

  /** What the allocator does if nobody releases anything. */
  lemma NextOf(s: State) returns (e: Event)
    requires Shape(s) && (s.phase.Scan? ==> s.phase.pos <= |List(s)|) && (s.phase.Claim? ==> s.phase.pos < |List(s)|)
    requires s.phase.Grow? ==> s.phase.made <= s.bunch && s.phase.made <= |List(s)|
    ensures Enabled(s, e) && !e.Release? && !e.MarkAllFree?
  {
    match s.phase
    case Idle => e := Start;
    case Scan(_) => e := Look;
    case Claim(_) => e := Take;
    case Grow(made) =>
      if made < s.bunch {
        var id := Fresh(s.nodes);
        e := Link(id);
      } else {
        e := TakeHead;
      }
  }

  lemma LinkDoomed(s: State, id: Id, i: nat, b: Id)
    requires Doomed(s, i, b) && Enabled(s, Link(id))
    ensures var t := Step(s, Link(id)); Doomed(t, i, b) && FreeIn(t, i) == FreeIn(s, i)
  {
    LinkSound(s, id);
    var t := Step(s, Link(id));
    assert id !in t.lists[i];
  }

  lemma TakeDoomed(s: State, i: nat, b: Id)
    requires Doomed(s, i, b) && Enabled(s, Take) && HandedOut(s, Take) !! s.held
    ensures var t := Step(s, Take);
            Doomed(t, i, b) && if s.turn == i then FreeIn(t, i) < FreeIn(s, i) else FreeIn(t, i) <= FreeIn(s, i)
  {
    var x := List(s)[s.phase.pos];
    assert x in List(s) && x in s.nodes;
    if s.turn == i {
      assert x in FreeIn(s, i);
    }
  }

  lemma LookDoomed(s: State, i: nat, b: Id)
    requires Doomed(s, i, b) && Enabled(s, Look)
    ensures Doomed(Step(s, Look), i, b)
  {
    var t := Step(s, Look);
    if s.turn == i {
      var k :| s.phase.pos <= k < |List(s)| && List(s)[k] == b;
      assert List(t)[k] == b;
    }
  }

  lemma StartDoomed(s: State, i: nat, b: Id)
    requires Doomed(s, i, b) && Enabled(s, Start)
    ensures var t := Step(s, Start); Doomed(t, i, b) && Wait(t, i) < Wait(s, i)
  {
    var t := Step(s, Start);
    var k :| 0 <= k < |s.lists[i]| && s.lists[i][k] == b;
    assert t.turn == i ==> List(t)[k] == b;
  }

  lemma TakeHeadDoomed(s: State, i: nat, b: Id)
    requires Doomed(s, i, b) && Enabled(s, TakeHead) && HandedOut(s, TakeHead) !! s.held
    ensures var t := Step(s, TakeHead); Doomed(t, i, b) && FreeIn(t, i) <= FreeIn(s, i)
  {
    assert List(s)[0] in List(s) && List(s)[0] in s.nodes;
  }

  /** Without releases, the allocator comes nearer to handing out a buffer in use. */
  lemma StepDoomed(s: State, e: Event, i: nat, b: Id)
    requires Doomed(s, i, b) && Enabled(s, e) && !e.Release? && !e.MarkAllFree? && HandedOut(s, e) !! s.held
    ensures var t := Step(s, e);
            && Doomed(t, i, b) && FreeIn(t, i) <= FreeIn(s, i)
            && (FreeIn(t, i) != FreeIn(s, i) || Wait(t, i) < Wait(s, i)
                || (Wait(t, i) == Wait(s, i) && Rank(t) < Rank(s)))
  {
    match e
    case Start => StartDoomed(s, i, b);
    case Look => LookDoomed(s, i, b);
    case Take => TakeDoomed(s, i, b);
    case Link(id) => LinkDoomed(s, id, i, b);
    case TakeHead => TakeHeadDoomed(s, i, b);
    case _ =>
  }

  lemma Smaller(a: set<Id>, b: set<Id>)
    requires a <= b
    ensures |a| <= |b| && (a != b ==> |a| < |b|)
  {
    var rest := b - a;
    assert b == a + rest;
    assert |b| == |a| + |rest|;
  }

  lemma {:induction false} DoomedTwice(s: State, i: nat, b: Id)
    requires Doomed(s, i, b)
    ensures CanHandOutTwice(s)
    decreases |FreeIn(s, i)|, Wait(s, i), Rank(s)
  {
    var e := NextOf(s);
    if HandedOut(s, e) * s.held != {} {
      TwiceNow(s, e);
    } else {
      StepDoomed(s, e, i, b);
      Smaller(FreeIn(Step(s, e), i), FreeIn(s, i));
      DoomedTwice(Step(s, e), i, b);
      TwiceLater(s, e);
    }
  }

  lemma NeverTwice(s: State, es: seq<Event>, e: Event)
    requires Inv(s) && Legal(s, es) && Enabled(Run(s, es), e)
    ensures HandedOut(Run(s, es), e) !! Run(s, es).held
  {
    RunInv(s, es);
  }

  /** After mark_p2buffers_free some buffer in use can be handed out again exactly when some buffer is in use. */
  lemma MarkAllFreeNeedsIdlePool(s: State)
    requires Inv(s) && s.phase.Idle?
    ensures CanHandOutTwice(s.(free := s.nodes)) <==> s.held != {}
    ensures Inv(s.(free := s.nodes)) <==> s.held == {}
  {
    var t := s.(free := s.nodes);
    if s.held == {} {
      if CanHandOutTwice(t) {
        var es, e :| HandsOutHeld(t, es, e);
        NeverTwice(t, es, e);
      }
    } else {
      var b :| b in s.held;
      var i :| 0 <= i < |s.lists| && b in s.lists[i];
      DoomedTwice(t, i, b);
    }
  }

  /** An instance of this with an explicit run: if the buffer in use is the first one of the list whose turn it is,
      the very next get hands it out. */
  lemma MarkAllFreeCanHandOutTwice(s: State)
    requires Inv(s) && s.phase.Idle?
    requires s.lists[BufferPool.Ahead(s.turn, 1)] != []
    requires s.lists[BufferPool.Ahead(s.turn, 1)][0] in s.held
    ensures var t := s.(free := s.nodes);
            && Legal(t, [Start, Look, Take])
            && HandedOut(Run(t, [Start, Look]), Take) <= s.held
  {
    var t := s.(free := s.nodes);
    var t1 := Step(t, Start);
    assert List(t1)[0] in t1.nodes;
    var t2 := Step(t1, Look);
    assert [Start, Look, Take][1..] == [Look, Take] && [Look, Take][1..] == [Take] && [Take][1..] == [];
    assert [Start, Look][1..] == [Look] && [Look][1..] == [];
    assert Legal(t2, [Take]);
    assert Legal(t1, [Look, Take]);
    assert Run(t1, [Look]) == Run(t2, []) == t2;
  }
}
