/** One pool of network buffers (src/buffer.c): eight singly linked lists used round-robin,
    searched first-fit, and extended at the head by a whole bunch when no buffer is free.
    The pools of the source differ only in the bunch size: 64 (METIS, P2, DDC), 32 (OZY), 16 (HP, MIC).

    This module is the heap structure as one thread sees it while nobody releases.
    Module PoolSchedule has the interleavings. */
module BufferPool {

  const SIBLINGS: nat := 8

  class Buffer {
    var next: Buffer?
    var free: bool

    /** The list the buffer was allocated for. */
    ghost const home: Sibling

    constructor (next: Buffer?, ghost home: Sibling)
      ensures this.next == next && free && this.home == home
    {
      this.home := home;
      this.next := next;
      free := true;
    }
  }

  /** The node at position `k` of a list, or null at its end. */
  ghost function NodeAt(chain: seq<Buffer>, k: nat): Buffer? {
    if k < |chain| then chain[k] else null
  }

  /** The nodes reachable from `head` are exactly `chain`, in this order. */
  ghost predicate Linked(head: Buffer?, chain: seq<Buffer>)
    reads chain`next
  {
    head == NodeAt(chain, 0) && forall k :: 0 <= k < |chain| ==> chain[k].next == NodeAt(chain, k + 1)
  }

  /** A list that ends is acyclic: no node occurs twice. */
  lemma {:induction false} LinkedIsAcyclic(head: Buffer?, chain: seq<Buffer>, k: nat, l: nat)
    requires Linked(head, chain)
    requires k < l < |chain|
    ensures chain[k] != chain[l]
    decreases |chain| - l
  {
    assert chain[k].next == chain[k + 1] && chain[l].next == NodeAt(chain, l + 1);
    if l + 1 < |chain| {
      LinkedIsAcyclic(head, chain, k + 1, l + 1);
    }
  }

  /** The first `k` buffers of the list are in use. */
  ghost predicate InUse(chain: seq<Buffer>, k: nat)
    requires k <= |chain|
    reads chain`free
  {
    forall j :: 0 <= j < k ==> !chain[j].free
  }

  /** The list `j` places after list `turn`, going round; (turn + j) & 7 in the source. */
  function Ahead(turn: nat, j: nat): (i: nat)
    requires turn < SIBLINGS && j <= SIBLINGS
    ensures i == (turn + j) % SIBLINGS
  {
    if turn + j < SIBLINGS then turn + j else turn + j - SIBLINGS
  }

  /** Eight consecutive requests go to eight different lists. */
  lemma AheadOnto(turn: nat, i: nat) returns (j: nat)
    requires turn < SIBLINGS && i < SIBLINGS
    ensures j < SIBLINGS && Ahead(turn, j + 1) == i
  {
    j := if i <= turn then i + SIBLINGS - turn - 1 else i - turn - 1;
  }

  /** One of the eight lists. */
  class Sibling {
    var head: Buffer?
    ghost var chain: seq<Buffer>
    ghost var nodes: set<Buffer>

    ghost predicate Valid()
      reads this, nodes`next
    {
      && (forall b :: b in chain ==> b in nodes)
      && (forall b :: b in nodes ==> b in chain && b.home == this)
      && Linked(head, chain)
    }

    ghost predicate HasFree()
      reads this, nodes`free
    {
      exists b :: b in nodes && b.free
    }

    constructor ()
      ensures Valid() && chain == [] && nodes == {}
    {
      head := null;
      chain := [];
      nodes := {};
    }

    /** The search: the first free buffer, at position k, is marked as used. */
    method Take() returns (b: Buffer?, ghost k: nat)
      requires Valid()
      modifies nodes`free
      ensures Valid() && k <= |chain| && b == NodeAt(chain, k) && old(InUse(chain, k))
      ensures b != null ==> old(b.free) && !b.free
      ensures forall c :: c in nodes && c != b ==> c.free == old(c.free)
    {
      b, k := head, 0;
      while b != null
        invariant 0 <= k <= |chain| && b == NodeAt(chain, k) && InUse(chain, k)
        invariant forall c :: c in nodes ==> c.free == old(c.free)
        decreases |chain| - k
      {
        if b.free {
          b.free := false;
          return;
        }
        b, k := b.next, k + 1;
      }
    }

    /** One round of the growth loop. */
    method Link()
      requires Valid()
      modifies this
      ensures Valid()
      ensures head != null && fresh(head) && head.free
      ensures chain == [head] + old(chain) && nodes == {head} + old(nodes)
    {
      var bp := new Buffer(head, this);
      head := bp;
      chain := [bp] + chain;
      nodes := {bp} + nodes;
    }

    /** The growth loop: a bunch of new free buffers, one at a time in front of the list. */
    method Extend(bunch: nat)
      requires Valid()
      modifies this
      ensures Valid() && |chain| == bunch + old(|chain|) && chain[bunch..] == old(chain)
      ensures old(nodes) <= nodes && forall b :: b in nodes && b !in old(nodes) ==> fresh(b) && b.free
      ensures bunch > 0 ==> head in nodes - old(nodes)
    {
      for i := 0 to bunch
        invariant Valid() && |chain| == i + old(|chain|) && chain[i..] == old(chain)
        invariant old(nodes) <= nodes && forall b :: b in nodes && b !in old(nodes) ==> fresh(b) && b.free
        invariant i > 0 ==> head in nodes - old(nodes)
      {
        Link();
      }
    }

    /** The effect of one get on this list: first fit, taking the first free buffer (at position k), or, if all are in
        use, a bunch of new buffers in front, of which the first is taken. No other buffer changes state. */
    twostate predicate Got(bunch: nat, new b: Buffer, grown: nat, k: nat)
      reads this, nodes
    {
      && |chain| == grown + old(|chain|) && chain[grown..] == old(chain)
      && k <= old(|chain|) && old(InUse(chain, k))
      && (k < old(|chain|) ==> grown == 0 && nodes == old(nodes) && b == old(chain[k]) && old(chain[k].free))
      && (k == old(|chain|) ==> grown == bunch && chain != [] && b == chain[0] && b !in old(nodes))
      && b in nodes && old(nodes) <= nodes && !b.free
      && (forall c :: c in nodes && c !in old(nodes) ==> fresh(c) && (c != b ==> c.free))
      && (forall c :: c in old(nodes) && c != b ==> c.free == old(c.free))
    }

    method Get(bunch: nat) returns (b: Buffer, grown: nat, ghost k: nat)
      requires Valid() && bunch > 0
      modifies this, nodes`free
      ensures Valid() && Got(bunch, b, grown, k)
      ensures grown == 0 <==> old(HasFree())
    {
      var taken;
      taken, k := Take();
      if taken != null {
        return taken, 0, k;
      }
      Extend(bunch);
      b := head;
      grown := bunch;
      b.free := false;
    }

    /** The inner loop of mark_p2buffers_free. */
    method MarkFree()
      requires Valid()
      modifies nodes`free
      ensures Valid()
      ensures forall b :: b in nodes ==> b.free
    {
      var bp := head;
      ghost var k := 0;
      while bp != null
        invariant 0 <= k <= |chain| && bp == NodeAt(chain, k)
        invariant Valid()
        invariant forall j :: 0 <= j < k ==> chain[j].free
        decreases |chain| - k
      {
        bp.free := true;
        bp := bp.next;
        k := k + 1;
      }
    }
  }

  class Pool {
    const bunch: nat
    const lists: seq<Sibling>
    var total: nat
    var turn: nat

    ghost function Nodes(): set<Buffer>
      reads lists
    {
      set i, b | 0 <= i < |lists| && b in lists[i].nodes :: b
    }

    ghost function TotalLength(): nat
      requires |lists| == SIBLINGS
      reads lists
    {
      |lists[0].chain| + |lists[1].chain| + |lists[2].chain| + |lists[3].chain| +
      |lists[4].chain| + |lists[5].chain| + |lists[6].chain| + |lists[7].chain|
    }

    /** Everything but the counter. */
    ghost predicate ListsValid()
      reads this`turn, lists, Nodes()`next
    {
      && bunch > 0 && |lists| == SIBLINGS && turn < SIBLINGS
      && (forall i, j :: 0 <= i < SIBLINGS && 0 <= j < SIBLINGS && i != j ==> lists[i] != lists[j])
      && (forall i :: 0 <= i < SIBLINGS ==> lists[i].Valid())
    }

    ghost predicate Valid()
      reads this, lists, Nodes()`next
    {
      ListsValid() && total == TotalLength()
    }

    /** The static tables of the source: eight empty lists, and the turn set so that list 0 is served first. */
    constructor (bunch: nat)
      requires bunch > 0
      ensures Valid() && this.bunch == bunch && turn == 7 && total == 0 && Nodes() == {}
    {
      var empty: seq<Sibling> := [];
      for i := 0 to SIBLINGS
        invariant |empty| == i && forall j :: 0 <= j < i ==> fresh(empty[j]) && empty[j].Valid()
        invariant forall j, k :: 0 <= j < i && 0 <= k < i && j != k ==> empty[j] != empty[k]
        invariant forall j :: 0 <= j < i ==> empty[j].chain == [] && empty[j].nodes == {}
      {
        var list := new Sibling();
        empty := empty + [list];
      }
      this.bunch := bunch;
      lists := empty;
      total, turn := 0, 7;
    }

    /** The lists are pairwise disjoint. */
    lemma Disjoint(i: nat, j: nat)
      requires Valid() && i < j < SIBLINGS
      ensures lists[i].nodes !! lists[j].nodes
    {
    }

    /** List i serves the request; the others do not notice. */
    method Serve(i: nat) returns (b: Buffer, grown: nat, ghost k: nat)
      requires ListsValid() && i < SIBLINGS
      modifies lists[i], lists[i].nodes`free
      ensures ListsValid() && TotalLength() == old(TotalLength()) + grown
      ensures lists[i].Got(bunch, b, grown, k)
      ensures grown == 0 <==> old(lists[i].HasFree())
    {
      b, grown, k := lists[i].Get(bunch);
      forall j | 0 <= j < SIBLINGS && j != i
        ensures lists[j].Valid() && lists[j].chain == old(lists[j].chain)
      {
        assert lists[j] != lists[i] && lists[j].nodes !! old(lists[i].nodes);
      }
    }

    method Count(i: nat, grown: nat)
      requires ListsValid() && i < SIBLINGS && total + grown == TotalLength()
      modifies this`turn, this`total
      ensures Valid() && turn == i && total == old(total) + grown
    {
      turn := i;
      total := total + grown;
      assert TotalLength() == old(TotalLength());
    }

    /** get_metisbuffer and its siblings, with nobody releasing meanwhile. */
    method Get() returns (b: Buffer, ghost grown: nat, ghost k: nat)
      requires Valid()
      modifies this`turn, this`total, lists[Ahead(turn, 1)], lists[Ahead(turn, 1)].nodes`free
      ensures Valid() && turn == Ahead(old(turn), 1) && total == old(total) + grown
      ensures lists[turn].Got(bunch, b, grown, k)
      ensures grown == 0 <==> old(lists[Ahead(turn, 1)].HasFree())
    {
      var i, n := Ahead(turn, 1), 0;
      b, n, k := Serve(i);
      grown := n;
      Count(i, n);
    }

    /** What the preallocation needs to know of one get. */
    method GetOne() returns (b: Buffer)
      requires Valid()
      modifies this`turn, this`total, lists[Ahead(turn, 1)], lists[Ahead(turn, 1)].nodes`free
      ensures Valid() && turn == Ahead(old(turn), 1)
      ensures b in lists[turn].nodes
      ensures forall j, c :: 0 <= j < SIBLINGS && c in old(lists[j].nodes) ==> c in lists[j].nodes
      ensures forall j, c :: 0 <= j < SIBLINGS && c in lists[j].nodes ==> c in old(lists[j].nodes) || fresh(c)
    {
      ghost var grown, k;
      b, grown, k := Get();
    }

    /** Buffer j of `bp` is one of the j-th list after list `from`. */
    ghost predicate FromEach(bp: seq<Buffer>, from: nat)
      requires |lists| == SIBLINGS && from < SIBLINGS && |bp| <= SIBLINGS
      reads lists
    {
      forall j :: 0 <= j < |bp| ==> bp[j] in lists[Ahead(from, j + 1)].nodes
    }

    /** One round of the first loop of prealloc_p2buffers. */
    method GetMore(bp0: seq<Buffer>, ghost from: nat) returns (bp: seq<Buffer>)
      requires Valid() && |bp0| < SIBLINGS && from < SIBLINGS && turn == Ahead(from, |bp0|) && FromEach(bp0, from)
      modifies this`turn, this`total, lists[Ahead(turn, 1)], lists[Ahead(turn, 1)].nodes`free
      ensures Valid() && |bp| == |bp0| + 1 && turn == Ahead(from, |bp|) && FromEach(bp, from)
      ensures forall j, c :: 0 <= j < SIBLINGS && c in lists[j].nodes ==> c in old(lists[j].nodes) || fresh(c)
    {
      var b := GetOne();
      bp := bp0 + [b];
    }

    /** The first loop of prealloc_p2buffers: one buffer from each list. */
    method GetEight() returns (bp: seq<Buffer>)
      requires Valid()
      modifies this`turn, this`total, lists, Nodes()`free
      ensures Valid() && turn == old(turn) && |bp| == SIBLINGS && FromEach(bp, turn)
      ensures forall j, c :: 0 <= j < SIBLINGS && c in lists[j].nodes ==> c in old(lists[j].nodes) || fresh(c)
    {
      bp := [];
      for i := 0 to SIBLINGS
        invariant Valid() && |bp| == i && turn == Ahead(old(turn), i) && FromEach(bp, old(turn))
        invariant forall j, c :: 0 <= j < SIBLINGS && c in lists[j].nodes ==> c in old(lists[j].nodes) || fresh(c)
      {
        bp := GetMore(bp, old(turn));
      }
    }

    method ReleaseOne(b: Buffer)
      requires Valid()
      modifies b`free
      ensures Valid() && b.free
    {
      b.free := true;
    }

    method Release(bp: seq<Buffer>)
      requires Valid()
      modifies bp`free
      ensures Valid()
      ensures forall b :: b in bp ==> b.free
    {
      for i := 0 to |bp|
        invariant Valid()
        invariant forall j :: 0 <= j < i ==> bp[j].free
      {
        ReleaseOne(bp[i]);
      }
    }

    /** The second loop of prealloc_p2buffers. */
    method ReleaseEight(bp: seq<Buffer>)
      requires Valid() && |bp| == SIBLINGS && FromEach(bp, turn)
      modifies bp`free
      ensures Valid() && forall i :: 0 <= i < SIBLINGS ==> lists[i].HasFree()
    {
      Release(bp);
      forall i | 0 <= i < SIBLINGS
        ensures lists[i].HasFree()
      {
        var j := AheadOnto(turn, i);
        assert bp[j] in lists[i].nodes;
      }
    }

    /** prealloc_p2buffers: afterwards no list is empty, and each has a free buffer. */
    method Prealloc()
      requires Valid()
      modifies this`turn, this`total, lists, Nodes()`free
      ensures Valid() && forall i :: 0 <= i < SIBLINGS ==> lists[i].HasFree()
    {
      var bp := GetEight();
      assert forall j :: 0 <= j < SIBLINGS ==> bp[j] in old(Nodes()) || fresh(bp[j]);
      ReleaseEight(bp);
    }

    method MarkListFree(i: nat)
      requires Valid() && i < SIBLINGS
      modifies lists[i].nodes`free
      ensures Valid()
      ensures forall b :: b in lists[i].nodes ==> b.free
    {
      lists[i].MarkFree();
    }

    /** mark_p2buffers_free. */
    method MarkAllFree()
      requires Valid()
      modifies Nodes()`free
      ensures Valid()
      ensures forall b :: b in Nodes() ==> b.free
    {
      for i := 0 to SIBLINGS
        invariant Valid()
        invariant forall j, b :: 0 <= j < i && b in lists[j].nodes ==> b.free
      {
        MarkListFree(i);
      }
    }
  }
}