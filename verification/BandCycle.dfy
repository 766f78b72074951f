/** Stepping through the bands (src/band.c, band_plus and band_minus). Bands without a title are skipped, and so are
    bands that the radio refuses: vfo_id_band_changed either selects the new band or leaves the VFO where it is. */
module BandCycle {

  const BANDS: nat := 24
  const XVTRS: nat := 10
  const COUNT: nat := BANDS + XVTRS

  type Band = b: nat | b < COUNT

  /** The band `d` places above b, going round. */
  function Above(b: Band, d: nat): Band
    requires d <= COUNT
  {
    if b + d < COUNT then b + d else b + d - COUNT
  }

  function Below(b: Band, d: nat): Band
    requires d <= COUNT
  {
    if d <= b then b - d else b + COUNT - d
  }

  /** How far above b the band n is; COUNT for b itself. */
  function Distance(b: Band, n: Band): (d: nat)
    ensures 1 <= d <= COUNT && Above(b, d) == n && Below(n, d) == b
  {
    if n > b then n - b else n + COUNT - b
  }

  // ----- The cyclic order of a set of bands -----

  /** The distance from b up to the first band of `s`, looking from d places above b on. */
  ghost function GapUp(s: set<Band>, b: Band, d: nat): (g: nat)
    requires 1 <= d <= COUNT
    requires exists n :: n in s && Distance(b, n) >= d
    ensures d <= g <= COUNT && Above(b, g) in s
    ensures forall e :: d <= e < g ==> Above(b, e) !in s
    decreases COUNT - d
  {
    if Above(b, d) in s then d
    else
      var n :| n in s && Distance(b, n) >= d;
      assert Distance(b, n) >= d + 1;
      GapUp(s, b, d + 1)
  }

  ghost function GapDown(s: set<Band>, b: Band, d: nat): (g: nat)
    requires 1 <= d <= COUNT
    requires exists n :: n in s && Distance(n, b) >= d
    ensures d <= g <= COUNT && Below(b, g) in s
    ensures forall e :: d <= e < g ==> Below(b, e) !in s
    decreases COUNT - d
  {
    if Below(b, d) in s then d
    else
      var n :| n in s && Distance(n, b) >= d;
      assert Distance(n, b) >= d + 1;
      GapDown(s, b, d + 1)
  }

  lemma SomeBand(s: set<Band>, b: Band)
    requires s != {}
    ensures exists n :: n in s && Distance(b, n) >= 1
    ensures exists n :: n in s && Distance(n, b) >= 1
  {
    var n :| n in s;
    assert Distance(b, n) >= 1 && Distance(n, b) >= 1;
  }

  ghost function Next(s: set<Band>, b: Band): Band
    requires s != {}
  {
    SomeBand(s, b);
    Above(b, GapUp(s, b, 1))
  }

  ghost function Previous(s: set<Band>, b: Band): Band
    requires s != {}
  {
    SomeBand(s, b);
    Below(b, GapDown(s, b, 1))
  }

  /** The first band of s above b is determined by what a search finds. */
  lemma NextIs(s: set<Band>, b: Band, d: nat)
    requires 1 <= d <= COUNT && Above(b, d) in s && forall e :: 1 <= e < d ==> Above(b, e) !in s
    ensures Next(s, b) == Above(b, d)
  {
    SomeBand(s, b);
  }

  lemma PreviousIs(s: set<Band>, b: Band, d: nat)
    requires 1 <= d <= COUNT && Below(b, d) in s && forall e :: 1 <= e < d ==> Below(b, e) !in s
    ensures Previous(s, b) == Below(b, d)
  {
    SomeBand(s, b);
  }

  /** On the bands of s, a step down undoes a step up. */
  lemma UpDown(s: set<Band>, b: Band)
    requires b in s
    ensures Previous(s, Next(s, b)) == b
  {
    SomeBand(s, b);
    var d := GapUp(s, b, 1);
    var n := Above(b, d);
    forall e | 1 <= e < d
      ensures Below(n, e) !in s
    {
      assert Below(n, e) == Above(b, d - e);
    }
    assert Below(n, d) == b;
    PreviousIs(s, n, d);
  }

  /** And a step up undoes a step down. */
  lemma DownUp(s: set<Band>, b: Band)
    requires b in s
    ensures Next(s, Previous(s, b)) == b
  {
    SomeBand(s, b);
    var d := GapDown(s, b, 1);
    var n := Below(b, d);
    forall e | 1 <= e < d
      ensures Above(n, e) !in s
    {
      assert Above(n, e) == Below(b, d - e);
    }
    assert Above(n, d) == b;
    NextIs(s, n, d);
  }

  // ----- A whole cycle -----

  /** The band after k steps up. */
  ghost function Steps(s: set<Band>, b: Band, k: nat): Band
    requires s != {}
  {
    if k == 0 then b else Next(s, Steps(s, b, k - 1))
  }

  /** The bands of the first k steps, the start included. */
  ghost function Visited(s: set<Band>, b: Band, k: nat): set<Band>
    requires s != {}
  {
    if k == 0 then {} else Visited(s, b, k - 1) + {Steps(s, b, k - 1)}
  }

  function Offset(b: Band, n: Band): (o: nat)
    ensures o < COUNT && Above(b, o) == n
  {
    if n >= b then n - b else n + COUNT - b
  }

  /** The bands of s less than d places above b, b included. */
  ghost function Within(s: set<Band>, b: Band, d: nat): set<Band> {
    set n | n in s && Offset(b, n) < d
  }

  /** From one band of s to the next no band is passed, and the start is not passed either. */
  lemma Gain(s: set<Band>, b: Band, c: nat) returns (g: nat)
    requires b in s && c < COUNT && Above(b, c) in s
    ensures 1 <= g <= COUNT - c && Next(s, Above(b, c)) == Above(b, c + g)
    ensures Within(s, b, c + g) == Within(s, b, c) + {Above(b, c)}
  {
    var at := Above(b, c);
    SomeBand(s, at);
    g := GapUp(s, at, 1);
    assert Above(at, COUNT - c) == b;
    forall n | n in s && c < Offset(b, n)
      ensures c + g <= Offset(b, n)
    {
      assert Above(at, Offset(b, n) - c) == n;
    }
    assert forall n :: n in s && Offset(b, n) == c ==> n == at;
  }

  /** After k steps the VFO is d places above the start, having met each band of s on the way exactly once. */
  lemma {:induction false} Walk(s: set<Band>, b: Band, k: nat) returns (d: nat)
    requires b in s && k <= |s|
    ensures d <= COUNT && Steps(s, b, k) == Above(b, d) && Steps(s, b, k) in s
    ensures Visited(s, b, k) == Within(s, b, d) && |Visited(s, b, k)| == k
  {
    if k == 0 {
      d := 0;
    } else {
      var c := Walk(s, b, k - 1);
      assert c == COUNT ==> Within(s, b, c) == s;
      var g := Gain(s, b, c);
      d := c + g;
      assert Above(b, c) !in Within(s, b, c);
    }
  }

  /** Repeated steps up visit every band of s, and then are back at the start. */
  lemma WholeCycle(s: set<Band>, b: Band)
    requires b in s
    ensures Visited(s, b, |s|) == s && Steps(s, b, |s|) == b
  {
    assert forall e: nat :: e < COUNT ==> Offset(b, Above(b, e)) == e;
    var d := Walk(s, b, |s|);
    AllOf(s, Visited(s, b, |s|));
    assert Above(b, d) in s;
  }

  lemma CountVisited(s: set<Band>, b: Band, k: nat)
    requires b in s && k <= |s|
    ensures |Visited(s, b, k)| == k
  {
    var _ := Walk(s, b, k);
  }

  /** Within one cycle no band comes twice. */
  lemma OncePerCycle(s: set<Band>, b: Band, j: nat, k: nat)
    requires b in s && j < k < |s|
    ensures Steps(s, b, j) != Steps(s, b, k)
  {
    CountVisited(s, b, k);
    CountVisited(s, b, k + 1);
    VisitedBefore(s, b, j, k);
    var before, last := Visited(s, b, k), Steps(s, b, k);
    assert |before + {last}| == k + 1;
    assert last !in before;
  }

  lemma AllOf(s: set<Band>, v: set<Band>)
    requires v <= s && |v| == |s|
    ensures v == s
  {
    if v != s {
      var x :| x in s && x !in v;
      assert v <= s - {x};
      Subset(v, s - {x});
    }
  }

  lemma {:induction false} Subset(v: set<Band>, s: set<Band>)
    requires v <= s
    ensures |v| <= |s|
  {
    if v != {} {
      var x :| x in v;
      Subset(v - {x}, s - {x});
    }
  }

  lemma {:induction false} VisitedBefore(s: set<Band>, b: Band, j: nat, k: nat)
    requires s != {} && j < k
    ensures Steps(s, b, j) in Visited(s, b, k)
  {
    if j < k - 1 {
      VisitedBefore(s, b, j, k - 1);
    }
  }

  // ----- The loops -----

  /** Which bands have a title, and which of them the radio accepts. */
  datatype Table = Table(titled: set<Band>, accepted: set<Band>)

  /** Where a search that starts at band b can end: at a band with a title that the radio accepts, or is on already,
      for the test is only whether the VFO is on the band now. */
  function Ends(t: Table, b: Band): set<Band> {
    t.titled * (t.accepted + {b})
  }

  /** A band that the radio accepts and that has a title. */
  function Selectable(t: Table): set<Band> {
    t.titled * t.accepted
  }

  lemma EndsIs(t: Table, b: Band)
    ensures Ends(t, b) == Selectable(t) + if b in t.titled then {b} else {}
    ensures b in Selectable(t) ==> Ends(t, b) == Selectable(t)
  {
  }

  /** The variables of the loops: the band the VFO is on, `b` and `found`. */
  datatype Search = Search(vfo: Band, b: Band, found: bool)

  /** d places up or down. */
  function Away(up: bool, b: Band, d: nat): Band
    requires d <= COUNT
  {
    if up then Above(b, d) else Below(b, d)
  }

  /** One round of the loop; none if the search is over. */
  function Round(t: Table, up: bool, s: Search): Search {
    if s.found then s
    else
      var b := Away(up, s.b, 1);
      if b !in t.titled then s.(b := b)
      else
        var vfo := if b in t.accepted then b else s.vfo;
        Search(vfo, b, vfo == b)
  }

  function Rounds(t: Table, up: bool, b: Band, k: nat): Search {
    if k == 0 then Search(b, b, false) else Round(t, up, Rounds(t, up, b, k - 1))
  }

  lemma {:induction false} NotYet(t: Table, up: bool, b: Band, k: nat)
    requires k <= COUNT && forall e :: 1 <= e <= k ==> Away(up, b, e) !in Ends(t, b)
    ensures Rounds(t, up, b, k) == Search(b, Away(up, b, k), false)
  {
    if k > 0 {
      NotYet(t, up, b, k - 1);
      assert Away(up, Away(up, b, k - 1), 1) == Away(up, b, k);
    }
  }

  lemma {:induction false} FoundAt(t: Table, up: bool, b: Band, d: nat, k: nat)
    requires 1 <= d <= COUNT && Away(up, b, d) in Ends(t, b) && d <= k
    requires forall e :: 1 <= e < d ==> Away(up, b, e) !in Ends(t, b)
    ensures Rounds(t, up, b, k) == Search(Away(up, b, d), Away(up, b, d), true)
  {
    if k == d {
      NotYet(t, up, b, d - 1);
      assert Away(up, Away(up, b, d - 1), 1) == Away(up, b, d);
    } else {
      FoundAt(t, up, b, d, k - 1);
    }
  }

  /** With nothing to select and no title on the present band the loop goes on for ever. */
  lemma {:induction false} NeverFound(t: Table, up: bool, b: Band, k: nat)
    requires Selectable(t) == {} && b !in t.titled
    ensures !Rounds(t, up, b, k).found && Rounds(t, up, b, k).vfo == b
  {
    if k > 0 {
      NeverFound(t, up, b, k - 1);
      var at := Away(up, Rounds(t, up, b, k - 1).b, 1);
      assert at in t.titled ==> at !in t.accepted by {
        assert at !in Selectable(t);
      }
    }
  }

  /** The first band where the search can end. */
  ghost function Target(t: Table, up: bool, b: Band): Band
    requires Ends(t, b) != {}
  {
    if up then Next(Ends(t, b), b) else Previous(Ends(t, b), b)
  }

  /** How far away it is. */
  lemma TargetAway(t: Table, up: bool, b: Band) returns (d: nat)
    requires Ends(t, b) != {}
    ensures 1 <= d <= COUNT && Target(t, up, b) == Away(up, b, d) && Away(up, b, d) in Ends(t, b)
    ensures forall e :: 1 <= e < d ==> Away(up, b, e) !in Ends(t, b)
  {
    SomeBand(Ends(t, b), b);
    d := if up then GapUp(Ends(t, b), b, 1) else GapDown(Ends(t, b), b, 1);
  }

  lemma EndsSomewhere(t: Table, b: Band)
    requires Selectable(t) != {} || b in t.titled
    ensures Ends(t, b) != {}
  {
    if b in t.titled {
      assert b in Ends(t, b);
    } else {
      var n :| n in Selectable(t);
      assert n in Ends(t, b);
    }
  }

  /** The loop comes to an end if and only if some band is selectable or the present one has a title. */
  lemma SearchEnds(t: Table, up: bool, b: Band)
    ensures (exists k :: Rounds(t, up, b, k).found) <==> Selectable(t) != {} || b in t.titled
    ensures (exists k :: Rounds(t, up, b, k).found) <==> Ends(t, b) != {}
  {
    EndsIs(t, b);
    if Selectable(t) != {} || b in t.titled {
      EndsSomewhere(t, b);
      var d := TargetAway(t, up, b);
      FoundAt(t, up, b, d, d);
      assert Rounds(t, up, b, d).found;
    } else if k :| Rounds(t, up, b, k).found {
      NeverFound(t, up, b, k);
    }
  }

  /** A search that is over, after however many rounds, has left the VFO on the first band where it can end. */
  lemma SearchLands(t: Table, up: bool, b: Band, k: nat)
    requires Ends(t, b) != {} && Rounds(t, up, b, k).found
    ensures Rounds(t, up, b, k).vfo == Target(t, up, b)
  {
    var d := TargetAway(t, up, b);
    if k < d {
      NotYet(t, up, b, k);
    } else {
      FoundAt(t, up, b, d, k);
    }
  }

  /** From a selectable band, band_plus and band_minus go to selectable bands and cancel out. */
  lemma StepsCancel(t: Table, b: Band)
    requires b in Selectable(t)
    ensures Ends(t, b) == Selectable(t)
    ensures var n := Next(Selectable(t), b); Ends(t, n) == Selectable(t) && Previous(Ends(t, n), n) == b
    ensures var n := Previous(Selectable(t), b); Ends(t, n) == Selectable(t) && Next(Ends(t, n), n) == b
  {
    SomeBand(Selectable(t), b);
    EndsIs(t, b);
    EndsIs(t, Next(Selectable(t), b));
    EndsIs(t, Previous(Selectable(t), b));
    UpDown(Selectable(t), b);
    DownUp(Selectable(t), b);
  }

  class Vfo {
    var band: Band

    constructor (band: Band)
      ensures this.band == band
    {
      this.band := band;
    }

    /** vfo_id_band_changed, as far as the loops below can tell. */
    method BandChanged(t: Table, b: Band)
      modifies this
      ensures band == if b in t.accepted then b else old(band)
    {
      if b in t.accepted {
        band := b;
      }
    }

    /** band_plus */
    method BandPlus(t: Table)
      requires Ends(t, band) != {}
      modifies this
      ensures exists k :: Rounds(t, true, old(band), k) == Search(band, band, true)
      ensures band == Next(Ends(t, old(band)), old(band))
    {
      var b: nat := band;
      var found := false;
      ghost var k := 0;
      ghost var d := TargetAway(t, true, band);
      while !found
        invariant b < COUNT && Rounds(t, true, old(band), k) == Search(band, b, found)
        invariant found ==> band == b
        invariant k <= d
        decreases d - k, !found
      {
        if k == d {
          FoundAt(t, true, old(band), d, k);
        }
        b, k := b + 1, k + 1;
        if b >= BANDS + XVTRS {
          b := 0;
        }
        if b in t.titled {
          BandChanged(t, b);
          if band == b {
            found := true;
          }
        }
      }
      SearchLands(t, true, old(band), k);
    }

    /** band_minus */
    method BandMinus(t: Table)
      requires Ends(t, band) != {}
      modifies this
      ensures exists k :: Rounds(t, false, old(band), k) == Search(band, band, true)
      ensures band == Previous(Ends(t, old(band)), old(band))
    {
      var b: nat := band;
      var found := false;
      ghost var k := 0;
      ghost var d := TargetAway(t, false, band);
      while !found
        invariant b < COUNT && Rounds(t, false, old(band), k) == Search(band, b, found)
        invariant found ==> band == b
        invariant k <= d
        decreases d - k, !found
      {
        if k == d {
          FoundAt(t, false, old(band), d, k);
        }
        k := k + 1;
        if b == 0 {
          b := BANDS + XVTRS - 1;
        } else {
          b := b - 1;
        }
        if b in t.titled {
          BandChanged(t, b);
          if band == b {
            found := true;
          }
        }
      }
      SearchLands(t, false, old(band), k);
    }
  }
}
