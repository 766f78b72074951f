/** How the DX cluster spots are drawn (src/dxcluster.c): spots within 30 pixels are put into one group, the groups
    drawn last are remembered in a click cache, and a mouse click is looked up there. */
module SpotGroups {
  import opened DxSpot

  const GROUP_WIDTH: int := 30
  const MAX_GROUP: nat := 16
  const DRAW_CACHE_MAX: nat := 128
  const HIT_RADIUS: int := 8

  /** A visible spot and the pixel column it belongs to. */
  datatype Seen = Seen(x: int, spot: Spot)

  datatype Group = Group(x: int, list: seq<Spot>, newestIdx: nat, newestTs: int)

  predicate Near(a: int, b: int, distance: int) {
    -distance <= a - b <= distance
  }

  function Anchors(groups: seq<Group>): (xs: seq<int>)
    ensures |xs| == |groups|
  {
    seq(|groups|, k requires 0 <= k < |groups| => groups[k].x)
  }

  /** The first group within 30 pixels, or the number of groups if there is none. */
  function Home(anchors: seq<int>, x: int): (g: nat)
    ensures g <= |anchors|
    ensures forall k :: 0 <= k < g ==> !Near(anchors[k], x, 30)
    ensures g < |anchors| ==> Near(anchors[g], x, 30)
  {
    if anchors == [] then 0
    else if Near(anchors[0], x, GROUP_WIDTH) then 0
    else
      var g := Home(anchors[1..], x);
      assert forall k :: 1 <= k < g + 1 ==> anchors[k] == anchors[1..][k - 1];
      1 + g
  }

  function Join(group: Group, spot: Spot): Group {
    if |group.list| >= MAX_GROUP then group
    else if spot.when > group.newestTs then Group(group.x, group.list + [spot], |group.list|, spot.when)
    else group.(list := group.list + [spot])
  }

  predicate InWindow(width: int, x: int) {
    0 <= x < width
  }

  /** One more spot for the picture. */
  function Place(width: int, groups: seq<Group>, s: Seen): seq<Group> {
    if !InWindow(width, s.x) then groups
    else
      var g := Home(Anchors(groups), s.x);
      if g < |groups| then groups[g := Join(groups[g], s.spot)]
      else groups + [Join(Group(s.x, [], 0, 0), s.spot)]
  }

  /** The groups after all spots have been placed, in the order of the query. */
  function Layout(width: int, seen: seq<Seen>): seq<Group> {
    if seen == [] then [] else Place(width, Layout(width, seen[..|seen| - 1]), seen[|seen| - 1])
  }

  // ----- Separation -----

  ghost predicate Apart(anchors: seq<int>) {
    forall i, j :: 0 <= i < j < |anchors| ==> !Near(anchors[i], anchors[j], GROUP_WIDTH)
  }

  lemma PlaceAnchors(width: int, groups: seq<Group>, s: Seen)
    ensures var xs, ys := Anchors(groups), Anchors(Place(width, groups, s));
            ys == if InWindow(width, s.x) && Home(xs, s.x) == |xs| then xs + [s.x] else xs
  {
    if InWindow(width, s.x) {
      var g := Home(Anchors(groups), s.x);
      if g < |groups| {
        assert Join(groups[g], s.spot).x == groups[g].x;
      }
    }
  }

  /** Groups are drawn more than 30 pixels apart, inside the window. */
  lemma {:induction false} Separation(width: int, seen: seq<Seen>)
    ensures Apart(Anchors(Layout(width, seen)))
    ensures forall x :: x in Anchors(Layout(width, seen)) ==> InWindow(width, x)
  {
    if seen != [] {
      var before := Layout(width, seen[..|seen| - 1]);
      Separation(width, seen[..|seen| - 1]);
      PlaceAnchors(width, before, seen[|seen| - 1]);
    }
  }

  /** Points more than 30 apart in [lo, hi) are at most (hi - lo + 30) / 31 many. */
  lemma {:induction false} ApartBound(xs: seq<int>, lo: int, hi: int)
    requires lo <= hi && Apart(xs) && forall x :: x in xs ==> lo <= x < hi
    ensures 31 * |xs| <= hi - lo + 30
    decreases |xs|
  {
    if xs != [] {
      var m := MaxIndex(xs);
      var rest := xs[..m] + xs[m + 1..];
      assert forall k :: 0 <= k < |rest| ==> rest[k] == xs[if k < m then k else k + 1];
      forall x | x in rest
        ensures lo <= x < xs[m] - 30
      {
        var k :| 0 <= k < |rest| && rest[k] == x;
        var k' := if k < m then k else k + 1;
        assert xs[k'] == x && x in xs;
        assert if k' < m then !Near(xs[k'], xs[m], GROUP_WIDTH) else !Near(xs[m], xs[k'], GROUP_WIDTH);
      }
      assert xs[m] in xs;
      if rest != [] {
        assert rest[0] in rest;
        ApartBound(rest, lo, xs[m] - 30);
      }
    }
  }

  lemma {:induction false} MaxIndex(xs: seq<int>) returns (m: nat)
    requires xs != []
    ensures m < |xs| && forall k :: 0 <= k < |xs| ==> xs[k] <= xs[m]
  {
    m := 0;
    if |xs| > 1 {
      var r := MaxIndex(xs[1..]);
      assert forall k :: 1 <= k < |xs| ==> xs[k] == xs[1..][k - 1];
      m := if xs[0] >= xs[r + 1] then 0 else r + 1;
    }
  }

  lemma GroupCount(width: nat, seen: seq<Seen>)
    ensures |Layout(width, seen)| <= (width + 30) / 31
  {
    Separation(width, seen);
    ApartBound(Anchors(Layout(width, seen)), 0, width);
  }

  // ----- Every spot has exactly one group -----

  /** The spots inside the window whose first near anchor is number g, in order. */
  ghost function Homed(width: int, seen: seq<Seen>, anchors: seq<int>, g: nat): seq<Spot> {
    if seen == [] then []
    else
      var s := seen[|seen| - 1];
      Homed(width, seen[..|seen| - 1], anchors, g)
      + if InWindow(width, s.x) && Home(anchors, s.x) == g then [s.spot] else []
  }

  /** A home does not change when anchors are added behind. */
  lemma {:induction false} HomeStable(anchors: seq<int>, more: seq<int>, x: int)
    requires Home(anchors, x) < |anchors|
    ensures Home(anchors + more, x) == Home(anchors, x)
  {
    var all, g := anchors + more, Home(anchors, x);
    assert forall k :: 0 <= k <= g ==> all[k] == anchors[k];
    assert Near(all[g], x, GROUP_WIDTH);
  }

  /** Every spot in the window that has been placed is near some anchor. */
  ghost predicate AllHomed(width: int, seen: seq<Seen>, anchors: seq<int>) {
    forall i :: 0 <= i < |seen| && InWindow(width, seen[i].x) ==> Home(anchors, seen[i].x) < |anchors|
  }

  lemma {:induction false} HomedStable(width: int, seen: seq<Seen>, anchors: seq<int>, more: seq<int>, g: nat)
    requires AllHomed(width, seen, anchors)
    ensures Homed(width, seen, anchors + more, g)
         == if g < |anchors| then Homed(width, seen, anchors, g) else []
  {
    if seen != [] {
      var s := seen[|seen| - 1];
      assert forall i :: 0 <= i < |seen| - 1 ==> seen[..|seen| - 1][i] == seen[i];
      HomedStable(width, seen[..|seen| - 1], anchors, more, g);
      if InWindow(width, s.x) {
        HomeStable(anchors, more, s.x);
      }
    }
  }

  ghost predicate ListsAreHomed(width: int, seen: seq<Seen>, groups: seq<Group>) {
    forall g :: 0 <= g < |groups| ==> groups[g].list == First(16, Homed(width, seen, Anchors(groups), g))
  }

  /** The anchors that placing a spot adds. */
  function Added(width: int, xs: seq<int>, s: Seen): seq<int> {
    if InWindow(width, s.x) && Home(xs, s.x) == |xs| then [s.x] else []
  }

  /** The spot's own home does not change by placing it: it is the old group, or the new one behind the others. */
  lemma OwnHome(width: int, xs: seq<int>, s: Seen)
    requires InWindow(width, s.x)
    ensures var ys := xs + Added(width, xs, s); Home(ys, s.x) == Home(xs, s.x) < |ys|
  {
    var ys, g := xs + Added(width, xs, s), Home(xs, s.x);
    assert forall k :: 0 <= k < |xs| ==> ys[k] == xs[k];
    if g == |xs| {
      assert ys[g] == s.x;
    }
    assert Near(ys[g], s.x, GROUP_WIDTH);
  }

  lemma PlaceAllHomed(width: int, before: seq<Seen>, s: Seen, xs: seq<int>)
    requires AllHomed(width, before, xs)
    ensures AllHomed(width, before + [s], xs + Added(width, xs, s))
  {
    var seen, more := before + [s], Added(width, xs, s);
    forall i | 0 <= i < |seen| && InWindow(width, seen[i].x)
      ensures Home(xs + more, seen[i].x) < |xs + more|
    {
      if i < |before| {
        assert seen[i] == before[i];
        HomeStable(xs, more, before[i].x);
      } else {
        OwnHome(width, xs, s);
      }
    }
  }

  /** The spots whose home is group g: those from before, and this one if it goes there. */
  lemma HomedLast(width: int, before: seq<Seen>, s: Seen, xs: seq<int>, g: nat)
    requires AllHomed(width, before, xs)
    ensures Homed(width, before + [s], xs + Added(width, xs, s), g)
         == (if g < |xs| then Homed(width, before, xs, g) else [])
            + if InWindow(width, s.x) && g == Home(xs, s.x) then [s.spot] else []
  {
    var seen := before + [s];
    assert seen[..|seen| - 1] == before;
    HomedStable(width, before, xs, Added(width, xs, s), g);
    if InWindow(width, s.x) {
      OwnHome(width, xs, s);
    }
  }

  /** What placing does to the list of group g. */
  lemma PlaceList(width: int, groups: seq<Group>, s: Seen, g: nat)
    requires g < |Place(width, groups, s)|
    ensures var list := if g < |groups| then groups[g].list else [];
            Place(width, groups, s)[g].list
            == if InWindow(width, s.x) && g == Home(Anchors(groups), s.x) && |list| < MAX_GROUP then list + [s.spot]
               else list
  {
  }

  lemma FirstAppend(n: nat, list: seq<Spot>, spot: Spot)
    ensures First(n, list + [spot]) == if |First(n, list)| < n then First(n, list) + [spot] else First(n, list)
  {
  }

  lemma PlaceListHomed(width: int, before: seq<Seen>, s: Seen, groups: seq<Group>, g: nat)
    requires AllHomed(width, before, Anchors(groups)) && ListsAreHomed(width, before, groups)
    requires g < |Place(width, groups, s)|
    ensures Place(width, groups, s)[g].list
         == First(MAX_GROUP, Homed(width, before + [s], Anchors(groups) + Added(width, Anchors(groups), s), g))
  {
    var xs := Anchors(groups);
    PlaceList(width, groups, s, g);
    HomedLast(width, before, s, xs, g);
    var list := if g < |xs| then Homed(width, before, xs, g) else [];
    FirstAppend(MAX_GROUP, list, s.spot);
    assert list + [] == list;
  }

  lemma PlaceHomed(width: int, before: seq<Seen>, s: Seen, groups: seq<Group>)
    requires AllHomed(width, before, Anchors(groups)) && ListsAreHomed(width, before, groups)
    ensures var t := Place(width, groups, s);
            AllHomed(width, before + [s], Anchors(t)) && ListsAreHomed(width, before + [s], t)
  {
    var t, xs := Place(width, groups, s), Anchors(groups);
    PlaceAnchors(width, groups, s);
    assert Anchors(t) == xs + Added(width, xs, s);
    PlaceAllHomed(width, before, s, xs);
    forall g | 0 <= g < |t|
      ensures t[g].list == First(MAX_GROUP, Homed(width, before + [s], Anchors(t), g))
    {
      PlaceListHomed(width, before, s, groups, g);
    }
  }

  /** Conservation: each group holds the first 16 of the spots whose home it is, and every spot in the window has a
      home. So a spot is in exactly one group, within 30 pixels of its anchor, or was refused because that group
      already held 16; and spots outside the window are in none. */
  lemma {:induction false} Conservation(width: int, seen: seq<Seen>)
    ensures AllHomed(width, seen, Anchors(Layout(width, seen)))
    ensures ListsAreHomed(width, seen, Layout(width, seen))
  {
    if seen != [] {
      var before := seen[..|seen| - 1];
      Conservation(width, before);
      PlaceHomed(width, before, seen[|seen| - 1], Layout(width, before));
      assert before + [seen[|seen| - 1]] == seen;
    }
  }

  lemma {:induction false} HomedHas(width: int, seen: seq<Seen>, anchors: seq<int>, i: nat)
    requires i < |seen| && InWindow(width, seen[i].x)
    ensures seen[i].spot in Homed(width, seen, anchors, Home(anchors, seen[i].x))
  {
    if i < |seen| - 1 {
      HomedHas(width, seen[..|seen| - 1], anchors, i);
    }
  }

  /** So every spot in the window is in a group within 30 pixels, or was refused by one that holds 16. */
  lemma EverySpotCounts(width: int, seen: seq<Seen>, i: nat)
    requires i < |seen| && 0 <= seen[i].x < width
    ensures exists g :: 0 <= g < |Layout(width, seen)|
              && Layout(width, seen)[g].x - 30 <= seen[i].x <= Layout(width, seen)[g].x + 30
              && (seen[i].spot in Layout(width, seen)[g].list || |Layout(width, seen)[g].list| == 16)
  {
    Conservation(width, seen);
    var lay := Layout(width, seen);
    var g := Home(Anchors(lay), seen[i].x);
    HomedHas(width, seen, Anchors(lay), i);
    assert lay[g].list == First(16, Homed(width, seen, Anchors(lay), g));
  }

  // ----- The newest spot of a group -----

  ghost predicate NewestKept(group: Group) {
    && group.newestIdx < |group.list| <= MAX_GROUP && group.newestTs >= 0
    && (forall k :: 0 <= k < |group.list| ==> group.list[k].when <= group.newestTs)
    && (if group.newestTs > 0 then group.list[group.newestIdx].when == group.newestTs else group.newestIdx == 0)
  }

  lemma {:induction false} AllNewestKept(width: int, seen: seq<Seen>)
    ensures forall g :: 0 <= g < |Layout(width, seen)| ==> NewestKept(Layout(width, seen)[g])
  {
    if seen != [] {
      AllNewestKept(width, seen[..|seen| - 1]);
    }
  }

  /** The label and the age are taken from list[newestIdx]. It is a spot of maximal time exactly when some spot of the
      group has a positive time, or none is later than the first. */
  lemma NewestIsMaximal(width: int, seen: seq<Seen>, g: nat)
    requires g < |Layout(width, seen)|
    ensures var group := Layout(width, seen)[g];
            group.newestIdx < |group.list| <= 16
            && ((forall k :: 0 <= k < |group.list| ==> group.list[k].when <= group.list[group.newestIdx].when)
                <==> (exists k :: 0 <= k < |group.list| && group.list[k].when > 0)
                     || forall k :: 0 <= k < |group.list| ==> group.list[k].when <= group.list[0].when)
  {
    AllNewestKept(width, seen);
    var group := Layout(width, seen)[g];
    if group.newestTs > 0 {
      assert group.list[group.newestIdx].when > 0;
    }
  }

  // ----- The loops of dxcluster_draw_spots -----

  /** The search for an existing group. */
  method FindHome(table: array<Group>, n: nat, x: int) returns (g: nat)
    requires n <= table.Length
    ensures g == Home(Anchors(table[..n]), x)
  {
    ghost var xs := Anchors(table[..n]);
    g := 0;
    while g < n && !Near(table[g].x, x, GROUP_WIDTH)
      invariant 0 <= g <= n
      invariant forall k :: 0 <= k < g ==> !Near(xs[k], x, GROUP_WIDTH)
    {
      g := g + 1;
    }
    if g < n {
      assert Near(xs[g], x, GROUP_WIDTH);
    }
  }

  /** One round of the loop: the spot joins the group it is near, or begins a new one. */
  method PlaceSpot(table: array<Group>, n: nat, width: int, s: Seen) returns (after: nat)
    requires n < table.Length
    modifies table
    ensures n <= after <= n + 1 && table[..after] == Place(width, old(table[..n]), s)
  {
    after := n;
    if 0 <= s.x < width {
      var g := FindHome(table, n, s.x);
      if g == n {
        after := n + 1;
        table[g] := Group(s.x, [], 0, 0);
      }
      table[g] := Join(table[g], s.spot);
    }
  }

  /** Group the visible spots, in a table with room for one group more than there are spots. */
  method DrawGroups(width: int, seen: seq<Seen>) returns (lay: seq<Group>)
    ensures lay == Layout(width, seen)
  {
    var table := new Group[|seen| + 1](_ => Group(0, [], 0, 0));
    var n := 0;
    for i := 0 to |seen|
      invariant 0 <= n <= i
      invariant table[..n] == Layout(width, seen[..i])
    {
      assert seen[..i + 1][..i] == seen[..i];
      n := PlaceSpot(table, n, width, seen[i]);
    }
    assert seen[..|seen|] == seen;
    lay := table[..n];
  }

  // ----- The click cache -----

  datatype Entry = Entry(x: int, spots: seq<Spot>)
  datatype Click = Miss | Hit(spots: seq<Spot>)

  const CAP: nat := DRAW_CACHE_MAX / 2

  function Entries(groups: seq<Group>): seq<Entry> {
    var n := if |groups| <= CAP then |groups| else CAP;
    seq(n, k requires 0 <= k < n => Entry(groups[k].x, groups[k].list))
  }

  predicate Struck(e: Entry, x: int, y: int) {
    Near(e.x, x, HIT_RADIUS) && 18 <= y <= 40
  }

  /** At most one drawn group is within reach of a click. */
  lemma ClickIsUnique(width: int, seen: seq<Seen>, x: int, y: int, i: nat, j: nat)
    requires i < |Entries(Layout(width, seen))| && j < |Entries(Layout(width, seen))|
    requires Struck(Entries(Layout(width, seen))[i], x, y) && Struck(Entries(Layout(width, seen))[j], x, y)
    ensures i == j
  {
    Separation(width, seen);
    var xs := Anchors(Layout(width, seen));
    assert Near(xs[i], xs[j], GROUP_WIDTH) && Near(xs[j], xs[i], GROUP_WIDTH);
  }

  /** In a window of at most 1984 pixels the cache remembers every group. */
  lemma CacheDropsNone(width: nat, seen: seq<Seen>)
    requires width <= 1984
    ensures |Entries(Layout(width, seen))| == |Layout(width, seen)|
  {
    GroupCount(width, seen);
  }

  /** Spots that are all more than 30 pixels apart get a group each. */
  lemma {:induction false} LonelySpots(width: int, seen: seq<Seen>)
    requires forall i :: 0 <= i < |seen| ==> InWindow(width, seen[i].x)
    requires forall i, j :: 0 <= i < j < |seen| ==> !Near(seen[i].x, seen[j].x, GROUP_WIDTH)
    ensures Anchors(Layout(width, seen)) == seq(|seen|, i requires 0 <= i < |seen| => seen[i].x)
  {
    if seen != [] {
      LonelySpots(width, seen[..|seen| - 1]);
      PlaceAnchors(width, Layout(width, seen[..|seen| - 1]), seen[|seen| - 1]);
    }
  }

  /** The bound is sharp: in any wider window some picture has a 65th group, which the cache forgets. */
  lemma WiderWindowCanDrop(width: nat, spot: Spot)
    requires width > 1984
    ensures var seen := seq(65, i => Seen(31 * i, spot));
            |Layout(width, seen)| == 65 && |Entries(Layout(width, seen))| == 64
  {
    var seen := seq(65, i => Seen(31 * i, spot));
    LonelySpots(width, seen);
    assert |Anchors(Layout(width, seen))| == 65;
  }

  /** The spots of the first entry within reach. */
  function Lookup(entries: seq<Entry>, x: int, y: int): (c: Click)
    ensures c.Miss? <==> forall k :: 0 <= k < |entries| ==> !Struck(entries[k], x, y)
  {
    if entries == [] then Miss
    else if Struck(entries[0], x, y) then Hit(entries[0].spots)
    else
      assert forall k :: 1 <= k < |entries| ==> entries[k] == entries[1..][k - 1];
      Lookup(entries[1..], x, y)
  }

  lemma {:induction false} LookupOnly(entries: seq<Entry>, x: int, y: int, g: nat)
    requires g < |entries| && Struck(entries[g], x, y)
    requires forall k :: 0 <= k < |entries| && Struck(entries[k], x, y) ==> k == g
    ensures Lookup(entries, x, y) == Hit(entries[g].spots)
  {
    if g > 0 {
      assert !Struck(entries[0], x, y);
      assert forall k :: 1 <= k < |entries| ==> entries[k] == entries[1..][k - 1];
      LookupOnly(entries[1..], x, y, g - 1);
    }
  }

  /** In a window of at most 1984 pixels, a click within reach of a drawn group gives the spots of this very group. */
  lemma ClickFindsGroup(width: nat, seen: seq<Seen>, x: int, y: int, g: nat)
    requires width <= 1984 && g < |Layout(width, seen)|
    requires Layout(width, seen)[g].x - 8 <= x <= Layout(width, seen)[g].x + 8 && 18 <= y <= 40
    ensures Lookup(Entries(Layout(width, seen)), x, y) == Hit(Layout(width, seen)[g].list)
  {
    CacheDropsNone(width, seen);
    var entries := Entries(Layout(width, seen));
    forall k | 0 <= k < |entries| && Struck(entries[k], x, y)
      ensures k == g
    {
      ClickIsUnique(width, seen, x, y, k, g);
    }
    LookupOnly(entries, x, y, g);
  }

  /** And any other click is a miss: one that is above or below the labels, or more than 8 pixels from every group. */
  lemma ClickMisses(width: nat, seen: seq<Seen>, x: int, y: int)
    requires width <= 1984
    ensures Lookup(Entries(Layout(width, seen)), x, y) == Miss
            <==> y < 18 || y > 40
                 || forall g :: 0 <= g < |Layout(width, seen)| ==>
                      Layout(width, seen)[g].x - x > 8 || x - Layout(width, seen)[g].x > 8
  {
    CacheDropsNone(width, seen);
    var entries, lay := Entries(Layout(width, seen)), Layout(width, seen);
    assert forall g :: 0 <= g < |lay| ==> entries[g].x == lay[g].x;
  }

  /** draw_cache and draw_cache_n: one half of the table for each of the two receivers. */
  class ClickCache {
    const drawCache: array<Entry>
    const drawCacheN: array<nat>

    ghost predicate Valid()
      reads this, drawCacheN
    {
      && drawCache.Length == DRAW_CACHE_MAX && drawCacheN.Length == 2
      && drawCacheN[0] <= CAP && drawCacheN[1] <= CAP
    }

    static function Base(rx: nat): nat {
      if rx == 0 then 0 else CAP
    }

    ghost function Cached(rx: nat): seq<Entry>
      requires Valid() && rx < 2
      reads this, drawCache, drawCacheN
    {
      drawCache[Base(rx)..Base(rx) + drawCacheN[rx]]
    }

    constructor ()
      ensures Valid() && Cached(0) == [] && Cached(1) == [] && fresh(drawCache) && fresh(drawCacheN)
    {
      drawCache := new Entry[DRAW_CACHE_MAX](_ => Entry(0, []));
      drawCacheN := new nat[2](_ => 0);
    }

    /** Copy the groups, as far as there is room for them, to the table from entry `base` on. */
    method Fill(base: nat, lay: seq<Group>) returns (kept: nat)
      requires base + CAP <= drawCache.Length
      modifies drawCache
      ensures kept == |Entries(lay)| && drawCache[base..base + kept] == Entries(lay)
      ensures drawCache[..base] == old(drawCache[..base])
      ensures drawCache[base + CAP..] == old(drawCache[base + CAP..])
    {
      kept := 0;
      while kept < |lay| && kept < CAP
        invariant 0 <= kept <= CAP && kept <= |lay|
        invariant forall k :: 0 <= k < drawCache.Length && !(base <= k < base + CAP) ==>
                    drawCache[k] == old(drawCache[k])
        invariant drawCache[base..base + kept] == Entries(lay)[..kept]
      {
        drawCache[base + kept] := Entry(lay[kept].x, lay[kept].list);
        kept := kept + 1;
      }
    }

    /** The half of receiver rx is filled; the entries of the other one stay. */
    method FillHalf(rx: nat, lay: seq<Group>) returns (kept: nat)
      requires Valid() && rx < 2
      modifies drawCache
      ensures Valid() && kept == |Entries(lay)| && drawCache[Base(rx)..Base(rx) + kept] == Entries(lay)
      ensures drawCacheN[..] == old(drawCacheN[..]) && Cached(1 - rx) == old(Cached(1 - rx))
    {
      ghost var n := drawCacheN[1 - rx];
      kept := Fill(Base(rx), lay);
      if rx == 0 {
        assert drawCache[CAP..CAP + n] == drawCache[CAP..][..n];
      } else {
        assert drawCache[0..n] == drawCache[..CAP][..n];
      }
    }

    /** Only the number of entries changes, and only for receiver rx. */
    method SetKept(rx: nat, kept: nat)
      requires Valid() && rx < 2 && kept <= CAP
      modifies drawCacheN
      ensures Valid() && Cached(rx) == drawCache[Base(rx)..Base(rx) + kept] && Cached(1 - rx) == old(Cached(1 - rx))
    {
      ghost var table := drawCache[..];
      drawCacheN[rx] := kept;
      assert drawCache[..] == table;
    }

    method Update(rx: nat, lay: seq<Group>)
      requires Valid() && rx < 2
      modifies drawCache, drawCacheN
      ensures Valid() && Cached(rx) == Entries(lay) && Cached(1 - rx) == old(Cached(1 - rx))
    {
      var kept := FillHalf(rx, lay);
      SetKept(rx, kept);
    }

    /** The cache side of dxcluster_draw_spots. If no spot is visible, the entries of the picture before stay. */
    method DrawSpots(rx: int, width: int, seen: seq<Seen>)
      requires Valid()
      modifies drawCache, drawCacheN
      ensures Valid()
      ensures Cached(0) == if rx == 0 && seen != [] then Entries(Layout(width, seen)) else old(Cached(0))
      ensures Cached(1) == if rx == 1 && seen != [] then Entries(Layout(width, seen)) else old(Cached(1))
    {
      if seen == [] {
        return;
      }
      var lay := DrawGroups(width, seen);
      if rx == 0 || rx == 1 {
        Update(rx, lay);
      }
    }

    /** dxcluster_hit_test */
    method HitTest(rx: int, x: int, y: int) returns (c: Click)
      requires Valid()
      ensures c == if 0 <= rx < 2 then Lookup(Cached(rx), x, y) else Miss
    {
      if rx < 0 || rx > 1 {
        return Miss;
      }
      ghost var entries := Cached(rx);
      var n := drawCacheN[rx];
      for i := 0 to n
        invariant Lookup(entries, x, y) == Lookup(entries[i..], x, y)
      {
        var e := drawCache[Base(rx) + i];
        assert e == entries[i] && entries[i..][0] == e && entries[i..][1..] == entries[i + 1..];
        if Struck(e, x, y) {
          return Hit(e.spots);
        }
      }
      return Miss;
    }
  }
}