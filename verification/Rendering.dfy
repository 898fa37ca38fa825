/**
 Rendering a graph of memory regions into a flat view (memory.c). The
 specification is `ResolveAt`, which follows one address down the graph; the
 code is `FlatView.Render`, which builds the list of ranges.
 */
module Rendering {
  import opened Arithmetic
  import opened FlatViews
  import opened Overflow
  import opened Simplification

  datatype MemoryRegion = MemoryRegion(
    addr: int, size: int, enabled: bool, terminates: bool, readonly: bool,
    romd: bool, logMask: bv8, alias: Option<MrId>, aliasOffset: int,
    subregions: seq<MrId>, parent: Option<MrId>, priority: int, mayOverlap: bool)

  /** The regions of the machine; the pointers of the source are keys. */
  type Graph = map<MrId, MemoryRegion>

  /** Subregions and alias targets rank strictly below, so the graph has no cycle. */
  predicate Ranked(g: Graph, rank: map<MrId, nat>) {
    && g.Keys <= rank.Keys
    && (forall m :: m in g ==> g[m].size >= 0)
    && (forall m :: m in g && g[m].alias.Some? ==>
          g[m].alias.value in g && rank[g[m].alias.value] < rank[m])
    && (forall m, i :: m in g && 0 <= i < |g[m].subregions| ==>
          g[m].subregions[i] in g && rank[g[m].subregions[i]] < rank[m])
  }

  /** The region, offset and attributes that address `a` reaches in region `m` placed at `start`. */
  ghost function ResolveAt(g: Graph, rank: map<MrId, nat>, m: MrId, start: int, readonly: bool, a: int)
    : Option<Target>
    requires Ranked(g, rank) && m in g
    decreases rank[m] + 1, 0
  {
    var r := g[m];
    if !r.enabled || !(start <= a < start + r.size) then None
    else if r.alias.Some? then
      ResolveAt(g, rank, r.alias.value, start - r.aliasOffset, readonly || r.readonly, a)
    else
      var sub := ResolveFirst(g, rank, rank[m], r.subregions, start, readonly || r.readonly, a);
      if sub.Some? then sub
      else if r.terminates then
        Some(Target(m, a - start, r.logMask, r.romd, readonly || r.readonly))
      else None
  }

  /** The first subregion in list order that maps the address wins. */
  ghost function ResolveFirst(g: Graph, rank: map<MrId, nat>, bound: nat, subs: seq<MrId>,
                              start: int, readonly: bool, a: int): Option<Target>
    requires Ranked(g, rank)
    requires forall i :: 0 <= i < |subs| ==> subs[i] in g && rank[subs[i]] < bound
    decreases bound, |subs| + 1
  {
    if subs == [] then None
    else
      var first := ResolveAt(g, rank, subs[0], start + g[subs[0]].addr, readonly, a);
      if first.Some? then first
      else ResolveFirst(g, rank, bound, subs[1..], start, readonly, a)
  }

  /** What a region that is not an alias shows at an address inside it. */
  ghost function ResolveOwn(g: Graph, rank: map<MrId, nat>, m: MrId, start: int, readonly: bool, a: int): Option<Target>
    requires Ranked(g, rank) && m in g
  {
    var r := g[m];
    var sub := ResolveFirst(g, rank, rank[m], r.subregions, start, readonly, a);
    if sub.Some? then sub
    else if r.terminates then Some(Target(m, a - start, r.logMask, r.romd, readonly))
    else None
  }

  lemma {:induction false} ResolveFirstAppend(g: Graph, rank: map<MrId, nat>, bound: nat, subs: seq<MrId>,
                                              s: MrId, start: int, readonly: bool, a: int)
    requires Ranked(g, rank) && s in g && rank[s] < bound
    requires forall i :: 0 <= i < |subs| ==> subs[i] in g && rank[subs[i]] < bound
    ensures ResolveFirst(g, rank, bound, subs + [s], start, readonly, a) ==
            var before := ResolveFirst(g, rank, bound, subs, start, readonly, a);
            if before.Some? then before else ResolveAt(g, rank, s, start + g[s].addr, readonly, a)
    decreases |subs|
  {
    if subs == [] {
      assert subs + [s] == [s];
    } else {
      assert (subs + [s])[1..] == subs[1..] + [s];
      ResolveFirstAppend(g, rank, bound, subs[1..], s, start, readonly, a);
    }
  }

  /** A region itself is visited if there is something to render: over all of the window, or not. */
  function SelfVisit(part: AddrRange, window: AddrRange): seq<bool> { if part.size > 0 then [part == window] else [] }

  /**
   The terminating regions that rendering reaches, in the order in which it renders them: for each, whether it
   is rendered over all of the window.
   */
  ghost function Visits(g: Graph, rank: map<MrId, nat>, m: MrId, start: int, clip: AddrRange, window: AddrRange)
    : seq<bool>
    requires Ranked(g, rank) && m in g && clip.size >= 0
    decreases rank[m] + 1, 0
  {
    var r := g[m];
    var tmp := AddrRange(start, r.size);
    if !r.enabled || !Intersects(tmp, clip) then []
    else
      var part := Intersection(tmp, clip);
      if r.alias.Some? then Visits(g, rank, r.alias.value, start - r.aliasOffset, part, window)
      else
        VisitsFirst(g, rank, rank[m], r.subregions, start, part, window) +
        if r.terminates then SelfVisit(part, window) else []
  }

  ghost function VisitsFirst(g: Graph, rank: map<MrId, nat>, bound: nat, subs: seq<MrId>,
                             start: int, part: AddrRange, window: AddrRange): seq<bool>
    requires Ranked(g, rank) && part.size >= 0
    requires forall i :: 0 <= i < |subs| ==> subs[i] in g && rank[subs[i]] < bound
    decreases bound, |subs| + 1
  {
    if subs == [] then []
    else
      Visits(g, rank, subs[0], start + g[subs[0]].addr, part, window) +
      VisitsFirst(g, rank, bound, subs[1..], start, part, window)
  }

  ghost function OwnVisits(g: Graph, rank: map<MrId, nat>, m: MrId, start: int, part: AddrRange, window: AddrRange)
    : seq<bool>
    requires Ranked(g, rank) && m in g && part.size >= 0
  {
    VisitsFirst(g, rank, rank[m], g[m].subregions, start, part, window) +
    if g[m].terminates then SelfVisit(part, window) else []
  }

  lemma {:induction false} VisitsAppend(g: Graph, rank: map<MrId, nat>, bound: nat, subs: seq<MrId>,
                                        s: MrId, start: int, part: AddrRange, window: AddrRange)
    requires Ranked(g, rank) && part.size >= 0 && s in g && rank[s] < bound
    requires forall i :: 0 <= i < |subs| ==> subs[i] in g && rank[subs[i]] < bound
    ensures VisitsFirst(g, rank, bound, subs + [s], start, part, window) ==
            VisitsFirst(g, rank, bound, subs, start, part, window) +
            Visits(g, rank, s, start + g[s].addr, part, window)
    decreases |subs|
  {
    if subs == [] {
      assert subs + [s] == [s] && [s][1..] == [];
      assert VisitsFirst(g, rank, bound, [], start, part, window) == [];
    } else {
      assert (subs + [s])[1..] == subs[1..] + [s];
      VisitsAppend(g, rank, bound, subs[1..], s, start, part, window);
    }
  }

  class FlatView {
    var ranges: seq<FlatRange>

    constructor ()
      ensures ranges == []
    {
      ranges := [];
    }

    /** Merges adjacent ranges; the result is the normal form of the view. */
    method Simplify()
      requires Sorted(ranges)
      modifies this
      ensures Sorted(ranges) && NoMergeable(ranges) && SameMeaning(old(ranges), ranges)
    {
      var i := 0;
      while i < |ranges|
        invariant 0 <= i <= |ranges| && Sorted(ranges) && SameMeaning(old(ranges), ranges)
        invariant NoMergeableBefore(ranges, i)
        decreases |ranges| - i
      {
        MergeRun(i);
        i := i + 1;
      }
    }

    /** Grows range `i` over all successors it can be merged with. */
    method MergeRun(i: nat)
      requires i < |ranges| && Sorted(ranges) && NoMergeableBefore(ranges, i)
      modifies this
      ensures i < |ranges| <= |old(ranges)| && Merged(old(ranges), ranges, i + 1)
    {
      var j: nat := i + 1;
      MergingStarts(ranges, i);
      while j < |ranges| && CanMerge(ranges[j - 1], ranges[j])
        invariant Merging(old(ranges), ranges, i, j) && |ranges| == |old(ranges)|
      {
        MergingGoesOn(old(ranges), ranges, i, j);
        ranges := ranges[i := Grown(ranges[i], ranges[j].addr.size)];
        j := j + 1;
      }
      MergingEnds(old(ranges), ranges, i, j);
      ranges := ranges[..i + 1] + ranges[j..];
    }

    method Insert(pos: nat, fr: FlatRange)
      requires pos <= |ranges|
      modifies this
      ensures ranges == InsertAt(old(ranges), pos, fr)
    {
      ranges := ranges[..pos] + [fr] + ranges[pos..];
    }

    /** Inserts the part [base, base + now) of region `m`, at `offset` inside it. */
    method FillGap(ghost v0: seq<FlatRange>, ghost clip: AddrRange, i: nat, base: int, now: int, offset: int,
                   m: MrId, r: MemoryRegion, readonly: bool)
      requires i <= |ranges| && Sorted(ranges) && now > 0 && Inside(AddrRange(base, now), clip)
      requires i > 0 ==> End(ranges[i - 1].addr) <= base
      requires i < |ranges| ==> base + now <= ranges[i].addr.start
      requires Filled(v0, ranges, clip.start, base, m, r, base - offset, readonly) && Grew(v0, ranges, clip)
      modifies this
      ensures |ranges| == |old(ranges)| + 1 && (i < |old(ranges)| ==> ranges[i + 1] == old(ranges)[i])
      ensures ranges[i].addr == AddrRange(base, now) && Sorted(ranges)
      ensures Filled(v0, ranges, clip.start, base + now, m, r, base - offset, readonly) && Grew(v0, ranges, clip)
    {
      var fr := FlatRange(m, offset, AddrRange(base, now), r.logMask, r.romd, readonly);
      FillStep(v0, ranges, i, fr, clip.start, base, now, m, r, base - offset, readonly);
      GrewInsert(v0, ranges, i, fr, clip);
      Insert(i, fr);
    }

    /**
     Moves past range `i`, which ends after `base`: first fills the gap before it, if there is
     one, then skips the part of it that hides the region. `long` says that one of the two
     lengths is 2^64.
     */
    method PassRange(ghost v0: seq<FlatRange>, ghost clip: AddrRange, i: nat, base: int, remain: int, offset: int,
                     m: MrId, r: MemoryRegion, readonly: bool)
      returns (j: nat, moved: int, long: bool)
      requires i < |ranges| && Sorted(ranges) && 0 < remain <= TWO_64 && base < End(ranges[i].addr)
      requires i > 0 ==> End(ranges[i - 1].addr) <= base
      requires Inside(AddrRange(base, remain), clip) && Grew(v0, ranges, clip)
      requires Filled(v0, ranges, clip.start, base, m, r, base - offset, readonly)
      modifies this
      ensures 0 < moved <= remain && i <= j < |ranges| && |ranges| - j == |old(ranges)| - i
      ensures Sorted(ranges) && (moved < remain ==> End(ranges[j].addr) <= base + moved)
      ensures Filled(v0, ranges, clip.start, base + moved, m, r, base - offset, readonly) && Grew(v0, ranges, clip)
      ensures long <==> remain == TWO_64 && CoversOrFollows(old(ranges[i].addr), AddrRange(base, remain))
      ensures base + remain <= old(ranges[i].addr.start) ==> moved == remain && Covered(ranges, AddrRange(base, remain))
    {
      var filled := 0;
      j := i;
      if base < ranges[i].addr.start {
        filled := Min(remain, ranges[i].addr.start - base);
        FillGap(v0, clip, i, base, filled, offset, m, r, readonly);
        if filled == remain { assert CoversFrom(ranges, AddrRange(base, remain), ranges[i]); }
        j := i + 1;
      }
      var skipped := Min(base + remain, End(ranges[j].addr)) - (base + filled);
      SkipStep(v0, ranges, j, clip.start, base + filled, skipped, m, r, base - offset, readonly);
      moved, long := filled + skipped, filled >= TWO_64 || skipped >= TWO_64;
    }

    /** One turn of the loop over the ranges: range `i` is passed, unless it ends before `base`. */
    method Turn(ghost v0: seq<FlatRange>, ghost clip: AddrRange, i: nat, base: int, remain: int, start: int,
                m: MrId, r: MemoryRegion, readonly: bool)
      returns (next: nat, moved: int, long: bool)
      requires i < |ranges| && Sorted(ranges) && 0 < remain && clip.size <= TWO_64
      requires i > 0 ==> End(ranges[i - 1].addr) <= base
      requires clip.start <= base && base + remain == End(clip) && Grew(v0, ranges, clip)
      requires Filled(v0, ranges, clip.start, base, m, r, start, readonly)
      requires base == clip.start ==> ranges == v0
      modifies this
      ensures 0 < next <= |ranges| && |ranges| - next < |old(ranges)| - i && 0 <= moved <= remain
      ensures Sorted(ranges) && (moved < remain ==> End(ranges[next - 1].addr) <= base + moved)
      ensures Filled(v0, ranges, clip.start, base + moved, m, r, start, readonly) && Grew(v0, ranges, clip)
      ensures moved == 0 ==> ranges == old(ranges) && !long
      ensures base != clip.start ==> !long
      ensures base == clip.start && moved != 0 ==> (long <==> clip.size == TWO_64 && Trips(Occ(v0, clip), true))
      ensures base == clip.start && moved != 0 && !Touched(v0, clip) ==> moved == remain && Covered(ranges, clip)
    {
      next, moved, long := i, 0, false;
      if base < End(ranges[i].addr) {
        if base == clip.start { OccAt(v0, i, clip); }
        next, moved, long := PassRange(v0, clip, i, base, remain, base - start, m, r, readonly);
      }
      next := next + 1;
    }

    /**
     Renders region `m`, placed at `start`, into the gaps the view leaves inside `clip`.
     `overflow` reports that one turn of the loop moved on by 2^64 bytes, too long for a
     64-bit length, on which the source aborts.
     */
    method RenderSelf(m: MrId, r: MemoryRegion, start: int, clip: AddrRange, readonly: bool)
      returns (overflow: bool)
      requires Sorted(ranges) && 0 <= clip.size <= TWO_64
      modifies this
      ensures Sorted(ranges) && Grew(old(ranges), ranges, clip)
      ensures Filled(old(ranges), ranges, clip.start, End(clip), m, r, start, readonly)
      ensures 0 < clip.size && !Touched(old(ranges), clip) ==> Covered(ranges, clip)
      ensures overflow <==> clip.size == TWO_64 && Trips(Occ(old(ranges), clip), true)
    {
      var base, remain := clip.start, clip.size;
      overflow := false;
      var i: nat := 0;
      ghost var v0, trips, touched := ranges, Trips(Occ(ranges, clip), true), Touched(ranges, clip);
      while i < |ranges| && remain != 0
        invariant i <= |ranges| && 0 <= remain && clip.start <= base && base + remain == End(clip)
        invariant Sorted(ranges) && Grew(v0, ranges, clip)
        invariant Filled(v0, ranges, clip.start, base, m, r, start, readonly)
        invariant remain != 0 && i > 0 ==> End(ranges[i - 1].addr) <= base
        invariant base == clip.start ==> ranges == v0 && !overflow
        invariant base != clip.start ==> (overflow <==> clip.size == TWO_64 && trips)
        invariant base != clip.start && !touched ==> remain == 0 && Covered(ranges, clip)
        decreases |ranges| - i
      {
        var next, moved, long := Turn(v0, clip, i, base, remain, start, m, r, readonly);
        overflow := overflow || long;
        i, base, remain := next, base + moved, remain - moved;
      }
      if remain != 0 {
        if base == clip.start { OccAt(v0, i, clip); }
        FillGap(v0, clip, i, base, remain, base - start, m, r, readonly);
        if base == clip.start { assert CoversFrom(ranges, clip, ranges[i]); }
      }
    }

    /** Renders `m` itself, as one step of the occupancy of the window. */
    method RenderVisit(m: MrId, r: MemoryRegion, start: int, clip: AddrRange, readonly: bool, ghost window: AddrRange)
      returns (overflow: bool)
      requires Sorted(ranges) && 0 <= clip.size && Inside(clip, window) && window.size == TWO_64
      modifies this
      ensures Sorted(ranges)
      ensures Filled(old(ranges), ranges, clip.start, End(clip), m, r, start, readonly)
      ensures Visited(old(ranges), ranges, window, SelfVisit(clip, window), overflow)
    {
      overflow := RenderSelf(m, r, start, clip, readonly);
      if clip.size == 0 {
        OccSame(old(ranges), ranges, clip, window);
      } else {
        FilledTouches(old(ranges), ranges, clip, m, r, start, readonly);
        OccStep(old(ranges), ranges, clip, window);
        VisitOne(Occ(old(ranges), window), clip == window);
      }
    }

    /**
     Renders region `m` of the graph below what the view already shows: the view stays sorted,
     addresses already mapped keep their mapping, and every other address of `clip` gets exactly
     what `ResolveAt` says. For any window of 2^64 bytes around the clip the occupancy of the window
     and the regions visited decide whether the source aborts.
     */
    method Render(g: Graph, ghost rank: map<MrId, nat>, m: MrId, base: int, clip: AddrRange, readonly: bool,
                  ghost window: AddrRange)
      returns (overflow: bool)
      requires Ranked(g, rank) && m in g
      requires Sorted(ranges) && 0 <= clip.size && Inside(clip, window) && window.size == TWO_64
      modifies this
      ensures Sorted(ranges)
      ensures ShowsRegion(old(ranges), ranges, clip, g, rank, m, base + g[m].addr, readonly)
      ensures Visited(old(ranges), ranges, window, Visits(g, rank, m, base + g[m].addr, clip, window), overflow)
      decreases rank[m], 3
    {
      overflow := false;
      var r := g[m];
      var start := base + r.addr;
      var ro := readonly || r.readonly;
      var tmp := AddrRange(start, r.size);
      if !r.enabled || !Intersects(tmp, clip) {
        RegionUnseen(ranges, clip, g, rank, m, start, readonly);
        return;
      }
      var part := Intersection(tmp, clip);
      if r.alias.Some? {
        var target := r.alias.value;
        overflow := Render(g, rank, target, start - g[target].addr - r.aliasOffset, part, ro, window);
        RegionIsAlias(old(ranges), ranges, clip, part, g, rank, m, start, readonly);
        return;
      }
      overflow := RenderOwn(g, rank, m, start, part, ro, window);
      RegionIsOwn(old(ranges), ranges, clip, part, g, rank, m, start, readonly);
    }

    /** Renders the subregions of `m` and, below them, `m` itself. */
    method RenderOwn(g: Graph, ghost rank: map<MrId, nat>, m: MrId, start: int, part: AddrRange, ro: bool,
                     ghost window: AddrRange)
      returns (overflow: bool)
      requires Ranked(g, rank) && m in g
      requires Sorted(ranges) && 0 <= part.size && Inside(part, window) && window.size == TWO_64
      modifies this
      ensures Sorted(ranges)
      ensures ShowsOwn(old(ranges), ranges, part, g, rank, m, start, ro)
      ensures Visited(old(ranges), ranges, window, OwnVisits(g, rank, m, start, part, window), overflow)
      decreases rank[m], 2
    {
      var r := g[m];
      overflow := RenderSubregions(g, rank, m, start, part, ro, window);
      ghost var v, subs := ranges, VisitsFirst(g, rank, rank[m], r.subregions, start, part, window);
      if !r.terminates {
        assert subs + [] == subs;
        OwnIsFirst(old(ranges), ranges, part, g, rank, m, start, ro);
        return;
      }
      var over := RenderVisit(m, r, start, part, ro, window);
      VisitedThen(old(ranges), v, ranges, window, subs, overflow, SelfVisit(part, window), over);
      overflow := overflow || over;
      OwnIsFirstThenSelf(old(ranges), v, ranges, part, g, rank, m, start, ro);
    }

    /** Renders the subregions in list order, which is priority order. */
    method RenderSubregions(g: Graph, ghost rank: map<MrId, nat>, m: MrId, start: int, part: AddrRange, ro: bool,
                            ghost window: AddrRange)
      returns (overflow: bool)
      requires Ranked(g, rank) && m in g
      requires Sorted(ranges) && 0 <= part.size && Inside(part, window) && window.size == TWO_64
      modifies this
      ensures Sorted(ranges)
      ensures ShowsFirst(old(ranges), ranges, part, g, rank, rank[m], g[m].subregions, start, ro)
      ensures Visited(old(ranges), ranges, window,
                      VisitsFirst(g, rank, rank[m], g[m].subregions, start, part, window), overflow)
      decreases rank[m], 1
    {
      overflow := false;
      var subs := g[m].subregions;
      FirstOfNone(ranges, part, g, rank, rank[m], start, ro);
      for i := 0 to |subs|
        invariant Sorted(ranges) && SubsDone(old(ranges), ranges, g, rank, m, i, start, part, ro, window, overflow)
      {
        overflow := RenderNext(old(ranges), g, rank, m, i, start, part, ro, window, overflow);
      }
      assert subs[..|subs|] == subs;
    }

    /** Renders subregion `i`, those before it being rendered already. */
    method RenderNext(ghost v0: seq<FlatRange>, g: Graph, ghost rank: map<MrId, nat>, m: MrId, i: nat, start: int,
                      part: AddrRange, ro: bool, ghost window: AddrRange, sofar: bool)
      returns (overflow: bool)
      requires Ranked(g, rank) && m in g && i < |g[m].subregions|
      requires Sorted(ranges) && 0 <= part.size && Inside(part, window) && window.size == TWO_64
      requires SubsDone(v0, ranges, g, rank, m, i, start, part, ro, window, sofar)
      modifies this
      ensures Sorted(ranges) && SubsDone(v0, ranges, g, rank, m, i + 1, start, part, ro, window, overflow)
      decreases rank[m], 0
    {
      ghost var subs, v := g[m].subregions, ranges;
      var s := g[m].subregions[i];
      overflow := Render(g, rank, s, start, part, ro, window);
      assert subs[..i + 1] == subs[..i] + [s];
      ghost var seen := VisitsFirst(g, rank, rank[m], subs[..i], start, part, window);
      VisitsAppend(g, rank, rank[m], subs[..i], s, start, part, window);
      VisitedThen(v0, v, ranges, window, seen, sofar, Visits(g, rank, s, start + g[s].addr, part, window), overflow);
      FirstThen(v0, v, ranges, part, g, rank, rank[m], subs[..i], s, start, ro);
      overflow := sofar || overflow;
    }
  }

  /** The first `n` subregions of `m` are rendered. */
  ghost predicate SubsDone(v0: seq<FlatRange>, w: seq<FlatRange>, g: Graph, rank: map<MrId, nat>, m: MrId, n: nat,
                           start: int, part: AddrRange, ro: bool, window: AddrRange, overflow: bool)
    requires Ranked(g, rank) && m in g && n <= |g[m].subregions| && 0 <= part.size
  {
    var subs := g[m].subregions[..n];
    && ShowsFirst(v0, w, part, g, rank, rank[m], subs, start, ro)
    && Visited(v0, w, window, VisitsFirst(g, rank, rank[m], subs, start, part, window), overflow)
  }

  /** The occupancy of the window went through the visits, and the source would have stopped at one of them. */
  ghost predicate Visited(v0: seq<FlatRange>, w: seq<FlatRange>, window: AddrRange, visits: seq<bool>, overflow: bool) {
    && Occ(w, window) == FillAll(Occ(v0, window), visits)
    && (overflow <==> TripsAny(Occ(v0, window), visits))
  }

  lemma VisitedThen(v0: seq<FlatRange>, v1: seq<FlatRange>, v2: seq<FlatRange>, window: AddrRange,
                    xs: seq<bool>, over1: bool, ys: seq<bool>, over2: bool)
    requires Visited(v0, v1, window, xs, over1) && Visited(v1, v2, window, ys, over2)
    ensures Visited(v0, v2, window, xs + ys, over1 || over2)
  {
    VisitConcat(Occ(v0, window), xs, ys);
  }

  /** At address `a` view `w` shows `below`, inside `clip` and under what `v0` shows. */
  predicate RenderedAt(v0: seq<FlatRange>, w: seq<FlatRange>, clip: AddrRange, a: int, below: Option<Target>) {
    Lookup(w, a) == Under(Lookup(v0, a), Contains(clip, a), below)
  }

  /** View `w` shows region `m`, placed at `start`, inside `clip` and under what `v0` shows. */
  ghost predicate ShowsRegion(v0: seq<FlatRange>, w: seq<FlatRange>, clip: AddrRange,
                              g: Graph, rank: map<MrId, nat>, m: MrId, start: int, readonly: bool)
    requires Ranked(g, rank) && m in g
  {
    forall a {:trigger RenderedAt(v0, w, clip, a, ResolveAt(g, rank, m, start, readonly, a))} ::
      RenderedAt(v0, w, clip, a, ResolveAt(g, rank, m, start, readonly, a))
  }

  /** The same for a region that is not an alias, whose own flags count already. */
  ghost predicate ShowsOwn(v0: seq<FlatRange>, w: seq<FlatRange>, clip: AddrRange,
                           g: Graph, rank: map<MrId, nat>, m: MrId, start: int, readonly: bool)
    requires Ranked(g, rank) && m in g
  {
    forall a {:trigger RenderedAt(v0, w, clip, a, ResolveOwn(g, rank, m, start, readonly, a))} ::
      RenderedAt(v0, w, clip, a, ResolveOwn(g, rank, m, start, readonly, a))
  }

  /** The same for a list of subregions. */
  ghost predicate ShowsFirst(v0: seq<FlatRange>, w: seq<FlatRange>, clip: AddrRange, g: Graph, rank: map<MrId, nat>,
                             bound: nat, subs: seq<MrId>, start: int, readonly: bool)
    requires Ranked(g, rank) && forall i :: 0 <= i < |subs| ==> subs[i] in g && rank[subs[i]] < bound
  {
    forall a {:trigger RenderedAt(v0, w, clip, a, ResolveFirst(g, rank, bound, subs, start, readonly, a))} ::
      RenderedAt(v0, w, clip, a, ResolveFirst(g, rank, bound, subs, start, readonly, a))
  }

  lemma RegionUnseen(v: seq<FlatRange>, clip: AddrRange, g: Graph, rank: map<MrId, nat>, m: MrId,
                     start: int, readonly: bool)
    requires Ranked(g, rank) && m in g && clip.size >= 0
    requires !g[m].enabled || !Intersects(AddrRange(start, g[m].size), clip)
    ensures ShowsRegion(v, v, clip, g, rank, m, start, readonly)
  {
  }

  lemma RegionIsAlias(v0: seq<FlatRange>, w: seq<FlatRange>, clip: AddrRange, part: AddrRange,
                      g: Graph, rank: map<MrId, nat>, m: MrId, start: int, readonly: bool)
    requires Ranked(g, rank) && m in g && g[m].enabled && g[m].alias.Some? && clip.size >= 0
    requires Intersects(AddrRange(start, g[m].size), clip) && part == Intersection(AddrRange(start, g[m].size), clip)
    requires ShowsRegion(v0, w, part, g, rank, g[m].alias.value, start - g[m].aliasOffset, readonly || g[m].readonly)
    ensures ShowsRegion(v0, w, clip, g, rank, m, start, readonly)
  {
    var r, ro := g[m], readonly || g[m].readonly;
    forall a {:trigger RenderedAt(v0, w, clip, a, ResolveAt(g, rank, m, start, readonly, a))}
      ensures RenderedAt(v0, w, clip, a, ResolveAt(g, rank, m, start, readonly, a))
    {
      assert RenderedAt(v0, w, part, a, ResolveAt(g, rank, r.alias.value, start - r.aliasOffset, ro, a));
    }
  }

  lemma RegionIsOwn(v0: seq<FlatRange>, w: seq<FlatRange>, clip: AddrRange, part: AddrRange,
                    g: Graph, rank: map<MrId, nat>, m: MrId, start: int, readonly: bool)
    requires Ranked(g, rank) && m in g && g[m].enabled && g[m].alias.None? && clip.size >= 0
    requires Intersects(AddrRange(start, g[m].size), clip) && part == Intersection(AddrRange(start, g[m].size), clip)
    requires ShowsOwn(v0, w, part, g, rank, m, start, readonly || g[m].readonly)
    ensures ShowsRegion(v0, w, clip, g, rank, m, start, readonly)
  {
    forall a {:trigger RenderedAt(v0, w, clip, a, ResolveAt(g, rank, m, start, readonly, a))}
      ensures RenderedAt(v0, w, clip, a, ResolveAt(g, rank, m, start, readonly, a))
    {
      assert RenderedAt(v0, w, part, a, ResolveOwn(g, rank, m, start, readonly || g[m].readonly, a));
    }
  }

  lemma OwnIsFirst(v0: seq<FlatRange>, w: seq<FlatRange>, part: AddrRange,
                   g: Graph, rank: map<MrId, nat>, m: MrId, start: int, ro: bool)
    requires Ranked(g, rank) && m in g && !g[m].terminates
    requires ShowsFirst(v0, w, part, g, rank, rank[m], g[m].subregions, start, ro)
    ensures ShowsOwn(v0, w, part, g, rank, m, start, ro)
  {
    forall a {:trigger RenderedAt(v0, w, part, a, ResolveOwn(g, rank, m, start, ro, a))}
      ensures RenderedAt(v0, w, part, a, ResolveOwn(g, rank, m, start, ro, a))
    {
      assert RenderedAt(v0, w, part, a, ResolveFirst(g, rank, rank[m], g[m].subregions, start, ro, a));
    }
  }

  lemma OwnIsFirstThenSelf(v0: seq<FlatRange>, v: seq<FlatRange>, w: seq<FlatRange>, part: AddrRange,
                           g: Graph, rank: map<MrId, nat>, m: MrId, start: int, ro: bool)
    requires Ranked(g, rank) && m in g && g[m].terminates
    requires ShowsFirst(v0, v, part, g, rank, rank[m], g[m].subregions, start, ro)
    requires Filled(v, w, part.start, End(part), m, g[m], start, ro)
    ensures ShowsOwn(v0, w, part, g, rank, m, start, ro)
  {
    forall a {:trigger RenderedAt(v0, w, part, a, ResolveOwn(g, rank, m, start, ro, a))}
      ensures RenderedAt(v0, w, part, a, ResolveOwn(g, rank, m, start, ro, a))
    {
      assert RenderedAt(v0, v, part, a, ResolveFirst(g, rank, rank[m], g[m].subregions, start, ro, a));
      assert FilledAt(v, w, part.start, End(part), m, g[m], start, ro, a);
    }
  }

  lemma FirstOfNone(v: seq<FlatRange>, part: AddrRange, g: Graph, rank: map<MrId, nat>, bound: nat,
                    start: int, ro: bool)
    requires Ranked(g, rank)
    ensures ShowsFirst(v, v, part, g, rank, bound, [], start, ro)
  {
  }

  lemma FirstThen(v0: seq<FlatRange>, v: seq<FlatRange>, w: seq<FlatRange>, part: AddrRange, g: Graph,
                  rank: map<MrId, nat>, bound: nat, subs: seq<MrId>, s: MrId, start: int, ro: bool)
    requires Ranked(g, rank) && s in g && rank[s] < bound
    requires forall i :: 0 <= i < |subs| ==> subs[i] in g && rank[subs[i]] < bound
    requires ShowsFirst(v0, v, part, g, rank, bound, subs, start, ro)
    requires ShowsRegion(v, w, part, g, rank, s, start + g[s].addr, ro)
    ensures ShowsFirst(v0, w, part, g, rank, bound, subs + [s], start, ro)
  {
    var all := subs + [s];
    forall a {:trigger RenderedAt(v0, w, part, a, ResolveFirst(g, rank, bound, all, start, ro, a))}
      ensures RenderedAt(v0, w, part, a, ResolveFirst(g, rank, bound, all, start, ro, a))
    {
      assert RenderedAt(v0, v, part, a, ResolveFirst(g, rank, bound, subs, start, ro, a));
      assert RenderedAt(v, w, part, a, ResolveAt(g, rank, s, start + g[s].addr, ro, a));
      ResolveFirstAppend(g, rank, bound, subs, s, start, ro, a);
    }
  }

  /** View `w` is view `v0` with region `m`, placed at `start`, shown below it on [lo, hi). */
  ghost predicate Filled(v0: seq<FlatRange>, w: seq<FlatRange>, lo: int, hi: int,
                         m: MrId, r: MemoryRegion, start: int, readonly: bool)
  {
    forall a {:trigger FilledAt(v0, w, lo, hi, m, r, start, readonly, a)} ::
      FilledAt(v0, w, lo, hi, m, r, start, readonly, a)
  }

  predicate FilledAt(v0: seq<FlatRange>, w: seq<FlatRange>, lo: int, hi: int,
                     m: MrId, r: MemoryRegion, start: int, readonly: bool, a: int)
  {
    Lookup(w, a) == Under(Lookup(v0, a), lo <= a < hi, Some(Target(m, a - start, r.logMask, r.romd, readonly)))
  }

  lemma SortedInsert(v: seq<FlatRange>, i: nat, fr: FlatRange)
    requires i <= |v| && Sorted(v) && fr.addr.size > 0
    requires i > 0 ==> End(v[i - 1].addr) <= fr.addr.start
    requires i < |v| ==> End(fr.addr) <= v[i].addr.start
    ensures Sorted(InsertAt(v, i, fr))
  {
    var w := InsertAt(v, i, fr);
    forall k | 0 <= k < |w| ensures w[k].addr.size > 0 {
      assert w[k] == if k < i then v[k] else if k == i then fr else v[k - 1];
    }
    forall j, k | 0 <= j < k < |w| ensures End(w[j].addr) <= w[k].addr.start {
      FitsAround(v, i, fr, if j < i then j else j - 1);
      FitsAround(v, i, fr, if k < i then k else k - 1);
    }
  }

  /** Range `k` of the view lies before `fr` or after it, as its position says. */
  lemma FitsAround(v: seq<FlatRange>, i: nat, fr: FlatRange, k: int)
    requires i <= |v| && Sorted(v)
    requires i > 0 ==> End(v[i - 1].addr) <= fr.addr.start
    requires i < |v| ==> End(fr.addr) <= v[i].addr.start
    ensures 0 <= k < i ==> End(v[k].addr) <= fr.addr.start
    ensures i <= k < |v| ==> End(fr.addr) <= v[k].addr.start
  {
    if 0 <= k < i - 1 { assert End(v[k].addr) <= v[i - 1].addr.start; }
    if i < k < |v| { assert End(v[i].addr) <= v[k].addr.start; }
  }

  lemma FilledTouches(v: seq<FlatRange>, w: seq<FlatRange>, clip: AddrRange,
                      m: MrId, r: MemoryRegion, start: int, readonly: bool)
    requires Filled(v, w, clip.start, End(clip), m, r, start, readonly) && 0 < clip.size
    ensures Touched(w, clip)
  {
    assert FilledAt(v, w, clip.start, End(clip), m, r, start, readonly, clip.start);
    var i := LookupSome(w, clip.start);
    assert TouchesFrom(w, clip, w[i]);
  }

  /** Inserting the gap [base, base + now) before position `i` extends the filled part. */
  lemma FillStep(v0: seq<FlatRange>, v: seq<FlatRange>, i: nat, fr: FlatRange, lo: int, base: int, now: int,
                 m: MrId, r: MemoryRegion, start: int, readonly: bool)
    requires fr == FlatRange(m, base - start, AddrRange(base, now), r.logMask, r.romd, readonly)
    requires i <= |v| && Sorted(v) && now > 0 && lo <= base
    requires i > 0 ==> End(v[i - 1].addr) <= base
    requires i < |v| ==> base + now <= v[i].addr.start
    requires Filled(v0, v, lo, base, m, r, start, readonly)
    ensures Sorted(InsertAt(v, i, fr)) && Filled(v0, InsertAt(v, i, fr), lo, base + now, m, r, start, readonly)
  {
    var w := InsertAt(v, i, fr);
    SortedInsert(v, i, fr);
    var hi := base + now;
    forall a ensures FilledAt(v0, w, lo, hi, m, r, start, readonly, a) {
      assert FilledAt(v0, v, lo, base, m, r, start, readonly, a);
      LookupInsert(v, i, fr, a);
      if Contains(fr.addr, a) { LookupNone(v, a); }
    }
  }

  /** Addresses already mapped by range `i` count as filled. */
  lemma SkipStep(v0: seq<FlatRange>, v: seq<FlatRange>, i: nat, lo: int, base: int, now: int,
                 m: MrId, r: MemoryRegion, start: int, readonly: bool)
    requires i < |v| && Sorted(v) && now >= 0 && lo <= base
    requires v[i].addr.start <= base || now == 0
    requires base + now <= End(v[i].addr) || now == 0
    requires Filled(v0, v, lo, base, m, r, start, readonly)
    ensures Filled(v0, v, lo, base + now, m, r, start, readonly)
  {
    var hi := base + now;
    forall a ensures FilledAt(v0, v, lo, hi, m, r, start, readonly, a) {
      assert FilledAt(v0, v, lo, base, m, r, start, readonly, a);
      if base <= a < base + now { LookupAt(v, i, a); }
    }
  }

  /** View `v` is the flat view of the region `root`: canonical, and meaning what `ResolveAt` says. */
  ghost predicate IsFlatViewOf(v: seq<FlatRange>, g: Graph, rank: map<MrId, nat>, root: MrId)
    requires Ranked(g, rank) && root in g
  {
    && Sorted(v) && NoMergeable(v)
    && forall a :: Lookup(v, a) ==
                   if 0 <= a < TWO_64 then ResolveAt(g, rank, root, g[root].addr, false, a) else None
  }

  /** A region has exactly one flat view. */
  lemma FlatViewUnique(v: seq<FlatRange>, w: seq<FlatRange>, g: Graph, rank: map<MrId, nat>, root: MrId)
    requires Ranked(g, rank) && root in g
    requires IsFlatViewOf(v, g, rank, root) && IsFlatViewOf(w, g, rank, root)
    ensures v == w
  {
    NormalFormUnique(v, w);
  }

  /** All addresses of an address space. */
  const EVERYTHING := AddrRange(0, TWO_64)

  /** Rendering this root stops the program. */
  ghost predicate Overflows(g: Graph, rank: map<MrId, nat>, root: MrId)
    requires Ranked(g, rank) && root in g
  {
    TripsAny(Bare, Visits(g, rank, root, g[root].addr, EVERYTHING, EVERYTHING))
  }

  /** Rendering the root stops the program exactly when `overflow`; otherwise the view is its flat view. */
  method GenerateTopology(g: Graph, ghost rank: map<MrId, nat>, root: MrId)
    returns (view: seq<FlatRange>, overflow: bool)
    requires Ranked(g, rank) && root in g
    ensures IsFlatViewOf(view, g, rank, root)
    ensures overflow <==> Overflows(g, rank, root)
  {
    var fv := new FlatView();
    overflow := fv.Render(g, rank, root, 0, AddrRange(0, TWO_64), false, EVERYTHING);
    ghost var raw := fv.ranges;
    fv.Simplify();
    view := fv.ranges;
    forall a ensures Lookup(view, a) ==
      if 0 <= a < TWO_64 then ResolveAt(g, rank, root, g[root].addr, false, a) else None {
      assert RenderedAt([], raw, EVERYTHING, a, ResolveAt(g, rank, root, 0 + g[root].addr, false, a));
    }
  }

  /**
   The program stops if and only if the first terminating region rendered takes the whole address space, and
   another one is rendered over all of it later.
   */
  lemma OverflowsIff(g: Graph, rank: map<MrId, nat>, root: MrId)
    requires Ranked(g, rank) && root in g
    ensures var visits := Visits(g, rank, root, g[root].addr, EVERYTHING, EVERYTHING);
            Overflows(g, rank, root) <==> visits != [] && visits[0] && true in visits[1..]
  {
    BareTrips(Visits(g, rank, root, g[root].addr, EVERYTHING, EVERYTHING));
  }

  /** A region that can take the whole address space. */
  predicate Huge(r: MemoryRegion) { r.enabled && r.terminates && r.size >= TWO_64 }

  /** Only enabled terminating regions of 2^64 bytes can be rendered over the whole window. */
  lemma {:induction false} VisitIsHuge(g: Graph, rank: map<MrId, nat>, m: MrId, start: int, clip: AddrRange,
                                       window: AddrRange)
    requires Ranked(g, rank) && m in g && clip.size >= 0 && window.size == TWO_64
    requires true in Visits(g, rank, m, start, clip, window)
    ensures exists x :: x in g && Huge(g[x])
    decreases rank[m] + 1, 0
  {
    var r := g[m];
    var part := Intersection(AddrRange(start, r.size), clip);
    if r.alias.Some? {
      VisitIsHuge(g, rank, r.alias.value, start - r.aliasOffset, part, window);
    } else if true in VisitsFirst(g, rank, rank[m], r.subregions, start, part, window) {
      FirstIsHuge(g, rank, rank[m], r.subregions, start, part, window);
    } else {
      assert true in SelfVisit(part, window);
      assert Huge(g[m]);
    }
  }

  lemma {:induction false} FirstIsHuge(g: Graph, rank: map<MrId, nat>, bound: nat, subs: seq<MrId>,
                                       start: int, part: AddrRange, window: AddrRange)
    requires Ranked(g, rank) && part.size >= 0 && window.size == TWO_64
    requires forall i :: 0 <= i < |subs| ==> subs[i] in g && rank[subs[i]] < bound
    requires true in VisitsFirst(g, rank, bound, subs, start, part, window)
    ensures exists x :: x in g && Huge(g[x])
    decreases bound, |subs| + 1
  {
    if true in Visits(g, rank, subs[0], start + g[subs[0]].addr, part, window) {
      VisitIsHuge(g, rank, subs[0], start + g[subs[0]].addr, part, window);
    } else {
      FirstIsHuge(g, rank, bound, subs[1..], start, part, window);
    }
  }

  /** Without an enabled terminating region of 2^64 bytes the program never stops. */
  lemma OverflowNeedsHuge(g: Graph, rank: map<MrId, nat>, root: MrId)
    requires Ranked(g, rank) && root in g && Overflows(g, rank, root)
    ensures exists x :: x in g && Huge(g[x])
  {
    OverflowsIff(g, rank, root);
    VisitIsHuge(g, rank, root, g[root].addr, EVERYTHING, EVERYTHING);
  }

  /** A root of 2^64 bytes that terminates, and over all of it a subregion that does so too. */
  ghost predicate TwoHuge(g: Graph, root: MrId, sub: MrId) {
    && root in g && sub in g && Huge(g[root]) && Huge(g[sub]) && g[root].alias.None? && g[sub].alias.None?
    && g[root].subregions == [sub] && g[sub].subregions == []
    && g[root].addr == 0 && g[root].size == TWO_64 && g[sub].addr == 0 && g[sub].size == TWO_64
  }

  lemma VisitsOfLeaf(g: Graph, rank: map<MrId, nat>, m: MrId, start: int, w: AddrRange)
    requires Ranked(g, rank) && m in g && Huge(g[m]) && g[m].alias.None? && g[m].subregions == []
    requires w == AddrRange(start, g[m].size)
    ensures Visits(g, rank, m, start, w, w) == [true]
  {
    var subs := g[m].subregions;
    assert Intersection(AddrRange(start, g[m].size), w) == w;
    assert VisitsFirst(g, rank, rank[m], subs, start, w, w) == [];
  }

  lemma VisitsOfTwo(g: Graph, rank: map<MrId, nat>, root: MrId, sub: MrId, start: int, w: AddrRange)
    requires Ranked(g, rank) && TwoHuge(g, root, sub) && w == AddrRange(start, g[root].size)
    ensures Visits(g, rank, root, start, w, w) == [true, true]
  {
    var subs := g[root].subregions;
    assert Intersection(AddrRange(start, g[root].size), w) == w;
    VisitsOfLeaf(g, rank, sub, start + g[sub].addr, w);
    var rest := subs[1..];
    assert rest == [] && VisitsFirst(g, rank, rank[root], rest, start, w, w) == [];
    assert VisitsFirst(g, rank, rank[root], subs, start, w, w) == [true] + [];
  }

  /** Rendering such a root stops the program. */
  lemma TwoHugeOverflow(g: Graph, rank: map<MrId, nat>, root: MrId, sub: MrId)
    requires Ranked(g, rank) && TwoHuge(g, root, sub)
    ensures Overflows(g, rank, root)
  {
    VisitsOfTwo(g, rank, root, sub, g[root].addr, EVERYTHING);
    OverflowsIff(g, rank, root);
    assert [true, true][1..] == [true];
  }

  /** There is such a graph. */
  lemma TwoHugeExists() returns (g: Graph, rank: map<MrId, nat>)
    ensures Ranked(g, rank) && TwoHuge(g, 0, 1)
  {
    var leaf := MemoryRegion(0, TWO_64, true, true, false, true, 0, None, 0, [], None, 0, false);
    g, rank := map[0 := leaf.(subregions := [1]), 1 := leaf], map[0 := 1, 1 := 0];
  }
}
