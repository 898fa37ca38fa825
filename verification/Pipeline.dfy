/**
 The memory map end to end: what the region tree says about an address
 (`ResolveAt`) is what the page tree, the KVM slots and the dump blocks say.
 */
module Pipeline {
  import opened FlatViews
  import opened Rendering
  import opened Routes
  import opened Dispatch
  import opened SectionCount
  import opened Transactions
  import opened TopologyDiff
  import opened KvmTracking
  import P = PhysMap
  import K = Kvm
  import D = Dump

  /** The tree maps nothing at or above `limit`. */
  ghost predicate NothingBeyond(g: Graph, rank: map<MrId, nat>, root: MrId, limit: int)
    requires Ranked(g, rank) && root in g
  {
    forall a {:trigger ResolveAt(g, rank, root, g[root].addr, false, a)} ::
      0 <= a < TWO_64 && limit <= a ==> ResolveAt(g, rank, root, g[root].addr, false, a).None?
  }

  /** A flat view lies within a limit exactly when its tree maps nothing beyond it. */
  lemma WithinIffNothingBeyond(v: seq<FlatRange>, g: Graph, rank: map<MrId, nat>, root: MrId, limit: int)
    requires Ranked(g, rank) && root in g && IsFlatViewOf(v, g, rank, root)
    ensures Within(v, limit) <==> NothingBeyond(g, rank, root, limit)
  {
    if NothingBeyond(g, rank, root, limit) {
      forall i | 0 <= i < |v| ensures 0 <= v[i].addr.start && End(v[i].addr) <= limit {
        LookupAt(v, i, v[i].addr.start);
        LookupAt(v, i, End(v[i].addr) - 1);
      }
    }
    if Within(v, limit) {
      forall a {:trigger ResolveAt(g, rank, root, g[root].addr, false, a)} | 0 <= a < TWO_64 && limit <= a
        ensures ResolveAt(g, rank, root, g[root].addr, false, a).None?
      {
        LookupNone(v, a);
      }
    }
  }

  /** The views are the flat views of the roots. */
  ghost predicate AreViews(views: seq<seq<FlatRange>>, g: Graph, rank: map<MrId, nat>, roots: seq<MrId>)
    requires Ranked(g, rank)
  {
    |views| == |roots| &&
    forall i {:trigger IsViewOf(views[i], g, rank, roots[i])} :: 0 <= i < |roots| ==>
      IsViewOf(views[i], g, rank, roots[i])
  }

  ghost predicate IsViewOf(view: seq<FlatRange>, g: Graph, rank: map<MrId, nat>, root: MrId)
    requires Ranked(g, rank)
  {
    root in g && IsFlatViewOf(view, g, rank, root)
  }

  ghost predicate AllIn(g: Graph, roots: seq<MrId>) { forall i :: 0 <= i < |roots| ==> roots[i] in g }

  /** Renders the roots of all address spaces. */
  method RenderAll(g: Graph, ghost rank: map<MrId, nat>, roots: seq<MrId>)
    returns (views: seq<seq<FlatRange>>, stops: bool)
    requires Ranked(g, rank) && AllIn(g, roots)
    ensures AreViews(views, g, rank, roots)
    ensures stops <==> AnyStops(roots, g, rank)
  {
    views, stops := [], false;
    for i := 0 to |roots|
      invariant AreViews(views, g, rank, roots[..i]) && (stops <==> AnyStops(roots[..i], g, rank))
    {
      var view, overflow := GenerateTopology(g, rank, roots[i]);
      AnyStopsStep(roots, i, g, rank);
      MoreViews(views, view, g, rank, roots, i);
      views, stops := views + [view], stops || overflow;
    }
    assert roots[..|roots|] == roots;
  }

  lemma MoreViews(views: seq<seq<FlatRange>>, view: seq<FlatRange>, g: Graph, rank: map<MrId, nat>,
                  roots: seq<MrId>, i: nat)
    requires Ranked(g, rank) && i < |roots| && AreViews(views, g, rank, roots[..i]) && IsViewOf(view, g, rank, roots[i])
    ensures AreViews(views + [view], g, rank, roots[..i + 1])
  {
    var all, upto := views + [view], roots[..i + 1];
    forall k {:trigger IsViewOf(all[k], g, rank, upto[k])} | 0 <= k <= i ensures IsViewOf(all[k], g, rank, upto[k]) {
      assert k < i ==> IsViewOf(views[k], g, rank, roots[..i][k]);
    }
  }

  /** What the dispatch listener is told of each new view, new or kept, whatever the views were before. */
  method ReportAll(before: seq<seq<FlatRange>>, views: seq<seq<FlatRange>>) returns (reported: seq<seq<FlatRange>>)
    requires |before| == |views|
    requires forall i :: 0 <= i < |views| ==> Sorted(before[i]) && Sorted(views[i])
    ensures reported == views
  {
    reported := [];
    for i := 0 to |views|
      invariant reported == views[..i]
    {
      var events := Pass(before[i], views[i], true);
      reported := reported + [Reported(events)];
    }
  }

  /** The addresses that a page tree can tell apart. */
  ghost function Width(w: nat, levels: nat, page: nat): nat
    requires w >= 2
  {
    P.SlotBase(0, P.Pow(w, levels), page)
  }

  /**
   Flattens the trees of all address spaces, tells the dispatch listeners how the views differ from those before,
   builds their structures in one new shared map and looks up address `a` in address space `n`: the answer is the
   region, offset and read-only flag that its tree gives for the address it aliases, or unassigned. The program
   stops on the way exactly if rendering some root does, or the views take more sections than there are numbers,
   or, where the constants leave room for that, nodes run out.
   */
  method ResolveThroughDispatch(g: Graph, ghost rank: map<MrId, nat>, roots: seq<MrId>,
                                before: seq<seq<FlatRange>>, w: nat, levels: nat, page: nat, n: nat, a: nat)
    returns (stops: bool, r: Outcome, sec: Section, xlat: int, ghost views: seq<seq<FlatRange>>)
    requires Ranked(g, rank) && AllIn(g, roots) && n < |roots| && w >= 2 && levels >= 1 && page >= 1 && a < TWO_64
    requires |before| == |roots| && forall i :: 0 <= i < |before| ==> Sorted(before[i])
    requires forall i :: 0 <= i < |roots| ==> NothingBeyond(g, rank, roots[i], Width(w, levels, page))
    ensures AreViews(views, g, rank, roots) && (stops <==> AnyStops(roots, g, rank))
    ensures r.Registered? ==> 4 + TotalCost(views, |views|, page) <= page
    ensures r.NoSection? ==> 4 + TotalCost(views, |views|, page) > page
    ensures (page - 4) * (2 * levels - 1) <= P.NODE_NIL ==> !r.NoNode?
    ensures var b := Aliased(w, levels, page, a);
            r.Registered? ==>
              match ResolveAt(g, rank, roots[n], g[roots[n]].addr, false, b)
              case None => sec.mr.Unassigned?
              case Some(t) => sec.mr == Region(t.mr) && xlat == t.offset + (a - b) && sec.readonly == t.readonly
  {
    var all;
    all, stops := RenderAll(g, rank, roots);
    views, sec, xlat := all, DUMMIES[0], 0;
    if page < |DUMMIES| { return stops, NoSection, sec, xlat, views; }
    var shared := new NextMap(w, levels);
    var ds := BeginAll(shared, page, |roots|);
    forall i {:trigger InTree(shared, page, views[i])} | 0 <= i < |views| ensures InTree(shared, page, views[i]) {
      assert IsViewOf(views[i], g, rank, roots[i]);
      WithinIffNothingBeyond(views[i], g, rank, roots[i], Width(w, levels, page));
    }
    forall i | 0 <= i < |all| ensures Sorted(all[i]) { assert IsViewOf(all[i], g, rank, roots[i]); }
    var reported := ReportAll(before, all);
    r := FillAll(shared, page, ds, reported);
    EnoughNodes(levels, page);
    AliasedInWidth(w, levels, page, a);
    if r.Registered? {
      assert ds[n].Represents(Goal(views, n, |views|)) && IsViewOf(views[n], g, rank, roots[n]);
      sec, xlat := ds[n].Translate(a, views[n]);
    }
  }

  /** What a KVM slot maps is what the tree resolves to, in host memory. */
  lemma SlotsServeTree(m: Machine, slots: seq<K.Slot>, v: seq<FlatRange>, g: Graph, rank: map<MrId, nat>, root: MrId,
                       a: int, h: int)
    requires Ranked(g, rank) && root in g && IsFlatViewOf(v, g, rank, root)
    requires m.page >= 1 && Tracks(m, slots, Keys(v))
    ensures K.Maps(slots, a, h) ==> 0 <= a < TWO_64
    ensures var r := ResolveAt(g, rank, root, g[root].addr, false, a);
            K.Maps(slots, a, h) ==>
              r.Some? && r.value.mr in m.backing && h == m.backing[r.value.mr].host + r.value.offset
  {
    if K.Maps(slots, a, h) {
      assert ServedBy(m, Keys(v), a, h);
      var k :| k in Keys(v) && Serves(m, k, a, h);
      var i :| 0 <= i < |v| && Key(v[i]) == k;
      ServesIsHit(m, k, a, h);
      LookupAt(v, i, a);
    }
  }

  /** The region is RAM, or a read-only device in romd mode that the kernel can map read-only. */
  predicate Mappable(m: Machine, mr: MrId, romd: bool) {
    mr in m.backing &&
    (m.backing[mr].isRam || (!m.backing[mr].writeable && m.readonlyAllowed && romd))
  }

  /** Conversely, when all such ranges are page aligned, every address of theirs has its slot. */
  lemma AlignedTreeIsServed(m: Machine, slots: seq<K.Slot>, v: seq<FlatRange>, g: Graph, rank: map<MrId, nat>,
                            root: MrId, a: int)
    requires Ranked(g, rank) && root in g && IsFlatViewOf(v, g, rank, root)
    requires m.page >= 1 && Tracks(m, slots, Keys(v)) && 0 <= a < TWO_64
    requires forall i :: 0 <= i < |v| && Mappable(m, v[i].mr, v[i].romd) ==>
               v[i].addr.start % m.page == 0 && v[i].addr.size % m.page == 0
    ensures var r := ResolveAt(g, rank, root, g[root].addr, false, a);
            r.Some? && Mappable(m, r.value.mr, r.value.romd) ==>
              K.Maps(slots, a, m.backing[r.value.mr].host + r.value.offset)
  {
    var r := ResolveAt(g, rank, root, g[root].addr, false, a);
    if r.Some? && Mappable(m, r.value.mr, r.value.romd) {
      var i := LookupSome(v, a);
      assert Key(v[i]) in Keys(v);
      K.ClampAligned(v[i].addr.start, v[i].addr.size, m.page);
      assert Serves(m, Key(v[i]), a, m.backing[r.value.mr].host + r.value.offset);
      assert ServedBy(m, Keys(v), a, m.backing[r.value.mr].host + r.value.offset);
    }
  }

  /** Whatever an address reaches is an offset inside the region. */
  lemma ResolveInside(g: Graph, rank: map<MrId, nat>, m: MrId, start: int, ro: bool, a: int)
    requires Ranked(g, rank) && m in g
    ensures var t := ResolveAt(g, rank, m, start, ro, a);
            t.Some? ==> t.value.mr in g && 0 <= t.value.offset < g[t.value.mr].size
  {
    if ResolveAt(g, rank, m, start, ro, a).Some? {
      var regs, starts := ResolvedHasRoute(g, rank, m, start, ro, a);
      assert Holds(g, regs[|regs| - 1], starts[|starts| - 1], a);
    }
  }

  /** The memory of every RAM region is in the host's address space. */
  ghost predicate RamOk(g: Graph, ram: map<MrId, int>) {
    forall m :: m in ram && m in g ==> D.HostFits(ram[m], g[m].size)
  }

  lemma RangeInside(v: seq<FlatRange>, g: Graph, rank: map<MrId, nat>, root: MrId, i: nat)
    requires Ranked(g, rank) && root in g && IsFlatViewOf(v, g, rank, root) && i < |v|
    ensures v[i].mr in g && 0 <= v[i].offset && v[i].offset + v[i].addr.size <= g[v[i].mr].size
  {
    LookupAt(v, i, v[i].addr.start);
    LookupAt(v, i, End(v[i].addr) - 1);
    ResolveInside(g, rank, root, g[root].addr, false, v[i].addr.start);
    ResolveInside(g, rank, root, g[root].addr, false, End(v[i].addr) - 1);
  }

  /** The dump's block list holds exactly the RAM of the tree, each byte at its host address. */
  method CollectBlocks(g: Graph, ghost rank: map<MrId, nat>, root: MrId, ram: map<MrId, int>)
    returns (blocks: seq<D.Block>, overflow: bool)
    requires Ranked(g, rank) && root in g && RamOk(g, ram)
    ensures D.BlocksOk(blocks) && D.Maximal(blocks) && (overflow <==> Overflows(g, rank, root))
    ensures forall a {:trigger D.HostOf(blocks, a)} :: D.HostOf(blocks, a) ==
              D.RamHost(if 0 <= a < TWO_64 then ResolveAt(g, rank, root, g[root].addr, false, a) else None, ram)
  {
    var view;
    view, overflow := GenerateTopology(g, rank, root);
    WithinIffNothingBeyond(view, g, rank, root, TWO_64);
    forall i {:trigger D.RamFitsAt(view[i], ram)} | 0 <= i < |view|
      ensures D.RamFitsAt(view[i], ram)
    {
      RangeInside(view, g, rank, root, i);
    }
    forall i | 0 <= i < |view| && view[i].mr in ram ensures view[i].addr.size < TWO_64 {
      RangeInside(view, g, rank, root, i);
    }
    var list := new D.GuestPhysBlocks();
    var aborted := list.Append(view, ram);
    blocks := list.blocks;
  }
}
