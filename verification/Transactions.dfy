/**
 Nested update transactions over the region graph (memory.c): which changes
 set the pending flag, and what the commit of the outermost transaction does.
 */
module Transactions {
  import opened Arithmetic
  import opened FlatViews
  import opened Simplification
  import opened Rendering
  import opened TopologyDiff

  /** The enabled members of a list of subregions. */
  ghost function Live(g: Graph, subs: seq<MrId>): seq<MrId>
    requires forall i :: 0 <= i < |subs| ==> subs[i] in g
  {
    if subs == [] then []
    else (if g[subs[0]].enabled then [subs[0]] else []) + Live(g, subs[1..])
  }

  ghost predicate Closed(g: Graph) {
    forall m, i :: m in g && 0 <= i < |g[m].subregions| ==> g[m].subregions[i] in g
  }

  /** Region `m` shows the same thing in both graphs, whatever the address it is placed at. */
  ghost predicate SameShow(g: Graph, h: Graph, m: MrId)
    requires Closed(g) && Closed(h) && m in g && m in h
  {
    && g[m].enabled == h[m].enabled
    && (g[m].enabled ==>
          && g[m].size == h[m].size && g[m].terminates == h[m].terminates
          && g[m].readonly == h[m].readonly && g[m].romd == h[m].romd && g[m].logMask == h[m].logMask
          && g[m].alias == h[m].alias && g[m].aliasOffset == h[m].aliasOffset
          && Live(g, g[m].subregions) == Live(h, h[m].subregions)
          && forall s :: s in g[m].subregions && s in h[m].subregions ==> s in g && s in h && g[s].addr == h[s].addr)
  }

  ghost predicate SameShowAll(g: Graph, h: Graph) {
    && Closed(g) && Closed(h) && g.Keys <= h.Keys
    && forall m {:trigger SameShow(g, h, m)} :: m in g ==> SameShow(g, h, m)
  }

  lemma {:induction false} LiveMembers(g: Graph, subs: seq<MrId>, s: MrId)
    requires forall i :: 0 <= i < |subs| ==> subs[i] in g
    ensures s in Live(g, subs) <==> s in subs && g[s].enabled
  {
    if subs != [] { LiveMembers(g, subs[1..], s); }
  }

  /** Disabled subregions do not matter. */
  lemma {:induction false} ResolveLive(g: Graph, rank: map<MrId, nat>, bound: nat, subs: seq<MrId>,
                                       start: int, ro: bool, a: int)
    requires Ranked(g, rank)
    requires forall i :: 0 <= i < |subs| ==> subs[i] in g && rank[subs[i]] < bound
    ensures forall i :: 0 <= i < |Live(g, subs)| ==> Live(g, subs)[i] in g && rank[Live(g, subs)[i]] < bound
    ensures ResolveFirst(g, rank, bound, subs, start, ro, a) ==
      ResolveFirst(g, rank, bound, Live(g, subs), start, ro, a)
  {
    if subs != [] {
      ResolveLive(g, rank, bound, subs[1..], start, ro, a);
      if g[subs[0]].enabled {
        assert Live(g, subs)[1..] == Live(g, subs[1..]);
      } else {
        assert Live(g, subs) == Live(g, subs[1..]);
      }
    }
  }

  /** Graphs that show the same resolve every address the same way, whatever their ranks. */
  lemma {:induction false} SameShowResolves(g: Graph, r1: map<MrId, nat>, h: Graph, r2: map<MrId, nat>,
                                            m: MrId, start: int, ro: bool, a: int)
    requires Ranked(g, r1) && Ranked(h, r2) && SameShowAll(g, h) && m in g
    ensures ResolveAt(g, r1, m, start, ro, a) == ResolveAt(h, r2, m, start, ro, a)
    decreases r1[m] + 1, 0
  {
    var r := g[m];
    assert SameShow(g, h, m);
    if r.enabled && start <= a < start + r.size {
      if r.alias.Some? {
        SameShowResolves(g, r1, h, r2, r.alias.value, start - r.aliasOffset, ro || r.readonly, a);
      } else {
        var live := Live(g, r.subregions);
        ResolveLive(g, r1, r1[m], r.subregions, start, ro || r.readonly, a);
        ResolveLive(h, r2, r2[m], h[m].subregions, start, ro || r.readonly, a);
        forall s | s in live ensures g[s].addr == h[s].addr {
          LiveMembers(g, r.subregions, s);
          LiveMembers(h, h[m].subregions, s);
        }
        SameFirst(g, r1, r1[m], h, r2, r2[m], live, start, ro || r.readonly, a);
      }
    }
  }

  lemma {:induction false} SameFirst(g: Graph, r1: map<MrId, nat>, b1: nat, h: Graph, r2: map<MrId, nat>, b2: nat,
                                     subs: seq<MrId>, start: int, ro: bool, a: int)
    requires Ranked(g, r1) && Ranked(h, r2) && SameShowAll(g, h)
    requires forall i :: 0 <= i < |subs| ==> subs[i] in g && r1[subs[i]] < b1
    requires forall i :: 0 <= i < |subs| ==> subs[i] in h && r2[subs[i]] < b2
    requires forall s :: s in subs ==> g[s].addr == h[s].addr
    ensures ResolveFirst(g, r1, b1, subs, start, ro, a) == ResolveFirst(h, r2, b2, subs, start, ro, a)
    decreases b1, |subs| + 1
  {
    if subs != [] {
      assert subs[0] in subs;
      SameShowResolves(g, r1, h, r2, subs[0], start + g[subs[0]].addr, ro, a);
      SameFirst(g, r1, b1, h, r2, b2, subs[1..], start, ro, a);
    }
  }

  /** The flat view of a root survives any change that shows the same and does not move the root. */
  lemma ViewSurvives(v: seq<FlatRange>, g: Graph, r1: map<MrId, nat>, h: Graph, r2: map<MrId, nat>, root: MrId)
    requires Ranked(g, r1) && Ranked(h, r2) && SameShowAll(g, h) && root in g
    requires g[root].addr == h[root].addr || !g[root].enabled
    requires IsFlatViewOf(v, g, r1, root)
    ensures IsFlatViewOf(v, h, r2, root)
  {
    assert SameShow(g, h, root);
    forall a ensures ResolveAt(g, r1, root, g[root].addr, false, a) == ResolveAt(h, r2, root, h[root].addr, false, a) {
      SameShowResolves(g, r1, h, r2, root, g[root].addr, false, a);
    }
  }

  /** Only the enabled flags of the members matter. */
  lemma {:induction false} LiveSame(g: Graph, h: Graph, subs: seq<MrId>)
    requires forall i :: 0 <= i < |subs| ==> subs[i] in g && subs[i] in h && g[subs[i]].enabled == h[subs[i]].enabled
    ensures Live(g, subs) == Live(h, subs)
  {
    if subs != [] { LiveSame(g, h, subs[1..]); }
  }

  lemma {:induction false} LiveInsert(g: Graph, subs: seq<MrId>, pos: nat, s: MrId)
    requires forall i :: 0 <= i < |subs| ==> subs[i] in g
    requires pos <= |subs| && s in g && !g[s].enabled
    ensures Live(g, InsertAt(subs, pos, s)) == Live(g, subs)
  {
    if pos == 0 {
      assert InsertAt(subs, pos, s)[1..] == subs;
    } else {
      assert InsertAt(subs, pos, s)[1..] == InsertAt(subs[1..], pos - 1, s);
      LiveInsert(g, subs[1..], pos - 1, s);
    }
  }

  function RemoveAt<T>(s: seq<T>, k: nat): (r: seq<T>)
    requires k < |s|
    ensures |r| == |s| - 1
    ensures forall i :: 0 <= i < k ==> r[i] == s[i]
    ensures forall i :: k <= i < |r| ==> r[i] == s[i + 1]
  {
    s[..k] + s[k + 1..]
  }

  /** The list `subs` is a list of distinct children of `m` in descending priority. */
  ghost predicate ChildrenOk(g: Graph, m: MrId, subs: seq<MrId>) {
    && (forall i :: 0 <= i < |subs| ==> subs[i] in g && g[subs[i]].parent == Some(m))
    && (forall i, j :: 0 <= i < j < |subs| ==> subs[i] != subs[j])
    && (forall i, j :: 0 <= i < j < |subs| ==> g[subs[j]].priority <= g[subs[i]].priority)
  }

  ghost predicate ParentOk(g: Graph, c: MrId)
    requires c in g
  {
    g[c].parent.Some? ==> g[c].parent.value in g && c in g[g[c].parent.value].subregions
  }

  /** Parent links and subregion lists agree. */
  ghost predicate Linked(g: Graph) {
    && (forall m {:trigger ChildrenOk(g, m, g[m].subregions)} :: m in g ==> ChildrenOk(g, m, g[m].subregions))
    && (forall m {:trigger ParentOk(g, m)} :: m in g ==> ParentOk(g, m))
  }

  lemma LinkedClosed(g: Graph)
    requires Linked(g)
    ensures Closed(g)
  {
    forall m, i | m in g && 0 <= i < |g[m].subregions| ensures g[m].subregions[i] in g {
      assert ChildrenOk(g, m, g[m].subregions);
    }
  }

  function Attach(g: Graph, m: MrId, s: MrId, placed: MemoryRegion, pos: nat): Graph
    requires m in g && s in g && s != m && pos <= |g[m].subregions|
  {
    g[s := placed.(parent := Some(m))][m := g[m].(subregions := InsertAt(g[m].subregions, pos, s))]
  }

  function Detach(g: Graph, m: MrId, s: MrId, k: nat): Graph
    requires m in g && s in g && s != m && k < |g[m].subregions|
  {
    g[s := g[s].(parent := None)][m := g[m].(subregions := RemoveAt(g[m].subregions, k))]
  }

  /** Changing attributes of a disabled region shows nothing. */
  lemma QuietEdit(g: Graph, m: MrId, r: MemoryRegion)
    requires Linked(g) && m in g && !g[m].enabled && !r.enabled
    requires r.subregions == g[m].subregions && r.addr == g[m].addr
    ensures SameShowAll(g, g[m := r])
  {
    var h := g[m := r];
    LinkedClosed(g);
    forall x | x in g ensures SameShow(g, h, x) {
      LiveSame(g, h, g[x].subregions);
    }
  }

  /** Moving a region without a parent shows nothing, since alias offsets do not depend on it. */
  lemma QuietMove(g: Graph, m: MrId, addr: int)
    requires Linked(g) && m in g && g[m].parent.None?
    ensures SameShowAll(g, g[m := g[m].(addr := addr)])
  {
    var h := g[m := g[m].(addr := addr)];
    LinkedClosed(g);
    forall x | x in g ensures SameShow(g, h, x) {
      assert ChildrenOk(g, x, g[x].subregions);
      LiveSame(g, h, g[x].subregions);
    }
  }

  /** Adding a subregion when it or its parent is disabled shows nothing. */
  lemma QuietAttach(g: Graph, m: MrId, s: MrId, placed: MemoryRegion, pos: nat)
    requires Linked(g) && m in g && s in g && s != m && pos <= |g[m].subregions| && g[s].parent.None?
    requires !g[m].enabled || !g[s].enabled
    requires placed == g[s].(addr := placed.addr, priority := placed.priority, mayOverlap := placed.mayOverlap)
    ensures SameShowAll(g, Attach(g, m, s, placed, pos))
  {
    var h := Attach(g, m, s, placed, pos);
    LinkedClosed(g);
    assert Closed(h);
    forall x | x in g ensures SameShow(g, h, x) {
      assert ChildrenOk(g, x, g[x].subregions);
      LiveSame(g, h, g[x].subregions);
      if x == m && !g[s].enabled { LiveInsert(h, g[m].subregions, pos, s); }
    }
  }

  lemma ChildrenInsert(g: Graph, m: MrId, subs: seq<MrId>, pos: nat, s: MrId)
    requires pos <= |subs| && s in g && g[s].parent == Some(m) && s !in subs
    requires ChildrenOk(g, m, subs)
    requires forall k :: 0 <= k < pos ==> g[s].priority <= g[subs[k]].priority
    requires pos < |subs| ==> g[subs[pos]].priority <= g[s].priority
    ensures ChildrenOk(g, m, InsertAt(subs, pos, s))
  {
    var t := InsertAt(subs, pos, s);
    forall k | pos <= k < |subs| ensures g[subs[k]].priority <= g[s].priority {
      if k > pos { assert g[subs[k]].priority <= g[subs[pos]].priority; }
    }
  }

  lemma LinkedAttach(g: Graph, m: MrId, s: MrId, placed: MemoryRegion, pos: nat)
    requires Linked(g) && m in g && s in g && s != m && pos <= |g[m].subregions| && g[s].parent.None?
    requires placed.subregions == g[s].subregions && ChildrenOk(g, m, g[m].subregions)
    requires forall k :: 0 <= k < pos ==> placed.priority < g[g[m].subregions[k]].priority
    requires pos < |g[m].subregions| ==> g[g[m].subregions[pos]].priority <= placed.priority
    ensures Linked(Attach(g, m, s, placed, pos))
  {
    var h := Attach(g, m, s, placed, pos);
    forall x | x in h ensures ChildrenOk(h, x, h[x].subregions) && ParentOk(h, x) {
      assert ChildrenOk(g, x, g[x].subregions) && ParentOk(g, x);
      assert s !in g[x].subregions;
      assert ChildrenOk(h, x, g[x].subregions);
      if x == m { ChildrenInsert(h, m, g[m].subregions, pos, s); }
      if h[x].parent == Some(m) {
        InsertMember(g[m].subregions, pos, s, x);
      }
    }
  }

  lemma RemoveMembers<T>(t: seq<T>, k: nat, x: T)
    requires k < |t| && x in t && x != t[k]
    ensures x in RemoveAt(t, k)
  {
    var i :| 0 <= i < |t| && t[i] == x;
    assert RemoveAt(t, k)[if i < k then i else i - 1] == x;
  }

  lemma ChildrenRemove(g: Graph, h: Graph, m: MrId, subs: seq<MrId>, k: nat)
    requires k < |subs| && ChildrenOk(g, m, subs)
    requires forall i :: 0 <= i < |subs| && subs[i] != subs[k] ==>
      subs[i] in h && h[subs[i]].parent == Some(m) && h[subs[i]].priority == g[subs[i]].priority
    ensures ChildrenOk(h, m, RemoveAt(subs, k))
  {
  }

  lemma LinkedDetach(g: Graph, m: MrId, s: MrId, k: nat)
    requires Linked(g) && m in g && s in g && s != m && k < |g[m].subregions| && g[m].subregions[k] == s
    ensures Linked(Detach(g, m, s, k))
  {
    var h := Detach(g, m, s, k);
    assert ChildrenOk(g, m, g[m].subregions);
    forall x | x in h ensures ChildrenOk(h, x, h[x].subregions) && ParentOk(h, x) {
      assert ChildrenOk(g, x, g[x].subregions) && ParentOk(g, x);
      if x == m {
        ChildrenRemove(g, h, m, g[m].subregions, k);
      } else {
        assert s !in g[x].subregions;
        assert ChildrenOk(h, x, g[x].subregions);
      }
      if x != s && g[x].parent == Some(m) { RemoveMembers(g[m].subregions, k, x); }
    }
  }

  lemma RemoveInsert<T>(t: seq<T>, k: nat)
    requires k < |t|
    ensures InsertAt(RemoveAt(t, k), k, t[k]) == t
  {
  }

  lemma DetachAttach(g: Graph, m: MrId, s: MrId, k: nat)
    requires m in g && s in g && s != m && k < |g[m].subregions| && g[m].subregions[k] == s && g[s].parent == Some(m)
    ensures var h := Detach(g, m, s, k); Attach(h, m, s, h[s], k) == g
  {
    var h := Detach(g, m, s, k);
    var a := Attach(h, m, s, h[s], k);
    assert a.Keys == g.Keys;
    forall x | x in g ensures a[x] == g[x] { DetachAttachAt(g, m, s, k, x); }
  }

  lemma DetachAttachAt(g: Graph, m: MrId, s: MrId, k: nat, x: MrId)
    requires m in g && s in g && s != m && k < |g[m].subregions| && g[m].subregions[k] == s && g[s].parent == Some(m)
    requires x in g
    ensures var h := Detach(g, m, s, k); Attach(h, m, s, h[s], k)[x] == g[x]
  {
    if x == m { RemoveInsert(g[m].subregions, k); }
  }

  /** Removing a subregion when it or its parent is disabled shows nothing: adding it back would not either. */
  lemma QuietDetach(g: Graph, m: MrId, s: MrId, k: nat)
    requires Linked(g) && m in g && s in g && s != m && k < |g[m].subregions| && g[m].subregions[k] == s
    requires !g[m].enabled || !g[s].enabled
    ensures SameShowAll(g, Detach(g, m, s, k))
  {
    var h := Detach(g, m, s, k);
    LinkedDetach(g, m, s, k);
    QuietAttach(h, m, s, h[s], k);
    assert ChildrenOk(g, m, g[m].subregions);
    DetachAttach(g, m, s, k);
    SameShowSymmetric(h, g);
  }

  lemma SameShowSymmetric(g: Graph, h: Graph)
    requires SameShowAll(g, h) && g.Keys == h.Keys
    ensures SameShowAll(h, g)
  {
    forall m | m in h ensures SameShow(h, g, m) {
      assert SameShow(g, h, m);
    }
  }

  /** An address space: its root, its current flat view, and what a listener on it holds. */
  datatype AddressSpace = AddressSpace(root: MrId, view: seq<FlatRange>, mirror: map<FlatRange, bool>)

  function Roots(spaces: seq<AddressSpace>): (r: seq<MrId>)
    ensures |r| == |spaces| && forall i :: 0 <= i < |spaces| ==> r[i] == spaces[i].root
  {
    seq(|spaces|, i requires 0 <= i < |spaces| => spaces[i].root)
  }

  /** The root exists and the listener mirrors the view. */
  ghost predicate SpaceOk(s: AddressSpace, g: Graph) {
    s.root in g && Sorted(s.view) && s.mirror == Mirror(s.view)
  }

  ghost predicate SpacesOk(spaces: seq<AddressSpace>, g: Graph) {
    forall i {:trigger SpaceOk(spaces[i], g)} :: 0 <= i < |spaces| ==> SpaceOk(spaces[i], g)
  }

  lemma SpacesStay(spaces: seq<AddressSpace>, g: Graph, h: Graph)
    requires SpacesOk(spaces, g) && g.Keys <= h.Keys
    ensures SpacesOk(spaces, h)
  {
    forall i {:trigger SpaceOk(spaces[i], h)} | 0 <= i < |spaces| ensures SpaceOk(spaces[i], h) {
      assert SpaceOk(spaces[i], g);
    }
  }

  /** The view is the flat view of the root. */
  ghost predicate Shown(s: AddressSpace, g: Graph, rank: map<MrId, nat>)
    requires Ranked(g, rank)
  {
    s.root in g && IsFlatViewOf(s.view, g, rank, s.root)
  }

  ghost predicate AllShown(spaces: seq<AddressSpace>, g: Graph, rank: map<MrId, nat>)
    requires Ranked(g, rank)
  {
    forall i {:trigger Shown(spaces[i], g, rank)} :: 0 <= i < |spaces| ==> Shown(spaces[i], g, rank)
  }

  /** Rendering the root stops the program. */
  ghost predicate Stops(root: MrId, g: Graph, rank: map<MrId, nat>)
    requires Ranked(g, rank)
  {
    root in g && Overflows(g, rank, root)
  }

  ghost predicate AnyStops(roots: seq<MrId>, g: Graph, rank: map<MrId, nat>)
    requires Ranked(g, rank)
  {
    exists i {:trigger Stops(roots[i], g, rank)} :: 0 <= i < |roots| && Stops(roots[i], g, rank)
  }

  lemma AnyStopsStep(roots: seq<MrId>, n: nat, g: Graph, rank: map<MrId, nat>)
    requires Ranked(g, rank) && n < |roots|
    ensures AnyStops(roots[..n + 1], g, rank) <==> AnyStops(roots[..n], g, rank) || Stops(roots[n], g, rank)
  {
    if AnyStops(roots[..n], g, rank) {
      var i :| 0 <= i < n && Stops(roots[..n][i], g, rank);
      assert Stops(roots[..n + 1][i], g, rank);
    }
    if Stops(roots[n], g, rank) { assert Stops(roots[..n + 1][n], g, rank); }
    if AnyStops(roots[..n + 1], g, rank) {
      var i :| 0 <= i <= n && Stops(roots[..n + 1][i], g, rank);
      assert i < n ==> Stops(roots[..n][i], g, rank);
    }
  }

  /** Position `pos` is right before the first subregion whose priority is not higher. */
  ghost predicate InPlace(g: Graph, subs: seq<MrId>, priority: int, pos: nat)
    requires forall i :: 0 <= i < |subs| ==> subs[i] in g
  {
    && pos <= |subs| && (forall k :: 0 <= k < pos ==> priority < g[subs[k]].priority)
    && (pos < |subs| ==> g[subs[pos]].priority <= priority)
  }

  /** Graph `h` is `g` with `s`, as given, among the subregions of `m` at `pos`; nothing else differs. */
  ghost predicate SubregionAdded(g: Graph, m: MrId, s: MrId, offset: int, priority: int, overlap: bool, pos: nat,
                                 h: Graph)
  {
    && m in g && s in g && s != m && pos <= |g[m].subregions| && h.Keys == g.Keys
    && h[s] == g[s].(addr := offset, priority := priority, mayOverlap := overlap, parent := Some(m))
    && h[m] == g[m].(subregions := g[m].subregions[..pos] + [s] + g[m].subregions[pos..])
    && forall x :: x in g && x != m && x != s ==> h[x] == g[x]
  }

  lemma AttachIs(g: Graph, m: MrId, s: MrId, offset: int, priority: int, overlap: bool, pos: nat)
    requires m in g && s in g && s != m && pos <= |g[m].subregions|
    ensures SubregionAdded(g, m, s, offset, priority, overlap, pos,
                           Attach(g, m, s, Placed(g[s], offset, priority, overlap), pos))
  {
  }

  /** Graph `h` is `g` without `s`, subregion `k` of `m`; nothing else differs. */
  ghost predicate SubregionRemoved(g: Graph, m: MrId, s: MrId, k: nat, h: Graph) {
    && m in g && s in g && s != m && k < |g[m].subregions| && g[m].subregions[k] == s && h.Keys == g.Keys
    && h[s] == g[s].(parent := None)
    && h[m] == g[m].(subregions := g[m].subregions[..k] + g[m].subregions[k + 1..])
    && forall x :: x in g && x != m && x != s ==> h[x] == g[x]
  }

  lemma DetachIs(g: Graph, m: MrId, s: MrId, k: nat)
    requires m in g && s in g && s != m && k < |g[m].subregions| && g[m].subregions[k] == s
    ensures SubregionRemoved(g, m, s, k, Detach(g, m, s, k))
  {
  }

  /**
   Graph `h` is `g` with `m`, subregion `k` of its parent, put back at `addr` as subregion `pos`, with its priority
   if it may overlap.
   */
  ghost predicate ReinsertedAt(g: Graph, parent: MrId, m: MrId, addr: int, k: nat, pos: nat, h: Graph) {
    && m in g && parent in g && parent != m && k < |g[parent].subregions| && g[parent].subregions[k] == m
    && h.Keys == g.Keys && (forall x :: x in g && x != m && x != parent ==> h[x] == g[x])
    && var rest, priority := g[parent].subregions[..k] + g[parent].subregions[k + 1..],
                             if g[m].mayOverlap then g[m].priority else 0;
    && pos <= |rest| && (forall i :: 0 <= i < pos ==> rest[i] in g && priority < g[rest[i]].priority)
    && (pos < |rest| ==> rest[pos] in g && g[rest[pos]].priority <= priority)
    && h[m] == g[m].(addr := addr, priority := priority)
    && h[parent] == g[parent].(subregions := rest[..pos] + [m] + rest[pos..])
  }

  lemma ReinsertIs(g: Graph, parent: MrId, m: MrId, addr: int, k: nat, mid: Graph, pos: nat, h: Graph)
    requires SubregionRemoved(g, parent, m, k, mid) && g[m].parent == Some(parent)
    requires var priority := if g[m].mayOverlap then g[m].priority else 0;
             SubregionAdded(mid, parent, m, addr, priority, g[m].mayOverlap, pos, h) &&
             (forall i :: 0 <= i < |mid[parent].subregions| ==> mid[parent].subregions[i] in mid) &&
             InPlace(mid, mid[parent].subregions, priority, pos) && m !in mid[parent].subregions
    requires parent !in mid[parent].subregions
    ensures ReinsertedAt(g, parent, m, addr, k, pos, h)
  {
    var rest := mid[parent].subregions;
    forall i | 0 <= i < |rest| ensures rest[i] in g && mid[rest[i]] == g[rest[i]] {
      assert rest[i] in rest;
    }
  }

  /** Neither the parent nor a region without a parent is among the subregions. */
  lemma NotAmongOwn(g: Graph, rank: map<MrId, nat>, parent: MrId, m: MrId)
    requires Ranked(g, rank) && Linked(g) && parent in g && m in g && g[m].parent.None?
    ensures m !in g[parent].subregions && parent !in g[parent].subregions
    ensures forall i :: 0 <= i < |g[parent].subregions| ==> g[parent].subregions[i] in g
  {
    assert ChildrenOk(g, parent, g[parent].subregions);
  }

  ghost predicate Reinserted(g: Graph, parent: MrId, m: MrId, addr: int, h: Graph) {
    exists k: nat, pos: nat :: ReinsertedAt(g, parent, m, addr, k, pos, h)
  }

  /** The regions, address spaces and transaction state of the machine. */
  class MemoryModel {
    var g: Graph
    ghost var rank: map<MrId, nat>
    var spaces: seq<AddressSpace>
    var depth: nat
    var pending: bool
    var aborted: bool

    ghost predicate Valid()
      reads this
    {
      Ranked(g, rank) && Linked(g) && (depth == 0 ==> !pending) && SpacesOk(spaces, g)
    }

    /** Every address space shows exactly its current tree. */
    ghost predicate UpToDate()
      reads this`g, this`rank, this`spaces
      requires Ranked(g, rank)
    {
      AllShown(spaces, g, rank)
    }

    /** Whatever is out of date is flagged. */
    ghost predicate Synced()
      reads this`g, this`rank, this`spaces, this`pending
      requires Ranked(g, rank)
    {
      !pending ==> UpToDate()
    }

    ghost predicate IsRoot(m: MrId)
      reads this`spaces
    {
      m in Roots(spaces)
    }

    twostate predicate SameRoots()
      reads this
    {
      Roots(spaces) == old(Roots(spaces))
    }

    /** Rendering some address space stops the program. */
    ghost predicate SomeStops()
      reads this`g, this`rank, this`spaces
      requires Ranked(g, rank)
    {
      AnyStops(Roots(spaces), g, rank)
    }

    /**
     Inside a transaction the flag went up exactly if `trigger` and no view changed. Outside, the views were
     rendered exactly if `trigger`, and that stopped the program exactly if rendering some address space does.
     */
    twostate predicate Flagged(trigger: bool)
      reads this
      requires Valid()
    {
      if old(depth) > 0 then pending == (old(pending) || trigger) && spaces == old(spaces) && aborted == old(aborted)
      else
        && (!trigger && !old(pending) ==> spaces == old(spaces))
        && aborted == (old(aborted) || ((trigger || old(pending)) && SomeStops()))
    }

    constructor ()
      ensures Valid() && Synced() && depth == 0 && g == map[] && spaces == [] && !aborted
    {
      g, rank, spaces, depth, pending, aborted := map[], map[], [], 0, false, false;
    }

    method TransactionBegin()
      requires Valid()
      modifies this`depth
      ensures depth == old(depth) + 1 && Valid() && (Synced() <==> old(Synced()))
    {
      depth := depth + 1;
    }

    /**
     Leaves the transaction; the outermost one brings every view and every listener up to date, and stops the
     program exactly if rendering some address space does. What is said of the views then is what a program that
     went on would have.
     */
    method TransactionCommit()
      requires depth > 0 && Valid()
      modifies this`depth, this`pending, this`spaces, this`aborted
      ensures depth == old(depth) - 1 && Valid() && SameRoots()
      ensures old(Synced()) ==> Synced()
      ensures depth == 0 && old(pending) ==> UpToDate()
      ensures !(depth == 0 && old(pending)) ==> spaces == old(spaces) && pending == old(pending)
      ensures aborted == (old(aborted) || (depth == 0 && old(pending) && SomeStops()))
    {
      depth := depth - 1;
      if depth == 0 && pending {
        pending := false;
        var updated, stops := UpdateAll();
        spaces, aborted := updated, aborted || stops;
      }
    }

    /** Brings every address space up to date. */
    method UpdateAll() returns (updated: seq<AddressSpace>, stops: bool)
      requires Ranked(g, rank) && SpacesOk(spaces, g)
      ensures Roots(updated) == Roots(spaces) && SpacesOk(updated, g) && AllShown(updated, g, rank)
      ensures stops <==> AnyStops(Roots(spaces), g, rank)
    {
      updated, stops := [], false;
      for i := 0 to |spaces|
        invariant Roots(updated) == Roots(spaces)[..i] && SpacesOk(updated, g) && AllShown(updated, g, rank)
        invariant stops <==> AnyStops(Roots(spaces)[..i], g, rank)
      {
        assert SpaceOk(spaces[i], g);
        var after, overflow, events := UpdateTopology(spaces[i]);
        AnyStopsStep(Roots(spaces), i, g, rank);
        AddUpdated(updated, after, g, rank);
        updated, stops := updated + [after], stops || overflow;
      }
    }

    /**
     Renders the new view, which may stop the program, and sends its difference to the listener: first what goes,
     then what comes or stays, so that the listener never holds ranges that overlap.
     */
    method UpdateTopology(before: AddressSpace) returns (after: AddressSpace, overflow: bool, events: seq<Event>)
      requires Ranked(g, rank) && SpaceOk(before, g)
      ensures after.root == before.root && SpaceOk(after, g) && Shown(after, g, rank)
      ensures overflow <==> Overflows(g, rank, before.root)
      ensures after.mirror == Replay(before.mirror, events) && Reported(events) == after.view
      ensures forall n :: 0 <= n <= |events| ==> PairwiseDisjoint(Replay(before.mirror, events[..n]))
    {
      var view;
      view, overflow := GenerateTopology(g, rank, before.root);
      var dels := Pass(before.view, view, false);
      var adds := Pass(before.view, view, true);
      DiffReplays(before.view, view);
      events := dels + adds;
      after := AddressSpace(before.root, view, Replay(before.mirror, events));
      ReportedConcat(dels, adds);
      DelsReportNothing(before.view, view);
      forall n | 0 <= n <= |events| ensures PairwiseDisjoint(Replay(before.mirror, events[..n])) {
        DiffKeepsDisjoint(before.view, view, n);
      }
    }

    lemma AddUpdated(updated: seq<AddressSpace>, after: AddressSpace, g: Graph, rank: map<MrId, nat>)
      requires Ranked(g, rank) && SpacesOk(updated, g) && AllShown(updated, g, rank)
      requires SpaceOk(after, g) && Shown(after, g, rank)
      ensures SpacesOk(updated + [after], g) && AllShown(updated + [after], g, rank)
      ensures Roots(updated + [after]) == Roots(updated) + [after.root]
    {
      var all := updated + [after];
      forall i {:trigger SpaceOk(all[i], g)} | 0 <= i < |all| ensures SpaceOk(all[i], g) {
        assert i < |updated| ==> SpaceOk(updated[i], g);
      }
      forall i {:trigger Shown(all[i], g, rank)} | 0 <= i < |all| ensures Shown(all[i], g, rank) {
        assert i < |updated| ==> Shown(updated[i], g, rank);
      }
    }

    /** An enabled root that is moved to another address. */
    ghost predicate RootMoved(m: MrId, addr: int)
      reads this`g, this`spaces
    {
      m in g && IsRoot(m) && g[m].enabled && g[m].addr != addr
    }

    /** No address space shows the difference between the current graph and `h`. */
    ghost predicate Quiet(h: Graph)
      reads this`g, this`spaces
    {
      SameShowAll(g, h) && forall m {:trigger RootMoved(m, h[m].addr)} :: IsRoot(m) && m in g ==>
                             m in h && !RootMoved(m, h[m].addr)
    }

    /** Replaces the graph inside a transaction, raising the pending flag if `trigger`. */
    method Update(h: Graph, ghost rank2: map<MrId, nat>, trigger: bool, ghost quiet: bool)
      requires Valid() && Ranked(h, rank2) && Linked(h) && g.Keys <= h.Keys
      requires quiet ==> Quiet(h)
      modifies this
      ensures Valid() && SameRoots() && g == h && rank == rank2 && depth == old(depth)
      ensures old(Synced()) && (trigger || quiet) ==> Synced()
      ensures depth == 0 && trigger ==> UpToDate()
      ensures Flagged(trigger)
    {
      TransactionBegin();
      Change(h, rank2, trigger, quiet);
      TransactionCommit();
    }

    method Change(h: Graph, ghost rank2: map<MrId, nat>, trigger: bool, ghost quiet: bool)
      requires Valid() && Ranked(h, rank2) && Linked(h) && g.Keys <= h.Keys && depth > 0
      requires quiet ==> Quiet(h)
      modifies this`g, this`rank, this`pending
      ensures Valid() && g == h && rank == rank2 && pending == (old(pending) || trigger)
      ensures old(Synced()) && (trigger || quiet) ==> Synced()
    {
      Adopt(h, rank2, quiet);
      pending := pending || trigger;
    }

    lemma QuietKeepsViews(h: Graph, rank2: map<MrId, nat>)
      requires Valid() && Ranked(h, rank2) && g.Keys <= h.Keys
      requires Quiet(h) && UpToDate()
      ensures AllShown(spaces, h, rank2)
    {
      forall i {:trigger Shown(spaces[i], h, rank2)} | 0 <= i < |spaces| ensures Shown(spaces[i], h, rank2) {
        assert Shown(spaces[i], g, rank) && Roots(spaces)[i] in Roots(spaces);
        assert !RootMoved(spaces[i].root, h[spaces[i].root].addr);
        ViewSurvives(spaces[i].view, g, rank, h, rank2, spaces[i].root);
      }
    }

    /** Replaces the attributes of region `m`, keeping its place in the graph. */
    method Edit(m: MrId, r: MemoryRegion, trigger: bool)
      requires Valid() && m in g && SamePlace(g[m], r) && r.addr == g[m].addr
      requires trigger || (!g[m].enabled && !r.enabled)
      modifies this
      ensures Valid() && SameRoots() && g == old(g)[m := r] && rank == old(rank) && depth == old(depth)
      ensures old(Synced()) ==> Synced()
      ensures depth == 0 && trigger ==> UpToDate()
      ensures Flagged(trigger)
    {
      EditStructure(g, rank, m, r);
      if !trigger { QuietEdit(g, m, r); }
      Update(g[m := r], rank, trigger, !trigger);
    }

    method SetEnabled(m: MrId, enabled: bool)
      requires Valid() && m in g
      modifies this
      ensures Valid() && SameRoots() && g == old(g)[m := old(g)[m].(enabled := enabled)] && depth == old(depth)
      ensures old(Synced()) ==> Synced()
      ensures Flagged(enabled != old(g)[m].enabled)
    {
      if enabled == g[m].enabled {
        assert g[m := g[m].(enabled := enabled)] == g;
        return;
      }
      Edit(m, g[m].(enabled := enabled), true);
    }

    method SetReadonly(m: MrId, readonly: bool)
      requires Valid() && m in g
      modifies this
      ensures Valid() && SameRoots() && g == old(g)[m := old(g)[m].(readonly := readonly)] && depth == old(depth)
      ensures old(Synced()) ==> Synced()
      ensures Flagged(readonly != old(g)[m].readonly && old(g)[m].enabled)
    {
      if readonly == g[m].readonly {
        assert g[m := g[m].(readonly := readonly)] == g;
        return;
      }
      Edit(m, g[m].(readonly := readonly), g[m].enabled);
    }

    method SetRomd(m: MrId, romd: bool)
      requires Valid() && m in g
      modifies this
      ensures Valid() && SameRoots() && g == old(g)[m := old(g)[m].(romd := romd)] && depth == old(depth)
      ensures old(Synced()) ==> Synced()
      ensures Flagged(romd != old(g)[m].romd && old(g)[m].enabled)
    {
      if romd == g[m].romd {
        assert g[m := g[m].(romd := romd)] == g;
        return;
      }
      Edit(m, g[m].(romd := romd), g[m].enabled);
    }

    method SetLog(m: MrId, log: bool, client: nat)
      requires Valid() && m in g && client < 8
      modifies this
      ensures Valid() && SameRoots() && g == old(g)[m := old(g)[m].(logMask := WithLog(old(g)[m].logMask, log, client))]
      ensures depth == old(depth) && (old(Synced()) ==> Synced()) && Flagged(old(g)[m].enabled)
    {
      Edit(m, g[m].(logMask := WithLog(g[m].logMask, log, client)), g[m].enabled);
    }

    method SetAliasOffset(m: MrId, offset: int)
      requires Valid() && m in g && g[m].alias.Some?
      modifies this
      ensures Valid() && SameRoots() && g == old(g)[m := old(g)[m].(aliasOffset := offset)] && depth == old(depth)
      ensures old(Synced()) ==> Synced()
      ensures Flagged(offset != old(g)[m].aliasOffset && old(g)[m].enabled)
    {
      if offset == g[m].aliasOffset {
        assert g[m := g[m].(aliasOffset := offset)] == g;
        return;
      }
      Edit(m, g[m].(aliasOffset := offset), g[m].enabled);
    }

    /** Initialises region `m`; it has no parent and no subregions yet. */
    method InitRegion(m: MrId, r: MemoryRegion)
      requires Valid() && m !in g && r.size >= 0 && r.parent.None? && r.subregions == []
      requires r.alias.Some? ==> r.alias.value in g
      modifies this
      ensures Valid() && g == old(g)[m := r] && spaces == old(spaces) && depth == old(depth)
      ensures old(Synced()) ==> Synced()
    {
      ghost var rank2 := rank[m := if r.alias.Some? then rank[r.alias.value] + 1 else 0];
      InitStructure(g, rank, m, r);
      Adopt(g[m := r], rank2, true);
    }

    /** Replaces the graph outside any transaction; nothing is flagged, so it had better be quiet. */
    method Adopt(h: Graph, ghost rank2: map<MrId, nat>, ghost quiet: bool)
      requires Valid() && Ranked(h, rank2) && Linked(h) && g.Keys <= h.Keys && (quiet ==> Quiet(h))
      modifies this`g, this`rank
      ensures Valid() && g == h && rank == rank2
      ensures old(Synced()) && quiet ==> Synced()
    {
      if quiet && UpToDate() { QuietKeepsViews(h, rank2); }
      SpacesStay(spaces, g, h);
      g, rank := h, rank2;
    }

    /** Registers an address space, whose view starts out empty. */
    method InitAddressSpace(root: MrId)
      requires Valid() && root in g
      modifies this
      ensures Valid() && g == old(g) && depth == old(depth) && Roots(spaces) == old(Roots(spaces)) + [root]
      ensures old(Synced()) ==> Synced()
      ensures depth > 0 ==> pending == (old(pending) || g[root].enabled) && aborted == old(aborted)
      ensures depth == 0 ==> aborted == (old(aborted) || (g[root].enabled && SomeStops()))
    {
      TransactionBegin();
      AddEmpty(root);
      spaces := spaces + [AddressSpace(root, [], map[])];
      pending := pending || g[root].enabled;
      TransactionCommit();
    }

    /** An empty view is right for a root that is disabled. */
    lemma AddEmpty(root: MrId)
      requires Valid() && root in g
      ensures var all := spaces + [AddressSpace(root, [], map[])];
              && SpacesOk(all, g) && Roots(all) == Roots(spaces) + [root]
              && (UpToDate() && !g[root].enabled ==> AllShown(all, g, rank))
    {
      var s := AddressSpace(root, [], map[]);
      var all := spaces + [s];
      assert SpaceOk(s, g);
      forall i {:trigger SpaceOk(all[i], g)} | 0 <= i < |all| ensures SpaceOk(all[i], g) {
        assert i < |spaces| ==> SpaceOk(spaces[i], g);
      }
      if UpToDate() && !g[root].enabled {
        forall i {:trigger Shown(all[i], g, rank)} | 0 <= i < |all| ensures Shown(all[i], g, rank) {
          assert i < |spaces| ==> Shown(spaces[i], g, rank);
        }
      }
    }

    /** The place of a new subregion: before the first one whose priority is not higher. */
    method FindPosition(subs: seq<MrId>, priority: int) returns (pos: nat)
      requires forall i :: 0 <= i < |subs| ==> subs[i] in g
      ensures InPlace(g, subs, priority, pos)
    {
      pos := 0;
      while pos < |subs| && priority < g[subs[pos]].priority
        invariant pos <= |subs| && forall k :: 0 <= k < pos ==> priority < g[subs[k]].priority
      {
        pos := pos + 1;
      }
    }

    /**
     Adds subregion `s` to `m` at `offset`. The views stay right or flagged unless `s` is itself
     an enabled root that moves and nothing raises the flag.
     */
    method AddSubregion(m: MrId, offset: int, s: MrId, priority: int, overlap: bool, ghost rank2: map<MrId, nat>)
      returns (pos: nat)
      requires Valid() && m in g && s in g && s != m && g[s].parent.None?
      requires Ranked(g, rank2) && rank2[s] < rank2[m]
      modifies this
      ensures Valid() && SameRoots() && depth == old(depth) && rank == rank2
      ensures InPlace(old(g), old(g)[m].subregions, priority, pos)
      ensures Flagged(old(g)[m].enabled && old(g)[s].enabled)
      ensures SubregionAdded(old(g), m, s, offset, priority, overlap, pos, g)
      ensures old(Synced()) && (old(g[m].enabled && g[s].enabled) || !old(RootMoved(s, offset))) ==> Synced()
    {
      var placed := Placed(g[s], offset, priority, overlap);
      assert ChildrenOk(g, m, g[m].subregions);
      pos := FindPosition(g[m].subregions, priority);
      AttachIs(g, m, s, offset, priority, overlap, pos);
      LinkedAttach(g, m, s, placed, pos);
      InsertedRanked(g, rank2, m, s, placed, pos);
      ghost var quiet := (!g[m].enabled || !g[s].enabled) && !RootMoved(s, offset);
      if quiet { AttachUnseen(m, s, placed, pos); }
      Update(Attach(g, m, s, placed, pos), rank2, g[m].enabled && g[s].enabled, quiet);
    }

    lemma AttachUnseen(m: MrId, s: MrId, placed: MemoryRegion, pos: nat)
      requires Valid() && m in g && s in g && s != m && pos <= |g[m].subregions| && g[s].parent.None?
      requires (!g[m].enabled || !g[s].enabled) && !RootMoved(s, placed.addr)
      requires placed == Placed(g[s], placed.addr, placed.priority, placed.mayOverlap)
      ensures Quiet(Attach(g, m, s, placed, pos))
    {
      QuietAttach(g, m, s, placed, pos);
    }

    method DelSubregion(m: MrId, s: MrId) returns (ghost k: nat)
      requires Valid() && m in g && s in g && g[s].parent == Some(m)
      modifies this
      ensures Valid() && SameRoots() && depth == old(depth) && rank == old(rank)
      ensures Flagged(old(g)[m].enabled && old(g)[s].enabled) && s != m && rank[s] < rank[m]
      ensures SubregionRemoved(old(g), m, s, k, g)
      ensures old(Synced()) ==> Synced()
    {
      assert ParentOk(g, s);
      var i: nat :| i < |g[m].subregions| && g[m].subregions[i] == s;
      k := i;
      assert rank[s] < rank[m];
      DetachIs(g, m, s, i);
      DetachStructure(g, rank, m, s, i);
      ghost var quiet := !g[m].enabled || !g[s].enabled;
      if quiet { DetachUnseen(m, s, i); }
      Update(Detach(g, m, s, i), rank, g[m].enabled && g[s].enabled, quiet);
    }

    lemma DetachUnseen(m: MrId, s: MrId, k: nat)
      requires Valid() && m in g && s in g && s != m && k < |g[m].subregions| && g[m].subregions[k] == s
      requires !g[m].enabled || !g[s].enabled
      ensures Quiet(Detach(g, m, s, k))
    {
      QuietDetach(g, m, s, k);
    }

    /** Moves a region in place. Views stay right unless it is an enabled root; a view that is not empty goes stale. */
    method MoveInPlace(m: MrId, addr: int)
      requires Valid() && m in g && (addr == g[m].addr || g[m].parent.None?)
      modifies this`g, this`rank
      ensures Valid() && g == old(g)[m := old(g)[m].(addr := addr)]
      ensures old(Synced()) && !old(RootMoved(m, addr)) ==> Synced()
      ensures old(UpToDate()) && !pending && ShowsAt(m) && addr != old(g)[m].addr >= 0 && addr >= 0 ==> !Synced()
    {
      MoveStructure(g, rank, m, addr);
      ghost var h := g[m := g[m].(addr := addr)];
      if UpToDate() && addr != g[m].addr && ShowsAt(m) && 0 <= g[m].addr && 0 <= addr { MovedIsStale(m, h); }
      Adopt(g[m := g[m].(addr := addr)], rank, !RootMoved(m, addr));
    }

    /** Region `m` is the root of an address space whose view is not empty. */
    ghost predicate ShowsAt(m: MrId)
      reads this
    {
      exists i :: 0 <= i < |spaces| && spaces[i].root == m && spaces[i].view != []
    }

    lemma MovedIsStale(m: MrId, h: Graph)
      requires Valid() && UpToDate() && Ranked(h, rank) && SameShowAll(g, h) && m in g && m in h
      requires h[m].addr != g[m].addr && ShowsAt(m) && 0 <= g[m].addr && 0 <= h[m].addr
      ensures !AllShown(spaces, h, rank)
    {
      var i :| 0 <= i < |spaces| && spaces[i].root == m && spaces[i].view != [];
      assert Shown(spaces[i], g, rank);
      MovedRootIsStale(spaces[i].view, g, rank, h, rank, m);
      assert !Shown(spaces[i], h, rank);
    }

    /** Moves a region: without a parent at once, otherwise by removing it and adding it again. */
    method SetAddress(m: MrId, addr: int)
      requires Valid() && m in g
      modifies this
      ensures Valid() && SameRoots() && depth == old(depth)
      ensures if addr == old(g)[m].addr || old(g)[m].parent.None? then g == old(g)[m := old(g)[m].(addr := addr)]
              else Reinserted(old(g), old(g)[m].parent.value, m, addr, g)
      ensures m in g && g[m].addr == addr && g[m].parent == old(g)[m].parent && g[m].enabled == old(g)[m].enabled
      ensures old(Synced()) && (MoveFlags(old(g), m, addr) || !old(RootMoved(m, addr))) ==> Synced()
      ensures old(g)[m].parent.None? && addr != old(g)[m].addr && 0 <= old(g)[m].addr && 0 <= addr ==>
                old(UpToDate()) && !old(pending) && old(ShowsAt(m)) ==> !Synced()
      ensures Flagged(MoveFlags(old(g), m, addr))
    {
      if addr == g[m].addr || g[m].parent.None? {
        MoveInPlace(m, addr);
      } else {
        MoveBelow(m, addr);
      }
    }

    /** Moves a region that has a parent. */
    method MoveBelow(m: MrId, addr: int)
      requires Valid() && m in g && g[m].parent.Some? && addr != g[m].addr
      modifies this
      ensures Valid() && SameRoots() && depth == old(depth)
      ensures Reinserted(old(g), old(g)[m].parent.value, m, addr, g)
      ensures m in g && g[m].addr == addr && g[m].parent == old(g)[m].parent && g[m].enabled == old(g)[m].enabled
      ensures old(Synced()) && (MoveFlags(old(g), m, addr) || !old(RootMoved(m, addr))) ==> Synced()
      ensures Flagged(MoveFlags(old(g), m, addr))
    {
      assert ParentOk(g, m);
      ghost var parent := g[m].parent.value;
      ghost var k, pos := Replace(g[m].parent.value, m, addr);
      assert Reinserted(old(g), parent, m, addr, g);
    }

    method Replace(parent: MrId, m: MrId, addr: int) returns (ghost k: nat, ghost pos: nat)
      requires Valid() && m in g && parent in g && g[m].parent == Some(parent)
      modifies this
      ensures Valid() && SameRoots() && depth == old(depth) && ReinsertedAt(old(g), parent, m, addr, k, pos, g)
      ensures old(Synced()) && (old(g[parent].enabled && g[m].enabled) || !old(RootMoved(m, addr))) ==> Synced()
      ensures Flagged(old(g)[parent].enabled && old(g)[m].enabled)
    {
      TransactionBegin();
      k, pos := Reinsert(parent, m, addr);
      TransactionCommit();
    }

    /** Removes a region from its parent and adds it again at `addr`, with its priority. */
    method Reinsert(parent: MrId, m: MrId, addr: int) returns (ghost k: nat, ghost pos: nat)
      requires Valid() && m in g && parent in g && g[m].parent == Some(parent) && depth > 0
      modifies this
      ensures Valid() && SameRoots() && depth == old(depth) && ReinsertedAt(old(g), parent, m, addr, k, pos, g)
      ensures old(Synced()) && (old(g[parent].enabled && g[m].enabled) || !old(RootMoved(m, addr))) ==> Synced()
      ensures pending == (old(pending) || (old(g)[parent].enabled && old(g)[m].enabled))
      ensures spaces == old(spaces) && aborted == old(aborted)
    {
      var priority, overlap := g[m].priority, g[m].mayOverlap;
      ghost var moved := RootMoved(m, addr);
      k := DelSubregion(parent, m);
      assert RootMoved(m, addr) ==> moved;
      ghost var mid := g;
      NotAmongOwn(mid, rank, parent, m);
      pos := AddSubregion(parent, addr, m, if overlap then priority else 0, overlap, rank);
      ReinsertIs(old(g), parent, m, addr, k, mid, pos, g);
    }
  }

  /** Moving the region raises the flag: it is reinserted, and it and its parent are enabled. */
  predicate MoveFlags(g: Graph, m: MrId, addr: int)
    requires m in g
  {
    addr != g[m].addr && g[m].parent.Some? && g[m].enabled && g[m].parent.value in g && g[g[m].parent.value].enabled
  }

  lemma MoveStructure(g: Graph, rank: map<MrId, nat>, m: MrId, addr: int)
    requires Ranked(g, rank) && Linked(g) && m in g && (g[m].parent.None? || addr == g[m].addr)
    ensures var h := g[m := g[m].(addr := addr)]; Ranked(h, rank) && Linked(h) && SameShowAll(g, h)
  {
    var h := g[m := g[m].(addr := addr)];
    EditStructure(g, rank, m, g[m].(addr := addr));
    if g[m].parent.None? {
      QuietMove(g, m, addr);
    } else {
      assert h == g;
      LinkedClosed(g);
    }
  }

  lemma InsertedRanked(g: Graph, rank: map<MrId, nat>, m: MrId, s: MrId, r: MemoryRegion, pos: nat)
    requires Ranked(g, rank) && m in g && s in g && s != m && pos <= |g[m].subregions| && rank[s] < rank[m]
    requires r.alias == g[s].alias && r.size == g[s].size && r.subregions == g[s].subregions
    ensures Ranked(Attach(g, m, s, r, pos), rank)
  {
    var h := Attach(g, m, s, r, pos);
    forall x | x in h ensures h[x].size >= 0 && h[x].alias == g[x].alias {}
    forall x, i | x in h && 0 <= i < |h[x].subregions|
      ensures h[x].subregions[i] in h && rank[h[x].subregions[i]] < rank[x]
    {
      if x == m {
        assert i < pos ==> h[m].subregions[i] == g[m].subregions[i];
        assert i > pos ==> h[m].subregions[i] == g[m].subregions[i - 1];
      } else {
        assert h[x].subregions == g[x].subregions;
      }
    }
  }

  function Placed(r: MemoryRegion, offset: int, priority: int, overlap: bool): MemoryRegion {
    r.(addr := offset, priority := priority, mayOverlap := overlap)
  }

  lemma DetachRanked(g: Graph, rank: map<MrId, nat>, m: MrId, s: MrId, k: nat)
    requires Ranked(g, rank) && m in g && s in g && s != m && k < |g[m].subregions|
    ensures Ranked(Detach(g, m, s, k), rank)
  {
  }

  lemma DetachStructure(g: Graph, rank: map<MrId, nat>, m: MrId, s: MrId, k: nat)
    requires Ranked(g, rank) && Linked(g) && m in g && s in g && s != m
    requires k < |g[m].subregions| && g[m].subregions[k] == s
    ensures var h := Detach(g, m, s, k); Ranked(h, rank) && Linked(h) && h.Keys == g.Keys
  {
    LinkedDetach(g, m, s, k);
    DetachRanked(g, rank, m, s, k);
  }

  lemma InitStructure(g: Graph, rank: map<MrId, nat>, m: MrId, r: MemoryRegion)
    requires Ranked(g, rank) && Linked(g) && m !in g && r.size >= 0 && r.parent.None? && r.subregions == []
    requires r.alias.Some? ==> r.alias.value in g
    ensures Linked(g[m := r]) && SameShowAll(g, g[m := r])
    ensures Ranked(g[m := r], rank[m := if r.alias.Some? then rank[r.alias.value] + 1 else 0])
  {
    var h := g[m := r];
    LinkedClosed(g);
    forall x | x in h ensures ChildrenOk(h, x, h[x].subregions) && ParentOk(h, x) {
      if x != m { assert ChildrenOk(g, x, g[x].subregions) && ParentOk(g, x); }
    }
    forall x | x in g ensures SameShow(g, h, x) {
      LiveSame(g, h, g[x].subregions);
    }
  }

  predicate SamePlace(r: MemoryRegion, q: MemoryRegion) {
    && q.subregions == r.subregions && q.parent == r.parent && q.alias == r.alias
    && q.priority == r.priority && q.size == r.size
  }

  /** Client `client` of the dirty log switched on or off. */
  function WithLog(mask: bv8, log: bool, client: nat): (r: bv8)
    requires client < 8
  {
    var bit: bv8 := 1 << client;
    if log then mask | bit else mask & !bit
  }

  /** Client `i` logs. */
  predicate Logs(mask: bv8, i: nat)
    requires i < 8
  {
    mask & (1 << i) != 0
  }

  /** Logging is switched for one client and stays as it is for the others. */
  lemma WithLogSwitches(mask: bv8, log: bool, client: nat, i: nat)
    requires client < 8 && i < 8
    ensures Logs(WithLog(mask, log, client), i) == if i == client then log else Logs(mask, i)
  {
    assert client in {0, 1, 2, 3, 4, 5, 6, 7} && i in {0, 1, 2, 3, 4, 5, 6, 7};
  }

  lemma EditStructure(g: Graph, rank: map<MrId, nat>, m: MrId, r: MemoryRegion)
    requires Ranked(g, rank) && Linked(g) && m in g && SamePlace(g[m], r)
    ensures Ranked(g[m := r], rank) && Linked(g[m := r])
  {
    var h := g[m := r];
    forall x | x in h ensures ChildrenOk(h, x, h[x].subregions) && ParentOk(h, x) {
      assert ChildrenOk(g, x, g[x].subregions) && ParentOk(g, x);
    }
  }

  /** Resolution is relative: moving a region moves what it maps and changes nothing else. */
  lemma {:induction false} ResolveShift(g: Graph, rank: map<MrId, nat>, m: MrId, start: int, ro: bool, a: int, d: int)
    requires Ranked(g, rank) && m in g
    ensures ResolveAt(g, rank, m, start + d, ro, a + d) == ResolveAt(g, rank, m, start, ro, a)
    decreases rank[m] + 1, 0
  {
    var r := g[m];
    if r.enabled && start <= a < start + r.size {
      if r.alias.Some? {
        ResolveShift(g, rank, r.alias.value, start - r.aliasOffset, ro || r.readonly, a, d);
      } else {
        FirstShift(g, rank, rank[m], r.subregions, start, ro || r.readonly, a, d);
      }
    }
  }

  lemma {:induction false} FirstShift(g: Graph, rank: map<MrId, nat>, bound: nat, subs: seq<MrId>,
                                      start: int, ro: bool, a: int, d: int)
    requires Ranked(g, rank)
    requires forall i :: 0 <= i < |subs| ==> subs[i] in g && rank[subs[i]] < bound
    ensures ResolveFirst(g, rank, bound, subs, start + d, ro, a + d) == ResolveFirst(g, rank, bound, subs, start, ro, a)
    decreases bound, |subs| + 1
  {
    if subs != [] {
      ResolveShift(g, rank, subs[0], start + g[subs[0]].addr, ro, a, d);
      FirstShift(g, rank, bound, subs[1..], start, ro, a, d);
    }
  }

  /** A RAM region of 16 bytes that is the root of an address space, at address `addr`. */
  function LoneRoot(addr: int): Graph {
    map[0 := MemoryRegion(addr, 16, true, true, false, true, 0, None, 0, [], None, 0, false)]
  }

  lemma LoneResolve(g: Graph, rank: map<MrId, nat>, addr: int, a: int)
    requires g == LoneRoot(addr) && rank == map[0 := 0]
    ensures Ranked(g, rank)
    ensures ResolveAt(g, rank, 0, addr, false, a) ==
            if addr <= a < addr + 16 then Some(Target(0, a - addr, 0, true, false)) else None
  {
    var r := g[0];
    assert ResolveFirst(g, rank, rank[0], r.subregions, addr, false, a) == None;
  }

  lemma LoneView(v: seq<FlatRange>, g: Graph, rank: map<MrId, nat>, addr: int)
    requires g == LoneRoot(addr) && rank == map[0 := 0] && 0 <= addr && addr + 16 <= TWO_64
    requires v == [FlatRange(0, 0, AddrRange(addr, 16), 0, true, false)]
    ensures Ranked(g, rank) && IsFlatViewOf(v, g, rank, 0)
  {
    LoneResolve(g, rank, addr, 0);
    forall a ensures Lookup(v, a) == if 0 <= a < TWO_64 then ResolveAt(g, rank, 0, addr, false, a) else None {
      LoneResolve(g, rank, addr, a);
      assert v[1..] == [];
    }
  }

  /** Moving such a root anywhere without an update leaves a view that is no longer its view. */
  lemma StaleRootExample(v: seq<FlatRange>, rank: map<MrId, nat>, from: int, to: int)
    requires 0 <= from && from + 16 <= TWO_64 && from != to && rank == map[0 := 0]
    requires v == [FlatRange(0, 0, AddrRange(from, 16), 0, true, false)]
    ensures Ranked(LoneRoot(from), rank) && IsFlatViewOf(v, LoneRoot(from), rank, 0)
    ensures Ranked(LoneRoot(to), rank) && !IsFlatViewOf(v, LoneRoot(to), rank, 0)
  {
    LoneView(v, LoneRoot(from), rank, from);
    LoneResolve(LoneRoot(to), rank, to, from);
    assert Lookup(v, from) == Some(Target(0, 0, 0, true, false));
  }

  /** Nothing of the region, placed at `start`, is in the address space. */
  ghost predicate ShowsNothing(g: Graph, rank: map<MrId, nat>, m: MrId, start: int)
    requires Ranked(g, rank) && m in g
  {
    forall a {:trigger ResolveAt(g, rank, m, start, false, a)} :: 0 <= a < TWO_64 ==>
      ResolveAt(g, rank, m, start, false, a).None?
  }

  /** An empty view stays right exactly when the root shows nothing at its new place either. */
  lemma EmptyRootMoved(g: Graph, r1: map<MrId, nat>, h: Graph, r2: map<MrId, nat>, m: MrId)
    requires Ranked(g, r1) && Ranked(h, r2) && SameShowAll(g, h) && m in g && m in h
    ensures IsFlatViewOf([], h, r2, m) <==> ShowsNothing(g, r1, m, h[m].addr)
  {
    forall a ensures ResolveAt(h, r2, m, h[m].addr, false, a) == ResolveAt(g, r1, m, h[m].addr, false, a) {
      SameShowResolves(g, r1, h, r2, m, h[m].addr, false, a);
    }
    if IsFlatViewOf([], h, r2, m) {
      forall a {:trigger ResolveAt(g, r1, m, h[m].addr, false, a)} | 0 <= a < TWO_64
        ensures ResolveAt(g, r1, m, h[m].addr, false, a).None?
      {
        assert Lookup([], a) == ResolveAt(h, r2, m, h[m].addr, false, a);
      }
    }
  }

  /**
   A change that shows nothing else, made without the pending flag, keeps the view of a root
   right exactly when it does not move that root, or the root showed nothing and shows nothing where it is now.
   */
  lemma MovedRootIsStale(v: seq<FlatRange>, g: Graph, r1: map<MrId, nat>, h: Graph, r2: map<MrId, nat>, m: MrId)
    requires Ranked(g, r1) && Ranked(h, r2) && SameShowAll(g, h) && m in g && 0 <= g[m].addr && 0 <= h[m].addr
    requires IsFlatViewOf(v, g, r1, m)
    ensures IsFlatViewOf(v, h, r2, m) <==> if v == [] then ShowsNothing(g, r1, m, h[m].addr) else h[m].addr == g[m].addr
  {
    if v == [] {
      EmptyRootMoved(g, r1, h, r2, m);
    } else if h[m].addr == g[m].addr {
      ViewSurvives(v, g, r1, h, r2, m);
    } else {
      NonEmptyRootMoved(v, g, r1, h, r2, m);
    }
  }

  /** The address before the first one mapped, or the first one, tells the two places apart. */
  lemma NonEmptyRootMoved(v: seq<FlatRange>, g: Graph, r1: map<MrId, nat>, h: Graph, r2: map<MrId, nat>, m: MrId)
    requires Ranked(g, r1) && Ranked(h, r2) && SameShowAll(g, h) && m in g && 0 <= g[m].addr && 0 <= h[m].addr
    requires IsFlatViewOf(v, g, r1, m) && v != [] && h[m].addr != g[m].addr
    ensures !IsFlatViewOf(v, h, r2, m)
  {
    var d, first := h[m].addr - g[m].addr, v[0].addr.start;
    FirstMappedExists(v);
    var probe := if d > 0 then first else first + d;
    SameShowResolves(g, r1, h, r2, m, h[m].addr, false, probe);
    ResolveShift(g, r1, m, g[m].addr, false, probe - d, d);
    if Lookup(v, first - Max(d, -d)).Some? { FirstMapped(v, first - Max(d, -d)); }
    assert Lookup(v, probe) != if 0 <= probe < TWO_64 then ResolveAt(h, r2, m, h[m].addr, false, probe) else None;
  }
}
