/**
 What an address reaches in the region graph, without recursion: a route of
 enabled regions that all hold the address, each placed in the one before it
 (memory.c).
 */
module Routes {
  import opened FlatViews
  import opened Rendering

  /** Region `r`, placed at `start`, is enabled and holds the address. */
  predicate Holds(g: Graph, r: MrId, start: int, a: int) {
    r in g && g[r].enabled && start <= a < start + g[r].size
  }

  /** A region at `from` leads to one at `to`: the target of an alias, or else a subregion. */
  predicate Hop(g: Graph, r: MrId, from: int, s: MrId, to: int) {
    && r in g && s in g
    && if g[r].alias.Some? then s == g[r].alias.value && to == from - g[r].aliasOffset
       else s in g[r].subregions && to == from + g[s].addr
  }

  predicate HopAt(g: Graph, regs: seq<MrId>, starts: seq<int>, k: int) {
    0 <= k < |regs| - 1 && |starts| == |regs| && Hop(g, regs[k], starts[k], regs[k + 1], starts[k + 1])
  }

  ghost predicate SomeReadonly(g: Graph, regs: seq<MrId>) {
    exists k :: 0 <= k < |regs| && regs[k] in g && g[regs[k]].readonly
  }

  /**
   The regions `regs`, placed at `starts`, lead address `a` to `t`: the last one terminates and gives the offset and
   the attributes, and the result is read-only if any of them is.
   */
  ghost predicate Route(g: Graph, regs: seq<MrId>, starts: seq<int>, ro: bool, a: int, t: Target) {
    && 0 < |regs| == |starts|
    && (forall k {:trigger Holds(g, regs[k], starts[k], a)} :: 0 <= k < |regs| ==> Holds(g, regs[k], starts[k], a))
    && (forall k {:trigger HopAt(g, regs, starts, k)} :: 0 <= k < |regs| - 1 ==> HopAt(g, regs, starts, k))
    && var last := regs[|regs| - 1];
    && last in g && g[last].terminates && g[last].alias.None?
    && t == Target(last, a - starts[|starts| - 1], g[last].logMask, g[last].romd, ro || SomeReadonly(g, regs))
  }

  lemma RouteOne(g: Graph, m: MrId, start: int, ro: bool, a: int)
    requires Holds(g, m, start, a) && g[m].terminates && g[m].alias.None?
    ensures Route(g, [m], [start], ro, a, Target(m, a - start, g[m].logMask, g[m].romd, ro || g[m].readonly))
  {
    assert [m][0] == m;
    assert g[m].readonly <==> SomeReadonly(g, [m]);
  }

  lemma RouteMore(g: Graph, m: MrId, start: int, regs: seq<MrId>, starts: seq<int>, ro: bool, a: int, t: Target)
    requires Holds(g, m, start, a) && Route(g, regs, starts, ro || g[m].readonly, a, t)
    requires Hop(g, m, start, regs[0], starts[0])
    ensures Route(g, [m] + regs, [start] + starts, ro, a, t)
  {
    var rs, ss := [m] + regs, [start] + starts;
    forall k {:trigger Holds(g, rs[k], ss[k], a)} | 0 <= k < |rs| ensures Holds(g, rs[k], ss[k], a) {
      if k > 0 { assert Holds(g, regs[k - 1], starts[k - 1], a); }
    }
    forall k {:trigger HopAt(g, rs, ss, k)} | 0 <= k < |rs| - 1 ensures HopAt(g, rs, ss, k) {
      if k > 0 { assert HopAt(g, regs, starts, k - 1); }
    }
    ReadonlyMore(g, m, regs);
  }

  lemma ReadonlyMore(g: Graph, m: MrId, regs: seq<MrId>)
    requires m in g
    ensures SomeReadonly(g, [m] + regs) <==> g[m].readonly || SomeReadonly(g, regs)
  {
    var rs := [m] + regs;
    if g[m].readonly { assert rs[0] == m; }
    if SomeReadonly(g, regs) {
      var k :| 0 <= k < |regs| && regs[k] in g && g[regs[k]].readonly;
      assert rs[k + 1] == regs[k];
    }
  }

  /** Whatever an address resolves to is at the end of a route. */
  lemma {:induction false} ResolvedHasRoute(g: Graph, rank: map<MrId, nat>, m: MrId, start: int, ro: bool, a: int)
    returns (regs: seq<MrId>, starts: seq<int>)
    requires Ranked(g, rank) && m in g && ResolveAt(g, rank, m, start, ro, a).Some?
    ensures Route(g, regs, starts, ro, a, ResolveAt(g, rank, m, start, ro, a).value)
    ensures regs[0] == m && starts[0] == start
    decreases rank[m] + 1, 0
  {
    var r, t := g[m], ResolveAt(g, rank, m, start, ro, a).value;
    if r.alias.Some? {
      var rs, ss := ResolvedHasRoute(g, rank, r.alias.value, start - r.aliasOffset, ro || r.readonly, a);
      RouteMore(g, m, start, rs, ss, ro, a, t);
      regs, starts := [m] + rs, [start] + ss;
    } else if ResolveFirst(g, rank, rank[m], r.subregions, start, ro || r.readonly, a).Some? {
      var rs, ss := FirstHasRoute(g, rank, rank[m], r.subregions, start, ro || r.readonly, a);
      RouteMore(g, m, start, rs, ss, ro, a, t);
      regs, starts := [m] + rs, [start] + ss;
    } else {
      RouteOne(g, m, start, ro, a);
      regs, starts := [m], [start];
    }
  }

  lemma {:induction false} FirstHasRoute(g: Graph, rank: map<MrId, nat>, bound: nat, subs: seq<MrId>, start: int,
                                         ro: bool, a: int)
    returns (regs: seq<MrId>, starts: seq<int>)
    requires Ranked(g, rank) && forall i :: 0 <= i < |subs| ==> subs[i] in g && rank[subs[i]] < bound
    requires ResolveFirst(g, rank, bound, subs, start, ro, a).Some?
    ensures Route(g, regs, starts, ro, a, ResolveFirst(g, rank, bound, subs, start, ro, a).value)
    ensures regs[0] in subs && starts[0] == start + g[regs[0]].addr
    decreases bound, |subs| + 1
  {
    if ResolveAt(g, rank, subs[0], start + g[subs[0]].addr, ro, a).Some? {
      regs, starts := ResolvedHasRoute(g, rank, subs[0], start + g[subs[0]].addr, ro, a);
    } else {
      regs, starts := FirstHasRoute(g, rank, bound, subs[1..], start, ro, a);
    }
  }

  /** Conversely, an address that some route leads on resolves to something. */
  lemma {:induction false} RouteResolves(g: Graph, rank: map<MrId, nat>, regs: seq<MrId>, starts: seq<int>, ro: bool,
                                         a: int, t: Target)
    requires Ranked(g, rank) && Route(g, regs, starts, ro, a, t)
    ensures regs[0] in g && ResolveAt(g, rank, regs[0], starts[0], ro, a).Some?
    decreases |regs|
  {
    var m, start := regs[0], starts[0];
    assert Holds(g, m, start, a);
    if |regs| > 1 {
      var rs, ss, ro' := regs[1..], starts[1..], ro || g[m].readonly;
      assert HopAt(g, regs, starts, 0);
      RouteTail(g, regs, starts, ro, a, t);
      RouteResolves(g, rank, rs, ss, ro', a, t);
      if g[m].alias.None? { FirstSome(g, rank, rank[m], g[m].subregions, start, ro', a, regs[1]); }
    }
  }

  lemma RouteTail(g: Graph, regs: seq<MrId>, starts: seq<int>, ro: bool, a: int, t: Target)
    requires Route(g, regs, starts, ro, a, t) && |regs| > 1
    ensures regs[0] in g && Route(g, regs[1..], starts[1..], ro || g[regs[0]].readonly, a, t)
  {
    var rs, ss := regs[1..], starts[1..];
    assert Holds(g, regs[0], starts[0], a);
    forall k {:trigger Holds(g, rs[k], ss[k], a)} | 0 <= k < |rs| ensures Holds(g, rs[k], ss[k], a) {
      assert Holds(g, regs[k + 1], starts[k + 1], a);
    }
    forall k {:trigger HopAt(g, rs, ss, k)} | 0 <= k < |rs| - 1 ensures HopAt(g, rs, ss, k) {
      assert HopAt(g, regs, starts, k + 1);
    }
    ReadonlyMore(g, regs[0], rs);
    assert regs == [regs[0]] + rs;
  }

  lemma {:induction false} FirstSome(g: Graph, rank: map<MrId, nat>, bound: nat, subs: seq<MrId>, start: int, ro: bool,
                                     a: int, s: MrId)
    requires Ranked(g, rank) && forall i :: 0 <= i < |subs| ==> subs[i] in g && rank[subs[i]] < bound
    requires s in subs && ResolveAt(g, rank, s, start + g[s].addr, ro, a).Some?
    ensures ResolveFirst(g, rank, bound, subs, start, ro, a).Some?
    decreases |subs|
  {
    if subs[0] != s { FirstSome(g, rank, bound, subs[1..], start, ro, a, s); }
  }

  /** Among subregions the first in the list that resolves the address wins. */
  lemma {:induction false} FirstWins(g: Graph, rank: map<MrId, nat>, bound: nat, subs: seq<MrId>, start: int, ro: bool,
                                     a: int, i: nat)
    requires Ranked(g, rank) && forall k :: 0 <= k < |subs| ==> subs[k] in g && rank[subs[k]] < bound
    requires i < |subs| && ResolveAt(g, rank, subs[i], start + g[subs[i]].addr, ro, a).Some?
    requires forall k :: 0 <= k < i ==> ResolveAt(g, rank, subs[k], start + g[subs[k]].addr, ro, a).None?
    ensures ResolveFirst(g, rank, bound, subs, start, ro, a) ==
            ResolveAt(g, rank, subs[i], start + g[subs[i]].addr, ro, a)
    decreases i
  {
    if i > 0 { FirstWins(g, rank, bound, subs[1..], start, ro, a, i - 1); }
  }
}
