/**
 The dispatch structure of an address space (exec.c): sections reached through
 the page map, with tables for pages that several sections share.
 */
module Dispatch {
  import opened Arithmetic
  import opened FlatViews
  import opened PhysMap
  import opened SectionCount

  datatype SectionMr = Unassigned | NotDirty | Rom | Watch | Region(mr: MrId) | SubpageMr(id: nat)

  datatype Section = Section(mr: SectionMr, start: int, offset: int, size: int, readonly: bool)

  /** The table of one shared page; `q` is the page its base address is on. */
  datatype Subpage = Subpage(q: nat, table: seq<nat>)

  /** The section a listener is handed for a flat range. */
  function SectionOf(fr: FlatRange): Section {
    Section(Region(fr.mr), fr.addr.start, fr.offset, fr.addr.size, fr.readonly)
  }

  const DUMMIES := [Section(Unassigned, 0, 0, TWO_64, false), Section(NotDirty, 0, 0, TWO_64, false),
                    Section(Rom, 0, 0, TWO_64, false), Section(Watch, 0, 0, TWO_64, false)]

  /** A section answers for address `a` as the flat view does: same region, offset and read-only flag. */
  ghost predicate Agrees(t: Option<Target>, sec: Section, a: int) {
    match t
    case None => sec.mr.Unassigned?
    case Some(t) => sec.mr == Region(t.mr) && (a - sec.start) + sec.offset == t.offset && sec.readonly == t.readonly
  }

  /** What all address spaces share while they are rebuilt: the node array and the list of sections. */
  class NextMap {
    const pm: PhysPageMap
    var sections: seq<Section>

    /** core_begin: the four dummy sections and no nodes of any tree. */
    constructor (w: nat, levels: nat)
      requires w >= 2 && levels >= 1
      ensures fresh(pm) && pm.Valid() && pm.nodes == [] && pm.w == w && pm.levels == levels && sections == DUMMIES
      ensures |sections| == 4 && sections[0].mr == Unassigned && sections[1].mr == NotDirty
      ensures sections[2].mr == Rom && sections[3].mr == Watch
    {
      pm := new PhysPageMap(w, levels);
      sections := DUMMIES;
    }
  }

  /** The shared part at one moment. */
  datatype MapState = MapState(sections: seq<Section>, nodes: seq<Node>, info: seq<Info>)

  /** The shared part grew for tree `id`: sections only at the end, and every other tree as it was. */
  ghost predicate MapGrew(a: MapState, b: MapState, w: nat, levels: nat, id: nat) {
    && a.sections <= b.sections && w >= 2 && |a.info| == |a.nodes| && |b.info| == |b.nodes|
    && KeepsOthers(a.nodes, a.info, b.nodes, b.info, w, levels, id)
  }

  lemma MapGrewSame(a: MapState, b: MapState, w: nat, levels: nat, id: nat)
    requires a.sections <= b.sections && w >= 2 && |a.info| == |a.nodes| && b.nodes == a.nodes && b.info == a.info
    ensures MapGrew(a, b, w, levels, id)
  {
  }

  lemma MapGrewTransitive(a: MapState, b: MapState, c: MapState, w: nat, levels: nat, id: nat)
    requires MapGrew(a, b, w, levels, id) && MapGrew(b, c, w, levels, id)
    ensures MapGrew(a, c, w, levels, id)
  {
    KeepsOthersTransitive(a.nodes, a.info, b.nodes, b.info, c.nodes, c.info, w, levels, id);
  }

  /** The address of the width that a lookup of address `a` finds. */
  ghost function Aliased(w: nat, levels: nat, page: nat, a: nat): nat
    requires w >= 2 && page >= 1
  {
    SlotBase(0, a / page % Pow(w, levels), page) + a % page
  }

  /** Inside the width an address aliases itself, beyond it one inside. */
  lemma AliasedInWidth(w: nat, levels: nat, page: nat, a: nat)
    requires w >= 2 && page >= 1
    ensures var b, width := Aliased(w, levels, page, a), SlotBase(0, Pow(w, levels), page);
            b < width && b <= a && (a < width ==> b == a)
  {
    var q, pages := a / page, Pow(w, levels);
    assert a == SlotBase(0, q, page) + a % page by { SlotBaseMul(0, q, page); }
    RestSmall(q, pages);
    WrapsBelow(q, q % pages, pages, page, a % page);
  }

  lemma RestSmall(x: nat, p: nat)
    requires p >= 1
    ensures x % p <= x && (x < p ==> x % p == x)
  {
    if x < p { DownMultiple(x, p); }
  }

  lemma WrapsBelow(q: nat, r: nat, pages: nat, page: nat, j: nat)
    requires r < pages && r <= q && (q < pages ==> r == q) && j < page
    ensures SlotBase(0, r, page) + j < SlotBase(0, pages, page) && SlotBase(0, r, page) <= SlotBase(0, q, page)
    ensures SlotBase(0, q, page) + j < SlotBase(0, pages, page) ==> r == q
  {
    SlotsOrdered(0, r, pages, page);
    if r < q { SlotsOrdered(0, r, q, page); }
    if pages < q { SlotsOrdered(0, pages, q, page); }
  }

  /** How registering ends: the source asserts that there is a section number and a node number left. */
  datatype Outcome = Registered | NoSection | NoNode

  /** Most nodes that `n` walks of the tree allocate. */
  function Walks(levels: nat, n: nat): (r: int) { if n == 0 then 0 else Walks(levels, n - 1) + 2 * levels - 1 }

  lemma {:induction false} WalksAre(levels: nat, n: nat)
    ensures Walks(levels, n) == n * (2 * levels - 1)
  {
    if n > 0 {
      WalksAre(levels, n - 1);
      assert n * (2 * levels - 1) == (n - 1) * (2 * levels - 1) + (2 * levels - 1);
    }
  }

  lemma {:induction false} WalksGrow(levels: nat, m: nat, n: nat)
    requires levels >= 1 && m <= n
    ensures Walks(levels, m) <= Walks(levels, n)
  {
    if m < n { WalksGrow(levels, m, n - 1); }
  }

  /** From the four fixed sections on, nodes do not run out if the constants leave enough of them. */
  lemma EnoughNodes(levels: nat, page: nat)
    requires |DUMMIES| <= page
    ensures Walks(levels, page) - Walks(levels, |DUMMIES|) == (page - |DUMMIES|) * (2 * levels - 1)
  {
    WalksAre(levels, page);
    WalksAre(levels, |DUMMIES|);
    var k, d := 2 * levels - 1, |DUMMIES|;
    assert (page - d) * k == page * k - d * k;
  }

  /** What the sections so far allow the tree in nodes, beyond those it has. */
  ghost function Slack(m: MapState, levels: nat): int { Walks(levels, |m.sections|) - |m.nodes| }

  /**
   Registering something that takes `cost` sections. It runs out of section numbers exactly if there are fewer
   left, unless it runs out of node numbers, which needs more walks than the constants may allow.
   */
  ghost predicate Spent(a: MapState, b: MapState, page: nat, levels: nat, cost: nat, r: Outcome) {
    match r
    case Registered =>
      |b.sections| == |a.sections| + cost && |b.sections| <= page && Slack(a, levels) <= Slack(b, levels)
    case NoSection => |a.sections| + cost > page
    case NoNode => |b.nodes| == NODE_NIL < Walks(levels, page) - Slack(a, levels)
  }

  lemma SpentThen(a: MapState, b: MapState, c: MapState, page: nat, levels: nat, cost: nat, more: nat, r: Outcome)
    requires Spent(a, b, page, levels, cost, Registered) && Spent(b, c, page, levels, more, r)
    ensures Spent(a, c, page, levels, cost + more, r)
  {
  }

  class AddressSpaceDispatch {
    const shared: NextMap
    const pm: PhysPageMap
    const page: nat
    ghost const id: nat
    var root: Entry
    var subpages: seq<Subpage>

    /** mem_begin: an empty tree. */
    constructor (shared: NextMap, page: nat, ghost id: nat)
      requires shared.pm.Valid() && page >= 1 && 0 < |shared.sections| <= page && shared.sections[0].mr.Unassigned?
      ensures this.shared == shared && this.pm == shared.pm && this.page == page && this.id == id && Represents([])
    {
      this.shared, this.pm, this.page, this.id := shared, shared.pm, page, id;
      root, subpages := Nil, [];
      new;
      assert forall q: nat :: PageAt(q) == UNASSIGNED;
    }

    ghost function Snap(): MapState
      reads shared, pm
    {
      MapState(shared.sections, pm.nodes, pm.info)
    }

    ghost function Pages(): nat
      requires pm.w >= 2
    {
      Pow(pm.w, pm.levels)
    }

    /** The page of the width that a lookup of page `q` finds. */
    ghost function Wrapped(q: nat): (x: nat)
      requires pm.w >= 2
      ensures x < Pages()
    {
      q % Pages()
    }

    lemma WrappedIs(q: nat)
      requires pm.w >= 2
      ensures Wrapped(q) + (q / Pages()) * Pages() == q && (q < Pages() ==> Wrapped(q) == q)
    {
      if q < Pages() { DownMultiple(q, Pages()); }
    }

    ghost function PageAt(q: nat): nat
      reads this`root, pm`nodes
      requires pm.w >= 2
    {
      FindFrom(pm.nodes, pm.w, root, pm.levels, q)
    }

    ghost predicate PageOk(q: nat)
      reads this, shared, pm
      requires pm.w >= 2
    {
      var s := PageAt(q);
      s < |shared.sections| && match shared.sections[s].mr
                        case Unassigned => s == UNASSIGNED
                        case Region(_) => true
                        case SubpageMr(k) => k < |subpages| && subpages[k].q == q
                        case _ => false
    }

    ghost predicate TableOk(k: nat)
      reads this, shared
      requires k < |subpages|
    {
      |subpages[k].table| == page &&
      forall j :: 0 <= j < page ==>
        subpages[k].table[j] < |shared.sections| &&
        (shared.sections[subpages[k].table[j]].mr.Region? || subpages[k].table[j] == UNASSIGNED)
    }

    ghost predicate Valid()
      reads this, shared, pm
    {
      && pm == shared.pm && pm.Valid() && page >= 1 && EntryOk(pm.nodes, pm.info, root, id, pm.levels, 0)
      && 0 < |shared.sections| <= page && shared.sections[0].mr.Unassigned?
      && (forall q: nat {:trigger PageOk(q)} :: q < Pages() ==> PageOk(q))
      && (forall k: nat {:trigger TableOk(k)} :: k < |subpages| ==> TableOk(k))
    }

    /** What owns page `q`: nothing, one region, or a table. */
    ghost function OwnerOf(q: nat): SectionMr
      reads this, shared, pm
      requires Valid() && q < Pages()
    {
      assert PageOk(q);
      shared.sections[PageAt(q)].mr
    }

    /** The section that byte `j` of page `q` reaches, with sub-page resolution. */
    ghost function Reach(q: nat, j: nat): Section
      reads this, shared, pm
      requires Valid() && q < Pages() && j < page
    {
      assert PageOk(q);
      var sec := shared.sections[PageAt(q)];
      if sec.mr.SubpageMr? then
        assert TableOk(sec.mr.id);
        shared.sections[subpages[sec.mr.id].table[j]]
      else sec
    }

    /** The address of byte `j` of page `q`. */
    ghost function Addr(q: nat, j: nat): nat { SlotBase(0, q, page) + j }

    ghost predicate Used(v: seq<FlatRange>, q: nat)
      reads this, shared, pm
      requires Valid() && q < Pages()
    {
      PageAt(q) != UNASSIGNED ==> exists j: nat :: j < page && Lookup(v, Addr(q, j)).Some?
    }

    /** Page `q` has a table exactly if some range of the view covers a part of it. */
    ghost predicate TableAt(v: seq<FlatRange>, q: nat)
      reads this, shared, pm
      requires Valid() && q < Pages()
    {
      OwnerOf(q).SubpageMr? <==> Tabled(v, q, page)
    }

    /** The structure answers for every address of its width exactly as view `v` does. */
    ghost predicate Represents(v: seq<FlatRange>)
      reads this, shared, pm
    {
      && Valid()
      && (forall q: nat, j: nat {:trigger Reach(q, j)} :: q < Pages() && j < page ==>
            Agrees(Lookup(v, Addr(q, j)), Reach(q, j), Addr(q, j)))
      && (forall q: nat {:trigger Used(v, q)} :: q < Pages() ==> Used(v, q))
      && (forall q: nat {:trigger TableAt(v, q)} :: q < Pages() ==> TableAt(v, q))
    }

    /** The lookup of the source: page map first, then the sub-page table. Beyond the width it aliases. */
    method LookupRegion(a: nat) returns (sec: Section)
      requires Valid()
      ensures sec == Reach(Wrapped(a / page), a % page)
    {
      var s := pm.Find(root, a / page);
      WrappedIs(a / page);
      BeyondWidthAliases(Wrapped(a / page), a / page / Pages());
      assert PageOk(Wrapped(a / page));
      sec := shared.sections[s];
      if sec.mr.SubpageMr? {
        assert TableOk(sec.mr.id);
        sec := shared.sections[subpages[sec.mr.id].table[a % page]];
      }
    }

    twostate predicate SameReach()
      reads this, shared, pm
      requires old(Valid()) && Valid()
    {
      forall q: nat, j: nat {:trigger Reach(q, j)} :: q < Pages() && j < page ==> Reach(q, j) == old(Reach(q, j))
    }

    /** A step that takes `cost` sections: what it spends, and that it leaves other trees alone. */
    ghost predicate Steps(a: MapState, b: MapState, cost: nat, r: Outcome) {
      Spent(a, b, page, pm.levels, cost, r) && (r.Registered? ==> MapGrew(a, b, pm.w, pm.levels, id))
    }

    lemma StepsThen(a: MapState, b: MapState, c: MapState, cost: nat, more: nat, r: Outcome)
      requires Steps(a, b, cost, Registered) && Steps(b, c, more, r)
      ensures Steps(a, c, cost + more, r)
    {
      SpentThen(a, b, c, page, pm.levels, cost, more, r);
      if r.Registered? { MapGrewTransitive(a, b, c, pm.w, pm.levels, id); }
    }

    lemma StepsMore(a: MapState, b: MapState, cost: nat, total: nat, r: Outcome)
      requires Steps(a, b, cost, r) && !r.Registered? && cost <= total
      ensures Steps(a, b, total, r)
    {
    }

    lemma StepsNot(a: MapState)
      requires pm.w >= 2 && |a.info| == |a.nodes| && |a.sections| <= page
      ensures Steps(a, a, 0, Registered)
    {
      MapGrewSame(a, a, pm.w, pm.levels, id);
    }

    /** Appends a section, which nothing reaches yet; fails, as the source aborts, exactly if no number is left. */
    method AddSection(sec: Section) returns (ok: bool, s: nat)
      requires Valid()
      modifies shared
      ensures ok <==> |old(shared.sections)| < page
      ensures ok ==> s == |old(shared.sections)| && shared.sections == old(shared.sections) + [sec]
      ensures ok ==> Valid() && SameReach() && MapGrew(old(Snap()), Snap(), pm.w, pm.levels, id)
      ensures ok ==> Slack(Snap(), pm.levels) == Slack(old(Snap()), pm.levels) + 2 * pm.levels - 1
      ensures Steps(old(Snap()), Snap(), 1, if ok then Registered else NoSection)
    {
      s := |shared.sections|;
      ok := s < page;
      if !ok { return; }
      shared.sections := shared.sections + [sec];
      MapGrewSame(old(Snap()), Snap(), pm.w, pm.levels, id);
      assert forall q: nat :: PageAt(q) == old(PageAt(q));
      forall q: nat | q < Pages() ensures PageOk(q) { assert old(PageOk(q)); }
      forall k: nat | k < |subpages| ensures TableOk(k) { assert old(TableOk(k)); }
      forall q: nat, j: nat {:trigger Reach(q, j)} | q < Pages() && j < page ensures Reach(q, j) == old(Reach(q, j)) {
        assert old(PageOk(q));
        var sec0 := shared.sections[PageAt(q)];
        if sec0.mr.SubpageMr? { assert old(TableOk(sec0.mr.id)); }
      }
    }

    /** Appends a section for free pages and sets them to it. */
    method SetPages(sec: Section, q: nat, n: nat) returns (r: Outcome, s: nat)
      requires Valid() && n > 0 && q + n <= Pages()
      requires forall x: nat {:trigger PageAt(x)} :: q <= x < q + n ==> PageAt(x) == UNASSIGNED
      modifies this`root, shared, pm
      ensures Steps(old(Snap()), Snap(), 1, r)
      ensures r.Registered? ==> s == |old(shared.sections)| && shared.sections == old(shared.sections) + [sec]
      ensures r.Registered? ==> pm.Valid() && EntryOk(pm.nodes, pm.info, root, id, pm.levels, 0)
      ensures r.Registered? ==> forall x: nat {:trigger PageAt(x)} :: x < Pages() ==>
                                  PageAt(x) == if q <= x < q + n then s else old(PageAt(x))
    {
      var ok;
      ok, s := AddSection(sec);
      if !ok { return NoSection, s; }
      label P:
      ghost var mid := Snap();
      assert forall x: nat {:trigger PageAt(x)} :: PageAt(x) == old(PageAt(x));
      assert Free(pm.nodes, root, pm.w, pm.levels, q, q + n) by {
        forall x: nat {:trigger FindFrom(pm.nodes, pm.w, root, pm.levels, x)} | q <= x < q + n
          ensures FindFrom(pm.nodes, pm.w, root, pm.levels, x) == UNASSIGNED
        { assert PageAt(x) == UNASSIGNED; }
      }
      WalksGrow(pm.levels, |shared.sections|, page);
      ok, root := pm.PageSet(root, q, n, s, id);
      if !ok { return NoNode, s; }
      MapGrewTransitive(old(Snap()), mid, Snap(), pm.w, pm.levels, id);
      r := Registered;
      assert forall x: nat {:trigger PageAt(x)} ::
        x < Pages() ==> PageAt(x) == if q <= x < q + n then s else old@P(PageAt(x));
    }

    /** Gives the free page `q` a table of unassigned bytes; every address still reaches what it did. */
    method NewSubpage(q: nat) returns (r: Outcome, k: nat)
      requires Valid() && q < Pages() && PageAt(q) == UNASSIGNED
      modifies this, shared, pm
      ensures Steps(old(Snap()), Snap(), 1, r)
      ensures r.Registered? ==> Valid() && SameReach() && k == |old(subpages)| && |subpages| == k + 1
      ensures r.Registered? ==> OwnerOf(q) == SubpageMr(k)
      ensures r.Registered? ==> forall x: nat {:trigger PageAt(x)} ::
                                  x < Pages() && x != q ==> PageAt(x) == old(PageAt(x))
    {
      k := |subpages|;
      var s;
      r, s := SetPages(Section(SubpageMr(k), SlotBase(0, q, page), 0, page, false), q, 1);
      if !r.Registered? { return; }
      subpages := subpages + [Subpage(q, seq(page, _ => UNASSIGNED))];
      assert forall x: nat {:trigger PageAt(x)} :: x < Pages() ==> PageAt(x) == if x == q then s else old(PageAt(x));
      forall x: nat | x < Pages() ensures PageOk(x) { assert old(PageOk(x)); }
      forall j: nat | j < |subpages| ensures TableOk(j) {
        if j < k { assert old(TableOk(j)); }
      }
      assert PageOk(q);
      forall x: nat, j: nat {:trigger Reach(x, j)} | x < Pages() && j < page ensures Reach(x, j) == old(Reach(x, j)) {
        assert old(PageOk(x)) && PageOk(x);
        var sec0 := shared.sections[PageAt(x)];
        if sec0.mr.SubpageMr? && sec0.mr.id < k { assert old(TableOk(sec0.mr.id)); }
      }
    }

    /** Points bytes `lo` to `hi` of table `k` at section `s`; refused when they leave the page. */
    method SubpageRegister(k: nat, lo: nat, hi: nat, s: nat) returns (ok: bool)
      requires Valid() && k < |subpages| && s < |shared.sections| && shared.sections[s].mr.Region?
      modifies this`subpages
      ensures Valid() && |subpages| == |old(subpages)|
      ensures ok <==> lo < page && hi < page
      ensures forall q: nat, j: nat {:trigger Reach(q, j)} :: q < Pages() && j < page ==>
        Reach(q, j) ==
          if ok && OwnerOf(q) == SubpageMr(k) && lo <= j <= hi then shared.sections[s] else old(Reach(q, j))
    {
      if lo >= page || hi >= page { return false; }
      assert TableOk(k);
      var table, j := subpages[k].table, lo;
      while j <= hi
        invariant lo <= j && (j <= hi + 1 || j == lo) && |table| == page
        invariant forall i :: 0 <= i < page ==> table[i] == if lo <= i < j then s else subpages[k].table[i]
      {
        table := table[j := s];
        j := j + 1;
      }
      ghost var old_ := subpages[k].table;
      subpages := subpages[k := Subpage(subpages[k].q, table)];
      ok := true;
      assert forall q: nat :: PageAt(q) == old(PageAt(q));
      forall q: nat | q < Pages() ensures PageOk(q) { assert old(PageOk(q)); }
      forall i: nat | i < |subpages| ensures TableOk(i) { assert old(TableOk(i)); }
      forall q: nat, i: nat {:trigger Reach(q, i)} | q < Pages() && i < page
        ensures Reach(q, i) ==
          if OwnerOf(q) == SubpageMr(k) && lo <= i <= hi then shared.sections[s] else old(Reach(q, i))
      {
        assert old(PageOk(q));
        var sec0 := shared.sections[PageAt(q)];
        if sec0.mr.SubpageMr? { assert old(TableOk(sec0.mr.id)); }
      }
    }

    lemma AddrOf(a: nat)
      requires page >= 1
      ensures a == Addr(a / page, a % page)
    {
      SlotBaseMul(0, a / page, page);
    }

    /** The free byte `j` of page `q` is not on a page that one section owns. */
    lemma FreeByte(v: seq<FlatRange>, q: nat, j: nat)
      requires Represents(v) && q < Pages() && j < page && Lookup(v, Addr(q, j)).None?
      ensures OwnerOf(q).SubpageMr? || (OwnerOf(q).Unassigned? && PageAt(q) == UNASSIGNED)
    {
      assert PageOk(q);
      assert Reach(q, j).mr.Unassigned?;
    }

    /** Exactly the addresses of `fr` now reach its section, and only its pages got an owner. */
    twostate predicate Shown(fr: FlatRange)
      reads this, shared, pm
      requires old(Valid()) && Valid()
    {
      && (forall q: nat, j: nat {:trigger Reach(q, j)} :: q < Pages() && j < page ==>
            Reach(q, j) == if Contains(fr.addr, Addr(q, j)) then SectionOf(fr) else old(Reach(q, j)))
      && (forall q: nat {:trigger PageAt(q)} :: q < Pages() ==>
            PageAt(q) == old(PageAt(q)) || exists j: nat :: j < page && Contains(fr.addr, Addr(q, j)))
      && (forall q: nat {:trigger OwnerOf(q)} :: q < Pages() ==>
            (OwnerOf(q).SubpageMr? <==> old(OwnerOf(q)).SubpageMr? || Partly(fr.addr, q, page)))
    }

    twostate lemma ShownRepresents(v: seq<FlatRange>, new fr: FlatRange)
      requires old(Represents(v)) && Valid() && Shown(fr)
      requires forall a :: Contains(fr.addr, a) ==> Lookup(v, a).None?
      ensures Represents(v + [fr])
    {
      forall q: nat, j: nat {:trigger Reach(q, j)} | q < Pages() && j < page
        ensures Agrees(Lookup(v + [fr], Addr(q, j)), Reach(q, j), Addr(q, j))
      {
        LookupConcat(v, [fr], Addr(q, j));
        assert old(Agrees(Lookup(v, Addr(q, j)), Reach(q, j), Addr(q, j)));
      }
      forall q: nat | q < Pages() ensures TableAt(v + [fr], q) {
        assert old(TableAt(v, q));
        TabledMore(v, fr, q, page);
      }
      forall q: nat | q < Pages() ensures Used(v + [fr], q) {
        assert old(Used(v, q));
        if PageAt(q) != UNASSIGNED {
          if PageAt(q) == old(PageAt(q)) {
            var j: nat :| j < page && Lookup(v, Addr(q, j)).Some?;
            LookupConcat(v, [fr], Addr(q, j));
          } else {
            var j: nat :| j < page && Contains(fr.addr, Addr(q, j));
            LookupConcat(v, [fr], Addr(q, j));
          }
        }
      }
    }

    /** Finds the table of page `q`, or makes one; every address still reaches what it did. */
    method PrepareSubpage(q: nat, lo: nat, ghost v: seq<FlatRange>) returns (r: Outcome, k: nat)
      requires Represents(v) && q < Pages() && lo < page && Lookup(v, Addr(q, lo)).None?
      modifies this, shared, pm
      ensures Steps(old(Snap()), Snap(), PieceCost(v, q, page) - 1, r)
      ensures r.Registered? ==> Valid() && SameReach() && OwnerOf(q) == SubpageMr(k) && k < |subpages|
      ensures r.Registered? ==> forall x: nat {:trigger PageAt(x)} ::
                                  x < Pages() && x != q ==> PageAt(x) == old(PageAt(x))
    {
      FreeByte(v, q, lo);
      var existing := pm.Find(root, q);
      assert PageOk(q) && TableAt(v, q);
      assert shared.sections[existing].mr.SubpageMr? || shared.sections[existing].mr.Unassigned?;
      if !shared.sections[existing].mr.SubpageMr? {
        r, k := NewSubpage(q);
      } else {
        r, k := Registered, shared.sections[existing].mr.id;
        StepsNot(Snap());
      }
    }

    /** Registers a range that does not fill its page; the assertion of the source on the page holds. */
    method RegisterSubpage(fr: FlatRange, ghost v: seq<FlatRange>) returns (r: Outcome)
      requires Represents(v) && fr.addr.start >= 0 && 0 < fr.addr.size < page
      requires fr.addr.start % page + fr.addr.size <= page && fr.addr.start / page < Pages()
      requires forall a :: Contains(fr.addr, a) ==> Lookup(v, a).None?
      modifies this, shared, pm
      ensures Steps(old(Snap()), Snap(), PieceCost(v, fr.addr.start / page, page), r)
      ensures r.Registered? ==> Represents(v + [fr])
    {
      AddrOf(fr.addr.start);
      r := RegisterBytes(fr, fr.addr.start / page, fr.addr.start % page, v);
    }

    /** Registers the range that starts at byte `lo` of page `q`. */
    method RegisterBytes(fr: FlatRange, q: nat, lo: nat, ghost v: seq<FlatRange>) returns (r: Outcome)
      requires Represents(v) && q < Pages() && 0 < fr.addr.size < page && lo + fr.addr.size <= page
      requires fr.addr.start == Addr(q, lo)
      requires forall a :: Contains(fr.addr, a) ==> Lookup(v, a).None?
      modifies this, shared, pm
      ensures Steps(old(Snap()), Snap(), PieceCost(v, q, page), r)
      ensures r.Registered? ==> Represents(v + [fr])
    {
      var k, ok, s;
      r, k := PrepareSubpage(q, lo, v);
      if !r.Registered? { return; }
      label P:
      ghost var before := Snap();
      ok, s := AddSection(SectionOf(fr));
      StepsThen(old(Snap()), before, Snap(), PieceCost(v, q, page) - 1, 1, if ok then Registered else NoSection);
      if !ok { return NoSection; }
      var inside := SubpageRegister(k, lo, lo + fr.addr.size - 1, s);
      assert forall x: nat {:trigger PageAt(x)} :: PageAt(x) == old@P(PageAt(x));
      assert old@P(PageOk(q));
      assert PageOk(q);
      assert OwnerOf(q) == SubpageMr(k);
      forall x: nat, j: nat {:trigger Reach(x, j)} | x < Pages() && j < page
        ensures Reach(x, j) == if Contains(fr.addr, Addr(x, j)) then SectionOf(fr) else old(Reach(x, j))
      {
        assert PageOk(x) && PageOk(q);
        assert OwnerOf(x) == SubpageMr(k) ==> x == q;
        assert old@P(Reach(x, j)) == old(Reach(x, j));
        InSamePage(fr.addr, q, lo, x, j);
      }
      forall x: nat {:trigger OwnerOf(x)} | x < Pages()
        ensures OwnerOf(x).SubpageMr? <==> old(OwnerOf(x)).SubpageMr? || Partly(fr.addr, x, page)
      {
        assert old(PageOk(x)) && PageOk(x);
        PartOfPage(fr.addr, q, lo, x);
      }
      assert Contains(fr.addr, Addr(q, lo));
      assert Shown(fr);
      ShownRepresents(v, fr);
    }

    /** A range inside page `q` covers a part of that page only. */
    lemma PartOfPage(r: AddrRange, q: nat, lo: nat, x: nat)
      requires r.start == Addr(q, lo) && 0 < r.size < page && lo + r.size <= page
      ensures Partly(r, x, page) <==> x == q
    {
      if x < q { SlotsOrdered(0, x, q, page); }
      if q < x { SlotsOrdered(0, q, x, page); }
    }

    lemma InSamePage(r: AddrRange, q: nat, lo: nat, x: nat, j: nat)
      requires r.start == Addr(q, lo) && 0 < r.size && lo + r.size <= page && j < page
      ensures Contains(r, Addr(x, j)) <==> x == q && lo <= j < lo + r.size
    {
      if x < q { SlotsOrdered(0, x, q, page); }
      if q < x { SlotsOrdered(0, q, x, page); }
    }

    lemma PagesAdd(q: nat, n: nat)
      ensures SlotBase(0, q + n, page) == SlotBase(0, q, page) + SlotBase(0, n, page)
    {
      SlotBaseMul(0, q, page);
      SlotBaseMul(0, n, page);
      SlotBaseMul(0, q + n, page);
      assert (q + n) * page == q * page + n * page;
    }

    lemma InPages(r: AddrRange, q: nat, n: nat, x: nat, j: nat)
      requires r.start == Addr(q, 0) && r.size == SlotBase(0, n, page) && j < page
      ensures Contains(r, Addr(x, j)) <==> q <= x < q + n
    {
      PagesAdd(q, n);
      if x < q { SlotsOrdered(0, x, q, page); }
      if q < x { SlotsOrdered(0, q, x, page); }
      if x < q + n { SlotsOrdered(0, x, q + n, page); }
      if q + n < x { SlotsOrdered(0, q + n, x, page); }
    }

    /** Registers a range of `n` whole pages from page `q`. */
    method RegisterMultipage(fr: FlatRange, q: nat, n: nat, ghost v: seq<FlatRange>) returns (r: Outcome)
      requires Represents(v) && n > 0 && q + n <= Pages()
      requires fr.addr.start == Addr(q, 0) && fr.addr.size == SlotBase(0, n, page)
      requires forall a :: Contains(fr.addr, a) ==> Lookup(v, a).None?
      modifies this, shared, pm
      ensures Steps(old(Snap()), Snap(), 1, r)
      ensures r.Registered? ==> Represents(v + [fr])
    {
      forall x: nat {:trigger PageAt(x)} | q <= x < q + n ensures PageAt(x) == UNASSIGNED {
        assert Used(v, x);
        if PageAt(x) != UNASSIGNED {
          var j: nat :| j < page && Lookup(v, Addr(x, j)).Some?;
          InPages(fr.addr, q, n, x, j);
        }
      }
      var s;
      r, s := SetPages(SectionOf(fr), q, n);
      if !r.Registered? { return; }
      forall x: nat | x < Pages() ensures PageOk(x) { assert old(PageOk(x)); }
      forall k: nat | k < |subpages| ensures TableOk(k) { assert old(TableOk(k)); }
      PagesShown(fr, q, n, s);
      ShownRepresents(v, fr);
    }

    /** Setting whole pages shows the range. */
    twostate lemma PagesShown(new fr: FlatRange, new q: nat, new n: nat, new s: nat)
      requires old(Valid()) && Valid() && q + n <= Pages() && subpages == old(subpages)
      requires fr.addr.start == Addr(q, 0) && fr.addr.size == SlotBase(0, n, page)
      requires old(shared.sections) <= shared.sections && s < |shared.sections| && shared.sections[s] == SectionOf(fr)
      requires forall x: nat {:trigger PageAt(x)} :: q <= x < q + n ==> old(PageAt(x)) == UNASSIGNED
      requires forall x: nat {:trigger PageAt(x)} :: x < Pages() ==>
                 PageAt(x) == if q <= x < q + n then s else old(PageAt(x))
      ensures Shown(fr)
    {
      forall x: nat, j: nat {:trigger Reach(x, j)} | x < Pages() && j < page
        ensures Reach(x, j) == if Contains(fr.addr, Addr(x, j)) then SectionOf(fr) else old(Reach(x, j))
      {
        assert old(PageOk(x)) && PageOk(x);
        InPages(fr.addr, q, n, x, j);
        var sec := shared.sections[PageAt(x)];
        if sec.mr.SubpageMr? { assert old(TableOk(sec.mr.id)); }
      }
      forall x: nat {:trigger PageAt(x)} | q <= x < q + n
        ensures exists j: nat :: j < page && Contains(fr.addr, Addr(x, j))
      { InPages(fr.addr, q, n, x, 0); }
      forall x: nat {:trigger OwnerOf(x)} | x < Pages()
        ensures OwnerOf(x).SubpageMr? <==> old(OwnerOf(x)).SubpageMr? || Partly(fr.addr, x, page)
      {
        assert old(PageOk(x)) && PageOk(x);
        NoPartOfPages(fr.addr, q, n, x);
      }
    }

    /** A range of whole pages covers no page in part. */
    lemma NoPartOfPages(r: AddrRange, q: nat, n: nat, x: nat)
      requires r.start == Addr(q, 0) && r.size == SlotBase(0, n, page)
      ensures !Partly(r, x, page)
    {
      PagesAdd(q, n);
      if x < q { SlotsOrdered(0, x, q, page); }
      if q < x { SlotsOrdered(0, q, x, page); }
      if x < q + n { SlotsOrdered(0, x, q + n, page); }
      if q + n < x { SlotsOrdered(0, q + n, x, page); }
    }

    /** An aligned range splits into whole pages and less than a page. */
    lemma WholePages(cur: nat, size: nat, limit: nat)
      requires page >= 1 && cur % page == 0 && cur + size <= SlotBase(0, limit, page)
      ensures cur == Addr(cur / page, 0) && size - size % page == SlotBase(0, size / page, page)
      ensures (cur + (size - size % page)) % page == 0
      ensures cur / page + size / page <= limit
    {
      var q, n := cur / page, size / page;
      Multiples(cur, size, page);
      SlotBaseMul(0, q, page);
      SlotBaseMul(0, n, page);
      PagesFit(q, n, limit);
    }

    lemma PagesFit(q: nat, n: nat, limit: nat)
      requires page >= 1 && SlotBase(0, q, page) + SlotBase(0, n, page) <= SlotBase(0, limit, page)
      ensures q + n <= limit
    {
      PagesAdd(q, n);
      SlotBaseMul(0, limit, page);
      SlotBaseMul(0, q + n, page);
      if limit < q + n { MulStep(limit, q + n, page); }
    }

    lemma InWidth(a: nat, limit: nat)
      requires page >= 1 && a < SlotBase(0, limit, page)
      ensures a / page < limit
    {
      AddrOf(a);
      if limit < a / page { SlotsOrdered(0, limit, a / page, page); }
    }

    lemma RepresentsSame(v: seq<FlatRange>, w: seq<FlatRange>)
      requires Represents(v) && forall a :: Lookup(v, a) == Lookup(w, a)
      requires forall q: nat {:trigger Tabled(w, q, page)} :: q < Pages() ==> Tabled(v, q, page) == Tabled(w, q, page)
      ensures Represents(w)
    {
      forall q: nat | q < Pages() ensures Used(w, q) { assert Used(v, q); }
      forall q: nat | q < Pages() ensures TableAt(w, q) { assert TableAt(v, q); }
      forall q: nat, j: nat {:trigger Reach(q, j)} | q < Pages() && j < page
        ensures Agrees(Lookup(w, Addr(q, j)), Reach(q, j), Addr(q, j))
      {
        assert Agrees(Lookup(v, Addr(q, j)), Reach(q, j), Addr(q, j));
      }
    }

    /** Two parts of a range that meet at a page boundary cover the pages that their union covers, as it does. */
    lemma PartsPartly(fr: FlatRange, cur: nat, hi: int, q: nat)
      requires page >= 1 && 0 <= fr.addr.start <= cur < hi && (cur == fr.addr.start || cur % page == 0)
      ensures Partly(Part(fr, fr.addr.start, hi).addr, q, page) <==>
              Partly(Part(fr, fr.addr.start, cur).addr, q, page) || Partly(Part(fr, cur, hi).addr, q, page)
    {
      if cur != fr.addr.start { Boundary(cur, q); }
    }

    /** A page lies on one side of a page boundary. */
    lemma Boundary(cur: nat, q: nat)
      requires page >= 1 && cur % page == 0
      ensures cur <= SlotBase(0, q, page) || SlotBase(0, q, page) + page <= cur
    {
      AddrOf(cur);
      if q < cur / page { SlotsOrdered(0, q, cur / page, page); }
      if cur / page < q { SlotsOrdered(0, cur / page, q, page); }
    }

    /** Joins the parts before and after `cur`. */
    lemma RepresentsJoin(v: seq<FlatRange>, fr: FlatRange, cur: int, hi: int)
      requires page >= 1 && 0 <= fr.addr.start <= cur < hi && (cur == fr.addr.start || cur % page == 0)
      requires Represents(v + [Part(fr, fr.addr.start, cur)] + [Part(fr, cur, hi)])
      ensures Represents(v + [Part(fr, fr.addr.start, hi)])
    {
      var start := fr.addr.start;
      var w, u := v + [Part(fr, start, cur)] + [Part(fr, cur, hi)], v + [Part(fr, start, hi)];
      PartsJoin(v, fr, cur, hi);
      forall q: nat {:trigger Tabled(u, q, page)} | q < Pages() ensures Tabled(w, q, page) == Tabled(u, q, page) {
        TabledMore(v + [Part(fr, start, cur)], Part(fr, cur, hi), q, page);
        TabledMore(v, Part(fr, start, cur), q, page);
        TabledMore(v, Part(fr, start, hi), q, page);
        PartsPartly(fr, cur, hi, q);
      }
      RepresentsSame(w, u);
    }

    /** The sections that the part [cur, hi) takes. */
    ghost function PartCost(v: seq<FlatRange>, cur: nat, whole: bool): nat
      requires page >= 1
    {
      if whole then 1 else PieceCost(v, cur / page, page)
    }

    /** Registers the part [cur, hi) of `fr`, the parts before `cur` being registered already. */
    method RegisterPart(fr: FlatRange, cur: int, hi: int, whole: bool, ghost v: seq<FlatRange>) returns (r: Outcome)
      requires Represents(v + [Part(fr, fr.addr.start, cur)])
      requires 0 <= fr.addr.start <= cur < hi <= End(fr.addr) <= SlotBase(0, Pages(), page)
      requires forall a :: Contains(fr.addr, a) ==> Lookup(v, a).None?
      requires cur == fr.addr.start || cur % page == 0
      requires if whole then cur % page == 0 && (hi - cur) % page == 0
               else cur % page + (hi - cur) <= page && hi - cur < page
      modifies this, shared, pm
      ensures Steps(old(Snap()), Snap(), PartCost(v, cur, whole), r)
      ensures r.Registered? ==> Represents(v + [Part(fr, fr.addr.start, hi)])
    {
      var now := Part(fr, cur, hi);
      ghost var before := v + [Part(fr, fr.addr.start, cur)];
      PartFree(v, fr, cur, hi);
      if whole {
        WholePages(cur, hi - cur, Pages());
        r := RegisterMultipage(now, cur / page, (hi - cur) / page, before);
      } else {
        InWidth(cur, Pages());
        NoTableBefore(v, fr, cur);
        r := RegisterSubpage(now, before);
      }
      if r.Registered? { RepresentsJoin(v, fr, cur, hi); }
    }

    /** The part before `cur` gives the page of `cur` no table. */
    lemma NoTableBefore(v: seq<FlatRange>, fr: FlatRange, cur: nat)
      requires page >= 1 && 0 <= fr.addr.start <= cur && (cur == fr.addr.start || cur % page == 0)
      ensures Tabled(v + [Part(fr, fr.addr.start, cur)], cur / page, page) <==> Tabled(v, cur / page, page)
    {
      TabledMore(v, Part(fr, fr.addr.start, cur), cur / page, page);
      AddrOf(cur);
    }

    /** Registers the part of a range before the first page boundary; returns the length done. */
    method AddHead(fr: FlatRange, ghost v: seq<FlatRange>) returns (r: Outcome, done: int)
      requires Represents(v) && 0 <= fr.addr.start && 0 < fr.addr.size && End(fr.addr) <= SlotBase(0, Pages(), page)
      requires forall a :: Contains(fr.addr, a) ==> Lookup(v, a).None?
      modifies this, shared, pm
      ensures Steps(old(Snap()), Snap(), HeadCost(v, fr.addr, page), r)
      ensures 0 <= done <= fr.addr.size && fr.addr.start + done == HeadEnd(fr.addr, page)
      ensures r.Registered? ==> Represents(v + [Part(fr, fr.addr.start, fr.addr.start + done)])
      ensures done < fr.addr.size ==> (fr.addr.start + done) % page == 0
    {
      var start := fr.addr.start;
      NothingYet(fr, v);
      if start % page != 0 {
        AlignUpIs(start, page);
        var left := AlignUp(start, page) - start;
        done := Min(left, fr.addr.size);
        HeadAligns(start, page);
        r := RegisterPart(fr, start, start + done, false, v);
      } else {
        AlignUpIs(start, page);
        r, done := Registered, 0;
        StepsNot(Snap());
      }
    }

    lemma NothingYet(fr: FlatRange, v: seq<FlatRange>)
      requires Represents(v)
      ensures Represents(v + [Part(fr, fr.addr.start, fr.addr.start)])
    {
      var none := Part(fr, fr.addr.start, fr.addr.start);
      forall a ensures Lookup(v, a) == Lookup(v + [none], a) { LookupConcat(v, [none], a); }
      forall q: nat {:trigger Tabled(v + [none], q, page)} | q < Pages()
        ensures Tabled(v, q, page) == Tabled(v + [none], q, page)
      { TabledMore(v, none, q, page); }
      RepresentsSame(v, v + [none]);
    }

    /** Registers whole pages, or what is left when that is less than a page; returns the length done. */
    method AddPiece(fr: FlatRange, cur: int, remain: int, ghost v: seq<FlatRange>)
      returns (r: Outcome, now: int, ghost cost: nat)
      requires Represents(v + [Part(fr, fr.addr.start, cur)]) && 0 < remain && cur % page == 0
      requires 0 <= fr.addr.start <= cur && cur + remain == End(fr.addr) <= SlotBase(0, Pages(), page)
      requires forall a :: Contains(fr.addr, a) ==> Lookup(v, a).None?
      modifies this, shared, pm
      ensures 0 < now <= remain && (now < remain ==> (cur + now) % page == 0)
      ensures cost + RestCost(v, cur + now, cur + remain, page) == RestCost(v, cur, cur + remain, page)
      ensures Steps(old(Snap()), Snap(), cost, r)
      ensures r.Registered? ==> Represents(v + [Part(fr, fr.addr.start, cur + now)])
    {
      now := remain;
      if remain < page {
        LastPage(cur, remain, page);
        cost := PartCost(v, cur, false);
        r := RegisterPart(fr, cur, cur + remain, false, v);
      } else if cur % page != 0 {
        assert false;
      } else {
        now := remain - remain % page;
        PageSplit(cur, remain, page);
        LeftOver(remain, page);
        cost := 1;
        r := RegisterPart(fr, cur, cur + now, true, v);
      }
    }

    /**
     The listener callback: splits a range into a head, whole pages and a tail. The branch for a
     page-sized piece at an unaligned address is dead.
     */
    method MemAdd(fr: FlatRange, ghost v: seq<FlatRange>) returns (r: Outcome)
      requires Represents(v) && 0 <= fr.addr.start && 0 < fr.addr.size && End(fr.addr) <= SlotBase(0, Pages(), page)
      requires forall a :: Contains(fr.addr, a) ==> Lookup(v, a).None?
      modifies this, shared, pm
      ensures Steps(old(Snap()), Snap(), RangeCost(v, fr.addr, page), r)
      ensures r.Registered? ==> Represents(v + [fr])
    {
      ghost var m0 := Snap();
      var now;
      r, now := AddHead(fr, v);
      ghost var head, rest := HeadCost(v, fr.addr, page), RestCost(v, fr.addr.start + now, End(fr.addr), page);
      if r.Registered? {
        ghost var m1 := Snap();
        r := AddRest(fr, now, v);
        StepsThen(m0, m1, Snap(), head, rest, r);
      } else {
        StepsMore(m0, Snap(), head, head + rest, r);
      }
    }

    /** Registers a range after its first `now` bytes, which are registered and end at a page boundary. */
    method AddRest(fr: FlatRange, now: int, ghost v: seq<FlatRange>) returns (r: Outcome)
      requires Represents(v + [Part(fr, fr.addr.start, fr.addr.start + now)])
      requires 0 <= fr.addr.start && 0 <= now <= fr.addr.size && End(fr.addr) <= SlotBase(0, Pages(), page)
      requires forall a :: Contains(fr.addr, a) ==> Lookup(v, a).None?
      requires now < fr.addr.size ==> (fr.addr.start + now) % page == 0
      modifies this, shared, pm
      ensures Steps(old(Snap()), Snap(), RestCost(v, fr.addr.start + now, End(fr.addr), page), r)
      ensures r.Registered? ==> Represents(v + [fr])
    {
      ghost var m0, start, end := Snap(), fr.addr.start, End(fr.addr);
      ghost var paid: nat, total: nat, cost: nat := 0, RestCost(v, start + now, end, page), 0;
      var cur, remain, now := fr.addr.start, fr.addr.size, now;
      r := Registered;
      StepsNot(m0);
      while remain != now
        invariant start <= cur && 0 <= now <= remain && cur + remain == end && r == Registered
        invariant Represents(v + [Part(fr, start, cur + now)])
        invariant now < remain ==> (cur + now) % page == 0
        invariant Steps(m0, Snap(), paid, Registered) && paid + RestCost(v, cur + now, end, page) == total
        decreases remain - now
      {
        remain := remain - now;
        cur := cur + now;
        ghost var before := Snap();
        r, now, cost := AddPiece(fr, cur, remain, v);
        StepsThen(m0, before, Snap(), paid, cost, r);
        paid := paid + cost;
        if !r.Registered? {
          StepsMore(m0, Snap(), paid, total, r);
          return;
        }
      }
      NoRest(v, end, page);
      assert Part(fr, start, end) == fr;
    }

    /**
     Adds every range of a sorted view within the width. Either a number ran out, of sections exactly if the
     view takes more than are left, or the structure represents the view.
     */
    method AddAll(view: seq<FlatRange>) returns (r: Outcome)
      requires Represents([]) && Sorted(view) && Within(view, SlotBase(0, Pages(), page))
      modifies this, shared, pm
      ensures Steps(old(Snap()), Snap(), ViewCost(view, |view|, page), r)
      ensures r.Registered? ==> Represents(view)
    {
      ghost var m0 := Snap();
      r := Registered;
      StepsNot(m0);
      for i := 0 to |view|
        invariant r == Registered && Represents(view[..i]) && Steps(m0, Snap(), ViewCost(view, i, page), Registered)
      {
        forall a | Contains(view[i].addr, a) ensures Lookup(view[..i], a).None? { LookupNone(view[..i], a); }
        assert view[..i + 1] == view[..i] + [view[i]];
        ghost var before := Snap();
        r := MemAdd(view[i], view[..i]);
        StepsThen(m0, before, Snap(), ViewCost(view, i, page), RangeCost(view[..i], view[i].addr, page), r);
        ViewCostGrows(view, i + 1, |view|, page);
        if !r.Registered? { return; }
      }
      assert view[..|view|] == view;
    }

    /** What the structure represents stays when another tree of the shared map grows. */
    twostate lemma StaysRepresented(new v: seq<FlatRange>, new other: nat)
      requires old(Represents(v)) && root == old(root) && subpages == old(subpages) && pm.Valid()
      requires other != id && MapGrew(old(Snap()), Snap(), pm.w, pm.levels, other) && |shared.sections| <= page
      ensures Represents(v)
    {
      var a, b := old(Snap()), Snap();
      assert EntryOk(a.nodes, a.info, root, id, pm.levels, 0);
      assert SamePages(a.nodes, b.nodes, root, pm.w, pm.levels);
      forall q: nat {:trigger PageAt(q)} | q < Pages() ensures PageAt(q) == old(PageAt(q)) {
        assert FindFrom(b.nodes, pm.w, root, pm.levels, q) == FindFrom(a.nodes, pm.w, root, pm.levels, q);
      }
      forall q: nat | q < Pages() ensures PageOk(q) { assert old(PageOk(q)); }
      forall k: nat | k < |subpages| ensures TableOk(k) { assert old(TableOk(k)); }
      forall q: nat, j: nat {:trigger Reach(q, j)} | q < Pages() && j < page
        ensures Agrees(Lookup(v, Addr(q, j)), Reach(q, j), Addr(q, j))
      {
        assert old(PageOk(q)) && PageOk(q);
        var sec := shared.sections[PageAt(q)];
        if sec.mr.SubpageMr? { assert old(TableOk(sec.mr.id)); }
        assert Reach(q, j) == old(Reach(q, j));
        assert old(Agrees(Lookup(v, Addr(q, j)), Reach(q, j), Addr(q, j)));
      }
      forall q: nat | q < Pages() ensures Used(v, q) { assert old(Used(v, q)); }
      forall q: nat | q < Pages() ensures TableAt(v, q) { assert old(PageOk(q)) && old(TableAt(v, q)) && PageOk(q); }
    }

    /** Every address is answered as the view answers the address it aliases, which inside the width is itself. */
    method Translate(a: nat, ghost v: seq<FlatRange>) returns (sec: Section, xlat: int)
      requires Represents(v)
      ensures var b := Aliased(pm.w, pm.levels, page, a);
              match Lookup(v, b)
              case None => sec.mr.Unassigned?
              case Some(t) => sec.mr == Region(t.mr) && xlat == t.offset + (a - b) && sec.readonly == t.readonly
    {
      sec := LookupRegion(a);
      xlat := a - sec.start + sec.offset;
    }

    /** Beyond its width the tree aliases: a page has the answer of that page modulo the width. */
    lemma BeyondWidthAliases(q: nat, m: nat)
      requires Valid() && q < Pages()
      ensures PageAt(q + m * Pages()) == PageAt(q)
    {
      FindWraps(pm.nodes, pm.w, root, pm.levels, q, m);
    }
  }

  lemma PageSplit(cur: nat, size: nat, p: nat)
    requires p >= 1 && cur % p == 0 && p <= size
    ensures var n := size - size % p; 0 < n <= size && size - n < p && n % p == 0 && (cur + n) % p == 0
  {
    Multiples(cur, size, p);
    Multiples(0, size, p);
  }

  /** What is left after whole pages is less than a page. */
  lemma LeftOver(size: nat, p: nat)
    requires p >= 1
    ensures (size % p) % p == size % p && size - (size - size % p) == size % p < p
  {
    DownMultiple(size % p, p);
  }

  lemma NoRest(v: seq<FlatRange>, end: nat, p: nat)
    requires p >= 1
    ensures RestCost(v, end, end, p) == 0
  {
  }

  /** Less than a page from a boundary ends in the page of that boundary. */
  lemma LastPage(cur: nat, size: nat, p: nat)
    requires p >= 1 && cur % p == 0 && 0 < size < p
    ensures size % p == size && (cur + size) / p == cur / p && 0 % p == 0
  {
    DownMultiple(size, p);
    DivUnique(cur + size, p, cur / p);
  }

  lemma HeadAligns(x: nat, p: nat)
    requires p >= 1
    ensures (x + (p - x % p)) % p == 0
  {
    assert x + (p - x % p) == (x / p + 1) * p;
    DivUnique(x + (p - x % p), p, x / p + 1);
  }

  lemma Multiples(x: nat, y: nat, p: nat)
    requires p >= 1 && x % p == 0
    ensures x == (x / p) * p && y - y % p == (y / p) * p
    ensures (x + (y - y % p)) % p == 0
  {
    assert x + (y - y % p) == (x / p + y / p) * p;
    DivUnique(x + (y - y % p), p, x / p + y / p);
  }

  /** The part [lo, hi) of a range. */
  function Part(fr: FlatRange, lo: int, hi: int): FlatRange {
    fr.(offset := fr.offset + (lo - fr.addr.start), addr := AddrRange(lo, hi - lo))
  }

  /** Showing two adjacent parts of a range is showing their union. */
  lemma PartsJoin(v: seq<FlatRange>, fr: FlatRange, mid: int, hi: int)
    requires fr.addr.start <= mid <= hi
    ensures forall a :: Lookup(v + [Part(fr, fr.addr.start, mid)] + [Part(fr, mid, hi)], a) ==
                        Lookup(v + [Part(fr, fr.addr.start, hi)], a)
  {
    var lo := fr.addr.start;
    forall a ensures Lookup(v + [Part(fr, lo, mid)] + [Part(fr, mid, hi)], a) == Lookup(v + [Part(fr, lo, hi)], a) {
      LookupConcat(v + [Part(fr, lo, mid)], [Part(fr, mid, hi)], a);
      LookupConcat(v, [Part(fr, lo, mid)], a);
      LookupConcat(v, [Part(fr, lo, hi)], a);
    }
  }

  lemma PartFree(v: seq<FlatRange>, fr: FlatRange, mid: int, hi: int)
    requires fr.addr.start <= mid <= hi <= End(fr.addr)
    requires forall a :: Contains(fr.addr, a) ==> Lookup(v, a).None?
    ensures forall a :: Contains(Part(fr, mid, hi).addr, a) ==> Lookup(v + [Part(fr, fr.addr.start, mid)], a).None?
  {
    forall a | Contains(Part(fr, mid, hi).addr, a) ensures Lookup(v + [Part(fr, fr.addr.start, mid)], a).None? {
      LookupConcat(v, [Part(fr, fr.addr.start, mid)], a);
    }
  }

  /** Dispatches of one shared map, each with a tree of its own. */
  ghost predicate Siblings(shared: NextMap, page: nat, ds: seq<AddressSpaceDispatch>) {
    && (forall i :: 0 <= i < |ds| ==> ds[i].shared == shared && ds[i].pm == shared.pm && ds[i].page == page)
    && (forall i, j :: 0 <= i < j < |ds| ==> ds[i] != ds[j] && ds[i].id != ds[j].id)
  }

  /** Begins a commit for `n` address spaces. */
  method BeginAll(shared: NextMap, page: nat, n: nat) returns (ds: seq<AddressSpaceDispatch>)
    requires shared.pm.Valid() && |DUMMIES| <= page && shared.sections == DUMMIES
    ensures |ds| == n && Siblings(shared, page, ds)
    ensures forall i :: 0 <= i < n ==> fresh(ds[i]) && ds[i].Represents([])
  {
    ds := [];
    for i := 0 to n
      invariant |ds| == i && Siblings(shared, page, ds)
      invariant forall k :: 0 <= k < i ==> fresh(ds[k]) && ds[k].id == k && ds[k].Represents([])
    {
      var d := new AddressSpaceDispatch(shared, page, i);
      ds := ds + [d];
    }
  }

  /** The first `n` dispatches represent their views and the others nothing. */
  ghost predicate FilledUpto(shared: NextMap, page: nat, ds: seq<AddressSpaceDispatch>, views: seq<seq<FlatRange>>,
                             n: nat)
    reads ds, shared, shared.pm
    requires |ds| == |views| && Siblings(shared, page, ds)
  {
    forall i {:trigger ds[i].Represents(Goal(views, i, n))} :: 0 <= i < |ds| ==> ds[i].Represents(Goal(views, i, n))
  }

  function Goal(views: seq<seq<FlatRange>>, i: nat, n: nat): seq<FlatRange>
    requires i < |views|
  {
    if i < n then views[i] else []
  }

  /** The view is sorted and within the width of the tree. */
  ghost predicate InTree(shared: NextMap, page: nat, v: seq<FlatRange>)
    requires shared.pm.w >= 2
  {
    Sorted(v) && Within(v, SlotBase(0, Pow(shared.pm.w, shared.pm.levels), page))
  }

  ghost function MapOf(shared: NextMap): MapState
    reads shared, shared.pm
  {
    MapState(shared.sections, shared.pm.nodes, shared.pm.info)
  }

  /**
   One commit fills the dispatches of all address spaces from one shared map. Either a number ran out, of sections
   exactly if the views take more than are left, or each dispatch represents its own view in the end.
   */
  method FillAll(shared: NextMap, page: nat, ds: seq<AddressSpaceDispatch>, views: seq<seq<FlatRange>>)
    returns (r: Outcome)
    requires |ds| == |views| && Siblings(shared, page, ds) && FilledUpto(shared, page, ds, views, 0)
    requires shared.pm.Valid() && 1 <= page && |shared.sections| <= page
    requires forall i {:trigger InTree(shared, page, views[i])} :: 0 <= i < |views| ==> InTree(shared, page, views[i])
    modifies ds, shared, shared.pm
    ensures Spent(old(MapOf(shared)), MapOf(shared), page, shared.pm.levels, TotalCost(views, |views|, page), r)
    ensures r.Registered? ==> FilledUpto(shared, page, ds, views, |views|)
  {
    ghost var m0 := MapOf(shared);
    r := Registered;
    for i := 0 to |ds|
      invariant r == Registered && FilledUpto(shared, page, ds, views, i) && shared.pm.Valid()
      invariant Spent(m0, MapOf(shared), page, shared.pm.levels, TotalCost(views, i, page), Registered)
    {
      ghost var before := MapOf(shared);
      assert InTree(shared, page, views[i]);
      r := FillOne(shared, page, ds, views, i);
      SpentThen(m0, before, MapOf(shared), page, shared.pm.levels,
                TotalCost(views, i, page), ViewCost(views[i], |views[i]|, page), r);
      TotalCostGrows(views, i + 1, |views|, page);
      if !r.Registered? { return; }
    }
  }

  /** Fills dispatch `i`; the others keep what they represent. */
  method FillOne(shared: NextMap, page: nat, ds: seq<AddressSpaceDispatch>, views: seq<seq<FlatRange>>, i: nat)
    returns (r: Outcome)
    requires i < |ds| == |views| && Siblings(shared, page, ds) && FilledUpto(shared, page, ds, views, i)
    requires shared.pm.Valid() && page >= 1
    requires InTree(shared, page, views[i])
    modifies ds[i], shared, shared.pm
    ensures Spent(old(MapOf(shared)), MapOf(shared), page, shared.pm.levels,
                  ViewCost(views[i], |views[i]|, page), r)
    ensures r.Registered? ==> FilledUpto(shared, page, ds, views, i + 1) && shared.pm.Valid()
  {
    assert ds[i].Represents(Goal(views, i, i));
    r := ds[i].AddAll(views[i]);
    if !r.Registered? { return; }
    forall j {:trigger ds[j].Represents(Goal(views, j, i + 1))} | 0 <= j < |ds|
      ensures ds[j].Represents(Goal(views, j, i + 1))
    {
      if j != i {
        assert old(ds[j].Represents(Goal(views, j, i)));
        ds[j].StaysRepresented(Goal(views, j, i), ds[i].id);
      }
    }
  }
}
