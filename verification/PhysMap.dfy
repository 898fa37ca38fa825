/**
 The multi-level page map (exec.c): a radix tree whose nodes all live in one
 array shared by every address space. `FindFrom` is the lookup; `Info` records,
 for each node, the root that owns it, its level and the first page it covers.
 */
module PhysMap {
  import opened Arithmetic

  const NODE_NIL: nat := 32767
  const UNASSIGNED: nat := 0

  datatype Entry = Nil | Inner(ptr: nat) | Leaf(section: nat)

  datatype Info = Info(root: nat, level: nat, base: nat)

  type Node = seq<Entry>

  /** Where slot `i` of a node starting at `base` begins; slots cover `s` pages each. */
  function SlotBase(base: nat, i: nat, s: nat): nat {
    if i == 0 then base else SlotBase(base, i - 1, s) + s
  }

  lemma SlotsOrdered(base: nat, i: nat, j: nat, s: nat)
    requires i < j
    ensures base <= SlotBase(base, i, s) && SlotBase(base, i, s) + s <= SlotBase(base, j, s)
  {
    if i > 0 { SlotsOrdered(base, i - 1, j - 1, s); }
    if i + 1 < j { SlotsOrdered(base, i, j - 1, s); }
  }

  lemma SlotBaseMul(base: nat, i: nat, s: nat)
    ensures SlotBase(base, i, s) == base + i * s
  {
    if i > 0 {
      SlotBaseMul(base, i - 1, s);
      assert i * s == (i - 1) * s + s;
    }
  }

  /** The pages an entry of height `h` covers: `w` to the power `h`. */
  function Pow(w: nat, h: nat): (p: nat)
    requires w >= 2
    ensures p >= 1
  {
    if h == 0 then 1
    else
      SlotsOrdered(0, 0, w, Pow(w, h - 1));
      SlotBase(0, w, Pow(w, h - 1))
  }

  /** The slot that page `q` uses in a node whose slots cover `s` pages each. */
  function Slot(q: nat, s: nat, w: nat): (i: nat)
    requires s >= 1 && w >= 2
    ensures i < w
  {
    (q / s) % w
  }

  /** Slot `i` lies inside the node, and the slots fill it. */
  lemma SlotInside(w: nat, h: nat, base: nat, i: nat)
    requires w >= 2 && i < w
    ensures base <= SlotBase(base, i, Pow(w, h)) && SlotBase(base, i, Pow(w, h)) + Pow(w, h) <= base + Pow(w, h + 1)
    ensures SlotBase(base, w, Pow(w, h)) == base + Pow(w, h + 1)
  {
    SlotsOrdered(base, i, w, Pow(w, h));
    SlotBaseMul(base, w, Pow(w, h));
    SlotBaseMul(0, w, Pow(w, h));
  }

  lemma SlotArithmetic(base: nat, s: nat, w: nat, i: nat, q: nat)
    requires s >= 1 && w >= 2 && base % (w * s) == 0 && i < w && base + i * s <= q < base + i * s + s
    ensures (q / s) % w == i && (base + i * s) % s == 0
  {
    var k := base / (w * s);
    SlotMultiple(k, w, s, i);
    assert base == k * (w * s);
    DivUnique(q, s, k * w + i);
    DivUnique(base + i * s, s, k * w + i);
    DivUnique(k * w + i, w, k);
  }

  lemma SlotMultiple(k: nat, w: nat, s: nat, i: nat)
    ensures k * (w * s) + i * s == (k * w + i) * s
  {
    assert k * (w * s) == (k * w) * s;
  }

  lemma OnlyMultiple(lo: nat, s: nat, q: nat)
    requires s >= 1 && lo % s == 0 && lo <= q < lo + s
    ensures q % s == 0 <==> q == lo
  {
    var k := lo / s;
    assert lo == k * s;
    DivUnique(q, s, k);
  }

  /** Page `q` of an aligned node uses slot `i` exactly when slot `i` covers it. */
  lemma SlotCovers(w: nat, h: nat, base: nat, i: nat, q: nat)
    requires w >= 2 && base % Pow(w, h + 1) == 0 && i < w
    requires SlotBase(base, i, Pow(w, h)) <= q < SlotBase(base, i, Pow(w, h)) + Pow(w, h)
    ensures Slot(q, Pow(w, h), w) == i
    ensures SlotBase(base, i, Pow(w, h)) % Pow(w, h) == 0
    ensures q % Pow(w, h) == 0 <==> q == SlotBase(base, i, Pow(w, h))
  {
    SlotBaseMul(base, i, Pow(w, h));
    SlotBaseMul(0, w, Pow(w, h));
    SlotArithmetic(base, Pow(w, h), w, i, q);
    OnlyMultiple(SlotBase(base, i, Pow(w, h)), Pow(w, h), q);
  }

  lemma SlotOfPage(w: nat, h: nat, base: nat, q: nat)
    requires w >= 2 && base % Pow(w, h + 1) == 0 && base <= q < base + Pow(w, h + 1)
    ensures var sb := SlotBase(base, Slot(q, Pow(w, h), w), Pow(w, h)); sb <= q < sb + Pow(w, h)
  {
    var s := Pow(w, h);
    var i := (q - base) / s;
    assert i * s <= q - base < i * s + s;
    SlotBaseMul(base, i, s);
    SlotInside(w, h, base, 0);
    if i >= w && w < i { SlotsOrdered(base, w, i, s); }
    SlotCovers(w, h, base, i, q);
  }

  /** The section that page `q` reaches from entry `e`, which covers `Pow(w, h)` pages. */
  function FindFrom(nodes: seq<Node>, w: nat, e: Entry, h: nat, q: nat): nat
    requires w >= 2
    decreases h
  {
    match e
    case Leaf(s) => s
    case Nil => UNASSIGNED
    case Inner(p) =>
      if h == 0 || p >= |nodes| || |nodes[p]| != w then UNASSIGNED
      else FindFrom(nodes, w, nodes[p][Slot(q, Pow(w, h - 1), w)], h - 1, q)
  }

  /** Entry `e` covers the `Pow(w, h)` pages from `base` of tree `root`. */
  ghost predicate EntryOk(nodes: seq<Node>, info: seq<Info>, e: Entry, root: nat, h: nat, base: nat)
    requires |info| == |nodes|
  {
    match e
    case Nil => h > 0
    case Inner(p) => h > 0 && p < |nodes| && info[p] == Info(root, h - 1, base)
    case Leaf(s) => s == UNASSIGNED ==> h == 0
  }

  ghost predicate NodeOk(nodes: seq<Node>, info: seq<Info>, w: nat, n: nat)
    requires w >= 2 && |info| == |nodes| && n < |nodes|
  {
    && |nodes[n]| == w
    && info[n].base % Pow(w, info[n].level + 1) == 0
    && forall i {:trigger nodes[n][i]} :: 0 <= i < w ==>
         EntryOk(nodes, info, nodes[n][i], info[n].root, info[n].level,
                 SlotBase(info[n].base, i, Pow(w, info[n].level)))
  }

  ghost predicate NodesOk(nodes: seq<Node>, info: seq<Info>, w: nat) {
    && w >= 2 && |info| == |nodes|
    && forall n: nat {:trigger NodeOk(nodes, info, w, n)} :: n < |nodes| ==> NodeOk(nodes, info, w, n)
  }

  /** Node `n` may belong to the part of tree `root` below height `h` that starts at `base`. */
  ghost predicate InPart(info: seq<Info>, n: nat, w: nat, root: nat, h: nat, base: nat)
    requires n < |info| && w >= 2
  {
    info[n].root == root && info[n].level < h && base <= info[n].base < base + Pow(w, h)
  }

  /** Lookups depend only on the nodes of their part. */
  lemma {:induction false} FindFrame(nodes: seq<Node>, info: seq<Info>, nodes2: seq<Node>, w: nat,
                                     e: Entry, root: nat, h: nat, base: nat, q: nat)
    requires NodesOk(nodes, info, w) && EntryOk(nodes, info, e, root, h, base)
    requires base <= q < base + Pow(w, h) && |nodes| <= |nodes2|
    requires forall n: nat {:trigger InPart(info, n, w, root, h, base)} ::
      n < |nodes| && InPart(info, n, w, root, h, base) ==> nodes2[n] == nodes[n]
    ensures FindFrom(nodes2, w, e, h, q) == FindFrom(nodes, w, e, h, q)
    decreases h
  {
    if e.Inner? {
      var p, s := e.ptr, Pow(w, h - 1);
      assert NodeOk(nodes, info, w, p) && InPart(info, p, w, root, h, base);
      SlotOfPage(w, h - 1, base, q);
      var i := Slot(q, s, w);
      SlotInside(w, h - 1, base, i);
      var sb := SlotBase(base, i, s);
      forall n: nat | n < |nodes| && InPart(info, n, w, root, h - 1, sb) ensures nodes2[n] == nodes[n] {
        assert InPart(info, n, w, root, h, base);
      }
      FindFrame(nodes, info, nodes2, w, nodes[p][i], root, h - 1, sb, q);
    }
  }

  /** Everything outside one part of a tree stays as it was. */
  ghost predicate OnlyPart(nodes: seq<Node>, info: seq<Info>, nodes1: seq<Node>, info1: seq<Info>,
                           w: nat, root: nat, h: nat, base: nat)
    requires w >= 2 && |info| == |nodes| && |info1| == |nodes1|
  {
    && info <= info1
    && forall n: nat {:trigger InPart(info, n, w, root, h, base)} :: n < |nodes| ==>
         InPart(info, n, w, root, h, base) || nodes1[n] == nodes[n]
  }

  lemma NodeKept(nodes: seq<Node>, info: seq<Info>, nodes1: seq<Node>, info1: seq<Info>, w: nat, n: nat)
    requires w >= 2 && |info| == |nodes| && |info1| == |nodes1| && info <= info1
    requires n < |nodes| && NodeOk(nodes, info, w, n) && nodes1[n] == nodes[n]
    ensures NodeOk(nodes1, info1, w, n)
  {
  }

  ghost predicate SlotReplaced(nodes: seq<Node>, nodes1: seq<Node>, nodes2: seq<Node>, w: nat,
                               h: nat, base: nat, sb: nat, p: nat, e: Entry)
    requires w >= 2
  {
    forall q: nat {:trigger FindFrom(nodes2, w, Inner(p), h + 1, q)} :: base <= q < base + Pow(w, h + 1) ==>
      FindFrom(nodes2, w, Inner(p), h + 1, q) ==
      if sb <= q < sb + Pow(w, h) then FindFrom(nodes1, w, e, h, q) else FindFrom(nodes, w, Inner(p), h + 1, q)
  }

  lemma NodesUpdated(nodes: seq<Node>, info: seq<Info>, w: nat, p: nat, i: nat, e: Entry)
    requires NodesOk(nodes, info, w) && p < |nodes| && i < w && |nodes[p]| == w
    requires EntryOk(nodes, info, e, info[p].root, info[p].level, SlotBase(info[p].base, i, Pow(w, info[p].level)))
    ensures NodesOk(nodes[p := nodes[p][i := e]], info, w)
  {
    var nodes2 := nodes[p := nodes[p][i := e]];
    forall n: nat | n < |nodes2| ensures NodeOk(nodes2, info, w, n) {
      assert NodeOk(nodes, info, w, n);
      if n != p { NodeKept(nodes, info, nodes2, info, w, n); }
    }
  }

  /** Replacing slot `i` of node `p` changes the lookup of the pages of that slot and of no other. */
  lemma SlotUpdate(nodes: seq<Node>, info: seq<Info>, nodes1: seq<Node>, info1: seq<Info>, w: nat,
                   root: nat, h: nat, base: nat, p: nat, i: nat, e: Entry)
    requires NodesOk(nodes, info, w) && NodesOk(nodes1, info1, w)
    requires p < |nodes| && info[p] == Info(root, h, base) && i < w
    requires OnlyPart(nodes, info, nodes1, info1, w, root, h, SlotBase(base, i, Pow(w, h)))
    requires EntryOk(nodes1, info1, e, root, h, SlotBase(base, i, Pow(w, h)))
    requires |nodes1[p]| == w
    ensures var sb, nodes2 := SlotBase(base, i, Pow(w, h)), nodes1[p := nodes1[p][i := e]];
            NodesOk(nodes2, info1, w) && SlotReplaced(nodes, nodes1, nodes2, w, h, base, sb, p, e)
  {
    var nodes2 := nodes1[p := nodes1[p][i := e]];
    var sb := SlotBase(base, i, Pow(w, h));
    NodesUpdated(nodes1, info1, w, p, i, e);
    forall q: nat {:trigger FindFrom(nodes2, w, Inner(p), h + 1, q)} | base <= q < base + Pow(w, h + 1)
      ensures FindFrom(nodes2, w, Inner(p), h + 1, q) ==
              if sb <= q < sb + Pow(w, h) then FindFrom(nodes1, w, e, h, q) else FindFrom(nodes, w, Inner(p), h + 1, q)
    {
      SlotUpdateAt(nodes, info, nodes1, info1, w, root, h, base, p, i, e, q);
    }
  }

  lemma SlotUpdateAt(nodes: seq<Node>, info: seq<Info>, nodes1: seq<Node>, info1: seq<Info>, w: nat,
                     root: nat, h: nat, base: nat, p: nat, i: nat, e: Entry, q: nat)
    requires NodesOk(nodes, info, w) && NodesOk(nodes1, info1, w)
    requires p < |nodes| && info[p] == Info(root, h, base) && i < w
    requires OnlyPart(nodes, info, nodes1, info1, w, root, h, SlotBase(base, i, Pow(w, h)))
    requires EntryOk(nodes1, info1, e, root, h, SlotBase(base, i, Pow(w, h)))
    requires |nodes1[p]| == w && base <= q < base + Pow(w, h + 1)
    ensures var sb, nodes2 := SlotBase(base, i, Pow(w, h)), nodes1[p := nodes1[p][i := e]];
            FindFrom(nodes2, w, Inner(p), h + 1, q) ==
            if sb <= q < sb + Pow(w, h) then FindFrom(nodes1, w, e, h, q) else FindFrom(nodes, w, Inner(p), h + 1, q)
  {
    var s, nodes2 := Pow(w, h), nodes1[p := nodes1[p][i := e]];
    var sb := SlotBase(base, i, s);
    assert NodeOk(nodes, info, w, p) && !InPart(info, p, w, root, h, sb);
    SlotOfPage(w, h, base, q);
    var j := Slot(q, s, w);
    if sb <= q < sb + s {
      SlotCovers(w, h, base, i, q);
      forall n: nat | n < |nodes1| && InPart(info1, n, w, root, h, sb) ensures nodes2[n] == nodes1[n] {
        assert n != p;
      }
      FindFrame(nodes1, info1, nodes2, w, e, root, h, sb, q);
    } else {
      OtherSlot(nodes, info, nodes2, w, root, h, base, p, i, j, q);
    }
  }

  lemma OtherSlot(nodes: seq<Node>, info: seq<Info>, nodes2: seq<Node>, w: nat,
                  root: nat, h: nat, base: nat, p: nat, i: nat, j: nat, q: nat)
    requires NodesOk(nodes, info, w) && p < |nodes| && info[p] == Info(root, h, base)
    requires i < w && j < w && i != j && |nodes| <= |nodes2| && |nodes[p]| == w
    requires SlotBase(base, j, Pow(w, h)) <= q < SlotBase(base, j, Pow(w, h)) + Pow(w, h)
    requires forall n: nat {:trigger InPart(info, n, w, root, h, SlotBase(base, i, Pow(w, h)))} ::
      n < |nodes| && n != p ==> InPart(info, n, w, root, h, SlotBase(base, i, Pow(w, h))) || nodes2[n] == nodes[n]
    ensures FindFrom(nodes2, w, nodes[p][j], h, q) == FindFrom(nodes, w, nodes[p][j], h, q)
  {
    var s := Pow(w, h);
    var bi, bj := SlotBase(base, i, s), SlotBase(base, j, s);
    assert NodeOk(nodes, info, w, p);
    assert bi + s <= bj || bj + s <= bi by {
      if i < j { SlotsOrdered(base, i, j, s); } else { SlotsOrdered(base, j, i, s); }
    }
    forall n: nat | n < |nodes| && InPart(info, n, w, root, h, bj) ensures nodes2[n] == nodes[n] {
      assert n != p && !InPart(info, n, w, root, h, bi);
    }
    FindFrame(nodes, info, nodes2, w, nodes[p][j], root, h, bj, q);
  }

  /** Entry `f` finds what entry `e` found, except that the pages in [lo, hi) now find `leaf`. */
  ghost predicate SetOn(nodes: seq<Node>, e: Entry, nodes1: seq<Node>, f: Entry, w: nat, h: nat, base: nat,
                        lo: nat, hi: nat, leaf: nat)
    requires w >= 2
  {
    forall q: nat {:trigger FindFrom(nodes1, w, f, h, q)} :: base <= q < base + Pow(w, h) ==>
      FindFrom(nodes1, w, f, h, q) == if lo <= q < hi then leaf else FindFrom(nodes, w, e, h, q)
  }

  /** The pages in [lo, hi) are free. */
  ghost predicate Free(nodes: seq<Node>, e: Entry, w: nat, h: nat, lo: nat, hi: nat)
    requires w >= 2
  {
    forall q: nat {:trigger FindFrom(nodes, w, e, h, q)} :: lo <= q < hi ==> FindFrom(nodes, w, e, h, q) == UNASSIGNED
  }

  /** Most nodes one call allocates; fewer when the range touches an end of the part it works on. */
  function Budget(h: nat, oneSided: bool): nat {
    if h == 0 then 0 else if oneSided then h else 2 * h - 1
  }

  class PhysPageMap {
    const w: nat
    const levels: nat
    var nodes: seq<Node>
    var cap: nat
    ghost var info: seq<Info>

    ghost predicate Valid()
      reads this
    {
      levels >= 1 && NodesOk(nodes, info, w) && |nodes| <= cap && |nodes| <= NODE_NIL
    }

    constructor (w: nat, levels: nat)
      requires w >= 2 && levels >= 1
      ensures Valid() && nodes == [] && this.w == w && this.levels == levels
    {
      this.w, this.levels := w, levels;
      nodes, cap, info := [], 0, [];
    }

    method Reserve(n: nat)
      requires Valid()
      modifies this`cap
      ensures Valid() && |nodes| + n <= cap
    {
      if |nodes| + n > cap {
        cap := if cap * 2 < 16 then 16 else cap * 2;
        cap := if cap < |nodes| + n then |nodes| + n else cap;
      }
    }

    /**
     Appends a node of free pages. The source asserts that the number of the node is not the reserved one, which
     may fail, and that it is below the reservation, which holds.
     */
    method NodeAlloc(h: nat, ghost root: nat, ghost base: nat) returns (ok: bool, p: nat)
      requires Valid() && h >= 1 && base % Pow(w, h) == 0 && |nodes| < cap
      modifies this`nodes, this`info
      ensures ok <==> |old(nodes)| != NODE_NIL
      ensures ok ==> p == |old(nodes)| && |nodes| == p + 1 && Valid() && info == old(info) + [Info(root, h - 1, base)]
      ensures ok ==> OnlyPart(old(nodes), old(info), nodes, info, w, root, h, base)
      ensures ok ==> SetOn(old(nodes), Nil, nodes, Inner(p), w, h, base, base, base, UNASSIGNED)
      ensures !ok ==> nodes == old(nodes)
    {
      p := |nodes|;
      ok := p != NODE_NIL;
      if !ok { return; }
      var free := if h == 1 then Leaf(UNASSIGNED) else Nil;
      ghost var nodes0, info0 := nodes, info;
      nodes := nodes + [seq(w, _ => free)];
      info := info + [Info(root, h - 1, base)];
      forall n: nat | n < |nodes| ensures NodeOk(nodes, info, w, n) {
        if n < p {
          assert NodeOk(nodes0, info0, w, n);
          NodeKept(nodes0, info0, nodes, info, w, n);
        }
      }
    }

    /** The section that page `q` reaches from the root entry `lp`. */
    method Find(lp: Entry, q: nat) returns (section: nat)
      requires Valid()
      ensures section == FindFrom(nodes, w, lp, levels, q)
    {
      var e, h: nat := lp, levels;
      while h > 0 && !e.Leaf?
        invariant h <= levels && FindFrom(nodes, w, e, h, q) == FindFrom(nodes, w, lp, levels, q)
        decreases h
      {
        if e.Nil? || e.ptr >= |nodes| || |nodes[e.ptr]| != w { return UNASSIGNED; }
        e, h := nodes[e.ptr][Slot(q, Pow(w, h - 1), w)], h - 1;
      }
      return if e.Leaf? then e.section else UNASSIGNED;
    }

    /**
     Sets free pages of tree `root`: the lookup returns `leaf` exactly on [index, index + nb) and is
     unchanged on every other page, of this tree and of every other; at most 2 * levels - 1 nodes
     are allocated, which the reservation covers. Fails, as the source aborts, only when the node numbers
     are used up.
     */
    method PageSet(lp: Entry, index: nat, nb: nat, leaf: nat, ghost root: nat) returns (ok: bool, lp2: Entry)
      requires Valid() && nb > 0 && leaf != UNASSIGNED && index + nb <= Pow(w, levels)
      requires EntryOk(nodes, info, lp, root, levels, 0) && Free(nodes, lp, w, levels, index, index + nb)
      modifies this
      ensures ok ==> Valid() && EntryOk(nodes, info, lp2, root, levels, 0)
      ensures ok ==> SetOn(old(nodes), lp, nodes, lp2, w, levels, 0, index, index + nb, leaf)
      ensures ok ==> |nodes| <= |old(nodes)| + 2 * levels - 1
      ensures ok ==> KeepsOthers(old(nodes), old(info), nodes, info, w, levels, root)
      ensures !ok ==> |nodes| == NODE_NIL < |old(nodes)| + 2 * levels - 1
    {
      Reserve(3 * levels);
      var index2, nb2;
      ok, lp2, index2, nb2 := SetLevel(lp, index, nb, leaf, levels, root, 0);
      if ok { OtherRoots(old(nodes), old(info), nodes, info, w, root, levels); }
    }

    /**
     Sets the pages of [index0, index0 + nb0) that slot `i` of node `p` covers: as one leaf when
     they are the whole slot, otherwise one level down.
     */
    method SetSlot(p: nat, i: nat, index0: nat, nb0: nat, leaf: nat, h: nat,
                   ghost root: nat, ghost base: nat, ghost sb: nat)
      returns (ok: bool, index: nat, nb: nat)
      requires Valid() && nb0 > 0 && leaf != UNASSIGNED && i < w && sb == SlotBase(base, i, Pow(w, h))
      requires p < |nodes| && info[p] == Info(root, h, base) && sb <= index0 < sb + Pow(w, h)
      requires Free(nodes, Inner(p), w, h + 1, index0, Min(index0 + nb0, sb + Pow(w, h)))
      requires |nodes| + SlotBudget(w, h, sb, index0, nb0) <= cap
      modifies this`nodes, this`info
      ensures ok ==> Valid() && p < |info| && info[p] == Info(root, h, base)
      ensures ok ==> index == Min(index0 + nb0, sb + Pow(w, h)) && index + nb == index0 + nb0
      ensures ok ==> SetOn(old(nodes), Inner(p), nodes, Inner(p), w, h + 1, base, index0, index, leaf)
      ensures ok ==> OnlyPart(old(nodes), old(info), nodes, info, w, root, h + 1, base)
      ensures ok ==> |nodes| <= |old(nodes)| + SlotBudget(w, h, sb, index0, nb0)
      ensures !ok ==> |nodes| == NODE_NIL < |old(nodes)| + SlotBudget(w, h, sb, index0, nb0)
      decreases 2 * h + 1, 0
    {
      var s := Pow(w, h);
      ghost var nodes0, info0 := nodes, info;
      assert NodeOk(nodes, info, w, p);
      SlotCovers(w, h, base, i, index0);
      if index0 % s == 0 && nb0 >= s {
        SlotUpdate(nodes, info, nodes, info, w, root, h, base, p, i, Leaf(leaf));
        PartWidens(nodes, info, nodes, info, w, root, h, base, p, i, Leaf(leaf));
        nodes := nodes[p := nodes[p][i := Leaf(leaf)]];
        ok, index, nb := true, index0 + s, nb0 - s;
      } else {
        var e;
        SlotFree(nodes, info, w, root, h, base, p, i, index0, Min(index0 + nb0, sb + s));
        ok, e, index, nb := SetLevel(nodes[p][i], index0, nb0, leaf, h, root, sb);
        if !ok { return; }
        assert NodeOk(nodes, info, w, p);
        SlotUpdate(nodes0, info0, nodes, info, w, root, h, base, p, i, e);
        PartWidens(nodes0, info0, nodes, info, w, root, h, base, p, i, e);
        SlotSet(nodes0, info0, nodes, w, root, h, base, p, i, e, index0, index, leaf);
        nodes := nodes[p := nodes[p][i := e]];
      }
    }

    /** Sets the pages of [index0, index0 + nb0) that the part below entry `lp` covers. */
    method SetLevel(lp: Entry, index0: nat, nb0: nat, leaf: nat, h: nat, ghost root: nat, ghost base: nat)
      returns (ok: bool, lp2: Entry, index: nat, nb: nat)
      requires Valid() && h >= 1 && nb0 > 0 && leaf != UNASSIGNED
      requires EntryOk(nodes, info, lp, root, h, base) && base % Pow(w, h) == 0
      requires base <= index0 < base + Pow(w, h)
      requires Free(nodes, lp, w, h, index0, Min(index0 + nb0, base + Pow(w, h)))
      requires |nodes| + Budget(h, index0 == base || index0 + nb0 >= base + Pow(w, h)) <= cap
      modifies this`nodes, this`info
      ensures ok ==> Valid() && lp2.Inner? && EntryOk(nodes, info, lp2, root, h, base)
      ensures ok ==> index == Min(index0 + nb0, base + Pow(w, h)) && index + nb == index0 + nb0
      ensures ok ==> SetOn(old(nodes), lp, nodes, lp2, w, h, base, index0, index, leaf)
      ensures ok ==> OnlyPart(old(nodes), old(info), nodes, info, w, root, h, base)
      ensures ok ==> |nodes| <= |old(nodes)| + Budget(h, index0 == base || index0 + nb0 >= base + Pow(w, h))
      ensures !ok ==>
        |nodes| == NODE_NIL < |old(nodes)| + Budget(h, index0 == base || index0 + nb0 >= base + Pow(w, h))
      decreases 2 * h, 0
    {
      var p;
      lp2, index, nb := lp, index0, nb0;
      ghost var nodes0, info0 := nodes, info;
      assert FindFrom(nodes, w, lp, h, index0) == UNASSIGNED;
      if lp.Nil? {
        ok, p := NodeAlloc(h, root, base);
        if !ok { return; }
        FreeRest(nodes0, lp, nodes, Inner(p), w, h, base, index0, index0, Min(index0 + nb0, base + Pow(w, h)), leaf);
      } else {
        p := lp.ptr;
      }
      ghost var nodes1, info1 := nodes, info;
      ok, index, nb := SetNode(p, index0, nb0, leaf, h - 1, root, base);
      if !ok { return; }
      lp2 := Inner(p);
      SetOnTransitive(nodes0, lp, nodes1, nodes, lp2, w, h, base, index0, index0, index, leaf);
      OnlyPartTransitive(nodes0, info0, nodes1, info1, nodes, info, w, root, h, base);
    }

    /** Sets slot `i` of node `p` after the pages from `lo` to `index0` were set. */
    method NextSlot(p: nat, i: nat, index0: nat, nb0: nat, leaf: nat, h: nat, ghost nodes0: seq<Node>,
                    ghost info0: seq<Info>, ghost lo: nat, ghost root: nat, ghost base: nat, ghost sb: nat)
      returns (ok: bool, index: nat, nb: nat)
      requires Valid() && nb0 > 0 && leaf != UNASSIGNED && i < w && sb == SlotBase(base, i, Pow(w, h))
      requires p < |nodes| && info[p] == Info(root, h, base) && sb <= index0 < sb + Pow(w, h) <= base + Pow(w, h + 1)
      requires base <= lo <= index0 && |nodes0| == |info0|
      requires Free(nodes0, Inner(p), w, h + 1, lo, Min(index0 + nb0, base + Pow(w, h + 1)))
      requires SetOn(nodes0, Inner(p), nodes, Inner(p), w, h + 1, base, lo, index0, leaf)
      requires OnlyPart(nodes0, info0, nodes, info, w, root, h + 1, base)
      requires |nodes| + SlotBudget(w, h, sb, index0, nb0) <= cap
      modifies this`nodes, this`info
      ensures ok ==> Valid() && p < |info| && info[p] == Info(root, h, base)
      ensures ok ==> index == Min(index0 + nb0, sb + Pow(w, h)) && index + nb == index0 + nb0
      ensures ok ==> SetOn(nodes0, Inner(p), nodes, Inner(p), w, h + 1, base, lo, index, leaf)
      ensures ok ==> OnlyPart(nodes0, info0, nodes, info, w, root, h + 1, base)
      ensures ok ==> |nodes| <= |old(nodes)| + SlotBudget(w, h, sb, index0, nb0)
      ensures !ok ==> |nodes| == NODE_NIL < |old(nodes)| + SlotBudget(w, h, sb, index0, nb0)
      decreases 2 * h + 1, 1
    {
      ghost var nodes1, info1 := nodes, info;
      FreeRest(nodes0, Inner(p), nodes, Inner(p), w, h + 1, base, lo, index0, Min(index0 + nb0, sb + Pow(w, h)), leaf);
      ok, index, nb := SetSlot(p, i, index0, nb0, leaf, h, root, base, sb);
      if !ok { return; }
      SetOnTransitive(nodes0, Inner(p), nodes1, nodes, Inner(p), w, h + 1, base, lo, index0, index, leaf);
      OnlyPartTransitive(nodes0, info0, nodes1, info1, nodes, info, w, root, h + 1, base);
    }

    /** Walks the slots of node `p` from the one that covers `index0`. */
    method SetNode(p: nat, index0: nat, nb0: nat, leaf: nat, h: nat, ghost root: nat, ghost base: nat)
      returns (ok: bool, index: nat, nb: nat)
      requires Valid() && nb0 > 0 && leaf != UNASSIGNED
      requires p < |nodes| && info[p] == Info(root, h, base) && base <= index0 < base + Pow(w, h + 1)
      requires Free(nodes, Inner(p), w, h + 1, index0, Min(index0 + nb0, base + Pow(w, h + 1)))
      requires |nodes| + Budget(h + 1, index0 == base || index0 + nb0 >= base + Pow(w, h + 1)) <= cap + 1
      modifies this`nodes, this`info
      ensures ok ==> Valid() && p < |info| && info[p] == Info(root, h, base)
      ensures ok ==> index == Min(index0 + nb0, base + Pow(w, h + 1)) && index + nb == index0 + nb0
      ensures ok ==> SetOn(old(nodes), Inner(p), nodes, Inner(p), w, h + 1, base, index0, index, leaf)
      ensures ok ==> OnlyPart(old(nodes), old(info), nodes, info, w, root, h + 1, base)
      ensures ok ==> |nodes| < |old(nodes)| + Budget(h + 1, index0 == base || index0 + nb0 >= base + Pow(w, h + 1))
      ensures !ok ==>
        |nodes| == NODE_NIL < |old(nodes)| + Budget(h + 1, index0 == base || index0 + nb0 >= base + Pow(w, h + 1)) - 1
      decreases 2 * h + 1, 2
    {
      var s := Pow(w, h);
      ok, index, nb := true, index0, nb0;
      var i: nat := Slot(index, s, w);
      assert NodeOk(nodes, info, w, p);
      SlotOfPage(w, h, base, index);
      SlotInside(w, h, base, i);
      ghost var nodes0, info0, first, end := nodes, info, SlotBase(base, i, s), base + Pow(w, h + 1);
      ghost var sb, budget := first, Budget(h + 1, index0 == base || index0 + nb0 >= end);
      while nb > 0 && i < w
        invariant ok && Valid() && p < |nodes| && info[p] == Info(root, h, base)
        invariant i <= w && sb == SlotBase(base, i, s) && index0 <= index <= end && index + nb == index0 + nb0
        invariant nb > 0 && i < w ==> sb <= index < sb + s
        invariant nb > 0 && i == w ==> index == end
        invariant nb > 0 ==> if index == index0 then sb == first else index == sb
        invariant SetOn(nodes0, Inner(p), nodes, Inner(p), w, h + 1, base, index0, index, leaf)
        invariant OnlyPart(nodes0, info0, nodes, info, w, root, h + 1, base)
        invariant nb > 0 ==> |nodes| <= |nodes0| + (if index == index0 || index0 == first then 0 else h)
        invariant nb == 0 ==> |nodes| < |nodes0| + budget
      {
        SlotInside(w, h, base, i);
        BudgetStep(w, h, base, end, first, sb, index0, nb0, index, nb, |nodes| - |nodes0|);
        ok, index, nb := NextSlot(p, i, index, nb, leaf, h, nodes0, info0, index0, root, base, sb);
        if !ok { return; }
        i, sb := i + 1, sb + s;
      }
    }
  }

  /** Most nodes needed to set part of one slot, which starts at `sb`. */
  function SlotBudget(w: nat, h: nat, sb: nat, index: nat, nb: nat): nat
    requires w >= 2
  {
    if index == sb && nb >= Pow(w, h) then 0
    else Budget(h, index == sb || index + nb >= sb + Pow(w, h))
  }

  /** The nodes allocated so far plus those of the next slot stay within the budget of the whole call. */
  lemma BudgetStep(w: nat, h: nat, base: nat, end: nat, first: nat, sb: nat, index0: nat, nb0: nat,
                   index: nat, nb: nat, used: int)
    requires w >= 2 && nb > 0 && index0 <= index && index + nb == index0 + nb0
    requires base <= first <= index0 && base <= sb <= index < sb + Pow(w, h) <= end
    requires if index == index0 then sb == first else index == sb
    requires used <= if index == index0 || index0 == first then 0 else h
    ensures var more := SlotBudget(w, h, sb, index, nb);
            && used + more < Budget(h + 1, index0 == base || index0 + nb0 >= end)
            && (index + nb > sb + Pow(w, h) ==> used + more <= if index0 == first then 0 else h)
  {
  }

  lemma FreeRest(nodes: seq<Node>, e: Entry, nodes1: seq<Node>, f: Entry, w: nat, h: nat, base: nat,
                 lo: nat, mid: nat, hi: nat, leaf: nat)
    requires w >= 2 && base <= lo <= mid && hi <= base + Pow(w, h)
    requires SetOn(nodes, e, nodes1, f, w, h, base, lo, mid, leaf) && Free(nodes, e, w, h, lo, hi)
    ensures Free(nodes1, f, w, h, mid, hi)
  {
  }

  lemma SetOnTransitive(nodes: seq<Node>, e: Entry, nodes1: seq<Node>, nodes2: seq<Node>, f: Entry, w: nat, h: nat,
                        base: nat, lo: nat, mid: nat, hi: nat, leaf: nat)
    requires w >= 2 && lo <= mid <= hi
    requires SetOn(nodes, e, nodes1, f, w, h, base, lo, mid, leaf)
    requires SetOn(nodes1, f, nodes2, f, w, h, base, mid, hi, leaf)
    ensures SetOn(nodes, e, nodes2, f, w, h, base, lo, hi, leaf)
  {
    forall q: nat | base <= q < base + Pow(w, h)
      ensures FindFrom(nodes2, w, f, h, q) == if lo <= q < hi then leaf else FindFrom(nodes, w, e, h, q)
    {
      assert FindFrom(nodes1, w, f, h, q) == if lo <= q < mid then leaf else FindFrom(nodes, w, e, h, q);
    }
  }

  lemma OnlyPartTransitive(nodes: seq<Node>, info: seq<Info>, nodes1: seq<Node>, info1: seq<Info>,
                           nodes2: seq<Node>, info2: seq<Info>, w: nat, root: nat, h: nat, base: nat)
    requires w >= 2 && |info| == |nodes| && |info1| == |nodes1| && |info2| == |nodes2|
    requires OnlyPart(nodes, info, nodes1, info1, w, root, h, base)
    requires OnlyPart(nodes1, info1, nodes2, info2, w, root, h, base)
    ensures OnlyPart(nodes, info, nodes2, info2, w, root, h, base)
  {
    forall n: nat | n < |nodes| ensures InPart(info, n, w, root, h, base) || nodes2[n] == nodes[n] {
      assert InPart(info1, n, w, root, h, base) || nodes2[n] == nodes1[n];
    }
  }

  /** A change below slot `i`, and of the slot itself, is a change of the part below the node. */
  lemma PartWidens(nodes: seq<Node>, info: seq<Info>, nodes1: seq<Node>, info1: seq<Info>, w: nat,
                   root: nat, h: nat, base: nat, p: nat, i: nat, e: Entry)
    requires w >= 2 && |info| == |nodes| <= |nodes1| == |info1|
    requires p < |nodes| && info[p] == Info(root, h, base) && i < w && |nodes1[p]| == w
    requires OnlyPart(nodes, info, nodes1, info1, w, root, h, SlotBase(base, i, Pow(w, h)))
    ensures OnlyPart(nodes, info, nodes1[p := nodes1[p][i := e]], info1, w, root, h + 1, base)
  {
    var s, nodes2 := Pow(w, h), nodes1[p := nodes1[p][i := e]];
    var sb := SlotBase(base, i, s);
    SlotInside(w, h, base, i);
    forall n: nat | n < |nodes| ensures InPart(info, n, w, root, h + 1, base) || nodes2[n] == nodes[n] {
      assert InPart(info, n, w, root, h, sb) || nodes1[n] == nodes[n];
    }
  }

  /** Free pages of a node are free pages of the slot that covers them. */
  lemma SlotFree(nodes: seq<Node>, info: seq<Info>, w: nat, root: nat, h: nat, base: nat,
                 p: nat, i: nat, lo: nat, hi: nat)
    requires NodesOk(nodes, info, w) && p < |nodes| && info[p] == Info(root, h, base) && i < w && |nodes[p]| == w
    requires SlotBase(base, i, Pow(w, h)) <= lo && hi <= SlotBase(base, i, Pow(w, h)) + Pow(w, h)
    requires Free(nodes, Inner(p), w, h + 1, lo, hi)
    ensures Free(nodes, nodes[p][i], w, h, lo, hi)
  {
    assert NodeOk(nodes, info, w, p);
    forall q: nat | lo <= q < hi ensures FindFrom(nodes, w, nodes[p][i], h, q) == UNASSIGNED {
      SlotCovers(w, h, base, i, q);
      assert FindFrom(nodes, w, Inner(p), h + 1, q) == UNASSIGNED;
    }
  }

  /** What setting pages below slot `i` means for the node that holds the slot. */
  lemma SlotSet(nodes: seq<Node>, info: seq<Info>, nodes1: seq<Node>, w: nat, root: nat, h: nat, base: nat,
                p: nat, i: nat, e: Entry, lo: nat, hi: nat, leaf: nat)
    requires NodesOk(nodes, info, w) && p < |nodes| && info[p] == Info(root, h, base) && i < w && |nodes[p]| == w
    requires SlotBase(base, i, Pow(w, h)) <= lo <= hi <= SlotBase(base, i, Pow(w, h)) + Pow(w, h)
    requires SetOn(nodes, nodes[p][i], nodes1, e, w, h, SlotBase(base, i, Pow(w, h)), lo, hi, leaf)
    ensures forall q: nat :: SlotBase(base, i, Pow(w, h)) <= q < SlotBase(base, i, Pow(w, h)) + Pow(w, h) ==>
      FindFrom(nodes1, w, e, h, q) == if lo <= q < hi then leaf else FindFrom(nodes, w, Inner(p), h + 1, q)
  {
    assert NodeOk(nodes, info, w, p);
    forall q: nat | SlotBase(base, i, Pow(w, h)) <= q < SlotBase(base, i, Pow(w, h)) + Pow(w, h)
      ensures FindFrom(nodes1, w, e, h, q) == if lo <= q < hi then leaf else FindFrom(nodes, w, Inner(p), h + 1, q)
    {
      SlotCovers(w, h, base, i, q);
    }
  }

  /** Entry `e` finds the same for every page before and after. */
  ghost predicate SamePages(nodes: seq<Node>, nodes1: seq<Node>, e: Entry, w: nat, h: nat)
    requires w >= 2
  {
    forall q: nat {:trigger FindFrom(nodes1, w, e, h, q)} :: q < Pow(w, h) ==>
      FindFrom(nodes1, w, e, h, q) == FindFrom(nodes, w, e, h, q)
  }

  /** Every tree other than `root` is still well formed and answers as before. */
  ghost predicate KeepsOthers(nodes: seq<Node>, info: seq<Info>, nodes1: seq<Node>, info1: seq<Info>,
                              w: nat, h: nat, root: nat)
    requires w >= 2 && |info| == |nodes| && |info1| == |nodes1|
  {
    forall e: Entry, other: nat {:trigger EntryOk(nodes, info, e, other, h, 0)} ::
      other != root && EntryOk(nodes, info, e, other, h, 0) ==>
        EntryOk(nodes1, info1, e, other, h, 0) && SamePages(nodes, nodes1, e, w, h)
  }

  lemma KeepsOthersTransitive(n0: seq<Node>, i0: seq<Info>, n1: seq<Node>, i1: seq<Info>, n2: seq<Node>, i2: seq<Info>,
                              w: nat, h: nat, root: nat)
    requires w >= 2 && |i0| == |n0| && |i1| == |n1| && |i2| == |n2|
    requires KeepsOthers(n0, i0, n1, i1, w, h, root) && KeepsOthers(n1, i1, n2, i2, w, h, root)
    ensures KeepsOthers(n0, i0, n2, i2, w, h, root)
  {
    forall e: Entry, other: nat {:trigger EntryOk(n0, i0, e, other, h, 0)} |
      other != root && EntryOk(n0, i0, e, other, h, 0)
      ensures EntryOk(n2, i2, e, other, h, 0) && SamePages(n0, n2, e, w, h)
    {
      assert EntryOk(n1, i1, e, other, h, 0);
      SamePagesTransitive(n0, n1, n2, e, w, h);
    }
  }

  lemma SamePagesTransitive(n0: seq<Node>, n1: seq<Node>, n2: seq<Node>, e: Entry, w: nat, h: nat)
    requires w >= 2 && SamePages(n0, n1, e, w, h) && SamePages(n1, n2, e, w, h)
    ensures SamePages(n0, n2, e, w, h)
  {
    forall q: nat {:trigger FindFrom(n2, w, e, h, q)} | q < Pow(w, h)
      ensures FindFrom(n2, w, e, h, q) == FindFrom(n0, w, e, h, q)
    {
      assert FindFrom(n1, w, e, h, q) == FindFrom(n0, w, e, h, q);
    }
  }

  lemma OtherRoots(nodes: seq<Node>, info: seq<Info>, nodes1: seq<Node>, info1: seq<Info>, w: nat, root: nat, h: nat)
    requires NodesOk(nodes, info, w) && NodesOk(nodes1, info1, w)
    requires OnlyPart(nodes, info, nodes1, info1, w, root, h, 0)
    ensures KeepsOthers(nodes, info, nodes1, info1, w, h, root)
  {
    forall e: Entry, other: nat {:trigger EntryOk(nodes, info, e, other, h, 0)} |
      other != root && EntryOk(nodes, info, e, other, h, 0)
      ensures EntryOk(nodes1, info1, e, other, h, 0) && SamePages(nodes, nodes1, e, w, h)
    {
      OtherRoot(nodes, info, nodes1, info1, w, root, h, e, other);
    }
  }

  /** A change of one tree leaves the lookups of every other tree alone. */
  lemma OtherRoot(nodes: seq<Node>, info: seq<Info>, nodes1: seq<Node>, info1: seq<Info>, w: nat,
                  root: nat, h: nat, e: Entry, other: nat)
    requires NodesOk(nodes, info, w) && NodesOk(nodes1, info1, w) && other != root
    requires OnlyPart(nodes, info, nodes1, info1, w, root, h, 0) && EntryOk(nodes, info, e, other, h, 0)
    ensures EntryOk(nodes1, info1, e, other, h, 0) && SamePages(nodes, nodes1, e, w, h)
  {
    forall q: nat {:trigger FindFrom(nodes1, w, e, h, q)} | q < Pow(w, h)
      ensures FindFrom(nodes1, w, e, h, q) == FindFrom(nodes, w, e, h, q)
    {
      forall n: nat | n < |nodes| && InPart(info, n, w, other, h, 0) ensures nodes1[n] == nodes[n] {
        assert !InPart(info, n, w, root, h, 0);
      }
      FindFrame(nodes, info, nodes1, w, e, other, h, 0, q);
    }
  }

  /** Lookups only see a page modulo the width of the tree: pages beyond it alias pages inside it. */
  lemma {:induction false} FindWraps(nodes: seq<Node>, w: nat, e: Entry, h: nat, q: nat, m: nat)
    requires w >= 2
    ensures FindFrom(nodes, w, e, h, q + m * Pow(w, h)) == FindFrom(nodes, w, e, h, q)
    decreases h
  {
    if e.Inner? && h > 0 && e.ptr < |nodes| && |nodes[e.ptr]| == w {
      var s := Pow(w, h - 1);
      SlotBaseMul(0, w, s);
      assert m * Pow(w, h) == m * (w * s) == (m * w) * s;
      SlotWraps(q, s, w, m);
      FindWraps(nodes, w, nodes[e.ptr][Slot(q, s, w)], h - 1, q, m * w);
    }
  }

  lemma DivAdds(q: nat, s: nat, k: nat)
    requires s >= 1
    ensures (q + k * s) / s == q / s + k
  {
    assert (q / s + k) * s == (q / s) * s + k * s;
    DivUnique(q + k * s, s, q / s + k);
  }

  lemma SlotWraps(q: nat, s: nat, w: nat, m: nat)
    requires s >= 1 && w >= 2
    ensures Slot(q + (m * w) * s, s, w) == Slot(q, s, w)
  {
    var k := q / s;
    DivAdds(q, s, m * w);
    DivAdds(k, w, m);
    assert k + m * w == (k / w + m) * w + k % w;
    DivUnique(k + m * w, w, k / w + m);
  }
}
