/**
 Whole runs of the memory map's operations (memory.c): transactions nested in any
 way around any changes. After every run that ends outside a transaction all views
 are right, unless a root was moved behind the back of its address space.
 */
module TransactionRuns {
  import opened FlatViews
  import opened Rendering
  import opened TopologyDiff
  import opened Transactions

  /** An operation; adding a subregion comes with ranks that show that no cycle arises. */
  datatype Op =
    | Begin
    | Commit
    | Enable(m: MrId, on: bool)
    | Protect(m: MrId, on: bool)
    | Romd(m: MrId, on: bool)
    | Log(m: MrId, on: bool, client: nat)
    | Shift(m: MrId, offset: int)
    | New(m: MrId, r: MemoryRegion)
    | NewSpace(root: MrId)
    | Add(m: MrId, offset: int, s: MrId, priority: int, overlap: bool, rank: map<MrId, nat>)
    | Remove(m: MrId, s: MrId)
    | Move(m: MrId, addr: int)

  /** What the caller of an operation must see to. */
  predicate Legal(mm: MemoryModel, op: Op)
    reads mm
  {
    match op
    case Begin => true
    case Commit => mm.depth > 0
    case Enable(m, _) => m in mm.g
    case Protect(m, _) => m in mm.g
    case Romd(m, _) => m in mm.g
    case Log(m, _, client) => m in mm.g && client < 8
    case Shift(m, _) => m in mm.g && mm.g[m].alias.Some?
    case New(m, r) =>
      m !in mm.g && r.size >= 0 && r.parent.None? && r.subregions == [] && (r.alias.Some? ==> r.alias.value in mm.g)
    case NewSpace(root) => root in mm.g
    case Add(m, _, s, _, _, rank) =>
      m in mm.g && s in mm.g && s != m && mm.g[s].parent.None? && Ranked(mm.g, rank) && rank[s] < rank[m]
    case Remove(m, s) => m in mm.g && s in mm.g && mm.g[s].parent == Some(m)
    case Move(m, _) => m in mm.g
  }

  /** The operation moves an enabled root and raises no flag. */
  ghost predicate Strays(mm: MemoryModel, op: Op)
    reads mm
    requires Legal(mm, op)
  {
    match op
    case Add(m, offset, s, _, _, _) => !(mm.g[m].enabled && mm.g[s].enabled) && mm.RootMoved(s, offset)
    case Move(m, addr) => !MoveFlags(mm.g, m, addr) && mm.RootMoved(m, addr)
    case _ => false
  }

  function DepthAfter(op: Op, depth: nat): int {
    match op
    case Begin => depth + 1
    case Commit => depth - 1
    case _ => depth
  }

  function RootsAfter(op: Op, roots: seq<MrId>): seq<MrId> { if op.NewSpace? then roots + [op.root] else roots }

  /** What an operation makes of the graph. */
  ghost predicate Effect(g: Graph, op: Op, h: Graph) {
    match op
    case Begin => h == g
    case Commit => h == g
    case Enable(m, on) => m in g && h == g[m := g[m].(enabled := on)]
    case Protect(m, on) => m in g && h == g[m := g[m].(readonly := on)]
    case Romd(m, on) => m in g && h == g[m := g[m].(romd := on)]
    case Log(m, on, client) => m in g && client < 8 && h == g[m := g[m].(logMask := WithLog(g[m].logMask, on, client))]
    case Shift(m, offset) => m in g && h == g[m := g[m].(aliasOffset := offset)]
    case New(m, r) => h == g[m := r]
    case NewSpace(_) => h == g
    case Add(m, offset, s, priority, overlap, _) =>
      exists pos: nat :: SubregionAdded(g, m, s, offset, priority, overlap, pos, h)
    case Remove(m, s) => exists k: nat :: SubregionRemoved(g, m, s, k, h)
    case Move(m, addr) =>
      m in g && if addr == g[m].addr || g[m].parent.None? then h == g[m := g[m].(addr := addr)]
                else Reinserted(g, g[m].parent.value, m, addr, h)
  }

  /** One operation: views stay right or flagged, unless it strays. */
  method Do(mm: MemoryModel, op: Op)
    requires mm.Valid() && Legal(mm, op)
    modifies mm
    ensures mm.Valid() && mm.depth == DepthAfter(op, old(mm.depth)) && Effect(old(mm.g), op, mm.g)
    ensures Roots(mm.spaces) == RootsAfter(op, old(Roots(mm.spaces)))
    ensures old(mm.Synced()) && !old(Strays(mm, op)) ==> mm.Synced()
  {
    match op
    case Begin => mm.TransactionBegin();
    case Commit => mm.TransactionCommit();
    case Enable(m, on) => mm.SetEnabled(m, on);
    case Protect(m, on) => mm.SetReadonly(m, on);
    case Romd(m, on) => mm.SetRomd(m, on);
    case Log(m, on, client) => mm.SetLog(m, on, client);
    case Shift(m, offset) => mm.SetAliasOffset(m, offset);
    case New(m, r) => mm.InitRegion(m, r);
    case NewSpace(root) => mm.InitAddressSpace(root);
    case Add(m, offset, s, priority, overlap, rank) =>
      var pos := mm.AddSubregion(m, offset, s, priority, overlap, rank);
    case Remove(m, s) => ghost var k := mm.DelSubregion(m, s);
    case Move(m, addr) => mm.SetAddress(m, addr);
  }

  /** The address spaces that a run makes. */
  function RootsOf(ops: seq<Op>): seq<MrId> {
    if ops == [] then [] else RootsAfter(ops[|ops| - 1], RootsOf(ops[..|ops| - 1]))
  }

  /** How deep in transactions a run ends. */
  function DepthOf(ops: seq<Op>): int {
    if ops == [] then 0
    else
      var op := ops[|ops| - 1];
      DepthOf(ops[..|ops| - 1]) + (if op.Begin? then 1 else if op.Commit? then -1 else 0)
  }

  /** The operation gives region `m` another place. */
  predicate Moves(op: Op, m: MrId) { (op.Add? && op.s == m) || (op.Move? && op.m == m) }

  /** No region is moved once it is the root of an address space. */
  predicate RootsRest(ops: seq<Op>) {
    forall i, m :: 0 <= i < |ops| && m in RootsOf(ops[..i]) ==> !Moves(ops[i], m)
  }

  /**
   Runs operations from the start of the program until one is not legal or stops the program. After any run that
   does not stray, views are right or flagged, so outside a transaction they are right. A run strays only if it
   moves the root of an address space.
   */
  method Run(ops: seq<Op>) returns (mm: MemoryModel, done: nat, ghost strayed: bool)
    ensures fresh(mm) && mm.Valid() && done <= |ops|
    ensures done < |ops| ==> mm.aborted || !Legal(mm, ops[done])
    ensures mm.depth == DepthOf(ops[..done]) && Roots(mm.spaces) == RootsOf(ops[..done])
    ensures !strayed ==> mm.Synced() && (mm.depth == 0 ==> mm.UpToDate())
    ensures RootsRest(ops) ==> !strayed
  {
    mm := new MemoryModel();
    done, strayed := 0, false;
    while done < |ops| && !mm.aborted && Legal(mm, ops[done])
      invariant fresh(mm) && mm.Valid() && done <= |ops|
      invariant mm.depth == DepthOf(ops[..done]) && Roots(mm.spaces) == RootsOf(ops[..done])
      invariant !strayed ==> mm.Synced()
      invariant RootsRest(ops) ==> !strayed
    {
      assert ops[..done + 1][..done] == ops[..done];
      strayed := strayed || Strays(mm, ops[done]);
      Do(mm, ops[done]);
      done := done + 1;
    }
  }

  /** What is right about a view: it is the flat view of its root, and the listener mirrors it. */
  lemma RightView(mm: MemoryModel, i: nat)
    requires mm.Valid() && mm.UpToDate() && i < |mm.spaces|
    ensures var s := mm.spaces[i];
            s.root in mm.g && IsFlatViewOf(s.view, mm.g, mm.rank, s.root) && s.mirror == Mirror(s.view)
  {
    assert SpaceOk(mm.spaces[i], mm.g) && Shown(mm.spaces[i], mm.g, mm.rank);
  }
}
