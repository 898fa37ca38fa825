/**
 Guest memory dumps: the list of RAM blocks (memory_mapping.c) and the two walks
 over it (dump.c), one that announces file offsets in the program headers and
 one that later writes the memory. The file is modelled as the sequence of host
 addresses whose bytes it holds.
 */
module Dump {
  import opened Drivers
  import opened FlatViews
  import opened Runs

  datatype Block = Block(start: int, end: int, host: int)

  /** Host memory lies in the host's address space and not at its null pointer. */
  predicate HostFits(host: int, size: int) { 0 < host && host + size <= TWO_64 }

  /** A block holds at least one byte and lies in the address space; it may end at 2^64. */
  predicate BlockOk(b: Block) { 0 <= b.start < b.end <= TWO_64 && HostFits(b.host, b.end - b.start) }

  /** The end address as the source stores it: 0 for a block that ends at 2^64. */
  function TargetEnd(b: Block): int { Wrap64(b.end) }

  predicate IsTop(b: Block) { b.end == TWO_64 }

  predicate InOrder(p: Block, q: Block) { p.end <= q.start }

  ghost predicate BlocksOk(bs: seq<Block>) {
    && (forall i {:trigger BlockOk(bs[i])} :: 0 <= i < |bs| ==> BlockOk(bs[i]))
    && (forall i, j {:trigger InOrder(bs[i], bs[j])} :: 0 <= i < j < |bs| ==> InOrder(bs[i], bs[j]))
  }

  lemma SubBlocksOk(bs: seq<Block>, i: nat, j: nat)
    requires BlocksOk(bs) && i <= j <= |bs|
    ensures BlocksOk(bs[i..j])
  {
    forall k | 0 <= k < j - i ensures BlockOk(bs[i..j][k]) { assert BlockOk(bs[i + k]); }
    forall k, m | 0 <= k < m < j - i ensures InOrder(bs[i..j][k], bs[i..j][m]) { assert InOrder(bs[i + k], bs[i + m]); }
  }

  /** Block `q` continues block `p` in guest and in host memory. */
  predicate Continues(p: Block, q: Block) { p.end == q.start && p.host + (p.end - p.start) == q.host }

  /** Neighbours that continue each other are one block. */
  ghost predicate Maximal(bs: seq<Block>) {
    forall i {:trigger Continues(bs[i - 1], bs[i])} :: 0 < i < |bs| ==> !Continues(bs[i - 1], bs[i])
  }

  /** The host address of a guest address. */
  function HostOf(bs: seq<Block>, a: int): Option<int> {
    if bs == [] then None
    else if bs[0].start <= a < bs[0].end then Some(bs[0].host + (a - bs[0].start))
    else HostOf(bs[1..], a)
  }

  lemma {:induction false} HostConcat(bs: seq<Block>, cs: seq<Block>, a: int)
    ensures HostOf(bs + cs, a) == if HostOf(bs, a).Some? then HostOf(bs, a) else HostOf(cs, a)
  {
    if bs == [] {
      assert bs + cs == cs;
    } else {
      assert (bs + cs)[1..] == bs[1..] + cs;
      HostConcat(bs[1..], cs, a);
    }
  }

  lemma {:induction false} HostAt(bs: seq<Block>, i: nat, a: int)
    requires BlocksOk(bs) && i < |bs| && bs[i].start <= a < bs[i].end
    ensures HostOf(bs, a) == Some(bs[i].host + (a - bs[i].start))
  {
    if i > 0 {
      SubBlocksOk(bs, 1, |bs|);
      assert bs[1..|bs|] == bs[1..] && InOrder(bs[0], bs[i]);
      HostAt(bs[1..], i - 1, a);
    }
  }

  lemma {:induction false} HostBefore(bs: seq<Block>, a: int)
    requires BlocksOk(bs) && (bs != [] ==> bs[|bs| - 1].end <= a)
    ensures HostOf(bs, a) == None
  {
    if bs != [] {
      SubBlocksOk(bs, 1, |bs|);
      assert bs[1..|bs|] == bs[1..] && BlockOk(bs[|bs| - 1]);
      if |bs| > 1 { assert bs[1..][|bs| - 2] == bs[|bs| - 1] && InOrder(bs[0], bs[|bs| - 1]); }
      HostBefore(bs[1..], a);
    }
  }

  /** The blocks `cs` are the blocks `bs` plus [start, start + size) at `host`. */
  ghost predicate Extended(bs: seq<Block>, cs: seq<Block>, start: int, size: int, host: int) {
    && BlocksOk(cs) && Maximal(cs) && cs != [] && cs[|cs| - 1].end == start + size
    && forall a {:trigger HostOf(cs, a)} ::
         HostOf(cs, a) == if start <= a < start + size then Some(host + (a - start)) else HostOf(bs, a)
  }

  lemma AppendBlock(bs: seq<Block>, start: int, size: int, host: int)
    requires HostFits(host, size)
    requires BlocksOk(bs) && Maximal(bs) && size > 0 && 0 <= start && start + size <= TWO_64 &&
      (bs != [] ==> bs[|bs| - 1].end <= start)
    requires bs != [] ==> var p := bs[|bs| - 1]; p.end < start || p.host + (p.end - p.start) != host
    ensures Extended(bs, bs + [Block(start, start + size, host)], start, size, host)
  {
    var cs := bs + [Block(start, start + size, host)];
    forall i, j | 0 <= i < j < |cs| ensures InOrder(cs[i], cs[j]) {
      if j < |bs| {
        assert InOrder(bs[i], bs[j]);
      } else if i < |bs| - 1 {
        assert InOrder(bs[i], bs[|bs| - 1]) && BlockOk(bs[|bs| - 1]);
      }
    }
    forall i | 0 <= i < |cs| ensures BlockOk(cs[i]) { if i < |bs| { assert BlockOk(bs[i]); } }
    forall i | 0 < i < |cs| ensures !Continues(cs[i - 1], cs[i]) {
      if i < |bs| { assert !Continues(bs[i - 1], bs[i]); }
    }
    forall a {:trigger HostOf(cs, a)}
      ensures HostOf(cs, a) == if start <= a < start + size then Some(host + (a - start)) else HostOf(bs, a)
    {
      HostConcat(bs, [Block(start, start + size, host)], a);
      if start <= a { HostBefore(bs, a); }
    }
  }

  lemma JoinShape(bs: seq<Block>, end: int)
    requires BlocksOk(bs) && Maximal(bs) && bs != [] && bs[|bs| - 1].end < end <= TWO_64
    requires HostFits(bs[|bs| - 1].host, end - bs[|bs| - 1].start)
    ensures var n := |bs| - 1; BlocksOk(bs[n := bs[n].(end := end)]) && Maximal(bs[n := bs[n].(end := end)])
  {
    var n := |bs| - 1;
    var cs := bs[n := bs[n].(end := end)];
    forall i, j | 0 <= i < j < |cs| ensures InOrder(cs[i], cs[j]) { assert InOrder(bs[i], bs[j]); }
    forall i | 0 <= i < |cs| ensures BlockOk(cs[i]) { assert BlockOk(bs[i]); }
    forall i | 0 < i < |cs| ensures !Continues(cs[i - 1], cs[i]) { assert !Continues(bs[i - 1], bs[i]); }
  }

  lemma JoinBlock(bs: seq<Block>, start: int, size: int, host: int)
    requires BlocksOk(bs) && Maximal(bs) && size > 0 && start + size <= TWO_64 && bs != [] && HostFits(host, size)
    requires var p := bs[|bs| - 1]; p.end == start && p.host + (p.end - p.start) == host
    ensures var n := |bs| - 1; Extended(bs, bs[n := bs[n].(end := start + size)], start, size, host)
  {
    var n := |bs| - 1;
    var init, p, q := bs[..n], bs[n], bs[n].(end := start + size);
    var cs := bs[n := q];
    assert BlockOk(bs[n]);
    JoinShape(bs, start + size);
    assert bs == init + [p] && cs == init + [q];
    assert BlockOk(p) && (n > 0 ==> InOrder(bs[n - 1], bs[n]));
    SubBlocksOk(bs, 0, n);
    forall a {:trigger HostOf(cs, a)}
      ensures HostOf(cs, a) == if start <= a < start + size then Some(host + (a - start)) else HostOf(bs, a)
    {
      JoinHost(init, p, start + size, a);
    }
  }

  lemma JoinHost(init: seq<Block>, p: Block, end: int, a: int)
    requires BlocksOk(init) && (init != [] ==> init[|init| - 1].end <= p.start) && p.start < p.end < end
    ensures HostOf(init + [p.(end := end)], a) ==
            if p.end <= a < end then Some(p.host + (a - p.start)) else HostOf(init + [p], a)
  {
    HostConcat(init, [p], a);
    HostConcat(init, [p.(end := end)], a);
    if p.start <= a { HostBefore(init, a); }
  }

  class GuestPhysBlocks {
    var blocks: seq<Block>

    constructor ()
      ensures blocks == []
    {
      blocks := [];
    }

    /** The listener callback for one RAM section; sections arrive in ascending order. */
    method RegionAdd(start: int, size: int, host: int)
      requires BlocksOk(blocks) && Maximal(blocks) && 0 < size < TWO_64 && 0 <= start && start + size <= TWO_64
      requires HostFits(host, size)
      requires blocks != [] ==> blocks[|blocks| - 1].end <= start
      modifies this
      ensures Extended(old(blocks), blocks, start, size, host)
    {
      var n := |blocks|;
      var join := false;
      if n > 0 {
        var pred := blocks[n - 1];
        assert BlockOk(pred);
        var predSize := Sub64(TargetEnd(pred), pred.start);
        join := !(TargetEnd(pred) < start || pred.host + predSize != host);
      }
      if !join {
        AppendBlock(blocks, start, size, host);
        blocks := blocks + [Block(start, start + size, host)];
      } else {
        JoinBlock(blocks, start, size, host);
        blocks := blocks[n - 1 := blocks[n - 1].(end := start + size)];
      }
    }

    /**
     The blocks of a flat view: exactly its RAM, `ram` giving the host address of each RAM region. A RAM range of
     2^64 bytes has no 64-bit size and stops the program.
     */
    method Append(view: seq<FlatRange>, ram: map<MrId, int>) returns (aborted: bool)
      requires blocks == [] && Sorted(view) && Within(view, TWO_64) && RamFits(view, ram)
      modifies this
      ensures aborted <==> WholeRam(view, ram)
      ensures !aborted ==> BlocksOk(blocks) && Maximal(blocks) && ShowsRam(blocks, view, ram)
    {
      for i := 0 to |view|
        invariant BlocksOk(blocks) && Maximal(blocks) && ShowsRam(blocks, view[..i], ram)
        invariant blocks != [] && i < |view| ==> blocks[|blocks| - 1].end <= view[i].addr.start
        invariant forall k :: 0 <= k < i && view[k].mr in ram ==> view[k].addr.size < TWO_64
      {
        ghost var bs := blocks;
        if view[i].mr in ram {
          if view[i].addr.size >= TWO_64 { return true; }
          assert RamFitsAt(view[i], ram);
          RegionAdd(view[i].addr.start, view[i].addr.size, ram[view[i].mr] + view[i].offset);
        }
        RamStep(bs, blocks, view, i, ram);
      }
      assert view[..|view|] == view;
      return false;
    }
  }

  predicate RamFitsAt(fr: FlatRange, ram: map<MrId, int>) {
    fr.mr in ram && fr.addr.size < TWO_64 ==> HostFits(ram[fr.mr] + fr.offset, fr.addr.size)
  }

  /** Every RAM range has its host memory. */
  ghost predicate RamFits(view: seq<FlatRange>, ram: map<MrId, int>) {
    forall i {:trigger RamFitsAt(view[i], ram)} :: 0 <= i < |view| ==> RamFitsAt(view[i], ram)
  }

  /** Some RAM range is 2^64 bytes long. */
  ghost predicate WholeRam(view: seq<FlatRange>, ram: map<MrId, int>) {
    exists i :: 0 <= i < |view| && view[i].mr in ram && view[i].addr.size >= TWO_64
  }

  function RamHost(t: Option<Target>, ram: map<MrId, int>): Option<int> {
    if t.Some? && t.value.mr in ram then Some(ram[t.value.mr] + t.value.offset) else None
  }

  ghost predicate ShowsRam(bs: seq<Block>, view: seq<FlatRange>, ram: map<MrId, int>) {
    forall a {:trigger HostOf(bs, a)} :: HostOf(bs, a) == RamHost(Lookup(view, a), ram)
  }

  lemma RamStep(bs: seq<Block>, cs: seq<Block>, view: seq<FlatRange>, i: nat, ram: map<MrId, int>)
    requires Sorted(view) && i < |view| && ShowsRam(bs, view[..i], ram)
    requires if view[i].mr in ram
             then Extended(bs, cs, view[i].addr.start, view[i].addr.size, ram[view[i].mr] + view[i].offset)
             else cs == bs
    ensures ShowsRam(cs, view[..i + 1], ram)
  {
    var fr := view[i];
    assert view[..i + 1] == view[..i] + [fr];
    forall a {:trigger HostOf(cs, a)} ensures HostOf(cs, a) == RamHost(Lookup(view[..i + 1], a), ram) {
      assert HostOf(bs, a) == RamHost(Lookup(view[..i], a), ram);
      LookupConcat(view[..i], [fr], a);
      if Contains(fr.addr, a) { LookupNone(view[..i], a); }
    }
  }

  /** The part of guest memory that is dumped. */
  datatype Filter = All | Window(begin: nat, length: nat)

  predicate Kept(b: Block, f: Filter) {
    f.All? || !(b.start >= f.begin + f.length || TargetEnd(b) <= f.begin)
  }

  /** The filter keeps none of the first `n` blocks. */
  predicate NoneKept(bs: seq<Block>, n: nat, f: Filter)
    requires n <= |bs|
  {
    forall i :: 0 <= i < n ==> !Kept(bs[i], f)
  }

  function KeptLo(b: Block, f: Filter): int { if f.All? || f.begin <= b.start then b.start else f.begin }

  function KeptHi(b: Block, f: Filter): int {
    if f.All? || b.end <= f.begin + f.length then b.end else f.begin + f.length
  }

  /** What the file holds for one block. */
  function KeptBytes(b: Block, f: Filter): seq<int> {
    if Kept(b, f) && KeptLo(b, f) <= KeptHi(b, f)
    then Run(b.host + (KeptLo(b, f) - b.start), KeptHi(b, f) - KeptLo(b, f))
    else []
  }

  /** The memory part of the file that the first `n` blocks make up: their kept bytes, in list order. */
  function MemoryBytes(bs: seq<Block>, n: nat, f: Filter): seq<int>
    requires n <= |bs|
  {
    if n == 0 then [] else MemoryBytes(bs, n - 1, f) + KeptBytes(bs[n - 1], f)
  }

  lemma SkippedBlock(bs: seq<Block>, i: nat, f: Filter)
    requires i < |bs| && !Kept(bs[i], f)
    ensures MemoryBytes(bs, i + 1, f) == MemoryBytes(bs, i, f)
  {
  }

  lemma {:induction false} MemoryPrefix(bs: seq<Block>, i: nat, n: nat, f: Filter)
    requires i <= n <= |bs|
    ensures MemoryBytes(bs, i, f) <= MemoryBytes(bs, n, f)
    decreases n
  {
    if i < n { MemoryPrefix(bs, i, n - 1, f); }
  }

  /** The kept part of the block holds the address. */
  predicate HoldsAt(b: Block, f: Filter, a: int) { Kept(b, f) && KeptLo(b, f) <= a < KeptHi(b, f) }

  predicate InWindow(f: Filter, a: int) { f.All? || f.begin <= a < f.begin + f.length }

  /** The address lies in a block that ends at 2^64. */
  ghost predicate InTop(bs: seq<Block>, a: int) {
    exists i {:trigger InTopAt(bs, i, a)} :: InTopAt(bs, i, a)
  }

  predicate InTopAt(bs: seq<Block>, i: int, a: int) { 0 <= i < |bs| && IsTop(bs[i]) && bs[i].start <= a }

  /** The address is RAM, inside the window, and not in a block that ends at 2^64. */
  ghost predicate Stored(bs: seq<Block>, f: Filter, a: int) {
    InWindow(f, a) && HostOf(bs, a).Some? && !InTop(bs, a)
  }

  /** The first walk finds the address in this block: the comparison with an end address of 0 always fails. */
  predicate FoundIn(b: Block, f: Filter, a: int) { HoldsAt(b, f, a) && !IsTop(b) }

  lemma KeptByteAt(b: Block, f: Filter, a: int)
    requires HoldsAt(b, f, a)
    ensures a - KeptLo(b, f) < |KeptBytes(b, f)| && KeptBytes(b, f)[a - KeptLo(b, f)] == b.host + (a - b.start)
  {
    RunAt(b.host + (KeptLo(b, f) - b.start), KeptHi(b, f) - KeptLo(b, f), a - KeptLo(b, f));
  }

  lemma MemorySize(bs: seq<Block>, i: nat, f: Filter)
    requires i < |bs| && BlockOk(bs[i])
    ensures |MemoryBytes(bs, i + 1, f)| ==
            |MemoryBytes(bs, i, f)| + if Kept(bs[i], f) then KeptHi(bs[i], f) - KeptLo(bs[i], f) else 0
  {
  }

  /** The byte of address `a` in the kept part of block `i` is where the preceding kept bytes end, plus its offset. */
  lemma ByteOfBlock(bs: seq<Block>, i: nat, f: Filter, a: int)
    requires BlocksOk(bs) && i < |bs| && HoldsAt(bs[i], f, a)
    ensures var at := |MemoryBytes(bs, i, f)| + (a - KeptLo(bs[i], f));
            at < |MemoryBytes(bs, |bs|, f)| && Some(MemoryBytes(bs, |bs|, f)[at]) == HostOf(bs, a) && InWindow(f, a)
  {
    KeptByteAt(bs[i], f, a);
    ConcatAt(MemoryBytes(bs, i, f), KeptBytes(bs[i], f), a - KeptLo(bs[i], f));
    MemoryPrefix(bs, i + 1, |bs|, f);
    PrefixAt(MemoryBytes(bs, i + 1, f), MemoryBytes(bs, |bs|, f), |MemoryBytes(bs, i, f)| + (a - KeptLo(bs[i], f)));
    HostAt(bs, i, a);
  }

  /** The byte of address `a` is where the announcement of `phys` at `at` puts it. */
  ghost predicate AnnouncedAt(bs: seq<Block>, f: Filter, phys: int, at: int, a: int) {
    0 <= at + (a - phys) < |MemoryBytes(bs, |bs|, f)| &&
    Some(MemoryBytes(bs, |bs|, f)[at + (a - phys)]) == HostOf(bs, a)
  }

  /** The `filesz` bytes announced for address `phys` are the bytes the memory part holds at `at`. */
  ghost predicate Announced(bs: seq<Block>, f: Filter, phys: int, at: int, filesz: int) {
    0 <= at && 0 <= filesz &&
    forall a {:trigger AnnouncedAt(bs, f, phys, at, a)} :: phys <= a < phys + filesz ==> AnnouncedAt(bs, f, phys, at, a)
  }

  lemma AnnouncedInBlock(bs: seq<Block>, i: nat, f: Filter, phys: int, filesz: nat)
    requires BlocksOk(bs) && i < |bs| && FoundIn(bs[i], f, phys)
    requires phys + filesz <= KeptHi(bs[i], f)
    ensures Announced(bs, f, phys, |MemoryBytes(bs, i, f)| + (phys - KeptLo(bs[i], f)), filesz)
  {
    var at := |MemoryBytes(bs, i, f)| + (phys - KeptLo(bs[i], f));
    forall a {:trigger AnnouncedAt(bs, f, phys, at, a)} | phys <= a < phys + filesz
      ensures AnnouncedAt(bs, f, phys, at, a)
    {
      ByteOfBlock(bs, i, f, a);
    }
  }

  lemma StoredInBlock(bs: seq<Block>, i: nat, f: Filter, a: int)
    requires BlocksOk(bs) && i < |bs| && FoundIn(bs[i], f, a)
    ensures Stored(bs, f, a)
  {
    HostAt(bs, i, a);
    forall k ensures !InTopAt(bs, k, a) {
      if 0 <= k < |bs| && k != i { BlocksApart(bs, i, k); }
    }
  }

  lemma BlocksApart(bs: seq<Block>, i: nat, k: nat)
    requires BlocksOk(bs) && i < |bs| && k < |bs| && i != k
    ensures bs[i].end <= bs[k].start || bs[k].end <= bs[i].start
    ensures IsTop(bs[k]) ==> bs[i].end <= bs[k].start
  {
    assert BlockOk(bs[i]) && BlockOk(bs[k]);
    if i < k { assert InOrder(bs[i], bs[k]); } else { assert InOrder(bs[k], bs[i]); }
  }

  lemma NotStored(bs: seq<Block>, f: Filter, a: int)
    requires BlocksOk(bs) && InWindow(f, a)
    requires forall i :: 0 <= i < |bs| ==> !FoundIn(bs[i], f, a)
    ensures !Stored(bs, f, a)
  {
    if HostOf(bs, a).Some? {
      var i := HostSome(bs, a);
      assert BlockOk(bs[i]) && !FoundIn(bs[i], f, a);
      if IsTop(bs[i]) { assert InTopAt(bs, i, a); }
    }
  }

  /** RAM that ends at 2^64 is written without a filter but never announced, and a filter always drops it. */
  lemma TopRamUnannounced(host: int, f: Filter)
    requires HostFits(host, 4096)
    ensures var bs := [Block(TWO_64 - 4096, TWO_64, host)];
            && BlocksOk(bs) && HostOf(bs, TWO_64 - 4096) == Some(host) && !Stored(bs, f, TWO_64 - 4096)
            && |MemoryBytes(bs, 1, f)| == if f.All? then 4096 else 0
  {
    var bs := [Block(TWO_64 - 4096, TWO_64, host)];
    assert InTopAt(bs, 0, TWO_64 - 4096);
    assert BlockOk(bs[0]);
    MemorySize(bs, 0, f);
  }

  /** The kept part of one block holds the whole mapping. */
  ghost predicate InOneBlock(bs: seq<Block>, f: Filter, phys: int, length: nat) {
    exists i {:trigger FoundIn(bs[i], f, phys)} ::
      0 <= i < |bs| && FoundIn(bs[i], f, phys) && phys + length <= KeptHi(bs[i], f)
  }

  lemma OnlyBlock(bs: seq<Block>, i: nat, f: Filter, phys: int, length: nat)
    requires BlocksOk(bs) && i < |bs| && FoundIn(bs[i], f, phys)
    ensures InOneBlock(bs, f, phys, length) <==> phys + length <= KeptHi(bs[i], f)
  {
    forall k | 0 <= k < |bs| && k != i ensures !FoundIn(bs[k], f, phys) { BlocksApart(bs, i, k); }
  }

  /** As much as one block holds from `phys` on is in the memory part at `at`. */
  ghost predicate AnnouncedBlock(bs: seq<Block>, f: Filter, phys: int, at: int) {
    forall n: nat {:trigger InOneBlock(bs, f, phys, n)} ::
      InOneBlock(bs, f, phys, n) ==> Announced(bs, f, phys, at, n)
  }

  lemma BlockAnnounced(bs: seq<Block>, i: nat, f: Filter, phys: int)
    requires BlocksOk(bs) && i < |bs| && FoundIn(bs[i], f, phys)
    ensures InOneBlock(bs, f, phys, 1)
    ensures AnnouncedBlock(bs, f, phys, |MemoryBytes(bs, i, f)| + (phys - KeptLo(bs[i], f)))
  {
    OnlyBlock(bs, i, f, phys, 1);
    forall n: nat {:trigger InOneBlock(bs, f, phys, n)} | InOneBlock(bs, f, phys, n)
      ensures Announced(bs, f, phys, |MemoryBytes(bs, i, f)| + (phys - KeptLo(bs[i], f)), n)
    {
      OnlyBlock(bs, i, f, phys, n);
      AnnouncedInBlock(bs, i, f, phys, n);
    }
  }

  lemma {:induction false} HostSome(bs: seq<Block>, a: int) returns (i: nat)
    requires HostOf(bs, a).Some?
    ensures i < |bs| && bs[i].start <= a < bs[i].end
  {
    if bs[0].start <= a < bs[0].end {
      i := 0;
    } else {
      var k := HostSome(bs[1..], a);
      i := k + 1;
    }
  }

  class DumpState {
    const driver: Driver
    var blocks: seq<Block>
    var filter: Filter
    var memoryOffset: nat
    var next: nat
    var start: int
    var file: seq<int>

    constructor (driver: Driver, blocks: seq<Block>, filter: Filter, memoryOffset: nat)
      ensures this.driver == driver && this.blocks == blocks && this.filter == filter
      ensures this.memoryOffset == memoryOffset && file == []
    {
      this.driver, this.blocks, this.filter, this.memoryOffset := driver, blocks, filter, memoryOffset;
      next, start, file := 0, 0, [];
    }

    /**
     The file offset announced for a mapping of `length` bytes at `phys`: found exactly for stored
     addresses, and every announced byte is the byte that the memory part of the file holds there.
     The end address of a mapping that ends at 2^64 is 0, so all of it is announced, rightly as far as the block
     of `phys` goes.
     */
    method GetOffsetRange(phys: int, length: nat) returns (found: bool, offset: int, filesz: int)
      requires BlocksOk(blocks) && 0 <= phys && phys + length <= TWO_64
      ensures found <==> Stored(blocks, filter, phys)
      ensures !found ==> offset == -1 && filesz == 0
      ensures 0 <= filesz <= length
      ensures found ==> AnnouncedBlock(blocks, filter, phys, offset - memoryOffset)
      ensures found && phys + length < TWO_64 ==> Announced(blocks, filter, phys, offset - memoryOffset, filesz)
      ensures found && phys + length < TWO_64 ==> (filesz == length <==> InOneBlock(blocks, filter, phys, length))
      ensures found && phys + length == TWO_64 ==> filesz == length
      ensures found && length > 0 ==> filesz > 0
    {
      found, offset, filesz := false, -1, 0;
      if filter.Window? && (phys < filter.begin || phys >= filter.begin + filter.length) { return; }
      var i, at := FindStored(phys);
      if i == |blocks| {
        NotStored(blocks, filter, phys);
        return;
      }
      var lo, hi := KeptLo(blocks[i], filter), KeptHi(blocks[i], filter);
      found, offset := true, phys - lo + at;
      filesz := if Wrap64(phys + length) <= hi then length else hi - phys;
      StoredInBlock(blocks, i, filter, phys);
      BlockAnnounced(blocks, i, filter, phys);
      if phys + length < TWO_64 {
        AnnouncedInBlock(blocks, i, filter, phys, filesz);
        OnlyBlock(blocks, i, filter, phys, length);
      }
    }

    /** The block whose kept part holds `phys`, and the file offset where that part begins. */
    method FindStored(phys: int) returns (i: nat, at: int)
      requires BlocksOk(blocks) && 0 <= phys
      ensures i <= |blocks|
      ensures i < |blocks| ==> FoundIn(blocks[i], filter, phys) && at == memoryOffset + |MemoryBytes(blocks, i, filter)|
      ensures i == |blocks| ==> forall k :: 0 <= k < |blocks| ==> !FoundIn(blocks[k], filter, phys)
    {
      i, at := 0, memoryOffset;
      while i < |blocks|
        invariant i <= |blocks| && at == memoryOffset + |MemoryBytes(blocks, i, filter)|
        invariant forall k :: 0 <= k < i ==> !FoundIn(blocks[k], filter, phys)
      {
        assert BlockOk(blocks[i]);
        MemorySize(blocks, i, filter);
        if Kept(blocks[i], filter) {
          var start, size := KeptLo(blocks[i], filter), KeptHi(blocks[i], filter) - KeptLo(blocks[i], filter);
          if phys >= start && phys < Wrap64(start + size) { return; }
          at := at + size;
        }
        i := i + 1;
      }
    }

    /** Writes `size` bytes from `host`, one page at a time; a write may fail. */
    method WriteMemory(host: int, size: nat, page: nat) returns (ok: bool)
      requires page >= 1
      modifies this`file, driver
      ensures ok ==> file == old(file) + Run(host, size)
      ensures driver.faults == old(driver.faults) + if ok then 0 else 1
    {
      var i, pos: nat := 0, 0;
      PagesOf(size, page);
      while i < size / page
        invariant 0 <= i <= size / page && pos == Times(i, page) <= size
        invariant file == old(file) + Run(host, pos) && driver.faults == old(driver.faults)
      {
        ok := driver.Call();
        if !ok { return; }
        TimesOrdered(i, size / page, page);
        RunAdd(host, pos, page);
        file := file + Run(host + pos, page);
        i, pos := i + 1, pos + page;
      }
      if size % page != 0 {
        ok := driver.Call();
        if !ok { return; }
        RunAdd(host, pos, size % page);
        file := file + Run(host + pos, size % page);
      }
      ok := true;
    }

    /** `next` and `start` point at the first kept byte of a kept block. */
    ghost predicate AtBlock()
      reads this
    {
      next < |blocks| && Kept(blocks[next], filter) && start == KeptLo(blocks[next], filter) - blocks[next].start
    }

    /** Finds the first block to dump; without a filter that is the first block, whatever it is. */
    method GetStartBlock() returns (r: int)
      requires BlocksOk(blocks)
      modifies this`next, this`start
      ensures r != -1 && (filter.Window? || blocks != []) ==>
        AtBlock() && r == start && MemoryBytes(blocks, next, filter) == []
      ensures r == -1 ==> filter.Window? && NoneKept(blocks, |blocks|, filter)
    {
      if filter.All? {
        next, start := 0, 0;
        return 0;
      }
      for i := 0 to |blocks|
        invariant MemoryBytes(blocks, i, filter) == [] && NoneKept(blocks, i, filter)
      {
        if !Kept(blocks[i], filter) { continue; }
        next := i;
        start := if filter.begin > blocks[i].start then filter.begin - blocks[i].start else 0;
        return start;
      }
      return -1;
    }

    /** Moves on to the next kept block; the blocks it skips hold no byte of the file. */
    method GetNextBlock(from: nat) returns (done: bool)
      requires BlocksOk(blocks) && from < |blocks|
      modifies this`next, this`start
      ensures done ==> MemoryBytes(blocks, |blocks|, filter) == MemoryBytes(blocks, from + 1, filter)
      ensures !done ==>
        AtBlock() && from < next && MemoryBytes(blocks, next, filter) == MemoryBytes(blocks, from + 1, filter)
    {
      for i := from + 1 to |blocks|
        invariant MemoryBytes(blocks, i, filter) == MemoryBytes(blocks, from + 1, filter)
      {
        start, next := 0, i;
        if filter.Window? {
          if !Kept(blocks[i], filter) {
            SkippedBlock(blocks, i, filter);
            continue;
          }
          if filter.begin > blocks[i].start { start := filter.begin - blocks[i].start; }
        }
        return false;
      }
      return true;
    }

    /** Writes the kept bytes of the current block. */
    method WriteBlock(page: nat) returns (ok: bool)
      requires BlocksOk(blocks) && page >= 1 && AtBlock()
      modifies this`file, driver
      ensures ok ==> file == old(file) + KeptBytes(blocks[next], filter)
      ensures driver.faults == old(driver.faults) + if ok then 0 else 1
    {
      var block := blocks[next];
      assert BlockOk(blocks[next]);
      assert filter.Window? ==> !IsTop(block);
      var size := Sub64(TargetEnd(block), block.start);
      if filter.Window? {
        var end := TargetEnd(block);
        size := size - start;
        if filter.begin + filter.length < end { size := size - (end - (filter.begin + filter.length)); }
      }
      assert size == KeptHi(block, filter) - KeptLo(block, filter);
      ok := WriteMemory(block.host + start, size, page);
    }

    /** The second walk: writes exactly the memory part of the file. */
    method DumpIterate(page: nat) returns (ok: bool)
      requires BlocksOk(blocks) && page >= 1 && AtBlock() && MemoryBytes(blocks, next, filter) == []
      modifies this`next, this`start, this`file, driver
      ensures ok ==> file == old(file) + MemoryBytes(blocks, |blocks|, filter)
      ensures driver.faults == old(driver.faults) + if ok then 0 else 1
    {
      while true
        invariant AtBlock() && file == old(file) + MemoryBytes(blocks, next, filter)
        invariant driver.faults == old(driver.faults)
        decreases |blocks| - next
      {
        var here := next;
        ok := WriteBlock(page);
        if !ok { return; }
        ConcatAssoc(old(file), MemoryBytes(blocks, here, filter), KeptBytes(blocks[here], filter));
        var done := GetNextBlock(here);
        if done { return true; }
      }
    }
  }

  /** An announced byte is found at the announced offset of a file made of a header and the memory part. */
  lemma AnnouncedInFile(bs: seq<Block>, f: Filter, header: seq<int>, phys: int, offset: int, filesz: int, a: int)
    requires Announced(bs, f, phys, offset - |header|, filesz) && phys <= a < phys + filesz
    ensures 0 <= offset + (a - phys) < |header| + |MemoryBytes(bs, |bs|, f)|
    ensures Some((header + MemoryBytes(bs, |bs|, f))[offset + (a - phys)]) == HostOf(bs, a)
  {
    assert AnnouncedAt(bs, f, phys, offset - |header|, a);
    ConcatAt(header, MemoryBytes(bs, |bs|, f), offset - |header| + (a - phys));
  }

  /** `i` times `p`, by repeated addition. */
  function Times(i: nat, p: nat): nat { if i == 0 then 0 else Times(i - 1, p) + p }

  lemma TimesOrdered(i: nat, j: nat, p: nat)
    requires i < j
    ensures Times(i + 1, p) == Times(i, p) + p <= Times(j, p)
  {
    if i + 1 < j { TimesOrdered(i, j - 1, p); }
  }

  lemma TimesMul(i: nat, p: nat)
    ensures Times(i, p) == i * p
  {
    if i > 0 {
      TimesMul(i - 1, p);
      assert i * p == (i - 1) * p + p;
    }
  }

  lemma PagesOf(size: nat, p: nat)
    requires p >= 1
    ensures Times(size / p, p) + size % p == size
  {
    TimesMul(size / p, p);
  }
}
