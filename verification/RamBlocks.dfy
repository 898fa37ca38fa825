/**
 The RAM block list (exec.c): where new blocks go in the 64-bit ram address
 space, the list order by length, and the most-recently-used cache.
 */
module RamBlocks {
  import opened Arithmetic
  import opened FlatViews

  const RAM_ADDR_MAX: int := TWO_64 - 1

  datatype RamBlock = RamBlock(offset: int, length: int)
  {
    function End(): int { offset + length }
  }

  predicate BlockOk(b: RamBlock) { 0 <= b.offset && 0 < b.length && b.End() <= RAM_ADDR_MAX }

  predicate Apart(b: RamBlock, c: RamBlock) { b.End() <= c.offset || c.End() <= b.offset }

  ghost predicate Disjoint(bs: seq<RamBlock>) {
    && (forall i {:trigger BlockOk(bs[i])} :: 0 <= i < |bs| ==> BlockOk(bs[i]))
    && (forall i, j {:trigger Apart(bs[i], bs[j])} :: 0 <= i < |bs| && 0 <= j < |bs| && i != j ==> Apart(bs[i], bs[j]))
  }

  /** Biggest block first. */
  ghost predicate Descending(bs: seq<RamBlock>) {
    forall i, j :: 0 <= i < j < |bs| ==> bs[j].length <= bs[i].length
  }

  /** The lowest block offset at or after `end`, or the top of the address space. */
  function NextAfter(bs: seq<RamBlock>, end: int): (r: int)
    ensures r <= RAM_ADDR_MAX
    ensures forall i :: 0 <= i < |bs| && bs[i].offset >= end ==> r <= bs[i].offset
    ensures end <= RAM_ADDR_MAX ==> end <= r
  {
    if bs == [] then RAM_ADDR_MAX
    else
      var r := NextAfter(bs[..|bs| - 1], end);
      var b := bs[|bs| - 1];
      if b.offset >= end && b.offset < r then b.offset else r
  }

  /** The bound is attained: it is a block's offset or the top. */
  lemma {:induction false} NextIsAttained(bs: seq<RamBlock>, end: int)
    ensures NextAfter(bs, end) == RAM_ADDR_MAX || exists i :: 0 <= i < |bs| && NextAfter(bs, end) == bs[i].offset >= end
  {
    if bs != [] { NextIsAttained(bs[..|bs| - 1], end); }
  }

  /** The free space right after block `b`. */
  function Gap(bs: seq<RamBlock>, b: RamBlock): int { NextAfter(bs, b.End()) - b.End() }

  /** `off` is the end of a block whose gap is a smallest one that holds `size`. */
  ghost predicate BestFit(bs: seq<RamBlock>, size: int, off: int) {
    exists i :: 0 <= i < |bs| && off == bs[i].End() && size <= Gap(bs, bs[i]) &&
                forall j :: 0 <= j < |bs| && size <= Gap(bs, bs[j]) ==> Gap(bs, bs[i]) <= Gap(bs, bs[j])
  }

  method FindNext(bs: seq<RamBlock>, end: int) returns (next: int)
    ensures next == NextAfter(bs, end)
  {
    next := RAM_ADDR_MAX;
    for i := 0 to |bs|
      invariant next == NextAfter(bs[..i], end)
    {
      assert bs[..i + 1][..i] == bs[..i];
      if bs[i].offset >= end { next := if next < bs[i].offset then next else bs[i].offset; }
    }
    assert bs[..|bs|] == bs;
  }

  /** The offset for a block of `size` bytes; no gap is an abort. */
  method FindRamOffset(bs: seq<RamBlock>, size: int) returns (r: Option<int>)
    requires Disjoint(bs) && 0 < size
    ensures bs == [] ==> r == Some(0)
    ensures bs != [] && r.Some? ==> BestFit(bs, size, r.value)
    ensures r.None? <==> NoGap(bs, size)
  {
    var offset, mingap := RAM_ADDR_MAX, RAM_ADDR_MAX;
    if bs == [] { return Some(0); }
    ghost var best := 0;
    for i := 0 to |bs|
      invariant offset == RAM_ADDR_MAX ==> mingap == RAM_ADDR_MAX && forall j :: 0 <= j < i ==> Gap(bs, bs[j]) < size
      invariant offset != RAM_ADDR_MAX ==>
        0 <= best < i && offset == bs[best].End() && mingap == Gap(bs, bs[best]) >= size
      invariant offset != RAM_ADDR_MAX ==> forall j :: 0 <= j < i && size <= Gap(bs, bs[j]) ==> mingap <= Gap(bs, bs[j])
    {
      assert BlockOk(bs[i]);
      var end := bs[i].End();
      var next := FindNext(bs, end);
      if next - end >= size && next - end < mingap {
        offset, mingap, best := end, next - end, i;
      }
    }
    return if offset == RAM_ADDR_MAX then None else Some(offset);
  }

  /** There are blocks and none is followed by `size` free bytes. */
  ghost predicate NoGap(bs: seq<RamBlock>, size: int) {
    bs != [] && forall j :: 0 <= j < |bs| ==> Gap(bs, bs[j]) < size
  }

  /** A best-fit block overlaps no other block and stays in the address space. */
  lemma BestFitApart(bs: seq<RamBlock>, size: int, off: int, k: nat)
    requires Disjoint(bs) && 0 < size && BestFit(bs, size, off) && k < |bs|
    ensures BlockOk(RamBlock(off, size)) && Apart(RamBlock(off, size), bs[k])
  {
    var i :| 0 <= i < |bs| && off == bs[i].End() && size <= Gap(bs, bs[i]);
    assert BlockOk(bs[i]) && BlockOk(bs[k]);
    if k != i { assert Apart(bs[i], bs[k]); }
  }

  /** The offset picked for a new block keeps it clear of all others. */
  lemma FitsApart(bs: seq<RamBlock>, b: RamBlock)
    requires Disjoint(bs) && 0 < b.length < TWO_64
    requires if bs == [] then b.offset == 0 else BestFit(bs, b.length, b.offset)
    ensures BlockOk(b) && forall k :: 0 <= k < |bs| ==> Apart(b, bs[k])
  {
    forall k: nat | k < |bs| ensures Apart(b, bs[k]) && BlockOk(b) { BestFitApart(bs, b.length, b.offset, k); }
    if bs != [] { BestFitApart(bs, b.length, b.offset, 0); }
  }

  /** Position `pos` is right before the first block shorter than `length`. */
  ghost predicate FirstShorter(bs: seq<RamBlock>, length: int, pos: nat) {
    pos <= |bs| && (forall k :: 0 <= k < pos ==> length <= bs[k].length) && (pos < |bs| ==> bs[pos].length < length)
  }

  /** `cs` is `bs` with `b` put before the first shorter block. */
  ghost predicate Inserted(bs: seq<RamBlock>, b: RamBlock, cs: seq<RamBlock>) {
    exists pos: nat :: FirstShorter(bs, b.length, pos) && cs == InsertAt(bs, pos, b)
  }

  /** The block an address is in, by linear search. */
  function Search(bs: seq<RamBlock>, addr: int): Option<RamBlock> {
    if bs == [] then None
    else if Sub64(addr, bs[0].offset) < bs[0].length then Some(bs[0])
    else Search(bs[1..], addr)
  }

  /** The wrapping test is membership for blocks that stay in the address space. */
  lemma WrapTest(b: RamBlock, addr: int)
    requires BlockOk(b) && 0 <= addr < TWO_64
    ensures Sub64(addr, b.offset) < b.length <==> b.offset <= addr < b.End()
  {
  }

  lemma {:induction false} SearchFinds(bs: seq<RamBlock>, addr: int, i: nat)
    requires Disjoint(bs) && 0 <= addr < TWO_64 && i < |bs| && bs[i].offset <= addr < bs[i].End()
    ensures Search(bs, addr) == Some(bs[i])
  {
    assert BlockOk(bs[0]) && BlockOk(bs[i]);
    WrapTest(bs[0], addr);
    if i > 0 {
      assert Apart(bs[0], bs[i]);
      TailDisjoint(bs);
      SearchFinds(bs[1..], addr, i - 1);
    }
  }

  lemma TailDisjoint(bs: seq<RamBlock>)
    requires Disjoint(bs) && bs != []
    ensures Disjoint(bs[1..])
  {
    forall i | 0 <= i < |bs| - 1 ensures BlockOk(bs[1..][i]) { assert BlockOk(bs[i + 1]); }
    forall i, j | 0 <= i < |bs| - 1 && 0 <= j < |bs| - 1 && i != j ensures Apart(bs[1..][i], bs[1..][j]) {
      assert Apart(bs[i + 1], bs[j + 1]);
    }
  }

  lemma InsertDisjoint(bs: seq<RamBlock>, pos: nat, b: RamBlock)
    requires Disjoint(bs) && pos <= |bs| && BlockOk(b) && forall k :: 0 <= k < |bs| ==> Apart(b, bs[k])
    ensures Disjoint(InsertAt(bs, pos, b))
  {
    var cs := InsertAt(bs, pos, b);
    forall i | 0 <= i < |cs| ensures BlockOk(cs[i]) {
      if i < pos { assert BlockOk(bs[i]); } else if i > pos { assert BlockOk(bs[i - 1]); }
    }
    forall i, j | 0 <= i < |cs| && 0 <= j < |cs| && i != j ensures Apart(cs[i], cs[j]) {
      var x, y := if i < pos then i else i - 1, if j < pos then j else j - 1;
      if i != pos && j != pos { assert Apart(bs[x], bs[y]); }
    }
  }

  lemma InsertDescending(bs: seq<RamBlock>, pos: nat, b: RamBlock)
    requires Descending(bs) && FirstShorter(bs, b.length, pos)
    ensures Descending(InsertAt(bs, pos, b))
  {
  }

  lemma RemoveDisjoint(bs: seq<RamBlock>, k: nat)
    requires Disjoint(bs) && Descending(bs) && k < |bs|
    ensures Disjoint(bs[..k] + bs[k + 1..]) && Descending(bs[..k] + bs[k + 1..])
  {
    var cs := bs[..k] + bs[k + 1..];
    forall i | 0 <= i < |cs| ensures BlockOk(cs[i]) { assert BlockOk(bs[if i < k then i else i + 1]); }
    forall i, j | 0 <= i < |cs| && 0 <= j < |cs| && i != j ensures Apart(cs[i], cs[j]) {
      assert Apart(bs[if i < k then i else i + 1], bs[if j < k then j else j + 1]);
    }
  }

  class RamList {
    var blocks: seq<RamBlock>
    var mru: Option<RamBlock>
    const page: nat

    ghost predicate Valid()
      reads this
    {
      page >= 1 && page < TWO_64 && Disjoint(blocks) && Descending(blocks) && (mru.Some? ==> mru.value in blocks)
    }

    constructor (page: nat)
      requires 1 <= page < TWO_64
      ensures Valid() && blocks == [] && this.page == page
    {
      this.page := page;
      blocks, mru := [], None;
    }

    /** The list position before the first shorter block. */
    method FindPosition(length: int) returns (pos: nat)
      ensures FirstShorter(blocks, length, pos)
    {
      pos := 0;
      while pos < |blocks| && length <= blocks[pos].length
        invariant pos <= |blocks| && forall k :: 0 <= k < pos ==> length <= blocks[k].length
      {
        pos := pos + 1;
      }
    }

    /**
     Allocates `size` bytes rounded up to pages. It fails, where the source aborts, exactly when the
     rounding wraps to zero or no gap after a block is long enough.
     */
    method Alloc(size: int) returns (r: Option<int>)
      requires Valid() && 0 <= size < TWO_64
      modifies this
      ensures Valid()
      ensures r.None? ==> blocks == old(blocks)
      ensures r.Some? ==> mru.None? && Inserted(old(blocks), RamBlock(r.value, PageAlign(size, page)), blocks)
      ensures r.Some? ==>
        if old(blocks) == [] then r.value == 0 else BestFit(old(blocks), PageAlign(size, page), r.value)
      ensures r.None? <==> PageAlign(size, page) == 0 || NoGap(old(blocks), PageAlign(size, page))
    {
      var length := PageAlign(size, page);
      if length == 0 { return None; }
      r := FindRamOffset(blocks, length);
      if r.None? { return; }
      var b := RamBlock(r.value, length);
      var pos := FindPosition(length);
      FitsApart(blocks, b);
      InsertDisjoint(blocks, pos, b);
      InsertDescending(blocks, pos, b);
      blocks := InsertAt(blocks, pos, b);
      mru := None;
    }

    /** Frees the block at `addr`, if there is one. */
    method Free(addr: int)
      requires Valid()
      modifies this
      ensures Valid()
      ensures (forall k :: 0 <= k < |old(blocks)| ==> old(blocks)[k].offset != addr) ==>
        blocks == old(blocks) && mru == old(mru)
      ensures forall k :: 0 <= k < |old(blocks)| && old(blocks)[k].offset == addr ==>
        blocks == old(blocks)[..k] + old(blocks)[k + 1..] && mru.None?
    {
      for k := 0 to |blocks|
        invariant blocks == old(blocks) && mru == old(mru)
        invariant forall i :: 0 <= i < k ==> blocks[i].offset != addr
      {
        if blocks[k].offset == addr {
          forall i | 0 <= i < |blocks| && i != k ensures blocks[i].offset != addr {
            assert BlockOk(blocks[i]) && BlockOk(blocks[k]) && Apart(blocks[i], blocks[k]);
          }
          RemoveDisjoint(blocks, k);
          blocks := blocks[..k] + blocks[k + 1..];
          mru := None;
          return;
        }
      }
    }

    /** The cached lookup answers exactly as the linear search does. */
    method GetRamBlock(addr: int) returns (r: Option<RamBlock>)
      requires Valid() && 0 <= addr < TWO_64
      modifies this`mru
      ensures Valid() && r == Search(blocks, addr)
      ensures r.Some? ==> mru == r && r.value in blocks && r.value.offset <= addr < r.value.End()
      ensures r.None? ==> forall i :: 0 <= i < |blocks| ==> !(blocks[i].offset <= addr < blocks[i].End())
    {
      if mru.Some? && Sub64(addr, mru.value.offset) < mru.value.length {
        var i :| 0 <= i < |blocks| && blocks[i] == mru.value;
        assert BlockOk(blocks[i]);
        WrapTest(blocks[i], addr);
        SearchFinds(blocks, addr, i);
        return mru;
      }
      for i := 0 to |blocks|
        invariant mru == old(mru)
        invariant Search(blocks[i..], addr) == Search(blocks, addr)
        invariant forall k :: 0 <= k < i ==> !(blocks[k].offset <= addr < blocks[k].End())
      {
        assert BlockOk(blocks[i]);
        WrapTest(blocks[i], addr);
        if Sub64(addr, blocks[i].offset) < blocks[i].length {
          mru := Some(blocks[i]);
          return mru;
        }
        assert blocks[i..][1..] == blocks[i + 1..];
      }
      return None;
    }
  }

  /** Rounds up to pages in 64 bits. */
  function PageAlign(size: int, page: nat): (r: int)
    requires 1 <= page < TWO_64 && 0 <= size < TWO_64
    ensures 0 <= r < TWO_64
  {
    var x := Wrap64(size + page - 1);
    x - x % page
  }

  /** Sizes in the last page of the address space wrap to zero; all others round up to a page multiple. */
  lemma PageAlignRounds(size: int, page: nat)
    requires 1 <= page < TWO_64 && 0 <= size < TWO_64
    ensures var r := PageAlign(size, page);
            if size + page <= TWO_64 then size <= r < size + page && r % page == 0 else r == 0
  {
    var x := Wrap64(size + page - 1);
    DownMultiple(x, page);
  }
}
