/**
 A whole core file (dump.c): the headers announce where each mapping's memory is,
 and the memory that is written afterwards is there.
 */
module DumpFile {
  import opened Drivers
  import opened FlatViews
  import opened Dump
  import opened DumpLayout

  /** A byte of a header or note, whose contents are not modelled. */
  const BLANK: int := -1

  function Blank(n: nat): (s: seq<int>)
    ensures |s| == n
  {
    seq(n, _ => BLANK)
  }

  /** A program header of a mapping: where its memory is in the file, and how much of it. */
  datatype Load = Load(mapping: Mapping, offset: int, filesz: int)

  /** What one program header promises. */
  ghost predicate LoadOk(l: Load, bs: seq<Block>, f: Filter, memoryOffset: int) {
    && 0 <= l.filesz <= l.mapping.length
    && (Stored(bs, f, l.mapping.phys) && !EndsAtTop(l.mapping) ==>
          Announced(bs, f, l.mapping.phys, l.offset - memoryOffset, l.filesz))
    && (!Stored(bs, f, l.mapping.phys) ==> l.offset == -1 && l.filesz == 0)
    && (SoleBlock(bs, f, l.mapping) ==> l.filesz == l.mapping.length)
  }

  /** The mapping is what one block keeps, and does not end at 2^64. */
  ghost predicate SoleBlock(bs: seq<Block>, f: Filter, m: Mapping) {
    !EndsAtTop(m) && KeptBySome(bs, f, m)
  }

  /** The mapping is what one block keeps. */
  ghost predicate KeptBySome(bs: seq<Block>, f: Filter, m: Mapping) {
    exists j {:trigger KeptAs(bs, j, f, m)} :: KeptAs(bs, j, f, m)
  }

  predicate KeptAs(bs: seq<Block>, j: int, f: Filter, m: Mapping) {
    0 <= j < |bs| && Kept(bs[j], f) && m == MappingOf(bs[j], f)
  }

  /** What a block keeps, as a mapping. */
  function MappingOf(b: Block, f: Filter): Mapping { Mapping(KeptLo(b, f), 0, KeptHi(b, f) - KeptLo(b, f)) }

  /** What one block keeps lies in one block. */
  lemma SoleIsWhole(bs: seq<Block>, f: Filter, m: Mapping)
    requires BlocksOk(bs) && SoleBlock(bs, f, m) && 0 < m.length
    ensures Stored(bs, f, m.phys) && InOneBlock(bs, f, m.phys, m.length)
  {
    var j: nat :| KeptAs(bs, j, f, m);
    assert BlockOk(bs[j]) && FoundIn(bs[j], f, m.phys);
    StoredInBlock(bs, j, f, m.phys);
  }

  ghost predicate LoadsOk(loads: seq<Load>, ms: seq<Mapping>, bs: seq<Block>, f: Filter, memoryOffset: int) {
    |loads| <= |ms| &&
    forall i {:trigger LoadFor(loads[i], ms[i], bs, f, memoryOffset)} :: 0 <= i < |loads| ==>
      LoadFor(loads[i], ms[i], bs, f, memoryOffset)
  }

  ghost predicate LoadFor(l: Load, m: Mapping, bs: seq<Block>, f: Filter, memoryOffset: int) {
    l.mapping == m && LoadOk(l, bs, f, memoryOffset)
  }

  lemma MoreLoads(loads: seq<Load>, l: Load, ms: seq<Mapping>, bs: seq<Block>, f: Filter, memoryOffset: int)
    requires LoadsOk(loads, ms, bs, f, memoryOffset) && |loads| < |ms|
    requires l.mapping == ms[|loads|] && LoadOk(l, bs, f, memoryOffset)
    ensures LoadsOk(loads + [l], ms, bs, f, memoryOffset)
  {
    var all := loads + [l];
    forall i {:trigger LoadFor(all[i], ms[i], bs, f, memoryOffset)} | 0 <= i < |all|
      ensures LoadFor(all[i], ms[i], bs, f, memoryOffset)
    {
      assert i < |loads| ==> LoadFor(loads[i], ms[i], bs, f, memoryOffset);
    }
  }

  /** Announces one mapping. */
  method AnnounceOne(ds: DumpState, m: Mapping) returns (l: Load)
    requires BlocksOk(ds.blocks) && MappingOk(m)
    ensures l.mapping == m && LoadOk(l, ds.blocks, ds.filter, ds.memoryOffset)
  {
    var found, offset, filesz := ds.GetOffsetRange(m.phys, m.length);
    l := Load(m, offset, filesz);
    if SoleBlock(ds.blocks, ds.filter, m) && 0 < m.length { SoleIsWhole(ds.blocks, ds.filter, m); }
  }

  /** Writes `n` bytes of headers or notes. */
  method Append(ds: DumpState, n: nat) returns (ok: bool)
    modifies ds`file, ds.driver
    ensures ds.driver.faults == old(ds.driver.faults) + if ok then 0 else 1
    ensures ok ==> ds.file == old(ds.file) + Blank(n)
  {
    ok := ds.driver.Call();
    if ok { ds.file := ds.file + Blank(n); }
  }

  /** One program header per mapping, as far as the count in the headers goes. */
  method WriteElfLoads(ds: DumpState, elf64: bool, ms: seq<Mapping>, maxIndex: nat) returns (ok: bool, loads: seq<Load>)
    requires BlocksOk(ds.blocks) && MappingsOk(ms) && maxIndex >= 1 && (ms != [] ==> maxIndex >= 2)
    modifies ds`file, ds.driver
    ensures ds.driver.faults == old(ds.driver.faults) + if ok then 0 else 1
    ensures ok ==> LoadsOk(loads, ms, ds.blocks, ds.filter, ds.memoryOffset)
    ensures ok ==> |loads| == if |ms| < maxIndex then |ms| else maxIndex - 1
    ensures ok ==> |ds.file| == |old(ds.file)| + PhdrSize(elf64) * |loads|
  {
    loads, ok := [], true;
    var index := 1;
    for i := 0 to |ms|
      invariant ok && |loads| == i && index == i + 1 && (i < |ms| ==> index < maxIndex)
      invariant (i > 0 ==> index <= maxIndex) && ds.driver.faults == old(ds.driver.faults)
      invariant LoadsOk(loads, ms, ds.blocks, ds.filter, ds.memoryOffset)
      invariant |ds.file| == |old(ds.file)| + PhdrSize(elf64) * i
    {
      assert MappingOk(ms[i]);
      var l := AnnounceOne(ds, ms[i]);
      MoreLoads(loads, l, ms, ds.blocks, ds.filter, ds.memoryOffset);
      loads := loads + [l];
      ok := Append(ds, PhdrSize(elf64));
      if !ok { return; }
      index := index + 1;
      if index >= maxIndex { return; }
    }
  }

  /** The headers and notes: they end exactly where the layout puts the memory. */
  method DumpBegin(ds: DumpState, elf64: bool, ms: seq<Mapping>, noteSize: nat) returns (ok: bool, loads: seq<Load>)
    requires BlocksOk(ds.blocks) && MappingsOk(ms) && ds.file == []
    requires ds.memoryOffset == PlanLayout(elf64, |ms|, noteSize).memoryOffset
    modifies ds`file, ds.driver
    ensures ds.driver.faults == old(ds.driver.faults) + if ok then 0 else 1
    ensures ok ==> LoadsOk(loads, ms, ds.blocks, ds.filter, ds.memoryOffset) && |ds.file| == ds.memoryOffset
    ensures ok ==> (|loads| == |ms| <==> |ms| < UINT32_MAX)
  {
    var l := PlanLayout(elf64, |ms|, noteSize);
    loads := [];
    ok := Append(ds, EhdrSize(elf64));
    if !ok { return; }
    ok := Append(ds, PhdrSize(elf64));
    if !ok { return; }
    ok, loads := WriteElfLoads(ds, elf64, ms, if l.haveSection then l.shInfo else l.phdrNum);
    if !ok { return; }
    if l.haveSection {
      ok := Append(ds, ShdrSize(elf64));
      if !ok { return; }
    }
    ok := Append(ds, noteSize);
  }

  /** One mapping for each block, without virtual addresses. */
  function Simple(bs: seq<Block>): (ms: seq<Mapping>)
    ensures |ms| == |bs|
  {
    seq(|bs|, i requires 0 <= i < |bs| => Mapping(bs[i].start, 0, bs[i].end - bs[i].start))
  }

  method SimpleMappings(bs: seq<Block>) returns (ms: seq<Mapping>)
    requires BlocksOk(bs)
    ensures ms == Simple(bs) && MappingsOk(ms)
  {
    ms := [];
    for i := 0 to |bs|
      invariant ms == Simple(bs)[..i] && MappingsOk(ms)
    {
      assert BlockOk(bs[i]);
      forall k | 0 <= k < i ensures ms[k].phys < bs[i].start { assert InOrder(bs[k], bs[i]) && BlockOk(bs[k]); }
      var m := Mapping(bs[i].start, 0, Sub64(TargetEnd(bs[i]), bs[i].start));
      ghost var before := ms;
      ms := AddSorted(ms, m);
      assert m == Simple(bs)[i];
      AppendOk(before, m);
      assert ms == before + [m] && Simple(bs)[..i + 1] == Simple(bs)[..i] + [Simple(bs)[i]];
    }
  }

  lemma AppendOk(ms: seq<Mapping>, m: Mapping)
    requires MappingsOk(ms) && MappingOk(m)
    ensures MappingsOk(ms + [m])
  {
    var all := ms + [m];
    forall i | 0 <= i < |all| ensures MappingOk(all[i]) { assert i < |ms| ==> MappingOk(ms[i]); }
  }

  /** What the filter leaves of a mapping of a whole block is what the block keeps. */
  lemma FilterOneKept(bs: seq<Block>, j: nat, f: Filter)
    requires BlocksOk(bs) && j < |bs| && f.Window?
    ensures var ms := FilterOne(Simple(bs)[j], f.begin, f.begin + f.length);
            if Kept(bs[j], f) then |ms| == 1 && KeptAs(bs, j, f, ms[0]) else ms == []
  {
    assert BlockOk(bs[j]);
  }

  lemma {:induction false} FilteredKept(bs: seq<Block>, n: nat, f: Filter, i: nat)
    requires BlocksOk(bs) && n <= |bs| && f.Window?
    requires i < |Filtered(Simple(bs)[..n], f.begin, f.begin + f.length)|
    ensures var m := Filtered(Simple(bs)[..n], f.begin, f.begin + f.length)[i];
            MappingOk(m) && KeptBySome(bs, f, m)
    decreases n
  {
    var ms := Simple(bs)[..n];
    assert ms[..n - 1] == Simple(bs)[..n - 1];
    var begin, end := f.begin, f.begin + f.length;
    var before, one := Filtered(ms[..n - 1], begin, end), FilterOne(ms[n - 1], begin, end);
    assert Filtered(ms, begin, end) == before + one;
    if i < |before| {
      FilteredKept(bs, n - 1, f, i);
      assert (before + one)[i] == before[i];
    } else {
      FilterOneKept(bs, n - 1, f);
      assert (before + one)[i] == one[0] && BlockOk(bs[n - 1]) && KeptAs(bs, n - 1, f, one[0]);
    }
  }

  lemma SimpleKept(bs: seq<Block>, i: nat)
    requires BlocksOk(bs) && i < |bs|
    ensures MappingOk(Simple(bs)[i]) && KeptAs(bs, i, All, Simple(bs)[i])
  {
    assert BlockOk(bs[i]);
  }

  lemma {:induction false} FilteredHas(bs: seq<Block>, n: nat, f: Filter, j: nat)
    requires BlocksOk(bs) && j < n <= |bs| && f.Window? && Kept(bs[j], f)
    ensures MappingOf(bs[j], f) in Filtered(Simple(bs)[..n], f.begin, f.begin + f.length)
    decreases n
  {
    var ms := Simple(bs)[..n];
    assert ms[..n - 1] == Simple(bs)[..n - 1];
    if j == n - 1 {
      FilterOneKept(bs, j, f);
      assert FilterOne(ms[j], f.begin, f.begin + f.length)[0] == MappingOf(bs[j], f);
    } else {
      FilteredHas(bs, n - 1, f, j);
    }
  }

  lemma {:induction false} FilteredShorter(ms: seq<Mapping>, begin: int, end: int)
    ensures |Filtered(ms, begin, end)| <= |ms|
  {
    if ms != [] { FilteredShorter(ms[..|ms| - 1], begin, end); }
  }

  /** Every block that is kept has its mapping. */
  ghost predicate HasKept(ms: seq<Mapping>, bs: seq<Block>, f: Filter) {
    forall j {:trigger MappingOf(bs[j], f)} :: 0 <= j < |bs| && Kept(bs[j], f) ==> MappingOf(bs[j], f) in ms
  }

  /** Every mapping is what some block keeps. */
  ghost predicate AllKept(ms: seq<Mapping>, bs: seq<Block>, f: Filter) {
    forall i {:trigger KeptBySome(bs, f, ms[i])} :: 0 <= i < |ms| ==> KeptBySome(bs, f, ms[i])
  }

  /** The mappings that the file announces: given, or one for each block; and filtered. */
  method Mappings(bs: seq<Block>, f: Filter, paging: Option<seq<Mapping>>) returns (ms: seq<Mapping>)
    requires BlocksOk(bs) && (paging.Some? ==> MappingsOk(paging.value))
    requires f.Window? ==> f.begin + f.length <= TWO_64
    ensures MappingsOk(ms) && (paging.None? ==> AllKept(ms, bs, f) && HasKept(ms, bs, f) && |ms| <= |bs|)
  {
    if paging.Some? {
      ms := paging.value;
    } else {
      ms := SimpleMappings(bs);
    }
    if f.Window? { ms := FilterMappings(ms, f.begin, f.length); }
    if paging.Some? {
      if f.Window? { FilteredOk(paging.value, f.begin, f.begin + f.length); }
    } else if f.Window? {
      WindowKeeps(bs, f);
    } else {
      AllKeeps(bs, f);
    }
  }

  lemma WindowKeeps(bs: seq<Block>, f: Filter)
    requires BlocksOk(bs) && f.Window?
    ensures var ms := Filtered(Simple(bs), f.begin, f.begin + f.length);
            MappingsOk(ms) && AllKept(ms, bs, f) && HasKept(ms, bs, f) && |ms| <= |bs|
  {
    var ms := Filtered(Simple(bs), f.begin, f.begin + f.length);
    assert Simple(bs)[..|bs|] == Simple(bs);
    FilteredShorter(Simple(bs), f.begin, f.begin + f.length);
    forall j {:trigger MappingOf(bs[j], f)} | 0 <= j < |bs| && Kept(bs[j], f) ensures MappingOf(bs[j], f) in ms {
      FilteredHas(bs, |bs|, f, j);
    }
    forall i {:trigger MappingOk(ms[i])} | 0 <= i < |ms| ensures MappingOk(ms[i]) { FilteredKept(bs, |bs|, f, i); }
    forall i {:trigger KeptBySome(bs, f, ms[i])} | 0 <= i < |ms| ensures KeptBySome(bs, f, ms[i]) {
      FilteredKept(bs, |bs|, f, i);
    }
  }

  lemma AllKeeps(bs: seq<Block>, f: Filter)
    requires BlocksOk(bs) && f.All?
    ensures AllKept(Simple(bs), bs, f) && HasKept(Simple(bs), bs, f)
  {
    var ms := Simple(bs);
    forall i {:trigger KeptBySome(bs, f, ms[i])} | 0 <= i < |ms| ensures KeptBySome(bs, f, ms[i]) {
      SimpleKept(bs, i);
      assert f == All && KeptAs(bs, i, f, ms[i]);
    }
    forall j {:trigger MappingOf(bs[j], f)} | 0 <= j < |bs| && Kept(bs[j], f) ensures MappingOf(bs[j], f) in ms {
      assert f == All && ms[j] == MappingOf(bs[j], f);
    }
  }

  lemma {:induction false} FilteredOk(ms: seq<Mapping>, begin: int, end: int)
    requires MappingsOk(ms) && 0 <= begin <= end <= TWO_64
    ensures MappingsOk(Filtered(ms, begin, end))
  {
    if ms != [] {
      InitOk(ms);
      FilteredOk(ms[..|ms| - 1], begin, end);
      assert MappingOk(ms[|ms| - 1]);
      ClippedMaps(ms[|ms| - 1], begin, end, 0, 0);
      var xs, ys := Filtered(ms[..|ms| - 1], begin, end), FilterOne(ms[|ms| - 1], begin, end);
      forall i | 0 <= i < |xs + ys| ensures MappingOk((xs + ys)[i]) { assert i < |xs| ==> MappingOk(xs[i]); }
    }
  }

  /** NoBlock: without a filter and without RAM the writer follows a null pointer. */
  datatype DumpResult = Done | BadBegin | WriteFailed | NoBlock

  /** In the file, byte `offset + k` is the host byte of the mapping's address `k`. */
  ghost predicate Faithful(l: Load, bs: seq<Block>, file: seq<int>) {
    forall a {:trigger FaithfulAt(l, bs, file, a)} :: Announces(l, a) ==> FaithfulAt(l, bs, file, a)
  }

  ghost predicate FaithfulAt(l: Load, bs: seq<Block>, file: seq<int>, a: int) {
    0 <= l.offset + (a - l.mapping.phys) < |file| && Some(file[l.offset + (a - l.mapping.phys)]) == HostOf(bs, a)
  }

  /**
   Writes a core file. Every byte that a program header announces is in the file at the announced offset: the
   walk that computes the offsets and the walk that writes the memory agree. Without paging a program header
   announces its whole mapping, or nothing of it if it ends at 2^64, and every stored address is announced. The
   dump is refused exactly when the filter keeps no block.
   */
  method DumpGuestMemory(driver: Driver, bs: seq<Block>, f: Filter, paging: Option<seq<Mapping>>, elf64: bool,
                         noteSize: nat, page: nat)
    returns (result: DumpResult, loads: seq<Load>, file: seq<int>)
    requires BlocksOk(bs) && page >= 1
    requires (paging.Some? ==> MappingsOk(paging.value)) && (f.Window? ==> f.begin + f.length <= TWO_64)
    modifies driver
    ensures result.Done? ==>
      forall i :: 0 <= i < |loads| && !EndsAtTop(loads[i].mapping) ==> Faithful(loads[i], bs, file)
    ensures result.Done? ==> forall i :: 0 <= i < |loads| ==> 0 <= loads[i].filesz <= loads[i].mapping.length
    ensures result.Done? && paging.None? ==>
      forall i :: 0 <= i < |loads| ==>
        loads[i].filesz == if EndsAtTop(loads[i].mapping) then 0 else loads[i].mapping.length
    ensures result.Done? && paging.None? && |bs| < UINT32_MAX ==> AllAnnounced(loads, bs, f)
    ensures result.BadBegin? <==> f.Window? && forall i :: 0 <= i < |bs| ==>
              bs[i].end == TWO_64 || f.begin + f.length <= bs[i].start || bs[i].end <= f.begin
    ensures result.NoBlock? ==> f.All? && bs == []
    ensures result.WriteFailed? <==> driver.faults > old(driver.faults)
    ensures result.Done? ==> exists i :: 0 <= i < |bs| && Kept(bs[i], f)
  {
    loads, file := [], [];
    var ms := Mappings(bs, f, paging);
    var ds := new DumpState(driver, bs, f, PlanLayout(elf64, |ms|, noteSize).memoryOffset);
    var start := ds.GetStartBlock();
    if f.Window? { NoneKeptMeans(bs, f); }
    if start == -1 { return BadBegin, loads, file; }
    var ok;
    ok, loads := DumpBegin(ds, elf64, ms, noteSize);
    if !ok { return WriteFailed, loads, file; }
    ghost var header := ds.file;
    if f.All? && bs == [] { return NoBlock, loads, file; }
    assert Kept(bs[ds.next], f);
    ok := ds.DumpIterate(page);
    if !ok { return WriteFailed, loads, file; }
    file := ds.file;
    forall i | 0 <= i < |loads| && !EndsAtTop(loads[i].mapping) ensures Faithful(loads[i], bs, file) {
      assert LoadFor(loads[i], ms[i], bs, f, |header|);
      LoadIsFaithful(loads[i], bs, f, header);
    }
    forall i | 0 <= i < |loads| ensures 0 <= loads[i].filesz <= loads[i].mapping.length {
      assert LoadFor(loads[i], ms[i], bs, f, |header|);
    }
    if paging.None? {
      forall i | 0 <= i < |loads|
        ensures loads[i].filesz == if EndsAtTop(loads[i].mapping) then 0 else loads[i].mapping.length
      {
        assert LoadFor(loads[i], ms[i], bs, f, |header|) && KeptBySome(bs, f, ms[i]);
        if EndsAtTop(ms[i]) { TopIsEmpty(loads[i], bs, f, |header|); }
      }
      if |bs| < UINT32_MAX { StoredIsAnnounced(loads, ms, bs, f, |header|); }
    }
    result := Done;
  }

  /** The filter keeps no block exactly if each ends at 2^64 or lies outside the window. */
  lemma NoneKeptMeans(bs: seq<Block>, f: Filter)
    requires BlocksOk(bs) && f.Window?
    ensures NoneKept(bs, |bs|, f) <==> forall i :: 0 <= i < |bs| ==>
              bs[i].end == TWO_64 || f.begin + f.length <= bs[i].start || bs[i].end <= f.begin
  {
    forall i | 0 <= i < |bs|
      ensures Kept(bs[i], f) <==> !(bs[i].end == TWO_64 || f.begin + f.length <= bs[i].start || bs[i].end <= f.begin)
    {
      assert BlockOk(bs[i]);
    }
  }

  /** Nothing is announced of a block that ends at 2^64. */
  lemma TopIsEmpty(l: Load, bs: seq<Block>, f: Filter, memoryOffset: int)
    requires BlocksOk(bs) && LoadOk(l, bs, f, memoryOffset) && KeptBySome(bs, f, l.mapping) && EndsAtTop(l.mapping)
    ensures l.filesz == 0
  {
    var j :| KeptAs(bs, j, f, l.mapping);
    assert BlockOk(bs[j]);
    assert InTopAt(bs, j, l.mapping.phys);
  }

  /** The address is among those whose bytes the program header announces. */
  predicate Announces(l: Load, a: int) { l.mapping.phys <= a < l.mapping.phys + l.filesz }

  ghost predicate AllAnnounced(loads: seq<Load>, bs: seq<Block>, f: Filter) {
    forall a {:trigger Stored(bs, f, a)} :: Stored(bs, f, a) ==> exists i :: 0 <= i < |loads| && Announces(loads[i], a)
  }

  lemma StoredIsAnnounced(loads: seq<Load>, ms: seq<Mapping>, bs: seq<Block>, f: Filter, memoryOffset: int)
    requires BlocksOk(bs) && LoadsOk(loads, ms, bs, f, memoryOffset) && |loads| == |ms|
    requires HasKept(ms, bs, f)
    ensures AllAnnounced(loads, bs, f)
  {
    forall a {:trigger Stored(bs, f, a)} | Stored(bs, f, a)
      ensures exists i :: 0 <= i < |loads| && Announces(loads[i], a)
    {
      var j := HostSome(bs, a);
      assert BlockOk(bs[j]) && !InTopAt(bs, j, a);
      var m := MappingOf(bs[j], f);
      var i :| 0 <= i < |ms| && ms[i] == m;
      assert LoadFor(loads[i], ms[i], bs, f, memoryOffset) && KeptAs(bs, j, f, m);
      assert SoleBlock(bs, f, m);
      assert Announces(loads[i], a);
    }
  }

  lemma LoadIsFaithful(l: Load, bs: seq<Block>, f: Filter, header: seq<int>)
    requires LoadOk(l, bs, f, |header|) && !EndsAtTop(l.mapping)
    ensures Faithful(l, bs, header + MemoryBytes(bs, |bs|, f))
  {
    var file := header + MemoryBytes(bs, |bs|, f);
    assert l.filesz > 0 ==> Stored(bs, f, l.mapping.phys);
    forall a {:trigger FaithfulAt(l, bs, file, a)} | Announces(l, a) ensures FaithfulAt(l, bs, file, a) {
      AnnouncedInFile(bs, f, header, l.mapping.phys, l.offset, l.filesz, a);
    }
  }
}
