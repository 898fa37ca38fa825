/**
 The layout of a core file (dump.c) and the list of its memory mappings
 (memory_mapping.c).
 */
module DumpLayout {
  import opened FlatViews

  const UINT16_MAX: nat := 65535
  const UINT32_MAX: nat := 0xFFFF_FFFF
  const PN_XNUM: nat := 65535

  function EhdrSize(elf64: bool): nat { if elf64 then 64 else 52 }
  function PhdrSize(elf64: bool): nat { if elf64 then 56 else 32 }
  function ShdrSize(elf64: bool): nat { if elf64 then 64 else 40 }

  datatype Layout = Layout(phdrNum: nat, haveSection: bool, shInfo: nat, memoryOffset: nat)
  {
    /** The number of program headers: in the section header if there is one, else in the ELF header. */
    function Headers(): nat { if haveSection then shInfo else phdrNum }
  }

  /** The header fields and the offset of the memory part for `num` mappings. */
  function PlanLayout(elf64: bool, num: nat, noteSize: nat): (l: Layout)
    ensures l.phdrNum <= UINT16_MAX && l.shInfo <= UINT32_MAX && 1 <= l.Headers()
    ensures l.Headers() == 1 + num <==> num < UINT32_MAX
    ensures (l.haveSection <==> l.phdrNum == 0xFFFF) && (l.haveSection <==> num >= 0xFFFF - 2)
    ensures !l.haveSection ==> l.phdrNum == 1 + num
    ensures l.memoryOffset == noteSize + if elf64 then 64 + 56 * l.Headers() + (if l.haveSection then 64 else 0)
                                         else 52 + 32 * l.Headers() + if l.haveSection then 40 else 0
  {
    if num < UINT16_MAX - 2 then
      Layout(1 + num, false, 0, EhdrSize(elf64) + PhdrSize(elf64) * (1 + num) + noteSize)
    else
      var shInfo := if num <= UINT32_MAX - 1 then 1 + num else UINT32_MAX;
      Layout(PN_XNUM, true, shInfo,
             EhdrSize(elf64) + PhdrSize(elf64) * shInfo + ShdrSize(elf64) + noteSize)
  }

  datatype Mapping = Mapping(phys: int, virt: int, length: int)

  predicate MappingOk(m: Mapping) {
    0 <= m.phys < TWO_64 && 0 <= m.virt && 0 <= m.length && m.phys + m.length <= TWO_64
  }

  ghost predicate MappingsOk(ms: seq<Mapping>) {
    forall i {:trigger MappingOk(ms[i])} :: 0 <= i < |ms| ==> MappingOk(ms[i])
  }

  /** The mapping ends at 2^64, so its end address is 0. */
  predicate EndsAtTop(m: Mapping) { 0 < m.length && m.phys + m.length == TWO_64 }

  /** A mapping clipped to the window [begin, end); the virtual address moves with it unless it is absent. */
  function Clipped(m: Mapping, begin: int, end: int): Mapping {
    var m1 := if m.phys < begin then
                Mapping(begin, if m.virt != 0 then m.virt + (begin - m.phys) else 0, m.length - (begin - m.phys))
              else m;
    if m1.phys + m1.length > end then m1.(length := end - m1.phys) else m1
  }

  predicate Outside(m: Mapping, begin: int, end: int) { m.phys >= end || Wrap64(m.phys + m.length) <= begin }

  /** What is left of one mapping. */
  function FilterOne(m: Mapping, begin: int, end: int): seq<Mapping> {
    if Outside(m, begin, end) then [] else [Clipped(m, begin, end)]
  }

  function Filtered(ms: seq<Mapping>, begin: int, end: int): seq<Mapping> {
    if ms == [] then []
    else Filtered(ms[..|ms| - 1], begin, end) + FilterOne(ms[|ms| - 1], begin, end)
  }

  predicate MapsAt(m: Mapping, p: int, v: int) {
    m.phys <= p < m.phys + m.length && v == if m.virt != 0 then m.virt + (p - m.phys) else 0
  }

  /** Some mapping of the list holds physical address `p`; a non-zero `v` is the virtual address it gives it. */
  ghost predicate MapsPhys(ms: seq<Mapping>, p: int, v: int) {
    exists i :: 0 <= i < |ms| && MapsAt(ms[i], p, v)
  }

  /** A mapping that does not end at 2^64 does so. */
  ghost predicate MapsBelow(ms: seq<Mapping>, p: int, v: int) {
    exists i :: 0 <= i < |ms| && MapsAt(ms[i], p, v) && !EndsAtTop(ms[i])
  }

  lemma ClippedMaps(m: Mapping, begin: int, end: int, p: int, v: int)
    requires MappingOk(m) && 0 <= begin <= end
    ensures MapsPhys(FilterOne(m, begin, end), p, v) <==> MapsAt(m, p, v) && !EndsAtTop(m) && begin <= p < end
    ensures forall i :: 0 <= i < |FilterOne(m, begin, end)| && end <= TWO_64 ==> MappingOk(FilterOne(m, begin, end)[i])
  {
    if !Outside(m, begin, end) {
      assert FilterOne(m, begin, end)[0] == Clipped(m, begin, end);
      assert MapsAt(Clipped(m, begin, end), p, v) ==> MapsPhys(FilterOne(m, begin, end), p, v);
    }
  }

  predicate Covers(m: Mapping) { 0 < m.length }

  ghost predicate NoneEmpty(ms: seq<Mapping>) {
    forall i {:trigger Covers(ms[i])} :: 0 <= i < |ms| ==> Covers(ms[i])
  }

  /**
   Drops and clips the mappings of a list. Exactly the addresses of the window stay mapped, as they were, except
   those of mappings that end at 2^64, which are dropped.
   */
  method FilterMappings(ms: seq<Mapping>, begin: nat, length: nat) returns (out: seq<Mapping>)
    requires MappingsOk(ms)
    ensures out == Filtered(ms, begin, begin + length)
    ensures forall p, v :: MapsPhys(out, p, v) <==> MapsBelow(ms, p, v) && begin <= p < begin + length
    ensures length > 0 && NoneEmpty(ms) ==> NoneEmpty(out)
  {
    out := [];
    ghost var end := begin + length;
    for i := 0 to |ms|
      invariant out == Filtered(ms[..i], begin, end)
      invariant length > 0 && NoneEmpty(ms) ==> NoneEmpty(out)
    {
      assert MappingOk(ms[i]);
      ghost var before := out;
      assert ms[..i + 1][..i] == ms[..i];
      if !Outside(ms[i], begin, begin + length) {
        out := out + [Clipped(ms[i], begin, begin + length)];
        if length > 0 && NoneEmpty(ms) {
          assert Covers(ms[i]);
          forall k {:trigger Covers(out[k])} | 0 <= k < |out| ensures Covers(out[k]) {
            assert k < |before| ==> Covers(before[k]);
          }
        }
      }
    }
    assert ms[..|ms|] == ms;
    forall p, v ensures MapsPhys(out, p, v) <==> MapsBelow(ms, p, v) && begin <= p < begin + length {
      FilteredMaps(ms, begin, end, p, v);
    }
  }

  lemma {:induction false} FilteredMaps(ms: seq<Mapping>, begin: int, end: int, p: int, v: int)
    requires MappingsOk(ms) && 0 <= begin <= end
    ensures MapsPhys(Filtered(ms, begin, end), p, v) <==> MapsBelow(ms, p, v) && begin <= p < end
  {
    if ms != [] {
      var init, m := ms[..|ms| - 1], ms[|ms| - 1];
      InitOk(ms);
      FilteredMaps(init, begin, end, p, v);
      assert MappingOk(m);
      ClippedMaps(m, begin, end, p, v);
      MapsConcat(Filtered(init, begin, end), FilterOne(m, begin, end), p, v);
      BelowStep(ms, p, v);
    }
  }

  lemma InitOk(ms: seq<Mapping>)
    requires MappingsOk(ms) && ms != []
    ensures MappingsOk(ms[..|ms| - 1])
  {
    var init := ms[..|ms| - 1];
    forall i | 0 <= i < |init| ensures MappingOk(init[i]) { assert MappingOk(ms[i]); }
  }

  lemma MapsConcat(ms: seq<Mapping>, ns: seq<Mapping>, p: int, v: int)
    ensures MapsPhys(ms + ns, p, v) <==> MapsPhys(ms, p, v) || MapsPhys(ns, p, v)
  {
    if MapsPhys(ms, p, v) {
      var i :| 0 <= i < |ms| && MapsAt(ms[i], p, v);
      assert MapsAt((ms + ns)[i], p, v);
    }
    if MapsPhys(ns, p, v) {
      var i :| 0 <= i < |ns| && MapsAt(ns[i], p, v);
      assert MapsAt((ms + ns)[|ms| + i], p, v);
    }
  }

  lemma BelowStep(ms: seq<Mapping>, p: int, v: int)
    requires ms != []
    ensures var m := ms[|ms| - 1];
            MapsBelow(ms, p, v) <==> MapsBelow(ms[..|ms| - 1], p, v) || (MapsAt(m, p, v) && !EndsAtTop(m))
  {
    var init := ms[..|ms| - 1];
    if MapsBelow(init, p, v) {
      var i :| 0 <= i < |init| && MapsAt(init[i], p, v) && !EndsAtTop(init[i]);
      assert MapsAt(ms[i], p, v);
    }
    if MapsBelow(ms, p, v) {
      var i :| 0 <= i < |ms| && MapsAt(ms[i], p, v) && !EndsAtTop(ms[i]);
      assert i < |init| ==> MapsAt(init[i], p, v);
    }
  }

  /** Puts a mapping before the first one that starts no earlier. */
  method AddSorted(ms: seq<Mapping>, m: Mapping) returns (out: seq<Mapping>)
    ensures exists pos :: 0 <= pos <= |ms| && out == ms[..pos] + [m] + ms[pos..] &&
                          (forall k :: 0 <= k < pos ==> ms[k].phys < m.phys) &&
                          (pos < |ms| ==> m.phys <= ms[pos].phys)
    ensures (forall k :: 0 <= k < |ms| ==> ms[k].phys < m.phys) ==> out == ms + [m]
  {
    var pos := 0;
    while pos < |ms| && ms[pos].phys < m.phys
      invariant 0 <= pos <= |ms| && forall k :: 0 <= k < pos ==> ms[k].phys < m.phys
    {
      pos := pos + 1;
    }
    out := ms[..pos] + [m] + ms[pos..];
    if pos == |ms| { assert out == ms + [m]; }
  }
}
