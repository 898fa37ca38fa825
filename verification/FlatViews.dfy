/**
 Address ranges, flat ranges and flat views (memory.c). A flat view is a list of
 ranges sorted by address; its meaning is the partial function `Lookup` from an
 address to the region, offset and attributes found there.
 */
module FlatViews {
  import opened Arithmetic

  datatype Option<+T> = None | Some(value: T)

  type MrId = nat

  const TWO_64: int := 0x1_0000_0000_0000_0000

  /** 64-bit addition of two addresses. */
  function Wrap64(x: int): int { if x < TWO_64 then x else x - TWO_64 }

  /** 64-bit subtraction. */
  function Sub64(x: int, y: int): int { if x >= y then x - y else x - y + TWO_64 }

  /** Int128 start and size are mathematical integers. */
  datatype AddrRange = AddrRange(start: int, size: int)

  function End(r: AddrRange): int { r.start + r.size }

  predicate Contains(r: AddrRange, a: int) { r.start <= a < End(r) }

  predicate Intersects(r1: AddrRange, r2: AddrRange) {
    Contains(r1, r2.start) || Contains(r2, r1.start)
  }

  function Intersection(r1: AddrRange, r2: AddrRange): (r: AddrRange)
    requires Intersects(r1, r2) && r1.size >= 0 && r2.size >= 0
    ensures r.size >= 0
    ensures forall a :: Contains(r, a) <==> Contains(r1, a) && Contains(r2, a)
  {
    var start := Max(r1.start, r2.start);
    AddrRange(start, Min(End(r1), End(r2)) - start)
  }

  /** Ranges that do not intersect share no address, and only those. */
  lemma IntersectsIffCommonAddress(r1: AddrRange, r2: AddrRange)
    requires r1.size > 0 && r2.size > 0
    ensures Intersects(r1, r2) <==> exists a :: Contains(r1, a) && Contains(r2, a)
  {
    if Intersects(r1, r2) {
      assert Contains(r1, Max(r1.start, r2.start)) && Contains(r2, Max(r1.start, r2.start));
    }
  }

  /** Where one address leads: the region, the offset inside it, and the attributes. */
  datatype Target = Target(mr: MrId, offset: int, logMask: bv8, romd: bool, readonly: bool)

  datatype FlatRange = FlatRange(mr: MrId, offset: int, addr: AddrRange,
                                 logMask: bv8, romd: bool, readonly: bool)
  {
    function TargetAt(a: int): Target {
      Target(mr, offset + (a - addr.start), logMask, romd, readonly)
    }
  }

  /** The meaning of a view at one address. */
  function Lookup(v: seq<FlatRange>, a: int): Option<Target> {
    if v == [] then None
    else if Contains(v[0].addr, a) then Some(v[0].TargetAt(a))
    else Lookup(v[1..], a)
  }

  ghost predicate Sorted(v: seq<FlatRange>) {
    && (forall i :: 0 <= i < |v| ==> v[i].addr.size > 0)
    && (forall i, j :: 0 <= i < j < |v| ==> End(v[i].addr) <= v[j].addr.start)
  }

  /** All addresses of the view lie in [0, limit). */
  ghost predicate Within(v: seq<FlatRange>, limit: int) {
    forall i :: 0 <= i < |v| ==> 0 <= v[i].addr.start && End(v[i].addr) <= limit
  }

  lemma {:induction false} LookupAt(v: seq<FlatRange>, i: nat, a: int)
    requires Sorted(v) && i < |v| && Contains(v[i].addr, a)
    ensures Lookup(v, a) == Some(v[i].TargetAt(a))
  {
    if i > 0 {
      assert Sorted(v[1..]);
      LookupAt(v[1..], i - 1, a);
    }
  }

  lemma {:induction false} LookupSome(v: seq<FlatRange>, a: int) returns (i: nat)
    requires Lookup(v, a).Some?
    ensures i < |v| && Contains(v[i].addr, a) && Lookup(v, a) == Some(v[i].TargetAt(a))
  {
    if Contains(v[0].addr, a) {
      i := 0;
    } else {
      var k := LookupSome(v[1..], a);
      i := k + 1;
    }
  }

  lemma LookupNone(v: seq<FlatRange>, a: int)
    requires forall i :: 0 <= i < |v| ==> !Contains(v[i].addr, a)
    ensures Lookup(v, a) == None
  {
    if Lookup(v, a).Some? { var i := LookupSome(v, a); }
  }

  lemma {:induction false} LookupConcat(v: seq<FlatRange>, w: seq<FlatRange>, a: int)
    ensures Lookup(v + w, a) == if Lookup(v, a).Some? then Lookup(v, a) else Lookup(w, a)
  {
    if v == [] {
      assert v + w == w;
    } else {
      assert (v + w)[1..] == v[1..] + w;
      LookupConcat(v[1..], w, a);
    }
  }

  function InsertAt<T>(s: seq<T>, pos: nat, x: T): (r: seq<T>)
    requires pos <= |s|
    ensures |r| == |s| + 1 && r[pos] == x
    ensures forall k :: 0 <= k < pos ==> r[k] == s[k]
    ensures forall k :: pos < k < |r| ==> r[k] == s[k - 1]
  {
    s[..pos] + [x] + s[pos..]
  }

  lemma InsertMember<T>(s: seq<T>, pos: nat, x: T, y: T)
    requires pos <= |s|
    ensures y in InsertAt(s, pos, x) <==> y in s || y == x
  {
    assert s == s[..pos] + s[pos..];
    assert InsertAt(s, pos, x) == s[..pos] + [x] + s[pos..];
  }

  /** Inserting a range where it fits maps its own addresses and changes no other. */
  lemma LookupInsert(v: seq<FlatRange>, pos: nat, fr: FlatRange, a: int)
    requires pos <= |v| && Sorted(InsertAt(v, pos, fr))
    ensures Lookup(InsertAt(v, pos, fr), a) ==
            if Contains(fr.addr, a) then Some(fr.TargetAt(a)) else Lookup(v, a)
  {
    var w := InsertAt(v, pos, fr);
    if Contains(fr.addr, a) {
      LookupAt(w, pos, a);
    } else {
      assert w == v[..pos] + ([fr] + v[pos..]) && v == v[..pos] + v[pos..];
      LookupConcat(v[..pos], [fr] + v[pos..], a);
      LookupConcat([fr], v[pos..], a);
      LookupConcat(v[..pos], v[pos..], a);
    }
  }

  /** What rendering one more thing into a view means at one address. */
  function Under(shown: Option<Target>, inClip: bool, below: Option<Target>): Option<Target> {
    if shown.Some? then shown else if inClip then below else None
  }
}
