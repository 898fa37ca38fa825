/**
 The KVM slot table (kvm-all.c): guest ranges backed by host memory, kept
 pairwise disjoint by splitting the slots that a new section overlaps.
 */
module Kvm {
  import opened Arithmetic
  import opened FlatViews

  datatype Slot = Slot(start: int, size: int, ram: int)

  /** A section as the callback sees it: its guest range, host address and what kind of region it is in. */
  datatype Section = Section(start: int, size: int, ram: int, isRam: bool, writeable: bool,
                             readonlyAllowed: bool, romd: bool)

  /** Regions that are not RAM get a slot only as read-only memory, and only if the kernel can do that. */
  predicate Ignored(sec: Section) { !sec.isRam && (sec.writeable || !sec.readonlyAllowed) }

  datatype Clamped = Skip | Range(start: int, size: int, delta: int)

  /** The page-sized part of a section. */
  function Clamp(start: int, size: int, page: nat): Clamped
    requires page >= 1
  {
    var delta := (size + page - 1) / page * page - size;
    if delta > size then Skip
    else
      var start' := start + delta;
      var size' := (size - delta) - (size - delta) % page;
      if size' == 0 || start' % page != 0 then Skip else Range(start', size', delta)
  }

  lemma ClampInside(start: int, size: int, page: nat)
    requires page >= 1 && size >= 0 && Clamp(start, size, page).Range?
    ensures var r := Clamp(start, size, page);
            start <= r.start && 0 < r.size && r.start + r.size <= start + size && r.delta == r.start - start
  {
    var d := (size + page - 1) / page;
    assert d * page >= size;
  }

  /** Page-aligned sections are taken whole. */
  lemma ClampAligned(start: int, size: int, page: nat)
    requires page >= 1 && size > 0 && start % page == 0 && size % page == 0
    ensures Clamp(start, size, page) == Range(start, size, 0)
  {
    var k, d := size / page, (size + page - 1) / page;
    assert size == k * page && d * page <= size + page - 1 < d * page + page;
    if d < k { MulStep(d, k, page); }
    if k < d { MulStep(k, d, page); }
  }

  /** Padding `start` by what `size` lacks to a page ends on a page boundary only if both lack the same. */
  lemma PaddedStart(start: int, size: int, p: nat)
    requires p >= 1
    ensures var s := start + (AlignUp(size, p) - size);
            (s % p == 0 <==> start % p == size % p) && (s % p == 0 ==> s == AlignUp(start, p))
  {
    AlignUpIs(start, p);
    AlignUpIs(size, p);
    Padding(start, size % p, p);
  }

  lemma Padding(x: int, b: nat, p: nat)
    requires b < p
    ensures var s := x + (if b == 0 then 0 else p - b);
            (s % p == 0 <==> x % p == b) && (s % p == 0 ==> s == if x % p == 0 then x else x + (p - x % p))
  {
    var q, a := x / p, x % p;
    assert x == q * p + a && (q + 1) * p == q * p + p;
    if b == 0 {
      DivUnique(x, p, q);
    } else if a < b {
      DivUnique(x + (p - b), p, q);
    } else {
      DivUnique(x + (p - b), p, q + 1);
    }
  }

  lemma AlignDownShift(lo: int, y: int, p: nat)
    requires p >= 1 && lo % p == 0
    ensures AlignDown(lo + y, p) == lo + AlignDown(y, p)
  {
    var q, k := lo / p, y / p;
    assert lo == q * p && y == k * p + y % p;
    assert (q + k) * p == q * p + k * p;
    DivUnique(lo + y, p, q + k);
    AlignDownIs(lo + y, p);
    AlignDownIs(y, p);
  }

  /**
   The clamp takes either all whole pages of a section or none: all exactly when start and size lie
   the same distance past a page boundary. It pads the start by what the size lacks, so an aligned
   start with an odd size loses every page.
   */
  lemma ClampExact(start: int, size: int, page: nat)
    requires page >= 1 && size >= 0
    ensures var lo, hi := AlignUp(start, page), AlignDown(start + size, page);
            Clamp(start, size, page) ==
            if lo < hi && start % page == size % page then Range(lo, hi - lo, lo - start) else Skip
  {
    var delta := AlignUp(size, page) - size;
    AlignUpIs(size, page);
    PaddedStart(start, size, page);
    if (start + delta) % page == 0 { AlignDownShift(start + delta, size - delta, page); }
    DownBounds(size - delta, page);
  }

  /** A section of one and a half pages at address 0 holds a whole page and gets no slot. */
  lemma ClampLosesPage()
    ensures AlignUp(0, 4096) < AlignDown(6144, 4096) && Clamp(0, 6144, 4096) == Skip
  {
    ClampExact(0, 6144, 4096);
  }

  lemma DownBounds(y: int, p: nat)
    requires p >= 1
    ensures y - p < AlignDown(y, p) <= y && (y < 0 ==> AlignDown(y, p) < 0) && (y >= 0 ==> AlignDown(y, p) >= 0)
  {
    AlignDownIs(y, p);
    if y >= 0 { assert y / p * p >= 0; }
  }

  /** Slot `sl` backs guest address `a` with host address `h`. */
  predicate Hit(sl: Slot, a: int, h: int) { sl.start <= a < sl.start + sl.size && h == sl.ram + (a - sl.start) }

  ghost predicate Maps(s: seq<Slot>, a: int, h: int) { exists i :: 0 <= i < |s| && Hit(s[i], a, h) }

  predicate Meets(sl: Slot, start: int, end: int) { sl.start < end && start < sl.start + sl.size && 0 < sl.size }

  predicate SlotOk(sl: Slot) { 0 <= sl.start && 0 <= sl.size && sl.start + sl.size < TWO_64 }

  predicate Separate(x: Slot, y: Slot) {
    0 < x.size && 0 < y.size ==> x.start + x.size <= y.start || y.start + y.size <= x.start
  }

  ghost predicate DisjointSlots(s: seq<Slot>) {
    && (forall i {:trigger SlotOk(s[i])} :: 0 <= i < |s| ==> SlotOk(s[i]))
    && forall i, j {:trigger Separate(s[i], s[j])} :: 0 <= i < |s| && 0 <= j < |s| && i != j ==> Separate(s[i], s[j])
  }

  function UsedSlots(s: seq<Slot>): set<nat> { set i: nat | i < |s| && s[i].size > 0 }

  function MeetingSlots(s: seq<Slot>, start: int, end: int): set<nat> {
    set i: nat | i < |s| && Meets(s[i], start, end)
  }

  ghost predicate NoneMeets(s: seq<Slot>, start: int, end: int) {
    forall j :: 0 <= j < |s| ==> !Meets(s[j], start, end)
  }

  /** Every slot is as before, or is the slot `sl`. */
  ghost predicate SameBut(s: seq<Slot>, t: seq<Slot>, sl: Slot) {
    |t| == |s| && forall j :: 0 <= j < |s| ==> t[j] == s[j] || t[j] == sl
  }

  /** No other slot meets a part of slot `i`, so none does once slot `i` is cleared. */
  lemma ClearedApart(s: seq<Slot>, i: nat, lo: int, hi: int)
    requires i < |s| && DisjointSlots(s) && s[i].start <= lo < hi <= s[i].start + s[i].size
    ensures NoneMeets(s[i := s[i].(size := 0)], lo, hi)
  {
    forall j | 0 <= j < |s| && j != i ensures !Meets(s[j], lo, hi) { assert Separate(s[i], s[j]); }
  }

  lemma UsedBound(s: seq<Slot>)
    ensures |UsedSlots(s)| <= |s|
    ensures (forall i :: 0 <= i < |s| ==> s[i].size > 0) ==> |UsedSlots(s)| == |s|
  {
    if s != [] {
      var t := s[..|s| - 1];
      UsedBound(t);
      var last: nat := |s| - 1;
      if s[last].size > 0 {
        assert UsedSlots(s) == UsedSlots(t) + {last};
      } else {
        assert UsedSlots(s) == UsedSlots(t);
      }
    }
  }

  lemma UsedFill(s: seq<Slot>, i: nat, sl: Slot)
    requires i < |s| && s[i].size == 0 && sl.size > 0
    ensures |UsedSlots(s[i := sl])| == |UsedSlots(s)| + 1
  {
    assert UsedSlots(s[i := sl]) == UsedSlots(s) + {i};
  }

  lemma UsedClear(s: seq<Slot>, i: nat)
    requires i < |s| && s[i].size > 0
    ensures |UsedSlots(s[i := s[i].(size := 0)])| == |UsedSlots(s)| - 1
  {
    assert UsedSlots(s[i := s[i].(size := 0)]) == UsedSlots(s) - {i};
  }

  /** The slot ends at 2^64, so its end address wraps to 0. */
  predicate IsTop(sl: Slot) { 0 < sl.size && sl.start + sl.size == TWO_64 }

  /** The slot as the lookup sees it: one that ends at 2^64 overlaps nothing. */
  function Seen(sl: Slot): Slot { if IsTop(sl) then sl.(size := 0) else sl }

  /** The table as the lookup sees it. */
  function Low(s: seq<Slot>): (t: seq<Slot>)
    ensures |t| == |s| && forall i :: 0 <= i < |s| ==> t[i] == Seen(s[i])
  {
    seq(|s|, i requires 0 <= i < |s| => Seen(s[i]))
  }

  predicate SlotFits(sl: Slot) { 0 <= sl.start < TWO_64 && 0 <= sl.size && sl.start + sl.size <= TWO_64 }

  /** The slots that the lookup sees are disjoint; slots that end at 2^64 may be anywhere. */
  ghost predicate TableOk(s: seq<Slot>) {
    DisjointSlots(Low(s)) && forall i {:trigger SlotFits(s[i])} :: 0 <= i < |s| ==> SlotFits(s[i])
  }

  /** All slots are disjoint, those that end at 2^64 included. */
  ghost predicate AllDisjoint(s: seq<Slot>) {
    && (forall i {:trigger SlotFits(s[i])} :: 0 <= i < |s| ==> SlotFits(s[i]))
    && forall i, j {:trigger Separate(s[i], s[j])} :: 0 <= i < |s| && 0 <= j < |s| && i != j ==> Separate(s[i], s[j])
  }

  predicate TopKept(x: Slot, y: Slot) { IsTop(x) || IsTop(y) ==> x == y }

  /** Slots that end at 2^64 stay, and none is added. */
  ghost predicate SameTops(s: seq<Slot>, t: seq<Slot>) {
    |s| == |t| && forall i {:trigger TopKept(s[i], t[i])} :: 0 <= i < |s| ==> TopKept(s[i], t[i])
  }

  lemma SameTopsTransitive(s: seq<Slot>, t: seq<Slot>, u: seq<Slot>)
    requires SameTops(s, t) && SameTops(t, u)
    ensures SameTops(s, u)
  {
    forall i {:trigger TopKept(s[i], u[i])} | 0 <= i < |s| ensures TopKept(s[i], u[i]) {
      assert TopKept(s[i], t[i]) && TopKept(t[i], u[i]);
    }
  }

  /** Replacing a slot that is not at the top by another such slot. */
  lemma LowSet(s: seq<Slot>, i: nat, sl: Slot)
    requires i < |s| && !IsTop(s[i]) && !IsTop(sl)
    ensures Low(s[i := sl]) == Low(s)[i := sl] && SameTops(s, s[i := sl])
  {
  }

  lemma FitsSet(s: seq<Slot>, i: nat, sl: Slot)
    requires i < |s| && TableOk(s) && SlotFits(sl)
    ensures forall j {:trigger SlotFits(s[i := sl][j])} :: 0 <= j < |s| ==> SlotFits(s[i := sl][j])
  {
    forall j {:trigger SlotFits(s[i := sl][j])} | 0 <= j < |s| ensures SlotFits(s[i := sl][j]) {
      if j != i { assert SlotFits(s[j]); }
    }
  }

  /** The guest-to-host map is a function as long as slots are disjoint. */
  lemma MapsFunctional(s: seq<Slot>, a: int, h1: int, h2: int)
    requires DisjointSlots(s) && Maps(s, a, h1) && Maps(s, a, h2)
    ensures h1 == h2
  {
    var i :| 0 <= i < |s| && Hit(s[i], a, h1);
    var j :| 0 <= j < |s| && Hit(s[j], a, h2);
    assert i != j ==> Separate(s[i], s[j]);
  }

  /** Filling the free slot `i` adds exactly what the new slot maps. */
  lemma FillSlot(s: seq<Slot>, i: nat, sl: Slot)
    requires i < |s| && s[i].size == 0 && sl.size > 0 && SlotOk(sl) && DisjointSlots(s)
    requires NoneMeets(s, sl.start, sl.start + sl.size)
    ensures DisjointSlots(s[i := sl])
    ensures Gains(s, s[i := sl], sl)
  {
    var t := s[i := sl];
    forall j, k | 0 <= j < |t| && 0 <= k < |t| && j != k ensures Separate(t[j], t[k]) {
      if j != i && k != i { assert Separate(s[j], s[k]); }
    }
    forall j | 0 <= j < |t| ensures SlotOk(t[j]) { if j != i { assert SlotOk(s[j]); } }
    forall a, h ensures Maps(t, a, h) <==> Maps(s, a, h) || Hit(sl, a, h) {
      if Maps(s, a, h) {
        var j :| 0 <= j < |s| && Hit(s[j], a, h);
        assert Hit(t[j], a, h);
      }
      if Hit(sl, a, h) { assert Hit(t[i], a, h); }
      if Maps(t, a, h) {
        var j :| 0 <= j < |t| && Hit(t[j], a, h);
        assert j == i || Hit(s[j], a, h);
      }
    }
  }

  /** Clearing slot `i` removes exactly what it mapped. */
  lemma ClearSlot(s: seq<Slot>, i: nat)
    requires i < |s| && s[i].size > 0 && DisjointSlots(s)
    ensures var t := s[i := s[i].(size := 0)];
            DisjointSlots(t) && Lost(s, t, s[i])
  {
    var t := s[i := s[i].(size := 0)];
    forall j, k | 0 <= j < |t| && 0 <= k < |t| && j != k ensures Separate(t[j], t[k]) { assert Separate(s[j], s[k]); }
    forall j | 0 <= j < |t| ensures SlotOk(t[j]) { assert SlotOk(s[j]); }
    forall a, h ensures Maps(t, a, h) <==> Maps(s, a, h) && !Hit(s[i], a, h) {
      if Maps(t, a, h) {
        var j :| 0 <= j < |t| && Hit(t[j], a, h);
        assert j != i && Hit(s[j], a, h) && Separate(s[i], s[j]);
      }
      if Maps(s, a, h) && !Hit(s[i], a, h) {
        var j :| 0 <= j < |s| && Hit(s[j], a, h);
        assert Hit(t[j], a, h);
      }
    }
  }

  /** What the section leaves of the mapping: everything outside it, and inside it the new mapping or nothing. */
  ghost predicate Updated(s: seq<Slot>, t: seq<Slot>, start: int, size: int, ram: int, add: bool) {
    forall a, h :: Maps(t, a, h) <==>
                   if start <= a < start + size then add && h == ram + (a - start) else Maps(s, a, h)
  }

  /** Nothing outside the section changed so far, and nothing was added inside it. */
  ghost predicate Carved(s: seq<Slot>, t: seq<Slot>, start: int, end: int) {
    forall a, h {:trigger Maps(t, a, h)} ::
      if start <= a < end then Maps(t, a, h) ==> Maps(s, a, h) else Maps(t, a, h) <==> Maps(s, a, h)
  }

  /** Slot `i` loses its part inside [start, end) and keeps the rest. */
  ghost predicate SlotCarved(s: seq<Slot>, t: seq<Slot>, i: nat, start: int, end: int)
    requires i < |s|
  {
    && |t| == |s| && DisjointSlots(t)
    && (forall a, h {:trigger Maps(t, a, h)} ::
      Maps(t, a, h) <==> Maps(s, a, h) && !(start <= a < end && Hit(s[i], a, h)))
    && (forall j :: 0 <= j < |s| && Meets(t[j], start, end) ==> j != i && t[j] == s[j])
  }

  class KvmState {
    const slots: array<Slot>

    constructor (n: nat)
      ensures fresh(slots) && slots.Length == n && DisjointSlots(slots[..]) && UsedSlots(slots[..]) == {}
    {
      slots := new Slot[n](_ => Slot(0, 0, 0));
    }

    /** The first free slot; none left is an abort in the source. */
    method AllocSlot() returns (found: Option<nat>)
      ensures found.None? <==> forall i :: 0 <= i < slots.Length ==> slots[i].size != 0
      ensures found.Some? ==> found.value < slots.Length && slots[found.value].size == 0
    {
      for i := 0 to slots.Length
        invariant forall k :: 0 <= k < i ==> slots[k].size != 0
      {
        if slots[i].size == 0 { return Some(i); }
      }
      return None;
    }

    /** The overlapping slot with the lowest start address, among those the lookup sees. */
    method LookupOverlappingSlot(start: int, end: int) returns (found: Option<nat>)
      requires TableOk(slots[..]) && 0 <= start
      ensures found.None? ==> NoneMeets(Low(slots[..]), start, end)
      ensures found.Some? ==> found.value < slots.Length && Meets(Seen(slots[found.value]), start, end) &&
                              forall i :: 0 <= i < slots.Length && Meets(Seen(slots[i]), start, end) ==>
                                            slots[found.value].start <= slots[i].start
    {
      found := None;
      assert forall i :: 0 <= i < slots.Length ==> SlotFits(slots[..][i]);
      for i := 0 to slots.Length
        invariant found.None? ==> forall k :: 0 <= k < i ==> !Meets(Seen(slots[k]), start, end)
        invariant found.Some? ==> found.value < slots.Length && Meets(Seen(slots[found.value]), start, end)
        invariant found.Some? ==> forall k :: 0 <= k < i && Meets(Seen(slots[k]), start, end) ==>
                                                slots[found.value].start <= slots[k].start
      {
        var mem := slots[i];
        if !(mem.size == 0 || (found.Some? && slots[found.value].start < mem.start)) {
          if end > mem.start && start < Wrap64(mem.start + mem.size) { found := Some(i); }
        }
      }
    }

    /** Puts one new slot into a free place; no place is an abort. */
    method Register(sl: Slot) returns (found: Option<nat>)
      requires TableOk(slots[..]) && sl.size > 0
      modifies slots
      ensures found.None? ==> slots[..] == old(slots[..]) && |UsedSlots(slots[..])| == slots.Length
      ensures found.Some? ==> found.value < slots.Length && old(slots[found.value].size) == 0 &&
                              slots[..] == old(slots[..])[found.value := sl]
      ensures found.Some? ==> |UsedSlots(slots[..])| == |old(UsedSlots(slots[..]))| + 1
    {
      found := AllocSlot();
      assert forall i :: 0 <= i < slots.Length ==> SlotFits(slots[..][i]);
      UsedBound(slots[..]);
      if found.None? { return; }
      UsedFill(slots[..], found.value, sl);
      slots[found.value] := sl;
      assert slots[..] == old(slots[..])[found.value := sl];
    }

    /** Registers a piece of a split slot unless it is empty. */
    method KeepPiece(sl: Slot) returns (ok: bool)
      requires TableOk(slots[..])
      requires sl.size > 0 ==> SlotOk(sl) && NoneMeets(Low(slots[..]), sl.start, sl.start + sl.size)
      modifies slots
      ensures SameBut(Low(old(slots[..])), Low(slots[..]), sl) && SameTops(old(slots[..]), slots[..])
      ensures ok ==> TableOk(slots[..]) && Gains(Low(old(slots[..])), Low(slots[..]), sl)
      ensures ok ==> |UsedSlots(slots[..])| == |old(UsedSlots(slots[..]))| + if sl.size > 0 then 1 else 0
      ensures !ok ==> sl.size > 0 && |UsedSlots(slots[..])| == |old(UsedSlots(slots[..]))| == slots.Length
    {
      ok := true;
      if sl.size > 0 {
        var found := Register(sl);
        ok := found.Some?;
        if ok { FillLow(old(slots[..]), found.value, sl); }
      }
    }

    /** Unregisters slot `i` and registers again what lies before and after [start, end). */
    method SplitSlot(i: nat, start: int, end: int) returns (ok: bool)
      requires TableOk(slots[..]) && i < slots.Length && Meets(Seen(slots[i]), start, end) && start < end
      modifies slots
      ensures SameTops(old(slots[..]), slots[..])
      ensures ok ==> TableOk(slots[..]) && SlotCarved(Low(old(slots[..])), Low(slots[..]), i, start, end)
      ensures ok ==> |UsedSlots(slots[..])| == |old(UsedSlots(slots[..]))| - 1 + Pieces(old(slots[i]), start, end)
      ensures !ok ==> |UsedSlots(slots[..])| == slots.Length &&
                      |UsedSlots(slots[..])| < |old(UsedSlots(slots[..]))| + Pieces(old(slots[i]), start, end)
    {
      ghost var t0 := slots[..];
      var old_ := slots[i];
      ClearLow(t0, i);
      UsedClear(t0, i);
      slots[i] := slots[i].(size := 0);
      ghost var t1 := slots[..];
      assert t1 == t0[i := t0[i].(size := 0)];
      ok := KeepRest(t0, i, old_, start, end);
      SameTopsTransitive(t0, t1, slots[..]);
    }

    /** Registers what lies before and after [start, end) of the slot `was`, which is cleared already. */
    method KeepRest(ghost t0: seq<Slot>, ghost i: nat, was: Slot, start: int, end: int) returns (ok: bool)
      requires i < |t0| && TableOk(t0) && was == t0[i] && !IsTop(was) && Meets(was, start, end) && start < end
      requires slots[..] == t0[i := was.(size := 0)] && TableOk(slots[..])
      requires Lost(Low(t0), Low(slots[..]), was) && Low(slots[..]) == Low(t0)[i := was.(size := 0)]
      modifies slots
      ensures SameTops(old(slots[..]), slots[..])
      ensures ok ==> TableOk(slots[..]) && SlotCarved(Low(t0), Low(slots[..]), i, start, end)
      ensures ok ==> |UsedSlots(slots[..])| == |old(UsedSlots(slots[..]))| + Pieces(was, start, end)
      ensures !ok ==> |UsedSlots(slots[..])| == slots.Length &&
                      |UsedSlots(slots[..])| < |old(UsedSlots(slots[..]))| + Pieces(was, start, end)
    {
      ghost var t1 := slots[..];
      assert SlotOk(Low(t0)[i]);
      if was.start < start { ClearedApart(Low(t0), i, was.start, start); }
      ok := KeepPiece(Slot(was.start, start - was.start, was.ram));
      if !ok { return; }
      ghost var t2 := slots[..];
      var delta := end - was.start;
      if end < was.start + was.size { SuffixFree(Low(t0), i, Low(t2), start, end); }
      ok := KeepPiece(Slot(end, was.size - delta, was.ram + delta));
      SameTopsTransitive(t1, t2, slots[..]);
      if !ok { return; }
      CarvedFromPieces(Low(t0), Low(t1), Low(t2), Low(slots[..]), i, start, end);
    }

    /**
     Adds or removes a page-aligned range of RAM: splits every slot it overlaps, then registers it.
     Fails, as the source aborts, only when the table is too full.
     */
    method SetRange(start: int, size: int, ram: int, add: bool) returns (ok: bool)
      requires TableOk(slots[..]) && 0 <= start && 0 < size && start + size <= TWO_64
      modifies slots
      ensures ok ==> RangeSet(old(slots[..]), slots[..], start, size, ram, add)
      ensures ok ==> |UsedSlots(slots[..])| <= |old(UsedSlots(slots[..]))| + 2
      ensures |old(UsedSlots(slots[..]))| + 2 <= slots.Length ==> ok
    {
      var end := Wrap64(start + size);
      ghost var t0, used := slots[..], |UsedSlots(slots[..])|;
      ghost var left, right, removed := 0, 0, 0;
      while true
        invariant TableOk(slots[..]) && SameTops(t0, slots[..]) && Carved(Low(t0), Low(slots[..]), start, end)
        invariant 0 <= left <= 1 && 0 <= right <= 1 && 0 <= removed && (left + right > 0 ==> removed > 0)
        invariant |UsedSlots(slots[..])| == used - removed + left + right
        invariant left == 1 ==> NoneSticksOut(Low(slots[..]), start, end, true)
        invariant right == 1 ==> NoneSticksOut(Low(slots[..]), start, end, false)
        invariant end == 0 ==> slots[..] == t0
        decreases |MeetingSlots(Low(slots[..]), start, end)|
      {
        var found := LookupOverlappingSlot(start, end);
        if found.None? { break; }
        var mem := slots[found.value];
        assert SlotFits(slots[..][found.value]);
        if add && start >= mem.start && end <= mem.start + mem.size && ram - start == mem.ram - mem.start {
          ContainedIsUpdated(Low(t0), Low(slots[..]), found.value, start, size, ram);
          return true;
        }
        ghost var before := slots[..];
        ok := SplitSlot(found.value, start, end);
        SameTopsTransitive(t0, before, slots[..]);
        if !ok { return; }
        CarvedStep(Low(t0), Low(before), Low(slots[..]), found.value, start, end);
        removed := removed + 1;
        left := if mem.start < start then 1 else left;
        right := if mem.start + mem.size > end then 1 else right;
      }
      ok := true;
      if add { ok := AddRange(t0, start, size, ram); }
    }

    /** Registers the new slot once nothing that the lookup sees overlaps it. */
    method AddRange(ghost t0: seq<Slot>, start: int, size: int, ram: int) returns (ok: bool)
      requires TableOk(slots[..]) && 0 <= start && 0 < size && start + size <= TWO_64 && SameTops(t0, slots[..])
      requires start + size == TWO_64 ==> slots[..] == t0
      requires start + size < TWO_64 ==>
                 NoneMeets(Low(slots[..]), start, start + size) && Carved(Low(t0), Low(slots[..]), start, start + size)
      modifies slots
      ensures ok ==> RangeSet(t0, slots[..], start, size, ram, true)
      ensures ok ==> |UsedSlots(slots[..])| == |old(UsedSlots(slots[..]))| + 1
      ensures !ok ==> |old(UsedSlots(slots[..]))| == slots.Length
    {
      ghost var t := slots[..];
      var found := Register(Slot(start, size, ram));
      ok := found.Some?;
      if ok {
        if start + size < TWO_64 {
          FillLow(t, found.value, Slot(start, size, ram));
          SameTopsTransitive(t0, t, slots[..]);
        } else {
          FillTop(t, found.value, Slot(start, size, ram));
        }
      }
    }

    /**
     The listener callback: clamps the section to pages, skips what is not backed, then updates the table.
     A section of 2^64 bytes has no 64-bit size and stops the program.
     */
    method SetPhysMem(sec: Section, add: bool, page: nat) returns (ok: bool)
      requires TableOk(slots[..]) && page >= 1 && 0 <= sec.start && 0 <= sec.size && sec.start + sec.size <= TWO_64
      modifies slots
      ensures sec.size < TWO_64 && Clamp(sec.start, sec.size, page).Skip? ==> ok && slots[..] == old(slots[..])
      ensures sec.size < TWO_64 && !sec.isRam && (sec.writeable || !sec.readonlyAllowed) ==>
                ok && slots[..] == old(slots[..])
      ensures var r := Clamp(sec.start, sec.size, page);
              ok && r.Range? && (sec.isRam || (!sec.writeable && sec.readonlyAllowed)) ==>
                && |UsedSlots(slots[..])| <= |old(UsedSlots(slots[..]))| + 2
                && RangeSet(old(slots[..]), slots[..], r.start, r.size, sec.ram + r.delta,
                            add && (sec.isRam || sec.romd))
      ensures ok ==> sec.size < TWO_64
      ensures sec.size < TWO_64 && |old(UsedSlots(slots[..]))| + 2 <= slots.Length ==> ok
    {
      if sec.size >= TWO_64 { return false; }
      var r := Clamp(sec.start, sec.size, page);
      if r.Skip? || Ignored(sec) { return true; }
      ClampInside(sec.start, sec.size, page);
      ok := SetRange(r.start, r.size, sec.ram + r.delta, add && (sec.isRam || sec.romd));
    }
  }

  /** Table `t` is table `s` with the slot `sl` in a free place. */
  ghost predicate AddedTop(s: seq<Slot>, t: seq<Slot>, sl: Slot) {
    exists i :: 0 <= i < |s| && s[i].size == 0 && t == s[i := sl]
  }

  /**
   What a call does to the table. For a range below 2^64 the slots the lookup sees are updated and the others
   stay. A range that ends at 2^64 has end address 0: nothing is split, so removing does nothing and adding
   only adds.
   */
  ghost predicate RangeSet(s: seq<Slot>, t: seq<Slot>, start: int, size: int, ram: int, add: bool) {
    && TableOk(t)
    && if start + size < TWO_64 then Updated(Low(s), Low(t), start, size, ram, add) && SameTops(s, t)
       else if add then AddedTop(s, t, Slot(start, size, ram))
       else t == s
  }

  /** Filling a free place with a slot below 2^64. */
  lemma FillLow(s: seq<Slot>, i: nat, sl: Slot)
    requires i < |s| && s[i].size == 0 && sl.size > 0 && SlotOk(sl) && TableOk(s)
    requires NoneMeets(Low(s), sl.start, sl.start + sl.size)
    ensures TableOk(s[i := sl]) && Gains(Low(s), Low(s[i := sl]), sl)
    ensures Low(s[i := sl]) == Low(s)[i := sl] && SameTops(s, s[i := sl])
  {
    LowSet(s, i, sl);
    FillSlot(Low(s), i, sl);
    FitsSet(s, i, sl);
  }

  lemma FillTop(s: seq<Slot>, i: nat, sl: Slot)
    requires i < |s| && s[i].size == 0 && IsTop(sl) && SlotFits(sl) && TableOk(s)
    ensures TableOk(s[i := sl])
  {
    FitsSet(s, i, sl);
    var t := Low(s[i := sl]);
    forall j | 0 <= j < |t| ensures SlotOk(t[j]) { assert SlotOk(Low(s)[j]); assert SlotFits(s[i := sl][j]); }
    forall j, k | 0 <= j < |t| && 0 <= k < |t| && j != k ensures Separate(t[j], t[k]) {
      assert Separate(Low(s)[j], Low(s)[k]);
    }
  }

  lemma ClearLow(s: seq<Slot>, i: nat)
    requires i < |s| && s[i].size > 0 && !IsTop(s[i]) && TableOk(s)
    ensures var t := s[i := s[i].(size := 0)];
            && TableOk(t) && Low(t) == Low(s)[i := s[i].(size := 0)] && SameTops(s, t)
            && Lost(Low(s), Low(t), s[i])
  {
    var t := s[i := s[i].(size := 0)];
    LowSet(s, i, s[i].(size := 0));
    ClearSlot(Low(s), i);
    assert SlotFits(s[i]);
    FitsSet(s, i, s[i].(size := 0));
  }

  /** Table `t` maps what `s` maps and what slot `sl` maps. */
  ghost predicate Gains(s: seq<Slot>, t: seq<Slot>, sl: Slot) {
    forall a, h {:trigger Maps(t, a, h)} :: Maps(t, a, h) <==> Maps(s, a, h) || Hit(sl, a, h)
  }

  /** Table `t` maps what `s` maps, apart from what slot `sl` maps. */
  ghost predicate Lost(s: seq<Slot>, t: seq<Slot>, sl: Slot) {
    forall a, h {:trigger Maps(t, a, h)} :: Maps(t, a, h) <==> Maps(s, a, h) && !Hit(sl, a, h)
  }

  /** With the slot cleared and its first piece back, nothing is where its last piece goes. */
  lemma SuffixFree(s0: seq<Slot>, i: nat, s2: seq<Slot>, start: int, end: int)
    requires i < |s0| && DisjointSlots(s0) && Meets(s0[i], start, end) && start < end
    requires end < s0[i].start + s0[i].size
    requires SameBut(s0[i := s0[i].(size := 0)], s2, Slot(s0[i].start, start - s0[i].start, s0[i].ram))
    ensures NoneMeets(s2, end, s0[i].start + s0[i].size)
  {
    ClearedApart(s0, i, end, s0[i].start + s0[i].size);
  }

  lemma CarvedFromPieces(s0: seq<Slot>, s1: seq<Slot>, s2: seq<Slot>, t: seq<Slot>, i: nat, start: int, end: int)
    requires i < |s0| && DisjointSlots(s0) && DisjointSlots(t) && |t| == |s0| && Meets(s0[i], start, end) && start < end
    requires Lost(s0, s1, s0[i])
    requires Gains(s1, s2, Slot(s0[i].start, start - s0[i].start, s0[i].ram))
    requires Gains(s2, t, Slot(end, s0[i].size - (end - s0[i].start), s0[i].ram + (end - s0[i].start)))
    requires s1 == s0[i := s0[i].(size := 0)]
    requires SameBut(s1, s2, Slot(s0[i].start, start - s0[i].start, s0[i].ram))
    requires SameBut(s2, t, Slot(end, s0[i].size - (end - s0[i].start), s0[i].ram + (end - s0[i].start)))
    ensures SlotCarved(s0, t, i, start, end)
  {
    PiecesOutside(s0, s1, s2, t, i, start, end);
    forall a, h {:trigger Maps(t, a, h)}
      ensures Maps(t, a, h) <==> Maps(s0, a, h) && !(start <= a < end && Hit(s0[i], a, h))
    {
      assert Maps(s2, a, h) ==> Maps(t, a, h);
      assert Maps(s1, a, h) ==> Maps(s2, a, h);
    }
  }

  /** The pieces registered again lie outside [start, end), so what meets it was there before. */
  lemma PiecesOutside(s0: seq<Slot>, s1: seq<Slot>, s2: seq<Slot>, t: seq<Slot>, i: nat, start: int, end: int)
    requires i < |s0| && s1 == s0[i := s0[i].(size := 0)] && start < end
    requires SameBut(s1, s2, Slot(s0[i].start, start - s0[i].start, s0[i].ram))
    requires SameBut(s2, t, Slot(end, s0[i].size - (end - s0[i].start), s0[i].ram + (end - s0[i].start)))
    ensures forall j :: 0 <= j < |t| && Meets(t[j], start, end) ==> j != i && t[j] == s0[j]
  {
  }

  /** How many pieces of a slot stay outside [start, end). */
  function Pieces(sl: Slot, start: int, end: int): int {
    (if sl.start < start then 1 else 0) + (if sl.start + sl.size > end then 1 else 0)
  }

  /** No slot that meets the section sticks out of it on one side. */
  ghost predicate NoneSticksOut(s: seq<Slot>, start: int, end: int, low: bool) {
    forall j :: 0 <= j < |s| && Meets(s[j], start, end) ==>
      if low then start <= s[j].start else s[j].start + s[j].size <= end
  }

  /** Splitting one slot keeps the carving, and leaves no second slot sticking out on the same side. */
  lemma CarvedStep(s0: seq<Slot>, s: seq<Slot>, t: seq<Slot>, i: nat, start: int, end: int)
    requires i < |s| && DisjointSlots(s) && Carved(s0, s, start, end) && SlotCarved(s, t, i, start, end)
    requires Meets(s[i], start, end) && start < end
    ensures Carved(s0, t, start, end)
    ensures MeetingSlots(t, start, end) < MeetingSlots(s, start, end)
    ensures |MeetingSlots(t, start, end)| < |MeetingSlots(s, start, end)|
    ensures s[i].start < start ==> NoneSticksOut(s, start, end, true) == false && NoneSticksOut(t, start, end, true)
    ensures s[i].start + s[i].size > end ==>
      NoneSticksOut(s, start, end, false) == false && NoneSticksOut(t, start, end, false)
    ensures NoneSticksOut(s, start, end, true) ==> NoneSticksOut(t, start, end, true)
    ensures NoneSticksOut(s, start, end, false) ==> NoneSticksOut(t, start, end, false)
  {
    forall j | 0 <= j < |t| && Meets(t[j], start, end) ensures j != i && t[j] == s[j] && Separate(s[i], s[j]) {
      assert Separate(s[i], s[j]);
    }
    assert i in MeetingSlots(s, start, end) && i !in MeetingSlots(t, start, end);
    SmallerSet(MeetingSlots(t, start, end), MeetingSlots(s, start, end));
  }

  lemma SmallerSet<T>(x: set<T>, y: set<T>)
    requires x < y
    ensures |x| < |y|
  {
    assert y == x + (y - x);
    assert y - x != {};
  }

  /** A section that fits an existing slot with the same offset is mapped already. */
  lemma ContainedIsUpdated(s0: seq<Slot>, s: seq<Slot>, i: nat, start: int, size: int, ram: int)
    requires i < |s| && DisjointSlots(s) && Carved(s0, s, start, start + size)
    requires s[i].start <= start && start + size <= s[i].start + s[i].size && ram - start == s[i].ram - s[i].start
    ensures Updated(s0, s, start, size, ram, true)
  {
    forall a, h ensures Maps(s, a, h) <==>
      if start <= a < start + size then h == ram + (a - start) else Maps(s0, a, h) {
      if start <= a < start + size {
        assert Hit(s[i], a, ram + (a - start)) && Maps(s, a, ram + (a - start));
        if Maps(s, a, h) { MapsFunctional(s, a, h, ram + (a - start)); }
      }
    }
  }

  /** The lookup cannot see that the slot and the range overlap: one of them ends at 2^64. */
  predicate Blind(sl: Slot, start: int, size: int) { IsTop(sl) || start + size == TWO_64 }

  /** No slot overlaps the range unseen. */
  ghost predicate NoneHidden(s: seq<Slot>, start: int, size: int) {
    forall j :: 0 <= j < |s| && Blind(s[j], start, size) ==> !Meets(s[j], start, start + size)
  }

  /** A slot that ends at 2^64 is never found, whatever it overlaps. */
  lemma TopSlotUnseen(s: seq<Slot>, i: nat, start: int, size: int)
    requires i < |s| && IsTop(s[i]) && 0 <= start && 0 < size && start + size < TWO_64
    ensures !Meets(Low(s)[i], start, start + size)
    ensures Meets(s[i], start, start + size) <==> s[i].start < start + size
  {
  }

  /** Whatever the table maps, it maps through a slot the lookup sees or one that ends at 2^64. */
  lemma MapsSplit(s: seq<Slot>, a: int, h: int)
    ensures Maps(s, a, h) <==> Maps(Low(s), a, h) || exists i :: 0 <= i < |s| && IsTop(s[i]) && Hit(s[i], a, h)
  {
    if Maps(Low(s), a, h) {
      var i :| 0 <= i < |s| && Hit(Low(s)[i], a, h);
      assert Hit(s[i], a, h);
    }
    if Maps(s, a, h) {
      var i :| 0 <= i < |s| && Hit(s[i], a, h);
      assert IsTop(s[i]) || Hit(Low(s)[i], a, h);
    }
  }

  /** A slot that meets the range maps an address of it. */
  lemma MeetsMaps(s: seq<Slot>, j: nat, start: int, end: int) returns (a: int, h: int)
    requires j < |s| && Meets(s[j], start, end) && start < end
    ensures start <= a < end && Hit(s[j], a, h) && Maps(s, a, h)
  {
    a := Max(s[j].start, start);
    h := s[j].ram + (a - s[j].start);
  }

  lemma HitMeets(sl: Slot, a: int, h: int, start: int, end: int)
    requires Hit(sl, a, h) && start <= a < end
    ensures Meets(sl, start, end)
  {
  }

  /** Two slots of a disjoint table do not hit the same address. */
  lemma HitOnce(s: seq<Slot>, i: nat, j: nat, a: int, h: int, h': int)
    requires AllDisjoint(s) && i < |s| && j < |s| && i != j && Hit(s[i], a, h)
    ensures !Hit(s[j], a, h')
  {
    assert Separate(s[i], s[j]);
  }

  /** Removing a range that ends at 2^64 does nothing, which is right exactly when nothing was there. */
  lemma TopRemoveIff(s: seq<Slot>, start: int, size: int, ram: int)
    requires 0 <= start && 0 < size && start + size == TWO_64
    ensures Updated(s, s, start, size, ram, false) <==> NoneMeets(s, start, start + size)
  {
    if NoneMeets(s, start, start + size) {
      forall a, h | start <= a < start + size ensures !Maps(s, a, h) {
        if Maps(s, a, h) {
          var i :| 0 <= i < |s| && Hit(s[i], a, h);
          HitMeets(s[i], a, h, start, start + size);
          assert false;
        }
      }
    } else {
      var j :| 0 <= j < |s| && Meets(s[j], start, start + size);
      var a, h := MeetsMaps(s, j, start, start + size);
    }
  }

  /** A slot in the last page of the address space stays when the section is removed. */
  lemma TopSlotStays(h: int)
    ensures var s := [Slot(TWO_64 - 4096, 4096, h)];
            && AllDisjoint(s) && RangeSet(s, s, TWO_64 - 4096, 4096, h, false)
            && !Updated(s, s, TWO_64 - 4096, 4096, h, false)
  {
    var s := [Slot(TWO_64 - 4096, 4096, h)];
    TopRemoveIff(s, TWO_64 - 4096, 4096, h);
    assert Meets(s[0], TWO_64 - 4096, TWO_64);
  }

  /** Adding a range that ends at 2^64 keeps the slots disjoint exactly when none overlaps it. */
  lemma TopAddIff(s: seq<Slot>, i: nat, sl: Slot)
    requires AllDisjoint(s) && i < |s| && s[i].size == 0 && SlotFits(sl) && 0 < sl.size
    ensures AllDisjoint(s[i := sl]) <==> NoneMeets(s, sl.start, sl.start + sl.size)
    ensures NoneMeets(s, sl.start, sl.start + sl.size) ==> Updated(s, s[i := sl], sl.start, sl.size, sl.ram, true)
  {
    var t := s[i := sl];
    if NoneMeets(s, sl.start, sl.start + sl.size) {
      forall j {:trigger SlotFits(t[j])} | 0 <= j < |t| ensures SlotFits(t[j]) { assert j != i ==> SlotFits(s[j]); }
      forall j, k | 0 <= j < |t| && 0 <= k < |t| && j != k ensures Separate(t[j], t[k]) {
        if j != i && k != i { assert Separate(s[j], s[k]); }
      }
      forall a, h ensures Maps(t, a, h) <==> Maps(s, a, h) || Hit(sl, a, h) { MapsAfterSet(s, i, sl, a, h); }
      forall a, h | sl.start <= a < sl.start + sl.size ensures !Maps(s, a, h) {
        if Maps(s, a, h) {
          var j :| 0 <= j < |s| && Hit(s[j], a, h);
          HitMeets(s[j], a, h, sl.start, sl.start + sl.size);
          assert false;
        }
      }
    } else {
      var j :| 0 <= j < |s| && Meets(s[j], sl.start, sl.start + sl.size);
      assert j != i && !Separate(t[i], t[j]);
    }
  }

  lemma MapsAfterSet(s: seq<Slot>, i: nat, sl: Slot, a: int, h: int)
    requires i < |s| && s[i].size == 0
    ensures Maps(s[i := sl], a, h) <==> Maps(s, a, h) || Hit(sl, a, h)
  {
    var t := s[i := sl];
    if Maps(s, a, h) {
      var j :| 0 <= j < |s| && Hit(s[j], a, h);
      assert Hit(t[j], a, h);
    }
    if Hit(sl, a, h) { assert Hit(t[i], a, h); }
    if Maps(t, a, h) {
      var j :| 0 <= j < |t| && Hit(t[j], a, h);
      assert j == i || Hit(s[j], a, h);
    }
  }

  /** A slot that ends at 2^64 maps the same before and after. */
  lemma TopsMapAlike(s: seq<Slot>, t: seq<Slot>, a: int, h: int)
    requires SameTops(s, t)
    ensures (exists i :: 0 <= i < |s| && IsTop(s[i]) && Hit(s[i], a, h)) <==>
            (exists i :: 0 <= i < |t| && IsTop(t[i]) && Hit(t[i], a, h))
  {
    forall i | 0 <= i < |s| && IsTop(s[i]) ensures t[i] == s[i] { assert TopKept(s[i], t[i]); }
    forall i | 0 <= i < |t| && IsTop(t[i]) ensures t[i] == s[i] { assert TopKept(s[i], t[i]); }
  }

  lemma LowUpdated(s: seq<Slot>, t: seq<Slot>, start: int, size: int, ram: int, add: bool)
    requires SameTops(s, t) && Updated(Low(s), Low(t), start, size, ram, add) && NoneHidden(s, start, size)
    ensures Updated(s, t, start, size, ram, add)
  {
    forall a, h ensures Maps(t, a, h) <==>
                        if start <= a < start + size then add && h == ram + (a - start) else Maps(s, a, h)
    {
      MapsSplit(s, a, h);
      MapsSplit(t, a, h);
      TopsMapAlike(s, t, a, h);
      if start <= a < start + size {
        forall i | 0 <= i < |s| && IsTop(s[i]) ensures !Hit(s[i], a, h) {
          if Hit(s[i], a, h) { HitMeets(s[i], a, h, start, start + size); assert false; }
        }
      }
    }
  }

  lemma LowDisjoint(s: seq<Slot>, t: seq<Slot>, start: int, size: int, ram: int, add: bool)
    requires AllDisjoint(s) && TableOk(t) && SameTops(s, t) && NoneHidden(s, start, size)
    requires Updated(Low(s), Low(t), start, size, ram, add)
    ensures AllDisjoint(t)
  {
    forall j, k | 0 <= j < |t| && 0 <= k < |t| && j != k ensures Separate(t[j], t[k]) {
      if IsTop(t[j]) && IsTop(t[k]) {
        assert TopKept(s[j], t[j]) && TopKept(s[k], t[k]) && Separate(s[j], s[k]);
      } else if IsTop(t[j]) {
        TopApart(s, t, j, k, start, size, ram, add);
      } else if IsTop(t[k]) {
        TopApart(s, t, k, j, start, size, ram, add);
      } else {
        assert Separate(Low(t)[j], Low(t)[k]);
      }
    }
  }

  /** A slot below 2^64 holds only addresses that were mapped below before, or that the range brought. */
  lemma TopApart(s: seq<Slot>, t: seq<Slot>, top: nat, k: nat, start: int, size: int, ram: int, add: bool)
    requires AllDisjoint(s) && SameTops(s, t) && NoneHidden(s, start, size)
    requires Updated(Low(s), Low(t), start, size, ram, add)
    requires top < |t| && k < |t| && IsTop(t[top]) && !IsTop(t[k])
    ensures Separate(t[top], t[k]) && Separate(t[k], t[top])
  {
    assert TopKept(s[top], t[top]);
    assert Blind(s[top], start, size) && !Meets(s[top], start, start + size);
    if !Separate(t[top], t[k]) {
      var a := Max(t[top].start, t[k].start);
      var h, h' := t[k].ram + (a - t[k].start), t[top].ram + (a - t[top].start);
      assert Hit(Low(t)[k], a, h) && Hit(s[top], a, h');
      assert Maps(Low(t), a, h);
      if !(start <= a < start + size) {
        var j :| 0 <= j < |s| && Hit(Low(s)[j], a, h);
        HitOnce(s, j, top, a, h, h');
      }
      assert false;
    }
  }

  /** A slot the lookup could not see overlaps the range: what is left is wrong. */
  lemma HiddenIsWrong(s: seq<Slot>, t: seq<Slot>, start: int, size: int, ram: int, add: bool)
    requires SameTops(s, t) && Updated(Low(s), Low(t), start, size, ram, add) && 0 < size && start + size < TWO_64
    requires !NoneHidden(s, start, size)
    ensures !(AllDisjoint(t) && Updated(s, t, start, size, ram, add))
  {
    var j :| 0 <= j < |s| && Blind(s[j], start, size) && Meets(s[j], start, start + size);
    var a, h := MeetsMaps(s, j, start, start + size);
    assert TopKept(s[j], t[j]);
    assert Maps(t, a, h);
    if add && AllDisjoint(t) {
      assert Maps(Low(t), a, ram + (a - start));
      var k :| 0 <= k < |t| && Hit(Low(t)[k], a, ram + (a - start));
      HitOnce(t, j, k, a, h, ram + (a - start));
    }
  }

  /**
   From a table of disjoint slots a call leaves disjoint slots and the right mapping if and only if no slot
   overlaps the range unseen: neither ends at 2^64, or they do not overlap.
   */
  lemma RangeSetIff(s: seq<Slot>, t: seq<Slot>, start: int, size: int, ram: int, add: bool)
    requires AllDisjoint(s) && 0 <= start && 0 < size && start + size <= TWO_64
    requires RangeSet(s, t, start, size, ram, add)
    ensures AllDisjoint(t) && Updated(s, t, start, size, ram, add) <==> NoneHidden(s, start, size)
  {
    if start + size == TWO_64 {
      assert NoneHidden(s, start, size) <==> NoneMeets(s, start, start + size);
      if add {
        var i :| 0 <= i < |s| && s[i].size == 0 && t == s[i := Slot(start, size, ram)];
        TopAddIff(s, i, Slot(start, size, ram));
      } else {
        TopRemoveIff(s, start, size, ram);
      }
    } else if NoneHidden(s, start, size) {
      LowUpdated(s, t, start, size, ram, add);
      LowDisjoint(s, t, start, size, ram, add);
    } else {
      HiddenIsWrong(s, t, start, size, ram, add);
    }
  }

  /** Disjoint slots are disjoint as far as the lookup sees. */
  lemma AllIsTable(s: seq<Slot>)
    requires AllDisjoint(s)
    ensures TableOk(s)
  {
    forall i | 0 <= i < |s| ensures SlotOk(Low(s)[i]) { assert SlotFits(s[i]); }
    forall i, j | 0 <= i < |s| && 0 <= j < |s| && i != j ensures Separate(Low(s)[i], Low(s)[j]) {
      assert Separate(s[i], s[j]);
    }
  }
}
