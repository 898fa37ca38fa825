/**
 When rendering stops the program (memory.c): one turn of its loop moves on by
 2^64 bytes. Whether it does depends only on how the view occupies a window of
 2^64 bytes and on which regions are rendered over all of that window.
 */
module Overflow {
  import opened FlatViews

  /** How a view occupies a window: not at all, with or without ranges beyond it, in part, or by one range. */
  datatype Occupancy = Bare | Ahead | Partly | Whole

  predicate CoversRange(r: AddrRange, w: AddrRange) { r.start <= w.start && End(w) <= End(r) }

  predicate Touches(r: AddrRange, w: AddrRange) { r.start < End(w) && w.start < End(r) }

  predicate CoversFrom(v: seq<FlatRange>, w: AddrRange, fr: FlatRange) { fr in v && CoversRange(fr.addr, w) }

  predicate TouchesFrom(v: seq<FlatRange>, w: AddrRange, fr: FlatRange) { fr in v && Touches(fr.addr, w) }

  predicate EndsFrom(v: seq<FlatRange>, a: int, fr: FlatRange) { fr in v && a < End(fr.addr) }

  /** One range of the view covers the window. */
  ghost predicate Covered(v: seq<FlatRange>, w: AddrRange) { exists fr :: CoversFrom(v, w, fr) }

  /** Some range of the view overlaps the window. */
  ghost predicate Touched(v: seq<FlatRange>, w: AddrRange) { exists fr :: TouchesFrom(v, w, fr) }

  ghost predicate EndsAfter(v: seq<FlatRange>, a: int) { exists fr :: EndsFrom(v, a, fr) }

  ghost function Occ(v: seq<FlatRange>, w: AddrRange): Occupancy {
    if Covered(v, w) then Whole else if Touched(v, w) then Partly else if EndsAfter(v, w.start) then Ahead else Bare
  }

  /** The occupancy once one more region was rendered, over all of the window or over a part of it. */
  function Fill(o: Occupancy, full: bool): Occupancy {
    if o.Whole? || o.Partly? then o else if full then Whole else Partly
  }

  /** Rendering a region over all of the window stops the program if one range covers it or follows it. */
  predicate Trips(o: Occupancy, full: bool) { full && (o.Ahead? || o.Whole?) }

  function FillAll(o: Occupancy, visits: seq<bool>): Occupancy {
    if visits == [] then o else Fill(FillAll(o, visits[..|visits| - 1]), visits[|visits| - 1])
  }

  predicate TripsAny(o: Occupancy, visits: seq<bool>) {
    visits != [] && (TripsAny(o, visits[..|visits| - 1]) ||
                     Trips(FillAll(o, visits[..|visits| - 1]), visits[|visits| - 1]))
  }

  lemma {:induction false} VisitConcat(o: Occupancy, xs: seq<bool>, ys: seq<bool>)
    ensures FillAll(o, xs + ys) == FillAll(FillAll(o, xs), ys)
    ensures TripsAny(o, xs + ys) <==> TripsAny(o, xs) || TripsAny(FillAll(o, xs), ys)
    decreases |ys|
  {
    if ys == [] {
      assert xs + ys == xs;
    } else {
      assert (xs + ys)[..|xs + ys| - 1] == xs + ys[..|ys| - 1];
      VisitConcat(o, xs, ys[..|ys| - 1]);
    }
  }

  lemma VisitOne(o: Occupancy, full: bool)
    ensures FillAll(o, [full]) == Fill(o, full) && (TripsAny(o, [full]) <==> Trips(o, full))
  {
    assert [full][..0] == [];
  }

  lemma {:induction false} BareFill(visits: seq<bool>)
    requires visits != []
    ensures FillAll(Bare, visits) == if visits[0] then Whole else Partly
  {
    var init := visits[..|visits| - 1];
    if init == [] {
      VisitOne(Bare, visits[0]);
      assert visits == [visits[0]];
    } else {
      BareFill(init);
    }
  }

  /** From an empty view: the first region fills the whole window and another one is rendered over all of it. */
  lemma {:induction false} BareTrips(visits: seq<bool>)
    ensures TripsAny(Bare, visits) <==> visits != [] && visits[0] && true in visits[1..]
  {
    if visits != [] {
      var init, last := visits[..|visits| - 1], visits[|visits| - 1];
      BareTrips(init);
      if init == [] {
        assert visits[1..] == [];
      } else {
        BareFill(init);
        assert visits[1..] == init[1..] + [last];
      }
    }
  }

  predicate Inside(r: AddrRange, w: AddrRange) { w.start <= r.start && End(r) <= End(w) }

  /** View `w` has all ranges of `v`, and others only inside `clip`. */
  ghost predicate Grew(v: seq<FlatRange>, w: seq<FlatRange>, clip: AddrRange) {
    forall fr {:trigger GrewAt(v, w, clip, fr)} :: GrewAt(v, w, clip, fr)
  }

  predicate GrewAt(v: seq<FlatRange>, w: seq<FlatRange>, clip: AddrRange, fr: FlatRange) {
    (fr in v ==> fr in w) && (fr in w ==> fr in v || Inside(fr.addr, clip))
  }

  lemma GrewInsert(v: seq<FlatRange>, w: seq<FlatRange>, pos: nat, fr: FlatRange, clip: AddrRange)
    requires Grew(v, w, clip) && pos <= |w| && Inside(fr.addr, clip)
    ensures Grew(v, InsertAt(w, pos, fr), clip)
  {
    var u := InsertAt(w, pos, fr);
    forall x {:trigger GrewAt(v, u, clip, x)} ensures GrewAt(v, u, clip, x) {
      assert GrewAt(v, w, clip, x);
      InsertMember(w, pos, fr, x);
    }
  }

  /** Distinct ranges of a sorted view do not touch. */
  lemma Untouching(v: seq<FlatRange>, x: FlatRange, y: FlatRange)
    requires Sorted(v) && x in v && y in v && x != y
    ensures !Touches(x.addr, y.addr)
  {
    var i :| 0 <= i < |v| && v[i] == x;
    var j :| 0 <= j < |v| && v[j] == y;
    assert End(v[i].addr) <= v[j].addr.start || End(v[j].addr) <= v[i].addr.start;
  }

  /** Rendering a region into `clip` changes the occupancy of a window around it by one step. */
  lemma OccStep(v: seq<FlatRange>, w: seq<FlatRange>, clip: AddrRange, window: AddrRange)
    requires Sorted(v) && Sorted(w) && Grew(v, w, clip) && Inside(clip, window) && 0 < clip.size
    requires Touched(w, clip) && (!Touched(v, clip) ==> Covered(w, clip))
    ensures Occ(w, window) == Fill(Occ(v, window), clip == window)
  {
    if Covered(v, window) {
      var fr :| CoversFrom(v, window, fr);
      assert GrewAt(v, w, clip, fr) && CoversFrom(w, window, fr);
    } else if Touched(v, window) {
      var fr :| TouchesFrom(v, window, fr);
      assert GrewAt(v, w, clip, fr) && TouchesFrom(w, window, fr);
      StaysPartly(v, w, clip, window, fr);
    } else {
      var fr :| TouchesFrom(w, clip, fr);
      assert TouchesFrom(w, window, fr);
      if clip == window {
        assert Covered(w, window);
      } else {
        forall x ensures !CoversFrom(w, window, x) {
          assert GrewAt(v, w, clip, x) && !CoversFrom(v, window, x);
        }
      }
    }
  }

  /** A window that a range touches without covering it is not covered by ranges inside a clip of it. */
  lemma StaysPartly(v: seq<FlatRange>, w: seq<FlatRange>, clip: AddrRange, window: AddrRange, fr: FlatRange)
    requires Sorted(v) && Sorted(w) && Grew(v, w, clip) && Inside(clip, window) && 0 < clip.size
    requires !Covered(v, window) && TouchesFrom(v, window, fr)
    ensures !Covered(w, window)
  {
    forall x ensures !CoversFrom(w, window, x) {
      assert GrewAt(v, w, clip, x) && GrewAt(v, w, clip, fr) && !CoversFrom(v, window, x);
      if x in w && x !in v { Untouching(w, fr, x); }
    }
  }

  lemma SameMember(v: seq<FlatRange>, w: seq<FlatRange>, clip: AddrRange, fr: FlatRange)
    requires Sorted(w) && Grew(v, w, clip) && clip.size == 0
    ensures fr in w <==> fr in v
  {
    assert GrewAt(v, w, clip, fr);
    if fr in w { var i :| 0 <= i < |w| && w[i] == fr; }
  }

  /** Without a visit nothing is added. */
  lemma OccSame(v: seq<FlatRange>, w: seq<FlatRange>, clip: AddrRange, window: AddrRange)
    requires Sorted(w) && Grew(v, w, clip) && clip.size == 0
    ensures Occ(w, window) == Occ(v, window)
  {
    forall fr ensures CoversFrom(w, window, fr) == CoversFrom(v, window, fr) {
      SameMember(v, w, clip, fr);
    }
    forall fr ensures TouchesFrom(w, window, fr) == TouchesFrom(v, window, fr) {
      SameMember(v, w, clip, fr);
    }
    forall fr ensures EndsFrom(w, window.start, fr) == EndsFrom(v, window.start, fr) {
      SameMember(v, w, clip, fr);
    }
  }

  /** The range covers all of `clip`, or lies beyond it. */
  predicate CoversOrFollows(r: AddrRange, clip: AddrRange) { CoversRange(r, clip) || End(clip) <= r.start }

  /** Only the first range that ends after the start of `clip` decides how the view occupies it. */
  lemma OccAt(v: seq<FlatRange>, i: nat, clip: AddrRange)
    requires i <= |v| && Sorted(v) && 0 < clip.size
    requires i > 0 ==> End(v[i - 1].addr) <= clip.start
    requires i < |v| ==> clip.start < End(v[i].addr)
    ensures Trips(Occ(v, clip), true) <==> i < |v| && CoversOrFollows(v[i].addr, clip)
    ensures Touched(v, clip) <==> i < |v| && v[i].addr.start < End(clip)
  {
    forall k | 0 <= k < i ensures End(v[k].addr) <= clip.start {
      assert k < i - 1 ==> End(v[k].addr) <= v[i - 1].addr.start;
    }
    if i < |v| {
      assert EndsFrom(v, clip.start, v[i]);
      if v[i].addr.start < End(clip) { assert TouchesFrom(v, clip, v[i]); }
      if CoversRange(v[i].addr, clip) { assert CoversFrom(v, clip, v[i]); }
    }
    forall fr | EndsFrom(v, clip.start, fr) ensures i < |v| && (fr == v[i] || End(v[i].addr) <= fr.addr.start) {
      var k :| 0 <= k < |v| && v[k] == fr;
      assert k >= i;
    }
    forall fr | TouchesFrom(v, clip, fr) ensures i < |v| && v[i].addr.start < End(clip) {
      assert EndsFrom(v, clip.start, fr);
    }
    forall fr | CoversFrom(v, clip, fr) ensures i < |v| && fr == v[i] { assert EndsFrom(v, clip.start, fr); }
  }
}
