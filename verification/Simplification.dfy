/**
 Merging adjacent ranges of a flat view (memory.c). A sorted view without
 mergeable neighbours is determined by its meaning.
 */
module Simplification {
  import opened FlatViews

  predicate CanMerge(r1: FlatRange, r2: FlatRange) {
    && End(r1.addr) == r2.addr.start
    && r1.mr == r2.mr
    && r1.offset + r1.addr.size == r2.offset
    && r1.logMask == r2.logMask
    && r1.romd == r2.romd
    && r1.readonly == r2.readonly
  }

  /** No range before position `i` can be merged with its successor. */
  ghost predicate NoMergeableBefore(v: seq<FlatRange>, i: int) {
    forall k :: 0 <= k < i && k < |v| - 1 ==> !CanMerge(v[k], v[k + 1])
  }

  ghost predicate NoMergeable(v: seq<FlatRange>) { NoMergeableBefore(v, |v|) }

  ghost predicate SameMeaning(v: seq<FlatRange>, w: seq<FlatRange>) {
    forall a :: Lookup(v, a) == Lookup(w, a)
  }

  function Grown(r: FlatRange, more: int): FlatRange { r.(addr := AddrRange(r.addr.start, r.addr.size + more)) }

  /** Both ranges can be merged with the same successors. */
  ghost predicate EndsAlike(r1: FlatRange, r2: FlatRange) {
    && End(r1.addr) == End(r2.addr) && r1.mr == r2.mr && r1.offset + r1.addr.size == r2.offset + r2.addr.size
    && r1.logMask == r2.logMask && r1.romd == r2.romd && r1.readonly == r2.readonly
  }

  /** The view once the ranges strictly between `i` and `j` are dropped. */
  function Collapse(v: seq<FlatRange>, i: nat, j: nat): seq<FlatRange>
    requires i < j <= |v|
  {
    v[..i + 1] + v[j..]
  }

  lemma MergeTwo(v: seq<FlatRange>, i: nat, w: seq<FlatRange>)
    requires Sorted(v) && i + 1 < |v| && CanMerge(v[i], v[i + 1])
    requires w == v[..i] + [Grown(v[i], v[i + 1].addr.size)] + v[i + 2..]
    ensures Sorted(w) && SameMeaning(v, w)
  {
    var before, after := v[..i], v[i + 2..];
    assert v == before + ([v[i], v[i + 1]] + after);
    assert w == before + ([Grown(v[i], v[i + 1].addr.size)] + after);
    forall a ensures Lookup(v, a) == Lookup(w, a) { LookupMerged(before, v[i], v[i + 1], after, a); }
  }

  /** Merging two neighbours changes no lookup. */
  lemma LookupMerged(before: seq<FlatRange>, r1: FlatRange, r2: FlatRange, after: seq<FlatRange>, a: int)
    requires CanMerge(r1, r2) && r1.addr.size > 0 && r2.addr.size > 0
    ensures Lookup(before + ([r1, r2] + after), a) == Lookup(before + ([Grown(r1, r2.addr.size)] + after), a)
  {
    var big := Grown(r1, r2.addr.size);
    LookupConcat(before, [r1, r2] + after, a);
    LookupConcat(before, [big] + after, a);
    LookupConcat([r1, r2], after, a);
    LookupConcat([big], after, a);
    assert [r1, r2][1..] == [r2];
  }

  /** One turn of the merging loop. */
  lemma MergeStep(v: seq<FlatRange>, i: nat, j: nat)
    requires i < j < |v| && EndsAlike(v[i], v[j - 1]) && CanMerge(v[j - 1], v[j])
    requires Sorted(Collapse(v, i, j)) && NoMergeableBefore(Collapse(v, i, j), i)
    ensures var w := v[i := Grown(v[i], v[j].addr.size)];
            && EndsAlike(w[i], w[j])
            && Sorted(Collapse(w, i, j + 1)) && SameMeaning(Collapse(v, i, j), Collapse(w, i, j + 1))
            && NoMergeableBefore(Collapse(w, i, j + 1), i)
  {
    var w := v[i := Grown(v[i], v[j].addr.size)];
    var c, d := Collapse(v, i, j), Collapse(w, i, j + 1);
    assert d == c[..i] + [Grown(c[i], c[i + 1].addr.size)] + c[i + 2..];
    MergeTwo(c, i, d);
    forall k | 0 <= k < i && k < |d| - 1 ensures !CanMerge(d[k], d[k + 1]) {
      assert !CanMerge(c[k], c[k + 1]);
    }
  }

  /** Ranges `i` to `j - 1` are merged into range `i`, the ranges after `i` being dropped in the end. */
  ghost predicate Merging(v0: seq<FlatRange>, v: seq<FlatRange>, i: nat, j: nat) {
    && i < j <= |v| && EndsAlike(v[i], v[j - 1])
    && Merged(v0, Collapse(v, i, j), i)
  }

  /** View `v` is sorted, means what `v0` means, and is merged before position `i`. */
  ghost predicate Merged(v0: seq<FlatRange>, v: seq<FlatRange>, i: nat) {
    Sorted(v) && SameMeaning(v0, v) && NoMergeableBefore(v, i)
  }

  lemma MergingStarts(v: seq<FlatRange>, i: nat)
    requires i < |v| && Sorted(v) && NoMergeableBefore(v, i)
    ensures Merging(v, v, i, i + 1)
  {
    assert Collapse(v, i, i + 1) == v;
  }

  lemma MergingGoesOn(v0: seq<FlatRange>, v: seq<FlatRange>, i: nat, j: nat)
    requires Merging(v0, v, i, j) && j < |v| && CanMerge(v[j - 1], v[j])
    ensures Merging(v0, v[i := Grown(v[i], v[j].addr.size)], i, j + 1)
  {
    MergeStep(v, i, j);
  }

  lemma MergingEnds(v0: seq<FlatRange>, v: seq<FlatRange>, i: nat, j: nat)
    requires Merging(v0, v, i, j) && (j < |v| ==> !CanMerge(v[j - 1], v[j]))
    ensures Merged(v0, v[..i + 1] + v[j..], i + 1)
  {
    RunEnds(v, i, j);
  }

  /** Where the merging stops, the grown range cannot be merged with what follows. */
  lemma RunEnds(v: seq<FlatRange>, i: nat, j: nat)
    requires i < j <= |v| && EndsAlike(v[i], v[j - 1]) && (j < |v| ==> !CanMerge(v[j - 1], v[j]))
    requires NoMergeableBefore(Collapse(v, i, j), i)
    ensures NoMergeableBefore(Collapse(v, i, j), i + 1)
  {
  }

  /** In a sorted view the first mapped address is the start of the first range. */
  lemma FirstMapped(v: seq<FlatRange>, a: int)
    requires Sorted(v) && v != [] && Lookup(v, a).Some?
    ensures v[0].addr.start <= a && Lookup(v, v[0].addr.start) == Some(v[0].TargetAt(v[0].addr.start))
  {
    var i := LookupSome(v, a);
    LookupAt(v, 0, v[0].addr.start);
  }

  /** A view without mergeable neighbours cannot end its first range earlier than the other view. */
  lemma FirstEndsNoEarlier(v: seq<FlatRange>, w: seq<FlatRange>)
    requires Sorted(v) && Sorted(w) && NoMergeable(v) && SameMeaning(v, w) && v != [] && w != []
    requires v[0].addr.start == w[0].addr.start
    ensures End(v[0].addr) >= End(w[0].addr)
  {
    var e, s := End(v[0].addr), v[0].addr.start;
    if e < End(w[0].addr) {
      LookupAt(w, 0, e);
      LookupAt(w, 0, s);
      LookupAt(v, 0, s);
      var i := LookupSome(v, e);
      assert i > 0 && v[1].addr.start >= e;
      assert v[i].addr.start == e && i == 1;
      assert CanMerge(v[0], v[1]);
    }
  }

  /** Normal form: two sorted views with the same meaning and no mergeable neighbours are the same list. */
  lemma {:induction false} NormalFormUnique(v: seq<FlatRange>, w: seq<FlatRange>)
    requires Sorted(v) && Sorted(w) && NoMergeable(v) && NoMergeable(w) && SameMeaning(v, w)
    ensures v == w
  {
    if v == [] || w == [] {
      if v != [] { FirstMappedExists(v); }
      if w != [] { FirstMappedExists(w); }
    } else {
      FirstMappedExists(v);
      FirstMappedExists(w);
      FirstMapped(v, w[0].addr.start);
      FirstMapped(w, v[0].addr.start);
      FirstEndsNoEarlier(v, w);
      FirstEndsNoEarlier(w, v);
      assert v[0] == w[0];
      TailMeaning(v, w);
      assert NoMergeable(v[1..]) by {
        forall k | 0 <= k < |v| - 2 ensures !CanMerge(v[1..][k], v[1..][k + 1]) {
          assert !CanMerge(v[k + 1], v[k + 2]);
        }
      }
      assert NoMergeable(w[1..]) by {
        forall k | 0 <= k < |w| - 2 ensures !CanMerge(w[1..][k], w[1..][k + 1]) {
          assert !CanMerge(w[k + 1], w[k + 2]);
        }
      }
      NormalFormUnique(v[1..], w[1..]);
      assert v == [v[0]] + v[1..] && w == [w[0]] + w[1..];
    }
  }

  lemma FirstMappedExists(v: seq<FlatRange>)
    requires Sorted(v) && v != []
    ensures Lookup(v, v[0].addr.start) == Some(v[0].TargetAt(v[0].addr.start))
  {
    LookupAt(v, 0, v[0].addr.start);
  }

  lemma TailMeaning(v: seq<FlatRange>, w: seq<FlatRange>)
    requires Sorted(v) && Sorted(w) && v != [] && w != [] && v[0] == w[0] && SameMeaning(v, w)
    ensures Sorted(v[1..]) && Sorted(w[1..]) && SameMeaning(v[1..], w[1..])
  {
    forall a ensures Lookup(v[1..], a) == Lookup(w[1..], a) {
      assert Lookup(v, a) == Lookup(w, a);
      if Contains(v[0].addr, a) {
        LookupNone(v[1..], a);
        LookupNone(w[1..], a);
      }
    }
  }
}
