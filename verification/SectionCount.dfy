/**
 How many sections a flat view takes in the dispatch structure (exec.c): one for
 each piece that a range is split into, and one for each page that needs a table.
 */
module SectionCount {
  import opened Arithmetic
  import opened FlatViews
  import opened PhysMap

  /** The range covers a part of page `q` but not all of it. */
  predicate Partly(r: AddrRange, q: nat, page: nat) {
    var lo := SlotBase(0, q, page);
    0 < r.size && r.start < lo + page && lo < End(r) && !(r.start <= lo && lo + page <= End(r))
  }

  /** Some range of the view covers page `q` in part, so the page has a table. */
  predicate Tabled(v: seq<FlatRange>, q: nat, page: nat) { exists i :: 0 <= i < |v| && Partly(v[i].addr, q, page) }

  lemma TabledMore(v: seq<FlatRange>, fr: FlatRange, q: nat, page: nat)
    ensures Tabled(v + [fr], q, page) <==> Tabled(v, q, page) || Partly(fr.addr, q, page)
  {
    var w := v + [fr];
    if Tabled(v, q, page) {
      var i :| 0 <= i < |v| && Partly(v[i].addr, q, page);
      assert w[i] == v[i];
    }
    if Partly(fr.addr, q, page) { assert w[|v|] == fr; }
  }

  /** The sections of a piece of page `q`: its own, and that of the table if the page has none yet. */
  function PieceCost(v: seq<FlatRange>, q: int, page: nat): nat { if q >= 0 && Tabled(v, q, page) then 1 else 2 }

  /** Where the piece before the first page boundary ends. */
  function HeadEnd(r: AddrRange, page: nat): int
    requires page >= 1
  {
    Min(AlignUp(r.start, page), End(r))
  }

  /** The sections of the piece before the first page boundary. */
  function HeadCost(v: seq<FlatRange>, r: AddrRange, page: nat): nat
    requires page >= 1
  {
    if r.start % page == 0 then 0 else PieceCost(v, r.start / page, page)
  }

  /** The sections of what follows the page boundary `cur`: whole pages, and less than a page. */
  function RestCost(v: seq<FlatRange>, cur: int, end: int, page: nat): nat
    requires page >= 1
  {
    (if end - cur >= page then 1 else 0) + (if (end - cur) % page == 0 then 0 else PieceCost(v, end / page, page))
  }

  /** The sections that adding one range to a view takes. */
  function RangeCost(v: seq<FlatRange>, r: AddrRange, page: nat): nat
    requires page >= 1
  {
    HeadCost(v, r, page) + RestCost(v, HeadEnd(r, page), End(r), page)
  }

  /** The sections of the first `n` ranges of a view. */
  ghost function ViewCost(v: seq<FlatRange>, n: nat, page: nat): nat
    requires page >= 1 && n <= |v|
  {
    if n == 0 then 0 else ViewCost(v, n - 1, page) + RangeCost(v[..n - 1], v[n - 1].addr, page)
  }

  lemma {:induction false} ViewCostGrows(v: seq<FlatRange>, m: nat, n: nat, page: nat)
    requires page >= 1 && m <= n <= |v|
    ensures ViewCost(v, m, page) <= ViewCost(v, n, page)
  {
    if m < n { ViewCostGrows(v, m, n - 1, page); }
  }

  /** The sections of the first `n` views. */
  ghost function TotalCost(views: seq<seq<FlatRange>>, n: nat, page: nat): nat
    requires page >= 1 && n <= |views|
  {
    if n == 0 then 0 else TotalCost(views, n - 1, page) + ViewCost(views[n - 1], |views[n - 1]|, page)
  }

  lemma {:induction false} TotalCostGrows(views: seq<seq<FlatRange>>, m: nat, n: nat, page: nat)
    requires page >= 1 && m <= n <= |views|
    ensures TotalCost(views, m, page) <= TotalCost(views, n, page)
  {
    if m < n { TotalCostGrows(views, m, n - 1, page); }
  }

  /** A range takes at most five sections. */
  lemma {:induction false} AtMostFive(v: seq<FlatRange>, n: nat, page: nat)
    requires page >= 1 && n <= |v|
    ensures ViewCost(v, n, page) <= 5 * n
  {
    if n > 0 { AtMostFive(v, n - 1, page); }
  }

  /** A view of whole pages takes one section for each range. */
  lemma {:induction false} AlignedTakesOne(v: seq<FlatRange>, n: nat, page: nat)
    requires page >= 1 && n <= |v|
    requires forall i :: 0 <= i < |v| ==>
               v[i].addr.start % page == 0 && v[i].addr.size % page == 0 && 0 < v[i].addr.size
    ensures ViewCost(v, n, page) == n
  {
    if n > 0 {
      AlignedTakesOne(v, n - 1, page);
      AtLeastOne(v[n - 1].addr.size, page);
      AlignUpIs(v[n - 1].addr.start, page);
    }
  }

  lemma AtLeastOne(x: nat, p: nat)
    requires p >= 1 && x % p == 0 && 0 < x
    ensures x >= p
  {
    if x < p { DownMultiple(x, p); }
  }
}
