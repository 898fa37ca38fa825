/**
 Backing chains (block.c): which layer of a chain holds a sector, and committing
 an overlay into its backing image. Driver callbacks may answer for fewer sectors
 than asked, and may fail.
 */
module ImageChain {
  import opened Drivers

  type Data = nat

  const ZERO: Data := 0
  const COMMIT_BUF_SECTORS: nat := 2048

  /** An image: its length, whether its driver can tell allocation, and the sectors it holds. */
  datatype Image = Image(total: nat, canQuery: bool, sectors: map<nat, Data>)

  ghost predicate ImageOk(img: Image) {
    && (forall s :: s in img.sectors ==> s < img.total)
    && (!img.canQuery ==> forall s: nat :: s < img.total ==> s in img.sectors)
  }

  predicate Allocated(img: Image, s: nat) { s in img.sectors }

  ghost predicate AllAllocated(img: Image, lo: nat, n: nat) {
    forall s: nat {:trigger Allocated(img, s)} :: lo <= s < lo + n ==> Allocated(img, s)
  }

  ghost predicate NoneAllocated(img: Image, lo: nat, n: nat) {
    forall s: nat {:trigger Allocated(img, s)} :: lo <= s < lo + n ==> !Allocated(img, s)
  }

  /** A driver's answer: negative on error, otherwise the state of `pnum` sectors, at least one. */
  method DriverIsAllocated(driver: Driver, img: Image, sector: nat, nb: nat) returns (ret: int, pnum: nat)
    requires nb > 0
    modifies driver
    ensures ret < 0 || ret == 0 || ret == 1
    ensures driver.faults == old(driver.faults) + if ret < 0 then 1 else 0
    ensures ret >= 0 ==> 1 <= pnum <= nb
    ensures ret == 1 ==> AllAllocated(img, sector, pnum)
    ensures ret == 0 ==> NoneAllocated(img, sector, pnum)
  {
    var ok := driver.Call();
    if !ok { return -1, 0; }
    var here := Allocated(img, sector);
    var n := 1;
    while n < nb && Allocated(img, sector + n) == here
      invariant 1 <= n <= nb
      invariant forall s: nat {:trigger Allocated(img, s)} :: sector <= s < sector + n ==> Allocated(img, s) == here
    {
      n := n + 1;
    }
    pnum :| 1 <= pnum <= n;
    ret := if here then 1 else 0;
  }

  /** The allocation query of one image; beyond its end it answers no for zero sectors. */
  method IsAllocated(driver: Driver, img: Image, sector: nat, nb: nat) returns (ret: int, pnum: nat)
    requires ImageOk(img) && nb > 0
    modifies driver
    ensures ret < 0 || ret == 0 || ret == 1
    ensures driver.faults == old(driver.faults) + if ret < 0 then 1 else 0
    ensures ret >= 0 ==> pnum <= nb && (pnum == 0 <==> sector >= img.total) && (pnum > 0 ==> sector + pnum <= img.total)
    ensures ret == 1 ==> pnum > 0 && AllAllocated(img, sector, pnum)
    ensures ret == 0 ==> NoneAllocated(img, sector, pnum)
  {
    if sector >= img.total { return 0, 0; }
    var left := img.total - sector;
    var n := if left < nb then left else nb;
    if !img.canQuery { return 1, n; }
    ret, pnum := DriverIsAllocated(driver, img, sector, n);
  }

  /**
   The query over a chain, from the top down to but excluding the image at index `base`; a base
   outside the chain means the whole chain.
   */
  method IsAllocatedAbove(driver: Driver, chain: seq<Image>, base: nat, sector: nat, nb: nat)
    returns (ret: int, pnum: nat)
    requires (forall i :: 0 <= i < |chain| ==> ImageOk(chain[i])) && nb > 0
    modifies driver
    ensures ret < 0 || ret == 0 || ret == 1
    ensures driver.faults == old(driver.faults) + if ret < 0 then 1 else 0
    ensures ret >= 0 ==> pnum <= nb
    ensures ret == 1 ==> exists k :: 0 <= k < |chain| && k < base && pnum > 0 && AllAllocated(chain[k], sector, pnum) &&
                                     forall j :: 0 <= j < k ==> !Allocated(chain[j], sector)
    ensures ret == 0 ==> forall k :: 0 <= k < |chain| && k < base ==> NoneAllocated(chain[k], sector, pnum)
    ensures ret == 0 ==> (pnum == 0 <==> 0 < |chain| && 0 < base && sector >= chain[0].total)
  {
    var i, n: nat := 0, nb;
    while i < |chain| && i != base
      invariant 0 <= i <= |chain| && i <= base && n <= nb && driver.faults == old(driver.faults)
      invariant forall k :: 0 <= k < i ==> NoneAllocated(chain[k], sector, n) && !Allocated(chain[k], sector)
      invariant n == 0 <==> i > 0 && sector >= chain[0].total
    {
      var inter, r;
      r, inter := IsAllocated(driver, chain[i], sector, nb);
      if r < 0 { return r, 0; }
      if r == 1 { return 1, inter; }
      assert inter == 0 ==> !Allocated(chain[i], sector);
      assert NoneAllocated(chain[i], sector,
                           if n > inter && (i == 0 || sector + inter < chain[i].total) then inter else n);
      if n > inter && (i == 0 || sector + inter < chain[i].total) { n := inter; }
      i := i + 1;
    }
    return 0, n;
  }

  datatype CommitResult =
    NoMedium | NotSupported | Busy | AccessDenied | QueryFailed | IoError | EmptyFailed | Committed(code: int)

  /** The image is not empty and holds its last sector. */
  predicate LastIsAllocated(img: Image) { img.total > 0 && Allocated(img, img.total - 1) }

  /** The contents of the backing device; sectors beyond its end read as zeros. */
  function BackingRead(backing: seq<Data>, s: nat): Data { if s < |backing| then backing[s] else ZERO }

  /** What the guest reads through the overlay. */
  function GuestRead(overlay: Image, backing: seq<Data>, s: nat): Data {
    if s in overlay.sectors then overlay.sectors[s] else BackingRead(backing, s)
  }

  /** The guest reads the same through both states. */
  ghost predicate SameDisk(o1: Image, b1: seq<Data>, o2: Image, b2: seq<Data>) {
    o1.total == o2.total &&
      forall s: nat {:trigger GuestRead(o2, b2, s)} :: GuestRead(o1, b1, s) == GuestRead(o2, b2, s)
  }

  /** Every sector that the image holds is below `n`. */
  ghost predicate AllBelow(img: Image, n: nat) {
    forall s: nat {:trigger Allocated(img, s)} :: Allocated(img, s) ==> s < n
  }

  class CommitJob {
    const driver: Driver
    var overlay: Image
    var backing: seq<Data>

    constructor (driver: Driver, overlay: Image, backing: seq<Data>)
      ensures this.driver == driver && this.overlay == overlay && this.backing == backing
    {
      this.driver, this.overlay, this.backing := driver, overlay, backing;
    }

    /** Reads allocated sectors of the overlay; may fail. */
    method ReadOverlay(sector: nat, n: nat) returns (ok: bool, buf: seq<Data>)
      requires AllAllocated(overlay, sector, n)
      modifies driver
      ensures driver.faults == old(driver.faults) + if ok then 0 else 1
      ensures ok ==> |buf| == n && forall k: nat {:trigger buf[k]} :: k < n ==>
        Allocated(overlay, sector + k) && buf[k] == overlay.sectors[sector + k]
    {
      buf := [];
      ok := driver.Call();
      if !ok { return; }
      for i := 0 to n
        invariant |buf| == i
        invariant forall k: nat {:trigger buf[k]} :: k < i ==>
          Allocated(overlay, sector + k) && buf[k] == overlay.sectors[sector + k]
      {
        assert Allocated(overlay, sector + i);
        buf := buf + [overlay.sectors[sector + i]];
      }
    }

    /** Writes to the backing device; refused past its end, and a failure may leave anything in the range. */
    method WriteBacking(sector: nat, buf: seq<Data>) returns (ok: bool)
      modifies this`backing, driver
      ensures |backing| == |old(backing)|
      ensures ok <==> sector + |buf| <= |backing| && driver.faults == old(driver.faults)
      ensures driver.faults >= old(driver.faults)
      ensures forall s: nat {:trigger BackingRead(backing, s)} :: !(sector <= s < sector + |buf|) ==>
        BackingRead(backing, s) == BackingRead(old(backing), s)
      ensures ok ==> sector + |buf| <= |backing| &&
                     forall k: nat {:trigger buf[k]} :: k < |buf| ==> backing[sector + k] == buf[k]
    {
      if sector + |buf| > |backing| { return false; }
      ok := driver.Call();
      var data := buf;
      if !ok { data :| |data| == |buf|; }
      backing := backing[..sector] + data + backing[sector + |buf|..];
    }

    /** The sectors before `upto` that the overlay holds are in the backing device too. */
    ghost predicate CopiedUpto(upto: nat)
      reads this
    {
      forall s: nat {:trigger Allocated(overlay, s)} :: s < upto && Allocated(overlay, s) ==>
        BackingRead(backing, s) == overlay.sectors[s]
    }

    /** Copies one run of allocated sectors; the guest sees no difference, whether it succeeds or not. */
    method CopyRun(sector: nat, n: nat) returns (ok: bool)
      requires ImageOk(overlay) && AllAllocated(overlay, sector, n) && CopiedUpto(sector)
      modifies this`backing, driver
      ensures SameDisk(overlay, old(backing), overlay, backing) && |backing| == |old(backing)|
      ensures ok ==> CopiedUpto(sector + n)
      ensures ok <==> sector + n <= |backing| && driver.faults == old(driver.faults)
      ensures driver.faults >= old(driver.faults)
    {
      var buf;
      ok, buf := ReadOverlay(sector, n);
      if !ok { return; }
      ok := WriteBacking(sector, buf);
      forall s: nat ensures GuestRead(overlay, old(backing), s) == GuestRead(overlay, backing, s) {
        if sector <= s < sector + n {
          assert Allocated(overlay, s);
        } else {
          assert BackingRead(backing, s) == BackingRead(old(backing), s);
        }
      }
      if ok {
        forall s: nat | s < sector + n && Allocated(overlay, s) ensures BackingRead(backing, s) == overlay.sectors[s] {
          if sector <= s {
            assert backing[sector + (s - sector)] == buf[s - sector];
          } else {
            assert BackingRead(backing, s) == BackingRead(old(backing), s);
          }
        }
      }
    }

    /** Drops the overlay's sectors; a failure may drop only some. */
    method MakeEmpty() returns (ok: bool)
      modifies this`overlay, driver
      ensures driver.faults == old(driver.faults) + if ok then 0 else 1
      ensures overlay.total == old(overlay).total && overlay.canQuery == old(overlay).canQuery
      ensures overlay.sectors.Items <= old(overlay).sectors.Items
      ensures ok ==> overlay.sectors == map[]
    {
      ok := driver.Call();
      var keep: set<nat>;
      keep :| keep <= overlay.sectors.Keys;
      overlay := overlay.(sectors :=
        if ok then map[] else map s | s in overlay.sectors && s in keep :: overlay.sectors[s]);
    }

    /**
     Commits the overlay into its backing device. Whatever happens the guest reads what it read
     before; after success the backing device alone reads that way, and the overlay is empty if its driver can
     empty it. It succeeds exactly if it is not refused, no driver call fails and the backing device is long enough.
     */
    method Commit(hasDriver: bool, hasBacking: bool, inUse: bool, readOnly: bool, canEmpty: bool)
      returns (result: CommitResult)
      requires ImageOk(overlay)
      modifies this, driver
      ensures SameDisk(old(overlay), old(backing), overlay, backing)
      ensures result.Committed? ==> result.code == if !canEmpty && LastIsAllocated(old(overlay)) then 1 else 0
      ensures result.Committed? ==> forall s: nat :: BackingRead(backing, s) == GuestRead(old(overlay), old(backing), s)
      ensures result in {NoMedium, NotSupported, Busy, AccessDenied} ==>
        overlay == old(overlay) && backing == old(backing)
      ensures result.Committed? && canEmpty ==> overlay.sectors == map[]
      ensures result.EmptyFailed? ==> canEmpty
      ensures !canEmpty || !(result.Committed? || result.EmptyFailed?) ==> overlay == old(overlay)
      ensures result.NoMedium? <==> !hasDriver
      ensures result.NotSupported? <==> hasDriver && !hasBacking
      ensures result.Busy? <==> hasDriver && hasBacking && inUse
      ensures result.AccessDenied? ==> readOnly && driver.faults > old(driver.faults)
      ensures result.QueryFailed? || result.EmptyFailed? ==> driver.faults > old(driver.faults)
      ensures result.Committed? <==> hasDriver && hasBacking && !inUse && driver.faults == old(driver.faults) &&
                                     AllBelow(old(overlay), |old(backing)|)
    {
      if !hasDriver { return NoMedium; }
      if !hasBacking { return NotSupported; }
      if inUse { return Busy; }
      if readOnly {
        var reopened := driver.Call();
        if !reopened { return AccessDenied; }
      }
      var sector, last := 0, 0;
      while sector < overlay.total
        invariant overlay == old(overlay) && SameDisk(old(overlay), old(backing), overlay, backing)
        invariant 0 <= sector <= overlay.total && CopiedUpto(sector)
        invariant driver.faults == old(driver.faults) && |backing| == |old(backing)|
        invariant forall s: nat {:trigger Allocated(overlay, s)} ::
          s < sector && Allocated(overlay, s) ==> s < |backing|
        invariant last == if sector > 0 && Allocated(overlay, sector - 1) then 1 else 0
        decreases overlay.total - sector
      {
        var ret, n := IsAllocated(driver, overlay, sector, COMMIT_BUF_SECTORS);
        if ret < 0 { return QueryFailed; }
        if ret == 1 {
          ghost var b := backing;
          var ok := CopyRun(sector, n);
          assert SameDisk(overlay, b, overlay, backing);
          assert Allocated(overlay, sector + n - 1);
          if !ok { return IoError; }
        }
        assert Allocated(overlay, sector + n - 1) == (ret == 1);
        sector, last := sector + n, ret;
      }
      forall s: nat ensures BackingRead(backing, s) == GuestRead(overlay, backing, s) {
        if s in overlay.sectors { assert Allocated(overlay, s); }
      }
      result := Committed(last);
      if canEmpty {
        var ok := MakeEmpty();
        forall s: nat ensures GuestRead(overlay, backing, s) == BackingRead(backing, s) {
          if s in overlay.sectors {
            assert (s, overlay.sectors[s]) in overlay.sectors.Items;
            assert Allocated(old(overlay), s);
          }
        }
        result := if ok then Committed(0) else EmptyFailed;
      }
    }
  }
}
