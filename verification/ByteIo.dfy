/**
 Byte-granular access built from sector-granular access (block.c). A sector
 request is refused past the end of the device and may fail; a failed write may
 leave anything in the sectors it covers.
 */
module ByteIo {
  import opened Arithmetic
  import opened Drivers

  type Byte = bv8

  const SECTOR: nat := 512

  /** The first sector boundary at or after `x`. */
  function RoundUp(x: nat): nat { AlignUp(x, SECTOR) }

  /** The last sector boundary at or before `x`. */
  function RoundDown(x: nat): nat { AlignDown(x, SECTOR) }

  lemma LastSector(x: nat) returns (last: nat)
    ensures RoundUp(x) == SECTOR * last && x <= SECTOR * last < x + SECTOR
  {
    last := (x + SECTOR - 1) / SECTOR;
  }

  method WholeSectors(count: nat) returns (nb: nat)
    ensures SECTOR * nb <= count < SECTOR * nb + SECTOR
  {
    nb := count / SECTOR;
  }

  /** The sector of `offset`, the bytes before it there, and how many of `count` bytes complete that sector. */
  method SplitOffset(offset: nat, count: nat) returns (sector: nat, skip: nat, len: nat)
    ensures offset == SECTOR * sector + skip && skip < SECTOR && RoundDown(offset) == SECTOR * sector
    ensures len <= count && (len == 0 <==> skip == 0 || count == 0)
    ensures skip + len <= SECTOR && (0 < len < count ==> skip + len == SECTOR)
  {
    sector, skip := offset / SECTOR, offset % SECTOR;
    len := (SECTOR - skip) % SECTOR;
    if len > count { len := count; }
  }

  /** `d` with the bytes from `at` replaced by `data`. */
  function Splice(d: seq<Byte>, at: nat, data: seq<Byte>): (r: seq<Byte>)
    requires at + |data| <= |d|
    ensures |r| == |d|
    ensures forall i {:trigger r[i]} :: 0 <= i < |d| ==> r[i] == if at <= i < at + |data| then data[i - at] else d[i]
  {
    d[..at] + data + d[at + |data|..]
  }

  /** Replacing two adjacent pieces is replacing both at once. */
  lemma SpliceTwice(d: seq<Byte>, at: nat, x: seq<Byte>, y: seq<Byte>)
    requires at + |x| + |y| <= |d|
    ensures Splice(Splice(d, at, x), at + |x|, y) == Splice(d, at, x + y)
  {
  }

  /** Writing back a sector with a changed middle part changes exactly that part. */
  lemma SpliceInside(d: seq<Byte>, lo: nat, n: nat, skip: nat, x: seq<Byte>)
    requires lo + n <= |d| && skip + |x| <= n
    ensures Splice(d, lo, Splice(d[lo..lo + n], skip, x)) == Splice(d, lo + skip, x)
  {
  }

  lemma ReadBack(d: seq<Byte>, at: nat, data: seq<Byte>)
    requires at + |data| <= |d|
    ensures Splice(d, at, data)[at..at + |data|] == data
  {
  }

  lemma SliceJoin(d: seq<Byte>, lo: nat, mid: nat, hi: nat)
    requires lo <= mid <= hi <= |d|
    ensures d[lo..mid] + d[mid..hi] == d[lo..hi]
  {
  }

  lemma SliceSlice(d: seq<Byte>, lo: nat, hi: nat, x: nat, y: nat)
    requires lo <= hi <= |d| && x <= y <= hi - lo
    ensures d[lo..hi][x..y] == d[lo + x..lo + y]
  {
    assert forall k :: 0 <= k < y - x ==> d[lo..hi][x..y][k] == d[lo + x + k];
  }

  class ByteDevice {
    const driver: Driver
    var disk: seq<Byte>

    constructor (driver: Driver, disk: seq<Byte>)
      ensures this.driver == driver && this.disk == disk
    {
      this.driver, this.disk := driver, disk;
    }

    /** No driver call failed, and the disk has all `upto` bytes. */
    twostate predicate Goes(upto: int)
      reads this, driver
    {
      driver.faults == old(driver.faults) && upto <= |disk|
    }

    method ReadSectors(sector: nat, n: nat) returns (ok: bool, buf: seq<Byte>)
      modifies driver
      ensures driver.faults >= old(driver.faults) && (ok <==> Goes(SECTOR * (sector + n)))
      ensures ok ==> SECTOR * (sector + n) <= |disk| && buf == disk[SECTOR * sector..SECTOR * (sector + n)]
    {
      buf := [];
      if SECTOR * (sector + n) > |disk| { return false, buf; }
      ok := driver.Call();
      if ok { buf := disk[SECTOR * sector..SECTOR * (sector + n)]; }
    }

    method WriteSectors(sector: nat, n: nat, buf: seq<Byte>) returns (ok: bool)
      requires |buf| == SECTOR * n
      modifies this, driver
      ensures |disk| == |old(disk)|
      ensures driver.faults >= old(driver.faults) && (ok <==> Goes(SECTOR * sector + |buf|))
      ensures ok ==> SECTOR * sector + |buf| <= |disk| && disk == Splice(old(disk), SECTOR * sector, buf)
      ensures !ok ==> Outside(old(disk), disk, SECTOR * sector, SECTOR * sector + |buf|)
    {
      if SECTOR * sector + |buf| > |disk| { return false; }
      ok := driver.Call();
      var data := buf;
      if !ok { data :| |data| == |buf|; }
      SpliceOutside(disk, SECTOR * sector, data);
      disk := Splice(disk, SECTOR * sector, data);
    }

    /** Reads `count` bytes from the start of a sector, before sector `last`: whole sectors, then one in part. */
    method ReadAligned(sector: nat, count: nat, ghost last: nat) returns (ok: bool, buf: seq<Byte>)
      requires SECTOR * sector + count <= SECTOR * last < SECTOR * sector + count + SECTOR
      modifies driver
      ensures driver.faults >= old(driver.faults)
      ensures ok <==> Goes(if count == 0 then 0 else SECTOR * last)
      ensures ok && count > 0 ==>
        SECTOR * sector + count <= |disk| && buf == disk[SECTOR * sector..SECTOR * sector + count]
      ensures ok && count == 0 ==> buf == []
    {
      var nb := WholeSectors(count);
      var at := SECTOR * sector;
      var left := count;
      buf := [];
      if nb > 0 {
        ok, buf := ReadSectors(sector, nb);
        if !ok { return; }
        left := left - nb * SECTOR;
      }
      if left > 0 {
        var tmp;
        ok, tmp := ReadSectors(sector + nb, 1);
        if !ok { return; }
        SliceSlice(disk, at + SECTOR * nb, at + SECTOR * nb + SECTOR, 0, left);
        SliceJoin(disk, at, at + SECTOR * nb, at + count);
        buf := buf + tmp[..left];
      }
      ok := true;
    }

    /** Reads `count` bytes at `offset`: the rest of the first sector, then from a sector boundary. */
    method Pread(offset: nat, count: nat) returns (ok: bool, buf: seq<Byte>)
      modifies driver
      ensures driver.faults >= old(driver.faults)
      ensures ok <==> Goes(if count == 0 then 0 else RoundUp(offset + count))
      ensures ok && count > 0 ==> offset + count <= |disk| && buf == disk[offset..offset + count]
      ensures ok && count == 0 ==> buf == []
    {
      var sector, skip, len := SplitOffset(offset, count);
      ghost var last := LastSector(offset + count);
      buf := [];
      if len > 0 {
        var tmp;
        ok, tmp := ReadSectors(sector, 1);
        if !ok { return; }
        buf := tmp[skip..skip + len];
        SliceSlice(disk, SECTOR * sector, SECTOR * (sector + 1), skip, skip + len);
        if count == len { return true, buf; }
        sector := sector + 1;
      }
      var rest;
      ok, rest := ReadAligned(sector, count - len, if count == 0 then sector else last);
      if ok && count > 0 { SliceJoin(disk, offset, offset + len, offset + count); }
      buf := buf + rest;
    }

    /** Changes part of one sector by reading it, patching it and writing it back. */
    method PatchSector(sector: nat, skip: nat, data: seq<Byte>) returns (ok: bool)
      requires skip + |data| <= SECTOR
      modifies this, driver
      ensures |disk| == |old(disk)|
      ensures driver.faults >= old(driver.faults) && (ok <==> Goes(SECTOR * (sector + 1)))
      ensures ok ==> SECTOR * (sector + 1) <= |disk| && disk == Splice(old(disk), SECTOR * sector + skip, data)
      ensures !ok ==> Outside(old(disk), disk, SECTOR * sector, SECTOR * (sector + 1))
    {
      var tmp;
      ok, tmp := ReadSectors(sector, 1);
      if !ok { return; }
      SpliceInside(disk, SECTOR * sector, SECTOR, skip, data);
      ok := WriteSectors(sector, 1, Splice(tmp, skip, data));
    }

    /** Writes from the start of a sector, before sector `last`: whole sectors, then part of one. */
    method WriteAligned(sector: nat, data: seq<Byte>, ghost last: nat) returns (ok: bool)
      requires SECTOR * sector + |data| <= SECTOR * last
      requires data != [] ==> SECTOR * last < SECTOR * sector + |data| + SECTOR
      modifies this, driver
      ensures |disk| == |old(disk)| && driver.faults >= old(driver.faults)
      ensures ok <==> Goes(if data == [] then 0 else SECTOR * last)
      ensures ok && data != [] ==>
        SECTOR * sector + |data| <= |disk| && disk == Splice(old(disk), SECTOR * sector, data)
      ensures data == [] ==> ok && disk == old(disk)
      ensures !ok ==> Outside(old(disk), disk, SECTOR * sector, SECTOR * last)
    {
      var nb := WholeSectors(|data|);
      var n := SECTOR * nb;
      ghost var d0 := disk;
      if nb > 0 {
        ok := WriteSectors(sector, nb, data[..n]);
        if !ok {
          OutsideWider(d0, disk, SECTOR * sector, SECTOR * sector + n, SECTOR * last);
          return;
        }
        SpliceOutside(d0, SECTOR * sector, data[..n]);
      }
      if |data| == n {
        assert data[..n] == data;
        return true;
      }
      ok := WriteTail(sector + nb, data, n, d0, SECTOR * sector, last);
    }

    /** Writes the part of `data` after its whole sectors, the first `n` bytes being at `at` already. */
    method WriteTail(sector: nat, data: seq<Byte>, n: nat, ghost d0: seq<Byte>, ghost at: nat, ghost last: nat)
      returns (ok: bool)
      requires at + n == SECTOR * sector && n < |data| <= n + SECTOR && at + |data| <= SECTOR * last
      requires |d0| == |disk| && Outside(d0, disk, at, at + n)
      requires if n > 0 then at + n <= |d0| && disk == Splice(d0, at, data[..n]) else disk == d0
      modifies this, driver
      ensures |disk| == |d0|
      ensures driver.faults >= old(driver.faults) && (ok <==> Goes(SECTOR * (sector + 1)))
      ensures ok ==> at + |data| <= |disk| && disk == Splice(d0, at, data)
      ensures !ok ==> Outside(d0, disk, at, SECTOR * last)
    {
      ghost var d1 := disk;
      ok := PatchSector(sector, 0, data[n..]);
      if !ok {
        OutsideTwice(d0, d1, disk, at, at + n, SECTOR * sector, SECTOR * (sector + 1));
        OutsideWider(d0, disk, at, SECTOR * (sector + 1), SECTOR * last);
        return;
      }
      TailDone(d0, d1, at, data, n);
    }

    /**
     Writes `data` at `offset`. Success changes exactly those bytes; a failure changes nothing outside
     the sectors they lie in. It succeeds exactly if those sectors are on the disk and no driver call fails.
     */
    method Pwritev(offset: nat, data: seq<Byte>) returns (ok: bool)
      modifies this, driver
      ensures |disk| == |old(disk)| && driver.faults >= old(driver.faults)
      ensures ok <==> Goes(if data == [] then 0 else RoundUp(offset + |data|))
      ensures ok && data != [] ==> offset + |data| <= |disk| && disk == Splice(old(disk), offset, data)
      ensures data == [] ==> ok && disk == old(disk)
      ensures !ok ==> Outside(old(disk), disk, RoundDown(offset), RoundUp(offset + |data|))
    {
      var sector, skip, len := SplitOffset(offset, |data|);
      ghost var last := LastSector(offset + |data|);
      ghost var d0 := disk;
      assert data[..|data|] == data;
      if len > 0 {
        ok := PatchSector(sector, skip, data[..len]);
        if !ok {
          OutsideWider(d0, disk, SECTOR * sector, SECTOR * (sector + 1), SECTOR * last);
          return;
        }
        SpliceOutside(d0, offset, data[..len]);
        if len == |data| { return true; }
        sector := sector + 1;
      }
      assert offset + len == SECTOR * sector || data == [];
      ghost var d1 := disk;
      ok := WriteAligned(sector, data[len..], last);
      if !ok { OutsideTwice(d0, d1, disk, offset - skip, offset + len, SECTOR * sector, SECTOR * last); }
      if len > 0 && ok {
        assert data[len..] == data[len..|data|];
        Step(d0, offset, data, len, |data|);
      } else {
        assert data[0..] == data;
      }
    }
  }

  /** Reading what was just written returns it. */
  method ReadAfterWrite(dev: ByteDevice, offset: nat, data: seq<Byte>) returns (wrote: bool, read: bool, buf: seq<Byte>)
    modifies dev, dev.driver
    ensures wrote && read ==> buf == data
    ensures wrote && dev.driver.faults == old(dev.driver.faults) ==> read
  {
    wrote := dev.Pwritev(offset, data);
    ghost var d := dev.disk;
    read, buf := dev.Pread(offset, |data|);
    if wrote && read && data != [] { ReadBack(old(dev.disk), offset, data); }
  }

  /** Writing the last part of `data` after the first `n` bytes completes the write. */
  lemma TailDone(d0: seq<Byte>, d1: seq<Byte>, at: nat, data: seq<Byte>, n: nat)
    requires n < |data| && at + |data| <= |d0| && d1 == if n > 0 then Splice(d0, at, data[..n]) else d0
    ensures Splice(d1, at + n, data[n..]) == Splice(d0, at, data)
  {
    assert data[n..] == data[n..|data|] && data[..|data|] == data;
    if n > 0 { Step(d0, at, data, n, |data|); }
  }

  /** After the bytes before `done` were written, writing those before `upto` extends the write. */
  lemma Step(d: seq<Byte>, offset: nat, data: seq<Byte>, done: nat, upto: nat)
    requires done <= upto <= |data| && offset + upto <= |d|
    ensures data[..upto] == data[..done] + data[done..upto]
    ensures Splice(Splice(d, offset, data[..done]), offset + done, data[done..upto]) == Splice(d, offset, data[..upto])
  {
    assert data[..upto] == data[..done] + data[done..upto];
    SpliceTwice(d, offset, data[..done], data[done..upto]);
  }

  predicate KeptAt(d: seq<Byte>, e: seq<Byte>, i: int) { 0 <= i < |d| && i < |e| && e[i] == d[i] }

  /** Only bytes in [lo, hi) may differ. */
  ghost predicate Outside(d: seq<Byte>, e: seq<Byte>, lo: int, hi: int) {
    |d| == |e| && forall i {:trigger KeptAt(d, e, i)} :: 0 <= i < |d| && !(lo <= i < hi) ==> KeptAt(d, e, i)
  }

  lemma SpliceOutside(d: seq<Byte>, at: nat, data: seq<Byte>)
    requires at + |data| <= |d|
    ensures Outside(d, Splice(d, at, data), at, at + |data|)
  {
  }

  /** A change within [lo, mid) and then one within [mid', hi) is a change within [lo, hi). */
  lemma OutsideTwice(c: seq<Byte>, d: seq<Byte>, e: seq<Byte>, lo: int, x: int, y: int, hi: int)
    requires Outside(c, d, lo, x) && Outside(d, e, y, hi) && lo <= y && x <= hi
    ensures Outside(c, e, lo, hi)
  {
    forall i {:trigger KeptAt(c, e, i)} | 0 <= i < |c| && !(lo <= i < hi) ensures KeptAt(c, e, i) {
      assert KeptAt(c, d, i) && KeptAt(d, e, i);
    }
  }

  lemma OutsideWider(d: seq<Byte>, e: seq<Byte>, lo: int, x: int, hi: int)
    requires Outside(d, e, lo, x) && x <= hi
    ensures Outside(d, e, lo, hi)
  {
  }
}
