/**
 Scatter-gather DMA to a block device (dma-helpers.c). Mapping guest memory may
 stop short or fail at any point; the transfer goes on in batches until the list
 is exhausted or a request fails.
 */
module Dma {
  import opened Drivers
  import opened Runs

  const SECTOR: nat := 512

  datatype Entry = Entry(base: int, len: nat)

  /** InFlight: a block request is running; MapWait: waiting for mappings to be released. */
  datatype Phase = Idle | InFlight | MapWait | Done(ret: int)

  /** The guest addresses of the first `n` list entries, byte by byte. */
  function Bytes(sg: seq<Entry>, n: nat): seq<int>
    requires n <= |sg|
  {
    if n == 0 then [] else Bytes(sg, n - 1) + Run(sg[n - 1].base, sg[n - 1].len)
  }

  /** The guest addresses before byte `b` of entry `i`. */
  function Taken(sg: seq<Entry>, i: nat, b: nat): seq<int>
    requires i <= |sg| && (i < |sg| || b == 0)
  {
    if b == 0 then Bytes(sg, i) else Bytes(sg, i) + Run(sg[i].base, b)
  }

  lemma TakenMore(sg: seq<Entry>, i: nat, b: nat, got: nat)
    requires i < |sg| && b + got <= sg[i].len && got > 0
    ensures Taken(sg, i, b + got) == Taken(sg, i, b) + Run(sg[i].base + b, got)
  {
    var bytes, base := Bytes(sg, i), sg[i].base;
    if b > 0 {
      var x, y := Run(base, b), Run(base + b, got);
      assert Run(base, b + got) == x + y by { RunAdd(base, b, got); }
      assert bytes + (x + y) == (bytes + x) + y by { ConcatAssoc(bytes, x, y); }
    }
  }

  lemma TakenAll(sg: seq<Entry>, i: nat)
    requires i < |sg| && 0 < sg[i].len
    ensures Taken(sg, i + 1, 0) == Taken(sg, i, sg[i].len)
  {
  }

  class DmaAiocb {
    const driver: Driver
    const sg: seq<Entry>
    const first: nat
    var sectorNum: nat
    var curIndex: nat
    var curByte: nat
    var iov: seq<int>
    var phase: Phase
    var completions: nat
    ghost var issued: seq<int>      // the list bytes put into batches so far
    ghost var movedMem: seq<int>    // the list bytes of batches that finished well
    ghost var movedDisk: seq<int>   // the disk bytes they went to or came from
    ghost var lost: nat             // the size of the batch that failed
    ghost var whole: bool           // every batch that finished well was a whole number of sectors
    ghost var granular: bool        // every mapping was a whole number of sectors

    ghost predicate AtEntry()
      reads this
    {
      curIndex <= |sg| && (curByte == 0 || (curIndex < |sg| && curByte < sg[curIndex].len))
    }

    /** Mapping the current entry failed since there were `faults` faults, or the entry is empty. */
    ghost predicate Stuck(faults: nat)
      reads this, driver
    {
      curIndex < |sg| && (sg[curIndex].len == 0 || driver.faults > faults)
    }

    /** What was moved so far, the last `pending` bytes issued not being part of it. */
    ghost predicate MovedOk(pending: nat)
      reads this
    {
      && pending <= |issued| && |movedMem| == |movedDisk|
      && (if whole then movedMem == issued[..|issued| - pending] && movedDisk == Run(SECTOR * first, |issued| - pending)
          else |movedMem| < |issued| - pending)
    }

    /** Entries and mappings of whole sectors make batches of whole sectors. */
    ghost predicate GranularOk()
      reads this
    {
      granular && WholeEntries(sg) ==> whole && |iov| % SECTOR == 0 && curByte % SECTOR == 0
    }

    /** The part of the invariant that holds between any two steps of the callback. */
    ghost predicate Running()
      reads this
    {
      && AtEntry() && issued == Taken(sg, curIndex, curByte) && |iov| <= |issued| && MovedOk(|iov|) && GranularOk()
      && issued[|issued| - |iov|..] == iov && lost == 0
      && (whole ==> SECTOR * sectorNum == SECTOR * first + (|issued| - |iov|))
    }

    ghost predicate Valid()
      reads this
    {
      match phase
      case Idle => false
      case InFlight => Running() && iov != [] && completions == 0
      case MapWait => Running() && iov == [] && completions == 0
      case Done(ret) =>
        && AtEntry() && issued == Taken(sg, curIndex, curByte) && MovedOk(lost) && completions == 1
        && (ret >= 0 ==> curIndex == |sg| && lost == 0)
        && (granular && WholeEntries(sg) ==> whole)
    }

    /** dma_memory_map: the length it mapped, or nothing; an empty range is never mapped. */
    method MapMemory(len: nat) returns (got: nat)
      modifies driver
      ensures got <= len && driver.faults >= old(driver.faults)
      ensures got > 0 <==> len > 0 && driver.faults == old(driver.faults)
    {
      if len == 0 { return 0; }
      var ok := driver.Call();
      if !ok { return 0; }
      got :| 1 <= got <= len;
    }

    /** Starts a transfer and runs the first callback. */
    constructor (driver: Driver, sg: seq<Entry>, first: nat)
      modifies driver
      ensures this.driver == driver && this.sg == sg && this.first == first && Valid()
      ensures phase.MapWait? ==> Stuck(old(driver.faults))
    {
      this.driver, this.sg, this.first := driver, sg, first;
      sectorNum, curIndex, curByte, iov, phase, completions := first, 0, 0, [], Idle, 0;
      issued, movedMem, movedDisk, lost, whole, granular := [], [], [], 0, true, true;
      new;
      Begins();
      Callback(0);
    }

    lemma Begins()
      requires curIndex == 0 && curByte == 0 && |iov| == 0 && |issued| == 0 && |movedMem| == 0 && |movedDisk| == 0
      requires lost == 0 && whole && sectorNum == first
      ensures Running()
    {
      assert Taken(sg, curIndex, curByte) == [] && Run(SECTOR * first, |issued|) == [];
    }

    /** Maps the next piece of the list and adds it to the batch, unless mapping fails. */
    method MapNext(ghost done: seq<int>) returns (ok: bool, ghost got: nat)
      requires issued == done + iov && AtEntry() && curIndex < |sg| && issued == Taken(sg, curIndex, curByte)
      modifies this`iov, this`curIndex, this`curByte, this`issued, driver
      ensures driver.faults >= old(driver.faults)
      ensures ok <==> old(sg[curIndex]).len > 0 && driver.faults == old(driver.faults)
      ensures AtEntry() && issued == Taken(sg, curIndex, curByte)
      ensures |iov| == |old(iov)| + got && (curByte == old(curByte) + got || curByte == 0)
      ensures !ok ==> iov == old(iov) && curIndex == old(curIndex) && curByte == old(curByte) && issued == old(issued)
      ensures issued == done + iov && (ok ==> iov != [] && old(sg[curIndex]).len > 0)
      ensures ok ==> curIndex > old(curIndex) || (curIndex == old(curIndex) && curByte > old(curByte))
    {
      var n := MapMemory(sg[curIndex].len - curByte);
      ok, got := n != 0, n;
      if ok { Take(done, n); }
    }

    /** Adds the next `n` bytes of the list to the batch. */
    method Take(ghost done: seq<int>, n: nat)
      requires issued == done + iov && AtEntry() && curIndex < |sg| && issued == Taken(sg, curIndex, curByte)
      requires 0 < n <= sg[curIndex].len - curByte
      modifies this`iov, this`curIndex, this`curByte, this`issued
      ensures AtEntry() && issued == Taken(sg, curIndex, curByte) && issued == done + iov
      ensures |iov| == |old(iov)| + n && (curByte == old(curByte) + n || curByte == 0)
      ensures curIndex > old(curIndex) || (curIndex == old(curIndex) && curByte > old(curByte))
    {
      var addr := sg[curIndex].base + curByte;
      ConcatAssoc(done, iov, Run(addr, n));
      iov := iov + Run(addr, n);
      issued := issued + Run(addr, n);
      Advance(n);
    }

    /** Moves past `n` bytes of the current entry. */
    method Advance(n: nat)
      requires AtEntry() && curIndex < |sg| && 0 < n <= sg[curIndex].len - curByte
      modifies this`curIndex, this`curByte
      ensures AtEntry() && (curByte == old(curByte) + n || curByte == 0)
      ensures curIndex > old(curIndex) || (curIndex == old(curIndex) && curByte > old(curByte))
      ensures Taken(sg, curIndex, curByte) ==
        Taken(sg, old(curIndex), old(curByte)) + Run(old(sg[curIndex].base + curByte), n)
    {
      TakenMore(sg, curIndex, curByte, n);
      curByte := curByte + n;
      if curByte == sg[curIndex].len {
        TakenAll(sg, curIndex);
        curByte := 0;
        curIndex := curIndex + 1;
      }
    }

    /** Records whether the mapping was a whole number of sectors. */
    ghost method NoteMapping(size: nat, at: nat, got: nat)
      requires granular && WholeEntries(sg) ==> whole && size % SECTOR == 0 && at % SECTOR == 0
      requires |iov| == size + got && (curByte == at + got || curByte == 0)
      modifies this`granular
      ensures GranularOk()
    {
      granular := granular && got % SECTOR == 0;
      SectorSum(size, got);
      SectorSum(at, got);
    }

    /** Fills the batch with as much of the list as can be mapped. */
    method FillBatch()
      requires AtEntry() && iov == [] && issued == Taken(sg, curIndex, curByte) && GranularOk()
      modifies this`iov, this`curIndex, this`curByte, this`issued, this`granular, driver
      ensures driver.faults >= old(driver.faults) && (curIndex == |sg| || Stuck(old(driver.faults)))
      ensures AtEntry() && issued == Taken(sg, curIndex, curByte) && GranularOk()
      ensures issued == old(issued) + iov
      ensures iov == [] ==> curIndex == old(curIndex) && curByte == old(curByte)
      ensures old(curIndex) < |sg| && old(sg[curIndex]).len == 0 ==> iov == []
    {
      while curIndex < |sg|
        invariant AtEntry() && issued == Taken(sg, curIndex, curByte) && issued == old(issued) + iov && GranularOk()
        invariant iov == [] ==> curIndex == old(curIndex) && curByte == old(curByte)
        invariant driver.faults == old(driver.faults)
        invariant old(curIndex) < |sg| && old(sg[curIndex]).len == 0 ==> iov == []
        decreases |sg| - curIndex, if curIndex < |sg| then sg[curIndex].len - curByte else 0
      {
        ghost var size, at := |iov|, curByte;
        var ok, got := MapNext(old(issued));
        NoteMapping(size, at, got);
        if !ok { break; }
      }
    }

    /**
     The completion callback of one batch, also used to start and to try again after a failed mapping. A batch
     counts as moved when it finished without an error.
     */
    method Callback(ret: int)
      requires Running() && completions == 0
      modifies this, driver
      ensures Valid() && (phase.MapWait? ==> Stuck(old(driver.faults)))
      ensures phase.Done? <==> old(curIndex) == |sg| || ret < 0
      ensures phase.Done? ==> phase.ret == ret && issued == old(issued)
      ensures phase.MapWait? ==> issued == old(issued) && curIndex == old(curIndex)
      ensures phase.InFlight? ==> issued == old(issued) + iov
      ensures ret >= 0 ==> MovedOk(|iov|)
      ensures ret >= 0 && old(curIndex) < |sg| && old(sg[curIndex]).len == 0 ==> phase.MapWait?
    {
      Account(ret);
      AdvanceSector(ret);
      if curIndex == |sg| || ret < 0 {
        completions := completions + 1;
        phase := Done(ret);
        return;
      }
      NextBatch();
    }

    /** The next batch starts where the finished one ended. */
    method AdvanceSector(ghost ret: int)
      requires ret >= 0 && whole ==> |iov| % SECTOR == 0 && SECTOR * sectorNum + |iov| == SECTOR * first + |issued|
      modifies this`sectorNum, this`iov
      ensures iov == [] && (ret >= 0 && whole ==> SECTOR * sectorNum == SECTOR * first + |issued|)
    {
      sectorNum := sectorNum + |iov| / SECTOR;
      iov := [];
    }

    /** Exactly the bytes `before` were moved, if every batch was whole. */
    ghost predicate MovedAll(before: seq<int>)
      reads this
    {
      && |movedMem| == |movedDisk| && (whole ==> SECTOR * sectorNum == SECTOR * first + |before|)
      && if whole then movedMem == before && movedDisk == Run(SECTOR * first, |before|) else |movedMem| < |before|
    }

    lemma StillRunning(before: seq<int>)
      requires AtEntry() && issued == Taken(sg, curIndex, curByte) && GranularOk() && lost == 0
      requires issued == before + iov && MovedAll(before)
      ensures Running()
    {
      BatchIsLast(before, iov);
    }

    /** Fills and issues a batch, or waits for mappings. */
    method NextBatch()
      requires Running() && iov == [] && completions == 0 && curIndex < |sg|
      modifies this`iov, this`curIndex, this`curByte, this`issued, this`granular, this`phase, driver
      ensures phase.MapWait? ==> Stuck(old(driver.faults))
      ensures Valid() && (phase.InFlight? || phase.MapWait?) && issued == old(issued) + iov
      ensures phase.MapWait? ==> issued == old(issued) && curIndex == old(curIndex)
      ensures old(curIndex) < |sg| && old(sg[curIndex]).len == 0 ==> phase.MapWait?
    {
      ghost var before := issued;
      assert before[..|before|] == before;
      assert MovedAll(before);
      FillBatch();
      StillRunning(before);
      phase := if |iov| == 0 then MapWait else InFlight;
    }

    /** Counts the finished batch: whole sectors from `sectorNum`. */
    ghost method Account(ret: int)
      requires Running()
      modifies this`movedMem, this`movedDisk, this`whole, this`lost
      ensures if ret < 0 then MovedOk(lost) && whole == old(whole) else MovedOk(0) && lost == 0
      ensures ret >= 0 && whole ==> |iov| % SECTOR == 0 && SECTOR * sectorNum + |iov| == SECTOR * first + |issued|
      ensures ret >= 0 && granular && WholeEntries(sg) ==> whole && curByte % SECTOR == 0
    {
      if ret < 0 {
        lost := |iov|;
      } else {
        var n := |iov| / SECTOR * SECTOR;
        WholePart(|iov|);
        if whole && |iov| % SECTOR == 0 {
          RunAdd(SECTOR * first, |issued| - |iov|, n);
          assert issued[..|issued| - |iov|] + iov[..n] == issued;
        }
        movedMem := movedMem + iov[..n];
        movedDisk := movedDisk + Run(SECTOR * sectorNum, n);
        whole := whole && |iov| % SECTOR == 0;
      }
    }

    /** The block layer finishes a batch. */
    method IoDone(ret: int)
      requires Valid() && phase.InFlight?
      modifies this, driver
      ensures phase.MapWait? ==> Stuck(old(driver.faults))
      ensures Valid() && (phase.Done? <==> old(curIndex) == |sg| || ret < 0)
    {
      Callback(ret);
    }

    /** Mappings were released: the bottom half tries again. At an empty list entry it waits again, for ever. */
    method Reschedule()
      requires Valid() && phase.MapWait?
      modifies this, driver
      ensures phase.MapWait? ==> Stuck(old(driver.faults))
      ensures Valid() && (phase.Done? <==> old(curIndex) == |sg|)
      ensures old(curIndex) < |sg| && old(sg[curIndex]).len == 0 ==> phase.MapWait? && curIndex == old(curIndex)
    {
      Callback(0);
    }

    /**
     A transfer that succeeds moved byte `k` of the list to disk byte 512 * first + k, each exactly once
     and in order, if and only if every batch was a whole number of sectors.
     */
    lemma SuccessMovesEverything()
      requires Valid() && phase.Done? && phase.ret >= 0
      ensures issued == Bytes(sg, |sg|)
      ensures movedMem == Bytes(sg, |sg|) && movedDisk == Run(SECTOR * first, |Bytes(sg, |sg|)|) <==> whole
    {
      assert issued[..|issued|] == issued;
    }

    /** If every list entry and every mapping is a whole number of sectors, so is every batch. */
    lemma WholeSectorsSuffice()
      requires Valid() && granular && WholeEntries(sg)
      ensures whole && (phase.InFlight? ==> |iov| % SECTOR == 0)
    {
    }

    /** At every moment, if all finished batches were whole, they moved a prefix of the list to the right place. */
    lemma MovedIsPrefix(k: nat)
      requires Valid() && whole && k < |movedMem|
      ensures |movedMem| == |movedDisk| && movedMem <= Taken(sg, curIndex, curByte)
      ensures |movedMem| == |issued| - (if phase.Done? then lost else |iov|)
      ensures movedDisk[k] == SECTOR * first + k
    {
      RunAt(SECTOR * first, |movedMem|, k);
    }
  }

  /** Every entry of the list is a whole number of sectors. */
  predicate WholeEntries(sg: seq<Entry>) { forall i :: 0 <= i < |sg| ==> sg[i].len % SECTOR == 0 }

  lemma WholePart(x: nat)
    ensures x / SECTOR * SECTOR <= x && (x % SECTOR == 0 <==> x / SECTOR * SECTOR == x)
  {
  }

  lemma SectorSum(x: nat, y: nat)
    ensures x % SECTOR == 0 && y % SECTOR == 0 ==> (x + y) % SECTOR == 0
  {
  }

  lemma BatchIsLast(before: seq<int>, iov: seq<int>)
    ensures (before + iov)[|before| + |iov| - |iov|..] == iov && (before + iov)[..|before|] == before
  {
  }
}
