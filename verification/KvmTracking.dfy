/**
 The KVM listener over whole topology updates (kvm-all.c on top of memory.c):
 the slot table follows the flat view. `Serves` says what one range contributes
 to the guest-to-host mapping; `Tracks` says the table is the union of that.
 */
module KvmTracking {
  import opened FlatViews
  import opened TopologyDiff
  import K = Kvm

  /** What the callback reads from a region: its host memory and its kind. */
  datatype Backing = Backing(host: int, isRam: bool, writeable: bool)

  datatype Machine = Machine(backing: map<MrId, Backing>, readonlyAllowed: bool, page: nat)

  /** The section that the callback gets for a range. */
  function SectionOf(m: Machine, fr: FlatRange): K.Section
    requires fr.mr in m.backing
  {
    var b := m.backing[fr.mr];
    K.Section(fr.addr.start, fr.addr.size, b.host + fr.offset, b.isRam, b.writeable, m.readonlyAllowed, fr.romd)
  }

  /** The range is one that gets a slot. */
  predicate Backed(m: Machine, fr: FlatRange)
    requires fr.mr in m.backing
  {
    var sec := SectionOf(m, fr);
    !K.Ignored(sec) && (sec.isRam || sec.romd)
  }

  /** Range `fr` gives guest address `a` the host address `h`. */
  predicate Serves(m: Machine, fr: FlatRange, a: int, h: int)
    requires m.page >= 1
  {
    fr.mr in m.backing && Backed(m, fr) &&
    var r := K.Clamp(fr.addr.start, fr.addr.size, m.page);
    r.Range? && r.start <= a < r.start + r.size && h == m.backing[fr.mr].host + fr.offset + (a - fr.addr.start)
  }

  /** Some range of the set does. */
  ghost predicate ServedBy(m: Machine, keys: set<FlatRange>, a: int, h: int)
    requires m.page >= 1
  {
    exists k :: k in keys && Serves(m, k, a, h)
  }

  /** The table maps exactly what the ranges give. */
  ghost predicate Tracks(m: Machine, slots: seq<K.Slot>, keys: set<FlatRange>)
    requires m.page >= 1
  {
    forall a, h {:trigger K.Maps(slots, a, h)} :: K.Maps(slots, a, h) <==> ServedBy(m, keys, a, h)
  }

  /** The range gets a slot. */
  predicate Slotted(m: Machine, fr: FlatRange)
    requires m.page >= 1
  {
    fr.mr in m.backing && Backed(m, fr) && K.Clamp(fr.addr.start, fr.addr.size, m.page).Range?
  }

  /** RAM gets a slot, and so does a read-only device in romd mode if the kernel has read-only slots. */
  lemma SlottedIff(m: Machine, fr: FlatRange)
    requires m.page >= 1 && fr.mr in m.backing
    ensures var b := m.backing[fr.mr];
            Slotted(m, fr) <==> K.Clamp(fr.addr.start, fr.addr.size, m.page).Range? &&
                                (b.isRam || (!b.writeable && m.readonlyAllowed && fr.romd))
  {
  }

  function SlotFor(m: Machine, fr: FlatRange): K.Slot
    requires m.page >= 1 && Slotted(m, fr)
  {
    var r := K.Clamp(fr.addr.start, fr.addr.size, m.page);
    K.Slot(r.start, r.size, m.backing[fr.mr].host + fr.offset + r.delta)
  }

  /** The range gets a slot that ends at 2^64. */
  predicate AtTop(m: Machine, fr: FlatRange)
    requires m.page >= 1
  {
    Slotted(m, fr) && K.IsTop(SlotFor(m, fr))
  }

  lemma ServesIsHit(m: Machine, fr: FlatRange, a: int, h: int)
    requires m.page >= 1 && fr.addr.size >= 0
    ensures Serves(m, fr, a, h) <==> Slotted(m, fr) && K.Hit(SlotFor(m, fr), a, h)
    ensures Serves(m, fr, a, h) ==> Contains(fr.addr, a)
  {
    if Slotted(m, fr) { K.ClampInside(fr.addr.start, fr.addr.size, m.page); }
  }

  /** A slot that ends at 2^64 is that of a range of the set. */
  ghost predicate TopFrom(m: Machine, sl: K.Slot, keys: set<FlatRange>)
    requires m.page >= 1
  {
    K.IsTop(sl) ==> exists k :: k in keys && AtTop(m, k) && sl == SlotFor(m, k)
  }

  ghost predicate TopsFrom(m: Machine, slots: seq<K.Slot>, keys: set<FlatRange>)
    requires m.page >= 1
  {
    forall i {:trigger TopFrom(m, slots[i], keys)} :: 0 <= i < |slots| ==> TopFrom(m, slots[i], keys)
  }

  /** The table is right: disjoint slots that map what the ranges give, those at the top being a range's own. */
  ghost predicate InStep(m: Machine, slots: seq<K.Slot>, keys: set<FlatRange>)
    requires m.page >= 1
  {
    K.AllDisjoint(slots) && Tracks(m, slots, keys) && TopsFrom(m, slots, keys)
  }

  /** A sorted view of regions that the callback knows. */
  ghost predicate Known(m: Machine, v: seq<FlatRange>) {
    m.page >= 1 && Sorted(v) && Within(v, TWO_64) && forall i :: 0 <= i < |v| ==> v[i].mr in m.backing
  }

  ghost predicate KnownRange(m: Machine, fr: FlatRange) {
    fr.mr in m.backing && 0 <= fr.addr.start && 0 < fr.addr.size && End(fr.addr) <= TWO_64
  }

  /** No range that gets a slot ending at 2^64 is taken out of the view. */
  ghost predicate TopsStay(m: Machine, old_: seq<FlatRange>, new_: seq<FlatRange>)
    requires m.page >= 1
  {
    forall k :: k in Keys(old_) && AtTop(m, k) ==> k in Keys(new_)
  }

  predicate Changes(e: Event) { e.RegionDel? || e.RegionAdd? }

  /** The table after one callback for `fr`. */
  ghost predicate Handled(m: Machine, s: seq<K.Slot>, t: seq<K.Slot>, fr: FlatRange, add: bool)
    requires m.page >= 1 && fr.mr in m.backing
  {
    var sec, r := SectionOf(m, fr), K.Clamp(fr.addr.start, fr.addr.size, m.page);
    if r.Skip? || K.Ignored(sec) then t == s
    else K.Updated(s, t, r.start, r.size, sec.ram + r.delta, add && (sec.isRam || sec.romd))
  }

  /** What a successful callback for `fr` does to the table. */
  ghost predicate Called(m: Machine, s: seq<K.Slot>, t: seq<K.Slot>, fr: FlatRange, add: bool)
    requires m.page >= 1 && fr.mr in m.backing
  {
    var sec, r := SectionOf(m, fr), K.Clamp(fr.addr.start, fr.addr.size, m.page);
    if r.Skip? || K.Ignored(sec) then t == s
    else K.RangeSet(s, t, r.start, r.size, sec.ram + r.delta, add && (sec.isRam || sec.romd))
  }

  /** Nothing of the set overlaps `fr`, other than `fr` itself. */
  ghost predicate Alone(keys: set<FlatRange>, fr: FlatRange) {
    forall k {:trigger Intersects(k.addr, fr.addr)} :: k in keys && k != fr ==> !Intersects(k.addr, fr.addr)
  }

  /** A callback changes what its own range gives and nothing else. */
  lemma HandledTracks(m: Machine, s: seq<K.Slot>, t: seq<K.Slot>, keys: set<FlatRange>, fr: FlatRange, add: bool)
    requires m.page >= 1 && fr.mr in m.backing && fr.addr.size > 0
    requires forall k :: k in keys ==> k.addr.size > 0
    requires Tracks(m, s, keys) && Handled(m, s, t, fr, add) && Alone(keys, fr)
    ensures Tracks(m, t, if add then keys + {fr} else keys - {fr})
  {
    var after := if add then keys + {fr} else keys - {fr};
    forall a, h {:trigger K.Maps(t, a, h)} ensures K.Maps(t, a, h) <==> ServedBy(m, after, a, h) {
      OthersUnchanged(m, keys, fr, add, a, h);
      if K.Clamp(fr.addr.start, fr.addr.size, m.page).Range? { K.ClampInside(fr.addr.start, fr.addr.size, m.page); }
      assert K.Maps(s, a, h) <==> ServedBy(m, keys, a, h);
      InsideOwn(m, keys, fr, a, h);
    }
  }

  /** With `fr` added or removed, an address is served by the rest or by `fr`. */
  lemma OthersUnchanged(m: Machine, keys: set<FlatRange>, fr: FlatRange, add: bool, a: int, h: int)
    requires m.page >= 1
    ensures var after := if add then keys + {fr} else keys - {fr};
            ServedBy(m, after, a, h) <==> ServedBy(m, keys - {fr}, a, h) || (add && Serves(m, fr, a, h))
    ensures ServedBy(m, keys, a, h) <==> ServedBy(m, keys - {fr}, a, h) || (fr in keys && Serves(m, fr, a, h))
  {
    var after := if add then keys + {fr} else keys - {fr};
    forall k | k in after && Serves(m, k, a, h) && k != fr ensures ServedBy(m, keys - {fr}, a, h) {
      assert k in keys - {fr};
    }
    forall k | k in keys && Serves(m, k, a, h) && k != fr ensures ServedBy(m, keys - {fr}, a, h) {
      assert k in keys - {fr};
    }
    if ServedBy(m, keys - {fr}, a, h) {
      var k :| k in keys - {fr} && Serves(m, k, a, h);
      assert k in after && k in keys;
    }
    if add && Serves(m, fr, a, h) { assert fr in after; }
  }

  /** Inside `fr` no other range serves. */
  lemma InsideOwn(m: Machine, keys: set<FlatRange>, fr: FlatRange, a: int, h: int)
    requires m.page >= 1 && fr.addr.size > 0 && Alone(keys, fr)
    requires forall k :: k in keys ==> k.addr.size > 0
    ensures Contains(fr.addr, a) ==> !ServedBy(m, keys - {fr}, a, h)
  {
    if Contains(fr.addr, a) && ServedBy(m, keys - {fr}, a, h) {
      var k :| k in keys - {fr} && Serves(m, k, a, h);
      ServesIsHit(m, k, a, h);
      assert Intersects(k.addr, fr.addr);
    }
  }

  lemma {:induction false} DelEventsFromOld(old_: seq<FlatRange>, new_: seq<FlatRange>)
    ensures forall e :: e in DelEvents(old_, new_) ==> e.fr in old_
  {
    if old_ != [] { DelEventsFromOld(old_[..|old_| - 1], new_); }
  }

  /** Ranges of one sorted view are alone among each other. */
  lemma AloneInView(v: seq<FlatRange>, keys: set<FlatRange>, fr: FlatRange)
    requires Sorted(v) && keys <= Keys(v) && fr in v
    ensures Alone(keys, Key(fr))
  {
    var st := map k | k in Keys(v) :: true;
    SubsetDisjoint(st, v);
    var i :| 0 <= i < |v| && v[i] == fr;
    assert Key(v[i]) in st;
  }

  /** The ranges a listener holds after the first `n` events of an update. */
  ghost function HeldAfter(old_: seq<FlatRange>, new_: seq<FlatRange>, n: nat): set<FlatRange>
    requires n <= |DelEvents(old_, new_) + AddEvents(old_, new_)|
  {
    Replay(Mirror(old_), (DelEvents(old_, new_) + AddEvents(old_, new_))[..n]).Keys
  }

  lemma HeldFirst(old_: seq<FlatRange>, new_: seq<FlatRange>, n: nat)
    requires n == 0
    ensures HeldAfter(old_, new_, n) == Keys(old_)
  {
    assert (DelEvents(old_, new_) + AddEvents(old_, new_))[..n] == [];
    assert Mirror(old_).Keys == Keys(old_);
  }

  lemma HeldLast(old_: seq<FlatRange>, new_: seq<FlatRange>)
    requires Sorted(old_) && Sorted(new_)
    ensures HeldAfter(old_, new_, |DelEvents(old_, new_) + AddEvents(old_, new_)|) == Keys(new_)
  {
    var es := DelEvents(old_, new_) + AddEvents(old_, new_);
    assert es[..|es|] == es;
    DiffReplays(old_, new_);
    assert Mirror(new_).Keys == Keys(new_);
  }

  lemma {:induction false} HeldKnown(old_: seq<FlatRange>, new_: seq<FlatRange>, n: nat)
    requires n <= |DelEvents(old_, new_) + AddEvents(old_, new_)|
    ensures HeldAfter(old_, new_, n) <= Keys(old_) + Keys(new_)
    ensures n <= |DelEvents(old_, new_)| ==> HeldAfter(old_, new_, n) <= Keys(old_)
  {
    if n > 0 {
      var es := DelEvents(old_, new_) + AddEvents(old_, new_);
      HeldKnown(old_, new_, n - 1);
      assert es[..n][..n - 1] == es[..n - 1] && es[n - 1] in es;
      DelEventsAreDels(old_, new_);
      if n > |DelEvents(old_, new_)| {
        AddEventsFromNew(old_, new_);
        assert es[n - 1] in AddEvents(old_, new_);
        KeyIn(new_, es[n - 1].fr);
      }
    }
  }

  lemma KeyIn(v: seq<FlatRange>, fr: FlatRange)
    requires fr in v
    ensures Key(fr) in Keys(v)
  {
    var i :| 0 <= i < |v| && v[i] == fr;
    assert Key(v[i]) in Keys(v);
  }

  lemma DelAlone(old_: seq<FlatRange>, new_: seq<FlatRange>, n: nat)
    requires Sorted(old_) && n < |DelEvents(old_, new_)|
    ensures var e := DelEvents(old_, new_)[n];
            e.RegionDel? && e.fr in old_ && Alone(HeldAfter(old_, new_, n), Key(e.fr))
  {
    DelEventsAreDels(old_, new_);
    DelEventsFromOld(old_, new_);
    assert DelEvents(old_, new_)[n] in DelEvents(old_, new_);
    HeldKnown(old_, new_, n);
    AloneInView(old_, HeldAfter(old_, new_, n), DelEvents(old_, new_)[n].fr);
  }

  /** The ranges a listener holds change by one event at a time. */
  lemma HeldStep(old_: seq<FlatRange>, new_: seq<FlatRange>, n: nat)
    requires n < |DelEvents(old_, new_) + AddEvents(old_, new_)|
    ensures var e := (DelEvents(old_, new_) + AddEvents(old_, new_))[n];
            HeldAfter(old_, new_, n + 1) == if e.RegionDel? then HeldAfter(old_, new_, n) - {Key(e.fr)}
                                            else if e.RegionAdd? then HeldAfter(old_, new_, n) + {Key(e.fr)}
                                            else HeldAfter(old_, new_, n)
  {
    ReplayKeys(Mirror(old_), DelEvents(old_, new_) + AddEvents(old_, new_), n);
  }

  /** When a range is announced as gone or new, the listener holds nothing else that overlaps it. */
  lemma StepAlone(old_: seq<FlatRange>, new_: seq<FlatRange>, n: nat)
    requires Sorted(old_) && Sorted(new_) && n < |DelEvents(old_, new_) + AddEvents(old_, new_)|
    ensures var e := (DelEvents(old_, new_) + AddEvents(old_, new_))[n];
            && (e.fr in old_ || e.fr in new_)
            && (e.RegionDel? || e.RegionAdd? ==> Alone(HeldAfter(old_, new_, n), Key(e.fr)))
  {
    var dels, adds := DelEvents(old_, new_), AddEvents(old_, new_);
    if n < |dels| {
      DelAlone(old_, new_, n);
    } else {
      AddEventsFromNew(old_, new_);
      assert (dels + adds)[n] == adds[n - |dels|] && adds[n - |dels|] in adds;
      DiffKeepsDisjoint(old_, new_, n + 1);
      HeldStep(old_, new_, n);
    }
  }

  /** An address inside `fr` that the table maps is served by `fr`, if the table is right. */
  lemma OwnAddress(m: Machine, s: seq<K.Slot>, keys: set<FlatRange>, fr: FlatRange, a: int, h: int)
    requires m.page >= 1 && fr.addr.size > 0 && Tracks(m, s, keys) && Alone(keys, fr)
    requires (forall k :: k in keys ==> k.addr.size > 0) && K.Maps(s, a, h) && Contains(fr.addr, a)
    ensures fr in keys && Serves(m, fr, a, h)
  {
    var k :| k in keys && Serves(m, k, a, h);
    assert k != fr ==> k in keys - {fr};
    InsideOwn(m, keys, fr, a, h);
  }

  /** A right table hides an overlap with `fr` only if `fr` is in it and at the top. */
  lemma HiddenIsOwn(m: Machine, s: seq<K.Slot>, keys: set<FlatRange>, fr: FlatRange)
    requires m.page >= 1 && KnownRange(m, fr) && InStep(m, s, keys) && Alone(keys, fr)
    requires forall k :: k in keys ==> k.addr.size > 0
    requires var r := K.Clamp(fr.addr.start, fr.addr.size, m.page);
             r.Range? && !K.NoneHidden(s, r.start, r.size)
    ensures fr in keys && AtTop(m, fr)
  {
    var r := K.Clamp(fr.addr.start, fr.addr.size, m.page);
    K.ClampInside(fr.addr.start, fr.addr.size, m.page);
    var j :| 0 <= j < |s| && K.Blind(s[j], r.start, r.size) && K.Meets(s[j], r.start, r.start + r.size);
    var a, h := K.MeetsMaps(s, j, r.start, r.start + r.size);
    OwnAddress(m, s, keys, fr, a, h);
    ServesIsHit(m, fr, a, h);
    if K.IsTop(s[j]) {
      assert TopFrom(m, s[j], keys);
      var k :| k in keys && AtTop(m, k) && s[j] == SlotFor(m, k);
      ServesIsHit(m, k, a, h);
      if k != fr {
        assert k in keys - {fr};
        InsideOwn(m, keys, fr, a, h);
      }
    }
  }

  /** Unless it takes out a range at the top, a callback keeps the table right. */
  lemma CallIsRight(m: Machine, s: seq<K.Slot>, t: seq<K.Slot>, keys: set<FlatRange>, fr: FlatRange, add: bool)
    requires m.page >= 1 && KnownRange(m, fr) && InStep(m, s, keys) && Alone(keys, fr)
    requires (forall k :: k in keys ==> k.addr.size > 0) && Called(m, s, t, fr, add)
    requires AtTop(m, fr) ==> add && fr !in keys
    ensures InStep(m, t, if add then keys + {fr} else keys - {fr})
  {
    var sec, r := SectionOf(m, fr), K.Clamp(fr.addr.start, fr.addr.size, m.page);
    if r.Range? && !K.Ignored(sec) {
      K.ClampInside(fr.addr.start, fr.addr.size, m.page);
      if !K.NoneHidden(s, r.start, r.size) {
        HiddenIsOwn(m, s, keys, fr);
      }
      K.RangeSetIff(s, t, r.start, r.size, sec.ram + r.delta, add && (sec.isRam || sec.romd));
    }
    HandledTracks(m, s, t, keys, fr, add);
    TopsFollow(m, s, t, keys, fr, add);
  }

  lemma TopsFollow(m: Machine, s: seq<K.Slot>, t: seq<K.Slot>, keys: set<FlatRange>, fr: FlatRange, add: bool)
    requires m.page >= 1 && KnownRange(m, fr) && TopsFrom(m, s, keys) && Called(m, s, t, fr, add)
    requires AtTop(m, fr) ==> add
    ensures TopsFrom(m, t, if add then keys + {fr} else keys - {fr})
  {
    var after := if add then keys + {fr} else keys - {fr};
    forall i {:trigger TopFrom(m, t[i], after)} | 0 <= i < |t| ensures TopFrom(m, t[i], after) {
      if K.IsTop(t[i]) {
        if i < |s| && t[i] == s[i] {
          assert TopFrom(m, s[i], keys);
          var k :| k in keys && AtTop(m, k) && s[i] == SlotFor(m, k);
          assert k in after;
        } else {
          NewTop(m, s, t, fr, add, i);
          assert fr in after;
        }
      }
    }
  }

  /** A new slot at the top is that of the range that was added. */
  lemma NewTop(m: Machine, s: seq<K.Slot>, t: seq<K.Slot>, fr: FlatRange, add: bool, i: nat)
    requires m.page >= 1 && KnownRange(m, fr) && Called(m, s, t, fr, add)
    requires i < |t| && K.IsTop(t[i]) && !(i < |s| && t[i] == s[i])
    ensures add && AtTop(m, fr) && t[i] == SlotFor(m, fr)
  {
    var r := K.Clamp(fr.addr.start, fr.addr.size, m.page);
    assert i < |s| && K.SameTops(s, t) ==> K.TopKept(s[i], t[i]);
  }

  /** A slot at the top stays through every call; a range at the top that is added gets a place of its own. */
  lemma TopPersists(m: Machine, s: seq<K.Slot>, t: seq<K.Slot>, fr: FlatRange, add: bool, j: nat)
    requires m.page >= 1 && KnownRange(m, fr) && Called(m, s, t, fr, add) && j < |s| && K.IsTop(s[j])
    ensures |t| == |s| && t[j] == s[j]
    ensures add && AtTop(m, fr) ==> exists i :: 0 <= i < |t| && i != j && K.IsTop(t[i])
  {
    var r := K.Clamp(fr.addr.start, fr.addr.size, m.page);
    if r.Range? && !K.Ignored(SectionOf(m, fr)) {
      K.ClampInside(fr.addr.start, fr.addr.size, m.page);
      if r.start + r.size < TWO_64 {
        assert K.TopKept(s[j], t[j]);
      } else if add && AtTop(m, fr) {
        var i :| 0 <= i < |s| && s[i].size == 0 && t == s[i := SlotFor(m, fr)];
        assert i != j && K.IsTop(t[i]);
      }
    }
  }

  /** The last address of all is served exactly by ranges at the top. */
  lemma LastAddress(m: Machine, k: FlatRange, h: int)
    requires m.page >= 1 && KnownRange(m, k)
    ensures Serves(m, k, TWO_64 - 1, h) ==> AtTop(m, k)
    ensures AtTop(m, k) ==> Contains(k.addr, TWO_64 - 1)
    ensures AtTop(m, k) ==> Serves(m, k, TWO_64 - 1, SlotFor(m, k).ram + (TWO_64 - 1 - SlotFor(m, k).start))
  {
    ServesIsHit(m, k, TWO_64 - 1, h);
    if Slotted(m, k) {
      K.ClampInside(k.addr.start, k.addr.size, m.page);
      ServesIsHit(m, k, TWO_64 - 1, SlotFor(m, k).ram + (TWO_64 - 1 - SlotFor(m, k).start));
    }
  }

  /** A right table has a slot at the top for each range at the top. */
  lemma TopSlot(m: Machine, s: seq<K.Slot>, keys: set<FlatRange>, k: FlatRange) returns (j: nat)
    requires m.page >= 1 && InStep(m, s, keys) && k in keys && AtTop(m, k) && KnownRange(m, k)
    ensures j < |s| && K.IsTop(s[j])
  {
    var h := SlotFor(m, k).ram + (TWO_64 - 1 - SlotFor(m, k).start);
    LastAddress(m, k, h);
    assert ServedBy(m, keys, TWO_64 - 1, h);
    assert K.Maps(s, TWO_64 - 1, h);
    j :| 0 <= j < |s| && K.Hit(s[j], TWO_64 - 1, h);
    assert K.SlotFits(s[j]);
  }

  lemma KnownKeys(m: Machine, v: seq<FlatRange>, k: FlatRange)
    requires Known(m, v) && k in Keys(v)
    ensures KnownRange(m, k)
  {
    var i :| 0 <= i < |v| && Key(v[i]) == k;
  }

  /** The callback for one event; log events touch only flags. */
  method Callback(kvm: K.KvmState, m: Machine, e: Event) returns (ok: bool)
    requires K.TableOk(kvm.slots[..]) && m.page >= 1 && KnownRange(m, Key(e.fr))
    modifies kvm.slots
    ensures ok ==> K.TableOk(kvm.slots[..])
    ensures ok && Changes(e) ==> Called(m, old(kvm.slots[..]), kvm.slots[..], Key(e.fr), e.RegionAdd?)
    ensures !Changes(e) ==> ok && kvm.slots[..] == old(kvm.slots[..])
    ensures ok ==> |K.UsedSlots(kvm.slots[..])| <= |K.UsedSlots(old(kvm.slots[..]))| + if Changes(e) then 2 else 0
    ensures |K.UsedSlots(old(kvm.slots[..]))| + 2 <= kvm.slots.Length && e.fr.addr.size < TWO_64 ==> ok
  {
    ok := true;
    if Changes(e) { ok := kvm.SetPhysMem(SectionOf(m, e.fr), e.RegionAdd?, m.page); }
  }

  /** What the listener holds comes from the old view or was announced. */
  lemma {:induction false} HeldFrom(old_: seq<FlatRange>, new_: seq<FlatRange>, n: nat, k: FlatRange)
    requires n <= |DelEvents(old_, new_) + AddEvents(old_, new_)| && k in HeldAfter(old_, new_, n)
    ensures k in Keys(old_) || exists i :: 0 <= i < n && AddsKey(old_, new_, i, k)
  {
    if n > 0 {
      HeldStep(old_, new_, n - 1);
      if k in HeldAfter(old_, new_, n - 1) {
        HeldFrom(old_, new_, n - 1, k);
      } else {
        assert AddsKey(old_, new_, n - 1, k);
      }
    }
  }

  /** Event `i` of the update announces the range. */
  ghost predicate AddsKey(old_: seq<FlatRange>, new_: seq<FlatRange>, i: int, k: FlatRange) {
    var es := DelEvents(old_, new_) + AddEvents(old_, new_);
    0 <= i < |es| && es[i].RegionAdd? && Key(es[i].fr) == k
  }

  /** A range that is announced as new is in the new view only, and announced once. */
  lemma AddsKeyOnce(old_: seq<FlatRange>, new_: seq<FlatRange>, i: nat, j: nat, k: FlatRange)
    requires Sorted(new_) && i <= j && AddsKey(old_, new_, i, k) && AddsKey(old_, new_, j, k)
    ensures i == j && k !in Keys(old_)
  {
    var a := InAdds(old_, new_, i, k);
    var b := InAdds(old_, new_, j, k);
    AddsAreNew(old_, new_);
    assert AddEvents(old_, new_)[a] in AddEvents(old_, new_);
    if a < b { AddedOnce(old_, new_, a, b); }
  }

  lemma FromAdds(old_: seq<FlatRange>, new_: seq<FlatRange>, a: nat, k: FlatRange)
    requires a < |AddEvents(old_, new_)|
    requires AddEvents(old_, new_)[a].RegionAdd? && Key(AddEvents(old_, new_)[a].fr) == k
    ensures AddsKey(old_, new_, |DelEvents(old_, new_)| + a, k)
  {
  }

  /** The announcement is one of the adding pass. */
  lemma InAdds(old_: seq<FlatRange>, new_: seq<FlatRange>, i: nat, k: FlatRange) returns (a: nat)
    requires AddsKey(old_, new_, i, k)
    ensures i == |DelEvents(old_, new_)| + a && a < |AddEvents(old_, new_)|
    ensures AddEvents(old_, new_)[a].RegionAdd? && Key(AddEvents(old_, new_)[a].fr) == k
  {
    var dels := DelEvents(old_, new_);
    DelEventsAreDels(old_, new_);
    a := i - |dels|;
  }

  /** A range that is announced as new is not held yet. */
  lemma AddIsNew(old_: seq<FlatRange>, new_: seq<FlatRange>, n: nat, k: FlatRange)
    requires Sorted(new_) && n <= |DelEvents(old_, new_) + AddEvents(old_, new_)| && AddsKey(old_, new_, n, k)
    ensures k !in HeldAfter(old_, new_, n)
  {
    AddsKeyOnce(old_, new_, n, n, k);
    if k in HeldAfter(old_, new_, n) {
      HeldFrom(old_, new_, n, k);
      var i :| 0 <= i < n && AddsKey(old_, new_, i, k);
      AddsKeyOnce(old_, new_, i, n, k);
    }
  }

  /** A range that is taken out was in the old view and is not in the new one. */
  lemma DelIsGone(old_: seq<FlatRange>, new_: seq<FlatRange>, n: nat)
    requires n < |DelEvents(old_, new_) + AddEvents(old_, new_)|
    ensures var e := (DelEvents(old_, new_) + AddEvents(old_, new_))[n];
            e.RegionDel? ==> Key(e.fr) in Keys(old_) && Key(e.fr) !in Keys(new_)
  {
    var dels, adds := DelEvents(old_, new_), AddEvents(old_, new_);
    if n < |dels| {
      assert (dels + adds)[n] == dels[n] && dels[n] in dels;
      DelsAreGone(old_, new_);
    } else {
      AddEventsFromNew(old_, new_);
      assert (dels + adds)[n] == adds[n - |dels|] && adds[n - |dels|] in adds;
    }
  }

  /**
   The table after `n` events of an update. If no range at the top goes, it is right for what the listener holds.
   Otherwise the slot `top` of that range is still there, next to that of any range at the top announced since.
   */
  ghost predicate Sound(m: Machine, s: seq<K.Slot>, old_: seq<FlatRange>, new_: seq<FlatRange>, n: nat, top: nat)
    requires m.page >= 1 && n <= |DelEvents(old_, new_) + AddEvents(old_, new_)|
  {
    if TopsStay(m, old_, new_) then InStep(m, s, HeldAfter(old_, new_, n))
    else top < |s| && K.IsTop(s[top]) && (SomeTopAdded(m, old_, new_, n) ==> SecondTop(s, top))
  }

  ghost predicate SecondTop(s: seq<K.Slot>, top: nat) { exists i :: 0 <= i < |s| && i != top && K.IsTop(s[i]) }

  ghost predicate SomeTopAdded(m: Machine, old_: seq<FlatRange>, new_: seq<FlatRange>, n: nat)
    requires m.page >= 1
  {
    exists i, k :: 0 <= i < n && AddsKey(old_, new_, i, k) && AtTop(m, k)
  }

  /** What is known of the range of event `n`, and of the ranges held before it. */
  lemma EventKnown(m: Machine, old_: seq<FlatRange>, new_: seq<FlatRange>, n: nat)
    requires Known(m, old_) && Known(m, new_) && n < |DelEvents(old_, new_) + AddEvents(old_, new_)|
    ensures var fr := (DelEvents(old_, new_) + AddEvents(old_, new_))[n].fr;
            KnownRange(m, Key(fr)) && (NoneWhole(old_) && NoneWhole(new_) ==> fr.addr.size < TWO_64)
    ensures forall k :: k in HeldAfter(old_, new_, n) ==> k.addr.size > 0
  {
    StepAlone(old_, new_, n);
    HeldKnown(old_, new_, n);
  }

  lemma SoundStep(m: Machine, s: seq<K.Slot>, t: seq<K.Slot>, old_: seq<FlatRange>, new_: seq<FlatRange>, n: nat,
                  top: nat)
    requires Known(m, old_) && Known(m, new_) && n < |DelEvents(old_, new_) + AddEvents(old_, new_)|
    requires Sound(m, s, old_, new_, n, top)
    requires var e := (DelEvents(old_, new_) + AddEvents(old_, new_))[n];
             KnownRange(m, Key(e.fr)) && if Changes(e) then Called(m, s, t, Key(e.fr), e.RegionAdd?) else t == s
    ensures Sound(m, t, old_, new_, n + 1, top)
  {
    var e := (DelEvents(old_, new_) + AddEvents(old_, new_))[n];
    if TopsStay(m, old_, new_) {
      EventKnown(m, old_, new_, n);
      StepAlone(old_, new_, n);
      HeldStep(old_, new_, n);
      if e.RegionAdd? { AddIsNew(old_, new_, n, Key(e.fr)); }
      DelIsGone(old_, new_, n);
      if Changes(e) { CallIsRight(m, s, t, HeldAfter(old_, new_, n), Key(e.fr), e.RegionAdd?); }
    } else {
      StaleStep(m, s, t, old_, new_, n, top);
    }
  }

  lemma StaleStep(m: Machine, s: seq<K.Slot>, t: seq<K.Slot>, old_: seq<FlatRange>, new_: seq<FlatRange>, n: nat,
                  top: nat)
    requires m.page >= 1 && n < |DelEvents(old_, new_) + AddEvents(old_, new_)|
    requires !TopsStay(m, old_, new_) && Sound(m, s, old_, new_, n, top)
    requires var e := (DelEvents(old_, new_) + AddEvents(old_, new_))[n];
             KnownRange(m, Key(e.fr)) && if Changes(e) then Called(m, s, t, Key(e.fr), e.RegionAdd?) else t == s
    ensures Sound(m, t, old_, new_, n + 1, top)
  {
    var e := (DelEvents(old_, new_) + AddEvents(old_, new_))[n];
    if Changes(e) {
      TopPersists(m, s, t, Key(e.fr), e.RegionAdd?, top);
      if SomeTopAdded(m, old_, new_, n) {
        var i :| 0 <= i < |s| && i != top && K.IsTop(s[i]);
        TopPersists(m, s, t, Key(e.fr), e.RegionAdd?, i);
        assert SecondTop(t, top);
      }
    }
    if SomeTopAdded(m, old_, new_, n + 1) && !SomeTopAdded(m, old_, new_, n) {
      var i, k :| 0 <= i < n + 1 && AddsKey(old_, new_, i, k) && AtTop(m, k);
      assert i == n;
    }
  }

  /** The slot of a range at the top that went makes the table wrong for the new view. */
  lemma StaleIsWrong(m: Machine, s: seq<K.Slot>, old_: seq<FlatRange>, new_: seq<FlatRange>, top: nat)
    requires Known(m, old_) && Known(m, new_) && !TopsStay(m, old_, new_)
    requires Sound(m, s, old_, new_, |DelEvents(old_, new_) + AddEvents(old_, new_)|, top)
    ensures !(K.AllDisjoint(s) && Tracks(m, s, Keys(new_)))
  {
    if K.AllDisjoint(s) && Tracks(m, s, Keys(new_)) {
      var h := s[top].ram + (TWO_64 - 1 - s[top].start);
      assert K.Hit(s[top], TWO_64 - 1, h) && K.Maps(s, TWO_64 - 1, h);
      var k :| k in Keys(new_) && Serves(m, k, TWO_64 - 1, h);
      KnownKeys(m, new_, k);
      LastAddress(m, k, h);
      TopIsAdded(m, old_, new_, k);
      var i :| 0 <= i < |s| && i != top && K.IsTop(s[i]);
      TwoTops(s, i, top);
    }
  }

  lemma TwoTops(s: seq<K.Slot>, i: nat, j: nat)
    requires i < |s| && j < |s| && i != j && K.IsTop(s[i]) && K.IsTop(s[j])
    ensures !K.AllDisjoint(s)
  {
    assert !K.Separate(s[i], s[j]);
  }

  /** One range of a view holds an address. */
  lemma OneHolds(v: seq<FlatRange>, x: FlatRange, y: FlatRange, a: int)
    requires Sorted(v) && x in Keys(v) && y in Keys(v) && Contains(x.addr, a) && Contains(y.addr, a)
    ensures x == y
  {
    var i :| 0 <= i < |v| && Key(v[i]) == x;
    var j :| 0 <= j < |v| && Key(v[j]) == y;
  }

  /** If a range at the top goes, a range at the top of the new view is announced as new. */
  lemma TopIsAdded(m: Machine, old_: seq<FlatRange>, new_: seq<FlatRange>, k: FlatRange)
    requires Known(m, old_) && Known(m, new_) && !TopsStay(m, old_, new_) && k in Keys(new_) && AtTop(m, k)
    ensures SomeTopAdded(m, old_, new_, |DelEvents(old_, new_) + AddEvents(old_, new_)|)
  {
    var gone :| gone in Keys(old_) && AtTop(m, gone) && gone !in Keys(new_);
    KnownKeys(m, old_, gone);
    KnownKeys(m, new_, k);
    LastAddress(m, gone, 0);
    LastAddress(m, k, 0);
    if k in Keys(old_) {
      OneHolds(old_, gone, k, TWO_64 - 1);
    } else {
      var a := AddHappens(old_, new_, k);
      FromAdds(old_, new_, a, k);
    }
  }

  /** No range is 2^64 bytes long. */
  ghost predicate NoneWhole(v: seq<FlatRange>) { forall i :: 0 <= i < |v| ==> v[i].addr.size < TWO_64 }

  /** The number of events that change the table. */
  function Count(es: seq<Event>): nat {
    if es == [] then 0 else Count(es[..|es| - 1]) + if Changes(es[|es| - 1]) then 1 else 0
  }

  lemma CountOne(e: Event)
    ensures Count([e]) <= 1
  {
    assert [e][..0] == [];
  }

  lemma {:induction false} CountConcat(es: seq<Event>, fs: seq<Event>)
    ensures Count(es + fs) == Count(es) + Count(fs)
    decreases |fs|
  {
    if fs == [] {
      assert es + fs == es;
    } else {
      assert (es + fs)[..|es + fs| - 1] == es + fs[..|fs| - 1];
      CountConcat(es, fs[..|fs| - 1]);
    }
  }

  lemma {:induction false} CountPrefix(es: seq<Event>, n: nat)
    requires n <= |es|
    ensures Count(es[..n]) <= Count(es)
    ensures n < |es| ==> Count(es[..n + 1]) == Count(es[..n]) + if Changes(es[n]) then 1 else 0
  {
    assert es == es[..n] + es[n..];
    CountConcat(es[..n], es[n..]);
    if n < |es| { assert es[..n + 1][..n] == es[..n]; }
  }

  lemma {:induction false} CountDels(old_: seq<FlatRange>, new_: seq<FlatRange>)
    ensures Count(DelEvents(old_, new_)) <= |old_|
  {
    if old_ != [] {
      var f, before := old_[|old_| - 1], DelEvents(old_[..|old_| - 1], new_);
      CountDels(old_[..|old_| - 1], new_);
      if Match(new_, f).None? {
        CountConcat(before, [RegionDel(f)]);
        CountOne(RegionDel(f));
      } else {
        assert DelEvents(old_, new_) == before;
      }
    }
  }

  lemma {:induction false} CountAdds(old_: seq<FlatRange>, new_: seq<FlatRange>)
    ensures Count(AddEvents(old_, new_)) <= |new_|
  {
    if new_ != [] {
      var g := new_[|new_| - 1];
      CountAdds(old_, new_[..|new_| - 1]);
      CountConcat(AddEvents(old_, new_[..|new_| - 1]), NewEvents(old_, g));
      CountNew(old_, g);
    }
  }

  lemma CountNew(old_: seq<FlatRange>, g: FlatRange)
    ensures Count(NewEvents(old_, g)) <= 1
  {
    var es := NewEvents(old_, g);
    assert Count(es[..0]) == 0;
    if |es| == 2 { assert es[..1][..0] == es[..0] && Count(es[..1]) == 0; }
  }

  /** The callback for event `n` of an update. */
  method HandleEvent(kvm: K.KvmState, m: Machine, e: Event,
                     ghost old_: seq<FlatRange>, ghost new_: seq<FlatRange>, ghost n: nat, ghost top: nat)
    returns (ok: bool)
    requires Known(m, old_) && Known(m, new_) && n < |DelEvents(old_, new_) + AddEvents(old_, new_)|
    requires e == (DelEvents(old_, new_) + AddEvents(old_, new_))[n]
    requires K.TableOk(kvm.slots[..]) && Sound(m, kvm.slots[..], old_, new_, n, top)
    modifies kvm.slots
    ensures ok ==> K.TableOk(kvm.slots[..]) && Sound(m, kvm.slots[..], old_, new_, n + 1, top)
    ensures ok ==> |K.UsedSlots(kvm.slots[..])| <= |K.UsedSlots(old(kvm.slots[..]))| + if Changes(e) then 2 else 0
    ensures NoneWhole(old_) && NoneWhole(new_) && |K.UsedSlots(old(kvm.slots[..]))| + 2 <= kvm.slots.Length ==> ok
    ensures !Changes(e) ==> ok
  {
    EventKnown(m, old_, new_, n);
    ghost var s := kvm.slots[..];
    ok := Callback(kvm, m, e);
    if ok { SoundStep(m, s, kvm.slots[..], old_, new_, n, top); }
  }

  /**
   One topology update seen by KVM, from a table that is right for the old view: if no callback runs out of slots,
   the table has disjoint slots and maps what the new view gives if and only if no range at the top goes. Two free
   slots for each range of either view are enough, unless a range is 2^64 bytes.
   */
  method Follow(kvm: K.KvmState, m: Machine, old_: seq<FlatRange>, new_: seq<FlatRange>) returns (ok: bool)
    requires Known(m, old_) && Known(m, new_) && InStep(m, kvm.slots[..], Keys(old_))
    modifies kvm.slots
    ensures ok && TopsStay(m, old_, new_) ==> InStep(m, kvm.slots[..], Keys(new_))
    ensures ok ==>
      (K.AllDisjoint(kvm.slots[..]) && Tracks(m, kvm.slots[..], Keys(new_)) <==> TopsStay(m, old_, new_))
    ensures NoneWhole(old_) && NoneWhole(new_) ==>
              |K.UsedSlots(old(kvm.slots[..]))| + 2 * (|old_| + |new_|) <= kvm.slots.Length ==> ok
  {
    var dels := Pass(old_, new_, false);
    var adds := Pass(old_, new_, true);
    var es := dels + adds;
    ghost var used := |K.UsedSlots(kvm.slots[..])|;
    ghost var top := Start(m, kvm.slots[..], old_, new_, 0);
    K.AllIsTable(kvm.slots[..]);
    CountConcat(dels, adds);
    CountDels(old_, new_);
    CountAdds(old_, new_);
    ok := true;
    for n := 0 to |es|
      invariant K.TableOk(kvm.slots[..]) && Sound(m, kvm.slots[..], old_, new_, n, top)
      invariant ok && |K.UsedSlots(kvm.slots[..])| <= used + 2 * Count(es[..n])
    {
      CountPrefix(es, n);
      CountPrefix(es, n + 1);
      ok := HandleEvent(kvm, m, es[n], old_, new_, n, top);
      if !ok { return; }
    }
    SoundEnds(m, kvm.slots[..], old_, new_, top);
  }

  lemma SoundEnds(m: Machine, s: seq<K.Slot>, old_: seq<FlatRange>, new_: seq<FlatRange>, top: nat)
    requires Known(m, old_) && Known(m, new_)
    requires Sound(m, s, old_, new_, |DelEvents(old_, new_) + AddEvents(old_, new_)|, top)
    ensures TopsStay(m, old_, new_) ==> InStep(m, s, Keys(new_))
    ensures K.AllDisjoint(s) && Tracks(m, s, Keys(new_)) <==> TopsStay(m, old_, new_)
  {
    HeldLast(old_, new_);
    if !TopsStay(m, old_, new_) { StaleIsWrong(m, s, old_, new_, top); }
  }

  /** The slot at the top that a range which goes had. */
  lemma Start(m: Machine, s: seq<K.Slot>, old_: seq<FlatRange>, new_: seq<FlatRange>, n: nat) returns (top: nat)
    requires Known(m, old_) && Known(m, new_) && InStep(m, s, Keys(old_)) && n == 0
    ensures Sound(m, s, old_, new_, n, top)
  {
    top := 0;
    HeldFirst(old_, new_, n);
    if !TopsStay(m, old_, new_) {
      var gone :| gone in Keys(old_) && AtTop(m, gone) && gone !in Keys(new_);
      KnownKeys(m, old_, gone);
      top := TopSlot(m, s, Keys(old_), gone);
    }
  }
}
