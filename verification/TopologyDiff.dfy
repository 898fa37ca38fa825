/**
 The two passes that tell listeners how one flat view differs from the next
 (memory.c), and a listener that replays them.
 */
module TopologyDiff {
  import opened FlatViews

  datatype Event =
    | RegionDel(fr: FlatRange)
    | RegionAdd(fr: FlatRange)
    | RegionNop(fr: FlatRange)
    | LogStart(fr: FlatRange)
    | LogStop(fr: FlatRange)

  predicate FlatRangeEqual(a: FlatRange, b: FlatRange) {
    && a.mr == b.mr && a.addr == b.addr && a.offset == b.offset
    && a.romd == b.romd && a.readonly == b.readonly
  }

  /** The old range that equals `g` apart from logging, if there is one. */
  function Match(v: seq<FlatRange>, g: FlatRange): Option<FlatRange> {
    if v == [] then None
    else if FlatRangeEqual(v[0], g) then Some(v[0])
    else Match(v[1..], g)
  }

  /** Exactly the old ranges that the new view lacks, in order. */
  function DelEvents(old_: seq<FlatRange>, new_: seq<FlatRange>): seq<Event> {
    if old_ == [] then []
    else
      var f := old_[|old_| - 1];
      DelEvents(old_[..|old_| - 1], new_) + (if Match(new_, f).Some? then [] else [RegionDel(f)])
  }

  /** What the adding pass says about a range that was `f` and is now `g`. */
  function KeptEvents(f: FlatRange, g: FlatRange): seq<Event> {
    if f.logMask != 0 && g.logMask == 0 then [RegionNop(g), LogStop(g)]
    else if g.logMask != 0 && f.logMask == 0 then [RegionNop(g), LogStart(g)]
    else [RegionNop(g)]
  }

  /** What the adding pass says about one new range. */
  function NewEvents(old_: seq<FlatRange>, g: FlatRange): seq<Event> {
    match Match(old_, g)
    case None => [RegionAdd(g)]
    case Some(f) => KeptEvents(f, g)
  }

  /** Every new range once, in ascending order. */
  function AddEvents(old_: seq<FlatRange>, new_: seq<FlatRange>): seq<Event> {
    if new_ == [] then []
    else AddEvents(old_, new_[..|new_| - 1]) + NewEvents(old_, new_[|new_| - 1])
  }

  lemma {:induction false} MatchSome(v: seq<FlatRange>, g: FlatRange) returns (i: nat)
    requires Match(v, g).Some?
    ensures i < |v| && Match(v, g) == Some(v[i]) && FlatRangeEqual(v[i], g)
  {
    if FlatRangeEqual(v[0], g) {
      i := 0;
    } else {
      var k := MatchSome(v[1..], g);
      i := k + 1;
    }
  }

  lemma {:induction false} MatchAt(v: seq<FlatRange>, i: nat, g: FlatRange)
    requires Sorted(v) && i < |v| && FlatRangeEqual(v[i], g)
    ensures Match(v, g) == Some(v[i])
  {
    if i > 0 {
      assert v[0].addr.start < v[i].addr.start;
      assert Sorted(v[1..]);
      MatchAt(v[1..], i - 1, g);
    }
  }

  lemma MatchNone(v: seq<FlatRange>, g: FlatRange)
    requires forall i :: 0 <= i < |v| ==> !FlatRangeEqual(v[i], g)
    ensures Match(v, g) == None
  {
    if Match(v, g).Some? { var i := MatchSome(v, g); }
  }

  /** A range that falls between two neighbours of a sorted view matches nothing in it. */
  lemma MatchBetween(v: seq<FlatRange>, k: nat, f: FlatRange)
    requires Sorted(v) && k <= |v|
    requires k > 0 ==> v[k - 1].addr.start <= f.addr.start && !FlatRangeEqual(v[k - 1], f)
    requires k < |v| ==> f.addr.start <= v[k].addr.start && !FlatRangeEqual(v[k], f)
    ensures Match(v, f) == None
  {
    forall n | 0 <= n < |v| ensures !FlatRangeEqual(v[n], f) {
      if n < k - 1 {
        assert v[n].addr.start < v[k - 1].addr.start;
      } else if n > k {
        assert v[k].addr.start < v[n].addr.start;
      }
    }
    MatchNone(v, f);
  }

  lemma DelStep(old_: seq<FlatRange>, new_: seq<FlatRange>, i: nat)
    requires i < |old_|
    ensures DelEvents(old_[..i + 1], new_) ==
            DelEvents(old_[..i], new_) + (if Match(new_, old_[i]).Some? then [] else [RegionDel(old_[i])])
  {
    assert old_[..i + 1][..i] == old_[..i];
  }

  lemma AddStep(old_: seq<FlatRange>, new_: seq<FlatRange>, j: nat)
    requires j < |new_|
    ensures AddEvents(old_, new_[..j + 1]) == AddEvents(old_, new_[..j]) + NewEvents(old_, new_[j])
  {
    assert new_[..j + 1][..j] == new_[..j];
  }

  /** The cursors are aligned: what lies before one was compared with what the other is about to see. */
  ghost predicate Aligned(old_: seq<FlatRange>, new_: seq<FlatRange>, i: int, j: int) {
    && 0 <= i <= |old_| && 0 <= j <= |new_|
    && (j > 0 && i < |old_| ==> new_[j - 1].addr.start < old_[i].addr.start)
    && (i > 0 && j < |new_| ==>
          old_[i - 1].addr.start <= new_[j].addr.start && !FlatRangeEqual(old_[i - 1], new_[j]))
  }

  ghost function Emitted(old_: seq<FlatRange>, new_: seq<FlatRange>, adding: bool, i: nat, j: nat): seq<Event>
    requires i <= |old_| && j <= |new_|
  {
    if adding then AddEvents(old_, new_[..j]) else DelEvents(old_[..i], new_)
  }

  lemma OldOnly(old_: seq<FlatRange>, new_: seq<FlatRange>, adding: bool, i: nat, j: nat)
    requires Sorted(old_) && Sorted(new_) && Aligned(old_, new_, i, j) && i < |old_|
    requires j < |new_| ==> old_[i].addr.start <= new_[j].addr.start && !FlatRangeEqual(old_[i], new_[j])
    ensures Aligned(old_, new_, i + 1, j)
    ensures Emitted(old_, new_, adding, i + 1, j) ==
            Emitted(old_, new_, adding, i, j) + if adding then [] else [RegionDel(old_[i])]
  {
    MatchBetween(new_, j, old_[i]);
    DelStep(old_, new_, i);
  }

  lemma NewOnly(old_: seq<FlatRange>, new_: seq<FlatRange>, adding: bool, i: nat, j: nat)
    requires Sorted(old_) && Sorted(new_) && Aligned(old_, new_, i, j) && j < |new_|
    requires i < |old_| ==> new_[j].addr.start < old_[i].addr.start
    ensures Aligned(old_, new_, i, j + 1)
    ensures Emitted(old_, new_, adding, i, j + 1) ==
            Emitted(old_, new_, adding, i, j) + if adding then [RegionAdd(new_[j])] else []
  {
    MatchBetween(old_, i, new_[j]);
    AddStep(old_, new_, j);
  }

  lemma InBoth(old_: seq<FlatRange>, new_: seq<FlatRange>, adding: bool, i: nat, j: nat)
    requires Sorted(old_) && Sorted(new_) && i < |old_| && j < |new_| && FlatRangeEqual(old_[i], new_[j])
    ensures Match(old_, new_[j]) == Some(old_[i])
    ensures Aligned(old_, new_, i + 1, j + 1)
    ensures Emitted(old_, new_, adding, i + 1, j + 1) ==
            Emitted(old_, new_, adding, i, j) + if adding then NewEvents(old_, new_[j]) else []
  {
    MatchAt(old_, i, new_[j]);
    MatchAt(new_, j, old_[i]);
    DelStep(old_, new_, i);
    AddStep(old_, new_, j);
  }

  /** The ranges that a pass reports as new or as kept, in order. */
  function Reported(es: seq<Event>): seq<FlatRange> {
    if es == [] then []
    else
      var e := es[|es| - 1];
      Reported(es[..|es| - 1]) + (if e.RegionAdd? || e.RegionNop? then [e.fr] else [])
  }

  lemma {:induction false} ReportedConcat(es: seq<Event>, fs: seq<Event>)
    ensures Reported(es + fs) == Reported(es) + Reported(fs)
    decreases |fs|
  {
    if fs == [] {
      assert es + fs == es;
    } else {
      assert (es + fs)[..|es + fs| - 1] == es + fs[..|fs| - 1];
      ReportedConcat(es, fs[..|fs| - 1]);
    }
  }

  lemma ReportedOne(old_: seq<FlatRange>, g: FlatRange)
    ensures Reported(NewEvents(old_, g)) == [g]
  {
    var es := NewEvents(old_, g);
    assert es[..1][..0] == [] && Reported(es[..1]) == [g];
    if |es| == 2 { assert Reported(es) == Reported(es[..1]); } else { assert es[..1] == es; }
  }

  /** The adding pass reports every range of the new view once, in order. */
  lemma {:induction false} ReportedIsNew(old_: seq<FlatRange>, new_: seq<FlatRange>)
    ensures Reported(AddEvents(old_, new_)) == new_
  {
    if new_ != [] {
      var init, g := new_[..|new_| - 1], new_[|new_| - 1];
      var before, es := AddEvents(old_, init), NewEvents(old_, g);
      assert AddEvents(old_, new_) == before + es;
      assert Reported(before) == init by { ReportedIsNew(old_, init); }
      assert Reported(es) == [g] by { ReportedOne(old_, g); }
      assert Reported(before + es) == init + [g] by { ReportedConcat(before, es); }
      assert init + [g] == new_;
    }
  }

  lemma {:induction false} DelsReportNothing(old_: seq<FlatRange>, new_: seq<FlatRange>)
    ensures Reported(DelEvents(old_, new_)) == []
  {
    if old_ != [] {
      var init, f := old_[..|old_| - 1], old_[|old_| - 1];
      DelsReportNothing(init, new_);
      if Match(new_, f).None? {
        assert DelEvents(old_, new_)[..|DelEvents(old_, new_)| - 1] == DelEvents(init, new_);
      } else {
        assert DelEvents(old_, new_) == DelEvents(init, new_);
      }
    }
  }

  /**
   What the adding pass says: a range is new exactly if the old view lacks it, and kept otherwise; logging starts or
   stops right after the range was reported as kept, and only if it changed.
   */
  lemma {:induction false} AddEventMeans(old_: seq<FlatRange>, new_: seq<FlatRange>, i: nat)
    requires Sorted(old_) && i < |AddEvents(old_, new_)|
    ensures var e := AddEvents(old_, new_)[i];
            match e
            case RegionDel(_) => false
            case RegionAdd(f) => f in new_ && Key(f) !in Keys(old_)
            case RegionNop(f) => f in new_ && Key(f) in Keys(old_)
            case LogStart(f) =>
              i > 0 && AddEvents(old_, new_)[i - 1] == RegionNop(f) && f.logMask != 0 && !Logging(old_, Key(f))
            case LogStop(f) =>
              i > 0 && AddEvents(old_, new_)[i - 1] == RegionNop(f) && f.logMask == 0 && Logging(old_, Key(f))
  {
    var init, g := new_[..|new_| - 1], new_[|new_| - 1];
    var before, es := AddEvents(old_, init), NewEvents(old_, g);
    assert AddEvents(old_, new_) == before + es;
    if i < |before| {
      AddEventMeans(old_, init, i);
      assert i > 0 ==> (before + es)[i - 1] == before[i - 1];
    } else {
      assert (before + es)[i] == es[i - |before|];
      MatchIffKey(old_, g);
      if Match(old_, g).Some? {
        var k := MatchSome(old_, g);
        LoggingAt(old_, k);
        assert Key(old_[k]) == Key(g);
      }
    }
  }

  /**
   One pass of the merge over the two sorted views. The adding pass reports the new view; `AddEventMeans` and
   `DiffReplays` say what else it tells a listener.
   */
  method Pass(old_: seq<FlatRange>, new_: seq<FlatRange>, adding: bool) returns (events: seq<Event>)
    requires Sorted(old_) && Sorted(new_)
    ensures events == if adding then AddEvents(old_, new_) else DelEvents(old_, new_)
    ensures adding ==> Reported(events) == new_
  {
    events := [];
    var i, j := 0, 0;
    while i < |old_| || j < |new_|
      invariant Aligned(old_, new_, i, j) && events == Emitted(old_, new_, adding, i, j)
      decreases |old_| - i + |new_| - j
    {
      if i < |old_| && (j == |new_| || old_[i].addr.start < new_[j].addr.start
                        || (old_[i].addr.start == new_[j].addr.start && !FlatRangeEqual(old_[i], new_[j]))) {
        OldOnly(old_, new_, adding, i, j);
        if !adding { events := events + [RegionDel(old_[i])]; }
        i := i + 1;
      } else if i < |old_| && j < |new_| && FlatRangeEqual(old_[i], new_[j]) {
        InBoth(old_, new_, adding, i, j);
        if adding { events := events + KeptEvents(old_[i], new_[j]); }
        i, j := i + 1, j + 1;
      } else {
        NewOnly(old_, new_, adding, i, j);
        if adding { events := events + [RegionAdd(new_[j])]; }
        j := j + 1;
      }
    }
    assert old_[..i] == old_ && new_[..j] == new_;
    ReportedIsNew(old_, new_);
  }

  /** A range as a listener identifies it: everything but the log mask. */
  function Key(f: FlatRange): FlatRange { f.(logMask := 0) }

  function Keys(v: seq<FlatRange>): set<FlatRange> { set i | 0 <= i < |v| :: Key(v[i]) }

  ghost predicate Logging(v: seq<FlatRange>, k: FlatRange) {
    exists i :: 0 <= i < |v| && Key(v[i]) == k && v[i].logMask != 0
  }

  /** What a listener holds when it mirrors view `v`: the ranges, each with logging on or off. */
  ghost function Mirror(v: seq<FlatRange>): map<FlatRange, bool> {
    map k | k in Keys(v) :: Logging(v, k)
  }

  function Apply(st: map<FlatRange, bool>, e: Event): map<FlatRange, bool> {
    match e
    case RegionDel(f) => st - {Key(f)}
    case RegionAdd(f) => st[Key(f) := f.logMask != 0]
    case RegionNop(f) => st
    case LogStart(f) => if Key(f) in st then st[Key(f) := true] else st
    case LogStop(f) => if Key(f) in st then st[Key(f) := false] else st
  }

  function Replay(st: map<FlatRange, bool>, events: seq<Event>): map<FlatRange, bool> {
    if events == [] then st
    else Apply(Replay(st, events[..|events| - 1]), events[|events| - 1])
  }

  /** No two ranges held by the listener overlap. */
  ghost predicate PairwiseDisjoint(st: map<FlatRange, bool>) {
    forall x, y :: x in st && y in st && x != y ==> !Intersects(x.addr, y.addr)
  }

  lemma {:induction false} ReplayConcat(st: map<FlatRange, bool>, es: seq<Event>, fs: seq<Event>)
    ensures Replay(st, es + fs) == Replay(Replay(st, es), fs)
    decreases |fs|
  {
    if fs == [] {
      assert es + fs == es;
    } else {
      assert (es + fs)[..|es + fs| - 1] == es + fs[..|fs| - 1];
      ReplayConcat(st, es, fs[..|fs| - 1]);
    }
  }

  lemma ReplayThen(st: map<FlatRange, bool>, es: seq<Event>, mid: map<FlatRange, bool>,
                   fs: seq<Event>, end: map<FlatRange, bool>)
    requires Replay(st, es) == mid && Replay(mid, fs) == end
    ensures Replay(st, es + fs) == end
  {
    ReplayConcat(st, es, fs);
  }

  /** One more event changes the ranges held by at most the range of that event. */
  lemma ReplayKeys(st: map<FlatRange, bool>, es: seq<Event>, n: nat)
    requires n < |es|
    ensures var held := Replay(st, es[..n]).Keys;
            Replay(st, es[..n + 1]).Keys == match es[n]
                                            case RegionDel(f) => held - {Key(f)}
                                            case RegionAdd(f) => held + {Key(f)}
                                            case _ => held
  {
    assert es[..n + 1][..n] == es[..n];
  }

  lemma SubsetDisjoint(st: map<FlatRange, bool>, v: seq<FlatRange>)
    requires Sorted(v) && st.Keys <= Keys(v)
    ensures PairwiseDisjoint(st)
  {
    forall x, y | x in st && y in st && x != y ensures !Intersects(x.addr, y.addr) {
      assert x in Keys(v) && y in Keys(v);
      var i :| 0 <= i < |v| && Key(v[i]) == x;
      var j :| 0 <= j < |v| && Key(v[j]) == y;
      assert End(v[i].addr) <= v[j].addr.start || End(v[j].addr) <= v[i].addr.start;
    }
  }

  lemma MatchIffKey(v: seq<FlatRange>, g: FlatRange)
    ensures Match(v, g).Some? <==> Key(g) in Keys(v)
    ensures Match(v, g).Some? <==> exists i :: 0 <= i < |v| && v[i].(logMask := g.logMask) == g
  {
    forall i | 0 <= i < |v| && v[i].(logMask := g.logMask) == g ensures Key(g) in Keys(v) {
      assert Key(v[i]) == Key(g);
    }
    if Match(v, g).Some? {
      var i := MatchSome(v, g);
      assert Key(v[i]) == Key(g);
    } else if Key(g) in Keys(v) {
      var i :| 0 <= i < |v| && Key(v[i]) == Key(g);
      MatchMissed(v, i, g);
    }
  }

  lemma {:induction false} MatchMissed(v: seq<FlatRange>, i: nat, g: FlatRange)
    requires i < |v| && FlatRangeEqual(v[i], g)
    ensures Match(v, g).Some?
  {
    if i > 0 { MatchMissed(v[1..], i - 1, g); }
  }

  lemma LoggingAt(v: seq<FlatRange>, i: nat)
    requires Sorted(v) && i < |v|
    ensures Logging(v, Key(v[i])) <==> v[i].logMask != 0
  {
    forall j | 0 <= j < |v| && j != i ensures Key(v[j]) != Key(v[i]) {
      assert End(v[j].addr) <= v[i].addr.start || End(v[i].addr) <= v[j].addr.start;
    }
  }

  /** After the deletions for the first `n` old ranges the listener lacks exactly those that went. */
  ghost function AfterDels(old_: seq<FlatRange>, new_: seq<FlatRange>, n: nat): map<FlatRange, bool>
    requires n <= |old_|
  {
    map k | k in Keys(old_) && (k in Keys(new_) || k !in Keys(old_[..n])) :: Logging(old_, k)
  }

  lemma {:induction false} ReplayDels(old_: seq<FlatRange>, new_: seq<FlatRange>, n: nat)
    requires n <= |old_|
    ensures Replay(Mirror(old_), DelEvents(old_[..n], new_)) == AfterDels(old_, new_, n)
    decreases n
  {
    if n == 0 {
      assert old_[..0] == [];
    } else {
      var f := old_[n - 1];
      ReplayDels(old_, new_, n - 1);
      DelStep(old_, new_, n - 1);
      MatchIffKey(new_, f);
      AfterDelsStep(old_, new_, n - 1);
      var es, before := DelEvents(old_[..n], new_), DelEvents(old_[..n - 1], new_);
      if Match(new_, f).None? {
        assert es[..|es| - 1] == before;
      } else {
        assert es == before;
      }
    }
  }

  lemma AfterDelsStep(old_: seq<FlatRange>, new_: seq<FlatRange>, n: nat)
    requires n < |old_|
    ensures AfterDels(old_, new_, n + 1) ==
            if Key(old_[n]) in Keys(new_) then AfterDels(old_, new_, n) else AfterDels(old_, new_, n) - {Key(old_[n])}
  {
    KeysStep(old_, n);
  }

  lemma KeysStep(v: seq<FlatRange>, n: nat)
    requires n < |v|
    ensures Keys(v[..n + 1]) == Keys(v[..n]) + {Key(v[n])}
  {
    forall k | k in Keys(v[..n + 1]) ensures k in Keys(v[..n]) + {Key(v[n])} {
      var i :| 0 <= i <= n && Key(v[..n + 1][i]) == k;
      if i < n { assert Key(v[..n][i]) == k; }
    }
    forall k | k in Keys(v[..n]) ensures k in Keys(v[..n + 1]) {
      var i :| 0 <= i < n && Key(v[..n][i]) == k;
      assert Key(v[..n + 1][i]) == k;
    }
    assert Key(v[..n + 1][n]) == Key(v[n]);
  }

  /** After the events for the first `n` new ranges: those ranges, and the kept old ones as they were. */
  ghost function AfterAdds(old_: seq<FlatRange>, new_: seq<FlatRange>, n: nat): map<FlatRange, bool>
    requires n <= |new_|
  {
    map k | k in Keys(old_) * Keys(new_) + Keys(new_[..n]) ::
      if k in Keys(new_[..n]) then Logging(new_, k) else Logging(old_, k)
  }

  lemma KeyNotBefore(v: seq<FlatRange>, n: nat)
    requires Sorted(v) && n < |v|
    ensures Key(v[n]) !in Keys(v[..n])
  {
    forall i | 0 <= i < n ensures Key(v[..n][i]) != Key(v[n]) {
      assert v[i].addr.start < v[n].addr.start;
    }
  }

  lemma AfterAddsStep(old_: seq<FlatRange>, new_: seq<FlatRange>, n: nat)
    requires Sorted(new_) && n < |new_|
    ensures AfterAdds(old_, new_, n + 1) == AfterAdds(old_, new_, n)[Key(new_[n]) := new_[n].logMask != 0]
  {
    KeysStep(new_, n);
    LoggingAt(new_, n);
  }

  /** The events for a kept range leave the listener logging exactly when the new range logs. */
  lemma ReplayKept(st: map<FlatRange, bool>, f: FlatRange, g: FlatRange)
    requires Key(g) in st && st[Key(g)] == (f.logMask != 0)
    ensures Replay(st, KeptEvents(f, g)) == st[Key(g) := g.logMask != 0]
  {
    var es := KeptEvents(f, g);
    assert es[..1] == [RegionNop(g)];
    assert Replay(st, [RegionNop(g)]) == st;
    if |es| == 2 {
      assert Replay(st, es) == Apply(Replay(st, es[..1]), es[1]);
    }
  }

  /** The events for one new range take the listener from one state to the next. */
  lemma AddOne(old_: seq<FlatRange>, new_: seq<FlatRange>, n: nat)
    requires Sorted(old_) && Sorted(new_) && n < |new_|
    ensures Replay(AfterAdds(old_, new_, n), NewEvents(old_, new_[n])) == AfterAdds(old_, new_, n + 1)
  {
    var g, st := new_[n], AfterAdds(old_, new_, n);
    AfterAddsStep(old_, new_, n);
    MatchIffKey(old_, g);
    if Match(old_, g).Some? {
      var i := MatchSome(old_, g);
      LoggingAt(old_, i);
      KeyNotBefore(new_, n);
      assert Key(g) in Keys(new_);
      ReplayKept(st, old_[i], g);
    } else {
      assert Replay(st, [RegionAdd(g)]) == Apply(Replay(st, []), RegionAdd(g));
    }
  }

  lemma ReplayAddStep(old_: seq<FlatRange>, new_: seq<FlatRange>, n: nat, st: map<FlatRange, bool>)
    requires Sorted(old_) && Sorted(new_) && n < |new_|
    requires Replay(st, AddEvents(old_, new_[..n])) == AfterAdds(old_, new_, n)
    ensures Replay(st, AddEvents(old_, new_[..n + 1])) == AfterAdds(old_, new_, n + 1)
  {
    AddStep(old_, new_, n);
    AddOne(old_, new_, n);
    ReplayThen(st, AddEvents(old_, new_[..n]), AfterAdds(old_, new_, n),
               NewEvents(old_, new_[n]), AfterAdds(old_, new_, n + 1));
  }

  lemma {:induction false} ReplayAdds(old_: seq<FlatRange>, new_: seq<FlatRange>, n: nat)
    requires Sorted(old_) && Sorted(new_) && n <= |new_|
    ensures Replay(AfterAdds(old_, new_, 0), AddEvents(old_, new_[..n])) == AfterAdds(old_, new_, n)
    decreases n
  {
    if n == 0 {
      assert new_[..0] == [];
    } else {
      ReplayAdds(old_, new_, n - 1);
      ReplayAddStep(old_, new_, n - 1, AfterAdds(old_, new_, 0));
    }
  }

  lemma BetweenPasses(old_: seq<FlatRange>, new_: seq<FlatRange>)
    ensures AfterDels(old_, new_, |old_|) == AfterAdds(old_, new_, 0)
    ensures AfterAdds(old_, new_, |new_|) == Mirror(new_)
  {
    assert old_[..|old_|] == old_ && new_[..|new_|] == new_;
    assert Keys(new_[..0]) == {};
  }

  /** Replaying both passes turns the mirror of the old view into the mirror of the new one. */
  lemma DiffReplays(old_: seq<FlatRange>, new_: seq<FlatRange>)
    requires Sorted(old_) && Sorted(new_)
    ensures Replay(Mirror(old_), DelEvents(old_, new_) + AddEvents(old_, new_)) == Mirror(new_)
  {
    assert old_[..|old_|] == old_ && new_[..|new_|] == new_ && new_[..0] == [];
    ReplayDels(old_, new_, |old_|);
    ReplayAdds(old_, new_, |new_|);
    BetweenPasses(old_, new_);
    ReplayConcat(Mirror(old_), DelEvents(old_, new_), AddEvents(old_, new_));
  }

  predicate AllDels(events: seq<Event>) { forall i :: 0 <= i < |events| ==> events[i].RegionDel? }

  lemma {:induction false} DelEventsAreDels(old_: seq<FlatRange>, new_: seq<FlatRange>)
    ensures AllDels(DelEvents(old_, new_))
  {
    if old_ != [] { DelEventsAreDels(old_[..|old_| - 1], new_); }
  }

  /** Deletions only shrink what the listener holds. */
  lemma {:induction false} DelsShrink(st: map<FlatRange, bool>, es: seq<Event>)
    requires AllDels(es)
    ensures Replay(st, es).Keys <= st.Keys
  {
    if es != [] { DelsShrink(st, es[..|es| - 1]); }
  }

  lemma {:induction false} AddsStayInNew(st: map<FlatRange, bool>, es: seq<Event>, new_: seq<FlatRange>)
    requires st.Keys <= Keys(new_)
    requires forall i :: 0 <= i < |es| ==> !es[i].RegionDel? && es[i].fr in new_
    ensures Replay(st, es).Keys <= Keys(new_)
  {
    if es != [] {
      AddsStayInNew(st, es[..|es| - 1], new_);
      var i :| 0 <= i < |new_| && new_[i] == es[|es| - 1].fr;
      assert Key(new_[i]) in Keys(new_);
    }
  }

  lemma {:induction false} AddEventsFromNew(old_: seq<FlatRange>, new_: seq<FlatRange>)
    ensures forall e :: e in AddEvents(old_, new_) ==> !e.RegionDel? && e.fr in new_
  {
    if new_ != [] { AddEventsFromNew(old_, new_[..|new_| - 1]); }
  }

  /** After every single event the listener's ranges are pairwise disjoint. */
  lemma DiffKeepsDisjoint(old_: seq<FlatRange>, new_: seq<FlatRange>, n: nat)
    requires Sorted(old_) && Sorted(new_) && n <= |DelEvents(old_, new_) + AddEvents(old_, new_)|
    ensures PairwiseDisjoint(Replay(Mirror(old_), (DelEvents(old_, new_) + AddEvents(old_, new_))[..n]))
  {
    var dels, adds := DelEvents(old_, new_), AddEvents(old_, new_);
    DelEventsAreDels(old_, new_);
    if n <= |dels| {
      assert (dels + adds)[..n] == dels[..n];
      DelsShrink(Mirror(old_), dels[..n]);
      SubsetDisjoint(Replay(Mirror(old_), dels[..n]), old_);
    } else {
      var es := adds[..n - |dels|];
      assert (dels + adds)[..n] == dels + es;
      ReplayConcat(Mirror(old_), dels, es);
      assert old_[..|old_|] == old_;
      ReplayDels(old_, new_, |old_|);
      AddEventsFromNew(old_, new_);
      AddsStayInNew(AfterDels(old_, new_, |old_|), es, new_);
      SubsetDisjoint(Replay(Mirror(old_), dels + es), new_);
    }
  }

  /** Whatever is said before the last range is about a range that starts before it. */
  lemma StartsBefore(old_: seq<FlatRange>, new_: seq<FlatRange>, i: nat)
    requires Sorted(new_) && new_ != [] && i < |AddEvents(old_, new_[..|new_| - 1])|
    ensures AddEvents(old_, new_[..|new_| - 1])[i].fr.addr.start < new_[|new_| - 1].addr.start
  {
    var init := new_[..|new_| - 1];
    var before := AddEvents(old_, init);
    AddEventsFromNew(old_, init);
    assert before[i] in before;
    var k :| 0 <= k < |init| && init[k] == before[i].fr;
    assert new_[k].addr.start < new_[|new_| - 1].addr.start;
  }

  /** Adds and nops come in ascending address order. */
  lemma {:induction false} AddEventsAscend(old_: seq<FlatRange>, new_: seq<FlatRange>, i: nat, j: nat)
    requires Sorted(new_) && i <= j < |AddEvents(old_, new_)|
    ensures AddEvents(old_, new_)[i].fr.addr.start <= AddEvents(old_, new_)[j].fr.addr.start
  {
    var init, last := new_[..|new_| - 1], new_[|new_| - 1];
    var before, es := AddEvents(old_, init), NewEvents(old_, last);
    assert AddEvents(old_, new_) == before + es;
    if j < |before| {
      AddEventsAscend(old_, init, i, j);
    } else {
      assert (before + es)[j] == es[j - |before|] && es[j - |before|].fr == last;
      if i < |before| {
        StartsBefore(old_, new_, i);
      } else {
        assert (before + es)[i] == es[i - |before|] && es[i - |before|].fr == last;
      }
    }
  }

  /** Only ranges that the old view lacks are announced as new. */
  lemma {:induction false} AddsAreNew(old_: seq<FlatRange>, new_: seq<FlatRange>)
    ensures forall e :: e in AddEvents(old_, new_) && e.RegionAdd? ==> Key(e.fr) !in Keys(old_)
  {
    if new_ != [] {
      AddsAreNew(old_, new_[..|new_| - 1]);
      MatchIffKey(old_, new_[|new_| - 1]);
    }
  }

  /** No range is announced as new twice. */
  lemma {:induction false} AddedOnce(old_: seq<FlatRange>, new_: seq<FlatRange>, i: nat, j: nat)
    requires Sorted(new_) && i < j < |AddEvents(old_, new_)|
    requires AddEvents(old_, new_)[i].RegionAdd? && AddEvents(old_, new_)[j].RegionAdd?
    ensures AddEvents(old_, new_)[i].fr.addr.start < AddEvents(old_, new_)[j].fr.addr.start
  {
    var init, last := new_[..|new_| - 1], new_[|new_| - 1];
    var before, es := AddEvents(old_, init), NewEvents(old_, last);
    assert AddEvents(old_, new_) == before + es;
    if j < |before| {
      AddedOnce(old_, init, i, j);
    } else {
      assert (before + es)[j] == es[j - |before|] && es[j - |before|].fr == last;
      assert i < |before| && (before + es)[i] == before[i];
      StartsBefore(old_, new_, i);
    }
  }

  /** A range that the old view lacks is announced as new. */
  lemma {:induction false} AddHappens(old_: seq<FlatRange>, new_: seq<FlatRange>, k: FlatRange) returns (i: nat)
    requires k in Keys(new_) && k !in Keys(old_)
    ensures i < |AddEvents(old_, new_)| && AddEvents(old_, new_)[i].RegionAdd? && Key(AddEvents(old_, new_)[i].fr) == k
  {
    var n := |new_| - 1;
    assert new_ != [];
    var before, es := AddEvents(old_, new_[..n]), NewEvents(old_, new_[n]);
    assert AddEvents(old_, new_) == before + es;
    assert new_[..n + 1] == new_;
    KeysStep(new_, n);
    if k in Keys(new_[..n]) {
      i := AddHappens(old_, new_[..n], k);
      assert (before + es)[i] == before[i];
    } else {
      MatchIffKey(old_, new_[n]);
      i := |before|;
      assert (before + es)[i] == es[0];
    }
  }

  /** Only ranges of the old view that the new one lacks are taken out. */
  lemma {:induction false} DelsAreGone(old_: seq<FlatRange>, new_: seq<FlatRange>)
    ensures forall e :: e in DelEvents(old_, new_) ==> Key(e.fr) in Keys(old_) && Key(e.fr) !in Keys(new_)
  {
    if old_ != [] {
      var n := |old_| - 1;
      DelsAreGone(old_[..n], new_);
      MatchIffKey(new_, old_[n]);
      assert old_[..n + 1] == old_;
      KeysStep(old_, n);
    }
  }
}
