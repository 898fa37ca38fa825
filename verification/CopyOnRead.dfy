/**
 The request protocol of the block layer (block.c): requests on one device as
 interleaved steps that yield only while waiting or while the driver works, one
 sector at a time. Copy-on-read requests are kept apart from every other
 request on the same clusters, so their write-back is invisible to the guest.
 */
module CopyOnRead {
  import opened Arithmetic

  type Sector = nat
  type Data = nat
  type Buffer = map<Sector, Data>

  datatype Pc =
    | New                                        // entered, counted, not yet past the wait
    | Blocked(on: nat)                           // in the wait queue of a tracked request
    | Woken                                      // released, about to look again
    | Query                                      // tracked from here to Storing
    | Reading(got: Buffer)
    | Fetching(got: Buffer)
    | Storing(todo: set<Sector>, bounce: Buffer)
    | Writing(todo: set<Sector>)
    | Leaving(ok: bool)                          // untracked, not yet uncounted

  datatype Request = Request(cor: bool, write: bool, sector: Sector, nb: nat, data: Buffer, pc: Pc)
  {
    predicate Tracked() { pc.Query? || pc.Reading? || pc.Fetching? || pc.Storing? || pc.Writing? }
    predicate Covers(s: Sector) { sector <= s < sector + nb }
  }

  datatype State = State(c: nat, backing: Sector -> Data, initial: Sector -> Data, overlay: Buffer,
                         written: Buffer, reqs: map<nat, Request>, inflight: int)

  /** What the guest reads: the image where it is allocated, the backing chain elsewhere. */
  function Visible(st: State, s: Sector): Data {
    if s in st.overlay then st.overlay[s] else st.backing(s)
  }

  /** What the guest should read: the initial contents with the guest's own writes applied. */
  function Expected(st: State, s: Sector): Data {
    if s in st.written then st.written[s] else st.initial(s)
  }

  /** The request rounded to cluster boundaries: first sector and number of sectors. */
  function RoundToClusters(sector: Sector, nb: nat, c: nat): (nat, nat)
    requires c >= 1
  {
    var first := AlignDown(sector, c);
    AlignFacts(sector, c);
    (first, AlignUp(sector - first + nb, c))
  }

  lemma AlignFacts(n: nat, m: nat)
    requires m >= 1
    ensures AlignDown(n, m) <= n < AlignDown(n, m) + m
  {
  }

  predicate InRounded(r: Request, c: nat, s: Sector)
    requires c >= 1
  {
    var (first, n) := RoundToClusters(r.sector, r.nb, c);
    first <= s < first + n
  }

  predicate Overlaps(r: Request, sector: Sector, nb: nat) {
    !(sector >= r.sector + r.nb) && !(r.sector >= sector + nb)
  }

  function FirstCluster(r: Request, c: nat): nat
    requires c >= 1
  {
    r.sector / c
  }

  function LastCluster(r: Request, c: nat): int
    requires c >= 1
  {
    (r.sector + r.nb - 1) / c
  }

  /** No cluster is touched by both requests. */
  predicate Apart(r: Request, q: Request, c: nat)
    requires c >= 1
  {
    LastCluster(r, c) < FirstCluster(q, c) || LastCluster(q, c) < FirstCluster(r, c)
  }

  lemma DivLess(x: nat, k: nat, c: nat)
    requires c >= 1
    ensures x < k * c <==> x / c < k
  {
    var d := x / c;
    assert d * c <= x < d * c + c;
    if d < k {
      assert (d + 1) * c <= k * c by { MulLe(d + 1, k, c); }
    } else {
      MulLe(k, d, c);
    }
  }

  /** Rounding covers exactly the clusters the request touches. */
  lemma RoundedEnds(r: Request, c: nat)
    requires c >= 1 && r.nb >= 1
    ensures var (first, n) := RoundToClusters(r.sector, r.nb, c);
            first == FirstCluster(r, c) * c && first + n == (LastCluster(r, c) + 1) * c
  {
    var f := r.sector / c;
    var first := f * c;
    var x := r.sector - first + r.nb;
    assert r.sector + r.nb - 1 == f * c + (x - 1);
    assert (f * c + (x - 1)) / c == f + (x - 1) / c by { DivShift(x - 1, f, c); }
    assert (x + c - 1) / c == (x - 1) / c + 1 by { DivShift(x - 1, 1, c); }
    var k := (x - 1) / c;
    assert (f + k + 1) * c == f * c + (k + 1) * c;
  }

  lemma DivShift(x: nat, k: nat, c: nat)
    requires c >= 1
    ensures (x + k * c) / c == x / c + k
  {
    var d := x / c;
    assert (d + k) * c == d * c + k * c;
    DivLess(x + k * c, d + k + 1, c);
    DivLess(x + k * c, d + k, c);
    assert (d + k + 1) * c == (d + k) * c + c;
  }

  /** The test of the wait loop is exactly that the two requests share a cluster. */
  lemma OverlapIffSharedCluster(q: Request, r: Request, c: nat)
    requires c >= 1 && q.nb >= 1 && r.nb >= 1
    ensures var (first, n) := RoundToClusters(r.sector, r.nb, c); Overlaps(q, first, n) <==> !Apart(q, r, c)
  {
    var (first, n) := RoundToClusters(r.sector, r.nb, c);
    var lo, hi := FirstCluster(r, c), LastCluster(r, c);
    assert first == lo * c && first + n == (hi + 1) * c by { RoundedEnds(r, c); }
    DivEnds(q.sector, q.sector + q.nb - 1, first, first + n, lo, hi, c);
  }

  lemma DivEnds(x: nat, y: nat, first: int, end: int, lo: nat, hi: nat, c: nat)
    requires c >= 1 && first == lo * c && end == (hi + 1) * c
    ensures (x < end <==> x / c <= hi) && (y < first <==> y / c < lo)
  {
    DivLess(x, hi + 1, c);
    DivLess(y, lo, c);
  }

  /** A request kept apart writes no sector of the other one's clusters. */
  lemma ApartSectors(q: Request, r: Request, c: nat, s: Sector)
    requires c >= 1 && q.nb >= 1 && r.nb >= 1 && Apart(q, r, c) && q.Covers(s)
    ensures !InRounded(r, c, s)
  {
    InRoundedIff(r, c, s);
    DivMono(q.sector, s, c);
    DivMono(s, q.sector + q.nb - 1, c);
  }

  lemma InRoundedIff(r: Request, c: nat, s: Sector)
    requires c >= 1 && r.nb >= 1
    ensures InRounded(r, c, s) <==> FirstCluster(r, c) <= s / c <= LastCluster(r, c)
  {
    var (first, n) := RoundToClusters(r.sector, r.nb, c);
    var lo, hi := FirstCluster(r, c), LastCluster(r, c);
    assert first == lo * c && first + n == (hi + 1) * c by { RoundedEnds(r, c); }
    DivBetween(s, first, first + n, lo, hi, c);
  }

  lemma DivBetween(x: nat, first: int, end: int, lo: nat, hi: nat, c: nat)
    requires c >= 1 && first == lo * c && end == (hi + 1) * c
    ensures first <= x < end <==> lo <= x / c <= hi
  {
    DivLess(x, hi + 1, c);
    DivLess(x, lo, c);
  }

  lemma DivMono(x: nat, y: nat, c: nat)
    requires c >= 1 && x <= y
    ensures x / c <= y / c
  {
    DivLess(y, y / c + 1, c);
    DivLess(x, y / c + 1, c);
  }

  lemma CoversRounded(r: Request, c: nat, s: Sector)
    requires c >= 1 && r.nb >= 1 && r.Covers(s)
    ensures InRounded(r, c, s)
  {
    InRoundedIff(r, c, s);
    DivMono(r.sector, s, c);
    DivMono(s, r.sector + r.nb - 1, c);
  }

  datatype Step =
    | Enter(id: nat, req: Request)
    | Admit(id: nat)
    | Block(id: nat, on: nat)
    | Answer(id: nat, present: bool)
    | Fetch(id: nat, s: Sector)
    | Turn(id: nat)
    | Store(id: nat, s: Sector)
    | Write(id: nat, s: Sector)
    | Allocate(s: Sector)
    | Finish(id: nat, ok: bool)
    | Leave(id: nat)

  /** Some tracked request shares a cluster with `r`, by the test of the wait loop. */
  ghost predicate MustWait(st: State, r: Request)
    requires st.c >= 1
  {
    var (first, n) := RoundToClusters(r.sector, r.nb, st.c);
    exists id :: id in st.reqs && st.reqs[id].Tracked() && Overlaps(st.reqs[id], first, n)
  }

  function Span(lo: Sector, n: nat): (r: set<Sector>)
    ensures forall s :: s in r <==> lo <= s < lo + n
  {
    if n == 0 then {} else Span(lo, n - 1) + {lo + n - 1}
  }

  function ClusterSectors(r: Request, c: nat): set<Sector>
    requires c >= 1
  {
    var (first, n) := RoundToClusters(r.sector, r.nb, c);
    Span(first, n)
  }

  /** The request has done all its driver work. */
  ghost predicate Complete(r: Request) {
    match r.pc
    case Reading(got) => forall s: Sector :: r.Covers(s) ==> s in got
    case Storing(todo, _) => todo == {}
    case Writing(todo) => todo == {}
    case _ => false
  }

  ghost predicate Enabled(st: State, step: Step)
    requires st.c >= 1
  {
    match step
    case Enter(id, r) =>
      id !in st.reqs && r.pc.New? && r.nb >= 1 && !(r.cor && r.write) &&
      (r.write ==> forall s: Sector :: r.Covers(s) ==> s in r.data)
    case Admit(id) =>
      id in st.reqs &&
      ((st.reqs[id].pc.New? && st.inflight == 0) ||
       ((st.reqs[id].pc.New? || st.reqs[id].pc.Woken?) && !MustWait(st, st.reqs[id])))
    case Block(id, on) =>
      id in st.reqs && on in st.reqs && st.reqs[on].Tracked() &&
      ((st.reqs[id].pc.New? && st.inflight != 0) || st.reqs[id].pc.Woken?) &&
      var (first, n) := RoundToClusters(st.reqs[id].sector, st.reqs[id].nb, st.c);
      Overlaps(st.reqs[on], first, n)
    case Answer(id, present) =>
      id in st.reqs && st.reqs[id].pc.Query? &&
      (present ==> forall s: Sector :: st.reqs[id].Covers(s) ==> s in st.overlay)
    case Fetch(id, s) =>
      id in st.reqs && ((st.reqs[id].pc.Reading? && st.reqs[id].Covers(s)) ||
                        (st.reqs[id].pc.Fetching? && InRounded(st.reqs[id], st.c, s)))
    case Turn(id) =>
      id in st.reqs && st.reqs[id].pc.Fetching? &&
      forall s: Sector :: InRounded(st.reqs[id], st.c, s) ==> s in st.reqs[id].pc.got
    case Store(id, s) =>
      id in st.reqs && st.reqs[id].pc.Storing? && s in st.reqs[id].pc.todo && s in st.reqs[id].pc.bounce
    case Write(id, s) =>
      id in st.reqs && st.reqs[id].pc.Writing? && s in st.reqs[id].pc.todo && s in st.reqs[id].data
    case Allocate(s) => true
    case Finish(id, ok) => id in st.reqs && st.reqs[id].Tracked() && (ok ==> Complete(st.reqs[id]))
    case Leave(id) => id in st.reqs && st.reqs[id].pc.Leaving?
  }

  function SetPc(st: State, id: nat, pc: Pc): State
    requires id in st.reqs
  {
    st.(reqs := st.reqs[id := st.reqs[id].(pc := pc)])
  }

  /** The first thing a request does once it is tracked. */
  function StartPc(r: Request): Pc {
    if r.write then Writing(Span(r.sector, r.nb))
    else if r.cor then Query
    else Reading(map[])
  }

  /** Every request waiting for `id` is released. */
  function Wake(reqs: map<nat, Request>, id: nat): map<nat, Request> {
    map x | x in reqs :: if reqs[x].pc == Blocked(id) then reqs[x].(pc := Woken) else reqs[x]
  }

  ghost function Apply(st: State, step: Step): State
    requires st.c >= 1 && Enabled(st, step)
  {
    match step
    case Enter(id, r) => st.(reqs := st.reqs[id := r], inflight := st.inflight + if r.cor then 1 else 0)
    case Admit(id) => SetPc(st, id, StartPc(st.reqs[id]))
    case Block(id, on) => SetPc(st, id, Blocked(on))
    case Answer(id, present) => SetPc(st, id, if present then Reading(map[]) else Fetching(map[]))
    case Fetch(id, s) =>
      var got := st.reqs[id].pc.got[s := Visible(st, s)];
      SetPc(st, id, if st.reqs[id].pc.Reading? then Reading(got) else Fetching(got))
    case Turn(id) => SetPc(st, id, Storing(ClusterSectors(st.reqs[id], st.c), st.reqs[id].pc.got))
    case Store(id, s) =>
      var pc := st.reqs[id].pc;
      SetPc(st, id, pc.(todo := pc.todo - {s})).(overlay := st.overlay[s := pc.bounce[s]])
    case Write(id, s) =>
      var pc, d := st.reqs[id].pc, st.reqs[id].data[s];
      SetPc(st, id, Writing(pc.todo - {s})).(overlay := st.overlay[s := d], written := st.written[s := d])
    case Allocate(s) => st.(overlay := st.overlay[s := Visible(st, s)])
    case Finish(id, ok) =>
      var st1 := SetPc(st, id, Leaving(ok));
      st1.(reqs := Wake(st1.reqs, id))
    case Leave(id) =>
      st.(reqs := st.reqs - {id}, inflight := st.inflight - if st.reqs[id].cor then 1 else 0)
  }

  function CorRequests(st: State): set<nat> { CorOf(st.reqs) }

  function CorOf(reqs: map<nat, Request>): set<nat> { set id | id in reqs && reqs[id].cor }

  lemma CorOfAdd(reqs: map<nat, Request>, id: nat, r: Request)
    requires id !in reqs
    ensures CorOf(reqs[id := r]) == CorOf(reqs) + if r.cor then {id} else {}
  {
  }

  lemma CorOfSame(reqs: map<nat, Request>, reqs2: map<nat, Request>)
    requires reqs.Keys == reqs2.Keys && forall x :: x in reqs ==> reqs2[x].cor == reqs[x].cor
    ensures CorOf(reqs2) == CorOf(reqs)
  {
  }

  /** The buffer holds what the guest sees now, of sectors in the request's clusters. */
  ghost predicate Fresh(st: State, r: Request, got: Buffer)
    requires st.c >= 1
  {
    forall s :: s in got ==> InRounded(r, st.c, s) && got[s] == Visible(st, s)
  }

  /** The image holds every sector of the request. */
  ghost predicate CoveredHeld(st: State, r: Request) {
    forall s: Sector :: r.Covers(s) ==> s in st.overlay
  }

  /**
   A request is well-formed; if it is a tracked copy-on-read, its buffer holds what the guest sees, and the image
   holds what it need not or no longer has to store.
   */
  ghost predicate RequestOk(st: State, id: nat)
    requires id in st.reqs && st.c >= 1
  {
    var r := st.reqs[id];
    && r.nb >= 1 && !(r.cor && r.write)
    && (r.write ==> forall s: Sector :: r.Covers(s) ==> s in r.data)
    && (r.pc.Blocked? ==> r.pc.on in st.reqs && st.reqs[r.pc.on].Tracked())
    && match r.pc
       case Query => r.cor
       case Reading(got) => !r.write && (r.cor ==> Fresh(st, r, got) && CoveredHeld(st, r))
       case Fetching(got) => r.cor && Fresh(st, r, got)
       case Storing(todo, bounce) =>
         && r.cor && (forall s: Sector :: InRounded(r, st.c, s) ==> s in bounce)
         && (forall s :: s in todo ==> InRounded(r, st.c, s)) && Fresh(st, r, bounce)
         && (forall s: Sector :: InRounded(r, st.c, s) ==> s in todo || s in st.overlay)
       case Writing(todo) => r.write && forall s :: s in todo ==> r.Covers(s)
       case Leaving(ok) => r.cor && ok ==> CoveredHeld(st, r)
       case _ => true
  }

  /** While a copy-on-read is tracked, no other tracked request touches a cluster it touches. */
  ghost predicate Exclusive(st: State, x: nat, y: nat)
    requires x in st.reqs && y in st.reqs && st.c >= 1
  {
    x != y && st.reqs[x].Tracked() && st.reqs[y].Tracked() && st.reqs[x].cor ==> Apart(st.reqs[x], st.reqs[y], st.c)
  }

  ghost predicate RequestsOk(st: State)
    requires st.c >= 1
  {
    forall id {:trigger RequestOk(st, id)} :: id in st.reqs ==> RequestOk(st, id)
  }

  ghost predicate AllExclusive(st: State)
    requires st.c >= 1
  {
    forall x, y {:trigger Exclusive(st, x, y)} :: x in st.reqs && y in st.reqs ==> Exclusive(st, x, y)
  }

  /** The guest sees what it should see. */
  ghost predicate SeesExpected(st: State) {
    forall s: Sector {:trigger Visible(st, s)} :: Visible(st, s) == Expected(st, s)
  }

  ghost predicate Inv(st: State) {
    st.c >= 1 && st.inflight == |CorRequests(st)| && RequestsOk(st) && AllExclusive(st) && SeesExpected(st)
  }

  /** Two requests may be tracked together. */
  ghost predicate Compatible(st: State, id: nat, y: nat)
    requires id in st.reqs && y in st.reqs && st.c >= 1
  {
    st.reqs[id].cor || st.reqs[y].cor ==> Apart(st.reqs[id], st.reqs[y], st.c)
  }

  /** A request that did not change stays well-formed while nothing the guest sees changes. */
  lemma RequestFrame(st: State, st2: State, x: nat)
    requires st.c >= 1 && st2.c == st.c && st2.overlay == st.overlay && st2.backing == st.backing
    requires x in st.reqs && x in st2.reqs && st2.reqs[x] == st.reqs[x] && RequestOk(st, x)
    requires st.reqs[x].pc.Blocked? ==> st.reqs[x].pc.on in st2.reqs && st2.reqs[st.reqs[x].pc.on].Tracked()
    ensures RequestOk(st2, x)
  {
    assert forall s: Sector {:trigger Visible(st2, s)} :: Visible(st2, s) == Visible(st, s);
  }

  /** What the guest sees and should see depends only on these. */
  lemma VisibleFrame(st: State, st2: State)
    requires Inv(st) && st2.overlay == st.overlay && st2.backing == st.backing
    requires st2.written == st.written && st2.initial == st.initial
    ensures SeesExpected(st2)
  {
    forall s: Sector ensures Visible(st2, s) == Expected(st2, s) { assert Visible(st, s) == Expected(st, s); }
  }

  /** A new phase of one request keeps the invariant if that request stays well-formed and exclusive. */
  lemma PhaseStep(st: State, id: nat, pc: Pc)
    requires Inv(st) && id in st.reqs && RequestOk(SetPc(st, id, pc), id)
    requires st.reqs[id].Tracked() ==> SetPc(st, id, pc).reqs[id].Tracked()
    requires SetPc(st, id, pc).reqs[id].Tracked() && !st.reqs[id].Tracked() ==> CompatibleWithAll(st, id)
    ensures Inv(SetPc(st, id, pc))
  {
    var st2 := SetPc(st, id, pc);
    CorOfSame(st.reqs, st2.reqs);
    VisibleFrame(st, st2);
    forall x | x in st2.reqs ensures RequestOk(st2, x) {
      if x != id {
        assert RequestOk(st, x);
        RequestFrame(st, st2, x);
      }
    }
    PhaseExclusive(st, st2, id, pc);
  }

  ghost predicate CompatibleWithAll(st: State, id: nat)
    requires id in st.reqs && st.c >= 1
  {
    forall y {:trigger Compatible(st, id, y)} ::
      y in st.reqs && y != id && st.reqs[y].Tracked() ==> Compatible(st, id, y)
  }

  lemma PhaseExclusive(st: State, st2: State, id: nat, pc: Pc)
    requires st.c >= 1 && AllExclusive(st) && id in st.reqs && st2 == SetPc(st, id, pc)
    requires st2.reqs[id].Tracked() && !st.reqs[id].Tracked() ==> CompatibleWithAll(st, id)
    ensures AllExclusive(st2)
  {
    forall x, y | x in st2.reqs && y in st2.reqs ensures Exclusive(st2, x, y) {
      assert Exclusive(st, x, y);
      if !st.reqs[id].Tracked() && st2.reqs[id].Tracked() {
        assert x == id && y != id && st.reqs[y].Tracked() ==> Compatible(st, id, y);
        assert y == id && x != id && st.reqs[x].Tracked() ==> Compatible(st, id, x);
      }
    }
  }

  lemma AdmitStep(st: State, id: nat)
    requires Inv(st) && Enabled(st, Admit(id))
    ensures Inv(Apply(st, Admit(id))) && Apply(st, Admit(id)).reqs[id].Tracked()
  {
    var r := st.reqs[id];
    assert RequestOk(st, id);
    forall y | y in st.reqs && y != id && st.reqs[y].Tracked() ensures Compatible(st, id, y) {
      assert RequestOk(st, y);
      if MustWait(st, r) {
        assert CorRequests(st) == {};
        assert r.cor ==> id in CorRequests(st);
        assert st.reqs[y].cor ==> y in CorRequests(st);
      } else {
        OverlapIffSharedCluster(st.reqs[y], r, st.c);
      }
    }
    PhaseStep(st, id, StartPc(r));
  }

  lemma BlockStep(st: State, id: nat, on: nat)
    requires Inv(st) && Enabled(st, Block(id, on))
    ensures Inv(Apply(st, Block(id, on)))
  {
    assert RequestOk(st, id);
    PhaseStep(st, id, Blocked(on));
  }

  lemma AnswerStep(st: State, id: nat, present: bool)
    requires Inv(st) && Enabled(st, Answer(id, present))
    ensures Inv(Apply(st, Answer(id, present)))
  {
    assert RequestOk(st, id);
    PhaseStep(st, id, if present then Reading(map[]) else Fetching(map[]));
  }

  lemma FetchStep(st: State, id: nat, s: Sector)
    requires Inv(st) && Enabled(st, Fetch(id, s))
    ensures Inv(Apply(st, Fetch(id, s)))
  {
    assert RequestOk(st, id);
    var r := st.reqs[id];
    if r.Covers(s) { CoversRounded(r, st.c, s); }
    var got := r.pc.got[s := Visible(st, s)];
    PhaseStep(st, id, if r.pc.Reading? then Reading(got) else Fetching(got));
  }

  lemma TurnStep(st: State, id: nat)
    requires Inv(st) && Enabled(st, Turn(id))
    ensures Inv(Apply(st, Turn(id)))
    ensures forall s: Sector :: InRounded(st.reqs[id], st.c, s) ==> s in Apply(st, Turn(id)).reqs[id].pc.todo
  {
    assert RequestOk(st, id);
    PhaseStep(st, id, Storing(ClusterSectors(st.reqs[id], st.c), st.reqs[id].pc.got));
  }

  lemma EnterStep(st: State, id: nat, r: Request)
    requires Inv(st) && Enabled(st, Enter(id, r))
    ensures Inv(Apply(st, Enter(id, r)))
    ensures id in Apply(st, Enter(id, r)).reqs && Apply(st, Enter(id, r)).reqs[id] == r
  {
    Entered(st, Apply(st, Enter(id, r)), id, r);
  }

  /** A new request is well-formed and not tracked yet. */
  lemma Entered(st: State, st2: State, id: nat, r: Request)
    requires Inv(st) && id !in st.reqs && r.pc.New? && r.nb >= 1 && !(r.cor && r.write)
    requires r.write ==> forall s: Sector :: r.Covers(s) ==> s in r.data
    requires st2 == st.(reqs := st.reqs[id := r], inflight := st.inflight + if r.cor then 1 else 0)
    ensures Inv(st2)
  {
    CorOfAdd(st.reqs, id, r);
    VisibleFrame(st, st2);
    EnteredRequests(st, st2, id, r);
    EnteredExclusive(st, st2, id, r);
  }

  lemma EnteredRequests(st: State, st2: State, id: nat, r: Request)
    requires st.c >= 1 && RequestsOk(st) && id !in st.reqs && r.pc.New? && r.nb >= 1 && !(r.cor && r.write)
    requires r.write ==> forall s: Sector :: r.Covers(s) ==> s in r.data
    requires st2.reqs == st.reqs[id := r] && st2.c == st.c && st2.overlay == st.overlay && st2.backing == st.backing
    ensures RequestsOk(st2)
  {
    forall x | x in st2.reqs ensures RequestOk(st2, x) {
      if x != id {
        assert RequestOk(st, x);
        RequestFrame(st, st2, x);
      }
    }
  }

  lemma EnteredExclusive(st: State, st2: State, id: nat, r: Request)
    requires st.c >= 1 && AllExclusive(st) && r.pc.New? && st2.reqs == st.reqs[id := r] && st2.c == st.c
    ensures AllExclusive(st2)
  {
    forall x, y | x in st2.reqs && y in st2.reqs ensures Exclusive(st2, x, y) {
      if x != id && y != id { assert Exclusive(st, x, y); }
    }
  }

  /** A copy-on-read that has done its work left every sector it covers in the image. */
  lemma CompleteIsHeld(st: State, id: nat)
    requires st.c >= 1 && id in st.reqs && RequestOk(st, id) && Complete(st.reqs[id]) && st.reqs[id].cor
    ensures CoveredHeld(st, st.reqs[id])
  {
    forall s: Sector | st.reqs[id].Covers(s) ensures s in st.overlay { CoversRounded(st.reqs[id], st.c, s); }
  }

  /** What becomes of request `x` when request `id` finishes. */
  lemma FinishOne(st: State, id: nat, ok: bool, x: nat)
    requires Inv(st) && Enabled(st, Finish(id, ok)) && x in st.reqs
    ensures var st2 := Apply(st, Finish(id, ok));
            && x in st2.reqs && st2.reqs[x].cor == st.reqs[x].cor && RequestOk(st2, x)
            && (st2.reqs[x].Tracked() ==> st2.reqs[x] == st.reqs[x])
  {
    assert RequestOk(st, x);
    var st2 := Apply(st, Finish(id, ok));
    if x == id && ok && st.reqs[id].cor { CompleteIsHeld(st, id); }
    if x != id && st.reqs[x].pc != Blocked(id) {
      assert st2.reqs[x] == st.reqs[x];
      if st.reqs[x].pc.Blocked? { assert st2.reqs[st.reqs[x].pc.on] == st.reqs[st.reqs[x].pc.on]; }
      RequestFrame(st, st2, x);
    }
  }

  lemma FinishStep(st: State, id: nat, ok: bool)
    requires Inv(st) && Enabled(st, Finish(id, ok))
    ensures Inv(Apply(st, Finish(id, ok)))
  {
    var st2 := Apply(st, Finish(id, ok));
    forall x | x in st2.reqs ensures x in st.reqs && st2.reqs[x].cor == st.reqs[x].cor && RequestOk(st2, x) {
      FinishOne(st, id, ok, x);
    }
    CorOfSame(st.reqs, st2.reqs);
    VisibleFrame(st, st2);
    forall x, y | x in st2.reqs && y in st2.reqs ensures Exclusive(st2, x, y) {
      assert Exclusive(st, x, y);
      FinishOne(st, id, ok, x);
      FinishOne(st, id, ok, y);
    }
  }

  /** Nobody waits for a request that finished. */
  lemma FinishWakes(st: State, id: nat, ok: bool, x: nat)
    requires st.c >= 1 && Enabled(st, Finish(id, ok)) && x in st.reqs
    ensures x in Apply(st, Finish(id, ok)).reqs && Apply(st, Finish(id, ok)).reqs[x].pc != Blocked(id)
    ensures Apply(st, Finish(id, ok)).reqs[x] ==
      if x == id then st.reqs[x].(pc := Leaving(ok))
      else if st.reqs[x].pc == Blocked(id) then st.reqs[x].(pc := Woken) else st.reqs[x]
  {
  }

  lemma LeaveStep(st: State, id: nat)
    requires Inv(st) && Enabled(st, Leave(id))
    ensures Inv(Apply(st, Leave(id))) && id !in Apply(st, Leave(id)).reqs
  {
    var st2 := Apply(st, Leave(id));
    assert CorRequests(st2) == CorRequests(st) - {id};
    if st.reqs[id].cor { assert id in CorRequests(st); }
    forall x | x in st2.reqs ensures RequestOk(st2, x) { assert RequestOk(st, x); }
    forall x, y | x in st2.reqs && y in st2.reqs ensures Exclusive(st2, x, y) { assert Exclusive(st, x, y); }
    forall s: Sector ensures Visible(st2, s) == Expected(st2, s) { assert Visible(st, s) == Expected(st, s); }
  }

  /** Storing back what the guest sees, or allocating a sector, changes nothing the guest sees. */
  lemma UnseenStep(st: State, s: Sector)
    requires Inv(st)
    ensures Inv(st.(overlay := st.overlay[s := Visible(st, s)]))
    ensures forall x: Sector :: Visible(st.(overlay := st.overlay[s := Visible(st, s)]), x) == Visible(st, x)
  {
    var st2 := st.(overlay := st.overlay[s := Visible(st, s)]);
    assert CorRequests(st2) == CorRequests(st);
    assert forall x: Sector {:trigger Visible(st2, x)} {:trigger Visible(st, x)} :: Visible(st2, x) == Visible(st, x);
    forall x | x in st2.reqs ensures RequestOk(st2, x) { assert RequestOk(st, x); }
    forall x, y | x in st2.reqs && y in st2.reqs ensures Exclusive(st2, x, y) { assert Exclusive(st, x, y); }
    forall x: Sector ensures Visible(st2, x) == Expected(st2, x) { assert Visible(st, x) == Expected(st, x); }
  }

  /** The write-back of a copy-on-read stores exactly what the guest sees already. */
  lemma StoreStep(st: State, id: nat, s: Sector)
    requires Inv(st) && Enabled(st, Store(id, s))
    ensures st.reqs[id].pc.bounce[s] == Visible(st, s)
    ensures Inv(Apply(st, Store(id, s)))
  {
    assert RequestOk(st, id);
    var pc := st.reqs[id].pc;
    var st1 := st.(overlay := st.overlay[s := Visible(st, s)]);
    UnseenStep(st, s);
    assert RequestOk(st1, id);
    PhaseStep(st1, id, pc.(todo := pc.todo - {s}));
  }

  /** A guest write reaches no buffer of a copy-on-read. */
  lemma WriteStep(st: State, id: nat, s: Sector)
    requires Inv(st) && Enabled(st, Write(id, s))
    ensures Inv(Apply(st, Write(id, s)))
  {
    assert RequestOk(st, id);
    var todo := st.reqs[id].pc.todo - {s};
    PhaseStep(st, id, Writing(todo));
    GuestWrite(SetPc(st, id, Writing(todo)), id, s, st.reqs[id].data[s]);
  }

  lemma GuestWrite(st: State, id: nat, s: Sector, d: Data)
    requires Inv(st) && id in st.reqs && st.reqs[id].pc.Writing? && st.reqs[id].Covers(s)
    ensures Inv(st.(overlay := st.overlay[s := d], written := st.written[s := d]))
  {
    var st2 := st.(overlay := st.overlay[s := d], written := st.written[s := d]);
    assert CorRequests(st2) == CorRequests(st);
    assert forall x: Sector {:trigger Visible(st2, x)} {:trigger Visible(st, x)} ::
        Visible(st2, x) == if x == s then d else Visible(st, x);
    forall x | x in st2.reqs ensures RequestOk(st2, x) {
      assert RequestOk(st, x) && RequestOk(st, id) && Exclusive(st, x, id);
      if st.reqs[x].cor && st.reqs[x].Tracked() {
        assert x != id && Apart(st.reqs[id], st.reqs[x], st.c);
        ApartSectors(st.reqs[id], st.reqs[x], st.c, s);
      }
    }
    forall x, y | x in st2.reqs && y in st2.reqs ensures Exclusive(st2, x, y) { assert Exclusive(st, x, y); }
    forall x: Sector ensures Visible(st2, x) == Expected(st2, x) { assert Visible(st, x) == Expected(st, x); }
  }

  lemma StepKeepsInv(st: State, step: Step)
    requires Inv(st) && Enabled(st, step)
    ensures Inv(Apply(st, step))
  {
    match step
    case Enter(id, r) => EnterStep(st, id, r);
    case Admit(id) => AdmitStep(st, id);
    case Block(id, on) => BlockStep(st, id, on);
    case Answer(id, present) => AnswerStep(st, id, present);
    case Fetch(id, s) => FetchStep(st, id, s);
    case Turn(id) => TurnStep(st, id);
    case Store(id, s) => StoreStep(st, id, s);
    case Write(id, s) => WriteStep(st, id, s);
    case Allocate(s) => UnseenStep(st, s);
    case Finish(id, ok) => FinishStep(st, id, ok);
    case Leave(id) => LeaveStep(st, id);
  }

  /** A device before its first request. */
  ghost predicate Init(st: State) {
    && st.c >= 1 && st.reqs == map[] && st.inflight == 0 && st.written == map[]
    && forall s: Sector :: Visible(st, s) == st.initial(s)
  }

  /** A run: every step is enabled where it is taken. */
  ghost predicate IsRun(st: State, steps: seq<Step>)
    requires st.c >= 1
    decreases |steps|
  {
    steps != [] ==> Enabled(st, steps[0]) && IsRun(Apply(st, steps[0]), steps[1..])
  }

  ghost function After(st: State, steps: seq<Step>): State
    requires st.c >= 1 && IsRun(st, steps)
    decreases |steps|
  {
    if steps == [] then st else After(Apply(st, steps[0]), steps[1..])
  }

  lemma {:induction false} RunKeepsInv(st: State, steps: seq<Step>)
    requires Inv(st) && IsRun(st, steps)
    ensures Inv(After(st, steps)) && After(st, steps).c == st.c
    decreases |steps|
  {
    if steps != [] {
      StepKeepsInv(st, steps[0]);
      RunKeepsInv(Apply(st, steps[0]), steps[1..]);
    }
  }

  /** The data of the last guest write to sector `s` in a run, if there is one. */
  ghost function LastWrite(st: State, steps: seq<Step>, s: Sector): (d: Buffer)
    requires st.c >= 1 && IsRun(st, steps)
    ensures d.Keys <= {s}
    decreases |steps|
  {
    if steps == [] then map[]
    else
      var later := LastWrite(Apply(st, steps[0]), steps[1..], s);
      if s in later then later
      else if steps[0].Write? && steps[0].s == s then map[s := st.reqs[steps[0].id].data[s]]
      else map[]
  }

  lemma {:induction false} ExpectedIsLastWrite(st: State, steps: seq<Step>, s: Sector)
    requires st.c >= 1 && IsRun(st, steps)
    ensures Expected(After(st, steps), s) ==
            if s in LastWrite(st, steps, s) then LastWrite(st, steps, s)[s] else Expected(st, s)
    decreases |steps|
  {
    if steps != [] { ExpectedIsLastWrite(Apply(st, steps[0]), steps[1..], s); }
  }

  /** In every interleaving the guest sees its own last write to a sector, or else what was there at first. */
  lemma CopyOnReadInvisible(st: State, steps: seq<Step>, s: Sector)
    requires Init(st) && IsRun(st, steps)
    ensures Visible(After(st, steps), s) ==
            if s in LastWrite(st, steps, s) then LastWrite(st, steps, s)[s] else Visible(st, s)
  {
    assert CorRequests(st) == {};
    RunKeepsInv(st, steps);
    assert Visible(After(st, steps), s) == Expected(After(st, steps), s);
    ExpectedIsLastWrite(st, steps, s);
  }

  /** The write request is through with sector `s`: it has no more to write there, or it ended well. */
  predicate Through(r: Request, s: Sector) {
    r.write && r.Covers(s) && (r.pc == Leaving(true) || (r.pc.Writing? && s !in r.pc.todo))
  }

  /** Only its own write brings a request through with a sector. */
  lemma StepThrough(st: State, step: Step, id: nat, s: Sector)
    requires Inv(st) && Enabled(st, step) && id in Apply(st, step).reqs && Through(Apply(st, step).reqs[id], s)
    ensures id in st.reqs && Apply(st, step).reqs[id].data == st.reqs[id].data
    ensures step == Write(id, s) || Through(st.reqs[id], s)
  {
    if id in st.reqs { assert RequestOk(st, id); }
  }

  /** A run of two parts is a run of the first and then of the second. */
  lemma {:induction false} RunSplit(st: State, xs: seq<Step>, ys: seq<Step>)
    requires st.c >= 1
    ensures IsRun(st, xs + ys) <==> IsRun(st, xs) && After(st, xs).c == st.c && IsRun(After(st, xs), ys)
    ensures IsRun(st, xs + ys) ==> After(st, xs + ys) == After(After(st, xs), ys)
    decreases |xs|
  {
    if xs == [] {
      assert xs + ys == ys;
    } else {
      assert (xs + ys)[0] == xs[0] && (xs + ys)[1..] == xs[1..] + ys;
      if Enabled(st, xs[0]) { RunSplit(Apply(st, xs[0]), xs[1..], ys); }
    }
  }

  /** A request that is through with a sector wrote it somewhere in the run. */
  lemma {:induction false} ThroughWrote(st: State, steps: seq<Step>, id: nat, s: Sector)
    returns (pre: seq<Step>, post: seq<Step>)
    requires Init(st) && IsRun(st, steps) && id in After(st, steps).reqs && Through(After(st, steps).reqs[id], s)
    ensures steps == pre + [Write(id, s)] + post && IsRun(st, pre) && id in After(st, pre).reqs
    ensures After(st, pre).reqs[id].data == After(st, steps).reqs[id].data
    decreases |steps|
  {
    var n := |steps| - 1;
    var init, last := steps[..n], steps[n];
    assert steps == init + [last];
    RunSplit(st, init, [last]);
    var before := After(st, init);
    assert [last][1..] == [] && After(before, [last]) == Apply(before, last);
    assert CorRequests(st) == {};
    RunKeepsInv(st, init);
    StepThrough(before, last, id, s);
    if last == Write(id, s) {
      pre, post := init, [];
    } else {
      pre, post := ThroughWrote(st, init, id, s);
      post := post + [last];
    }
  }

  /**
   No guest write is lost: each sector of a write request that ended well was written in the run with the
   request's data, and the guest sees that data unless a later write replaced it.
   */
  lemma WriteIsSeen(st: State, steps: seq<Step>, id: nat, s: Sector) returns (pre: seq<Step>, post: seq<Step>)
    requires Init(st) && IsRun(st, steps) && id in After(st, steps).reqs && Through(After(st, steps).reqs[id], s)
    ensures steps == pre + [Write(id, s)] + post && IsRun(st, pre) && After(st, pre).c >= 1
    ensures Enabled(After(st, pre), Write(id, s)) && IsRun(Apply(After(st, pre), Write(id, s)), post)
    ensures s in After(st, steps).reqs[id].data
    ensures var later := LastWrite(Apply(After(st, pre), Write(id, s)), post, s);
            Visible(After(st, steps), s) == if s in later then later[s] else After(st, steps).reqs[id].data[s]
  {
    pre, post := ThroughWrote(st, steps, id, s);
    var write := [Write(id, s)];
    assert steps == pre + (write + post);
    RunSplit(st, pre, write + post);
    assert CorRequests(st) == {};
    RunKeepsInv(st, pre);
    RunKeepsInv(st, steps);
    var at := After(st, pre);
    assert (write + post)[0] == write[0] && (write + post)[1..] == post;
    ExpectedIsLastWrite(Apply(at, write[0]), post, s);
    assert Visible(After(st, steps), s) == Expected(After(st, steps), s);
  }

  /** In every interleaving a tracked copy-on-read shares no cluster with another tracked request. */
  lemma CopyOnReadExclusive(st: State, steps: seq<Step>, x: nat, y: nat)
    requires Init(st) && IsRun(st, steps) && x in After(st, steps).reqs && y in After(st, steps).reqs && x != y
    requires After(st, steps).reqs[x].Tracked() && After(st, steps).reqs[y].Tracked() && After(st, steps).reqs[x].cor
    ensures var r, q := After(st, steps).reqs[x], After(st, steps).reqs[y];
            After(st, steps).c >= 1 && r.nb >= 1 && q.nb >= 1 && Apart(r, q, After(st, steps).c)
  {
    assert CorRequests(st) == {};
    RunKeepsInv(st, steps);
    var end := After(st, steps);
    assert RequestOk(end, x) && RequestOk(end, y) && Exclusive(end, x, y);
  }

  /** What a copy-on-read has in hand for the guest: the image's own data, or the bounce buffer. */
  predicate InHand(r: Request, s: Sector) {
    (r.pc.Reading? && s in r.pc.got) || (r.pc.Storing? && s in r.pc.bounce)
  }

  function Handed(r: Request, s: Sector): Data
    requires InHand(r, s)
  {
    if r.pc.Reading? then r.pc.got[s] else r.pc.bounce[s]
  }

  /**
   Whether it reads sectors that were allocated or stores what it fetched, a copy-on-read hands the guest what the
   guest should see, and once it is ready to succeed it has all of it.
   */
  lemma CopyOnReadReturnsContents(st: State, steps: seq<Step>, id: nat, s: Sector)
    requires Init(st) && IsRun(st, steps) && id in After(st, steps).reqs && After(st, steps).reqs[id].cor
    requires After(st, steps).reqs[id].Covers(s)
    ensures var r := After(st, steps).reqs[id];
            && (Complete(r) ==> InHand(r, s))
            && (InHand(r, s) ==>
                  Handed(r, s) == if s in LastWrite(st, steps, s) then LastWrite(st, steps, s)[s] else Visible(st, s))
  {
    assert CorRequests(st) == {};
    RunKeepsInv(st, steps);
    var end := After(st, steps);
    assert RequestOk(end, id);
    CoversRounded(end.reqs[id], end.c, s);
    CopyOnReadInvisible(st, steps, s);
  }

  /** A copy-on-read that is ready to succeed or did, and the sectors it was to copy by then. */
  ghost predicate HasCopied(r: Request, c: nat, s: Sector)
    requires c >= 1
  {
    r.cor && if Complete(r) && r.pc.Storing? then InRounded(r, c, s)
             else (Complete(r) || r.pc == Leaving(true)) && r.Covers(s)
  }

  /**
   Copy-on-read copies: in every run, once it is ready to succeed or did, every sector it covers is in the image,
   and if it stored what it fetched, every sector of its clusters.
   */
  lemma CopyOnReadCopies(st: State, steps: seq<Step>, id: nat, s: Sector)
    requires Init(st) && IsRun(st, steps) && id in After(st, steps).reqs && After(st, steps).c >= 1
    requires HasCopied(After(st, steps).reqs[id], After(st, steps).c, s)
    ensures s in After(st, steps).overlay
  {
    assert CorRequests(st) == {};
    RunKeepsInv(st, steps);
    var end := After(st, steps);
    assert RequestOk(end, id);
    if Complete(end.reqs[id]) { CompleteIsHeld(end, id); }
  }

  /** What the image holds it keeps. */
  lemma {:induction false} HeldStays(st: State, steps: seq<Step>, s: Sector)
    requires st.c >= 1 && IsRun(st, steps) && s in st.overlay
    ensures s in After(st, steps).overlay
    decreases |steps|
  {
    if steps != [] { HeldStays(Apply(st, steps[0]), steps[1..], s); }
  }

  /** What a copy-on-read stored stays in the image: every sector of its clusters, whatever runs after it. */
  lemma CopyStays(st: State, steps: seq<Step>, id: nat, more: seq<Step>, s: Sector)
    requires Init(st) && IsRun(st, steps) && id in After(st, steps).reqs && After(st, steps).c >= 1
    requires HasCopied(After(st, steps).reqs[id], After(st, steps).c, s) && IsRun(st, steps + more)
    ensures s in After(st, steps + more).overlay
  {
    CopyOnReadCopies(st, steps, id, s);
    RunSplit(st, steps, more);
    HeldStays(After(st, steps), more, s);
  }

  /** The request is reading sector `s` and has it. */
  predicate HasRead(r: Request, s: Sector) { r.pc.Reading? && s in r.pc.got }

  /** Only its own fetch brings a sector into the buffer of a read. */
  lemma StepRead(st: State, step: Step, id: nat, s: Sector)
    requires st.c >= 1 && Enabled(st, step) && id in Apply(st, step).reqs && HasRead(Apply(st, step).reqs[id], s)
    ensures id in st.reqs
    ensures if step == Fetch(id, s) then Apply(st, step).reqs[id].pc.got[s] == Visible(st, s)
            else HasRead(st.reqs[id], s) && st.reqs[id].pc.got[s] == Apply(st, step).reqs[id].pc.got[s]
  {
  }

  /** A read hands out, sector by sector, what the guest saw when the driver fetched that sector. */
  lemma {:induction false} ReadReturnsSeen(st: State, steps: seq<Step>, id: nat, s: Sector)
    returns (pre: seq<Step>, post: seq<Step>)
    requires Init(st) && IsRun(st, steps) && id in After(st, steps).reqs && HasRead(After(st, steps).reqs[id], s)
    ensures steps == pre + [Fetch(id, s)] + post && IsRun(st, pre) && id in After(st, pre).reqs
    ensures After(st, steps).reqs[id].pc.got[s] == Visible(After(st, pre), s)
    decreases |steps|
  {
    var n := |steps| - 1;
    var init, last := steps[..n], steps[n];
    assert steps == init + [last];
    RunSplit(st, init, [last]);
    var before := After(st, init);
    assert [last][1..] == [] && After(before, [last]) == Apply(before, last);
    StepRead(before, last, id, s);
    if last == Fetch(id, s) {
      pre, post := init, [];
    } else {
      pre, post := ReadReturnsSeen(st, init, id, s);
      post := post + [last];
    }
  }

  /** No wait cycle and no lost wake-up: whoever waits, waits for a request that is tracked and so not waiting. */
  lemma WaitsForRunning(st: State, steps: seq<Step>, id: nat)
    requires Init(st) && IsRun(st, steps) && id in After(st, steps).reqs && After(st, steps).reqs[id].pc.Blocked?
    ensures var end := After(st, steps);
            end.reqs[id].pc.on in end.reqs && end.reqs[end.reqs[id].pc.on].Tracked()
  {
    assert CorRequests(st) == {};
    RunKeepsInv(st, steps);
    assert RequestOk(After(st, steps), id);
  }

  /** A step that is not a failure of the driver, a new request or an allocation by other means. */
  predicate Progress(step: Step) { !step.Enter? && !step.Allocate? && !(step.Finish? && !step.ok) }

  /** A tracked request can always go on without a failure. */
  lemma TrackedCanStep(st: State, id: nat) returns (step: Step)
    requires Inv(st) && id in st.reqs && st.reqs[id].Tracked()
    ensures Enabled(st, step) && Progress(step)
  {
    assert RequestOk(st, id);
    var r := st.reqs[id];
    match r.pc
    case Query => step := Answer(id, false);
    case Reading(got) =>
      if s: Sector :| r.Covers(s) && s !in got { step := Fetch(id, s); } else { step := Finish(id, true); }
    case Fetching(got) =>
      if s: Sector :| InRounded(r, st.c, s) && s !in got { step := Fetch(id, s); } else { step := Turn(id); }
    case Storing(todo, _) =>
      if s :| s in todo { step := Store(id, s); } else { step := Finish(id, true); }
    case Writing(todo) =>
      if s :| s in todo { step := Write(id, s); } else { step := Finish(id, true); }
  }

  /** No deadlock: as long as a request is present, some request can go on without a failure. */
  lemma NeverStuck(st: State, steps: seq<Step>) returns (step: Step)
    requires Init(st) && IsRun(st, steps) && After(st, steps).reqs != map[]
    ensures After(st, steps).c >= 1 && Enabled(After(st, steps), step) && Progress(step)
  {
    assert CorRequests(st) == {};
    RunKeepsInv(st, steps);
    var end := After(st, steps);
    var id :| id in end.reqs;
    assert RequestOk(end, id);
    var r := end.reqs[id];
    if r.pc.Blocked? {
      step := TrackedCanStep(end, r.pc.on);
    } else if r.Tracked() {
      step := TrackedCanStep(end, id);
    } else if r.pc.Leaving? {
      step := Leave(id);
    } else if MustWait(end, r) && !(r.pc.New? && end.inflight == 0) {
      var (first, n) := RoundToClusters(r.sector, r.nb, end.c);
      var on :| on in end.reqs && end.reqs[on].Tracked() && Overlaps(end.reqs[on], first, n);
      step := Block(id, on);
    } else {
      step := Admit(id);
    }
  }
}
