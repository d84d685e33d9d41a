/** Concrete promotions on which C takes one place for another: vectors of a page each fill a chunk of
    256 KB to the last byte, and the old area's first chunk begins where that chunk ends. */
module AliasExamples {
  import opened SchemeHeap
  import opened Copying
  import opened ChunkLayout
  import opened PromotionSteps
  import opened ScanFingers
  import opened Promotion
  import opened PromotionMeaning
  import opened PromotionExamples

  const FIRST := Addr(0, 0, 0)
  const SECOND := Addr(0, 0, 8)

  function Vector(): Obj {
    Cell(VecTag, 0, seq(1023, _ => Imm(0)))
  }

  function VecAt(k: nat): Addr {
    Addr(0, 0, 16 + 4096 * k)
  }

  function VecPlaces(n: nat): set<Addr> {
    set k: nat | k < n :: VecAt(k)
  }

  function Vectors(n: nat): Heap {
    map a | a in VecPlaces(n) :: Vector()
  }

  /** Reachable objects: a pair that leads to another pair, and `n` vectors of 4096 bytes. */
  function ManyStart(n: nat, place: nat): Start {
    Start(Vectors(n)[FIRST := Cell(PairTag, 0, [Ptr(SECOND, PairTag), Imm(0)])]
                    [SECOND := Cell(PairTag, 0, [Imm(4), Imm(8)])],
          [Ptr(FIRST, PairTag)] + seq(n, k requires 0 <= k < n => Ptr(VecAt(k), VecTag)), [], {}, 1, 2,
          SupplyFrom(place))
  }

  lemma VectorFacts()
    ensures var o := Vector(); Size(o) == Extent(o) == 4096 && TagOf(o) == VecTag && !o.Seal?
    ensures forall limit :: Clean(Vector(), limit)
    ensures forall h :: GoodObject(h, Vector())
  {
    var o := Vector();
    assert |o.slots| == 1023;
  }

  lemma ManyHeap(n: nat, place: nat)
    ensures var s := ManyStart(n, place);
            && s.oldGen == 1 && s.youngGen == 2 && s.supply == SupplyFrom(place)
            && FIRST in s.heap && s.heap[FIRST] == Cell(PairTag, 0, [Ptr(SECOND, PairTag), Imm(0)])
            && SECOND in s.heap && s.heap[SECOND] == Cell(PairTag, 0, [Imm(4), Imm(8)])
            && |s.roots| == n + 1 && s.roots[0] == Ptr(FIRST, PairTag)
            && s.remembered == [] && s.extra == {}
    ensures var s := ManyStart(n, place);
            forall k | 0 <= k < n :: VecAt(k) in s.heap && s.heap[VecAt(k)] == Vector()
                                     && s.roots[k + 1] == Ptr(VecAt(k), VecTag)
    ensures var s := ManyStart(n, place);
            forall a | a in s.heap && a != FIRST && a != SECOND :: a.gen == 0 && s.heap[a] == Vector()
  {
    hide Vector;
    forall k | 0 <= k < n ensures VecAt(k) in Vectors(n) {
    }
  }

  lemma ManyIsGood(n: nat, place: nat)
    ensures GoodStart(ManyStart(n, place))
  {
    hide ManyStart, Vector, VecAt;
    var s := ManyStart(n, place);
    ManyHeap(n, place);
    VectorFacts();
    forall a | a in s.heap
      ensures GoodObject(s.heap, s.heap[a]) && Extent(s.heap[a]) <= GC_LARGE_OBJECT_LIMIT && a.gen == 0
    {
    }
    forall i | 0 <= i < |s.roots| ensures GoodPointer(s.heap, s.roots[i]) {
      if i > 0 {
        var k := i - 1;
        assert s.roots[k + 1] == Ptr(VecAt(k), VecTag);
      }
    }
  }

  // ---- Forwarding vectors one after the other.

  /** Vectors number `from` to `from + n - 1` are reached by their roots and still to be moved. */
  ghost predicate Waiting(s: Start, v: View, from: nat, n: nat) {
    forall k: nat | from <= k < from + n :: WaitingOne(s, v, k)
  }

  ghost predicate WaitingOne(s: Start, v: View, k: nat) {
    && VecAt(k) in s.heap && VecAt(k) in v.heap && v.heap[VecAt(k)] == Vector()
    && VecAt(k) in Uncopied(s, v.heap) && Leads(s, FromRoot(k + 1), VecAt(k))
  }

  /** They are forwarded to consecutive places from `b` on. */
  ghost function Filled(s: Start, v: View, from: nat, n: nat, b: Addr): (v': View)
    requires Waiting(s, v, from, n)
    ensures forall a | a in v.heap :: a in v'.heap
    decreases n
  {
    if n == 0 then
      v
    else
      assert WaitingOne(s, v, from + n - 1);
      Move(Filled(s, v, from, n - 1, b), VecAt(from + n - 1), b.(off := b.off + 4096 * (n - 1)), FromRoot(from + n))
  }

  ghost predicate FilledFrom(s: Start, v: View, v': View, from: nat, n: nat, b: Addr) {
    Good(s, v') && Forwarding(s, v, v') && PlacesFilled(v, v', from, n, b)
  }

  ghost predicate PlacesFilled(v: View, v': View, from: nat, n: nat, b: Addr) {
    && v'.ends == v.ends[Base(b) := b.off + 4096 * n]
    && v'.chunks == v.chunks && v'.cur == v.cur && v'.cur2 == v.cur2 && v'.taken == v.taken && v'.extra == v.extra
    && (forall a | a in v.heap && (forall k: nat | from <= k < from + n :: a != VecAt(k)) ::
          a in v'.heap && v'.heap[a] == v.heap[a])
    && (n > 0 ==>
          var d := b.(off := b.off + 4096 * (n - 1));
          d in v'.src && d in v'.gray && d in v'.heap && v'.heap[d] == Vector())
  }

  lemma {:induction false} FilledIsGood(s: Start, v: View, from: nat, n: nat, b: Addr)
    requires Good(s, v) && Waiting(s, v, from, n) && IsFree(s, v, b)
    requires Base(b) in v.chunks && b.off + 4096 * n <= v.chunks[Base(b)].lim
    ensures FilledFrom(s, v, Filled(s, v, from, n, b), from, n, b)
    decreases n
  {
    hide *;
    if n == 0 {
      NoneFilled(s, v, from, b);
      FilledStep(s, v, from, n, b);
    } else {
      FewerWaiting(s, v, from, n);
      FilledIsGood(s, v, from, n - 1, b);
      OneMore(s, v, Filled(s, v, from, n - 1, b), from, n - 1, b);
      FilledStep(s, v, from, n, b);
    }
  }

  lemma FilledStep(s: Start, v: View, from: nat, n: nat, b: Addr)
    requires Waiting(s, v, from, n)
    ensures n == 0 ==> Filled(s, v, from, n, b) == v
    ensures n > 0 ==>
              && Waiting(s, v, from, n - 1) && VecAt(from + n - 1) in Filled(s, v, from, n - 1, b).heap
              && Filled(s, v, from, n, b) == Move(Filled(s, v, from, n - 1, b), VecAt(from + n - 1),
                                                  b.(off := b.off + 4096 * (n - 1)), FromRoot(from + n))
  {
    if n > 0 {
      assert WaitingOne(s, v, from + n - 1);
    }
    hide Waiting, WaitingOne, Move, VecAt;
  }

  lemma NoneFilled(s: Start, v: View, from: nat, b: Addr)
    requires Good(s, v) && IsFree(s, v, b)
    ensures FilledFrom(s, v, v, from, 0, b)
  {
    hide Good;
    ForwardingReflexive(s, v);
    assert v.ends == v.ends[Base(b) := b.off];
  }

  lemma FewerWaiting(s: Start, v: View, from: nat, n: nat)
    requires Waiting(s, v, from, n) && 0 < n
    ensures Waiting(s, v, from, n - 1)
  {
  }

  lemma OneMore(s: Start, v: View, v1: View, from: nat, n: nat, b: Addr)
    requires Good(s, v) && Waiting(s, v, from, n + 1) && IsFree(s, v, b)
    requires Base(b) in v.chunks && b.off + 4096 * (n + 1) <= v.chunks[Base(b)].lim
    requires FilledFrom(s, v, v1, from, n, b)
    ensures VecAt(from + n) in v1.heap
    ensures var v2 := Move(v1, VecAt(from + n), b.(off := b.off + 4096 * n), FromRoot(from + n + 1));
            FilledFrom(s, v, v2, from, n + 1, b)
  {
    hide Good, Forwarding, Vector, Leads, Uncopied, Waiting, PlacesFilled, Move, IsFree;
    var a, d, p := VecAt(from + n), b.(off := b.off + 4096 * n), FromRoot(from + n + 1);
    NextWaits(s, v, v1, from, n, b);
    VectorFacts();
    FreeIsUnused(s, v1, d);
    MoveStep(s, v1, a, d, p);
    MoveAdvances(s, v1, a, d, p);
    AdvancedForwards(s, v1, Move(v1, a, d, p));
    ForwardingTransitive(s, v, v1, Move(v1, a, d, p));
    OneMorePlace(v, v1, from, n, b, p);
  }

  lemma NextWaits(s: Start, v: View, v1: View, from: nat, n: nat, b: Addr)
    requires Waiting(s, v, from, n + 1) && IsFree(s, v, b) && PlacesFilled(v, v1, from, n, b)
    ensures WaitingOne(s, v1, from + n) && IsFree(s, v1, b.(off := b.off + 4096 * n)) && v1.chunks == v.chunks
  {
    hide Vector, Leads;
    assert WaitingOne(s, v, from + n);
  }

  lemma OneMorePlace(v: View, v1: View, from: nat, n: nat, b: Addr, p: Path)
    requires PlacesFilled(v, v1, from, n, b) && VecAt(from + n) in v1.heap && v1.heap[VecAt(from + n)] == Vector()
    requires b.(off := b.off + 4096 * n) !in v1.heap
    ensures PlacesFilled(v, Move(v1, VecAt(from + n), b.(off := b.off + 4096 * n), p), from, n + 1, b)
  {
    hide Vector;
    VectorFacts();
  }

  lemma AdvancedForwards(s: Start, v: View, v': View)
    requires Advanced(s, v, v')
    ensures Forwarding(s, v, v')
  {
  }

  lemma StillUncopied(s: Start, v: View, v': View, a: Addr)
    requires a in Uncopied(s, v.heap) && a in v.heap && a in v'.heap && v'.heap[a] == v.heap[a]
    ensures a in Uncopied(s, v'.heap)
  {
  }

  // ---- The old area's first chunk is filled.

  /** The old area's chunk is at `2 * GC_CHUNK_SIZE` and empty, the young area's at `place2` and filled up
      to `top2`; the next chunk will come from `place`. */
  predicate Laid(n: nat, place: nat, place2: nat, top2: nat) {
    && 63 <= n && place2 in {GC_CHUNK_SIZE, 4 * GC_CHUNK_SIZE} && place in {GC_CHUNK_SIZE, 6 * GC_CHUNK_SIZE}
    && place2 != place && top2 % 8 == 0 && top2 <= GC_CHUNK_SIZE
  }

  function ManyChunks(place2: nat, top2: nat): Chunks {
    TwoChunks(2 * GC_CHUNK_SIZE, 0, place2, top2)
  }

  function AtFirst(n: nat, place: nat, place2: nat, top2: nat): View {
    FirstView(ManyStart(n, place), ManyChunks(place2, top2), 0, 0)
  }

  lemma StartsWell(n: nat, place: nat, place2: nat, top2: nat)
    requires Laid(n, place, place2, top2)
    ensures GoodStart(ManyStart(n, place)) && GoodSpaces(ManyStart(n, place), ManyChunks(place2, top2), 0, 0)
    ensures var v := AtFirst(n, place, place2, top2);
            Good(ManyStart(n, place), v) && v.ends == map[Addr(1, 0, 0) := 0, Addr(2, 0, 0) := top2]
  {
    hide GoodStart, GoodSpaces, Good, ManyStart, TwoChunks, FirstEnds;
    ManyHeap(n, place);
    ManyIsGood(n, place);
    ChunksFit(ManyStart(n, place), 2 * GC_CHUNK_SIZE, 0, place2, top2, place);
    TwoEnds(ManyStart(n, place), 2 * GC_CHUNK_SIZE, 0, place2, top2);
    FirstStep(ManyStart(n, place), ManyChunks(place2, top2), 0, 0);
  }

  lemma FirstFacts(n: nat, place: nat, place2: nat, top2: nat)
    ensures var v := AtFirst(n, place, place2, top2);
            && v.chunks == ManyChunks(place2, top2) && v.cur == 0 && v.cur2 == 0 && v.taken == 0 && v.extra == {}
    ensures AtFirst(n, place, place2, top2) == FirstView(ManyStart(n, place), ManyChunks(place2, top2), 0, 0)
  {
    ManyHeap(n, place);
  }

  lemma FreeAtFirst(s: Start, v: View, place2: nat, top2: nat)
    requires s.oldGen == 1 && v.cur == 0 && v.chunks == ManyChunks(place2, top2)
    requires v.ends == map[Addr(1, 0, 0) := 0, Addr(2, 0, 0) := top2]
    ensures IsFree(s, v, Addr(1, 0, 0)) && Addr(1, 0, 0) in v.chunks && v.chunks[Addr(1, 0, 0)].lim == GC_CHUNK_SIZE
  {
  }

  /** Everything is reached and waits to be moved. */
  lemma AllWaiting(n: nat, place: nat, place2: nat, top2: nat)
    ensures var s, v := ManyStart(n, place), AtFirst(n, place, place2, top2);
            Waiting(s, v, 0, n) && PairsWait(s, v)
  {
    hide ManyStart, Vector, FirstEnds, ManyChunks;
    var s, v := ManyStart(n, place), AtFirst(n, place, place2, top2);
    ManyHeap(n, place);
    forall k: nat | 0 <= k < n ensures WaitingOne(s, v, k) {
      VectorFacts();
      assert s.roots[k + 1] == Ptr(VecAt(k), VecTag);
    }
  }

  ghost predicate PairsWait(s: Start, v: View) {
    && FIRST in s.heap && FIRST in v.heap && FIRST in Uncopied(s, v.heap) && Leads(s, FromRoot(0), FIRST)
    && v.heap[FIRST] == Cell(PairTag, 0, [Ptr(SECOND, PairTag), Imm(0)])
    && SECOND in v.heap && SECOND in Uncopied(s, v.heap)
  }

  /** From `v0` on objects were forwarded to the old area's chunk, up to `end`; the vectors from number
      `from` on wait. */
  ghost predicate FillingOld(s: Start, v0: View, v: View, from: nat, n: nat, end: nat, top2: nat) {
    && Good(s, v) && Forwarding(s, v0, v) && Waiting(s, v, from, n)
    && SECOND in v.heap && SECOND in Uncopied(s, v.heap) && Addr(1, 0, 0) in v.src
    && v.ends == map[Addr(1, 0, 0) := end, Addr(2, 0, 0) := top2]
    && v.chunks == v0.chunks && v.cur == 0 && v.cur2 == 0 && v.taken == 0 && v.extra == {}
  }

  /** The pair is forwarded. */
  lemma MovePair(n: nat, place: nat, place2: nat, top2: nat) returns (v: View)
    requires Laid(n, place, place2, top2)
    ensures FillingOld(ManyStart(n, place), AtFirst(n, place, place2, top2), v, 0, n, 8, top2)
  {
    hide Good, GoodSpaces, GoodStart, Onward, ManyStart, FirstEnds, Leads, Vector, Waiting, Uncopied, AtFirst, IsFree;
    hide ManyChunks;
    var s, v0, b := ManyStart(n, place), AtFirst(n, place, place2, top2), Addr(1, 0, 0);
    StartsWell(n, place, place2, top2);
    AllWaiting(n, place, place2, top2);
    FirstFacts(n, place, place2, top2);
    ManyHeap(n, place);
    FreeAtFirst(s, v0, place2, top2);
    v := Move(v0, FIRST, b, FromRoot(0));
    MoveStep(s, v0, FIRST, b, FromRoot(0));
    MoveAdvances(s, v0, FIRST, b, FromRoot(0));
    AdvancedForwards(s, v0, v);
    StillUncopied(s, v0, v, SECOND);
    StillWaiting(s, v0, v, 0, n);
  }

  /** Vectors that were left alone go on waiting. */
  lemma StillWaiting(s: Start, v: View, v': View, from: nat, n: nat)
    requires Waiting(s, v, from, n)
    requires forall k: nat | from <= k < from + n && VecAt(k) in v.heap ::
               VecAt(k) in v'.heap && v'.heap[VecAt(k)] == v.heap[VecAt(k)]
    ensures Waiting(s, v', from, n)
  {
    hide Vector, Leads;
    forall k: nat | from <= k < from + n ensures WaitingOne(s, v', k) {
      assert WaitingOne(s, v, k);
    }
  }

  lemma WaitingKept(s: Start, v: View, v': View, from: nat, n: nat, rest: nat, b: Addr)
    requires FilledFrom(s, v, v', from, n, b) && Waiting(s, v, from, n + rest)
    ensures Waiting(s, v', from + n, rest)
  {
    hide Good, Forwarding, Vector, Leads;
    forall k: nat | from + n <= k < from + n + rest ensures WaitingOne(s, v', k) {
      assert WaitingOne(s, v, k);
    }
  }

  lemma SomeWaiting(s: Start, v: View, from: nat, n: nat, fewer: nat)
    requires Waiting(s, v, from, n) && fewer <= n
    ensures Waiting(s, v, from, fewer)
  {
  }

  /** 63 vectors are forwarded behind it. */
  lemma FillVectors(n: nat, place: nat, place2: nat, top2: nat) returns (v: View)
    requires Laid(n, place, place2, top2)
    ensures FillingOld(ManyStart(n, place), AtFirst(n, place, place2, top2), v, 63, n - 63, 258056, top2)
  {
    hide Good, Onward, ManyStart, FirstEnds, Leads, Vector, Waiting, Filled;
    var s, v0, b := ManyStart(n, place), AtFirst(n, place, place2, top2), Addr(1, 0, 8);
    var v1 := MovePair(n, place, place2, top2);
    ManyHeap(n, place);
    SomeWaiting(s, v1, 0, n, 63);
    v := Filled(s, v1, 0, 63, b);
    FilledIsGood(s, v1, 0, 63, b);
    WaitingKept(s, v1, v, 0, 63, n - 63, b);
    ForwardingTransitive(s, v0, v1, v);
    SourceKept(s, v1, v, Addr(1, 0, 0));
    assert v.heap[SECOND] == v1.heap[SECOND];
    StillUncopied(s, v1, v, SECOND);
  }

  /** The rest of the chunk, too small for another vector, is sealed. */
  lemma SealOld(n: nat, place: nat, place2: nat, top2: nat) returns (v: View)
    requires Laid(n, place, place2, top2)
    ensures FillingOld(ManyStart(n, place), AtFirst(n, place, place2, top2), v, 63, n - 63, GC_CHUNK_SIZE, top2)
  {
    hide Good, Onward, ManyStart, FirstEnds, Leads, Vector, Uncopied;
    var s, v0, b := ManyStart(n, place), AtFirst(n, place, place2, top2), Addr(1, 0, 258056);
    var v1 := FillVectors(n, place, place2, top2);
    ManyHeap(n, place);
    v := Fill(v1, b, Seal(4088));
    FreeIsUnused(s, v1, b);
    FillStep(s, v1, b, Seal(4088));
    AdvancedForwards(s, v1, v);
    ForwardingTransitive(s, v0, v1, v);
    StillWaiting(s, v1, v, 63, n - 63);
  }

  /** Scanning will begin at the pair. */
  lemma ScansPair(n: nat, place: nat, place2: nat, top2: nat, v: View)
    requires Laid(n, place, place2, top2)
    requires Good(ManyStart(n, place), v) && Forwarding(ManyStart(n, place), AtFirst(n, place, place2, top2), v)
    requires Addr(1, 0, 0) in v.src
    ensures Finger(ManyStart(n, place), v, Addr(1, 0, 0)) && Addr(1, 0, 0) in v.gray
    ensures Finger(ManyStart(n, place), v, Addr(2, 0, top2))
  {
    hide Good, GoodSpaces, GoodStart, Onward, Finger, ManyStart, FirstView;
    var s, v0, chunks := ManyStart(n, place), AtFirst(n, place, place2, top2), ManyChunks(place2, top2);
    StartsWell(n, place, place2, top2);
    ManyHeap(n, place);
    FirstFinger(s, chunks, 0, 0, Addr(1, 0, 0));
    FirstFinger(s, chunks, 0, 0, Addr(2, 0, top2));
    FingerKept(s, v0, v, Addr(1, 0, 0));
    FingerKept(s, v0, v, Addr(2, 0, top2));
    CopyIsTile(s, v, Addr(1, 0, 0));
    StartIsGray(s, v, Addr(1, 0, 0));
  }

  // ---- The scan that goes round forever.

  /** The 64th vector does not fit the old area and no budget is left: it is forwarded into the young
      area, where it fits exactly. */
  lemma FillYoung() returns (v: View)
    ensures var s, v0, b := ManyStart(64, 6 * GC_CHUNK_SIZE),
                            AtFirst(64, 6 * GC_CHUNK_SIZE, GC_CHUNK_SIZE, 258048), Addr(2, 0, 258048);
            && Good(s, v) && Forwarding(s, v0, v) && Addr(1, 0, 0) in v.src && b in v.src && b in v.heap
            && v.heap[b] == Vector() && SECOND in Uncopied(s, v.heap) && v.chunks == v0.chunks && v.cur2 == 0
            && v.ends == map[Addr(1, 0, 0) := GC_CHUNK_SIZE, Addr(2, 0, 0) := GC_CHUNK_SIZE]
  {
    hide Good, Onward, ManyStart, FirstEnds, Leads, Vector, Waiting, Filled;
    var place := 6 * GC_CHUNK_SIZE;
    var s, v0, b := ManyStart(64, place), AtFirst(64, place, GC_CHUNK_SIZE, 258048), Addr(2, 0, 258048);
    var v1 := SealOld(64, place, GC_CHUNK_SIZE, 258048);
    ManyHeap(64, place);
    v := Filled(s, v1, 63, 1, b);
    FilledIsGood(s, v1, 63, 1, b);
    ForwardingTransitive(s, v0, v1, v);
    SourceKept(s, v1, v, Addr(1, 0, 0));
    CopiesInHeap(s, v);
    assert v.heap[SECOND] == v1.heap[SECOND];
    StillUncopied(s, v1, v, SECOND);
  }

  /** The first pair is still to be scanned, and the pair it leads to to be copied; but the old finger has
      the same numeric address as the young area's free position, where the young finger has arrived
      after scanning the vector.  The pair is never scanned, and the scan never ends. */
  lemma EndlessExample() returns (v: View)
    ensures var s, chunks := ManyStart(64, 6 * GC_CHUNK_SIZE), ManyChunks(GC_CHUNK_SIZE, 258048);
            && GoodStart(s) && GoodSpaces(s, chunks, 0, 0)
            && StoppedAt(s, v, Endless(Addr(1, 0, 0), Addr(2, 0, GC_CHUNK_SIZE)))
            && Onward(s, FirstView(s, chunks, 0, 0), v)
            && SECOND in Uncopied(s, v.heap) && Addr(1, 0, 0) in v.gray && Reachable(s, SECOND)
  {
    hide Good, GoodSpaces, GoodStart, Onward, Finger, ManyStart, FirstView, Uncopied, Reachable, Vector, GoesRound;
    hide FirstEnds, AtFirst, ManyChunks;
    var place := 6 * GC_CHUNK_SIZE;
    var s, v0, b := ManyStart(64, place), AtFirst(64, place, GC_CHUNK_SIZE, 258048), Addr(2, 0, 258048);
    StartsWell(64, place, GC_CHUNK_SIZE, 258048);
    var v1 := FillYoung();
    ScansPair(64, place, GC_CHUNK_SIZE, 258048, v1);
    SecondIsReached(64, place);
    YoungScanned(64, place, v0, v1);
    v := Blacken(v1, b, false);
    ManyHeap(64, place);
    FirstFacts(64, place, GC_CHUNK_SIZE, 258048);
    MeetsYoungEnd(s, v);
    ForwardingIsOnward(s, v0, v1);
  }

  lemma MeetsYoungEnd(s: Start, v: View)
    requires s.oldGen == 1 && s.youngGen == 2 && v.chunks == ManyChunks(GC_CHUNK_SIZE, 258048) && v.cur2 == 0
    requires Finger(s, v, Addr(1, 0, 0)) && Addr(1, 0, 0) in v.gray && Finger(s, v, Addr(2, 0, GC_CHUNK_SIZE))
    requires v.ends == map[Addr(1, 0, 0) := GC_CHUNK_SIZE, Addr(2, 0, 0) := GC_CHUNK_SIZE]
    ensures GoesRound(s, v, Addr(1, 0, 0), Addr(2, 0, GC_CHUNK_SIZE))
  {
    hide Finger;
  }

  /** The young finger scans the vector and arrives at the free position. */
  lemma YoungScanned(n: nat, place: nat, v0: View, v: View)
    requires var s, b := ManyStart(n, place), Addr(2, 0, 258048);
             && Good(s, v) && Forwarding(s, v0, v) && Finger(s, v, Addr(1, 0, 0)) && Finger(s, v, b)
             && b in v.src && b in v.heap && v.heap[b] == Vector()
    ensures var s, b := ManyStart(n, place), Addr(2, 0, 258048);
            var v' := Blacken(v, b, false);
            && Good(s, v') && Onward(s, v0, v') && Finger(s, v', Addr(1, 0, 0))
            && Finger(s, v', Addr(2, 0, GC_CHUNK_SIZE))
  {
    hide Good, Onward, Finger, ManyStart, FirstView, Uncopied, Vector, Clean;
    var s, b := ManyStart(n, place), Addr(2, 0, 258048);
    var v' := Blacken(v, b, false);
    ManyHeap(n, place);
    VectorFacts();
    CopyIsTile(s, v, b);
    ObjectAtFinger(s, v, b);
    BlackenStep(s, v, b, false);
    ForwardingIsOnward(s, v0, v);
    OnwardTransitive(s, v0, v, v');
    FingerMoves(s, v, b, v'.gray, v'.extra);
    OtherFinger(s, v, b, Addr(1, 0, 0), v'.gray, v'.extra);
  }

  lemma SecondIsReached(n: nat, place: nat)
    ensures Reachable(ManyStart(n, place), SECOND)
  {
    hide ManyStart;
    ManyHeap(n, place);
    assert Leads(ManyStart(n, place), Through(FromRoot(0), FIRST, 0), SECOND);
  }

  // ---- The scan that ends too early.

  /** The old area gets a second chunk, directly in front of the first, and 64 vectors fill it. */
  lemma FillSecond() returns (v: View)
    ensures var s, v0 := ManyStart(127, GC_CHUNK_SIZE), AtFirst(127, GC_CHUNK_SIZE, 4 * GC_CHUNK_SIZE, 0);
            && Good(s, v) && Forwarding(s, v0, v) && Addr(1, 0, 0) in v.src && SECOND in Uncopied(s, v.heap)
            && v.cur == 1 && v.chunks == v0.chunks[Addr(1, 1, 0) := Chunk(GC_CHUNK_SIZE, 0, GC_CHUNK_SIZE)]
  {
    hide Good, Onward, ManyStart, FirstEnds, Leads, Vector, Waiting, Filled;
    var place, place2, b := GC_CHUNK_SIZE, 4 * GC_CHUNK_SIZE, Addr(1, 1, 0);
    var s, v0 := ManyStart(127, place), AtFirst(127, place, place2, 0);
    var v1 := SealOld(127, place, place2, 0);
    ManyHeap(127, place);
    ExpandStep(s, v1, b);
    var v2 := Expand(s, v1, b);
    AdvancedForwards(s, v1, v2);
    StillWaiting(s, v1, v2, 63, 64);
    v := Filled(s, v2, 63, 64, b);
    FilledIsGood(s, v2, 63, 64, b);
    ForwardingTransitive(s, v0, v1, v2);
    ForwardingTransitive(s, v0, v2, v);
    SourceKept(s, v2, v, Addr(1, 0, 0));
    assert v.heap[SECOND] == v2.heap[SECOND];
    StillUncopied(s, v2, v, SECOND);
  }

  /** The first pair is still to be scanned, but the old finger has the numeric address of the old area's
      free position, past the end of the second chunk.  The scan ends, and an assertion fails. */
  lemma UnfinishedExample() returns (v: View)
    ensures var s, chunks := ManyStart(127, GC_CHUNK_SIZE), ManyChunks(4 * GC_CHUNK_SIZE, 0);
            && GoodStart(s) && GoodSpaces(s, chunks, 0, 0)
            && StoppedAt(s, v, Unfinished(Addr(1, 0, 0), Addr(1, 1, GC_CHUNK_SIZE)))
            && Onward(s, FirstView(s, chunks, 0, 0), v)
            && SECOND in Uncopied(s, v.heap) && Addr(1, 0, 0) in v.gray && Reachable(s, SECOND)
  {
    hide Good, GoodSpaces, GoodStart, Onward, Finger, ManyStart, Uncopied, Reachable, FirstEnds, FirstView, EndsEarly;
    hide AtFirst, ManyChunks;
    StartsWell(127, GC_CHUNK_SIZE, 4 * GC_CHUNK_SIZE, 0);
    v := FillSecond();
    ScansPair(127, GC_CHUNK_SIZE, 4 * GC_CHUNK_SIZE, 0, v);
    SecondIsReached(127, GC_CHUNK_SIZE);
    ManyHeap(127, GC_CHUNK_SIZE);
    FirstFacts(127, GC_CHUNK_SIZE, 4 * GC_CHUNK_SIZE, 0);
    ForwardingIsOnward(ManyStart(127, GC_CHUNK_SIZE), AtFirst(127, GC_CHUNK_SIZE, 4 * GC_CHUNK_SIZE, 0), v);
    MeetsOldEnd(ManyStart(127, GC_CHUNK_SIZE), v);
  }

  lemma MeetsOldEnd(s: Start, v: View)
    requires s.oldGen == 1 && v.cur == 1
    requires v.chunks == ManyChunks(4 * GC_CHUNK_SIZE, 0)[Addr(1, 1, 0) := Chunk(GC_CHUNK_SIZE, 0, GC_CHUNK_SIZE)]
    requires Finger(s, v, Addr(1, 0, 0)) && Addr(1, 0, 0) in v.gray
    ensures EndsEarly(s, v, Addr(1, 0, 0), Addr(1, 1, GC_CHUNK_SIZE))
  {
    hide Finger;
  }
}
