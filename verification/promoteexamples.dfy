/** Concrete promotions: one that can start, and one on which C runs past a chunk. */
module PromotionExamples {
  import opened SchemeHeap
  import opened Copying
  import opened ChunkLayout
  import opened PromotionSteps
  import opened ScanFingers
  import opened Promotion
  import opened PromotionMeaning
  import opened PromotionRun

  /** A collected pair and a remembered pair that point at each other, and a collected vector, the
      root, that points at both. */
  function SmallStart(): Start {
    var young, kept, vec := Addr(0, 0, 0), Addr(1, 0, 0), Addr(0, 0, 8);
    Start(map[young := Cell(PairTag, 0, [Ptr(kept, PairTag), Imm(4)]),
              kept := Cell(PairTag, 0, [Ptr(young, PairTag), Imm(8)]),
              vec := Cell(VecTag, 0, [Ptr(young, PairTag), Ptr(kept, PairTag)])],
          [Ptr(vec, VecTag)], [kept], {}, 1, 2, SupplyFrom(6 * GC_CHUNK_SIZE))
  }

  /** A chunk at `place`, and then chunks elsewhere that leave gaps. */
  function SupplyFrom(place: nat): Supply {
    (i: nat) => Chunk(if i == 0 then place else (8 + 2 * i) * GC_CHUNK_SIZE, 0, GC_CHUNK_SIZE)
  }

  lemma SupplyIsGood(place: nat)
    requires place <= 7 * GC_CHUNK_SIZE && place % PAGESIZE == 0
    ensures GoodSupply(SupplyFrom(place))
  {
    forall i: nat ensures SupplyFrom(place)(i).place % PAGESIZE == 0 && WholePages(SupplyFrom(place)(i)) {
      WholePlaces(8 + 2 * i);
    }
  }

  lemma WholePlaces(n: nat)
    ensures n * GC_CHUNK_SIZE % PAGESIZE == 0
  {
    assert n * GC_CHUNK_SIZE == PAGESIZE * (64 * n);
  }

  /** A chunk for each area, filled up to `top` and `top2`. */
  function TwoChunks(place: nat, top: nat, place2: nat, top2: nat): Chunks {
    map[Addr(1, 0, 0) := Chunk(place, top, GC_CHUNK_SIZE), Addr(2, 0, 0) := Chunk(place2, top2, GC_CHUNK_SIZE)]
  }

  function SmallChunks(): Chunks {
    TwoChunks(2 * GC_CHUNK_SIZE, 8, 4 * GC_CHUNK_SIZE, 0)
  }

  /** A promotion may start from there, with a chunk for each area, and it will finish: there is no
      bytevector, and the chunks are spread out. */
  lemma StartExample()
    ensures GoodStart(SmallStart()) && WritesRemembered(SmallStart()) && GoodSpaces(SmallStart(), SmallChunks(), 0, 0)
    ensures EvenBytes(SmallStart()) && Spread(SmallChunks(), SmallStart().supply, 0)
  {
    hide GoodStart, WritesRemembered, EvenBytes, Spread;
    SmallHeapIsGood();
    ChunksFit(SmallStart(), 2 * GC_CHUNK_SIZE, 8, 4 * GC_CHUNK_SIZE, 0, 6 * GC_CHUNK_SIZE);
    SmallChunksAreSpread();
  }

  lemma SmallChunksAreSpread()
    ensures EvenBytes(SmallStart()) && Spread(SmallChunks(), SmallStart().supply, 0)
  {
    var chunks, supply := SmallChunks(), SmallStart().supply;
    assert forall k | k in chunks :: OnEvenPlace(chunks[k]) by {
      assert OnEvenPlace(Chunk((2 * 1) * GC_CHUNK_SIZE, 8, GC_CHUNK_SIZE));
      assert OnEvenPlace(Chunk((2 * 2) * GC_CHUNK_SIZE, 0, GC_CHUNK_SIZE));
    }
    assert supply == SupplyFrom(6 * GC_CHUNK_SIZE);
    hide SmallChunks, SmallStart, TwoChunks, SupplyFrom, OnEvenPlace, Touches;
    forall i: nat ensures OnEvenPlace(supply(i)) {
      ProvidedOnEvenPlace(i);
    }
    forall c, d | OnEvenPlace(c) && OnEvenPlace(d) ensures !Touches(c, d) {
      EvenPlacesAreSpread(c, d);
    }
  }

  /** Every second place is left free. */
  ghost predicate OnEvenPlace(c: Chunk) {
    c.lim == GC_CHUNK_SIZE && exists n: nat :: c.place == (2 * n) * GC_CHUNK_SIZE
  }

  lemma ProvidedOnEvenPlace(i: nat)
    ensures OnEvenPlace(SupplyFrom(6 * GC_CHUNK_SIZE)(i))
  {
    assert SupplyFrom(6 * GC_CHUNK_SIZE)(i).place == (2 * if i == 0 then 3 else 4 + i) * GC_CHUNK_SIZE;
  }

  lemma EvenPlacesAreSpread(c: Chunk, d: Chunk)
    requires OnEvenPlace(c) && OnEvenPlace(d)
    ensures !Touches(c, d)
  {
  }

  lemma SmallHeapIsGood()
    ensures GoodStart(SmallStart()) && WritesRemembered(SmallStart())
  {
    var s := SmallStart();
    forall a | a in s.heap ensures GoodObject(s.heap, s.heap[a]) && Extent(s.heap[a]) <= GC_LARGE_OBJECT_LIMIT {
    }
    assert s.remembered[0] == Addr(1, 0, 0);
  }

  /** A reachable four-byte bytevector, and 8 bytes left in the old area's chunk. */
  function TightStart(): Start {
    var a := Addr(0, 0, 0);
    Start(map[a := Bytes(0, [0, 0, 0, 0])], [Ptr(a, BvecTag)], [], {}, 1, 2, SupplyFrom(6 * GC_CHUNK_SIZE))
  }

  function TightChunks(): Chunks {
    TwoChunks(2 * GC_CHUNK_SIZE, 262136, 4 * GC_CHUNK_SIZE, 0)
  }

  /** After the padding. */
  function AfterPad(): View {
    Fill(FirstView(TightStart(), TightChunks(), 0, 0), Addr(1, 0, 262136), ZERO_PAIR)
  }

  lemma TightEnds()
    ensures FirstEnds(TightStart(), TightChunks(), 0, 0) == map[Addr(1, 0, 0) := 262136, Addr(2, 0, 0) := 0]
  {
  }

  lemma TightPadded()
    ensures Good(TightStart(), AfterPad()) && AfterPad().chunks == TightChunks()
    ensures Onward(TightStart(), FirstView(TightStart(), TightChunks(), 0, 0), AfterPad())
    ensures Uncopied(TightStart(), AfterPad().heap) == Uncopied(TightStart(), TightStart().heap)
    ensures AfterPad().ends == map[Addr(1, 0, 0) := 262144, Addr(2, 0, 0) := 0] && AfterPad().cur == 0
  {
    hide Good, GoodSpaces, GoodStart, Uncopied, FirstEnds, TightStart, Advanced;
    TightIsGood();
    TightEnds();
    TightGenerations();
    FirstStep(TightStart(), TightChunks(), 0, 0);
    FillStep(TightStart(), FirstView(TightStart(), TightChunks(), 0, 0), Addr(1, 0, 262136), ZERO_PAIR);
  }

  lemma TightGenerations()
    ensures TightStart().oldGen == 1 && TightStart().youngGen == 2
  {
  }

  /** The bytevector passes the space check; padding then takes the 8 bytes, and the copy would begin
      where the chunk ends.  No chunk is near. */
  lemma OverrunExample()
    ensures GoodStart(TightStart()) && GoodSpaces(TightStart(), TightChunks(), 0, 0)
    ensures Extent(TightStart().heap[Addr(0, 0, 0)]) <= 262144 - 262136
    ensures StoppedAt(TightStart(), AfterPad(), Overrun(Addr(0, 0, 0), Addr(1, 0, 262136), 262144))
    ensures Onward(TightStart(), FirstView(TightStart(), TightChunks(), 0, 0), AfterPad())
  {
    hide Good, GoodSpaces, GoodStart, AfterPad;
    TightIsGood();
    TightPadded();
    assert Leads(TightStart(), FromRoot(0), Addr(0, 0, 0));
  }

  lemma TightIsGood()
    ensures GoodStart(TightStart()) && GoodSpaces(TightStart(), TightChunks(), 0, 0)
  {
    hide GoodStart;
    TightHeapIsGood();
    TightEnds();
    ChunksFit(TightStart(), 2 * GC_CHUNK_SIZE, 262136, 4 * GC_CHUNK_SIZE, 0, 6 * GC_CHUNK_SIZE);
  }

  lemma TightHeapIsGood()
    ensures GoodStart(TightStart())
  {
    var s := TightStart();
    assert GoodObject(s.heap, s.heap[Addr(0, 0, 0)]);
  }

  /** Two semispaces of one chunk each. */
  lemma ChunksFit(s: Start, place: nat, top: nat, place2: nat, top2: nat, place3: nat)
    requires s.oldGen == 1 && s.youngGen == 2 && s.supply == SupplyFrom(place3)
    requires top % 8 == 0 && top <= GC_CHUNK_SIZE && top2 % 8 == 0 && top2 <= GC_CHUNK_SIZE
    requires forall a | a in s.heap :: a.gen == 0 || (Base(a) == Addr(1, 0, 0) && a.off < top)
    requires place <= 7 * GC_CHUNK_SIZE && place2 <= 7 * GC_CHUNK_SIZE && place3 <= 7 * GC_CHUNK_SIZE
    requires place % PAGESIZE == 0 && place2 % PAGESIZE == 0 && place3 % PAGESIZE == 0
    requires var c, c2, c3 := Chunk(place, 0, GC_CHUNK_SIZE), Chunk(place2, 0, GC_CHUNK_SIZE),
                              Chunk(place3, 0, GC_CHUNK_SIZE);
             Apart(c, c2) && Apart(c, c3) && Apart(c2, c3)
    ensures GoodSpaces(s, TwoChunks(place, top, place2, top2), 0, 0)
  {
    hide SupplyFrom, TwoChunks, GoodSupply, Unused, Spaces, FirstEnds;
    var chunks := TwoChunks(place, top, place2, top2);
    SupplyIsGood(place3);
    NothingUsed(place, top, place2, top2, place3);
    TwoEnds(s, place, top, place2, top2);
    TwoSpaces(s, place, top, place2, top2);
    assert chunks.Keys == {Addr(1, 0, 0), Addr(2, 0, 0)} by {
      TwoKeys(place, top, place2, top2);
    }
  }

  lemma TwoKeys(place: nat, top: nat, place2: nat, top2: nat)
    ensures TwoChunks(place, top, place2, top2).Keys == {Addr(1, 0, 0), Addr(2, 0, 0)}
  {
  }

  lemma TwoEnds(s: Start, place: nat, top: nat, place2: nat, top2: nat)
    requires s.oldGen == 1 && s.youngGen == 2
    ensures FirstEnds(s, TwoChunks(place, top, place2, top2), 0, 0) == map[Addr(1, 0, 0) := top, Addr(2, 0, 0) := top2]
  {
  }

  lemma TwoSpaces(s: Start, place: nat, top: nat, place2: nat, top2: nat)
    requires s.oldGen == 1 && s.youngGen == 2
    requires top % 8 == 0 && top <= GC_CHUNK_SIZE && top2 % 8 == 0 && top2 <= GC_CHUNK_SIZE
    requires forall a | a in s.heap :: a.gen == 0 || Base(a) == Addr(1, 0, 0)
    requires Apart(Chunk(place, 0, GC_CHUNK_SIZE), Chunk(place2, 0, GC_CHUNK_SIZE))
    requires place % PAGESIZE == 0 && place2 % PAGESIZE == 0
    ensures Spaces(s, TwoChunks(place, top, place2, top2), 0, 0,
                   map[Addr(1, 0, 0) := top, Addr(2, 0, 0) := top2])
  {
    assert GC_CHUNK_SIZE % PAGESIZE == 0;
  }

  lemma NothingUsed(place: nat, top: nat, place2: nat, top2: nat, place3: nat)
    requires place <= 7 * GC_CHUNK_SIZE && place2 <= 7 * GC_CHUNK_SIZE
    requires var c, c2, c3 := Chunk(place, 0, GC_CHUNK_SIZE), Chunk(place2, 0, GC_CHUNK_SIZE),
                              Chunk(place3, 0, GC_CHUNK_SIZE);
             Apart(c, c3) && Apart(c2, c3)
    ensures Unused(TwoChunks(place, top, place2, top2), SupplyFrom(place3), 0)
  {
  }
}
