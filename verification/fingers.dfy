/** The scan finger of a semispace: everything before it has been scanned, nothing after it. */
module ScanFingers {
  import opened SchemeHeap
  import opened Copying
  import opened ChunkLayout
  import opened PromotionSteps

  predicate Before(b: Addr, sp: Addr) {
    b.chunk < sp.chunk || (b.chunk == sp.chunk && b.off < sp.off)
  }

  /** An object starts at `sp`, or the objects of its chunk end there. */
  ghost predicate AtBoundary(s: Start, v: View, sp: Addr) {
    Base(sp) in v.ends && (sp.off == v.ends[Base(sp)] || Tile(s, v.heap, sp))
  }

  /** `sp` separates the scanned copies of its generation from the others, and later chunks are
      tiled from their first byte. */
  ghost predicate Finger(s: Start, v: View, sp: Addr) {
    && sp.gen in {s.oldGen, s.youngGen}
    && AtBoundary(s, v, sp)
    && (forall b | b in v.src && b.gen == sp.gen :: b in v.gray <==> !Before(b, sp))
    && (forall k | k in v.ends && k.gen == sp.gen && k.chunk > sp.chunk && k.off == 0 :: AtBoundary(s, v, k))
  }

  lemma BoundaryKept(s: Start, v: View, v': View, sp: Addr)
    requires Good(s, v) && Good(s, v') && Onward(s, v, v') && AtBoundary(s, v, sp)
    ensures AtBoundary(s, v', sp)
  {
    var k := Base(sp);
    assert k in v'.ends && (v'.ends[k] == v.ends[k] || Addr(k.gen, k.chunk, v.ends[k]) in v'.heap);
    if sp.off == v.ends[k] {
      EndsAreFree(s, v.heap, v.ends);
      assert sp == Addr(k.gen, k.chunk, v.ends[k]);
      assert sp !in s.heap by {
        assert Tiled(s, v.heap, v.ends);
      }
    }
  }

  /** Where the start of a chunk is, relative to a collection that began before it was added. */
  lemma NewChunkBoundary(s: Start, v: View, v': View, k: Addr)
    requires Good(s, v) && Onward(s, v, v') && k in v'.ends && k !in v.ends
    requires k.off == 0 && k.gen in {s.oldGen, s.youngGen}
    ensures AtBoundary(s, v', k)
  {
    assert EndOr0(v, k) == 0;
    assert k == Addr(k.gen, k.chunk, 0);
    assert k !in s.heap by {
      assert k in s.heap ==> Base(k) in v.chunks;
    }
  }

  /** Forwarding objects leaves a finger where it is. */
  lemma FingerKept(s: Start, v: View, v': View, sp: Addr)
    requires Good(s, v) && Good(s, v') && Forwarding(s, v, v') && Finger(s, v, sp)
    ensures Finger(s, v', sp)
  {
    hide Good, Onward, Consistent, Tiled, Spaces;
    FingerChunk(s, v, sp);
    BoundaryKept(s, v, v', sp);
    NewCopies(s, v, v', sp);
    forall b | b in v'.src && b.gen == sp.gen ensures b in v'.gray <==> !Before(b, sp) {
      SourceKept(s, v, v', b);
    }
    forall k | k in v'.ends && k.gen == sp.gen && k.chunk > sp.chunk && k.off == 0 ensures AtBoundary(s, v', k) {
      if k in v.ends {
        BoundaryKept(s, v, v', k);
      } else {
        NewChunkBoundary(s, v, v', k);
      }
    }
  }

  lemma SourceKept(s: Start, v: View, v': View, b: Addr)
    requires Onward(s, v, v')
    ensures b in v.src ==> b in v'.src
  {
  }

  lemma FingerChunk(s: Start, v: View, sp: Addr)
    requires Good(s, v) && Base(sp) in v.ends
    ensures Base(sp) in v.chunks && sp.chunk <= CurrentOf(s, v.cur, v.cur2, sp.gen)
    ensures v.ends[Base(sp)] <= v.chunks[Base(sp)].lim
    ensures sp.chunk < CurrentOf(s, v.cur, v.cur2, sp.gen) ==> v.ends[Base(sp)] == v.chunks[Base(sp)].lim
  {
    assert ChunkFits(s, v.chunks, v.cur, v.cur2, v.ends, Base(sp));
  }

  lemma NewCopies(s: Start, v: View, v': View, sp: Addr)
    requires Onward(s, v, v') && AtBoundary(s, v, sp) && Good(s, v)
    requires sp.chunk <= CurrentOf(s, v.cur, v.cur2, sp.gen)
    ensures forall b | b in v'.src && b !in v.src && b.gen == sp.gen :: !Before(b, sp)
  {
    assert Tile(s, v.heap, sp) ==> TileFits(s, v.heap, v.ends, sp);
    forall b | b in v'.src && b !in v.src && b.gen == sp.gen ensures !Before(b, sp) {
      assert Beyond(s, v, b);
      assert b.chunk == sp.chunk ==> Base(b) == Base(sp);
    }
  }

  /** Counting the object at the finger as scanned, and moving the finger past it. */
  lemma FingerMoves(s: Start, v: View, sp: Addr, gray: set<Addr>, extra: set<Word>)
    requires Good(s, v) && Finger(s, v, sp) && Tile(s, v.heap, sp) && gray == v.gray - {sp}
    ensures Finger(s, v.(gray := gray, extra := extra), Next(v.heap, sp))
    ensures Base(Next(v.heap, sp)) == Base(sp) && sp.off < Next(v.heap, sp).off
  {
    hide Consistent, Tiled, Spaces, GoodStart, Good;
    var v', sp' := v.(gray := gray, extra := extra), Next(v.heap, sp);
    TileIsBounded(s, v, sp);
    forall b | b in v.src && b.gen == sp.gen ensures b in gray <==> !Before(b, sp') {
      CopyIsTile(s, v, b);
      if b.chunk == sp.chunk && b != sp {
        TilesOrdered(s, v, b, sp);
      }
    }
    forall k | k in v.ends && k.gen == sp.gen && k.chunk > sp.chunk && k.off == 0 ensures AtBoundary(s, v', k) {
      assert AtBoundary(s, v, k);
    }
  }

  lemma TileIsBounded(s: Start, v: View, a: Addr)
    requires Good(s, v) && Tile(s, v.heap, a)
    ensures TileFits(s, v.heap, v.ends, a)
  {
  }

  lemma TilesOrdered(s: Start, v: View, a: Addr, b: Addr)
    requires Good(s, v) && Tile(s, v.heap, a) && Tile(s, v.heap, b) && a != b
    requires a.gen == b.gen && a.chunk == b.chunk
    ensures Next(v.heap, a).off <= b.off || Next(v.heap, b).off <= a.off
  {
    TilesAreDisjoint(s, v.heap, v.ends, a, b);
  }

  lemma CopyIsTile(s: Start, v: View, b: Addr)
    requires Good(s, v) && b in v.src
    ensures Tile(s, v.heap, b) && TileFits(s, v.heap, v.ends, b) && b.gen in {s.oldGen, s.youngGen}
  {
    assert IsCopy(s, v.heap, v.src, b);
  }

  /** The finger of the other semispace does not notice. */
  lemma OtherFinger(s: Start, v: View, sp: Addr, sp2: Addr, gray: set<Addr>, extra: set<Word>)
    requires Finger(s, v, sp2) && gray == v.gray - {sp} && sp.gen != sp2.gen
    ensures Finger(s, v.(gray := gray, extra := extra), sp2)
  {
    var v' := v.(gray := gray, extra := extra);
    assert forall k :: AtBoundary(s, v, k) ==> AtBoundary(s, v', k);
  }

  /** A finger depends on the objects and on what was scanned, and on nothing else. */
  lemma FingerIgnores(s: Start, v: View, v': View, sp: Addr)
    requires Finger(s, v, sp) && v'.heap == v.heap && v'.src == v.src && v'.gray == v.gray && v'.ends == v.ends
    ensures Finger(s, v', sp)
  {
    assert forall k :: AtBoundary(s, v, k) ==> AtBoundary(s, v', k);
  }

  /** A finger at the end of a chunk may go to the start of the next one. */
  lemma FingerNextChunk(s: Start, v: View, sp: Addr)
    requires Good(s, v) && Finger(s, v, sp) && Base(sp) in v.chunks && sp.off == v.chunks[Base(sp)].lim
    requires sp.chunk < CurrentOf(s, v.cur, v.cur2, sp.gen)
    ensures Addr(sp.gen, sp.chunk + 1, 0) in v.chunks
    ensures 0 < v.chunks[Addr(sp.gen, sp.chunk + 1, 0)].lim && Finger(s, v, Addr(sp.gen, sp.chunk + 1, 0))
  {
    hide Consistent, Tiled, AtBoundary, BlackIsClean, ExtraIsExact, RootsStand, GoodStart;
    var k := Addr(sp.gen, sp.chunk + 1, 0);
    assert k in v.chunks && k in v.ends;
    assert ChunkFits(s, v.chunks, v.cur, v.cur2, v.ends, k);
    FingerChunk(s, v, sp);
    forall b | b in v.src && b.gen == sp.gen ensures b in v.gray <==> !Before(b, k) {
      CopyIsTile(s, v, b);
      assert b.chunk == sp.chunk ==> Base(b) == Base(sp);
    }
    assert AtBoundary(s, v, k);
  }

  /** A finger at the end of the current chunk, or at the seal of its tail, has nothing left. */
  lemma FingerDone(s: Start, v: View, sp: Addr)
    requires Good(s, v) && Finger(s, v, sp) && sp.chunk == CurrentOf(s, v.cur, v.cur2, sp.gen)
    requires Base(sp) in v.ends
    requires sp.off == v.ends[Base(sp)]
             || (sp in v.heap && sp !in v.src && sp !in s.heap && v.heap[sp].Seal?
                && Next(v.heap, sp).off == v.ends[Base(sp)])
    ensures forall b | b in v.gray :: b.gen != sp.gen
  {
    forall b | b in v.src && b.gen == sp.gen ensures Before(b, sp) {
      CopyIsTile(s, v, b);
      FingerChunk(s, v, b);
      if b.chunk == sp.chunk && sp.off != v.ends[Base(sp)] {
        TilesOrdered(s, v, b, sp);
      }
    }
  }

  /** The object at the finger is an unscanned copy, or filler. */
  lemma ObjectAtFinger(s: Start, v: View, sp: Addr)
    requires Good(s, v) && Finger(s, v, sp) && Tile(s, v.heap, sp)
    ensures sp in v.src ==> sp in v.gray
    ensures sp !in v.src ==> Filler(v.heap[sp]) && Clean(v.heap[sp], s.youngGen)
    ensures Scannable(s, v, sp, 0) || !v.heap[sp].Cell?
  {
    hide Good, Finger, Clean;
    UnscannedAtFinger(s, v, sp);
    if sp !in v.src {
      FillerOutsideCopies(s, v, sp);
      FillerIsEmpty(v.heap[sp]);
    }
  }

  lemma UnscannedAtFinger(s: Start, v: View, sp: Addr)
    requires Finger(s, v, sp)
    ensures sp in v.src ==> sp in v.gray
  {
  }

  /** What is neither old nor a copy is filler. */
  lemma FillerOutsideCopies(s: Start, v: View, a: Addr)
    requires Good(s, v) && Tile(s, v.heap, a) && a !in v.src
    ensures FillerAt(a, v.heap[a])
  {
    hide Tiled, Spaces, BlackIsClean, ExtraIsExact, RootsStand, Justified, SweptIsClean, GoodStart, SupplyLeft;
    hide IsCopy, CopyOf, Forwarded;
  }

  lemma FillerIsEmpty(o: Obj)
    requires Filler(o)
    ensures forall limit :: Clean(o, limit)
    ensures o.Cell? ==> o == ZERO_PAIR
  {
  }

  /** The first object of a chunk is a copy, so at the finger it is still to be scanned. */
  lemma StartIsGray(s: Start, v: View, sp: Addr)
    requires Good(s, v) && Finger(s, v, sp) && Tile(s, v.heap, sp) && sp.off == 0
    ensures sp in v.gray
  {
    hide Good, Finger;
    UnscannedAtFinger(s, v, sp);
    if sp !in v.src {
      FillerOutsideCopies(s, v, sp);
    }
  }

  /** The current chunks of the two destinations at the start. */
  lemma FirstFree(s: Start, chunks: Chunks, cur: nat, cur2: nat)
    requires GoodStart(s) && GoodSpaces(s, chunks, cur, cur2)
    ensures var k, k2 := Addr(s.oldGen, cur, 0), Addr(s.youngGen, cur2, 0);
            var ends := FirstEnds(s, chunks, cur, cur2);
            && k in chunks && k in ends && ends[k] == chunks[k].top <= chunks[k].lim
            && k2 in chunks && k2 in ends && ends[k2] == chunks[k2].top <= chunks[k2].lim
  {
    var ends := FirstEnds(s, chunks, cur, cur2);
    assert ChunkFits(s, chunks, cur, cur2, ends, Addr(s.oldGen, cur, 0));
    assert ChunkFits(s, chunks, cur, cur2, ends, Addr(s.youngGen, cur2, 0));
  }

  /** At the start a finger is where allocation will begin. */
  lemma FirstFinger(s: Start, chunks: Chunks, cur: nat, cur2: nat, sp: Addr)
    requires GoodSpaces(s, chunks, cur, cur2) && s.oldGen < s.youngGen
    requires sp.gen in {s.oldGen, s.youngGen} && sp.chunk == CurrentOf(s, cur, cur2, sp.gen)
    requires Base(sp) in chunks && sp.off == chunks[Base(sp)].top
    ensures Finger(s, FirstView(s, chunks, cur, cur2), sp)
  {
    var v := FirstView(s, chunks, cur, cur2);
    forall k | k in chunks ensures k.chunk <= CurrentOf(s, cur, cur2, k.gen) {
      assert ChunkFits(s, chunks, cur, cur2, v.ends, k);
    }
  }
}
