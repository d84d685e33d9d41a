/** Where copies lie: chunks of two semispaces, tiled by objects from a start mark up to an end
    mark, and how the end marks move. */
module ChunkLayout {
  import opened SchemeHeap
  import opened Copying

  /** The chunks in use of both semispaces, by name. */
  type Chunks = map<Addr, Chunk>

  /** The end of the objects written so far, for each chunk. */
  type Ends = map<Addr, nat>

  /** An object written by this collection. */
  predicate Tile(s: Start, h: Heap, a: Addr) {
    a in h && a !in s.heap
  }

  function Next(h: Heap, a: Addr): Addr
    requires a in h
  {
    a.(off := a.off + Size(h[a]))
  }

  ghost predicate TileFits(s: Start, h: Heap, ends: Ends, a: Addr)
    requires a in h
  {
    && Base(a) in ends && a.off < Next(h, a).off <= ends[Base(a)]
    && (Next(h, a).off == ends[Base(a)] || Tile(s, h, Next(h, a)))
  }

  /** What this collection writes lies behind what was there before. */
  ghost predicate Behind(s: Start, h: Heap) {
    forall a, b | a in s.heap && Tile(s, h, b) && Base(a) == Base(b) :: a.off < b.off
  }

  /** In every chunk, the objects written so far follow each other without gap or overlap up to
      the chunk's end mark, behind what was there before, and nothing lies beyond it. */
  ghost predicate Tiled(s: Start, h: Heap, ends: Ends) {
    && (forall a | Tile(s, h, a) :: TileFits(s, h, ends, a))
    && (forall a, b | Tile(s, h, a) && Tile(s, h, b) && Base(a) == Base(b) && a.off < b.off ::
          Next(h, a).off <= b.off)
    && (forall a | a in s.heap && Base(a) in ends :: a.off < ends[Base(a)])
    && Behind(s, h)
    && (forall k | k in ends :: ends[k] % 8 == 0)
  }

  /** Nothing lies at or beyond the end mark of a chunk. */
  lemma EndsAreFree(s: Start, h: Heap, ends: Ends)
    requires Tiled(s, h, ends)
    ensures forall a | a in h && Base(a) in ends :: a.off < ends[Base(a)]
  {
    forall a | a in h && Base(a) in ends ensures a.off < ends[Base(a)] {
      if a !in s.heap {
        assert Tile(s, h, a) && TileFits(s, h, ends, a);
      }
    }
  }

  /** Writing an object at the end mark. */
  lemma AppendTiled(s: Start, h: Heap, ends: Ends, b: Addr, o: Obj)
    requires Tiled(s, h, ends) && Base(b) in ends && b.off == ends[Base(b)] && Size(o) > 0
    requires b !in h && b !in s.heap
    ensures Tiled(s, h[b := o], ends[Base(b) := b.off + Size(o)])
  {
    hide Behind, Size;
    var h', ends' := h[b := o], ends[Base(b) := b.off + Size(o)];
    AppendBehind(s, h, ends, b, o);
    assert Size(o) % 8 == 0 by {
      SizeIsEven(o);
    }
    forall a | Tile(s, h', a) ensures TileFits(s, h', ends', a) {
      if a != b {
        assert Tile(s, h, a) && TileFits(s, h, ends, a);
        assert Next(h, a).off == ends[Base(a)] && Base(a) == Base(b) ==> Next(h, a) == b;
      }
    }
    forall a, c | Tile(s, h', a) && Tile(s, h', c) && Base(a) == Base(c) && a.off < c.off
      ensures Next(h', a).off <= c.off
    {
      AppendOrdered(s, h, ends, b, a, c);
    }
  }

  lemma SizeIsEven(o: Obj)
    ensures Size(o) % 8 == 0
  {
  }

  lemma AppendBehind(s: Start, h: Heap, ends: Ends, b: Addr, o: Obj)
    requires Tiled(s, h, ends) && Base(b) in ends && b.off == ends[Base(b)] && b !in s.heap
    ensures Behind(s, h[b := o])
  {
    hide Next, TileFits;
  }

  lemma AppendOrdered(s: Start, h: Heap, ends: Ends, b: Addr, a: Addr, c: Addr)
    requires Tiled(s, h, ends) && Base(b) in ends && b.off == ends[Base(b)]
    requires (Tile(s, h, a) || a == b) && (Tile(s, h, c) || c == b) && Base(a) == Base(c) && a.off < c.off
    ensures a in h && a != b && Next(h, a).off <= c.off
  {
    if c != b {
      assert TileFits(s, h, ends, c);
    }
    if a != b {
      assert TileFits(s, h, ends, a);
    }
  }

  /** Changing objects without moving or resizing them. */
  lemma ResizeNothingTiled(s: Start, h: Heap, ends: Ends, h': Heap)
    requires Tiled(s, h, ends) && h'.Keys == h.Keys
    requires forall a | a in h && a !in s.heap :: Size(h'[a]) == Size(h[a])
    ensures Tiled(s, h', ends)
  {
    forall a | Tile(s, h', a) ensures TileFits(s, h', ends, a) {
      assert Tile(s, h, a) && TileFits(s, h, ends, a);
      assert Next(h', a) == Next(h, a);
    }
    forall a, b | Tile(s, h', a) && Tile(s, h', b) && Base(a) == Base(b) && a.off < b.off
      ensures Next(h', a).off <= b.off
    {
      assert Tile(s, h, a) && Tile(s, h, b);
      assert Next(h', a) == Next(h, a);
    }
  }

  /** A fresh empty chunk changes nothing about the others. */
  lemma NewChunkTiled(s: Start, h: Heap, ends: Ends, k: Addr)
    requires Tiled(s, h, ends) && k == Base(k) && k !in ends
    requires forall a | a in s.heap :: Base(a) != k
    ensures Tiled(s, h, ends[k := 0])
  {
    var ends' := ends[k := 0];
    forall a | Tile(s, h, a) ensures TileFits(s, h, ends', a) {
      assert TileFits(s, h, ends, a);
    }
  }

  /** Copies never overlap, whichever chunk they lie in. */
  lemma TilesAreDisjoint(s: Start, h: Heap, ends: Ends, a: Addr, b: Addr)
    requires Tiled(s, h, ends) && Tile(s, h, a) && Tile(s, h, b) && a != b && Base(a) == Base(b)
    ensures Next(h, a).off <= b.off || Next(h, b).off <= a.off
  {
  }

  /** The numeric address of `a`. */
  function Place(chunks: Chunks, a: Addr): nat
    requires Base(a) in chunks
  {
    chunks[Base(a)].place + a.off
  }

  predicate WholePages(c: Chunk) {
    c.place % PAGESIZE == 0 && c.lim % PAGESIZE == 0 && 0 < c.lim
  }

  predicate Apart(c: Chunk, d: Chunk) {
    c.place + c.lim <= d.place || d.place + d.lim <= c.place
  }

  /** The index of the current chunk of the semispace that holds `gen`. */
  function CurrentOf(s: Start, cur: nat, cur2: nat, gen: nat): nat {
    if gen == s.oldGen then cur else cur2
  }

  ghost predicate ChunkFits(s: Start, chunks: Chunks, cur: nat, cur2: nat, ends: Ends, k: Addr)
    requires k in chunks && k in ends
  {
    && k.off == 0 && k.gen in {s.oldGen, s.youngGen} && k.chunk <= CurrentOf(s, cur, cur2, k.gen)
    && ends[k] <= chunks[k].lim && WholePages(chunks[k])
    && chunks[k].top <= chunks[k].lim && chunks[k].top % 8 == 0
    && (k.chunk < CurrentOf(s, cur, cur2, k.gen) ==> ends[k] == chunks[k].lim)
  }

  /** The chunks of either semispace are numbered from 0 to the current one, and hold what was there. */
  ghost predicate Numbered(s: Start, chunks: Chunks, cur: nat, cur2: nat) {
    && (forall c: nat | c <= cur :: Addr(s.oldGen, c, 0) in chunks)
    && (forall c: nat | c <= cur2 :: Addr(s.youngGen, c, 0) in chunks)
    && (forall a | a in s.heap && a.gen in {s.oldGen, s.youngGen} :: Base(a) in chunks)
  }

  ghost predicate AllFit(s: Start, chunks: Chunks, cur: nat, cur2: nat, ends: Ends) {
    ends.Keys == chunks.Keys && forall k | k in chunks :: ChunkFits(s, chunks, cur, cur2, ends, k)
  }

  predicate AllApart(chunks: Chunks) {
    forall j, k | j in chunks && k in chunks && j != k :: Apart(chunks[j], chunks[k])
  }

  /** The two destination semispaces: whole pages, pairwise disjoint, with every chunk but the
      current one filled up to its limit. */
  ghost predicate Spaces(s: Start, chunks: Chunks, cur: nat, cur2: nat, ends: Ends) {
    Numbered(s, chunks, cur, cur2) && AllFit(s, chunks, cur, cur2, ends) && AllApart(chunks)
  }

  /** The chunk after the current one of its semispace is new. */
  lemma NextChunkIsNew(s: Start, chunks: Chunks, cur: nat, cur2: nat, ends: Ends, k: Addr)
    requires Spaces(s, chunks, cur, cur2, ends) && k.chunk == CurrentOf(s, cur, cur2, k.gen) + 1
    requires k.gen in {s.oldGen, s.youngGen} && k.off == 0
    ensures k !in chunks && k !in ends && forall a | a in s.heap :: Base(a) != k
  {
    forall j | j in chunks ensures j.chunk <= CurrentOf(s, cur, cur2, j.gen) {
      assert ChunkFits(s, chunks, cur, cur2, ends, j);
    }
  }

  /** Adding a chunk to a semispace whose current chunk is full. */
  lemma ExpandKeepsSpaces(s: Start, chunks: Chunks, cur: nat, cur2: nat, ends: Ends, k: Addr, c: Chunk)
    requires Spaces(s, chunks, cur, cur2, ends) && s.oldGen != s.youngGen
    requires k.gen in {s.oldGen, s.youngGen} && k.off == 0
    requires k.chunk == CurrentOf(s, cur, cur2, k.gen) + 1
    requires var full := Addr(k.gen, k.chunk - 1, 0); full in chunks && ends[full] == chunks[full].lim
    requires WholePages(c) && c.top == 0
    requires forall j | j in chunks :: Apart(c, chunks[j])
    ensures k !in chunks && k !in ends && forall a | a in s.heap :: Base(a) != k
    ensures var cur', cur2' := if k.gen == s.oldGen then k.chunk else cur, if k.gen == s.oldGen then cur2 else k.chunk;
            Spaces(s, chunks[k := c], cur', cur2', ends[k := 0])
  {
    NextChunkIsNew(s, chunks, cur, cur2, ends, k);
    var cur', cur2' := if k.gen == s.oldGen then k.chunk else cur, if k.gen == s.oldGen then cur2 else k.chunk;
    ExpandNumbered(s, chunks, cur, cur2, k, c, cur', cur2');
    ExpandApart(chunks, k, c);
    hide Numbered, AllApart, ChunkFits;
    forall j | j in chunks || j == k ensures ChunkFits(s, chunks[k := c], cur', cur2', ends[k := 0], j) {
      if j != k {
        ExpandFits(s, chunks, cur, cur2, ends, k, c, cur', cur2', j);
      } else {
        NewFits(s, chunks, ends, k, c, cur', cur2');
      }
    }
  }

  lemma ExpandNumbered(s: Start, chunks: Chunks, cur: nat, cur2: nat, k: Addr, c: Chunk, cur': nat, cur2': nat)
    requires Numbered(s, chunks, cur, cur2) && s.oldGen != s.youngGen && k.off == 0
    requires k.gen in {s.oldGen, s.youngGen} && k.chunk == CurrentOf(s, cur, cur2, k.gen) + 1
    requires cur' == (if k.gen == s.oldGen then k.chunk else cur)
    requires cur2' == (if k.gen == s.oldGen then cur2 else k.chunk)
    ensures Numbered(s, chunks[k := c], cur', cur2')
  {
    forall i: nat | i <= k.chunk ensures Addr(k.gen, i, 0) in chunks[k := c] {
      assert i == k.chunk || i <= CurrentOf(s, cur, cur2, k.gen);
    }
  }

  lemma ExpandApart(chunks: Chunks, k: Addr, c: Chunk)
    requires AllApart(chunks) && forall j | j in chunks :: Apart(c, chunks[j])
    ensures AllApart(chunks[k := c])
  {
    hide Apart;
    forall j | j in chunks ensures Apart(chunks[j], c) {
      ApartSymmetric(c, chunks[j]);
    }
  }

  lemma ApartSymmetric(c: Chunk, d: Chunk)
    requires Apart(c, d)
    ensures Apart(d, c)
  {
  }

  lemma NewFits(s: Start, chunks: Chunks, ends: Ends, k: Addr, c: Chunk, cur: nat, cur2: nat)
    requires k.gen in {s.oldGen, s.youngGen} && k.off == 0 && k.chunk == CurrentOf(s, cur, cur2, k.gen)
    requires WholePages(c) && c.top == 0
    ensures ChunkFits(s, chunks[k := c], cur, cur2, ends[k := 0], k)
  {
  }

  lemma ExpandFits(s: Start, chunks: Chunks, cur: nat, cur2: nat, ends: Ends, k: Addr, c: Chunk, cur': nat,
                   cur2': nat, j: Addr)
    requires AllFit(s, chunks, cur, cur2, ends) && s.oldGen != s.youngGen && k !in chunks && k.off == 0
    requires k.gen in {s.oldGen, s.youngGen} && k.chunk == CurrentOf(s, cur, cur2, k.gen) + 1
    requires var full := Addr(k.gen, k.chunk - 1, 0); full in chunks && ends[full] == chunks[full].lim
    requires cur' == (if k.gen == s.oldGen then k.chunk else cur)
    requires cur2' == (if k.gen == s.oldGen then cur2 else k.chunk)
    requires j in chunks
    ensures ChunkFits(s, chunks[k := c], cur', cur2', ends[k := 0], j)
  {
    assert ChunkFits(s, chunks, cur, cur2, ends, j);
  }

  /** Moving end marks up within their chunks. */
  lemma EndsMoveKeepsSpaces(s: Start, chunks: Chunks, cur: nat, cur2: nat, ends: Ends, k: Addr, end: nat)
    requires Spaces(s, chunks, cur, cur2, ends)
    requires k in chunks && ends[k] <= end <= chunks[k].lim
    ensures Spaces(s, chunks, cur, cur2, ends[k := end])
  {
    hide Numbered, AllApart;
    forall j | j in chunks ensures ChunkFits(s, chunks, cur, cur2, ends[k := end], j) {
      assert ChunkFits(s, chunks, cur, cur2, ends, j);
    }
  }

  /** Recording a chunk's first free byte. */
  lemma TopKeepsSpaces(s: Start, chunks: Chunks, cur: nat, cur2: nat, ends: Ends, k: Addr, top: nat)
    requires Spaces(s, chunks, cur, cur2, ends) && k in chunks && top % 8 == 0 && top <= chunks[k].lim
    ensures Spaces(s, chunks[k := chunks[k].(top := top)], cur, cur2, ends)
  {
    TopKeepsApart(chunks, k, top);
    hide AllApart, ChunkFits;
    var chunks' := chunks[k := chunks[k].(top := top)];
    forall j | j in chunks ensures ChunkFits(s, chunks', cur, cur2, ends, j) {
      TopFits(s, chunks, cur, cur2, ends, k, top, j);
    }
  }

  lemma TopKeepsApart(chunks: Chunks, k: Addr, top: nat)
    requires AllApart(chunks) && k in chunks
    ensures AllApart(chunks[k := chunks[k].(top := top)])
  {
    hide Apart;
    var chunks' := chunks[k := chunks[k].(top := top)];
    forall i, j | i in chunks && j in chunks && i != j ensures Apart(chunks'[i], chunks'[j]) {
      TopApart(chunks[i], chunks[j], chunks'[i], chunks'[j]);
    }
  }

  lemma TopApart(c: Chunk, d: Chunk, c': Chunk, d': Chunk)
    requires Apart(c, d) && c'.place == c.place && c'.lim == c.lim && d'.place == d.place && d'.lim == d.lim
    ensures Apart(c', d')
  {
  }

  lemma TopFits(s: Start, chunks: Chunks, cur: nat, cur2: nat, ends: Ends, k: Addr, top: nat, j: Addr)
    requires AllFit(s, chunks, cur, cur2, ends) && k in chunks && j in chunks && top % 8 == 0 && top <= chunks[k].lim
    ensures ChunkFits(s, chunks[k := chunks[k].(top := top)], cur, cur2, ends, j)
  {
    assert ChunkFits(s, chunks, cur, cur2, ends, j);
  }

  // ---- Where new chunks come from.

  /** The same memory, filled differently. */
  predicate SameMemory(c: Chunk, d: Chunk) {
    c.place == d.place && c.lim == d.lim
  }

  /** `d` begins where `c` ends. */
  predicate Touches(c: Chunk, d: Chunk) {
    c.place + c.lim == d.place
  }

  /** What is provided is disjoint memory, and large enough. */
  ghost predicate GoodSupply(supply: Supply) {
    && (forall i: nat :: GC_CHUNK_SIZE <= supply(i).lim && WholePages(supply(i)) && supply(i).top == 0)
    && (forall i: nat, j: nat | i != j :: Apart(supply(i), supply(j)))
  }

  /** What is provided from number `n` on is not in use. */
  ghost predicate Unused(chunks: Chunks, supply: Supply, n: nat) {
    forall i: nat, k | n <= i && k in chunks :: Apart(supply(i), chunks[k])
  }

  /** No chunk in use, or provided from number `n` on, begins where another ends. */
  ghost predicate Spread(chunks: Chunks, supply: Supply, n: nat) {
    && (forall j, k | j in chunks && k in chunks && j != k :: !Touches(chunks[j], chunks[k]))
    && (forall i: nat, k | n <= i && k in chunks :: !Touches(supply(i), chunks[k]) && !Touches(chunks[k], supply(i)))
    && (forall i: nat, j: nat | n <= i && n <= j && i != j :: !Touches(supply(i), supply(j)))
  }

  /** What is left after `n` chunks. */
  function Rest(supply: Supply, n: nat): Supply {
    (i: nat) => supply(n + i)
  }

  lemma RestIsUnused(chunks: Chunks, supply: Supply, n: nat)
    requires GoodSupply(supply) && Unused(chunks, supply, n)
    ensures GoodSupply(Rest(supply, n)) && Unused(chunks, Rest(supply, n), 0)
  {
  }

  lemma RestIsSpread(chunks: Chunks, supply: Supply, n: nat)
    requires Spread(chunks, supply, n)
    ensures Spread(chunks, Rest(supply, n), 0)
  {
  }

  ghost predicate Provided(supply: Supply, n: nat, m: nat, c: Chunk) {
    exists i: nat :: n <= i < m && SameMemory(supply(i), c)
  }

  /** Since `chunks`, when `n` chunks had been provided, up to `chunks'`, with `m` chunks, nothing but
      provided chunks was added. */
  ghost predicate Drawn(supply: Supply, chunks: Chunks, n: nat, chunks': Chunks, m: nat) {
    && n <= m
    && (forall k | k in chunks :: k in chunks' && SameMemory(chunks[k], chunks'[k]))
    && (forall k | k in chunks' && k !in chunks :: Provided(supply, n, m, chunks'[k]))
  }

  lemma DrawnReflexive(supply: Supply, chunks: Chunks, n: nat)
    ensures Drawn(supply, chunks, n, chunks, n)
  {
  }

  lemma DrawnTransitive(supply: Supply, c0: Chunks, n0: nat, c1: Chunks, n1: nat, c2: Chunks, n2: nat)
    requires Drawn(supply, c0, n0, c1, n1) && Drawn(supply, c1, n1, c2, n2)
    ensures Drawn(supply, c0, n0, c2, n2)
  {
    forall k | k in c2 && k !in c0 ensures Provided(supply, n0, n2, c2[k]) {
      if k in c1 {
        assert Provided(supply, n0, n1, c1[k]);
        var i: nat :| n0 <= i < n1 && SameMemory(supply(i), c1[k]);
        assert SameMemory(supply(i), c2[k]);
      } else {
        assert Provided(supply, n1, n2, c2[k]);
        var i: nat :| n1 <= i < n2 && SameMemory(supply(i), c2[k]);
        assert SameMemory(supply(i), c2[k]);
      }
    }
  }

  lemma DrawNext(supply: Supply, chunks: Chunks, n: nat, k: Addr)
    requires k !in chunks
    ensures Drawn(supply, chunks, n, chunks[k := supply(n)], n + 1)
  {
    assert SameMemory(supply(n), chunks[k := supply(n)][k]);
  }

  /** What is left of the supply stays apart from the chunks in use. */
  lemma UnusedKept(supply: Supply, chunks: Chunks, n: nat, chunks': Chunks, m: nat)
    requires GoodSupply(supply) && Unused(chunks, supply, n) && Drawn(supply, chunks, n, chunks', m)
    ensures Unused(chunks', supply, m)
  {
    forall i: nat, k | m <= i && k in chunks' ensures Apart(supply(i), chunks'[k]) {
      if k in chunks {
        assert Apart(supply(i), chunks[k]) && SameMemory(chunks[k], chunks'[k]);
      } else {
        assert Provided(supply, n, m, chunks'[k]);
        var j: nat :| n <= j < m && SameMemory(supply(j), chunks'[k]);
        assert Apart(supply(i), supply(j));
      }
    }
  }

  /** The provided chunk that `c` is, or the chunk that it was. */
  lemma Origin(supply: Supply, chunks: Chunks, n: nat, chunks': Chunks, m: nat, k: Addr) returns (i: nat)
    requires Drawn(supply, chunks, n, chunks', m) && k in chunks'
    ensures k in chunks ==> SameMemory(chunks[k], chunks'[k])
    ensures k !in chunks ==> n <= i < m && SameMemory(supply(i), chunks'[k])
  {
    i := 0;
    if k !in chunks {
      assert Provided(supply, n, m, chunks'[k]);
      i :| n <= i < m && SameMemory(supply(i), chunks'[k]);
    }
  }

  /** Chunks that do not touch go on not touching. */
  lemma SpreadKept(supply: Supply, chunks: Chunks, n: nat, chunks': Chunks, m: nat)
    requires Spread(chunks, supply, n) && Drawn(supply, chunks, n, chunks', m)
    requires forall k | k in chunks' :: 0 < chunks'[k].lim
    ensures Spread(chunks', supply, m)
  {
    hide Drawn;
    forall j, k | j in chunks' && k in chunks' && j != k ensures !Touches(chunks'[j], chunks'[k]) {
      var a := Origin(supply, chunks, n, chunks', m, j);
      var b := Origin(supply, chunks, n, chunks', m, k);
      PairApart(supply, chunks, n, chunks', m, j, k, a, b);
    }
    assert n <= m by {
      DrawnGrows(supply, chunks, n, chunks', m);
    }
    forall i: nat, k | m <= i && k in chunks'
      ensures !Touches(supply(i), chunks'[k]) && !Touches(chunks'[k], supply(i))
    {
      var a := Origin(supply, chunks, n, chunks', m, k);
    }
  }

  lemma DrawnGrows(supply: Supply, chunks: Chunks, n: nat, chunks': Chunks, m: nat)
    requires Drawn(supply, chunks, n, chunks', m)
    ensures n <= m
  {
  }

  lemma PairApart(supply: Supply, chunks: Chunks, n: nat, chunks': Chunks, m: nat, j: Addr, k: Addr, a: nat, b: nat)
    requires Spread(chunks, supply, n) && j in chunks' && k in chunks' && j != k && 0 < chunks'[j].lim
    requires if j in chunks then SameMemory(chunks[j], chunks'[j]) else n <= a && SameMemory(supply(a), chunks'[j])
    requires if k in chunks then SameMemory(chunks[k], chunks'[k]) else n <= b && SameMemory(supply(b), chunks'[k])
    ensures !Touches(chunks'[j], chunks'[k])
  {
    if j !in chunks && k !in chunks && a != b {
      assert !Touches(supply(a), supply(b));
    }
  }
}
