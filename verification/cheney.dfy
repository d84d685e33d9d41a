/** Two-destination promotion: live objects move into the old area until its budget of chunks is
    spent, and into the young area from then on. */
module Promotion {
  import opened SchemeHeap
  import opened Copying
  import opened ChunkLayout
  import opened PromotionSteps
  import opened ScanFingers

  /** Why a run stopped early, and where: the object `obj` was about to be copied to `dest` and
      past `end`, the end of its chunk; the scan goes round forever because the old finger `scan`
      has the numeric address of the young `dest`; or the scan ends in a failing assertion because
      a finger `scan` has the numeric address of the `dest` of its own area. */
  datatype Fault =
    | NoFault
    | Overrun(obj: Addr, dest: Addr, end: nat)
    | Endless(scan: Addr, dest: Addr)
    | Unfinished(scan: Addr, dest: Addr)

  /** `q` is past the end of a full chunk, and the chunk that starts at `p` begins there. */
  predicate Abuts(chunks: Chunks, q: Addr, p: Addr) {
    && Base(p) in chunks && Base(q) in chunks && Base(p) != Base(q) && p.off == 0
    && q.off == chunks[Base(q)].lim && chunks[Base(q)].place + chunks[Base(q)].lim == chunks[Base(p)].place
  }

  /** The bytevector `obj`, reached and not yet moved, fits the room at `dest` exactly; but the
      room begins in the middle of 16 bytes and 8 bytes of it have just been used for padding. */
  ghost predicate RunsPast(s: Start, v: View, obj: Addr, dest: Addr, end: nat) {
    && obj in Uncopied(s, v.heap) && obj in s.heap && s.heap[obj].Bytes? && Reachable(s, obj)
    && Base(dest) in v.chunks && end == v.chunks[Base(dest)].lim
    && dest.off % 16 == 8 && dest.off + Size(s.heap[obj]) == end
    && IsFree(s, v, dest.(off := dest.off + 8))
  }

  /** There is an object to scan at the old finger `sp`, but its address is that of the young
      area's free position `d`, where the young finger stands, too. */
  ghost predicate GoesRound(s: Start, v: View, sp: Addr, d: Addr) {
    && sp.gen == s.oldGen && Finger(s, v, sp) && sp in v.gray
    && d.gen == s.youngGen && Finger(s, v, d) && IsFree(s, v, d)
    && Abuts(v.chunks, d, sp)
  }

  /** There is an object to scan at the finger `sp`, but its address is that of the position `d`
      where allocation in the same area has ended. */
  ghost predicate EndsEarly(s: Start, v: View, sp: Addr, d: Addr) {
    && sp.gen == d.gen && Finger(s, v, sp) && sp in v.gray
    && sp.chunk < d.chunk == CurrentOf(s, v.cur, v.cur2, d.gen)
    && Abuts(v.chunks, d, sp)
  }

  /** Up to the place where the run stopped everything is in order. */
  ghost predicate StoppedAt(s: Start, v: View, fault: Fault) {
    && Good(s, v)
    && match fault
       case NoFault => false
       case Overrun(obj, dest, end) => RunsPast(s, v, obj, dest, end)
       case Endless(scan, dest) => GoesRound(s, v, scan, dest)
       case Unfinished(scan, dest) => EndsEarly(s, v, scan, dest)
  }

  function Max(a: int, b: int): int {
    if a > b then a else b
  }

  /** There are `steps` whole chunks in `bytes` bytes. */
  predicate StepsIn(steps: int, bytes: nat) {
    steps * GC_CHUNK_SIZE <= bytes < (steps + 1) * GC_CHUNK_SIZE
  }

  class CheneyEnv {
    // Memory.
    var heap: Heap
    var roots: seq<Word>

    // The two semispaces and their generations.
    const oldGen: nat
    const youngGen: nat
    var chunks: Chunks
    var current: nat
    var current2: nat
    const supply: Supply  // the chunks that may be asked for
    var taken: nat        // how many of them were

    // Allocation and scan positions in each; limits are offsets in the same chunk.
    var dest: Addr
    var lim: nat
    var dest2: Addr
    var lim2: nat
    var scanPtr: Addr
    var scanLim: nat
    var scanPtr2: Addr
    var scanLim2: nat

    // Non-predictive promotion.
    var hasSwitched: bool
    var oldSteps: int
    var youngSteps: int
    const oldLosSteps: int
    var ssb: seq<Word>
    const ssbLimit: nat
    const remembered: seq<Addr>  // the remembered sets of the generations that are not collected
    var npRemset: set<Word>

    var fault: Fault

    // Where the run started, and the rest of the state of `PromotionSteps`.
    ghost const was: Start
    ghost var src: map<Addr, Addr>
    ghost var gray: set<Addr>
    ghost var paths: map<Addr, Path>
    ghost var ends: Ends
    ghost var swept: set<Addr>
    ghost var dropped: set<Addr>
    ghost var switches: nat
    ghost const startCurrent: nat
    ghost const startCurrent2: nat
    ghost const startSteps: int
    ghost const startYoungSteps: int

    ghost function Now(): View
      reads `heap, `roots, `src, `gray, `paths, `npRemset, `ssb, `swept, `dropped, `chunks, `ends, `current
      reads `current2, `taken
    {
      View(heap, roots, src, gray, paths, npRemset + (set w | w in ssb), swept, dropped, chunks, ends, current,
          current2, taken)
    }

    /** `d` and `l` are the live allocation pointer and limit, which a scanning procedure holds in
        local variables; the other destination is parked in the fields. */
    ghost predicate Live(d: Addr, l: nat)
      reads `heap, `roots, `src, `gray, `paths, `npRemset, `ssb, `swept, `dropped, `chunks, `ends, `current
      reads `current2, `taken, `hasSwitched, `dest, `lim, `dest2, `lim2
    {
      && IsFree(was, Now(), d) && d.gen == (if hasSwitched then youngGen else oldGen)
      && Base(d) in chunks && l == chunks[Base(d)].lim
      && (!hasSwitched ==>
            && IsFree(was, Now(), dest2) && dest2.gen == youngGen
            && Base(dest2) in chunks && lim2 == chunks[Base(dest2)].lim && dest2.off == chunks[Base(dest2)].top)
      && (hasSwitched ==>
            dest.gen == oldGen && dest.chunk == current && dest.off % 8 == 0 && Sealed(dest, lim)
            && Base(dest) in chunks && lim == chunks[Base(dest)].lim)
    }

    /** The chunk of `d` is used up, or a fake bignum covers it from `d` on. */
    ghost predicate Sealed(d: Addr, l: nat)
      reads `heap, `src, `ends
    {
      && Base(d) in ends && ends[Base(d)] == l
      && (d.off == l || (d.off < l && d in heap && d !in src && d !in was.heap && heap[d] == Seal(l - d.off)))
    }

    /** The old area has grown by the chunks its budget has lost, and is never overdrawn; the young
        area is entered when the budget is spent, and only once; before that nothing is copied to it,
        and it does not grow. */
    ghost predicate Budget()
      reads `current, `current2, `src, `hasSwitched, `switches, `oldSteps, `youngSteps, `ssb
    {
      && (!hasSwitched ==> current2 == startCurrent2 && forall b | b in src :: b.gen == oldGen)
      && current - startCurrent == startSteps - oldSteps && current2 - startCurrent2 == startYoungSteps - youngSteps
      && (oldSteps == startSteps || startSteps > oldSteps >= oldLosSteps)
      && (hasSwitched ==> oldSteps <= oldLosSteps)
      && switches == (if hasSwitched then 1 else 0)
      && |ssb| < ssbLimit
    }

    ghost predicate SameStart() {
      && was.oldGen == oldGen && was.youngGen == youngGen && was.remembered == remembered && was.supply == supply
    }

    ghost predicate Inv(d: Addr, l: nat)
      reads `heap, `roots, `src, `gray, `paths, `npRemset, `ssb, `swept, `dropped, `chunks, `ends, `current
      reads `current2, `taken, `hasSwitched, `switches, `oldSteps, `youngSteps, `dest, `lim, `dest2, `lim2
    {
      && SameStart() && Good(was, Now()) && Live(d, l) && Budget()
    }

    /** Write a fake bignum over the rest of the current chunk, less than a page, so that scanning
        skips it. */
    method SealChunk(l: nat, d: Addr)
      requires Good(was, Now()) && IsFree(was, Now(), d) && Base(d) in chunks && l == chunks[Base(d)].lim
      requires l - d.off < GC_LARGE_OBJECT_LIMIT
      modifies `heap, `chunks, `ends
      ensures Good(was, Now()) && Advanced(was, old(Now()), Now())
      ensures chunks == old(chunks)[Base(d) := old(chunks[Base(d)]).(top := d.off)]
      ensures heap == if d.off < l then old(heap)[d := Seal(l - d.off)] else old(heap)
      ensures ends == old(ends)[Base(d) := l]
      ensures d !in old(heap) && d !in was.heap && d.off <= l && d.off % 8 == 0
      ensures forall b: Addr | Base(b) != Base(d) && old(IsFree(was, Now(), b)) :: IsFree(was, Now(), b)
      ensures Uncopied(was, heap) == old(Uncopied(was, heap))
    {
      hide Good, Advanced, Uncopied;
      ghost var v := Now();
      SealStep(l, d);
      if d.off < l {
        heap := heap[d := Seal(l - d.off)];
        ends := ends[Base(d) := l];
        assert Now() == Fill(v, d, Seal(l - d.off));
      }
      assert ends == v.ends[Base(d) := l];
      TopStep(was, Now(), Base(d), d.off);
      ghost var v1 := Now();
      chunks := chunks[Base(d) := chunks[Base(d)].(top := d.off)];
      assert Now() == v1.(chunks := chunks);
      TopAdvances(was, v, v1, Base(d), d.off);
    }

    lemma SealStep(l: nat, d: Addr)
      requires Good(was, Now()) && IsFree(was, Now(), d) && Base(d) in chunks && l == chunks[Base(d)].lim
      requires l - d.off < GC_LARGE_OBJECT_LIMIT
      ensures d !in heap && d !in was.heap && d.off <= l && d.off % 8 == 0 && Advanced(was, Now(), Now())
      ensures var v' := Fill(Now(), d, Seal(l - d.off));
              d.off < l ==>
                Good(was, v') && Advanced(was, Now(), v') && Uncopied(was, v'.heap) == Uncopied(was, heap)
                && v'.ends == ends[Base(d) := l]
    {
      hide Good, Advanced, Uncopied;
      FreeIsUnused(was, Now(), d);
      AdvancedReflexive(was, Now());
      LimitsArePages(was, Now(), Base(d));
      if d.off < l {
        FillStep(was, Now(), d, Seal(l - d.off));
      }
    }

    /** A chunk of at least `bytes` bytes: a spare one of the semispace, or memory wherever the operating
        system finds room. */
    method AllocateChunk(bytes: nat) returns (c: Chunk)
      requires Good(was, Now()) && SameStart() && 0 < bytes <= GC_CHUNK_SIZE
      modifies `taken
      ensures c == was.supply(old(taken)) && taken == old(taken) + 1
      ensures bytes <= c.lim && WholePages(c) && c.top == 0
      ensures forall j | j in chunks :: Apart(c, chunks[j])
    {
      hide Good;
      SomeLeft();
      c := supply(taken);
      taken := taken + 1;
    }

    lemma SomeLeft()
      requires Good(was, Now())
      ensures var c := was.supply(taken);
              && GC_CHUNK_SIZE <= c.lim && WholePages(c) && c.top == 0
              && forall j | j in chunks :: Apart(c, chunks[j])
    {
      NextProvided(was, Now());
    }

    /** Add a chunk of at least `bytes` bytes after the current one of generation `gen`. */
    method SsExpand(gen: nat, bytes: nat)
      requires Good(was, Now()) && SameStart() && 0 < bytes <= GC_CHUNK_SIZE && gen in {oldGen, youngGen}
      requires var k := Addr(gen, if gen == oldGen then current else current2, 0);
               k in ends && k in chunks && ends[k] == chunks[k].lim
      modifies `chunks, `current, `current2, `taken, `ends
      ensures Good(was, Now()) && Advanced(was, old(Now()), Now())
      ensures current == old(current) + (if gen == oldGen then 1 else 0)
      ensures current2 == old(current2) + (if gen == oldGen then 0 else 1)
      ensures taken == old(taken) + 1
      ensures var k := Addr(gen, if gen == oldGen then current else current2, 0);
              && k !in old(chunks) && k !in old(ends) && k in chunks && chunks == old(chunks)[k := chunks[k]]
              && ends == old(ends)[k := 0] && bytes <= chunks[k].lim
    {
      hide Good, Advanced;
      ghost var v := Now();
      var c := AllocateChunk(bytes);
      var k := Addr(gen, 1 + if gen == oldGen then current else current2, 0);
      ExpandStep(was, v, k);
      chunks := chunks[k := c];
      ends := ends[k := 0];
      if gen == oldGen {
        current := current + 1;
      } else {
        current2 := current2 + 1;
      }
      assert Now() == Expand(was, v, k);
    }

    /** Seal the current chunk of the live destination and start another one. */
    method NextChunk(l: nat, d: Addr, bytes: nat) returns (l': nat, d': Addr)
      requires Good(was, Now()) && SameStart() && 0 < bytes <= GC_LARGE_OBJECT_LIMIT
      requires IsFree(was, Now(), d) && Base(d) in chunks && l == chunks[Base(d)].lim
      requires l - d.off < GC_LARGE_OBJECT_LIMIT
      modifies `heap, `chunks, `ends, `current, `current2, `taken
      ensures Good(was, Now()) && Advanced(was, old(Now()), Now())
      ensures current == old(current) + (if d.gen == oldGen then 1 else 0)
      ensures current2 == old(current2) + (if d.gen == oldGen then 0 else 1)
      ensures d'.gen == d.gen && IsFree(was, Now(), d') && Base(d') in chunks && l' == chunks[Base(d')].lim
      ensures bytes <= l' - d'.off && GC_CHUNK_SIZE <= l'
      ensures Uncopied(was, heap) == old(Uncopied(was, heap))
      ensures forall k | k in old(chunks) && k != Base(d) :: k in chunks && chunks[k] == old(chunks[k])
      ensures forall k | k in old(ends) && k != Base(d) :: k in ends && ends[k] == old(ends[k])
      ensures forall b | b in old(heap) :: b in heap && heap[b] == old(heap[b])
      ensures forall b: Addr | b.gen != d.gen && old(IsFree(was, Now(), b)) :: IsFree(was, Now(), b)
    {
      hide Good, Advanced, Uncopied;
      ghost var v := Now();
      DistinctGenerations(was, v);
      SealChunk(l, d);
      ghost var v1 := Now();
      SsExpand(d.gen, Max(bytes, GC_CHUNK_SIZE));
      AdvancedTransitive(was, v, v1, Now());
      d' := Addr(d.gen, if d.gen == oldGen then current else current2, 0);
      l' := chunks[d'].lim;
    }

    lemma FreeNames(b: Addr)
      requires IsFree(was, Now(), b)
      ensures b.chunk == CurrentOf(was, current, current2, b.gen) && Base(b) in ends && b.off == ends[Base(b)]
    {
    }

    /** Park the old area's position. */
    method Park(l: nat, d: Addr)
      modifies `hasSwitched, `switches, `dest, `lim
      ensures hasSwitched && switches == old(switches) + 1 && dest == d && lim == l
    {
      hasSwitched := true;
      switches := switches + 1;
      this.dest := d;
      this.lim := l;
    }

    /** The old area's budget is spent: park its sealed position and go on in the young area. */
    method SwitchToYoung(l: nat, d: Addr) returns (l': nat, d': Addr)
      requires Inv(d, l) && !hasSwitched && oldSteps <= oldLosSteps && l - d.off < GC_LARGE_OBJECT_LIMIT
      modifies `heap, `chunks, `ends, `hasSwitched, `switches, `dest, `lim
      ensures Inv(d', l') && hasSwitched && Advanced(was, old(Now()), Now())
      ensures Uncopied(was, heap) == old(Uncopied(was, heap))
    {
      hide Good, Advanced, Uncopied, IsFree;
      DistinctGenerations(was, Now());
      FreeNames(d);
      FreeNames(dest2);
      CopiesInHeap(was, Now());
      Park(l, d);
      SealChunk(l, d);
      var k := Base(dest2);
      d' := Addr(youngGen, current2, chunks[k].top);
      l' := chunks[k].lim;
    }

    /** Another chunk for the old area, paid for from its budget. */
    method ExpandOld(l: nat, d: Addr, bytes: nat) returns (l': nat, d': Addr)
      requires Inv(d, l) && 0 < bytes <= GC_LARGE_OBJECT_LIMIT && l - d.off < GC_LARGE_OBJECT_LIMIT
      requires !hasSwitched && oldLosSteps < oldSteps
      modifies `heap, `chunks, `ends, `current, `current2, `taken, `oldSteps
      ensures Inv(d', l') && Advanced(was, old(Now()), Now()) && bytes <= l' - d'.off && current == old(current) + 1
      ensures Uncopied(was, heap) == old(Uncopied(was, heap))
    {
      hide Good, Advanced, Uncopied, IsFree;
      DistinctGenerations(was, Now());
      oldSteps := oldSteps - 1;
      l', d' := NextChunk(l, d, bytes);
    }

    /** Another chunk for the young area. */
    method ExpandYoung(l: nat, d: Addr, bytes: nat) returns (l': nat, d': Addr)
      requires Inv(d, l) && 0 < bytes <= GC_LARGE_OBJECT_LIMIT && l - d.off < GC_LARGE_OBJECT_LIMIT && hasSwitched
      modifies `heap, `chunks, `ends, `current, `current2, `taken, `youngSteps
      ensures Inv(d', l') && Advanced(was, old(Now()), Now()) && bytes <= l' - d'.off && current2 == old(current2) + 1
      ensures current == old(current)
      ensures Uncopied(was, heap) == old(Uncopied(was, heap))
    {
      hide Good, Advanced, Uncopied, IsFree;
      DistinctGenerations(was, Now());
      youngSteps := youngSteps - 1;
      l', d' := NextChunk(l, d, bytes);
    }

    /** Make room for `bytes` bytes: another chunk of the old area while its budget lasts, then
        the young area's current chunk, then further chunks of the young area. */
    method ExpandSemispaceNp(l: nat, d: Addr, bytes: nat) returns (l': nat, d': Addr)
      requires Inv(d, l) && l - d.off < bytes <= GC_LARGE_OBJECT_LIMIT
      modifies `heap, `chunks, `ends, `current, `current2, `taken, `hasSwitched, `switches, `oldSteps
      modifies `youngSteps, `dest, `lim
      ensures Inv(d', l') && Advanced(was, old(Now()), Now())
      ensures bytes <= l' - d'.off
      ensures hasSwitched <==> old(hasSwitched || oldSteps <= oldLosSteps)
      ensures !hasSwitched ==> current == old(current) + 1
      ensures old(hasSwitched) ==>
                current == old(current) && current2 == old(current2) + 1 && dest == old(dest) && lim == old(lim)
      ensures Uncopied(was, heap) == old(Uncopied(was, heap))
    {
      hide Good, Advanced, Uncopied, Live;
      ghost var v := Now();
      AdvancedReflexive(was, v);
      l', d' := l, d;
      assert 0 < bytes by {
        RoomIsEven(d, l);
      }
      if !hasSwitched && oldSteps - oldLosSteps <= 0 {
        l', d' := SwitchToYoung(l, d);
        if bytes <= l' - d'.off {
          return;
        }
      }
      ghost var v1 := Now();
      if hasSwitched {
        l', d' := ExpandYoung(l', d', bytes);
      } else {
        l', d' := ExpandOld(l', d', bytes);
      }
      AdvancedTransitive(was, v, v1, Now());
    }

    method CheckSpaceNp(d: Addr, l: nat, wanted: nat) returns (d': Addr, l': nat)
      requires Inv(d, l) && 0 < wanted <= GC_LARGE_OBJECT_LIMIT
      modifies `heap, `chunks, `ends, `current, `current2, `taken, `hasSwitched, `switches, `oldSteps
      modifies `youngSteps, `dest, `lim
      ensures Inv(d', l') && Advanced(was, old(Now()), Now())
      ensures wanted <= l' - d'.off
      ensures wanted <= l - d.off ==> unchanged(this) && d' == d && l' == l
      ensures Uncopied(was, heap) == old(Uncopied(was, heap))
      ensures old(hasSwitched) ==> hasSwitched
    {
      hide Good, Advanced, Live, Uncopied;
      AdvancedReflexive(was, Now());
      assert d.off <= l by {
        RoomIsEven(d, l);
      }
      d', l' := d, l;
      if l - d.off < wanted && wanted <= GC_LARGE_OBJECT_LIMIT {
        l', d' := ExpandSemispaceNp(l, d, wanted);
      }
    }

    lemma RoomIsEven(d: Addr, l: nat)
      requires Inv(d, l)
      ensures d.off <= l && d.off % 8 == 0 && l % PAGESIZE == 0 && d !in heap
    {
      FreeIsUnused(was, Now(), d);
    }

    /** Copy the object at `a` to `d` and leave the forwarding header and the new pointer. */
    method CopyWords(a: Addr, d: Addr, ghost via: Path)
      requires a in heap
      modifies `heap, `src, `gray, `paths, `ends
      ensures Now() == Move(old(Now()), a, d, via)
      ensures a in heap && heap[a] == Fwd(Ptr(d, TagOf(old(heap[a]))))
      ensures forall b | b in old(heap) && b != a && b != d :: b in heap && heap[b] == old(heap[b])
      ensures ends == old(ends)[Base(d) := d.off + Size(old(heap[a]))] && src == old(src)[d := a]
    {
      var o := heap[a];
      heap := heap[d := o][a := Fwd(Ptr(d, TagOf(o)))];
      src := src[d := a];
      gray := gray + {d};
      paths := paths[a := via];
      ends := ends[Base(d) := d.off + Size(o)];
    }

    /** Forward the object at `a` to `d`. */
    method Install(a: Addr, d: Addr, l: nat, ghost via: Path) returns (d': Addr)
      requires Inv(d, l) && a in Uncopied(was, heap) && Leads(was, via, a) && a in heap
      requires d.off + Size(heap[a]) <= l && Aligned(d, heap[a])
      modifies `heap, `src, `gray, `paths, `ends
      ensures Inv(d', l) && Advanced(was, old(Now()), Now())
      ensures a in heap && heap[a] == Fwd(Ptr(d, TagOf(old(heap[a])))) && d' == d.(off := d.off + Size(old(heap[a])))
      ensures Uncopied(was, heap) == old(Uncopied(was, heap)) - {a}
    {
      hide Good, Advanced, Uncopied, Leads, Move;
      InstallStep(a, d, l, via);
      d' := d.(off := d.off + Size(heap[a]));
      CopyWords(a, d, via);
    }

    lemma InstallStep(a: Addr, d: Addr, l: nat, via: Path)
      requires Inv(d, l) && a in Uncopied(was, heap) && Leads(was, via, a) && a in heap
      requires d.off + Size(heap[a]) <= l && Aligned(d, heap[a])
      ensures oldGen != youngGen && d !in heap && a in was.heap && a !in src && a != d
      ensures var v' := Move(Now(), a, d, via);
              Good(was, v') && Advanced(was, Now(), v') && Uncopied(was, v'.heap) == Uncopied(was, heap) - {a}
    {
      hide Good, Advanced, Uncopied, Leads, Move;
      DistinctGenerations(was, Now());
      RoomIsEven(d, l);
      MoveStep(was, Now(), a, d, via);
      MoveAdvances(was, Now(), a, d, via);
      UncopiedIsOld(was, Now());
    }

    /** Rounding up to a multiple of 8 bytes cannot pass another multiple of 8 bytes. */
    static lemma Units(off: nat, l: nat, extent: nat, size: nat)
      requires off % 8 == 0 && l % 8 == 0 && size % 8 == 0 && extent <= size < extent + 8 && extent <= l - off
      ensures size <= l - off && (l < off + 8 + size <==> l - off == size)
    {
      var k, p, n := off / 8, l / 8, size / 8;
      assert off == 8 * k && l == 8 * p && size == 8 * n;
    }

    /** From an odd 8-byte unit to the end of a page is an odd number of units. */
    static lemma OddUnits(off: nat, l: nat)
      requires off <= l && off % 16 == 8 && l % 16 == 0
      ensures (l - off) % 16 == 8
    {
      var k, p := off / 16, l / 16;
      assert l - off == 16 * (p - k - 1) + 8;
    }

    static lemma ExtentUnits(o: Obj)
      ensures Extent(o) <= Size(o) < Extent(o) + 8 && Size(o) % 8 == 0
    {}

    /** Where the copy of an object tagged `tag` starts when `off` is free: bytevectors start on
        16-byte boundaries. */
    static function CopyStart(tag: Tag, off: nat): nat {
      if tag == BvecTag && off % 16 == 8 then off + 8 else off
    }

    /** The space check counts neither this padding nor anything else beyond the object itself, so
        a copy runs past the chunk exactly when padding is needed and the object just fits. */
    static lemma OverrunExactly(tag: Tag, off: nat, l: nat, o: Obj)
      requires off % 8 == 0 && l % PAGESIZE == 0 && Extent(o) <= l - off
      ensures l < CopyStart(tag, off) + Size(o) <==> tag == BvecTag && off % 16 == 8 && l - off == Size(o)
      ensures l < CopyStart(tag, off) + Size(o) ==> Size(o) % 16 == 8
      ensures 0 < Extent(o) ==> off < l
    {
      hide Size, Extent, RoundUp8;
      ExtentUnits(o);
      PageUnits(l);
      Units(off, l, Extent(o), Size(o));
      if off % 16 == 8 {
        OddUnits(off, l);
      }
    }

    /** Copy an object that has a header. */
    method Forward(p: Word, d: Addr, l: nat, ghost via: Path) returns (ret: Word, d': Addr)
      requires Inv(d, l) && fault == NoFault
      requires p.Ptr? && p.tag != PairTag && p.addr in Uncopied(was, heap) && Leads(was, via, p.addr)
      requires GoodPointer(was.heap, p) && p.addr in heap && heap[p.addr] == was.heap[p.addr]
      requires p.tag == BvecTag ==> was.heap[p.addr].Bytes?
      requires 0 < Extent(heap[p.addr]) <= l - d.off
      modifies `heap, `src, `gray, `paths, `ends, `fault
      ensures fault != NoFault <==> l < CopyStart(p.tag, d.off) + Size(was.heap[p.addr])
      ensures fault != NoFault ==> fault == Overrun(p.addr, d, l) && Stopped()
      ensures Advanced(was, old(Now()), Now())
      ensures fault == NoFault ==>
                && Inv(d', l)
                && p.addr in heap && heap[p.addr] == Fwd(ret)
                && ret == Ptr(d.(off := if p.tag == BvecTag && d.off % 16 == 8 then d.off + 8 else d.off), p.tag)
                && d' == d.(off := ret.addr.off + Size(was.heap[p.addr]))
                && Uncopied(was, heap) == old(Uncopied(was, heap)) - {p.addr}
    {
      hide Good, Advanced, Uncopied, Leads, Inv, Size, Extent, Base, Stopped, Aligned;
      CopyPlace(p, d, l);
      ghost var v := Now();
      AdvancedReflexive(was, v);
      ret, d' := p, d;
      if p.tag == BvecTag && d.off % 16 == 8 {
        d' := Pad(d, l);
      }
      ghost var v1 := Now();
      if l < d'.off + Size(heap[p.addr]) {
        fault := Overrun(p.addr, d, l);
        OverrunStops(p.addr, d, l, via);
        return;
      }
      ret := Ptr(d', p.tag);
      d' := Install(p.addr, d', l, via);
      AdvancedTransitive(was, v, v1, Now());
    }

    /** Where the copy goes is aligned; it runs past the chunk only from an odd unit on, to which padding
        moves it. */
    lemma CopyPlace(p: Word, d: Addr, l: nat)
      requires Inv(d, l) && p.Ptr? && p.addr in heap && 0 < Extent(heap[p.addr]) <= l - d.off
      requires p.tag == TagOf(heap[p.addr]) == BvecTag || (p.tag != BvecTag && !heap[p.addr].Bytes?)
      ensures d.off < l && Aligned(d.(off := CopyStart(p.tag, d.off)), heap[p.addr])
      ensures l < CopyStart(p.tag, d.off) + Size(heap[p.addr]) ==>
                p.tag == BvecTag && d.off % 16 == 8 && d.off + Size(heap[p.addr]) == l
    {
      hide Inv, Size, Extent, CopyStart;
      RoomIsEven(d, l);
      OverrunExactly(p.tag, d.off, l, heap[p.addr]);
      StartIsAligned(p.tag, d.off);
    }

    static lemma StartIsAligned(tag: Tag, off: nat)
      requires off % 8 == 0
      ensures tag == BvecTag ==> CopyStart(tag, off) % 16 == 0
    {
    }

    lemma OverrunStops(a: Addr, d: Addr, l: nat, via: Path)
      requires a in was.heap && was.heap[a].Bytes? && d.off % 16 == 8 && d.off + Size(was.heap[a]) == l
      requires Inv(d.(off := d.off + 8), l) && fault == Overrun(a, d, l)
      requires a in Uncopied(was, heap) && Leads(was, via, a)
      ensures Stopped()
    {
      hide Good, Uncopied, IsFree, Size, Leads, Budget;
    }

    /** Two zero words, which scanning takes for a pair. */
    method Pad(d: Addr, l: nat) returns (d': Addr)
      requires Inv(d, l) && d.off < l && d.off % 16 == 8
      modifies `heap, `ends
      ensures Inv(d', l) && Advanced(was, old(Now()), Now()) && d' == d.(off := d.off + 8)
      ensures Uncopied(was, heap) == old(Uncopied(was, heap))
      ensures forall b | b in old(heap) :: b in heap && heap[b] == old(heap[b])
    {
      hide Good, Advanced, Uncopied, FillerAt, Budget;
      ghost var v := Now();
      PadStep(d, l);
      heap := heap[d := ZERO_PAIR];
      d' := d.(off := d.off + 8);
      ends := ends[Base(d) := d'.off];
      assert Now() == Fill(v, d, ZERO_PAIR);
    }

    lemma PadStep(d: Addr, l: nat)
      requires Inv(d, l) && d.off < l && d.off % 16 == 8
      ensures d !in heap && oldGen != youngGen
      ensures var v' := Fill(Now(), d, ZERO_PAIR);
              Good(was, v') && Advanced(was, Now(), v') && Uncopied(was, v'.heap) == Uncopied(was, heap)
    {
      hide Good, Advanced, Uncopied, FillerAt, Budget, Live, IsFree;
      RoomIsEven(d, l);
      PageUnits(l);
      NextUnit(d.off, l);
      DistinctGenerations(was, Now());
      PaddingIsFiller(d);
      LiveIsFree(d, l);
      FillStep(was, Now(), d, ZERO_PAIR);
    }

    lemma LiveIsFree(d: Addr, l: nat)
      requires Live(d, l)
      ensures IsFree(was, Now(), d) && Base(d) in chunks && l == chunks[Base(d)].lim
    {
    }

    static lemma NextUnit(off: nat, l: nat)
      requires off % 8 == 0 && l % 8 == 0 && off < l
      ensures off + 8 <= l
    {
      assert off == 8 * (off / 8) && l == 8 * (l / 8);
    }

    /** The run has stopped early, for the reason recorded in `fault`. */
    ghost predicate Stopped()
      reads `fault, `heap, `roots, `src, `gray, `paths, `npRemset, `ssb, `swept, `dropped, `chunks, `ends
      reads `current, `current2, `taken, `hasSwitched, `switches, `oldSteps, `youngSteps
    {
      StoppedAt(was, Now(), fault) && Budget()
    }

    method ForwPair(w: Word, d: Addr, l: nat, ghost via: Path) returns (w': Word, d': Addr, l': nat)
      requires Inv(d, l) && w.Ptr? && w.addr in Uncopied(was, heap) && Leads(was, via, w.addr)
      requires GoodPointer(was.heap, w) && w.tag == PairTag
      modifies `heap, `src, `gray, `paths, `ends, `chunks, `current, `current2, `taken, `hasSwitched, `switches
      modifies `oldSteps, `youngSteps, `dest, `lim
      ensures Inv(d', l') && Advanced(was, old(Now()), Now())
      ensures w.addr in heap && heap[w.addr] == Fwd(w')
      ensures Uncopied(was, heap) == old(Uncopied(was, heap)) - {w.addr}
      ensures old(hasSwitched) ==> hasSwitched
      ensures 8 <= l - d.off ==> w' == Ptr(d, PairTag) && l' == l && chunks == old(chunks)
    {
      hide Good, Advanced, Leads, Live, Uncopied;
      ghost var v := Now();
      d', l' := CheckSpaceNp(d, l, 8);
      ghost var v1 := Now();
      UncopiedIsOld(was, v1);
      UncopiedObject(was, v1, w);
      w' := Ptr(d', PairTag);
      d' := Install(w.addr, d', l', via);
      AdvancedTransitive(was, v, v1, Now());
    }

    method ForwOther(w: Word, d: Addr, l: nat, ghost via: Path) returns (w': Word, d': Addr, l': nat)
      requires Inv(d, l) && w.Ptr? && w.addr in Uncopied(was, heap) && Leads(was, via, w.addr)
      requires GoodPointer(was.heap, w) && w.tag != PairTag && fault == NoFault
      modifies `heap, `src, `gray, `paths, `ends, `fault, `chunks, `current, `current2, `taken, `hasSwitched
      modifies `switches, `oldSteps, `youngSteps, `dest, `lim
      ensures fault == NoFault || (fault.Overrun? && Stopped())
      ensures Advanced(was, old(Now()), Now())
      ensures fault == NoFault ==> Inv(d', l')
      ensures fault == NoFault ==> w.addr in heap && heap[w.addr] == Fwd(w')
      ensures fault == NoFault ==> Uncopied(was, heap) == old(Uncopied(was, heap)) - {w.addr}
      ensures old(hasSwitched) ==> hasSwitched
      ensures w.addr in was.heap && (Extent(was.heap[w.addr]) <= l - d.off ==> l' == l && chunks == old(chunks))
    {
      hide Good, Advanced, Leads, Inv, Uncopied, Stopped, Extent;
      ghost var v := Now();
      UncopiedOther(w, d, l);
      d', l' := CheckSpaceNp(d, l, Extent(heap[w.addr]));
      ghost var v1 := Now();
      UncopiedOther(w, d', l');
      w', d' := Forward(w, d', l', via);
      AdvancedTransitive(was, v, v1, Now());
    }

    /** An object with a header that was not copied is as it was at first, and small. */
    lemma UncopiedOther(w: Word, d: Addr, l: nat)
      requires Inv(d, l) && w.Ptr? && w.addr in Uncopied(was, heap) && GoodPointer(was.heap, w) && w.tag != PairTag
      ensures w.addr in heap && w.addr in was.heap && heap[w.addr] == was.heap[w.addr]
      ensures (w.tag == BvecTag ==> was.heap[w.addr].Bytes?) && 0 < Extent(heap[w.addr]) <= GC_LARGE_OBJECT_LIMIT
    {
      hide Good, Live, Uncopied;
      UncopiedObject(was, Now(), w);
    }

    /** The new location of the object that `w` points to, which is moved unless it already was. */
    method ForwCoreNp(w: Word, d: Addr, l: nat, ghost via: Path) returns (w': Word, d': Addr, l': nat)
      requires Inv(d, l) && fault == NoFault
      requires Younger(w, oldGen) && GoodPointer(was.heap, w) && Leads(was, via, w.addr)
      modifies `heap, `src, `gray, `paths, `ends, `fault, `chunks, `current, `current2, `taken, `hasSwitched
      modifies `switches, `oldSteps, `youngSteps, `dest, `lim
      ensures fault == NoFault || (fault.Overrun? && Stopped())
      ensures Advanced(was, old(Now()), Now())
      ensures fault == NoFault ==> Inv(d', l')
      ensures fault == NoFault ==> w.addr in heap && heap[w.addr] == Fwd(w')
      ensures fault == NoFault ==> (Uncopied(was, heap) < old(Uncopied(was, heap))
                                    || (Now() == old(Now()) && d' == d && l' == l && hasSwitched == old(hasSwitched)))
      ensures old(hasSwitched) ==> hasSwitched
    {
      hide Good, Advanced, Leads, Live, Uncopied, Stopped;
      TargetState(was, Now(), w);
      AdvancedReflexive(was, Now());
      d', l' := d, l;
      if heap[w.addr].Fwd? {
        w' := heap[w.addr].to;
      } else if w.tag == PairTag {
        w', d', l' := ForwPair(w, d, l, via);
      } else {
        w', d', l' := ForwOther(w, d, l, via);
      }
    }

    /** Forward slot `i` of the object at `b`. */
    method ForwSlot(b: Addr, i: nat, d: Addr, l: nat, ghost j: nat) returns (d': Addr, l': nat)
      requires Inv(d, l) && fault == NoFault && Scannable(was, Now(), b, j)
      requires heap[b].Cell? && i < |heap[b].slots|
      modifies `heap, `src, `gray, `paths, `ends, `fault, `chunks, `current, `current2, `taken, `hasSwitched
      modifies `switches, `oldSteps, `youngSteps, `dest, `lim
      ensures fault == NoFault || (fault.Overrun? && Stopped())
      ensures Forwarding(was, old(Now()), Now())
      ensures fault == NoFault ==> Inv(d', l') && Scannable(was, Now(), b, j)
      ensures fault == NoFault ==> SlotForwarded(old(heap[b]), heap[b], i)
      ensures fault == NoFault ==>
                Progress(was, old(Now()), Alloc(d, l, old(hasSwitched)), Now(), Alloc(d', l', hasSwitched))
      ensures old(hasSwitched) ==> hasSwitched
    {
      hide Good, Advanced, Forwarding, Leads, Live, Scannable, SlotPath, Uncopied, Stopped;
      ghost var v := Now();
      ForwardingReflexive(was, v);
      ScannableInHeap(was, v, b, j);
      var w := heap[b].slots[i];
      d', l' := d, l;
      if w.Ptr? && w.addr.gen < oldGen {
        SlotIsReached(was, v, b, i, j);
        var w';
        w', d', l' := ForwCoreNp(w, d, l, SlotPath(v, b, i, j));
        AdvancedIsForwarding(v);
        if fault == NoFault {
          StoreSlot(b, i, d', l', w, w', v, j);
        }
      }
    }

    /** Slot `i` no longer points into a collected generation, and the rest is unchanged. */
    ghost predicate SlotForwarded(o: Obj, o': Obj, i: nat) {
      && o.Cell? && o'.Cell? && i < |o.slots| == |o'.slots|
      && o' == o.(slots := o.slots[i := o'.slots[i]])
      && !Younger(o'.slots[i], oldGen)
      && (o'.slots[i] == o.slots[i]
          || (Younger(o.slots[i], oldGen) && o'.slots[i].Ptr? && o'.slots[i].addr.gen in {oldGen, youngGen}))
    }

    /** Store the new location of the target of slot `i`, last seen in state `v`. */
    method StoreSlot(b: Addr, i: nat, d: Addr, l: nat, w: Word, w': Word, ghost v: View, ghost j: nat)
      requires Inv(d, l) && Good(was, v) && Advanced(was, v, Now()) && Scannable(was, v, b, j)
      requires v.heap[b].Cell? && i < |v.heap[b].slots| && v.heap[b].slots[i] == w && Younger(w, oldGen)
      requires w.addr in heap && heap[w.addr] == Fwd(w')
      modifies `heap
      ensures Inv(d, l) && Forwarding(was, v, Now()) && Scannable(was, Now(), b, j)
      ensures SlotForwarded(v.heap[b], heap[b], i)
      ensures Uncopied(was, heap) == old(Uncopied(was, heap))
    {
      hide Good, Advanced, Forwarding, Uncopied, Scannable, SlotForwarded;
      ghost var v1 := Now();
      SlotStep(b, i, w, w', v, j);
      heap := heap[b := heap[b].(slots := heap[b].slots[i := w'])];
      assert Now() == Rewrite(v1, b, i, w');
    }

    lemma SlotStep(b: Addr, i: nat, w: Word, w': Word, v: View, j: nat)
      requires SameStart() && Good(was, Now())
      requires Good(was, v) && Advanced(was, v, Now()) && Scannable(was, v, b, j)
      requires v.heap[b].Cell? && i < |v.heap[b].slots| && v.heap[b].slots[i] == w && Younger(w, oldGen)
      requires w.addr in heap && heap[w.addr] == Fwd(w')
      ensures b in heap && heap[b] == v.heap[b]
      ensures var v' := Rewrite(Now(), b, i, w');
              && Good(was, v') && Forwarding(was, v, v') && Scannable(was, v', b, j)
              && SlotForwarded(v.heap[b], v'.heap[b], i) && Uncopied(was, v'.heap) == Uncopied(was, heap)
    {
      hide Good, Advanced, Forwarding, Uncopied, Scannable;
      var v1 := Now();
      ScannableInHeap(was, v, b, j);
      SlotIsReached(was, v, b, i, j);
      NewLocationStands(was, v, v1, b, i, j, w, w');
      TargetState(was, v1, w);
      DistinctGenerations(was, v1);
      ScannableRewrite(was, v1, b, j, i, w');
      RewriteStep(was, v1, b, i, w');
      RewriteForwards(was, v, v1, b, i, w');
      CopiesInHeap(was, v1);
    }

    /** The first `n` slots have been forwarded, the others are as they were. */
    ghost predicate SlotsForwarded(o: Obj, o': Obj, n: nat) {
      && o.Cell? && o'.Cell? && n <= |o.slots| == |o'.slots| && o' == o.(slots := o'.slots)
      && (forall k | 0 <= k < n :: SlotForwarded(o, o.(slots := o.slots[k := o'.slots[k]]), k))
      && (forall k | n <= k < |o.slots| :: o'.slots[k] == o.slots[k])
    }

    /** Forward every slot of the object at `b`, and say whether some slot points below generation
        `limit` now, and whether one did before. */
    method ScanSlots(b: Addr, limit: nat, d: Addr, l: nat, ghost j: nat)
      returns (d': Addr, l': nat, nowBelow: bool, wasBelow: bool)
      requires Inv(d, l) && fault == NoFault && Scannable(was, Now(), b, j) && heap[b].Cell?
      modifies `heap, `src, `gray, `paths, `ends, `fault, `chunks, `current, `current2, `taken, `hasSwitched
      modifies `switches, `oldSteps, `youngSteps, `dest, `lim
      ensures fault == NoFault || (fault.Overrun? && Stopped())
      ensures Forwarding(was, old(Now()), Now())
      ensures fault == NoFault ==> Inv(d', l') && Scannable(was, Now(), b, j)
      ensures fault == NoFault ==> SlotsForwarded(old(heap[b]), heap[b], |old(heap[b].slots)|)
      ensures fault == NoFault ==> nowBelow == !Clean(heap[b], limit) && wasBelow == !Clean(old(heap[b]), limit)
      ensures fault == NoFault ==>
                Progress(was, old(Now()), Alloc(d, l, old(hasSwitched)), Now(), Alloc(d', l', hasSwitched))
      ensures old(hasSwitched) ==> hasSwitched
    {
      hide *;
      ghost var v := Now();
      ForwardingReflexive(was, v);
      ghost var a := Alloc(d, l, hasSwitched);
      ProgressReflexive(was, v, a);
      ScannableHere(b, j);
      ghost var o0 := heap[b];
      NoSlotForwarded(o0);
      d', l', nowBelow, wasBelow := d, l, false, false;
      var n := |heap[b].slots|;
      for i := 0 to n
        invariant fault == NoFault && Inv(d', l') && Forwarding(was, v, Now()) && Scannable(was, Now(), b, j)
        invariant b in heap && heap[b].Cell? && |heap[b].slots| == n == |o0.slots| && SlotsForwarded(o0, heap[b], i)
        invariant nowBelow <==> exists k :: 0 <= k < i && Younger(heap[b].slots[k], limit)
        invariant wasBelow <==> exists k :: 0 <= k < i && Younger(o0.slots[k], limit)
        invariant old(hasSwitched) ==> hasSwitched
        invariant Progress(was, v, a, Now(), Alloc(d', l', hasSwitched))
      {
        ghost var v1, o1, a1 := Now(), heap[b], Alloc(d', l', hasSwitched);
        SlotUntouched(o0, o1, i);
        if Younger(heap[b].slots[i], limit) {
          wasBelow := true;
        }
        d', l' := ForwSlot(b, i, d', l', j);
        ForwardingTransitive(was, v, v1, Now());
        if fault != NoFault {
          return;
        }
        ProgressTransitive(was, v, a, v1, a1, Now(), Alloc(d', l', hasSwitched));
        ScannableHere(b, j);
        NextSlotForwarded(o0, o1, heap[b], i);
        if Younger(heap[b].slots[i], limit) {
          nowBelow := true;
        }
      }
      CleanMeans(o0, limit);
      CleanMeans(heap[b], limit);
    }

    lemma ScannableHere(b: Addr, j: nat)
      requires Scannable(was, Now(), b, j)
      ensures b in heap
    {
    }

    static lemma CleanMeans(o: Obj, limit: nat)
      requires o.Cell?
      ensures !Clean(o, limit) <==> exists k :: 0 <= k < |o.slots| && Younger(o.slots[k], limit)
    {
    }

    lemma NoSlotForwarded(o: Obj)
      requires o.Cell?
      ensures SlotsForwarded(o, o, 0)
    {
    }

    lemma SlotUntouched(o: Obj, o1: Obj, i: nat)
      requires SlotsForwarded(o, o1, i) && i < |o.slots|
      ensures o1.Cell? && i < |o1.slots| && o1.slots[i] == o.slots[i]
    {
    }

    lemma NextSlotForwarded(o: Obj, o1: Obj, o2: Obj, i: nat)
      requires SlotsForwarded(o, o1, i) && i < |o.slots| && SlotForwarded(o1, o2, i)
      ensures SlotsForwarded(o, o2, i + 1) && |o2.slots| == |o1.slots|
      ensures forall k | 0 <= k < i :: o2.slots[k] == o1.slots[k]
    {
      forall k | 0 <= k < i + 1 ensures SlotForwarded(o, o.(slots := o.slots[k := o2.slots[k]]), k) {
        if k < i {
          assert o2.slots[k] == o1.slots[k];
        }
      }
    }

    /** A slot that points below `limit` after forwarding did so before: forwarding moves targets
        to older generations only. */
    lemma ForwardingNeverLowers(o: Obj, o': Obj, limit: nat)
      requires o.Cell? && SlotsForwarded(o, o', |o.slots|) && oldGen <= limit
      ensures Clean(o', oldGen)
      ensures Clean(o, limit) ==> Clean(o', limit)
    {
      forall k | 0 <= k < |o.slots| && Younger(o'.slots[k], limit)
        ensures Younger(o.slots[k], limit) && !Younger(o'.slots[k], oldGen)
      {
        assert SlotForwarded(o, o.(slots := o.slots[k := o'.slots[k]]), k);
      }
      forall k | 0 <= k < |o.slots| ensures !Younger(o'.slots[k], oldGen) {
        assert SlotForwarded(o, o.(slots := o.slots[k := o'.slots[k]]), k);
      }
    }

    /** Enter `w` into the buffer of the extra remembered set, and empty the buffer into the set
        when it is full. */
    method RememberVec(w: Word)
      requires |ssb| < ssbLimit
      modifies `ssb, `npRemset
      ensures Now() == old(Now()).(extra := old(Now()).extra + {w}) && |ssb| < ssbLimit
    {
      assert forall x :: x in ssb + [w] <==> x in ssb || x == w;
      ssb := ssb + [w];
      if |ssb| == ssbLimit {
        npRemset := npRemset + set x | x in ssb;
        ssb := [];
      }
    }

    /** Bytes to advance over a header whose size field is `n`, the data, and a pad word if the
        data ends on an 8-byte boundary. */
    static function SkipData(n: nat): nat {
      var bytes := (n + 3) / 4 * 4;
      bytes + 4 + if bytes % 8 == 0 then 4 else 0
    }

    static lemma SkipIsSize(n: nat)
      ensures SkipData(n) == RoundUp8(4 + n)
    {
      var k, r := n / 8, n % 8;
      assert n == 8 * k + r;
      assert (n + 3) / 4 == 2 * k + (r + 3) / 4;
      assert (4 + n + 7) / 8 == k + (r + 11) / 8;
      assert 8 * k + (r + 3) / 4 * 4 == (n + 3) / 4 * 4;
    }

    /** Count the object at `sp` as scanned, if it is a copy, and remember it if asked to. */
    method Finish(sp: Addr, remember: bool, d: Addr, l: nat)
      requires Inv(d, l) && sp in heap && Clean(heap[sp], oldGen)
      requires remember ==> sp in gray
      requires sp in gray ==> (remember <==> sp.gen == youngGen && !Clean(heap[sp], youngGen))
      modifies `gray, `ssb, `npRemset
      ensures Inv(d, l) && Now() == Blacken(old(Now()), sp, remember)
      ensures Onward(was, old(Now()), Now())
    {
      hide Good, Onward, Clean;
      FinishStep(sp, remember);
      gray := gray - {sp};
      if remember {
        RememberVec(RememberedAs(sp, heap[sp]));
      }
    }

    lemma FinishStep(sp: Addr, remember: bool)
      requires Good(was, Now()) && sp in heap && Clean(heap[sp], oldGen) && SameStart()
      requires remember ==> sp in gray
      requires sp in gray ==> (remember <==> sp.gen == youngGen && !Clean(heap[sp], youngGen))
      ensures Good(was, Blacken(Now(), sp, remember)) && Onward(was, Now(), Blacken(Now(), sp, remember))
    {
      hide Good, Onward, Clean;
      OnwardReflexive(was, Now());
      if sp in gray {
        BlackenStep(was, Now(), sp, remember);
      } else {
        assert gray - {sp} == gray;
      }
    }

    /** Both fingers are in place: `sp` in one semispace, `sp2` in the other. */
    ghost predicate Fingers(sp: Addr, sp2: Addr)
      reads `heap, `roots, `src, `gray, `paths, `npRemset, `ssb, `swept, `dropped, `chunks, `ends, `current
      reads `current2, `taken
    {
      Finger(was, Now(), sp) && Finger(was, Now(), sp2) && sp.gen != sp2.gen
    }

    /** Forward what the object at the finger `sp` points to. */
    method ForwObject(sp: Addr, d: Addr, l: nat, ghost sp2: Addr) returns (d': Addr, l': nat, nowBelow: bool)
      requires Inv(d, l) && fault == NoFault && Fingers(sp, sp2) && Tile(was, heap, sp)
      modifies `heap, `src, `gray, `paths, `ends, `fault, `chunks, `current, `current2, `taken, `hasSwitched
      modifies `switches, `oldSteps, `youngSteps, `dest, `lim
      ensures fault == NoFault || (fault.Overrun? && Stopped())
      ensures Onward(was, old(Now()), Now())
      ensures fault == NoFault ==> Inv(d', l') && Fingers(sp, sp2)
      ensures fault == NoFault ==> Tile(was, heap, sp) && Scanned(sp, nowBelow) && SameShape(old(heap[sp]), heap[sp])
      ensures fault == NoFault ==>
                Progress(was, old(Now()), Alloc(d, l, old(hasSwitched)), Now(), Alloc(d', l', hasSwitched))
      ensures old(hasSwitched) ==> hasSwitched
    {
      hide Good, Live, Budget, Forwarding, Onward, Uncopied, Clean, Finger, Stopped, SlotsForwarded, Filler;
      ghost var v := Now();
      OnwardReflexive(was, v);
      ObjectAtFinger(was, v, sp);
      d', l', nowBelow := d, l, false;
      if heap[sp].Cell? {
        var wasBelow;
        d', l', nowBelow, wasBelow := ScanSlots(sp, youngGen, d, l, 0);
        ForwardingIsOnward(was, v, Now());
        if fault == NoFault {
          ForwardingNeverLowers(v.heap[sp], heap[sp], oldGen);
          ForwardedShape(v.heap[sp], heap[sp]);
          FingerKept(was, v, Now(), sp);
          FingerKept(was, v, Now(), sp2);
          TileKept(was, v, Now(), sp);
          ObjectAtFinger(was, Now(), sp);
        }
      } else {
        DataIsClean(heap[sp]);
      }
    }

    /** The object at `sp` has been forwarded, and is to be remembered if `nowBelow`. */
    ghost predicate Scanned(sp: Addr, nowBelow: bool)
      reads `heap, `src, `gray
    {
      && sp in heap && Clean(heap[sp], oldGen) && nowBelow == !Clean(heap[sp], youngGen)
      && (sp in src ==> sp in gray) && (nowBelow ==> sp in src)
    }

    static ghost predicate SameShape(o: Obj, o': Obj) {
      if o.Cell? then o'.Cell? && o'.tag == o.tag && |o'.slots| == |o.slots| else o' == o
    }

    lemma ForwardedShape(o: Obj, o': Obj)
      requires o.Cell? && SlotsForwarded(o, o', |o.slots|)
      ensures SameShape(o, o')
    {
    }

    static lemma DataIsClean(o: Obj)
      requires !o.Cell?
      ensures forall limit :: Clean(o, limit)
    {
    }

    /** Bytes to advance over an object, whose header says how large it is. */
    static function Advance(o: Obj): nat {
      match o
      case Cell(tag, _, slots) => if tag == PairTag then 8 else SkipData(4 * |slots|)
      case Bytes(_, data) => SkipData(|data|)
      case Seal(bytes) => SkipData(if bytes < 4 then 0 else bytes - 4)
      case Fwd(_) => 8
    }

    /** Move the finger past the object at `sp`, which has been forwarded. */
    method FinishObject(sp: Addr, nowBelow: bool, d: Addr, l: nat, ghost sp2: Addr) returns (sp': Addr)
      requires Inv(d, l) && Fingers(sp, sp2) && Tile(was, heap, sp) && Scanned(sp, nowBelow)
      modifies `gray, `ssb, `npRemset
      ensures Inv(d, l) && Fingers(sp', sp2) && Onward(was, old(Now()), Now())
      ensures Base(sp') == Base(sp) && sp.off < sp'.off
      ensures Progress(was, old(Now()), Alloc(d, l, hasSwitched), Now(), Alloc(d, l, hasSwitched))
    {
      hide Good, Live, Budget, Onward, Uncopied, Clean, Finger, Filler, SkipData, Size;
      ghost var v := Now();
      AdvanceIsSize(was, v, sp);
      sp' := sp.(off := sp.off + Advance(heap[sp]));
      Finish(sp, sp.gen == youngGen && nowBelow, d, l);
      FingerMoves(was, v, sp, gray, Now().extra);
      OtherFinger(was, v, sp, sp2, gray, Now().extra);
    }

    /** Scan the object at the finger `sp` and move past it.  In the young area, remember the
        object if it points below that area. */
    method ScanObject(sp: Addr, d: Addr, l: nat, ghost sp2: Addr) returns (sp': Addr, d': Addr, l': nat)
      requires Inv(d, l) && fault == NoFault && Fingers(sp, sp2) && Tile(was, heap, sp)
      modifies `heap, `src, `gray, `paths, `ends, `fault, `chunks, `current, `current2, `taken, `hasSwitched
      modifies `switches, `oldSteps, `youngSteps, `dest, `lim, `ssb, `npRemset
      ensures fault == NoFault || (fault.Overrun? && Stopped())
      ensures Onward(was, old(Now()), Now())
      ensures fault == NoFault ==> Inv(d', l') && Fingers(sp', sp2)
      ensures fault == NoFault ==> Base(sp') == Base(sp) && sp.off < sp'.off
      ensures fault == NoFault ==>
                Progress(was, old(Now()), Alloc(d, l, old(hasSwitched)), Now(), Alloc(d', l', hasSwitched))
      ensures old(hasSwitched) ==> hasSwitched
    {
      hide *;
      ghost var v, a := Now(), Alloc(d, l, hasSwitched);
      var nowBelow;
      d', l', nowBelow := ForwObject(sp, d, l, sp2);
      sp' := sp;
      if fault == NoFault {
        ghost var v1, a1 := Now(), Alloc(d', l', hasSwitched);
        sp' := FinishObject(sp, nowBelow, d', l', sp2);
        OnwardTransitive(was, v, v1, Now());
        ProgressTransitive(was, v, a, v1, a1, Now(), a1);
      }
    }

    static lemma AdvanceIsSize(s: Start, v: View, a: Addr)
      requires Good(s, v) && Tile(s, v.heap, a)
      ensures Advance(v.heap[a]) == Size(v.heap[a])
    {
      hide Good;
      TileKind(s, v, a);
      match v.heap[a]
      case Cell(_, _, slots) => SkipIsSize(4 * |slots|);
      case Bytes(_, data) => SkipIsSize(|data|);
      case Seal(bytes) => SkipIsSize(bytes - 4);
    }

    /** The destination in use, outside the scanning procedures. */
    function LiveDest(): Addr
      reads `hasSwitched, `dest, `dest2
    {
      if hasSwitched then dest2 else dest
    }

    function LiveLim(): nat
      reads `hasSwitched, `lim, `lim2
    {
      if hasSwitched then lim2 else lim
    }

    /** Where objects are scanned: at both fingers, each in its own semispace. */
    ghost predicate FingersSet()
      reads `heap, `roots, `src, `gray, `paths, `npRemset, `ssb, `swept, `dropped, `chunks, `ends, `current
      reads `current2, `taken, `hasSwitched, `scanPtr, `scanLim, `scanPtr2, `scanLim2, `dest2
    {
      && Fingers(scanPtr, scanPtr2) && scanPtr.gen == oldGen && scanPtr2.gen == youngGen
      && Base(scanPtr) in chunks && scanLim == chunks[Base(scanPtr)].lim && scanPtr.off <= scanLim
      && Base(scanPtr2) in chunks && scanLim2 == chunks[Base(scanPtr2)].lim && scanPtr2.off <= scanLim2
      && (!hasSwitched ==> scanPtr2 == dest2)
    }

    ghost predicate Ready()
      reads `heap, `roots, `src, `gray, `paths, `npRemset, `ssb, `swept, `dropped, `chunks, `ends, `current
      reads `current2, `taken, `hasSwitched, `switches, `oldSteps, `youngSteps
      reads `scanPtr, `scanLim, `scanPtr2, `scanLim2, `dest, `lim, `dest2, `lim2
    {
      Inv(LiveDest(), LiveLim()) && FingersSet()
    }

    /** Comparing numeric addresses confuses two positions exactly when one is the first byte of a
        chunk and the other is past the last byte of a chunk that ends there. */
    lemma AliasExactly(p: Addr, q: Addr)
      requires Spaces(was, chunks, current, current2, ends) && Base(p) in chunks && Base(q) in chunks
      requires p.off < chunks[Base(p)].lim && q.off <= chunks[Base(q)].lim
      ensures (p != q && Place(chunks, p) == Place(chunks, q)) <==>
              (Base(p) != Base(q) && p.off == 0 && q.off == chunks[Base(q)].lim
               && chunks[Base(q)].place + chunks[Base(q)].lim == chunks[Base(p)].place)
    {
      assert Base(p) == Base(q) && p.off == q.off ==> p == q;
      assert Base(p) != Base(q) ==> Apart(chunks[Base(p)], chunks[Base(q)]);
    }

    lemma LiveInChunk(d: Addr, l: nat)
      requires Inv(d, l)
      ensures Base(d) in chunks && d.off <= l == chunks[Base(d)].lim
      ensures Spaces(was, chunks, current, current2, ends)
    {
      RoomIsEven(d, l);
    }

    lemma FingerInChunk(sp: Addr, sp2: Addr)
      requires Good(was, Now()) && Fingers(sp, sp2)
      ensures Base(sp) in chunks && Base(sp) in ends && sp.off <= ends[Base(sp)] <= chunks[Base(sp)].lim
    {
      FingerChunk(was, Now(), sp);
      assert Tile(was, heap, sp) ==> TileFits(was, heap, ends, sp);
    }

    /** A finger that is neither at the live destination nor at the end of its chunk is at an
        object. */
    lemma NotAtEnd(sp: Addr, sp2: Addr, d: Addr, l: nat)
      requires Inv(d, l) && Fingers(sp, sp2) && (sp.gen == youngGen ==> hasSwitched)
      requires Base(sp) in chunks && sp.off < chunks[Base(sp)].lim && sp != d
      ensures Tile(was, heap, sp)
    {
      FingerChunk(was, Now(), sp);
    }

    lemma LimitsKept(v: View, v': View, k: Addr)
      requires Onward(was, v, v') && k in v.chunks
      ensures k in v'.chunks && v'.chunks[k].lim == v.chunks[k].lim
    {
    }

    /** The numeric addresses of `p` and `q` are equal, which is all that C compares. */
    ghost predicate Meet(p: Addr, q: Addr)
      reads `chunks
    {
      Base(p) in chunks && Base(q) in chunks && Place(chunks, p) == Place(chunks, q)
    }

    /** Scan one object. */
    method ScanNext(sp: Addr, spLim: nat, d: Addr, l: nat, ghost sp2: Addr) returns (sp': Addr, d': Addr, l': nat)
      requires Inv(d, l) && fault == NoFault && Fingers(sp, sp2) && (sp.gen == youngGen ==> hasSwitched)
      requires Base(sp) in chunks && spLim == chunks[Base(sp)].lim && sp.off < spLim && sp != d
      modifies `heap, `src, `gray, `paths, `ends, `fault, `chunks, `current, `current2, `taken, `hasSwitched
      modifies `switches, `oldSteps, `youngSteps, `dest, `lim, `ssb, `npRemset
      ensures fault == NoFault || (fault.Overrun? && Stopped())
      ensures Onward(was, old(Now()), Now())
      ensures fault == NoFault ==> Inv(d', l') && Fingers(sp', sp2)
      ensures fault == NoFault ==> Base(sp') == Base(sp) && sp.off < sp'.off <= spLim
      ensures fault == NoFault ==> Base(sp) in chunks && chunks[Base(sp)].lim == spLim
      ensures fault == NoFault ==>
                Progress(was, old(Now()), Alloc(d, l, old(hasSwitched)), Now(), Alloc(d', l', hasSwitched))
      ensures old(hasSwitched) ==> hasSwitched
    {
      hide Good, Live, Onward, Fingers, Stopped, Spaces, Tile, Progress;
      ghost var v := Now();
      NotAtEnd(sp, sp2, d, l);
      sp', d', l' := ScanObject(sp, d, l, sp2);
      if fault == NoFault {
        LimitsKept(v, Now(), Base(sp));
        FingerInChunk(sp', sp2);
      }
    }

    /** Scan from the finger `sp0` to the end of its chunk, or until it meets the live destination;
        if it meets that at once, do nothing. */
    method ScanLoop(sp0: Addr, spLim: nat, d0: Addr, l0: nat, ghost sp2: Addr) returns (sp: Addr, d: Addr, l: nat)
      requires Inv(d0, l0) && fault == NoFault && Fingers(sp0, sp2) && (sp0.gen == youngGen ==> hasSwitched)
      requires Base(sp0) in chunks && spLim == chunks[Base(sp0)].lim && sp0.off < spLim
      modifies `heap, `src, `gray, `paths, `ends, `fault, `chunks, `current, `current2, `taken, `hasSwitched
      modifies `switches, `oldSteps, `youngSteps, `dest, `lim, `ssb, `npRemset
      ensures fault == NoFault || (fault.Overrun? && Stopped())
      ensures old(Meet(sp0, d0)) ==>
                && fault == NoFault && Now() == old(Now()) && sp == sp0 && d == d0 && l == l0
                && hasSwitched == old(hasSwitched) && dest == old(dest) && lim == old(lim) && Inv(d, l)
      ensures Onward(was, old(Now()), Now())
      ensures fault == NoFault ==> Inv(d, l) && Fingers(sp, sp2)
      ensures fault == NoFault ==> Base(sp) == Base(sp0) && sp0.off <= sp.off <= spLim
      ensures fault == NoFault && !old(Meet(sp0, d0)) ==> sp0.off < sp.off
      ensures fault == NoFault ==>
                Progress(was, old(Now()), Alloc(d0, l0, old(hasSwitched)), Now(), Alloc(d, l, hasSwitched))
      ensures fault == NoFault ==> forall k | k in old(chunks) :: k in chunks && chunks[k].lim == old(chunks[k].lim)
      ensures old(hasSwitched) ==> hasSwitched
    {
      hide Inv, Onward, Fingers, Stopped, Progress;
      ghost var v, a := Now(), Alloc(d0, l0, hasSwitched);
      OnwardReflexive(was, v);
      ProgressReflexive(was, v, a);
      sp, d, l := sp0, d0, l0;
      LiveInChunk(d, l);
      while Place(chunks, sp) != Place(chunks, d) && sp.off < spLim
        invariant fault == NoFault && Inv(d, l) && Fingers(sp, sp2) && Onward(was, v, Now())
        invariant Base(sp) == Base(sp0) && Base(sp) in chunks && chunks[Base(sp)].lim == spLim && Base(d) in chunks
        invariant sp0.off <= sp.off <= spLim
        invariant sp0.off < sp.off
                  || (sp == sp0 && d == d0 && l == l0 && Now() == v && hasSwitched == old(hasSwitched)
                      && dest == old(dest) && lim == old(lim))
        invariant old(Meet(sp0, d0)) ==> sp == sp0
        invariant Progress(was, v, a, Now(), Alloc(d, l, hasSwitched))
        invariant old(hasSwitched) ==> hasSwitched
        decreases spLim - sp.off
      {
        ghost var v1, a1 := Now(), Alloc(d, l, hasSwitched);
        sp, d, l := ScanNext(sp, spLim, d, l, sp2);
        OnwardTransitive(was, v, v1, Now());
        if fault != NoFault {
          return;
        }
        ProgressTransitive(was, v, a, v1, a1, Now(), Alloc(d, l, hasSwitched));
        LiveInChunk(d, l);
      }
      LimitsAllKept(v, Now());
    }

    lemma LimitsAllKept(v: View, v': View)
      requires Onward(was, v, v')
      ensures forall k | k in v.chunks :: k in v'.chunks && v'.chunks[k].lim == v.chunks[k].lim
    {
    }

    /** Write the local copies of the allocation pointer and limit back. */
    method EnvEnd(d: Addr, l: nat)
      requires Inv(d, l)
      modifies `dest, `lim, `dest2, `lim2
      ensures Inv(LiveDest(), LiveLim()) && LiveDest() == d && LiveLim() == l
      ensures hasSwitched ==> dest == old(dest) && lim == old(lim)
      ensures !hasSwitched ==> dest2 == old(dest2) && lim2 == old(lim2)
    {
      hide Good;
      if hasSwitched {
        dest2, lim2 := d, l;
      } else {
        dest, lim := d, l;
      }
    }

    /** Scan from a finger, and write back where allocation has got to. */
    method ScanFrom(sp0: Addr, spLim: nat, ghost sp2: Addr) returns (sp: Addr)
      requires Inv(LiveDest(), LiveLim()) && fault == NoFault && Fingers(sp0, sp2)
      requires (sp0.gen == youngGen ==> hasSwitched)
               && Base(sp0) in chunks && spLim == chunks[Base(sp0)].lim && sp0.off < spLim
      modifies `heap, `src, `gray, `paths, `ends, `fault, `chunks, `current, `current2, `taken, `hasSwitched
      modifies `switches, `oldSteps, `youngSteps, `dest, `lim, `dest2, `lim2, `ssb, `npRemset
      ensures fault == NoFault || (fault.Overrun? && Stopped())
      ensures Onward(was, old(Now()), Now())
      ensures old(Meet(sp0, LiveDest())) ==>
                && fault == NoFault && Now() == old(Now()) && sp == sp0
                && hasSwitched == old(hasSwitched) && dest == old(dest) && dest2 == old(dest2)
      ensures fault == NoFault ==> Inv(LiveDest(), LiveLim()) && Fingers(sp, sp2)
      ensures fault == NoFault ==> Base(sp) == Base(sp0) && sp0.off <= sp.off <= spLim
      ensures fault == NoFault && !old(Meet(sp0, LiveDest())) ==>
                && sp0.off < sp.off
                && Progress(was, old(Now()), Alloc(old(LiveDest()), old(LiveLim()), old(hasSwitched)),
                            Now(), Alloc(LiveDest(), LiveLim(), hasSwitched))
      ensures fault == NoFault ==> forall k | k in old(chunks) :: k in chunks && chunks[k].lim == old(chunks[k].lim)
      ensures (old(hasSwitched) ==> hasSwitched) && (fault == NoFault && !hasSwitched ==> dest2 == old(dest2))
    {
      hide Good, Onward, Progress, Stopped, Fingers, Inv, Now, Meet;
      var d, l;
      sp, d, l := ScanLoop(sp0, spLim, LiveDest(), LiveLim(), sp2);
      if fault == NoFault {
        EnvEnd(d, l);
      }
    }

    /** Scan with the old finger.  The caller has compared it with the old destination, but it is the
        live destination that ends the scan. */
    method ScanNpOld()
      requires Ready() && fault == NoFault && scanPtr.off != scanLim
      modifies this
      ensures scanLim == old(scanLim) && scanPtr2 == old(scanPtr2) && scanLim2 == old(scanLim2) && roots == old(roots)
      ensures swept == old(swept) && dropped == old(dropped)
      ensures fault == NoFault || (fault.Overrun? && Stopped())
      ensures Onward(was, old(Now()), Now())
      ensures fault == NoFault ==> Ready()
      ensures old(Meet(scanPtr, LiveDest())) ==>
                fault == NoFault && Now() == old(Now()) && Positions() == old(Positions())
      ensures fault == NoFault && !old(Meet(scanPtr, LiveDest())) ==>
                && Base(scanPtr) == old(Base(scanPtr)) && old(scanPtr.off) < scanPtr.off
                && Progress(was, old(Now()), Alloc(old(LiveDest()), old(LiveLim()), old(hasSwitched)),
                            Now(), Alloc(LiveDest(), LiveLim(), hasSwitched))
      ensures old(hasSwitched) ==> hasSwitched
    {
      hide Good, Onward, Progress, Stopped, Fingers, Inv, Now, Meet, Ready, FingersSet;
      ReadyHas();
      var sp := ScanFrom(scanPtr, scanLim, scanPtr2);
      if fault == NoFault {
        scanPtr := sp;
        ReadyAgain();
      }
    }

    lemma ReadyHas()
      requires Ready()
      ensures Inv(LiveDest(), LiveLim()) && Fingers(scanPtr, scanPtr2) && Fingers(scanPtr2, scanPtr)
      ensures scanPtr.gen == oldGen != youngGen == scanPtr2.gen && (!hasSwitched ==> scanPtr2 == dest2)
      ensures Base(scanPtr) in chunks && scanLim == chunks[Base(scanPtr)].lim && scanPtr.off <= scanLim
      ensures Base(scanPtr2) in chunks && scanLim2 == chunks[Base(scanPtr2)].lim && scanPtr2.off <= scanLim2
    {
      hide Good, Live, Budget, Finger;
    }

    lemma ReadyAgain()
      requires Inv(LiveDest(), LiveLim()) && (Fingers(scanPtr, scanPtr2) || Fingers(scanPtr2, scanPtr))
      requires scanPtr.gen == oldGen && scanPtr2.gen == youngGen && (!hasSwitched ==> scanPtr2 == dest2)
      requires Base(scanPtr) in chunks && scanLim == chunks[Base(scanPtr)].lim && scanPtr.off <= scanLim
      requires Base(scanPtr2) in chunks && scanLim2 == chunks[Base(scanPtr2)].lim && scanPtr2.off <= scanLim2
      ensures Ready()
    {
      hide Good, Live, Budget, Finger;
    }

    /** Scan with the young finger. */
    method ScanNpYoung()
      requires Ready() && fault == NoFault && scanPtr2.off != scanLim2 && !Meet(scanPtr2, dest2)
      modifies this
      ensures scanPtr == old(scanPtr) && scanLim == old(scanLim) && scanLim2 == old(scanLim2) && roots == old(roots)
      ensures swept == old(swept) && dropped == old(dropped)
      ensures fault == NoFault || (fault.Overrun? && Stopped())
      ensures Onward(was, old(Now()), Now())
      ensures fault == NoFault ==> Ready()
      ensures fault == NoFault ==>
                && Base(scanPtr2) == old(Base(scanPtr2)) && old(scanPtr2.off) < scanPtr2.off
                && Progress(was, old(Now()), Alloc(old(LiveDest()), old(LiveLim()), old(hasSwitched)),
                            Now(), Alloc(LiveDest(), LiveLim(), hasSwitched))
      ensures old(hasSwitched) && (fault == NoFault ==> hasSwitched)
    {
      hide Good, Onward, Progress, Stopped, Fingers, Inv, Now, Ready, FingersSet;
      ReadyHas();
      var sp := ScanFrom(scanPtr2, scanLim2, scanPtr);
      if fault == NoFault {
        scanPtr2 := sp;
        ReadyAgain();
      }
    }

    lemma InvGenerations()
      requires Inv(LiveDest(), LiveLim())
      ensures 0 < oldGen < youngGen && LiveDest().gen == (if hasSwitched then youngGen else oldGen)
    {
    }

    lemma FingersSymmetric(sp: Addr, sp2: Addr)
      requires Fingers(sp, sp2)
      ensures Fingers(sp2, sp)
    {
    }

    /** A finger at the end of its chunk goes to the next chunk, if there is one. */
    method AdvanceFingers()
      requires Ready()
      modifies `scanPtr, `scanLim, `scanPtr2, `scanLim2
      ensures Ready()
      ensures (scanPtr == old(scanPtr) && scanLim == old(scanLim)) || scanPtr.chunk == old(scanPtr).chunk + 1
      ensures (scanPtr2 == old(scanPtr2) && scanLim2 == old(scanLim2)) || scanPtr2.chunk == old(scanPtr2).chunk + 1
      ensures Entered() && (old(Entered()) ==> Positions() == old(Positions()))
    {
      hide Good, Finger, Inv, Now;
      FingersBounded();
      InvGenerations();
      if scanPtr.off == scanLim && scanPtr.chunk < current {
        NextFinger(scanPtr, scanPtr2);
        scanPtr := Addr(oldGen, scanPtr.chunk + 1, 0);
        scanLim := chunks[scanPtr].lim;
      }
      if scanPtr2.off == scanLim2 && scanPtr2.chunk < current2 {
        ParkedIsCurrent();
        NextFinger(scanPtr2, scanPtr);
        scanPtr2 := Addr(youngGen, scanPtr2.chunk + 1, 0);
        scanLim2 := chunks[scanPtr2].lim;
      }
    }

    lemma FingersBounded()
      requires Ready()
      ensures scanPtr.chunk <= current && scanPtr2.chunk <= current2 && was.oldGen == oldGen && was.youngGen == youngGen
      ensures 0 <= BytesLeft()
    {
      FingerChunk(was, Now(), scanPtr);
      FingerChunk(was, Now(), scanPtr2);
    }

    lemma NextFinger(sp: Addr, sp2: Addr)
      requires Inv(LiveDest(), LiveLim()) && (Fingers(sp, sp2) || Fingers(sp2, sp))
      requires Base(sp) in chunks && sp.off == chunks[Base(sp)].lim
               && sp.chunk < CurrentOf(was, current, current2, sp.gen)
      ensures var k := Addr(sp.gen, sp.chunk + 1, 0);
              k in chunks && 0 < chunks[k].lim && Fingers(k, sp2) && Fingers(sp2, k)
    {
      FingerNextChunk(was, Now(), sp);
    }

    /** Before the switch the young finger is at the free end of the young area's current chunk. */
    lemma ParkedIsCurrent()
      requires Ready() && scanPtr2.chunk < current2
      ensures hasSwitched
    {
    }

    lemma DestsInChunks()
      requires Inv(LiveDest(), LiveLim())
      ensures Base(dest) in chunks && dest.off <= chunks[Base(dest)].lim && dest.off % 8 == 0
      ensures Base(dest2) in chunks && dest2.off <= chunks[Base(dest2)].lim && dest2.off % 8 == 0
      ensures Spaces(was, chunks, current, current2, ends)
    {
      RoomIsEven(LiveDest(), LiveLim());
      FreeIsUnused(was, Now(), LiveDest());
      if !hasSwitched {
        FreeIsUnused(was, Now(), dest2);
      }
    }

    /** C takes each finger for being at the end. */
    ghost predicate Idle()
      reads `scanPtr, `scanLim, `scanPtr2, `scanLim2, `dest, `dest2, `chunks, `current, `current2
    {
      !OldHasWork() && !YoungHasWork() && Entered()
    }

    /** A finger that meets the destination of its own area has reached it, if it is in the current
        chunk. */
    lemma MeetsItsDest(sp: Addr, d: Addr)
      requires Spaces(was, chunks, current, current2, ends) && Meet(sp, d) && sp.gen == d.gen && sp.chunk == d.chunk
      ensures sp == d
    {
    }

    /** If both fingers are in the current chunks, nothing is left to scan. */
    lemma IdleIsDone()
      requires Ready() && Idle() && scanPtr.chunk == current && scanPtr2.chunk == current2
      ensures gray == {}
    {
      hide Consistent, BlackIsClean, ExtraIsExact, SweptIsClean, RootsStand, Justified, GoodStart, Tiled, Spaces, Meet;
      FingerChunk(was, Now(), scanPtr);
      FingerChunk(was, Now(), scanPtr2);
      FingerInChunk(scanPtr, scanPtr2);
      FingersSymmetric(scanPtr, scanPtr2);
      FingerInChunk(scanPtr2, scanPtr);
      DestsInChunks();
      if Meet(scanPtr, dest) {
        MeetsItsDest(scanPtr, dest);
        if hasSwitched && dest.off != lim {
          SealFills(dest, lim);
        }
      }
      if Meet(scanPtr2, dest2) {
        MeetsItsDest(scanPtr2, dest2);
      }
      FingerDone(was, Now(), scanPtr);
      FingerDone(was, Now(), scanPtr2);
      GrayGenerations();
    }

    lemma SealFills(d: Addr, l: nat)
      requires Good(was, Now()) && Sealed(d, l) && d.off != l
      ensures d in heap && heap[d].Seal? && Next(heap, d).off == ends[Base(d)]
    {
      TileIsBounded(was, Now(), d);
    }

    lemma GrayGenerations()
      requires Good(was, Now())
      ensures forall b | b in gray :: b.gen in {was.oldGen, was.youngGen}
    {
      forall b | b in gray ensures b.gen in {was.oldGen, was.youngGen} {
        CopyIsTile(was, Now(), b);
      }
    }

    /** The work left in front of the fingers: chunks to enter, and bytes of the chunks entered. */
    function ChunksLeft(): int
      reads `current, `current2, `scanPtr, `scanPtr2
    {
      current - scanPtr.chunk + (current2 - scanPtr2.chunk)
    }

    function BytesLeft(): int
      reads `scanLim, `scanLim2, `scanPtr, `scanPtr2
    {
      scanLim - scanPtr.off + (scanLim2 - scanPtr2.off)
    }

    /** `c` and `m` measured the work left in state `v`. */
    ghost predicate LessWork(v: View, c: int, m: int)
      reads `heap, `current, `current2, `scanLim, `scanLim2, `scanPtr, `scanPtr2
    {
      || Uncopied(was, heap) < Uncopied(was, v.heap)
      || (Uncopied(was, heap) == Uncopied(was, v.heap)
          && (ChunksLeft() < c || (ChunksLeft() == c && BytesLeft() < m)))
    }

    function Positions(): (Addr, nat, Addr, nat, Addr, Addr, bool)
      reads `scanPtr, `scanLim, `scanPtr2, `scanLim2, `dest, `dest2, `hasSwitched
    {
      (scanPtr, scanLim, scanPtr2, scanLim2, dest, dest2, hasSwitched)
    }

    /** C finds something to scan at the old finger. */
    ghost predicate OldHasWork()
      reads `scanPtr, `scanLim, `dest, `chunks
    {
      scanPtr.off != scanLim && !Meet(scanPtr, dest)
    }

    ghost predicate YoungHasWork()
      reads `scanPtr2, `scanLim2, `dest2, `chunks
    {
      scanPtr2.off != scanLim2 && !Meet(scanPtr2, dest2)
    }

    /** Scan with the old finger, if C finds work for it. */
    method OldTurn() returns (work: bool)
      requires Ready() && fault == NoFault
      modifies this
      ensures scanLim == old(scanLim) && scanPtr2 == old(scanPtr2) && scanLim2 == old(scanLim2) && roots == old(roots)
      ensures swept == old(swept) && dropped == old(dropped)
      ensures fault == NoFault || (fault.Overrun? && Stopped())
      ensures Onward(was, old(Now()), Now())
      ensures fault == NoFault ==> Ready()
      ensures work == old(OldHasWork())
      ensures !work || old(Meet(scanPtr, LiveDest())) ==>
                fault == NoFault && Now() == old(Now()) && Positions() == old(Positions())
      ensures fault == NoFault && work && !old(Meet(scanPtr, LiveDest())) ==>
                LessWork(old(Now()), old(ChunksLeft()), old(BytesLeft()))
    {
      hide Good, Inv, Fingers, Onward, Stopped, Uncopied;
      OnwardReflexive(was, Now());
      DestsInChunks();
      work := scanPtr.off != scanLim && Place(chunks, scanPtr) != Place(chunks, dest);
      if work {
        ScanNpOld();
      }
    }

    /** Scan with the young finger, if C finds work for it. */
    method YoungTurn() returns (work: bool)
      requires Ready() && fault == NoFault
      modifies this
      ensures scanPtr == old(scanPtr) && scanLim == old(scanLim) && scanLim2 == old(scanLim2) && roots == old(roots)
      ensures swept == old(swept) && dropped == old(dropped)
      ensures fault == NoFault || (fault.Overrun? && Stopped())
      ensures Onward(was, old(Now()), Now())
      ensures fault == NoFault ==> Ready()
      ensures work == old(YoungHasWork())
      ensures fault == NoFault && work ==> LessWork(old(Now()), old(ChunksLeft()), old(BytesLeft()))
      ensures !work ==> fault == NoFault && Now() == old(Now()) && Positions() == old(Positions())
    {
      hide Good, Inv, Fingers, Onward, Stopped, Uncopied;
      OnwardReflexive(was, Now());
      DestsInChunks();
      work := scanPtr2.off != scanLim2 && Place(chunks, scanPtr2) != Place(chunks, dest2);
      if work {
        ScanNpYoung();
      }
    }

    /** The old finger has something to scan, but its address is that of the live destination, which
        is in the young area and will not move, because the young finger has arrived there. */
    predicate Stuck()
      reads `hasSwitched, `scanPtr, `dest, `scanPtr2, `dest2, `chunks
    {
      && hasSwitched && scanPtr != dest && scanPtr2 == dest2
      && Abuts(chunks, dest2, scanPtr)
    }

    /** In terms of what C compares: the old finger has work, but meets the live destination, and the
        young finger has no work. */
    lemma StuckExactly()
      requires Ready() && (scanPtr2.off == scanLim2 ==> scanPtr2.chunk == current2)
      ensures Stuck() <==> OldHasWork() && Meet(scanPtr, LiveDest()) && !YoungHasWork()
    {
      hide Good, Live, Budget, Finger;
      DestsInChunks();
      ChunksApart();
      YoungAtEnd();
    }

    /** Two full chunks cannot end in the same place. */
    lemma ChunksApart()
      requires Good(was, Now())
      ensures forall j, k | j in chunks && k in chunks && j != k :: Apart(chunks[j], chunks[k])
      ensures forall k | k in chunks :: 0 < chunks[k].lim
    {
      forall k | k in chunks ensures 0 < chunks[k].lim {
        assert ChunkFits(was, chunks, current, current2, ends, k);
      }
    }

    /** The young destination is in the young area's current chunk. */
    lemma YoungAtEnd()
      requires Ready()
      ensures dest2.gen == youngGen && dest2.chunk == current2 && scanPtr.gen == oldGen && dest.gen == oldGen
      ensures scanPtr2.gen == youngGen && dest.chunk == current && lim2 == chunks[Base(dest2)].lim
    {
    }

    /** A finger that is at the end of its chunk is in the current chunk. */
    ghost predicate Entered()
      reads `scanPtr, `scanLim, `scanPtr2, `scanLim2, `current, `current2
    {
      (scanPtr.off == scanLim ==> scanPtr.chunk == current) && (scanPtr2.off == scanLim2 ==> scanPtr2.chunk == current2)
    }

    /** Give each finger a turn. */
    method TakeTurns() returns (work: bool)
      requires Ready() && fault == NoFault && Entered()
      modifies this
      ensures scanLim == old(scanLim) && scanLim2 == old(scanLim2) && roots == old(roots) && swept == old(swept)
      ensures dropped == old(dropped)
      ensures fault == NoFault || (fault.Overrun? && Stopped())
      ensures Onward(was, old(Now()), Now())
      ensures fault == NoFault ==> Ready()
      ensures old(Stuck()) ==> work
      ensures !work ==> fault == NoFault && Now() == old(Now()) && Positions() == old(Positions())
      ensures old(Stuck()) ==> fault == NoFault && Now() == old(Now()) && Positions() == old(Positions())
      ensures fault == NoFault && work && !old(Stuck()) ==>
                LessWork(old(Now()), old(ChunksLeft()), old(BytesLeft()))
      ensures !work ==> Idle()
    {
      hide Good, Ready, Onward, Stopped, Uncopied, Stuck;
      ghost var v := Now();
      StuckExactly();
      work := OldTurn();
      if fault != NoFault {
        return;
      }
      ghost var v1 := Now();
      ghost var stuck := old(Stuck());
      assert stuck ==> !YoungHasWork();
      var youngWork := YoungTurn();
      work := work || youngWork;
      OnwardTransitive(was, v, v1, Now());
    }

    /** One round: enter the next chunks, then give each finger a turn. */
    method ScanRound() returns (work: bool)
      requires Ready() && fault == NoFault
      modifies this
      ensures roots == old(roots) && swept == old(swept) && dropped == old(dropped)
      ensures fault == NoFault || (fault.Overrun? && Stopped())
      ensures Onward(was, old(Now()), Now())
      ensures fault == NoFault ==> Ready()
      ensures old(Stuck()) ==>
                work && fault == NoFault && Now() == old(Now()) && Positions() == old(Positions()) && Stuck()
      ensures fault == NoFault && work && !Stuck() ==> LessWork(old(Now()), old(ChunksLeft()), old(BytesLeft()))
      ensures fault == NoFault && !work ==> Idle() && Uncopied(was, heap) == old(Uncopied(was, heap))
      ensures fault == NoFault && !work ==>
                ChunksLeft() < old(ChunksLeft())
                    || (ChunksLeft() == old(ChunksLeft()) && BytesLeft() == old(BytesLeft()))
    {
      hide Good, Ready, Onward, Stopped, Uncopied, Idle, Meet;
      if Stuck() {
        StuckEntered();
      }
      AdvanceFingers();
      work := TakeTurns();
    }

    /** When stuck, neither finger can enter another chunk. */
    lemma StuckEntered()
      requires Ready() && Stuck()
      ensures Entered()
    {
      hide Good, Live, Budget, Finger;
      DestsInChunks();
      ChunksApart();
      YoungAtEnd();
    }

    /** Alternate between the two fingers until C finds work for neither.  C goes round forever
        from the first round on that changes nothing, and that is where the model stops. */
    method ScanOfloNpPromote()
      requires Ready() && fault == NoFault
      modifies this
      ensures roots == old(roots) && swept == old(swept) && dropped == old(dropped)
      ensures fault == NoFault || Stopped()
      ensures fault.Endless? ==> Ready() && Stuck()
      ensures fault.Unfinished? ==> Ready() && Idle() && (scanPtr.chunk < current || scanPtr2.chunk < current2)
      ensures Onward(was, old(Now()), Now())
      ensures fault == NoFault ==> Inv(LiveDest(), LiveLim()) && gray == {}
      ensures fault == NoFault ==> scanPtr.chunk == current && scanPtr2.chunk == current2
    {
      hide Good, Ready, Onward, Stopped, Uncopied, Stuck, Idle, Inv, Positions;
      ghost var v := Now();
      OnwardReflexive(was, v);
      var work := true;
      while work
        invariant fault == NoFault && Ready() && Onward(was, v, Now())
        invariant !work ==> Idle()
        invariant roots == old(roots) && swept == old(swept) && dropped == old(dropped)
        decreases Uncopied(was, heap), ChunksLeft(), BytesLeft(), work
      {
        FingersBounded();
        ghost var v1 := Now();
        work := ScanRound();
        OnwardTransitive(was, v, v1, Now());
        if fault != NoFault {
          return;
        }
        if work && Stuck() {
          fault := Endless(scanPtr, dest2);
          EndlessStops();
          return;
        }
      }
      CheckFingers();
    }

    /** The assertions after the scan. */
    method CheckFingers()
      requires Ready() && Idle() && fault == NoFault
      modifies `fault
      ensures fault == NoFault || (fault.Unfinished? && Stopped())
      ensures fault == NoFault ==> scanPtr.chunk == current && scanPtr2.chunk == current2
      ensures fault != NoFault <==> scanPtr.chunk < current || scanPtr2.chunk < current2
      ensures fault == NoFault ==> Inv(LiveDest(), LiveLim()) && gray == {}
    {
      hide Good, Ready, Stopped, Inv, Idle, Meet, Fingers;
      IdleMeets();
      FingersBounded();
      if scanPtr.chunk < current {
        fault := Unfinished(scanPtr, dest);
        EndsAtDest(scanPtr, scanPtr2, dest);
      } else if scanPtr2.chunk < current2 {
        fault := Unfinished(scanPtr2, dest2);
        EndsAtDest(scanPtr2, scanPtr, dest2);
      } else {
        IdleIsDone();
        ReadyHas();
      }
    }

    lemma EndlessStops()
      requires Ready() && Stuck() && fault == Endless(scanPtr, dest2)
      ensures Stopped()
    {
      hide Good, Budget, Finger;
      FingersBounded();
      YoungAtEnd();
      FingerAtStart(scanPtr, scanPtr2);
    }

    /** A finger at the start of a full chunk is at a copy that has not been scanned. */
    lemma FingerAtStart(sp: Addr, sp2: Addr)
      requires Good(was, Now()) && Fingers(sp, sp2) && sp.off == 0
      requires sp.chunk < CurrentOf(was, current, current2, sp.gen) || ends[Base(sp)] == chunks[Base(sp)].lim
      ensures sp in gray
    {
      FingerChunk(was, Now(), sp);
      assert ChunkFits(was, chunks, current, current2, ends, Base(sp));
      StartIsGray(was, Now(), sp);
    }

    /** The assertion after the scan fails for the finger `sp`. */
    lemma EndsAtDest(sp: Addr, sp2: Addr, d: Addr)
      requires Ready() && Fingers(sp, sp2) && fault == Unfinished(sp, d)
      requires Meet(sp, d) && sp.gen == d.gen && d.chunk == CurrentOf(was, current, current2, sp.gen)
      requires sp.chunk < d.chunk && sp.off < chunks[Base(sp)].lim && d.off <= chunks[Base(d)].lim
      ensures Stopped()
    {
      hide Good, Live, Budget, Finger, Spaces;
      DestsInChunks();
      AliasExactly(sp, d);
      FingerAtStart(sp, sp2);
    }

    /** When C finds no work although a finger is not in the current chunk, the finger meets the
        destination of its area. */
    lemma IdleMeets()
      requires Ready() && Idle()
      ensures scanPtr.chunk < current ==>
                scanPtr.chunk < dest.chunk && Meet(scanPtr, dest) && scanPtr.gen == dest.gen
                    && dest.chunk == CurrentOf(was, current, current2, scanPtr.gen)
                && scanPtr.off < chunks[Base(scanPtr)].lim && dest.off <= chunks[Base(dest)].lim
                   && Fingers(scanPtr, scanPtr2)
      ensures scanPtr2.chunk < current2 ==>
                scanPtr2.chunk < dest2.chunk && Meet(scanPtr2, dest2) && scanPtr2.gen == dest2.gen
                && dest2.chunk == CurrentOf(was, current, current2, scanPtr2.gen)
                && scanPtr2.off < chunks[Base(scanPtr2)].lim && dest2.off <= chunks[Base(dest2)].lim
                && Fingers(scanPtr2, scanPtr)
    {
      hide Good, Budget, Finger, Spaces, Meet;
      DestsInChunks();
      YoungAtEnd();
      FingersBounded();
      InvGenerations();
    }

    twostate lemma FingersSetKept()
      requires old(FingersSet()) && Good(was, old(Now())) && Good(was, Now()) && Forwarding(was, old(Now()), Now())
      requires scanPtr == old(scanPtr) && scanLim == old(scanLim) && scanPtr2 == old(scanPtr2)
               && scanLim2 == old(scanLim2)
      requires !hasSwitched ==> !old(hasSwitched) && dest2 == old(dest2)
      ensures FingersSet()
    {
      hide Good;
      FingerKept(was, old(Now()), Now(), scanPtr);
      FingerKept(was, old(Now()), Now(), scanPtr2);
    }

    lemma InvParts(d: Addr, l: nat)
      requires Inv(d, l)
      ensures Good(was, Now()) && was.oldGen == oldGen && was.youngGen == youngGen && was.remembered == remembered
    {
    }

    lemma ReadyParts()
      ensures Ready() <==> Inv(LiveDest(), LiveLim()) && FingersSet()
    {
    }

    lemma AdvancedIsForwarding(v: View)
      requires Advanced(was, v, Now())
      ensures Forwarding(was, v, Now())
    {
    }

    /** Forward one word outside the scanned areas. */
    method ForwWord(w: Word, ghost via: Path) returns (w': Word)
      requires Ready() && fault == NoFault
      requires Younger(w, oldGen) && GoodPointer(was.heap, w) && Leads(was, via, w.addr)
      modifies this
      ensures scanPtr == old(scanPtr) && scanLim == old(scanLim) && scanPtr2 == old(scanPtr2)
              && scanLim2 == old(scanLim2)
      ensures roots == old(roots) && swept == old(swept) && dropped == old(dropped)
      ensures fault == NoFault || (fault.Overrun? && Stopped())
      ensures Advanced(was, old(Now()), Now())
      ensures fault == NoFault ==> Ready()
      ensures fault == NoFault ==> w.addr in heap && heap[w.addr] == Fwd(w')
    {
      hide *;
      ReadyParts();
      InvParts(LiveDest(), LiveLim());
      var d, l;
      w', d, l := ForwCoreNp(w, LiveDest(), LiveLim(), via);
      if fault == NoFault {
        EnvEnd(d, l);
        InvParts(d, l);
        AdvancedIsForwarding(old(Now()));
        FingersSetKept();
        ReadyParts();
      }
    }

    /** Forward root `i`. */
    method RootScannerNp(i: nat)
      requires Ready() && fault == NoFault && i < |roots|
      modifies this
      ensures scanPtr == old(scanPtr) && scanLim == old(scanLim) && scanPtr2 == old(scanPtr2)
              && scanLim2 == old(scanLim2)
      ensures (fault == NoFault || (fault.Overrun? && Stopped())) && swept == old(swept) && dropped == old(dropped)
      ensures Onward(was, old(Now()), Now())
      ensures fault == NoFault ==> Ready() && |roots| == old(|roots|) && !Younger(roots[i], oldGen)
      ensures fault == NoFault ==> roots == old(roots)[i := roots[i]]
    {
      hide *;
      ghost var v := Now();
      OnwardReflexive(was, v);
      if roots[i].Ptr? && roots[i].addr.gen < oldGen {
        RootIsHere(i);
        var w' := ForwWord(roots[i], FromRoot(i));
        ghost var v1 := Now();
        AdvancedIsOnward(v, v1);
        if fault == NoFault {
          StoreRoot(i, w');
          OnwardTransitive(was, v, v1, Now());
        }
      } else {
        NotYounger(roots[i]);
      }
    }

    lemma NotYounger(w: Word)
      requires !(w.Ptr? && w.addr.gen < oldGen)
      ensures !Younger(w, oldGen)
    {
    }

    lemma RootIsHere(i: nat)
      requires Ready() && i < |roots| && roots[i].Ptr? && roots[i].addr.gen < oldGen
      ensures i < |was.roots| && roots[i] == was.roots[i] && Younger(roots[i], oldGen)
      ensures GoodPointer(was.heap, roots[i]) && Leads(was, FromRoot(i), roots[i].addr)
    {
      hide Good;
      RootIsOriginal(was, Now(), i);
    }

    /** Store the new location of what root `i` points to. */
    method StoreRoot(i: nat, w': Word)
      requires Ready() && i < |roots| && Younger(roots[i], oldGen) && roots[i].addr in heap
      requires heap[roots[i].addr] == Fwd(w')
      modifies `roots
      ensures Ready() && Onward(was, old(Now()), Now()) && roots == old(roots)[i := w'] && !Younger(w', oldGen)
    {
      hide Good, Onward, Finger, Younger, Budget;
      NewRootIsOld(i, w');
      RootForwarded(i, w');
      RootsAreNoSpace(Now(), roots[i := w']);
      roots := roots[i := w'];
    }

    lemma NewRootIsOld(i: nat, w': Word)
      requires Ready() && i < |roots| && Younger(roots[i], oldGen) && roots[i].addr in heap
      requires heap[roots[i].addr] == Fwd(w')
      ensures i < |was.roots| && was.roots[i] == roots[i] && was.roots[i].Ptr? && roots[i].addr in was.heap
      ensures !Younger(w', oldGen) && Good(was, Now())
    {
      hide Good;
      RootIsHere(i);
      TargetState(was, Now(), roots[i]);
      InvGenerations();
    }

    lemma AdvancedIsOnward(v: View, v1: View)
      requires Advanced(was, v, v1)
      ensures Onward(was, v, v1)
    {
    }

    lemma RootsAreNoSpace(v: View, rs: seq<Word>)
      ensures Onward(was, v, v.(roots := rs))
    {
      OnwardReflexive(was, v);
    }

    lemma RootForwarded(i: nat, w: Word)
      requires Good(was, Now()) && i < |roots| && i < |was.roots| && was.roots[i].Ptr? && Fingers(scanPtr, scanPtr2)
      requires was.roots[i].addr in heap && heap[was.roots[i].addr] == Fwd(w) && was.roots[i].addr in was.heap
      ensures Good(was, Now().(roots := roots[i := w]))
      ensures Finger(was, Now().(roots := roots[i := w]), scanPtr)
              && Finger(was, Now().(roots := roots[i := w]), scanPtr2)
    {
      hide Good, Finger;
      RootStep(was, Now(), i, w);
      ghost var v' := Now().(roots := roots[i := w]);
      FingerIgnores(was, Now(), v', scanPtr);
      FingerIgnores(was, Now(), v', scanPtr2);
    }

    /** Forward the slots of remembered object number `j`, and say whether some slot pointed below its
        own generation before. */
    method ForwRemembered(j: nat) returns (keep: bool)
      requires Ready() && fault == NoFault && j < |remembered|
      modifies this
      ensures scanPtr == old(scanPtr) && scanLim == old(scanLim) && scanPtr2 == old(scanPtr2)
              && scanLim2 == old(scanLim2)
      ensures (fault == NoFault || (fault.Overrun? && Stopped())) && roots == old(roots) && swept == old(swept)
              && dropped == old(dropped)
      ensures Onward(was, old(Now()), Now())
      ensures fault == NoFault ==> Ready() && IsSwept(remembered[j], keep)
      ensures fault == NoFault ==>
                remembered[j] in old(heap) && keep == !Clean(old(heap[remembered[j]]), remembered[j].gen)
    {
      hide *;
      ReadyParts();
      InvParts(LiveDest(), LiveLim());
      RememberedHere(j);
      var b := remembered[j];
      ghost var o := heap[b];
      var d, l, below;
      d, l, below, keep := ScanSlots(b, b.gen, LiveDest(), LiveLim(), j);
      ForwardingIsOnward(was, old(Now()), Now());
      if fault == NoFault {
        EnvEnd(d, l);
        InvParts(d, l);
        FingersSetKept();
        ReadyParts();
        RememberedHere(j);
        ForwardingNeverLowers(o, heap[b], b.gen);
        SweptNow(b, keep);
      }
    }

    /** The old object at `b` points into no collected generation, and if it is not kept, nowhere below
        its own. */
    ghost predicate IsSwept(b: Addr, keep: bool)
      reads `heap
    {
      && b in was.heap && oldGen <= b.gen && b in heap && Clean(heap[b], oldGen)
      && (!keep ==> Clean(heap[b], b.gen))
    }

    lemma SweptNow(b: Addr, keep: bool)
      requires b in was.heap && oldGen <= b.gen && b in heap && Clean(heap[b], oldGen)
      requires !keep ==> Clean(heap[b], b.gen)
      ensures IsSwept(b, keep)
    {
    }

    /** Visit remembered object number `j`; it stays remembered if some slot pointed below its own
        generation before. */
    method RemsetScannerNp(j: nat) returns (keep: bool)
      requires Ready() && fault == NoFault && j < |remembered|
      modifies this
      ensures scanPtr == old(scanPtr) && scanLim == old(scanLim) && scanPtr2 == old(scanPtr2)
              && scanLim2 == old(scanLim2)
      ensures (fault == NoFault || (fault.Overrun? && Stopped())) && roots == old(roots)
      ensures Onward(was, old(Now()), Now())
      ensures fault == NoFault ==> Ready() && swept == old(swept) + {remembered[j]}
      ensures fault == NoFault ==> dropped == if keep then old(dropped) else old(dropped) + {remembered[j]}
      ensures fault == NoFault ==>
                remembered[j] in old(heap) && keep == !Clean(old(heap[remembered[j]]), remembered[j].gen)
    {
      hide *;
      ghost var v := Now();
      keep := ForwRemembered(j);
      if fault == NoFault {
        ghost var v1 := Now();
        Sweep(remembered[j], keep);
        OnwardTransitive(was, v, v1, Now());
      }
    }

    lemma RememberedHere(j: nat)
      requires Good(was, Now()) && j < |was.remembered|
      ensures var b := was.remembered[j];
              b in heap && heap[b].Cell? && Scannable(was, Now(), b, j) && b in was.heap && was.oldGen <= b.gen
    {
      hide Good;
      RememberedInPlace(was, Now(), j);
    }

    ghost method Sweep(b: Addr, keep: bool)
      requires Ready() && IsSwept(b, keep)
      modifies `swept, `dropped
      ensures Ready() && swept == old(swept) + {b} && dropped == if keep then old(dropped) else old(dropped) + {b}
      ensures Onward(was, old(Now()), Now())
    {
      hide Good, Clean, Finger, Budget, Onward;
      SweepIsOnward(Now(), b, !keep);
      SweepStep(was, Now(), b, !keep);
      swept := swept + {b};
      dropped := if keep then dropped else dropped + {b};
      FingerIgnores(was, old(Now()), Now(), scanPtr);
      FingerIgnores(was, old(Now()), Now(), scanPtr2);
    }

    lemma SweepIsOnward(v: View, b: Addr, drop: bool)
      ensures Onward(was, v, v.(swept := v.swept + {b}, dropped := if drop then v.dropped + {b} else v.dropped))
    {
    }

    /** The heap is copied: nothing is left to scan, and no root or remembered object points into
        the emptied generations. */
    ghost predicate Finished(kept: seq<Addr>)
      reads this
    {
      && Good(was, Now()) && gray == {} && Budget()
      && TopOnRecord(was, Now(), oldGen) && TopOnRecord(was, Now(), youngGen)
      && SameStart()
      && (forall i | 0 <= i < |roots| :: !Younger(roots[i], oldGen))
      && (forall a | a in kept :: a in remembered)
      && (forall j | 0 <= j < |remembered| ::
            remembered[j] in swept && (remembered[j] in kept || remembered[j] in dropped))
    }

    /** Forward all roots. */
    method ForwRoots()
      requires Ready() && fault == NoFault
      modifies this
      ensures fault == NoFault || Stopped()
      ensures Onward(was, old(Now()), Now())
      ensures fault == NoFault ==> Ready() && forall k | 0 <= k < |roots| :: !Younger(roots[k], oldGen)
    {
      hide *;
      ghost var v := Now();
      OnwardReflexive(was, v);
      for i := 0 to |roots|
        invariant fault == NoFault && Ready() && |roots| == old(|roots|) && Onward(was, v, Now())
        invariant forall k | 0 <= k < i :: !Younger(roots[k], oldGen)
      {
        ghost var v1 := Now();
        RootScannerNp(i);
        OnwardTransitive(was, v, v1, Now());
        if fault != NoFault {
          return;
        }
      }
    }

    /** Visit all remembered objects, and return those that stay remembered. */
    method ForwRemsets() returns (kept: seq<Addr>)
      requires Ready() && fault == NoFault
      modifies this
      ensures (fault == NoFault || Stopped()) && roots == old(roots)
      ensures Onward(was, old(Now()), Now())
      ensures fault == NoFault ==> Ready() && forall a | a in kept :: a in remembered
      ensures fault == NoFault ==>
                forall j | 0 <= j < |remembered| ::
                  remembered[j] in swept && (remembered[j] in kept || remembered[j] in dropped)
    {
      hide *;
      kept := [];
      ghost var v := Now();
      OnwardReflexive(was, v);
      for j := 0 to |remembered|
        invariant fault == NoFault && Ready() && roots == old(roots) && Onward(was, v, Now())
        invariant forall a | a in kept :: a in remembered
        invariant forall k | 0 <= k < j :: remembered[k] in swept && (remembered[k] in kept || remembered[k] in dropped)
      {
        ghost var v1 := Now();
        var keep := RemsetScannerNp(j);
        OnwardTransitive(was, v, v1, Now());
        if fault != NoFault {
          return;
        }
        if keep {
          kept := kept + [remembered[j]];
        }
      }
    }

    /** The whole promotion.  Returns the objects that stay in their remembered sets. */
    method OldspaceCopy() returns (kept: seq<Addr>)
      requires Ready() && fault == NoFault
      modifies this
      ensures fault == NoFault || Stopped()
      ensures Onward(was, old(Now()), Now())
      ensures fault == NoFault ==> Finished(kept)
    {
      hide *;
      kept := [];
      ghost var v := Now();
      ForwRoots();
      if fault != NoFault {
        return;
      }
      ghost var v1 := Now();
      kept := ForwRemsets();
      OnwardTransitive(was, v, v1, Now());
      if fault != NoFault {
        return;
      }
      ghost var v2 := Now();
      ScanOfloNpPromote();
      OnwardTransitive(was, v, v2, Now());
      if fault == NoFault {
        ghost var v3 := Now();
        RecordTops();
        OnwardTransitive(was, v, v3, Now());
        FinishedParts(kept);
      }
    }

    lemma FinishedParts(kept: seq<Addr>)
      requires Good(was, Now()) && gray == {} && Budget()
      requires TopOnRecord(was, Now(), oldGen) && TopOnRecord(was, Now(), youngGen)
      requires SameStart()
      requires forall i | 0 <= i < |roots| :: !Younger(roots[i], oldGen)
      requires forall a | a in kept :: a in remembered
      requires forall j | 0 <= j < |remembered| ::
                 remembered[j] in swept && (remembered[j] in kept || remembered[j] in dropped)
      ensures Finished(kept)
    {
    }

    /** Record how far the current chunks are filled. */
    method RecordTops()
      requires Inv(LiveDest(), LiveLim())
      modifies `chunks
      ensures Good(was, Now()) && Budget()
      ensures SameStart()
      ensures TopOnRecord(was, Now(), oldGen) && TopOnRecord(was, Now(), youngGen)
      ensures Onward(was, old(Now()), Now())
    {
      hide Good, TopOnRecord, Onward;
      DestsInChunks();
      DistinctGenerations(was, Now());
      DestsAtEnd();
      RecordTop(dest);
      ghost var v1 := Now();
      RecordTop(dest2);
      OnwardTransitive(was, old(Now()), v1, Now());
    }

    /** The objects of the current chunk of `d`'s area end at `d`, but for a seal. */
    ghost predicate ObjectsEnd(d: Addr)
      reads `heap, `ends, `current, `current2
    {
      && d.chunk == CurrentOf(was, current, current2, d.gen) && Base(d) in ends
      && (d.off == ends[Base(d)] || (Tile(was, heap, d) && heap[d].Seal? && Next(heap, d).off == ends[Base(d)]))
    }

    lemma DestsAtEnd()
      requires Inv(LiveDest(), LiveLim())
      ensures ObjectsEnd(dest) && dest.gen == oldGen && ObjectsEnd(dest2) && dest2.gen == youngGen
    {
      hide Good, Budget;
      InvGenerations();
      if hasSwitched && dest.off != lim {
        SealFills(dest, lim);
      }
    }

    /** Record that the current chunk of `d`'s area is filled up to `d`. */
    method RecordTop(d: Addr)
      requires Good(was, Now()) && Base(d) in chunks && d.off <= chunks[Base(d)].lim && d.off % 8 == 0
      requires d.gen in {oldGen, youngGen} && ObjectsEnd(d)
      modifies `chunks
      ensures Good(was, Now()) && chunks == old(chunks)[Base(d) := old(chunks)[Base(d)].(top := d.off)]
      ensures TopOnRecord(was, Now(), d.gen) && Onward(was, old(Now()), Now())
      ensures forall gen | gen != d.gen && old(TopOnRecord(was, Now(), gen)) :: TopOnRecord(was, Now(), gen)
    {
      hide Good, Onward;
      ghost var v := Now();
      TopStep(was, v, Base(d), d.off);
      AdvancedReflexive(was, v);
      TopAdvances(was, v, v, Base(d), d.off);
      AdvancedIsOnward(v, v.(chunks := v.chunks[Base(d) := v.chunks[Base(d)].(top := d.off)]));
      chunks := chunks[Base(d) := chunks[Base(d)].(top := d.off)];
      assert Now() == v.(chunks := v.chunks[Base(d) := v.chunks[Base(d)].(top := d.off)]);
      assert d == Base(d).(off := d.off);
    }

    /** A promotion about to start. */
    constructor (s: Start, cs: Chunks, cur: nat, cur2: nat, oldRemaining: nat, youngRemaining: nat, losSteps: int,
                 bufferSize: nat)
      requires GoodStart(s) && GoodSpaces(s, cs, cur, cur2) && 0 < bufferSize
      ensures Ready() && fault == NoFault && was == s && Now() == FirstView(s, cs, cur, cur2)
      ensures chunks == cs && current == startCurrent == cur && startCurrent2 == cur2 && oldGen == s.oldGen
      ensures oldSteps == startSteps && youngSteps == startYoungSteps && oldLosSteps == losSteps
      ensures StepsIn(startSteps, oldRemaining) && StepsIn(startYoungSteps, youngRemaining)
    {
      var k, k2 := Addr(s.oldGen, cur, 0), Addr(s.youngGen, cur2, 0);
      assert k in cs && k2 in cs;
      hide *;
      var steps, steps2 := oldRemaining / GC_CHUNK_SIZE, youngRemaining / GC_CHUNK_SIZE;
      WholeSteps(oldRemaining);
      WholeSteps(youngRemaining);
      heap, roots, remembered := s.heap, s.roots, s.remembered;
      oldGen, youngGen := s.oldGen, s.youngGen;
      chunks, current, current2, supply, taken := cs, cur, cur2, s.supply, 0;
      dest, lim := k.(off := cs[k].top), cs[k].lim;
      dest2, lim2 := k2.(off := cs[k2].top), cs[k2].lim;
      scanPtr, scanLim := k.(off := cs[k].top), cs[k].lim;
      scanPtr2, scanLim2 := k2.(off := cs[k2].top), cs[k2].lim;
      hasSwitched, switches := false, 0;
      oldSteps, youngSteps, oldLosSteps := steps, steps2, losSteps;
      startCurrent, startCurrent2, startSteps, startYoungSteps := cur, cur2, steps, steps2;
      ssb, ssbLimit, npRemset := [], bufferSize, s.extra;
      fault := NoFault;
      was := s;
      src, gray, paths, swept, dropped := map[], {}, map[], {}, {};
      ends := FirstEnds(s, cs, cur, cur2);
      new;
      FirstPlaced(k, cs[k].top, cs[k].lim, k2, cs[k2].top, cs[k2].lim);
      FirstNow(cs, cur, cur2);
      FirstIsReady(cs, cur, cur2);
    }

    // ---- The start of a run.

    static lemma WholeSteps(bytes: nat)
      ensures StepsIn(bytes / GC_CHUNK_SIZE, bytes)
    {
    }

    lemma FirstNow(cs: Chunks, cur: nat, cur2: nat)
      requires heap == was.heap && roots == was.roots && src == map[] && gray == {} && paths == map[]
      requires npRemset == was.extra && ssb == [] && swept == {} && dropped == {} && chunks == cs
      requires ends == FirstEnds(was, cs, cur, cur2) && current == cur && current2 == cur2 && taken == 0
      ensures Now() == FirstView(was, cs, cur, cur2)
    {
      hide FirstEnds;
    }

    /** Allocation and scanning begin at `k` and `k2`, at offsets `top` and `top2`. */
    ghost predicate PlacedAt(k: Addr, top: nat, end: nat, k2: Addr, top2: nat, end2: nat)
      reads this
    {
      && !hasSwitched && switches == 0 && current == startCurrent && current2 == startCurrent2 && src == map[]
      && oldSteps == startSteps && youngSteps == startYoungSteps && |ssb| < ssbLimit
      && scanPtr == dest == k.(off := top) && scanLim == lim == end
      && scanPtr2 == dest2 == k2.(off := top2) && scanLim2 == lim2 == end2
    }

    lemma FirstPlaced(k: Addr, top: nat, end: nat, k2: Addr, top2: nat, end2: nat)
      requires !hasSwitched && switches == 0 && current == startCurrent && current2 == startCurrent2 && src == map[]
      requires oldSteps == startSteps && youngSteps == startYoungSteps && |ssb| < ssbLimit
      requires scanPtr == dest == k.(off := top) && scanLim == lim == end
      requires scanPtr2 == dest2 == k2.(off := top2) && scanLim2 == lim2 == end2
      ensures PlacedAt(k, top, end, k2, top2, end2)
    {}

    /** Nothing was copied: allocation and scanning begin at the first free bytes. */
    lemma FirstIsReady(cs: Chunks, cur: nat, cur2: nat)
      requires SameStart() && Now() == FirstView(was, cs, cur, cur2)
      requires GoodStart(was) && GoodSpaces(was, cs, cur, cur2)
      requires var k, k2 := Addr(oldGen, cur, 0), Addr(youngGen, cur2, 0);
               k in cs && k2 in cs && PlacedAt(k, cs[k].top, cs[k].lim, k2, cs[k2].top, cs[k2].lim)
      ensures Ready()
    {
      hide Good, GoodStart, GoodSpaces, Finger, Live, Budget;
      FirstFree(was, cs, cur, cur2);
      FirstStep(was, cs, cur, cur2);
      DistinctGenerations(was, Now());
      FirstIsLive(cs, cur, cur2);
      FirstFinger(was, cs, cur, cur2, scanPtr);
      FirstFinger(was, cs, cur, cur2, scanPtr2);
    }

    lemma FirstIsLive(cs: Chunks, cur: nat, cur2: nat)
      requires was.oldGen == oldGen && was.youngGen == youngGen && oldGen != youngGen
      requires chunks == cs && current == cur && current2 == cur2
      requires var k, k2 := Addr(oldGen, cur, 0), Addr(youngGen, cur2, 0);
               && k in cs && k2 in cs && PlacedAt(k, cs[k].top, cs[k].lim, k2, cs[k2].top, cs[k2].lim)
               && k in ends && ends[k] == cs[k].top && k2 in ends && ends[k2] == cs[k2].top
      ensures Live(dest, lim) && Budget() && LiveDest() == dest && LiveLim() == lim
    {
    }
  }
}
