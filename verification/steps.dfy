/** A promotion as a state and the elementary steps that change it.  Every step keeps the
    invariant `Good` and only moves forward. */
module PromotionSteps {
  import opened SchemeHeap
  import opened Copying
  import opened ChunkLayout

  /** Memory and roots; the original of each copy; the copies still to be scanned; how each
      forwarded object was reached; the extra remembered set; the remembered objects already
      visited, and those of them taken off their remembered set; chunks, the end of the objects in
      each, the index of the current chunk of either semispace, and how many chunks were asked for. */
  datatype View = View(heap: Heap, roots: seq<Word>, src: map<Addr, Addr>, gray: set<Addr>,
                       paths: map<Addr, Path>, extra: set<Word>, swept: set<Addr>, dropped: set<Addr>,
                       chunks: Chunks, ends: Ends, cur: nat, cur2: nat, taken: nat)

  /** The word that remembers the object `o` at `b`: procedures are remembered as vectors. */
  function RememberedAs(b: Addr, o: Obj): Word {
    Ptr(b, if TagOf(o) == PairTag then PairTag else VecTag)
  }

  /** A copy in the young area, already scanned, that points below the young area. */
  ghost predicate Downward(s: Start, v: View, b: Addr) {
    b in v.src && b !in v.gray && b in v.heap && b.gen == s.youngGen && !Clean(v.heap[b], s.youngGen)
  }

  /** Scanned copies hold no pointer into the emptied generations. */
  ghost predicate BlackIsClean(s: Start, v: View) {
    forall b | b in v.src && b !in v.gray && b in v.heap :: Clean(v.heap[b], s.oldGen)
  }

  /** The extra remembered set has what it held before and exactly the scanned young copies that
      point down. */
  ghost predicate ExtraIsExact(s: Start, v: View) {
    && s.extra <= v.extra
    && (forall b | Downward(s, v, b) :: RememberedAs(b, v.heap[b]) in v.extra)
    && (forall w | w in v.extra && w !in s.extra ::
          w.Ptr? && Downward(s, v, w.addr) && w == RememberedAs(w.addr, v.heap[w.addr]))
  }

  ghost predicate RootsStand(s: Start, v: View) {
    && |v.roots| == |s.roots|
    && forall i | 0 <= i < |v.roots| :: StandsFor(s.roots[i], v.roots[i], v.heap)
  }

  /** Remembered objects that were visited hold no pointer into the emptied generations, and those
      that were dropped hold no pointer below their own generation. */
  ghost predicate SweptIsClean(s: Start, v: View) {
    && (forall a | a in v.swept :: a in s.heap && a.gen >= s.oldGen && a in v.heap && Clean(v.heap[a], s.oldGen))
    && (forall a | a in v.dropped :: a in v.swept && Clean(v.heap[a], a.gen))
  }

  /** The chunks still to be asked for are apart from those in use. */
  ghost predicate SupplyLeft(s: Start, v: View) {
    GoodSupply(s.supply) && Unused(v.chunks, s.supply, v.taken)
  }

  /** The invariant of a promotion. */
  ghost predicate Good(s: Start, v: View) {
    && GoodStart(s)
    && Consistent(s, v.heap, v.src)
    && Justified(s, v.heap, v.paths)
    && RootsStand(s, v)
    && v.gray <= v.src.Keys
    && BlackIsClean(s, v)
    && ExtraIsExact(s, v)
    && SweptIsClean(s, v)
    && Tiled(s, v.heap, v.ends)
    && Spaces(s, v.chunks, v.cur, v.cur2, v.ends)
    && SupplyLeft(s, v)
  }

  /** `b` lies beyond everything that was written when `v` was taken. */
  ghost predicate Beyond(s: Start, v: View, b: Addr) {
    && b.gen in {s.oldGen, s.youngGen}
    && b.chunk >= CurrentOf(s, v.cur, v.cur2, b.gen)
    && (Base(b) in v.ends ==> v.ends[Base(b)] <= b.off)
  }

  /** The end mark of a chunk, which is 0 for a chunk still to be added. */
  function EndOr0(v: View, k: Addr): nat {
    if k in v.ends then v.ends[k] else 0
  }

  /** Space and copies only grow, nothing but provided chunks is added, new objects lie beyond the old
      ones, and where an end mark has moved an object starts at its old position. */
  ghost predicate Onward(s: Start, v0: View, v1: View) {
    && v0.cur <= v1.cur && v0.cur2 <= v1.cur2
    && Uncopied(s, v1.heap) <= Uncopied(s, v0.heap)
    && (forall k | k in v0.ends :: k in v1.ends && v0.ends[k] <= v1.ends[k])
    && (forall k | k in v1.ends :: v1.ends[k] == EndOr0(v0, k) || Addr(k.gen, k.chunk, EndOr0(v0, k)) in v1.heap)
    && Drawn(s.supply, v0.chunks, v0.taken, v1.chunks, v1.taken)
    && (forall b | b in v0.heap :: b in v1.heap)
    && (forall b | b in v1.heap && b !in v0.heap :: Beyond(s, v0, b))
    && (forall b | b in v0.src :: b in v1.src && v1.src[b] == v0.src[b])
    && (forall b | b in v1.src && b !in v0.src :: b in v1.heap && b !in v0.heap)
  }

  lemma OnwardTransitive(s: Start, v0: View, v1: View, v2: View)
    requires Onward(s, v0, v1) && Onward(s, v1, v2)
    ensures Onward(s, v0, v2)
  {
    DrawnTransitive(s.supply, v0.chunks, v0.taken, v1.chunks, v1.taken, v2.chunks, v2.taken);
    hide Drawn;
    forall b | b in v2.heap && b !in v0.heap ensures Beyond(s, v0, b) {
      if b !in v1.heap {
        assert Beyond(s, v1, b);
      }
    }
  }

  /** As `Onward`, when nothing was counted as scanned. */
  ghost predicate Forwarding(s: Start, v0: View, v1: View) {
    Onward(s, v0, v1) && v1.gray == v0.gray + (v1.src.Keys - v0.src.Keys)
  }

  lemma ForwardingTransitive(s: Start, v0: View, v1: View, v2: View)
    requires Forwarding(s, v0, v1) && Forwarding(s, v1, v2)
    ensures Forwarding(s, v0, v2)
  {
    OnwardTransitive(s, v0, v1, v2);
  }

  /** As `Forwarding`, when apart from forwarding headers no object was changed. */
  ghost predicate Advanced(s: Start, v0: View, v1: View) {
    Forwarding(s, v0, v1) && Later(s, v0.heap, v1.heap)
  }

  lemma AdvancedTransitive(s: Start, v0: View, v1: View, v2: View)
    requires Advanced(s, v0, v1) && Advanced(s, v1, v2)
    ensures Advanced(s, v0, v2)
  {
    ForwardingTransitive(s, v0, v1, v2);
  }

  lemma AdvancedReflexive(s: Start, v: View)
    ensures Advanced(s, v, v)
  {
  }

  lemma DistinctGenerations(s: Start, v: View)
    requires Good(s, v)
    ensures 0 < s.oldGen < s.youngGen
  {
  }

  lemma CopiesInHeap(s: Start, v: View)
    requires Good(s, v)
    ensures forall b | b in v.src :: b in v.heap && b !in s.heap
  {
    CopiesAreNew(s, v.heap, v.src);
  }

  lemma UncopiedIsOld(s: Start, v: View)
    requires Good(s, v)
    ensures forall a | a in Uncopied(s, v.heap) ::
              a in v.heap && a in s.heap && v.heap[a] == s.heap[a] && a !in v.src && a.gen < s.oldGen
  {
    CopiesAreNew(s, v.heap, v.src);
    forall a | a in Uncopied(s, v.heap) ensures v.heap[a] == s.heap[a] {
      assert !Forwarded(s, v.heap, v.src, a);
    }
  }

  lemma UncopiedObject(s: Start, v: View, w: Word)
    requires Good(s, v) && w.Ptr? && w.addr in Uncopied(s, v.heap) && GoodPointer(s.heap, w)
    ensures w.addr in s.heap && w.addr.gen < s.oldGen && w.addr in v.heap && v.heap[w.addr] == s.heap[w.addr]
    ensures var o := s.heap[w.addr];
            && TagOf(o) == w.tag && 0 < Extent(o) <= GC_LARGE_OBJECT_LIMIT
            && (w.tag == PairTag ==> Size(o) == 8) && (w.tag == BvecTag ==> o.Bytes?)
  {
    UncopiedIsOld(s, v);
    assert GoodObject(s.heap, s.heap[w.addr]);
  }

  /** What a pointer into a collected generation leads to: a forwarding header of the right
      kind, or an object still to be moved. */
  lemma TargetState(s: Start, v: View, w: Word)
    requires Good(s, v) && Younger(w, s.oldGen) && GoodPointer(s.heap, w)
    ensures w.addr in v.heap && w.addr in s.heap
    ensures var o := v.heap[w.addr];
            if o.Fwd? then
              o.to.Ptr? && o.to.tag == w.tag && o.to.addr.gen in {s.oldGen, s.youngGen}
            else
              w.addr in Uncopied(s, v.heap)
  {
    if v.heap[w.addr].Fwd? {
      NewLocation(s, v.heap, v.src, w.addr);
    }
  }

  // ---- What a step that leaves the scanned copies alone keeps.

  /** The scanned copies and the extra remembered set are the same in both states. */
  ghost predicate SameScanned(v: View, v': View) {
    && v'.extra == v.extra
    && v'.src.Keys - v'.gray == v.src.Keys - v.gray
    && (forall x | x in v.src.Keys - v.gray :: x in v.heap && x in v'.heap && v'.heap[x] == v.heap[x])
  }

  lemma ScannedKept(s: Start, v: View, v': View)
    requires BlackIsClean(s, v) && ExtraIsExact(s, v) && SameScanned(v, v')
    ensures BlackIsClean(s, v') && ExtraIsExact(s, v')
  {
    forall b | b in v'.src && b !in v'.gray && b in v'.heap ensures Clean(v'.heap[b], s.oldGen) {
      assert b in v'.src.Keys - v'.gray;
    }
    forall b
      ensures Downward(s, v', b) <==> Downward(s, v, b)
    {
      assert b in v'.src.Keys - v'.gray <==> b in v.src.Keys - v.gray;
    }
  }

  lemma SweptKept(s: Start, v: View, v': View)
    requires SweptIsClean(s, v) && v'.swept == v.swept && v'.dropped == v.dropped
    requires forall a | a in s.heap && a.gen >= s.oldGen && a in v.heap :: a in v'.heap && v'.heap[a] == v.heap[a]
    ensures SweptIsClean(s, v')
  {
  }

  lemma RootsKept(s: Start, v: View, v': View)
    requires RootsStand(s, v) && v'.roots == v.roots && HeadersKept(v.heap, v'.heap)
    ensures RootsStand(s, v')
  {
    forall i | 0 <= i < |v.roots| ensures StandsFor(s.roots[i], v'.roots[i], v'.heap) {
      StandsForKept(s.roots[i], v.roots[i], v.heap, v'.heap);
    }
  }

  /** Objects written at the end of a current chunk lie beyond what was there. */
  lemma AppendIsOnward(s: Start, v: View, v': View, b: Addr, end: nat, a: Addr)
    requires IsFree(s, v, b) && v'.cur == v.cur && v'.cur2 == v.cur2 && v'.chunks == v.chunks && v'.taken == v.taken
    requires Uncopied(s, v'.heap) <= Uncopied(s, v.heap) && b !in v.heap
    requires v'.heap.Keys == v.heap.Keys + {b}
    requires b.off <= end && v'.ends == v.ends[Base(b) := end]
    requires v'.src == v.src || v'.src == v.src[b := a]
    requires forall x | x in v.src :: x in v.heap
    ensures Onward(s, v, v')
  {
  }

  // ---- Copying an object to the end of the current chunk.

  /** The first free byte of `gen`'s current chunk. */
  ghost predicate IsFree(s: Start, v: View, b: Addr) {
    && b.gen in {s.oldGen, s.youngGen} && b.chunk == CurrentOf(s, v.cur, v.cur2, b.gen)
    && Base(b) in v.ends && b.off == v.ends[Base(b)]
  }

  lemma FreeIsUnused(s: Start, v: View, b: Addr)
    requires Good(s, v) && IsFree(s, v, b)
    ensures b !in v.heap && b !in s.heap && b.off % 8 == 0
    ensures Base(b) in v.chunks && b.off <= v.chunks[Base(b)].lim && v.chunks[Base(b)].lim % PAGESIZE == 0
  {
    EndsAreFree(s, v.heap, v.ends);
    assert ChunkFits(s, v.chunks, v.cur, v.cur2, v.ends, Base(b));
  }

  function Move(v: View, a: Addr, b: Addr, p: Path): View
    requires a in v.heap
  {
    v.(heap := Moved(v.heap, a, b), src := v.src[b := a], gray := v.gray + {b}, paths := v.paths[a := p],
       ends := v.ends[Base(b) := b.off + Size(v.heap[a])])
  }

  lemma MoveTiled(s: Start, h: Heap, ends: Ends, a: Addr, b: Addr)
    requires Tiled(s, h, ends) && a in h && a in s.heap && b !in h && b !in s.heap
    requires Base(b) in ends && b.off == ends[Base(b)] && 0 < Size(h[a])
    ensures Tiled(s, Moved(h, a, b), ends[Base(b) := b.off + Size(h[a])])
  {
    hide Tiled;
    AppendTiled(s, h, ends, b, h[a]);
    ResizeNothingTiled(s, h[b := h[a]], ends[Base(b) := b.off + Size(h[a])], Moved(h, a, b));
  }

  lemma CopiesAreNew(s: Start, h: Heap, src: map<Addr, Addr>)
    requires Consistent(s, h, src)
    ensures forall b | b in src :: b in h && b !in s.heap
  {
    forall b | b in src ensures b in h && b !in s.heap {
      assert IsCopy(s, h, src, b);
    }
  }

  lemma OriginalSize(s: Start, a: Addr)
    requires GoodStart(s) && a in s.heap
    ensures 8 <= Size(s.heap[a]) && Size(s.heap[a]) % 8 == 0
    ensures a.gen < s.oldGen ==> Extent(s.heap[a]) <= GC_LARGE_OBJECT_LIMIT
  {
    assert GoodObject(s.heap, s.heap[a]);
  }

  lemma MoveJustified(s: Start, h: Heap, paths: map<Addr, Path>, a: Addr, b: Addr, p: Path)
    requires Justified(s, h, paths) && Leads(s, p, a) && a in h && b !in s.heap
    ensures Justified(s, Moved(h, a, b), paths[a := p])
  {
  }

  /** Forwarding an object that was reached by `p` keeps the invariant. */
  lemma MoveStep(s: Start, v: View, a: Addr, b: Addr, p: Path)
    requires Good(s, v) && a in Uncopied(s, v.heap) && IsFree(s, v, b) && Leads(s, p, a)
    requires Base(b) in v.chunks && b.off + Size(v.heap[a]) <= v.chunks[Base(b)].lim && Aligned(b, v.heap[a])
    ensures Good(s, Move(v, a, b, p)) && v.heap[a] == s.heap[a]
  {
    hide Tiled, Spaces, Consistent, GoodStart, BlackIsClean, ExtraIsExact, StandsFor, CopyOf, SweptIsClean;
    hide Justified, RootsStand, Leads;
    var v' := Move(v, a, b, p);
    FreeIsUnused(s, v, b);
    SweptKept(s, v, v');
    OriginalSize(s, a);
    MoveKeeps(s, v.heap, v.src, a, b);
    CopiesAreNew(s, v.heap, v.src);
    MoveJustified(s, v.heap, v.paths, a, b, p);
    RootsKept(s, v, v');
    ScannedKept(s, v, v');
    MoveTiled(s, v.heap, v.ends, a, b);
    EndsMoveKeepsSpaces(s, v.chunks, v.cur, v.cur2, v.ends, Base(b), b.off + Size(v.heap[a]));
  }

  lemma MoveAdvances(s: Start, v: View, a: Addr, b: Addr, p: Path)
    requires Good(s, v) && a in Uncopied(s, v.heap) && IsFree(s, v, b) && Aligned(b, v.heap[a])
    ensures Advanced(s, v, Move(v, a, b, p))
    ensures Uncopied(s, Move(v, a, b, p).heap) == Uncopied(s, v.heap) - {a}
  {
    hide Tiled, Spaces, Consistent, GoodStart, BlackIsClean, ExtraIsExact, RootsStand, Justified, Onward;
    FreeIsUnused(s, v, b);
    MoveKeeps(s, v.heap, v.src, a, b);
    CopiesAreNew(s, v.heap, v.src);
    AppendIsOnward(s, v, Move(v, a, b, p), b, b.off + Size(v.heap[a]), a);
  }

  // ---- Padding, sealing and adding chunks.

  function Fill(v: View, b: Addr, o: Obj): View {
    v.(heap := v.heap[b := o], ends := v.ends[Base(b) := b.off + Size(o)])
  }

  /** Writing alignment padding or a fake bignum keeps the invariant. */
  lemma FillStep(s: Start, v: View, b: Addr, o: Obj)
    requires Good(s, v) && IsFree(s, v, b) && FillerAt(b, o)
    requires Base(b) in v.chunks && b.off + Size(o) <= v.chunks[Base(b)].lim
    ensures Good(s, Fill(v, b, o)) && Advanced(s, v, Fill(v, b, o))
    ensures Uncopied(s, Fill(v, b, o).heap) == Uncopied(s, v.heap)
  {
    hide Tiled, Spaces, Consistent, GoodStart, BlackIsClean, ExtraIsExact, StandsFor, CopyOf, Onward, Uncopied;
    hide Later, SweptIsClean;
    var v' := Fill(v, b, o);
    FreeIsUnused(s, v, b);
    SweptKept(s, v, v');
    FillKeeps(s, v.heap, v.src, b, o);
    CopiesAreNew(s, v.heap, v.src);
    RootsKept(s, v, v');
    ScannedKept(s, v, v');
    AppendTiled(s, v.heap, v.ends, b, o);
    EndsMoveKeepsSpaces(s, v.chunks, v.cur, v.cur2, v.ends, Base(b), b.off + Size(o));
    AppendIsOnward(s, v, v', b, b.off + Size(o), b);
  }

  /** Recording the first free byte of a chunk keeps the invariant. */
  lemma TopStep(s: Start, v: View, k: Addr, top: nat)
    requires Good(s, v) && k in v.chunks && top % 8 == 0 && top <= v.chunks[k].lim
    ensures Good(s, v.(chunks := v.chunks[k := v.chunks[k].(top := top)]))
  {
    hide Tiled, Spaces, Consistent, GoodStart;
    var v' := v.(chunks := v.chunks[k := v.chunks[k].(top := top)]);
    TopKeepsSpaces(s, v.chunks, v.cur, v.cur2, v.ends, k, top);
    TopIsSame(s, v, k, top);
    UnusedKept(s.supply, v.chunks, v.taken, v'.chunks, v.taken);
    BlackAlone(s, v, v');
  }

  lemma TopIsSame(s: Start, v: View, k: Addr, top: nat)
    requires k in v.chunks
    ensures Drawn(s.supply, v.chunks, v.taken, v.chunks[k := v.chunks[k].(top := top)], v.taken)
  {
  }

  lemma TopAdvances(s: Start, v0: View, v1: View, k: Addr, top: nat)
    requires Advanced(s, v0, v1) && k in v1.chunks
    ensures Advanced(s, v0, v1.(chunks := v1.chunks[k := v1.chunks[k].(top := top)]))
  {
    var v2 := v1.(chunks := v1.chunks[k := v1.chunks[k].(top := top)]);
    TopIsSame(s, v1, k, top);
    DrawnTransitive(s.supply, v0.chunks, v0.taken, v1.chunks, v1.taken, v2.chunks, v2.taken);
  }

  lemma BlackAlone(s: Start, v: View, v': View)
    requires BlackIsClean(s, v) && ExtraIsExact(s, v) && RootsStand(s, v)
    requires v'.heap == v.heap && v'.src == v.src && v'.gray == v.gray && v'.extra == v.extra && v'.roots == v.roots
    requires SweptIsClean(s, v) && v'.swept == v.swept && v'.dropped == v.dropped
    ensures BlackIsClean(s, v') && ExtraIsExact(s, v') && RootsStand(s, v') && SweptIsClean(s, v')
  {
    SweptKept(s, v, v');
    assert forall b :: Downward(s, v', b) <==> Downward(s, v, b);
  }

  function Expand(s: Start, v: View, k: Addr): View {
    v.(chunks := v.chunks[k := s.supply(v.taken)], taken := v.taken + 1, ends := v.ends[k := 0],
       cur := if k.gen == s.oldGen then k.chunk else v.cur,
       cur2 := if k.gen == s.oldGen then v.cur2 else k.chunk)
  }

  /** Adding an empty chunk after a full one keeps the invariant. */
  lemma ExpandStep(s: Start, v: View, k: Addr)
    requires Good(s, v) && k.gen in {s.oldGen, s.youngGen} && k.off == 0
    requires k.chunk == CurrentOf(s, v.cur, v.cur2, k.gen) + 1
    requires var full := Addr(k.gen, k.chunk - 1, 0);
             full in v.chunks && full in v.ends && v.ends[full] == v.chunks[full].lim
    ensures k !in v.chunks && k !in v.ends && Good(s, Expand(s, v, k)) && Advanced(s, v, Expand(s, v, k))
  {
    hide Tiled, Consistent, BlackIsClean, ExtraIsExact, RootsStand, Spaces, Justified, SweptIsClean, Apart;
    hide Drawn;
    NextProvided(s, v);
    ExpandKeepsSpaces(s, v.chunks, v.cur, v.cur2, v.ends, k, s.supply(v.taken));
    NewChunkTiled(s, v.heap, v.ends, k);
    DrawNext(s.supply, v.chunks, v.taken, k);
    UnusedKept(s.supply, v.chunks, v.taken, Expand(s, v, k).chunks, v.taken + 1);
    BlackAlone(s, v, Expand(s, v, k));
  }

  lemma NextProvided(s: Start, v: View)
    requires SupplyLeft(s, v)
    ensures var c := s.supply(v.taken);
            GC_CHUNK_SIZE <= c.lim && WholePages(c) && c.top == 0
            && forall j | j in v.chunks :: Apart(c, v.chunks[j])
  {
  }

  // ---- Scanning.

  function Rewrite(v: View, b: Addr, i: nat, w: Word): View
    requires b in v.heap && v.heap[b].Cell? && i < |v.heap[b].slots|
  {
    v.(heap := v.heap[b := v.heap[b].(slots := v.heap[b].slots[i := w])])
  }

  /** Slot `i` of `b` in the original graph. */
  ghost predicate HasOriginalSlot(s: Start, v: View, b: Addr, i: nat) {
    var a := Original(v.src, b);
    a in s.heap && s.heap[a].Cell? && i < |s.heap[a].slots|
  }

  /** A copy or a remembered object, seen next to its original. */
  lemma OriginalSlot(s: Start, v: View, b: Addr, i: nat)
    requires Good(s, v) && Rewritable(s, v.src, b)
    requires b in v.heap && v.heap[b].Cell? && i < |v.heap[b].slots|
    ensures HasOriginalSlot(s, v, b, i)
    ensures var w0 := s.heap[Original(v.src, b)].slots[i];
            && StandsFor(w0, v.heap[b].slots[i], v.heap) && GoodPointer(s.heap, w0)
            && (Younger(v.heap[b].slots[i], s.oldGen) ==> w0 == v.heap[b].slots[i])
  {
    hide Tiled, Spaces, BlackIsClean, ExtraIsExact, RootsStand, Justified, StandsFor;
    if b in v.src {
      assert IsCopy(s, v.heap, v.src, b);
    }
    var a := Original(v.src, b);
    assert GoodObject(s.heap, s.heap[a]);
    assert CopyOf(s.heap[a], v.heap[b], v.heap);
    var w0 := s.heap[a].slots[i];
    if Younger(v.heap[b].slots[i], s.oldGen) {
      YoungWordIsOriginal(s, v.heap, v.src, w0, v.heap[b].slots[i]);
    }
  }

  /** An object whose slots may be rewritten: an unscanned copy, a remembered object, or padding,
      which has nothing to rewrite. */
  ghost predicate Scannable(s: Start, v: View, b: Addr, j: nat) {
    && b in v.heap
    && (b in v.src ==> b in v.gray)
    && (b !in v.src ==> v.heap[b] == ZERO_PAIR || (j < |s.remembered| && s.remembered[j] == b))
  }

  /** How the target of a slot was reached, when it still lies in a collected generation. */
  ghost function SlotPath(v: View, b: Addr, i: nat, j: nat): Path {
    if b in v.src && v.src[b] in v.paths then Through(v.paths[v.src[b]], v.src[b], i) else FromRemembered(j, i)
  }

  lemma SlotIsReached(s: Start, v: View, b: Addr, i: nat, j: nat)
    requires Good(s, v) && Scannable(s, v, b, j)
    requires v.heap[b].Cell? && i < |v.heap[b].slots| && Younger(v.heap[b].slots[i], s.oldGen)
    ensures Rewritable(s, v.src, b) && HasOriginalSlot(s, v, b, i)
    ensures s.heap[Original(v.src, b)].slots[i] == v.heap[b].slots[i] && GoodPointer(s.heap, v.heap[b].slots[i])
    ensures Leads(s, SlotPath(v, b, i, j), v.heap[b].slots[i].addr)
  {
    hide Tiled, Spaces, BlackIsClean, ExtraIsExact, RootsStand, StandsFor, CopyOf;
    OriginalSlot(s, v, b, i);
    if b in v.src {
      assert IsCopy(s, v.heap, v.src, b);
    }
  }

  /** The slot written back after its target was forwarded stands for the original slot. */
  lemma NewLocationStands(s: Start, v: View, v': View, b: Addr, i: nat, j: nat, w: Word, w': Word)
    requires Good(s, v) && Good(s, v') && Advanced(s, v, v') && Scannable(s, v, b, j)
    requires Rewritable(s, v.src, b) && HasOriginalSlot(s, v, b, i) && v.heap[b].Cell?
    requires s.heap[Original(v.src, b)].slots[i] == w && w.Ptr?
    requires w.addr in v'.heap && v'.heap[w.addr] == Fwd(w')
    ensures b in v'.heap && v'.heap[b] == v.heap[b] && Scannable(s, v', b, j) && Rewritable(s, v'.src, b)
    ensures (b in v'.src <==> b in v.src) && HasOriginalSlot(s, v', b, i)
    ensures StandsFor(s.heap[Original(v'.src, b)].slots[i], w', v'.heap)
  {
    hide Tiled, Spaces, BlackIsClean, ExtraIsExact, RootsStand, CopyOf, Consistent, Justified, GoodStart;
    UncopiedIsOld(s, v);
    if b in s.heap {
      CopiesInHeap(s, v');
    }
  }

  /** Replacing a pointer in an object that counts as unscanned keeps the invariant. */
  lemma RewriteStep(s: Start, v: View, b: Addr, i: nat, w: Word)
    requires Good(s, v) && Rewritable(s, v.src, b) && (b in v.src ==> b in v.gray)
    requires b in v.heap && v.heap[b].Cell? && i < |v.heap[b].slots|
    requires HasOriginalSlot(s, v, b, i) && StandsFor(s.heap[Original(v.src, b)].slots[i], w, v.heap)
    requires Younger(v.heap[b].slots[i], s.oldGen) && !Younger(w, s.oldGen)
    ensures Good(s, Rewrite(v, b, i, w)) && Onward(s, v, Rewrite(v, b, i, w))
    ensures Uncopied(s, Rewrite(v, b, i, w).heap) == Uncopied(s, v.heap)
  {
    hide Tiled, Spaces, Consistent, GoodStart, BlackIsClean, ExtraIsExact, CopyOf, StandsFor, Uncopied, SweptIsClean;
    var v' := Rewrite(v, b, i, w);
    SweptRewritten(s, v, b, i, w);
    RewriteKeeps(s, v.heap, v.src, b, i, w, v'.heap);
    CopiesAreNew(s, v.heap, v.src);
    RootsKept(s, v, v');
    ScannedKept(s, v, v');
    assert Extent(v'.heap[b]) == Extent(v.heap[b]);
    ResizeNothingTiled(s, v.heap, v.ends, v'.heap);
  }

  lemma SweptRewritten(s: Start, v: View, b: Addr, i: nat, w: Word)
    requires SweptIsClean(s, v) && b in v.heap && v.heap[b].Cell? && i < |v.heap[b].slots|
    requires Younger(v.heap[b].slots[i], s.oldGen) && !Younger(w, s.oldGen)
    ensures SweptIsClean(s, Rewrite(v, b, i, w))
  {
    assert b !in v.swept;
  }

  /** Counting a remembered object as visited, and as dropped if it points nowhere below itself. */
  lemma SweepStep(s: Start, v: View, b: Addr, drop: bool)
    requires Good(s, v) && b in s.heap && b.gen >= s.oldGen && b in v.heap && Clean(v.heap[b], s.oldGen)
    requires drop ==> Clean(v.heap[b], b.gen)
    ensures Good(s, v.(swept := v.swept + {b}, dropped := if drop then v.dropped + {b} else v.dropped))
  {
    hide Tiled, Spaces, Consistent, GoodStart, RootsStand, Clean;
    var v' := v.(swept := v.swept + {b}, dropped := if drop then v.dropped + {b} else v.dropped);
    ScannedKept(s, v, v') by {
      CopiesInHeap(s, v);
    }
    assert RootsStand(s, v') by {
      RootsKept(s, v, v');
    }
  }

  /** Counting a copy as scanned, and remembering it if it lies in the young area and points
      below it. */
  function Blacken(v: View, b: Addr, remember: bool): View
    requires b in v.heap
  {
    v.(gray := v.gray - {b}, extra := if remember then v.extra + {RememberedAs(b, v.heap[b])} else v.extra)
  }

  lemma BlackenStep(s: Start, v: View, b: Addr, remember: bool)
    requires Good(s, v) && b in v.gray && b in v.heap && Clean(v.heap[b], s.oldGen)
    requires remember <==> b.gen == s.youngGen && !Clean(v.heap[b], s.youngGen)
    ensures Good(s, Blacken(v, b, remember)) && Onward(s, v, Blacken(v, b, remember))
  {
    hide Tiled, Spaces, Consistent, GoodStart, RootsStand, Clean, SweptIsClean;
    var v' := Blacken(v, b, remember);
    CopiesAreNew(s, v.heap, v.src);
    forall x
      ensures Downward(s, v', x) <==> Downward(s, v, x) || (x == b && remember)
    {
    }
    SweptKept(s, v, v');
    assert RootsStand(s, v') by {
      RootsKept(s, v, v');
    }
  }

  /** Replacing a root by its target's new location keeps the invariant. */
  lemma RootStep(s: Start, v: View, i: nat, w: Word)
    requires Good(s, v) && i < |v.roots| && StandsFor(s.roots[i], w, v.heap)
    ensures Good(s, v.(roots := v.roots[i := w]))
  {
    hide Tiled, Spaces, Consistent, GoodStart, SweptIsClean;
    var v' := v.(roots := v.roots[i := w]);
    SweptKept(s, v, v');
    assert forall b :: Downward(s, v', b) <==> Downward(s, v, b);
  }

  lemma ForwardingReflexive(s: Start, v: View)
    ensures Forwarding(s, v, v)
  {
  }

  lemma ScannableInHeap(s: Start, v: View, b: Addr, j: nat)
    requires Scannable(s, v, b, j)
    ensures b in v.heap
  {
  }

  lemma ScannableRewrite(s: Start, v: View, b: Addr, j: nat, i: nat, w: Word)
    requires Scannable(s, v, b, j) && v.heap[b].Cell? && i < |v.heap[b].slots| && v.heap[b].slots[i].Ptr?
    ensures Scannable(s, Rewrite(v, b, i, w), b, j) && (b in v.src ==> b in v.gray)
  {
  }

  lemma RewriteForwards(s: Start, v: View, v1: View, b: Addr, i: nat, w: Word)
    requires Advanced(s, v, v1) && b in v1.heap && v1.heap[b].Cell? && i < |v1.heap[b].slots|
    requires Onward(s, v1, Rewrite(v1, b, i, w))
    ensures Forwarding(s, v, Rewrite(v1, b, i, w))
  {
    OnwardTransitive(s, v, v1, Rewrite(v1, b, i, w));
  }

  lemma OnwardReflexive(s: Start, v: View)
    ensures Onward(s, v, v)
  {
    DrawnReflexive(s.supply, v.chunks, v.taken);
  }

  lemma ForwardingIsOnward(s: Start, v: View, v': View)
    requires Forwarding(s, v, v')
    ensures Onward(s, v, v')
  {
  }

  lemma TileKept(s: Start, v: View, v': View, b: Addr)
    requires Forwarding(s, v, v') && Tile(s, v.heap, b)
    ensures Tile(s, v'.heap, b)
  {
  }

  /** What this collection writes is copies and filler, never a forwarding header. */
  lemma TileKind(s: Start, v: View, a: Addr)
    requires Good(s, v) && Tile(s, v.heap, a)
    ensures v.heap[a].Cell? || v.heap[a].Bytes? || (v.heap[a].Seal? && 8 <= v.heap[a].bytes)
  {
    hide Tiled, Spaces, BlackIsClean, ExtraIsExact, RootsStand, Justified;
    if a in v.src {
      assert IsCopy(s, v.heap, v.src, a);
      assert GoodObject(s.heap, s.heap[v.src[a]]);
    }
  }

  /** The allocation pointer and limit in use, and whether the young area has been entered. */
  datatype Alloc = Alloc(dest: Addr, lim: nat, switched: bool)

  /** An object was copied, or no space was taken at all. */
  ghost predicate Progress(s: Start, v0: View, a0: Alloc, v1: View, a1: Alloc) {
    || Uncopied(s, v1.heap) < Uncopied(s, v0.heap)
    || (Uncopied(s, v1.heap) == Uncopied(s, v0.heap) && a1 == a0
        && v1.chunks == v0.chunks && v1.cur == v0.cur && v1.cur2 == v0.cur2)
  }

  lemma ProgressTransitive(s: Start, v0: View, a0: Alloc, v1: View, a1: Alloc, v2: View, a2: Alloc)
    requires Progress(s, v0, a0, v1, a1) && Progress(s, v1, a1, v2, a2)
    ensures Progress(s, v0, a0, v2, a2)
  {
  }

  lemma ProgressReflexive(s: Start, v: View, a: Alloc)
    ensures Progress(s, v, a, v, a)
  {
  }

  /** A root that still points into a collected generation is as it was at the start. */
  lemma RootIsOriginal(s: Start, v: View, i: nat)
    requires Good(s, v) && i < |v.roots| && Younger(v.roots[i], s.oldGen)
    ensures i < |s.roots| && v.roots[i] == s.roots[i] && GoodPointer(s.heap, v.roots[i])
    ensures Leads(s, FromRoot(i), v.roots[i].addr)
  {
    YoungWordIsOriginal(s, v.heap, v.src, s.roots[i], v.roots[i]);
  }

  /** A remembered object is still in place, and has as many slots as ever. */
  lemma RememberedInPlace(s: Start, v: View, j: nat)
    requires Good(s, v) && j < |s.remembered|
    ensures var b := s.remembered[j];
            b in s.heap && b in v.heap && b.gen >= s.oldGen && v.heap[b].Cell? && Scannable(s, v, b, j)
  {
    CopiesInHeap(s, v);
    assert CopyOf(s.heap[s.remembered[j]], v.heap[s.remembered[j]], v.heap);
  }

  /** It is on record where the next object of generation `gen` goes: behind all that was written,
      but for a seal. */
  ghost predicate TopOnRecord(s: Start, v: View, gen: nat) {
    var k := Addr(gen, CurrentOf(s, v.cur, v.cur2, gen), 0);
    && k in v.chunks && k in v.ends
    && (v.chunks[k].top == v.ends[k]
        || (var a := k.(off := v.chunks[k].top);
            Tile(s, v.heap, a) && v.heap[a].Seal? && Next(v.heap, a).off == v.ends[k]))
  }

  /** Where the objects of each chunk end before a collection: at the limit, but for the current
      chunks. */
  function FirstEnds(s: Start, chunks: Chunks, cur: nat, cur2: nat): Ends {
    map k | k in chunks :: if k.chunk < CurrentOf(s, cur, cur2, k.gen) then chunks[k].lim else chunks[k].top
  }

  /** The semispaces a promotion may start from. */
  ghost predicate GoodSpaces(s: Start, chunks: Chunks, cur: nat, cur2: nat) {
    var ends := FirstEnds(s, chunks, cur, cur2);
    && Spaces(s, chunks, cur, cur2, ends)
    && (forall a | a in s.heap && Base(a) in chunks :: a.off < ends[Base(a)])
    && GoodSupply(s.supply) && Unused(chunks, s.supply, 0)
  }

  function FirstView(s: Start, chunks: Chunks, cur: nat, cur2: nat): View {
    View(s.heap, s.roots, map[], {}, map[], s.extra, {}, {}, chunks, FirstEnds(s, chunks, cur, cur2), cur, cur2,
        0)
  }

  lemma FirstTiled(s: Start, chunks: Chunks, cur: nat, cur2: nat)
    requires GoodSpaces(s, chunks, cur, cur2)
    ensures Tiled(s, s.heap, FirstEnds(s, chunks, cur, cur2))
  {
    hide Spaces, CurrentOf;
    var ends := FirstEnds(s, chunks, cur, cur2);
    assert forall a :: !Tile(s, s.heap, a);
    forall k | k in ends ensures ends[k] % 8 == 0 {
      ChunkLimits(s, chunks, cur, cur2, ends, k);
    }
  }

  lemma ChunkLimits(s: Start, chunks: Chunks, cur: nat, cur2: nat, ends: Ends, k: Addr)
    requires Spaces(s, chunks, cur, cur2, ends) && k in chunks
    ensures chunks[k].lim % 8 == 0 && chunks[k].top % 8 == 0
  {
    assert ChunkFits(s, chunks, cur, cur2, ends, k);
    PageUnits(chunks[k].lim);
  }

  lemma LimitsArePages(s: Start, v: View, k: Addr)
    requires Good(s, v) && k in v.chunks
    ensures WholePages(v.chunks[k]) && PAGESIZE <= v.chunks[k].lim && v.chunks[k].lim % 8 == 0
  {
    hide Consistent, Justified, RootsStand, BlackIsClean, ExtraIsExact, SweptIsClean, Tiled, SupplyLeft, GoodStart;
    assert ChunkFits(s, v.chunks, v.cur, v.cur2, v.ends, k);
    PageUnits(v.chunks[k].lim);
  }

  lemma FirstConsistent(s: Start)
    requires GoodStart(s)
    ensures Consistent(s, s.heap, map[]) && Justified(s, s.heap, map[])
  {
    assert forall a | a in s.heap :: GoodObject(s.heap, s.heap[a]);
  }

  /** The state in which a promotion starts satisfies the invariant. */
  lemma FirstStep(s: Start, chunks: Chunks, cur: nat, cur2: nat)
    requires GoodStart(s) && GoodSpaces(s, chunks, cur, cur2)
    ensures Good(s, FirstView(s, chunks, cur, cur2))
  {
    hide Tiled, Consistent, Justified, Spaces, GoodStart;
    FirstTiled(s, chunks, cur, cur2);
    FirstConsistent(s);
  }
}
