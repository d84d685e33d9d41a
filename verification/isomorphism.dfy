/** What a finished promotion means to the mutator: the live graph is the same graph, and the
    remembered sets again cover every pointer from an older to a younger generation. */
module PromotionMeaning {
  import opened SchemeHeap
  import opened Copying
  import opened ChunkLayout
  import opened PromotionSteps

  /** The objects a promotion has to keep: those outside the collected generations, and the
      reachable ones within. */
  ghost predicate LiveObject(s: Start, a: Addr) {
    a in s.heap && (a.gen >= s.oldGen || Reachable(s, a))
  }

  ghost predicate LiveWord(s: Start, w: Word) {
    w.Ptr? ==> LiveObject(s, w.addr)
  }

  /** Where the object that was at `a` is in memory `h`. */
  function NewPlace(h: Heap, a: Addr): Addr {
    if a in h && h[a].Fwd? && h[a].to.Ptr? then h[a].to.addr else a
  }

  function Relocated(h: Heap, w: Word): Word {
    if w.Ptr? then Ptr(NewPlace(h, w.addr), w.tag) else w
  }

  /** The object `o` with every pointer replaced by its target's new place. */
  function Image(h: Heap, o: Obj): Obj {
    if o.Cell? then o.(slots := seq(|o.slots|, i requires 0 <= i < |o.slots| => Relocated(h, o.slots[i]))) else o
  }

  /** Memory `h` with roots `roots` holds the live graph of `s`, moved: exactly the reachable
      objects of the collected generations were forwarded, no two objects share a new place, and
      every live object is found there with its pointers redirected and all else unchanged. */
  ghost predicate Isomorphic(s: Start, h: Heap, roots: seq<Word>) {
    && |roots| == |s.roots|
    && (forall i | 0 <= i < |roots| :: roots[i] == Relocated(h, s.roots[i]))
    && (forall a | a in s.heap && a.gen < s.oldGen :: Reachable(s, a) <==> (a in h && h[a].Fwd?))
    && (forall a | LiveObject(s, a) :: Kept(s, h, a))
    && (forall a, b | LiveObject(s, a) && LiveObject(s, b) && NewPlace(h, a) == NewPlace(h, b) :: a == b)
  }

  ghost predicate Kept(s: Start, h: Heap, a: Addr)
    requires a in s.heap
  {
    && NewPlace(h, a) in h && NewPlace(h, a).gen >= s.oldGen
    && (a.gen >= s.oldGen ==> NewPlace(h, a) == a)
    && h[NewPlace(h, a)] == Image(h, s.heap[a])
  }

  /** Nothing is left to do: the copies are scanned, the roots forwarded, the remembered objects
      visited. */
  ghost predicate Done(s: Start, v: View) {
    && Good(s, v) && v.gray == {}
    && (forall i | 0 <= i < |v.roots| :: !Younger(v.roots[i], s.oldGen))
    && (forall j | 0 <= j < |s.remembered| :: s.remembered[j] in v.swept)
  }

  // ---- No surviving object points into the emptied generations.

  /** `w`, found in a survivor at the end, is the relocated `w0`. */
  lemma CleanWordIsRelocated(s: Start, v: View, w0: Word, w: Word)
    requires Good(s, v) && GoodPointer(s.heap, w0) && StandsFor(w0, w, v.heap) && !Younger(w, s.oldGen)
    ensures w == Relocated(v.heap, w0)
    ensures Younger(w0, s.oldGen) ==> w0.addr in v.heap && v.heap[w0.addr].Fwd?
  {
    hide Tiled, Spaces, BlackIsClean, ExtraIsExact, SweptIsClean, RootsStand, Justified;
    if w0.Ptr? && w0.addr in v.heap && v.heap[w0.addr].Fwd? {
      NewLocation(s, v.heap, v.src, w0.addr);
    }
  }

  /** A survivor whose original is `o0` is the image of `o0`. */
  lemma CleanCopyIsImage(s: Start, v: View, o0: Obj, o: Obj)
    requires Good(s, v) && GoodObject(s.heap, o0) && CopyOf(o0, o, v.heap) && Clean(o, s.oldGen)
    ensures o == Image(v.heap, o0)
    ensures o0.Cell? ==> forall i | 0 <= i < |o0.slots| && Younger(o0.slots[i], s.oldGen) ::
                           o0.slots[i].addr in v.heap && v.heap[o0.slots[i].addr].Fwd?
  {
    hide Good;
    if o0.Cell? {
      forall i | 0 <= i < |o0.slots|
        ensures o.slots[i] == Relocated(v.heap, o0.slots[i])
        ensures Younger(o0.slots[i], s.oldGen) ==> o0.slots[i].addr in v.heap && v.heap[o0.slots[i].addr].Fwd?
      {
        CleanWordIsRelocated(s, v, o0.slots[i], o.slots[i]);
      }
    }
  }

  lemma SurvivorIsClean(s: Start, v: View, a: Addr)
    requires Done(s, v) && a in s.heap && a.gen >= s.oldGen
    ensures a in v.heap && CopyOf(s.heap[a], v.heap[a], v.heap) && Clean(v.heap[a], s.oldGen)
  {
    hide Tiled, Spaces, ExtraIsExact, RootsStand, Justified, StandsFor;
    if !Clean(s.heap[a], s.oldGen) {
      assert a in v.swept;
    } else if s.heap[a].Cell? {
      forall i | 0 <= i < |s.heap[a].slots| ensures !Younger(v.heap[a].slots[i], s.oldGen) {
        assert GoodObject(s.heap, s.heap[a]);
        OriginalSlot(s, v, a, i) by {
          CopiesInHeap(s, v);
        }
      }
    }
  }

  /** An object left alone by the mutator's barrier is left alone by the collector too. */
  lemma UnrememberedUnchanged(s: Start, v: View, a: Addr)
    requires Done(s, v) && a in s.heap && a.gen >= s.oldGen && a !in s.remembered
    ensures a in v.heap && v.heap[a] == s.heap[a]
  {
    hide Tiled, Spaces, ExtraIsExact, RootsStand, Justified;
    SurvivorIsClean(s, v, a);
    assert GoodObject(s.heap, s.heap[a]);
    CleanCopyIsImage(s, v, s.heap[a], v.heap[a]);
    if s.heap[a].Cell? {
      forall i | 0 <= i < |s.heap[a].slots| ensures v.heap[a].slots[i] == s.heap[a].slots[i] {
        var w0 := s.heap[a].slots[i];
        assert GoodPointer(s.heap, w0) && !Younger(w0, s.oldGen);
        if w0.Ptr? && v.heap[w0.addr].Fwd? {
          NewLocation(s, v.heap, v.src, w0.addr);
        }
      }
    }
  }

  lemma CopyIsClean(s: Start, v: View, b: Addr)
    requires Done(s, v) && b in v.src
    ensures b in v.heap && v.src[b] in s.heap && v.src[b].gen < s.oldGen
    ensures Clean(v.heap[b], s.oldGen) && CopyOf(s.heap[v.src[b]], v.heap[b], v.heap)
  {
    assert IsCopy(s, v.heap, v.src, b);
  }

  // ---- Forwarded means reachable.

  lemma SlotTargetForwarded(s: Start, v: View, o0: Obj, o: Obj, i: nat)
    requires Good(s, v) && GoodObject(s.heap, o0) && CopyOf(o0, o, v.heap) && Clean(o, s.oldGen)
    requires o0.Cell? && i < |o0.slots| && Younger(o0.slots[i], s.oldGen)
    ensures o0.slots[i].addr in v.heap && v.heap[o0.slots[i].addr].Fwd?
  {
    CleanCopyIsImage(s, v, o0, o);
  }

  lemma ForwardedHasCopy(s: Start, v: View, a: Addr)
    requires Good(s, v) && a in s.heap && a in v.heap && v.heap[a].Fwd?
    ensures a.gen < s.oldGen && Forwarded(s, v.heap, v.src, a) && v.heap[a].to.addr.gen >= s.oldGen
  {
    NewLocation(s, v.heap, v.src, a);
  }

  /** Every object a path leads to was forwarded. */
  lemma {:induction false} ReachableIsForwarded(s: Start, v: View, p: Path, a: Addr)
    requires Done(s, v) && Leads(s, p, a) && a.gen < s.oldGen
    ensures a in s.heap && a in v.heap && v.heap[a].Fwd?
    decreases p
  {
    hide Tiled, Spaces, ExtraIsExact, Consistent, Justified, GoodObject, CopyOf, StandsFor;
    match p
    case FromRoot(i) =>
      CleanWordIsRelocated(s, v, s.roots[i], v.roots[i]);
    case FromRemembered(j, i) =>
      var b := s.remembered[j];
      SurvivorIsClean(s, v, b);
      GoodAt(s, b, i);
      SlotTargetForwarded(s, v, s.heap[b], v.heap[b], i);
    case Through(prev, owner, i) =>
      ReachableIsForwarded(s, v, prev, owner);
      ForwardedHasCopy(s, v, owner);
      var b := v.heap[owner].to.addr;
      CopyIsClean(s, v, b);
      GoodAt(s, owner, i);
      SlotTargetForwarded(s, v, s.heap[owner], v.heap[b], i);
  }

  lemma GoodAt(s: Start, a: Addr, i: nat)
    requires GoodStart(s) && a in s.heap
    ensures GoodObject(s.heap, s.heap[a])
    ensures s.heap[a].Cell? && i < |s.heap[a].slots| ==> GoodPointer(s.heap, s.heap[a].slots[i])
  {
  }

  lemma ForwardedExactly(s: Start, v: View, a: Addr)
    requires Done(s, v) && a in s.heap && a.gen < s.oldGen
    ensures a in v.heap && (Reachable(s, a) <==> v.heap[a].Fwd?)
  {
    hide Tiled, Spaces, ExtraIsExact, RootsStand;
    if Reachable(s, a) {
      var p :| Leads(s, p, a);
      ReachableIsForwarded(s, v, p, a);
    }
  }

  // ---- The isomorphism.

  lemma LiveIsKept(s: Start, v: View, a: Addr)
    requires Done(s, v) && LiveObject(s, a)
    ensures Kept(s, v.heap, a)
  {
    hide Tiled, Spaces, ExtraIsExact, RootsStand, Consistent, Justified, GoodStart, GoodObject, CopyOf;
    if a.gen >= s.oldGen {
      SurvivorIsClean(s, v, a);
      GoodAt(s, a, 0);
      CleanCopyIsImage(s, v, s.heap[a], v.heap[a]);
      StaysPut(s, v, a);
    } else {
      ForwardedExactly(s, v, a);
      ForwardedHasCopy(s, v, a);
      var b := v.heap[a].to.addr;
      CopyIsClean(s, v, b);
      GoodAt(s, a, 0);
      CleanCopyIsImage(s, v, s.heap[a], v.heap[b]);
    }
  }

  lemma StaysPut(s: Start, v: View, a: Addr)
    requires Good(s, v) && a in s.heap && a.gen >= s.oldGen
    ensures NewPlace(v.heap, a) == a
  {
    if a in v.heap && v.heap[a].Fwd? {
      NewLocation(s, v.heap, v.src, a);
    }
  }

  /** No two live objects end up in the same place. */
  lemma PlacesDiffer(s: Start, v: View, a: Addr, b: Addr)
    requires Done(s, v) && LiveObject(s, a) && LiveObject(s, b) && NewPlace(v.heap, a) == NewPlace(v.heap, b)
    ensures a == b
  {
    hide Done, Reachable;
    PlaceOfLive(s, v, a);
    PlaceOfLive(s, v, b);
  }

  lemma PlaceOfLive(s: Start, v: View, a: Addr)
    requires Done(s, v) && LiveObject(s, a)
    ensures var b := NewPlace(v.heap, a);
            if a.gen >= s.oldGen then b == a && b !in v.src else b in v.src && v.src[b] == a
  {
    hide Tiled, Spaces, ExtraIsExact, RootsStand, Consistent, Justified, GoodStart;
    if a.gen >= s.oldGen {
      StaysPut(s, v, a);
      CopiesInHeap(s, v);
    } else {
      ForwardedExactly(s, v, a);
      ForwardedHasCopy(s, v, a);
    }
  }

  lemma RootsRelocated(s: Start, v: View, i: nat)
    requires Done(s, v) && i < |s.roots|
    ensures |v.roots| == |s.roots| && v.roots[i] == Relocated(v.heap, s.roots[i])
  {
    CleanWordIsRelocated(s, v, s.roots[i], v.roots[i]);
  }

  /** A finished promotion has moved the live graph. */
  lemma DoneIsIsomorphic(s: Start, v: View)
    requires Done(s, v)
    ensures Isomorphic(s, v.heap, v.roots)
  {
    hide Done, LiveObject, Reachable, Kept, Relocated, NewPlace;
    assert |v.roots| == |s.roots| by {
      SameRootCount(s, v);
    }
    forall i | 0 <= i < |v.roots| ensures v.roots[i] == Relocated(v.heap, s.roots[i]) {
      RootsRelocated(s, v, i);
    }
    forall a | a in s.heap && a.gen < s.oldGen ensures Reachable(s, a) <==> (a in v.heap && v.heap[a].Fwd?) {
      ForwardedExactly(s, v, a);
    }
    forall a | LiveObject(s, a) ensures a in s.heap && Kept(s, v.heap, a) {
      LiveInHeap(s, a);
      LiveIsKept(s, v, a);
    }
    forall a, b | LiveObject(s, a) && LiveObject(s, b) && NewPlace(v.heap, a) == NewPlace(v.heap, b) ensures a == b {
      PlacesDiffer(s, v, a, b);
    }
  }

  lemma LiveInHeap(s: Start, a: Addr)
    requires LiveObject(s, a)
    ensures a in s.heap
  {
  }

  lemma SameRootCount(s: Start, v: View)
    requires Done(s, v)
    ensures |v.roots| == |s.roots|
  {
  }

  // ---- What a program can see.

  datatype Option<T> = None | Some(value: T)

  /** What is found by following the slots `path` from `w`. */
  function Follow(h: Heap, w: Word, path: seq<nat>): Option<Word>
    decreases |path|
  {
    if path == [] then
      Some(w)
    else if w.Ptr? && w.addr in h && h[w.addr].Cell? && path[0] < |h[w.addr].slots| then
      Follow(h, h[w.addr].slots[path[0]], path[1..])
    else
      None
  }

  lemma LiveSlot(s: Start, a: Addr, i: nat)
    requires GoodStart(s) && LiveObject(s, a) && s.heap[a].Cell? && i < |s.heap[a].slots|
    ensures LiveWord(s, s.heap[a].slots[i])
  {
    GoodAt(s, a, i);
    var w := s.heap[a].slots[i];
    if Younger(w, s.oldGen) {
      if a.gen < s.oldGen {
        var p :| Leads(s, p, a);
        assert Leads(s, Through(p, a, i), w.addr);
      } else {
        var j :| 0 <= j < |s.remembered| && s.remembered[j] == a;
        assert Leads(s, FromRemembered(j, i), w.addr);
      }
    }
  }

  lemma LiveRoot(s: Start, i: nat)
    requires GoodStart(s) && i < |s.roots|
    ensures LiveWord(s, s.roots[i])
  {
    var w := s.roots[i];
    if Younger(w, s.oldGen) {
      assert Leads(s, FromRoot(i), w.addr);
    }
  }

  /** Every access path from a live word finds after the promotion what it found before, moved. */
  lemma {:induction false} SameObservation(s: Start, h: Heap, roots: seq<Word>, w: Word, path: seq<nat>)
    requires GoodStart(s) && Isomorphic(s, h, roots) && LiveWord(s, w)
    ensures var before, after := Follow(s.heap, w, path), Follow(h, Relocated(h, w), path);
            && (before.None? <==> after.None?)
            && (before.Some? ==> after == Some(Relocated(h, before.value)) && LiveWord(s, before.value))
    decreases |path|
  {
    hide GoodStart, Reachable, GoodObject, Clean;
    if path != [] && w.Ptr? {
      assert Kept(s, h, w.addr);
      var o := s.heap[w.addr];
      if o.Cell? && path[0] < |o.slots| {
        LiveSlot(s, w.addr, path[0]);
        SameObservation(s, h, roots, o.slots[path[0]], path[1..]);
      }
    }
  }

  /** Sharing and cycles survive: two accesses meet at one object after the promotion exactly when
      they did before, and immediate values are found unchanged. */
  lemma SharingSurvives(s: Start, h: Heap, roots: seq<Word>, i: nat, p: seq<nat>, j: nat, q: seq<nat>)
    requires GoodStart(s) && Isomorphic(s, h, roots) && i < |s.roots| && j < |s.roots|
    requires Follow(s.heap, s.roots[i], p).Some? && Follow(s.heap, s.roots[j], q).Some?
    ensures |roots| == |s.roots| && Follow(h, roots[i], p).Some? && Follow(h, roots[j], q).Some?
    ensures Follow(h, roots[i], p) == Follow(h, roots[j], q) <==>
            Follow(s.heap, s.roots[i], p) == Follow(s.heap, s.roots[j], q)
    ensures var before, after := Follow(s.heap, s.roots[i], p).value, Follow(h, roots[i], p).value;
            before.Imm? || after.Imm? ==> after == before
  {
    hide GoodStart, Reachable, Kept, Follow;
    LiveRoot(s, i);
    LiveRoot(s, j);
    SameObservation(s, h, roots, s.roots[i], p);
    SameObservation(s, h, roots, s.roots[j], q);
  }

  // ---- Remembered sets.

  /** The object at `a` is a member of the extra remembered set. */
  predicate InExtra(extra: set<Word>, a: Addr) {
    Ptr(a, PairTag) in extra || Ptr(a, VecTag) in extra || Ptr(a, ProcTag) in extra
  }

  /** Every object outside the collected generations that points below its own generation is in
      the remembered set of its generation or in the extra remembered set. */
  ghost predicate WritesRemembered(s: Start) {
    forall a | a in s.heap && a.gen >= s.oldGen && !Clean(s.heap[a], a.gen) :: a in s.remembered || InExtra(s.extra, a)
  }

  /** In memory `h`, every object that holds a pointer below its own generation is a kept member of
      a remembered set or a member of the extra remembered set. */
  ghost predicate GenerationsRemembered(s: Start, h: Heap, extra: set<Word>, kept: seq<Addr>) {
    forall b | b in h && b.gen >= s.oldGen && !Clean(h[b], b.gen) :: b in kept || InExtra(extra, b)
  }

  /** The extra remembered set has lost nothing, and has gained exactly the objects moved to the
      young area that point below it. */
  ghost predicate ExtraGrown(s: Start, h: Heap, extra: set<Word>) {
    && s.extra <= extra
    && (forall b | b in h && b !in s.heap && b.gen == s.youngGen && !Clean(h[b], s.youngGen) ::
          Ptr(b, if TagOf(h[b]) == PairTag then PairTag else VecTag) in extra)
    && (forall w | w in extra && w !in s.extra ::
          && w.Ptr? && TellsPair(h, w) && w.addr !in s.heap && w.addr.gen == s.youngGen
          && !Clean(h[w.addr], s.youngGen))
  }

  lemma ExtraHasGrown(s: Start, v: View)
    requires Done(s, v)
    ensures ExtraGrown(s, v.heap, v.extra)
  {
    hide Tiled, Spaces, GoodStart, RootsStand, Clean, Consistent;
    CopiesInHeap(s, v);
    forall b | b in v.heap && b !in s.heap && b.gen == s.youngGen && !Clean(v.heap[b], s.youngGen)
      ensures RememberedAs(b, v.heap[b]) in v.extra
    {
      if b in v.src {
        assert Downward(s, v, b);
      } else {
        FillerIsClean(s, v, b);
      }
    }
  }

  /** Promotion re-establishes the generational invariant. */
  lemma RememberedAgain(s: Start, v: View, kept: seq<Addr>)
    requires Done(s, v) && WritesRemembered(s)
    requires forall j | 0 <= j < |s.remembered| :: s.remembered[j] in kept || s.remembered[j] in v.dropped
    ensures GenerationsRemembered(s, v.heap, v.extra, kept)
  {
    hide Tiled, Spaces, GoodStart, RootsStand, Clean, WritesRemembered, Consistent;
    forall b | b in v.heap && b.gen >= s.oldGen && !Clean(v.heap[b], b.gen)
      ensures b in kept || InExtra(v.extra, b)
    {
      if b in v.src {
        CopyGeneration(s, v, b);
        assert Downward(s, v, b);
      } else if b in s.heap {
        OldObjectRemembered(s, v, b);
      } else {
        FillerIsClean(s, v, b);
      }
    }
  }

  lemma CopyGeneration(s: Start, v: View, b: Addr)
    requires Done(s, v) && b in v.src && b in v.heap && !Clean(v.heap[b], b.gen)
    ensures b.gen == s.youngGen && TagOf(v.heap[b]) != BvecTag
  {
    CopyIsClean(s, v, b);
    assert IsCopy(s, v.heap, v.src, b);
    assert GoodObject(s.heap, s.heap[v.src[b]]);
  }

  lemma OldObjectRemembered(s: Start, v: View, b: Addr)
    requires Done(s, v) && WritesRemembered(s) && b in s.heap && b.gen >= s.oldGen && b in v.heap
    requires !Clean(v.heap[b], b.gen)
    ensures b !in v.dropped && (b in s.remembered || InExtra(v.extra, b))
  {
    hide Tiled, Spaces, RootsStand, Consistent, GoodStart;
    if b !in s.remembered {
      UnrememberedUnchanged(s, v, b);
    }
  }

  lemma FillerIsClean(s: Start, v: View, b: Addr)
    requires Good(s, v) && b in v.heap && b !in s.heap && b !in v.src
    ensures Filler(v.heap[b]) && forall limit :: Clean(v.heap[b], limit)
  {
    hide Tiled, Spaces, ExtraIsExact, RootsStand, Justified, GoodStart;
  }

  // ---- The next promotion.

  /** The memory the mutator goes on with: the emptied generations are gone, and so are the seals,
      which the semispaces count as free memory. */
  function Survivors(s: Start, h: Heap): Heap {
    map b | b in h && b.gen >= s.oldGen && !h[b].Seal? :: h[b]
  }

  lemma RelocatedIsGood(s: Start, v: View, w: Word)
    requires Done(s, v) && LiveWord(s, w) && GoodPointer(s.heap, w)
    ensures GoodPointer(Survivors(s, v.heap), Relocated(v.heap, w))
  {
    hide Done, Reachable, Relocated, NewPlace, GoodObject;
    if w.Ptr? {
      LiveIsKept(s, v, w.addr);
      var b := NewPlace(v.heap, w.addr);
      assert Kept(s, v.heap, w.addr) && b in v.heap && b.gen >= s.oldGen;
      assert !v.heap[b].Seal? by {
        LiveIsNoSeal(s, v, w.addr);
      }
      assert b in Survivors(s, v.heap) && Survivors(s, v.heap)[b] == v.heap[b];
      assert TagOf(Image(v.heap, s.heap[w.addr])) == w.tag;
    }
    RelocatedWord(v.heap, w);
  }

  lemma RelocatedWord(h: Heap, w: Word)
    ensures Relocated(h, w) == if w.Ptr? then Ptr(NewPlace(h, w.addr), w.tag) else w
  {
  }

  lemma LiveIsNoSeal(s: Start, v: View, a: Addr)
    requires Done(s, v) && LiveObject(s, a)
    ensures NewPlace(v.heap, a) in v.heap && !v.heap[NewPlace(v.heap, a)].Seal?
  {
    hide Done, Reachable, NewPlace;
    StartIsGood(s, v);
    LiveIsKept(s, v, a);
    assert GoodObject(s.heap, s.heap[a]);
  }

  lemma ImageIsGood(s: Start, v: View, a: Addr)
    requires Done(s, v) && LiveObject(s, a)
    ensures GoodObject(Survivors(s, v.heap), Image(v.heap, s.heap[a]))
  {
    hide Done, Reachable, Relocated, NewPlace, LiveWord, LiveObject, GoodPointer, Survivors;
    StartIsGood(s, v);
    LiveInHeap(s, a);
    GoodAt(s, a, 0);
    var o := s.heap[a];
    if o.Cell? {
      forall i | 0 <= i < |o.slots| ensures GoodPointer(Survivors(s, v.heap), Relocated(v.heap, o.slots[i])) {
        GoodAt(s, a, i);
        LiveSlot(s, a, i);
        RelocatedIsGood(s, v, o.slots[i]);
      }
    }
  }

  lemma StartIsGood(s: Start, v: View)
    requires Done(s, v)
    ensures GoodStart(s)
  {
  }

  /** Every object above the emptied generations is whole, and its pointers lead to objects of the
      right kind above them. */
  lemma SurvivorsAreGood(s: Start, v: View)
    requires Done(s, v)
    ensures GoodHeap(Survivors(s, v.heap))
    ensures forall i | 0 <= i < |v.roots| :: GoodPointer(Survivors(s, v.heap), v.roots[i])
  {
    hide Done, GoodObject, GoodPointer, Reachable, Relocated, NewPlace, Image, LiveWord;
    var h := Survivors(s, v.heap);
    StartIsGood(s, v);
    forall b | b in h ensures GoodObject(h, h[b]) {
      if b in s.heap || b in v.src {
        var a := SurvivorOf(s, v, b);
        ImageIsGood(s, v, a);
      } else {
        FillerIsGood(s, v, b);
      }
    }
    SameRootCount(s, v);
    forall i | 0 <= i < |v.roots| ensures GoodPointer(h, v.roots[i]) {
      LiveRoot(s, i);
      RootsRelocated(s, v, i);
      RelocatedIsGood(s, v, s.roots[i]);
    }
  }

  lemma FillerIsGood(s: Start, v: View, b: Addr)
    requires Done(s, v) && b in v.heap && b !in s.heap && b !in v.src && !v.heap[b].Seal?
    ensures GoodObject(Survivors(s, v.heap), v.heap[b])
  {
    FillerIsClean(s, v, b);
  }

  /** What is not filler is the image of a live object. */
  lemma SurvivorOf(s: Start, v: View, b: Addr) returns (a: Addr)
    requires Done(s, v) && b in v.heap && b.gen >= s.oldGen && (b in s.heap || b in v.src)
    ensures LiveObject(s, a) && v.heap[b] == Image(v.heap, s.heap[a]) && NewPlace(v.heap, a) == b
  {
    hide Tiled, Spaces, ExtraIsExact, RootsStand, Justified, GoodStart, Reachable, Filler, Image, CopyOf;
    if b in s.heap {
      a := b;
      LiveIsKept(s, v, a);
    } else {
      a := v.src[b];
      assert IsCopy(s, v.heap, v.src, b);
      ForwardedExactly(s, v, a);
      LiveIsKept(s, v, a);
    }
  }

  /** The members of `kept` outside the two areas. */
  function Elsewhere(s: Start, kept: seq<Addr>): (r: seq<Addr>)
    ensures forall a :: a in r <==> a in kept && a.gen !in {s.oldGen, s.youngGen}
  {
    if kept == [] then
      []
    else if kept[0].gen in {s.oldGen, s.youngGen} then
      Elsewhere(s, kept[1..])
    else
      [kept[0]] + Elsewhere(s, kept[1..])
  }

  /** The members of `kept` in the young area. */
  function FromYoung(s: Start, h: Heap, kept: seq<Addr>): set<Word> {
    set a | a in kept && a.gen == s.youngGen && a in h :: Ptr(a, TagOf(h[a]))
  }

  /** After a promotion that took `taken` chunks the old area's remembered set is cleared, and the
      young area's is added to the extra set and cleared. */
  function NextStart(s: Start, h: Heap, roots: seq<Word>, extra: set<Word>, kept: seq<Addr>, taken: nat): Start {
    Start(Survivors(s, h), roots, Elsewhere(s, kept), extra + FromYoung(s, h, kept), s.oldGen, s.youngGen,
          Rest(s.supply, taken))
  }

  /** A remembered object, or a member of the extra set, is there for the next promotion. */
  lemma MemberSurvives(s: Start, v: View, a: Addr)
    requires Done(s, v) && a in s.heap && a.gen >= s.oldGen
    ensures a in Survivors(s, v.heap) && Survivors(s, v.heap)[a] == v.heap[a]
    ensures v.heap[a].Cell? == s.heap[a].Cell? && TagOf(v.heap[a]) == TagOf(s.heap[a])
  {
    hide Tiled, Spaces, ExtraIsExact, RootsStand, Justified, Reachable;
    SurvivorIsClean(s, v, a);
    assert GoodObject(s.heap, s.heap[a]);
  }

  lemma NextExtra(s: Start, v: View, kept: seq<Addr>, w: Word)
    requires Done(s, v) && (forall a | a in kept :: a in s.remembered)
    requires w in v.extra + FromYoung(s, v.heap, kept)
    ensures w.Ptr? && TellsPair(Survivors(s, v.heap), w) && w.addr.gen == s.youngGen
  {
    hide Done, Survivors, ExtraGrown;
    StartIsGood(s, v);
    if w in v.extra && w !in s.extra {
      ExtraHasGrown(s, v);
      NewMember(s, v, w);
    } else {
      MemberSurvives(s, v, w.addr);
    }
  }

  lemma NewMember(s: Start, v: View, w: Word)
    requires ExtraGrown(s, v.heap, v.extra) && w in v.extra && w !in s.extra && s.oldGen <= s.youngGen
    ensures w.Ptr? && TellsPair(Survivors(s, v.heap), w) && w.addr.gen == s.youngGen
  {
  }

  lemma SurvivorsAreClean(s: Start, v: View, b: Addr)
    requires Done(s, v) && b in v.heap && b.gen >= s.oldGen
    ensures Clean(v.heap[b], s.oldGen)
  {
    hide Tiled, Spaces, ExtraIsExact, RootsStand, Justified;
    if b in s.heap {
      SurvivorIsClean(s, v, b);
    } else if b in v.src {
      CopyIsClean(s, v, b);
    } else {
      FillerIsClean(s, v, b);
    }
  }

  /** What a promotion leaves behind is what the next one may start from. */
  lemma NextStartIsGood(s: Start, v: View, kept: seq<Addr>)
    requires Done(s, v) && (forall a | a in kept :: a in s.remembered)
    ensures GoodStart(NextStart(s, v.heap, v.roots, v.extra, kept, v.taken))
  {
    hide Done, GoodHeap, GoodPointer, Clean, FromYoung;
    StartIsGood(s, v);
    var s' := NextStart(s, v.heap, v.roots, v.extra, kept, v.taken);
    SurvivorsAreGood(s, v);
    forall w | w in s'.extra ensures w.Ptr? && TellsPair(s'.heap, w) && w.addr.gen == s.youngGen {
      NextExtra(s, v, kept, w);
    }
    forall a | a in s'.remembered ensures a in s'.heap && a.gen >= s.oldGen && s'.heap[a].Cell? {
      MemberSurvives(s, v, a);
    }
    forall a | a in s'.heap ensures Clean(s'.heap[a], s.oldGen) {
      SurvivorsAreClean(s, v, a);
    }
  }

  lemma NextIsRemembered(s: Start, v: View, kept: seq<Addr>)
    requires Done(s, v) && WritesRemembered(s) && (forall a | a in kept :: a in s.remembered)
    requires forall j | 0 <= j < |s.remembered| :: s.remembered[j] in kept || s.remembered[j] in v.dropped
    ensures WritesRemembered(NextStart(s, v.heap, v.roots, v.extra, kept, v.taken))
  {
    hide Done, Clean, WritesRemembered;
    RememberedAgain(s, v, kept);
    StartIsGood(s, v);
    var s' := NextStart(s, v.heap, v.roots, v.extra, kept, v.taken);
    assert forall a | a in s'.heap && !Clean(s'.heap[a], a.gen) :: a in s'.remembered || InExtra(s'.extra, a) by {
      forall a | a in s'.heap && !Clean(s'.heap[a], a.gen) ensures a in s'.remembered || InExtra(s'.extra, a) {
        SurvivorsAreClean(s, v, a);
        if a in kept && a.gen == s.youngGen {
          MemberSurvives(s, v, a);
          YoungIsEntered(s, v, kept, a);
        }
      }
    }
    AllRemembered(s');
  }

  lemma AllRemembered(s: Start)
    requires forall a | a in s.heap && !Clean(s.heap[a], a.gen) :: a in s.remembered || InExtra(s.extra, a)
    ensures WritesRemembered(s)
  {
  }

  lemma YoungIsEntered(s: Start, v: View, kept: seq<Addr>, a: Addr)
    requires a in kept && a.gen == s.youngGen && a in v.heap && a in s.heap && GoodStart(s)
    requires s.heap[a].Cell? && TagOf(v.heap[a]) == TagOf(s.heap[a])
    ensures InExtra(FromYoung(s, v.heap, kept), a)
  {
    assert GoodObject(s.heap, s.heap[a]);
    assert Ptr(a, TagOf(v.heap[a])) in FromYoung(s, v.heap, kept);
  }

  /** Where the survivors end, as the semispaces record it. */
  lemma SurvivorBeforeEnd(s: Start, v: View, k: Addr, a: Addr)
    requires Good(s, v) && k in v.chunks && k == Base(a) && a in Survivors(s, v.heap)
    requires k.chunk == CurrentOf(s, v.cur, v.cur2, k.gen) ==> TopOnRecord(s, v, k.gen)
    requires k.chunk <= CurrentOf(s, v.cur, v.cur2, k.gen)
    ensures a.off < if k.chunk < CurrentOf(s, v.cur, v.cur2, k.gen) then v.chunks[k].lim else v.chunks[k].top
  {
    hide Consistent, Justified, RootsStand, BlackIsClean, ExtraIsExact, SweptIsClean, GoodStart, Spaces;
    EndsAreFree(s, v.heap, v.ends);
    FingerlessChunk(s, v, k);
    if k.chunk == CurrentOf(s, v.cur, v.cur2, k.gen) && v.chunks[k].top != v.ends[k] {
      var b := k.(off := v.chunks[k].top);
      assert Tile(s, v.heap, b) && Base(b) == k;
      if a !in s.heap {
        assert a != b;
        TilesAreDisjoint(s, v.heap, v.ends, a, b);
      }
    }
  }

  lemma FingerlessChunk(s: Start, v: View, k: Addr)
    requires Good(s, v) && k in v.chunks
    ensures k in v.ends && ChunkFits(s, v.chunks, v.cur, v.cur2, v.ends, k)
  {
  }

  lemma NextChunkFits(s: Start, s': Start, v: View, k: Addr)
    requires Good(s, v) && k in v.chunks && s'.oldGen == s.oldGen && s'.youngGen == s.youngGen
    ensures var ends := FirstEnds(s', v.chunks, v.cur, v.cur2);
            && k in ends && ChunkFits(s', v.chunks, v.cur, v.cur2, ends, k)
            && k.chunk <= CurrentOf(s, v.cur, v.cur2, k.gen)
            && ends[k] == if k.chunk < CurrentOf(s, v.cur, v.cur2, k.gen) then v.chunks[k].lim else v.chunks[k].top
  {
    hide Consistent, Justified, RootsStand, BlackIsClean, ExtraIsExact, SweptIsClean, GoodStart, Tiled;
    FingerlessChunk(s, v, k);
  }

  /** The semispaces are ready for the next promotion, too. */
  lemma NextSpacesAreGood(s: Start, v: View, kept: seq<Addr>)
    requires Done(s, v) && TopOnRecord(s, v, s.oldGen) && TopOnRecord(s, v, s.youngGen)
    ensures GoodSpaces(NextStart(s, v.heap, v.roots, v.extra, kept, v.taken), v.chunks, v.cur, v.cur2)
  {
    hide Consistent, Justified, RootsStand, BlackIsClean, ExtraIsExact, SweptIsClean, GoodStart, Tiled;
    hide TopOnRecord, Survivors, ChunkFits, FirstEnds, Apart, CurrentOf;
    var s' := NextStart(s, v.heap, v.roots, v.extra, kept, v.taken);
    var ends := FirstEnds(s', v.chunks, v.cur, v.cur2);
    EndsOfChunks(s', v.chunks, v.cur, v.cur2);
    forall k | k in v.chunks ensures ChunkFits(s', v.chunks, v.cur, v.cur2, ends, k) {
      NextChunkFits(s, s', v, k);
    }
    forall a | a in s'.heap && a.gen in {s.oldGen, s.youngGen} ensures Base(a) in v.chunks {
      SurvivorInChunk(s, v, a);
    }
    forall a | a in s'.heap && Base(a) in v.chunks ensures a.off < ends[Base(a)] {
      NextChunkFits(s, s', v, Base(a));
      CurrentTops(s, v, Base(a));
      SurvivorBeforeEnd(s, v, Base(a), a);
    }
    RestIsUnused(v.chunks, s.supply, v.taken);
  }

  lemma EndsOfChunks(s: Start, chunks: Chunks, cur: nat, cur2: nat)
    ensures FirstEnds(s, chunks, cur, cur2).Keys == chunks.Keys
  {
  }

  lemma CurrentTops(s: Start, v: View, k: Addr)
    requires Good(s, v) && k in v.chunks && TopOnRecord(s, v, s.oldGen) && TopOnRecord(s, v, s.youngGen)
    ensures k.chunk == CurrentOf(s, v.cur, v.cur2, k.gen) ==> TopOnRecord(s, v, k.gen)
  {
    hide TopOnRecord;
    FingerlessChunk(s, v, k);
  }

  lemma SurvivorInChunk(s: Start, v: View, a: Addr)
    requires Good(s, v) && a in Survivors(s, v.heap) && a.gen in {s.oldGen, s.youngGen}
    ensures Base(a) in v.chunks
  {
    if a !in s.heap {
      assert Tile(s, v.heap, a) && TileFits(s, v.heap, v.ends, a);
    }
  }
}
