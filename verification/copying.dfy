/** What a half-finished copy of part of a heap must satisfy, and why each elementary step of
    the collector keeps it. */
module Copying {
  import opened SchemeHeap

  /** The memory a collection starts from: every object, the root words, the objects listed in the
      remembered sets of the generations that stay, the extra remembered set of the young area, the
      generations of the two destinations, and the chunks they will get when they ask for more.
      Generations below `oldGen` are emptied. */
  datatype Start = Start(heap: Heap, roots: seq<Word>, remembered: seq<Addr>, extra: set<Word>,
                         oldGen: nat, youngGen: nat, supply: Supply)

  /** A way to reach an object: from a root, from a remembered object, or from another object. */
  datatype Path = FromRoot(i: nat) | FromRemembered(j: nat, i: nat) | Through(prev: Path, owner: Addr, i: nat)

  ghost predicate SlotLeads(h: Heap, owner: Addr, i: nat, a: Addr) {
    && owner in h && h[owner].Cell? && i < |h[owner].slots|
    && h[owner].slots[i].Ptr? && h[owner].slots[i].addr == a
  }

  ghost predicate Leads(s: Start, p: Path, a: Addr) {
    match p
    case FromRoot(i) => i < |s.roots| && s.roots[i].Ptr? && s.roots[i].addr == a
    case FromRemembered(j, i) => j < |s.remembered| && SlotLeads(s.heap, s.remembered[j], i, a)
    case Through(prev, owner, i) =>
      owner.gen < s.oldGen && Leads(s, prev, owner) && SlotLeads(s.heap, owner, i, a)
  }

  /** Some chain of pointers leads from a root or a remembered object to `a`. */
  ghost predicate Reachable(s: Start, a: Addr) {
    exists p :: Leads(s, p, a)
  }

  /** The tag of `w` tells whether the object there is a pair, which has no header. */
  predicate TellsPair(h: Heap, w: Word)
    requires w.Ptr?
  {
    w.addr in h && (w.tag == PairTag <==> TagOf(h[w.addr]) == PairTag)
  }

  /** The preconditions of a promotion that concern memory: the heap is well formed, no object
      to be copied is a large object, and every object outside the collected generations that
      points into them is remembered.  The extra set lists objects of the young area, with tags by which
      their slots can be found. */
  ghost predicate GoodStart(s: Start) {
    && 0 < s.oldGen < s.youngGen
    && GoodHeap(s.heap)
    && (forall i | 0 <= i < |s.roots| :: GoodPointer(s.heap, s.roots[i]))
    && (forall a | a in s.heap && a.gen < s.oldGen :: Extent(s.heap[a]) <= GC_LARGE_OBJECT_LIMIT)
    && (forall j | 0 <= j < |s.remembered| ::
          s.remembered[j] in s.heap && s.remembered[j].gen >= s.oldGen && s.heap[s.remembered[j]].Cell?)
    && (forall w | w in s.extra :: w.Ptr? && w.addr.gen == s.youngGen && TellsPair(s.heap, w))
    && (forall a | a in s.heap && a.gen >= s.oldGen && !Clean(s.heap[a], s.oldGen) :: a in s.remembered)
  }

  /** `w` stands for the original word `w0`: it is `w0`, or the new location of its target. */
  ghost predicate StandsFor(w0: Word, w: Word, h: Heap) {
    w == w0 || (w0.Ptr? && w0.addr in h && h[w0.addr].Fwd? && w == h[w0.addr].to)
  }

  /** `o` is the original object `o0` with some of its pointers replaced by new locations. */
  ghost predicate CopyOf(o0: Obj, o: Obj, h: Heap) {
    if o0.Cell? then
      && o.Cell? && o.tag == o0.tag && o.typetag == o0.typetag && |o.slots| == |o0.slots|
      && forall i | 0 <= i < |o.slots| :: StandsFor(o0.slots[i], o.slots[i], h)
    else
      o == o0
  }

  /** `src` maps each copy to its original.  Copies and forwarding headers are in one-to-one
      correspondence, and apart from forwarding nothing but pointers has changed.  What is neither
      old nor a copy is filler. */
  ghost predicate Consistent(s: Start, h: Heap, src: map<Addr, Addr>) {
    && (forall a | a in s.heap :: a in h)
    && (forall a | a in s.heap && a.gen < s.oldGen :: h[a] == s.heap[a] || Forwarded(s, h, src, a))
    && (forall a | a in s.heap && a.gen >= s.oldGen :: CopyOf(s.heap[a], h[a], h))
    && (forall b | b in src :: IsCopy(s, h, src, b))
    && (forall b | b in h && b !in s.heap && b !in src :: FillerAt(b, h[b]))
  }

  ghost predicate Forwarded(s: Start, h: Heap, src: map<Addr, Addr>, a: Addr)
    requires a in s.heap
  {
    && a in h && h[a].Fwd? && h[a].to.Ptr? && h[a].to.tag == TagOf(s.heap[a])
    && h[a].to.addr in src && src[h[a].to.addr] == a
  }

  ghost predicate IsCopy(s: Start, h: Heap, src: map<Addr, Addr>, b: Addr)
    requires b in src
  {
    var a := src[b];
    && b in h && b !in s.heap && b.gen in {s.oldGen, s.youngGen}
    && a in s.heap && a.gen < s.oldGen && a in h
    && h[a] == Fwd(Ptr(b, TagOf(s.heap[a]))) && Aligned(b, h[b])
    && CopyOf(s.heap[a], h[b], h)
  }

  /** Bytevectors start on 16-byte boundaries. */
  predicate Aligned(b: Addr, o: Obj) {
    o.Bytes? ==> b.off % 16 == 0
  }

  /** Alignment padding, or a sealed tail, which was too small for some object.  They hold no pointers. */
  predicate Filler(o: Obj) {
    o == ZERO_PAIR || (o.Seal? && 8 <= o.bytes < GC_LARGE_OBJECT_LIMIT)
  }

  /** Filler where it may be: only an odd unit is padded, and no chunk begins with filler. */
  predicate FillerAt(b: Addr, o: Obj) {
    Filler(o) && 0 < b.off && (o == ZERO_PAIR ==> b.off % 16 == 8)
  }

  lemma PaddingIsFiller(b: Addr)
    requires b.off % 16 == 8
    ensures FillerAt(b, ZERO_PAIR)
  {
  }

  /** Every forwarded object can be reached in the original graph. */
  ghost predicate Justified(s: Start, h: Heap, paths: map<Addr, Path>) {
    forall a | a in s.heap && a in h && h[a].Fwd? :: a in paths && Leads(s, paths[a], a)
  }

  /** Objects still to be forwarded. */
  ghost function Uncopied(s: Start, h: Heap): set<Addr> {
    set a | a in s.heap && a.gen < s.oldGen && a in h && !h[a].Fwd?
  }

  /** `h1` is a later memory than `h0`: only forwarding headers were installed in old objects. */
  ghost predicate Later(s: Start, h0: Heap, h1: Heap) {
    forall a | a in h0 :: a in h1 && (h1[a] == h0[a] || (a in Uncopied(s, h0) && h1[a].Fwd?))
  }

  lemma StandsForKept(w0: Word, w: Word, h: Heap, h': Heap)
    requires StandsFor(w0, w, h)
    requires forall a | a in h && h[a].Fwd? :: a in h' && h'[a] == h[a]
    ensures StandsFor(w0, w, h')
  {
  }

  lemma CopyOfKept(o0: Obj, o: Obj, h: Heap, h': Heap)
    requires CopyOf(o0, o, h)
    requires forall a | a in h && h[a].Fwd? :: a in h' && h'[a] == h[a]
    ensures CopyOf(o0, o, h')
  {
  }

  /** Forwarding headers already installed stay as they are. */
  ghost predicate HeadersKept(h: Heap, h': Heap) {
    forall a | a in h && h[a].Fwd? :: a in h' && h'[a] == h[a]
  }

  /** A step that keeps every header and changes at most the object at `b` and the original at
      `a` keeps each correspondence that does not involve them. */
  lemma OthersKept(s: Start, h: Heap, src: map<Addr, Addr>, a: Addr, b: Addr, h': Heap, src': map<Addr, Addr>)
    requires Consistent(s, h, src) && HeadersKept(h, h')
    requires forall x | x in h && x != a && x != b :: x in h' && h'[x] == h[x]
    requires forall x | x in src && x != b :: x in src' && src'[x] == src[x] && src[x] != a
    requires a in s.heap ==> a !in src
    ensures forall x | x in s.heap && x.gen >= s.oldGen && x != a && x != b :: CopyOf(s.heap[x], h'[x], h')
    ensures forall x | x in src && x != b && src[x] != b && x != a :: IsCopy(s, h', src', x)
    ensures forall x | x in s.heap && x.gen < s.oldGen && x != a && x != b ::
              h'[x] == s.heap[x] || (Forwarded(s, h, src, x) && h'[x] == h[x])
  {
    forall x | x in s.heap && x.gen >= s.oldGen && x != a && x != b ensures CopyOf(s.heap[x], h'[x], h') {
      CopyOfKept(s.heap[x], h[x], h, h');
    }
    forall x | x in src && x != b && src[x] != b && x != a ensures IsCopy(s, h', src', x) {
      assert IsCopy(s, h, src, x);
      CopyOfKept(s.heap[src[x]], h[x], h, h');
    }
  }

  /** Memory after the object at `a` moved to `b` and left a forwarding header. */
  function Moved(h: Heap, a: Addr, b: Addr): Heap
    requires a in h
  {
    h[b := h[a]][a := Fwd(Ptr(b, TagOf(h[a])))]
  }

  lemma MoveKeepsCopies(s: Start, h: Heap, src: map<Addr, Addr>, a: Addr, b: Addr)
    requires Consistent(s, h, src)
    requires a in Uncopied(s, h) && h[a] == s.heap[a]
    requires b !in h && b.gen in {s.oldGen, s.youngGen} && Aligned(b, h[a])
    ensures forall x | x in src || x == b :: IsCopy(s, Moved(h, a, b), src[b := a], x)
    ensures forall x | x in s.heap && x.gen >= s.oldGen :: CopyOf(s.heap[x], Moved(h, a, b)[x], Moved(h, a, b))
    ensures forall x | x in s.heap && x.gen < s.oldGen && x != a ::
              Moved(h, a, b)[x] == s.heap[x] || (Forwarded(s, h, src, x) && Moved(h, a, b)[x] == h[x])
  {
    var h', src' := Moved(h, a, b), src[b := a];
    forall x | x in src ensures x != b && src[x] != a && src[x] != b && x != a {
      assert IsCopy(s, h, src, x);
    }
    OthersKept(s, h, src, a, b, h', src');
    assert IsCopy(s, h', src', b);
  }

  /** Moving an object keeps the correspondence, with one object fewer to copy. */
  lemma MoveKeeps(s: Start, h: Heap, src: map<Addr, Addr>, a: Addr, b: Addr)
    requires Consistent(s, h, src)
    requires a in Uncopied(s, h)
    requires b !in h && b.gen in {s.oldGen, s.youngGen} && Aligned(b, h[a])
    ensures Consistent(s, Moved(h, a, b), src[b := a]) && h[a] == s.heap[a]
    ensures Later(s, h, Moved(h, a, b)) && Uncopied(s, Moved(h, a, b)) == Uncopied(s, h) - {a}
  {
    var h', src' := Moved(h, a, b), src[b := a];
    assert !Forwarded(s, h, src, a);
    MoveKeepsCopies(s, h, src, a, b);
    forall x | x in s.heap && x.gen < s.oldGen && h'[x] != s.heap[x] ensures Forwarded(s, h', src', x) {
      if x != a {
        assert Forwarded(s, h, src, x) && IsCopy(s, h, src, h[x].to.addr);
      }
    }
  }

  /** Writing padding or a sealed tail into free memory. */
  lemma FillKeeps(s: Start, h: Heap, src: map<Addr, Addr>, b: Addr, o: Obj)
    requires Consistent(s, h, src) && b !in h && FillerAt(b, o)
    ensures Consistent(s, h[b := o], src)
    ensures Later(s, h, h[b := o]) && Uncopied(s, h[b := o]) == Uncopied(s, h)
  {
    var h' := h[b := o];
    forall x | x in s.heap && x.gen >= s.oldGen ensures CopyOf(s.heap[x], h'[x], h') {
      CopyOfKept(s.heap[x], h[x], h, h');
    }
    forall x | x in src ensures IsCopy(s, h', src, x) {
      assert IsCopy(s, h, src, x);
      CopyOfKept(s.heap[src[x]], h[x], h, h');
    }
    forall x | x in s.heap && x.gen < s.oldGen ensures h'[x] == s.heap[x] || Forwarded(s, h', src, x) {
      if h[x] != s.heap[x] {
        assert Forwarded(s, h, src, x);
      }
    }
  }

  /** The object whose slots are being rewritten: a copy, or a remembered object in place. */
  ghost function Original(src: map<Addr, Addr>, b: Addr): Addr {
    if b in src then src[b] else b
  }

  ghost predicate Rewritable(s: Start, src: map<Addr, Addr>, b: Addr) {
    b in src || (b in s.heap && b.gen >= s.oldGen)
  }

  /** Replacing one pointer of a copy or of a remembered object by its target's new location. */
  lemma RewriteKeeps(s: Start, h: Heap, src: map<Addr, Addr>, b: Addr, i: nat, w: Word, h': Heap)
    requires Consistent(s, h, src) && Rewritable(s, src, b) && b in h
    requires h[b].Cell? && i < |h[b].slots|
    requires Original(src, b) in s.heap && s.heap[Original(src, b)].Cell? && i < |s.heap[Original(src, b)].slots|
    requires StandsFor(s.heap[Original(src, b)].slots[i], w, h)
    requires h' == h[b := h[b].(slots := h[b].slots[i := w])]
    ensures Consistent(s, h', src) && Uncopied(s, h') == Uncopied(s, h)
  {
    assert b in src ==> IsCopy(s, h, src, b);
    forall x | x in h && h[x].Fwd? ensures x in h' && h'[x] == h[x] {
    }
    assert forall w0, w1 :: StandsFor(w0, w1, h) ==> StandsFor(w0, w1, h');
    forall x | x in s.heap && x.gen >= s.oldGen ensures CopyOf(s.heap[x], h'[x], h') {
      CopyOfKept(s.heap[x], h[x], h, h');
    }
    forall x | x in src ensures IsCopy(s, h', src, x) {
      assert IsCopy(s, h, src, x);
      CopyOfKept(s.heap[src[x]], h[x], h, h');
    }
    forall x | x in s.heap && x.gen < s.oldGen ensures h'[x] == s.heap[x] || Forwarded(s, h', src, x) {
      if h[x] != s.heap[x] {
        assert Forwarded(s, h, src, x);
      }
    }
  }

  /** Only collected objects are forwarded, and never within the collected generations. */
  lemma NewLocation(s: Start, h: Heap, src: map<Addr, Addr>, a: Addr)
    requires GoodStart(s) && Consistent(s, h, src)
    requires a in s.heap && h[a].Fwd?
    ensures a.gen < s.oldGen && Forwarded(s, h, src, a)
    ensures h[a].to.addr.gen in {s.oldGen, s.youngGen} && h[a].to.addr in h && !h[h[a].to.addr].Fwd?
  {
    if a.gen >= s.oldGen {
      assert false;
    }
    assert GoodObject(s.heap, s.heap[a]);
    assert Forwarded(s, h, src, a);
    assert IsCopy(s, h, src, h[a].to.addr);
  }

  /** A pointer into a collected generation that sits in a copy or a remembered object was
      there from the start. */
  lemma YoungWordIsOriginal(s: Start, h: Heap, src: map<Addr, Addr>, w0: Word, w: Word)
    requires GoodStart(s) && Consistent(s, h, src)
    requires StandsFor(w0, w, h) && Younger(w, s.oldGen) && GoodPointer(s.heap, w0)
    ensures w == w0
  {
    if w != w0 {
      NewLocation(s, h, src, w0.addr);
      assert false;
    }
  }
}
