/** A program that runs while promotions move its objects, and the same program with memory that
    is never collected. */
module MutatorRuns {
  import opened SchemeHeap
  import opened Copying
  import opened ChunkLayout
  import opened PromotionSteps
  import opened Promotion
  import opened PromotionMeaning
  import opened PromotionRun

  /** What the mutator works on: memory, and the roots as registers. */
  datatype World = World(heap: Heap, roots: seq<Word>)

  /** Instructions on registers.  One that does not apply to what the registers hold does nothing. */
  datatype Instruction =
    | Const(dst: nat, bits: int)
    | Make(dst: nat, tag: Tag, typetag: nat, parts: seq<nat>)
    | MakeBytes(dst: nat, typetag: nat, data: seq<nat>)
    | Load(dst: nat, from: nat, slot: nat)
    | Store(to: nat, slot: nat, from: nat)
    | Same(i: nat, j: nat)
    | Look(from: nat)
    | PromoteNow(oldRemaining: nat, youngRemaining: nat, losSteps: int, bufferSize: nat)

  /** What the program learns from an instruction. */
  datatype Seen =
    | Nothing
    | Number(bits: int)
    | Object(tag: Tag, typetag: nat, size: nat)
    | Data(data: seq<nat>)
    | Truth(b: bool)

  /** `w` is a pointer to an object that has slot number `slot`. */
  predicate HasSlot(h: Heap, w: Word, slot: nat) {
    w.Ptr? && w.addr in h && h[w.addr].Cell? && slot < |h[w.addr].slots|
  }

  predicate Makes(w: World, ins: Instruction) {
    match ins
    case Make(dst, tag, typetag, parts) =>
      && dst < |w.roots| && tag != BvecTag && (tag == PairTag ==> |parts| == 2)
      && 4 + 4 * |parts| <= GC_LARGE_OBJECT_LIMIT && (forall k | 0 <= k < |parts| :: parts[k] < |w.roots|)
    case MakeBytes(dst, typetag, data) => dst < |w.roots| && 4 + |data| <= GC_LARGE_OBJECT_LIMIT
    case _ => false
  }

  function NewObject(w: World, ins: Instruction): Obj
    requires Makes(w, ins)
  {
    match ins
    case Make(dst, tag, typetag, parts) =>
      Cell(tag, typetag, seq(|parts|, i requires 0 <= i < |parts| => Part(w, parts, i)))
    case MakeBytes(dst, typetag, data) => Bytes(typetag, data)
  }

  function Part(w: World, parts: seq<nat>, i: nat): Word
    requires i < |parts| && parts[i] < |w.roots|
  {
    w.roots[parts[i]]
  }

  predicate Stores(w: World, ins: Instruction) {
    ins.Store? && ins.to < |w.roots| && ins.from < |w.roots| && HasSlot(w.heap, w.roots[ins.to], ins.slot)
  }

  /** One instruction; a new object goes to `a`. */
  function Exec(w: World, ins: Instruction, a: Addr): World {
    if Makes(w, ins) then
      World(w.heap[a := NewObject(w, ins)], w.roots[ins.dst := Ptr(a, TagOf(NewObject(w, ins)))])
    else if Stores(w, ins) then
      var b := w.roots[ins.to].addr;
      w.(heap := w.heap[b := w.heap[b].(slots := w.heap[b].slots[ins.slot := w.roots[ins.from]])])
    else
      match ins
      case Const(dst, bits) => if dst < |w.roots| then w.(roots := w.roots[dst := Imm(bits)]) else w
      case Load(dst, from, slot) =>
        if dst < |w.roots| && from < |w.roots| && HasSlot(w.heap, w.roots[from], slot) then
          w.(roots := w.roots[dst := w.heap[w.roots[from].addr].slots[slot]])
        else w
      case _ => w
  }

  function Learn(w: World, ins: Instruction): Seen {
    match ins
    case Same(i, j) => if i < |w.roots| && j < |w.roots| then Truth(w.roots[i] == w.roots[j]) else Nothing
    case Look(from) =>
      if from >= |w.roots| then Nothing
      else if w.roots[from].Imm? then Number(w.roots[from].bits)
      else if w.roots[from].addr !in w.heap then Nothing
      else (match w.heap[w.roots[from].addr]
            case Cell(tag, typetag, slots) => Object(tag, typetag, |slots|)
            case Bytes(_, data) => Data(data)
            case _ => Nothing)
    case _ => Nothing
  }

  // ---- What the instructions mean.

  /** Every pointer in a register leads somewhere. */
  ghost predicate RootsLead(w: World) {
    forall r | 0 <= r < |w.roots| && w.roots[r].Ptr? :: w.roots[r].addr in w.heap
  }

  /** A load finds what was last stored into its slot, through whatever register it was stored; every
      other load finds what it would have found without the store. */
  lemma LoadFindsStored(w: World, to: nat, slot: nat, from: nat, dst: nat, r: nat, k: nat, a: Addr)
    requires Stores(w, Store(to, slot, from)) && dst < |w.roots| && r < |w.roots| && HasSlot(w.heap, w.roots[r], k)
    ensures Exec(Exec(w, Store(to, slot, from), a), Load(dst, r, k), a).roots
            == if w.roots[r].addr == w.roots[to].addr && k == slot then w.roots[dst := w.roots[from]]
            else Exec(w, Load(dst, r, k), a).roots
  {
  }

  /** A store changes no register, and not what a look shows. */
  lemma StoreIsNotSeen(w: World, to: nat, slot: nat, from: nat, q: nat, a: Addr)
    requires Stores(w, Store(to, slot, from))
    ensures var w' := Exec(w, Store(to, slot, from), a);
            w'.roots == w.roots && Learn(w', Look(q)) == Learn(w, Look(q))
  {
  }

  /** A load changes one register and no memory. */
  lemma LoadChangesOne(w: World, dst: nat, r: nat, k: nat, a: Addr)
    requires dst < |w.roots| && r < |w.roots| && HasSlot(w.heap, w.roots[r], k)
    ensures var w' := Exec(w, Load(dst, r, k), a);
            && w'.heap == w.heap && |w'.roots| == |w.roots|
            && (forall q | 0 <= q < |w.roots| && q != dst :: w'.roots[q] == w.roots[q])
  {
  }

  /** A new object has the parts that it was made of, in order; it is no other object; and nothing else
      changes. */
  lemma MadeIsNew(w: World, dst: nat, tag: Tag, typetag: nat, parts: seq<nat>, a: Addr, d: nat, k: nat, r: nat)
    requires Makes(w, Make(dst, tag, typetag, parts)) && a !in w.heap && RootsLead(w)
    requires k < |parts| && r < |w.roots| && r != dst && d < |w.roots|
    ensures var w' := Exec(w, Make(dst, tag, typetag, parts), a);
            && Learn(w', Look(dst)) == Object(tag, typetag, |parts|)
            && Exec(w', Load(d, dst, k), a).roots == w'.roots[d := w.roots[parts[k]]]
            && w'.roots[r] == w.roots[r] && |w'.roots| == |w.roots| && w'.heap - {a} == w.heap
            && Learn(w', Same(dst, r)) == Truth(false) && Learn(w', Same(r, dst)) == Truth(false)
  {
  }

  /** Bytes and numbers are seen as they were made. */
  lemma DataIsSeen(w: World, dst: nat, typetag: nat, data: seq<nat>, bits: int, a: Addr)
    requires dst < |w.roots| && a !in w.heap
    ensures 4 + |data| <= GC_LARGE_OBJECT_LIMIT ==>
              Learn(Exec(w, MakeBytes(dst, typetag, data), a), Look(dst)) == Data(data)
    ensures Learn(Exec(w, Const(dst, bits), a), Look(dst)) == Number(bits)
    ensures Learn(w, Same(dst, dst)) == Truth(true)
  {
  }

  // ---- Memory that is never collected.

  /** Some address is not taken. */
  lemma RoomForMore(h: Heap) returns (n: nat)
    ensures forall a | a in h :: a.off < n
  {
    n := 0;
    var left := h.Keys;
    while left != {}
      invariant left <= h.Keys
      invariant forall a | a in h && a !in left :: a.off < n
      decreases left
    {
      var a :| a in left;
      n := if n <= a.off then a.off + 1 else n;
      left := left - {a};
    }
  }

  ghost function Fresh(h: Heap): (a: Addr)
    ensures a !in h
  {
    assert exists a: Addr :: a !in h by {
      var n := RoomForMore(h);
      assert Addr(0, 0, n) !in h;
    }
    var a: Addr :| a !in h;
    a
  }

  /** What a program learns when nothing is ever moved. */
  ghost function Ideal(w: World, program: seq<Instruction>): seq<Seen>
    decreases |program|
  {
    if program == [] then
      []
    else
      [Learn(w, program[0])] + Ideal(Exec(w, program[0], Fresh(w.heap)), program[1..])
  }

  // ---- How the two memories correspond.

  ghost predicate LinkedWord(m: map<Addr, Addr>, w: Word, w': Word) {
    if w.Ptr? then w.addr in m && w' == Ptr(m[w.addr], w.tag) else w' == w
  }

  ghost predicate LinkedObject(m: map<Addr, Addr>, o: Obj, o': Obj) {
    if o.Cell? then
      && o'.Cell? && o'.tag == o.tag && o'.typetag == o.typetag && |o'.slots| == |o.slots|
      && forall i | 0 <= i < |o.slots| :: LinkedWord(m, o.slots[i], o'.slots[i])
    else
      o' == o && o.Bytes?
  }

  /** `m` says where the objects of `w` that matter are in `w'`. */
  ghost predicate Linked(m: map<Addr, Addr>, w: World, w': World) {
    && |w.roots| == |w'.roots|
    && (forall i | 0 <= i < |w.roots| :: LinkedWord(m, w.roots[i], w'.roots[i]))
    && (forall a | a in m :: a in w.heap && m[a] in w'.heap && LinkedObject(m, w.heap[a], w'.heap[m[a]]))
    && (forall a, b | a in m && b in m && m[a] == m[b] :: a == b)
  }

  lemma LinkedMore(m: map<Addr, Addr>, a: Addr, b: Addr, o: Obj, o': Obj)
    requires LinkedObject(m, o, o') && a !in m
    ensures LinkedObject(m[a := b], o, o')
  {
  }

  lemma LinkedSlot(m: map<Addr, Addr>, w: World, w': World, r: nat, slot: nat)
    requires Linked(m, w, w') && r < |w.roots|
    ensures HasSlot(w.heap, w.roots[r], slot) <==> HasSlot(w'.heap, w'.roots[r], slot)
    ensures HasSlot(w.heap, w.roots[r], slot) ==>
              LinkedWord(m, w.heap[w.roots[r].addr].slots[slot], w'.heap[w'.roots[r].addr].slots[slot])
  {
    assert LinkedWord(m, w.roots[r], w'.roots[r]);
    if w.roots[r].Ptr? {
      var a := w.roots[r].addr;
      assert LinkedObject(m, w.heap[a], w'.heap[m[a]]);
    }
  }

  lemma LinkedLearn(m: map<Addr, Addr>, w: World, w': World, ins: Instruction)
    requires Linked(m, w, w')
    ensures Learn(w, ins) == Learn(w', ins)
  {
    match ins
    case Same(i, j) =>
      if i < |w.roots| && j < |w.roots| {
        assert LinkedWord(m, w.roots[i], w'.roots[i]) && LinkedWord(m, w.roots[j], w'.roots[j]);
      }
    case Look(from) =>
      if from < |w.roots| {
        assert LinkedWord(m, w.roots[from], w'.roots[from]);
      }
    case _ =>
  }

  lemma LinkedMake(m: map<Addr, Addr>, w: World, w': World, ins: Instruction, a: Addr, b: Addr)
    requires Linked(m, w, w') && Makes(w, ins) && a !in w.heap && b !in w'.heap
    ensures Makes(w', ins) && Linked(m[a := b], Exec(w, ins, a), Exec(w', ins, b))
  {
    var o, o', m' := NewObject(w, ins), NewObject(w', ins), m[a := b];
    assert LinkedObject(m', o, o') by {
      if ins.Make? {
        forall i | 0 <= i < |ins.parts| ensures LinkedWord(m', o.slots[i], o'.slots[i]) {
          assert LinkedWord(m, w.roots[ins.parts[i]], w'.roots[ins.parts[i]]);
        }
      }
    }
    hide LinkedObject;
    forall x | x in m ensures x != a && m[x] != b && LinkedObject(m', w.heap[x], w'.heap[m[x]]) {
      LinkedMore(m, a, b, w.heap[x], w'.heap[m[x]]);
    }
    assert TagOf(o) == TagOf(o');
  }

  lemma LinkedStore(m: map<Addr, Addr>, w: World, w': World, ins: Instruction, a: Addr, b: Addr)
    requires Linked(m, w, w') && Stores(w, ins)
    ensures Stores(w', ins) && Linked(m, Exec(w, ins, a), Exec(w', ins, b))
  {
    LinkedSlot(m, w, w', ins.to, ins.slot);
    assert LinkedWord(m, w.roots[ins.to], w'.roots[ins.to]) && LinkedWord(m, w.roots[ins.from], w'.roots[ins.from]);
    var c, v, v' := w.roots[ins.to].addr, Exec(w, ins, a), Exec(w', ins, b);
    forall x | x in m ensures LinkedObject(m, v.heap[x], v'.heap[m[x]]) {
      assert LinkedObject(m, w.heap[x], w'.heap[m[x]]);
    }
  }

  /** An instruction does the same to both. */
  lemma LinkedExec(m: map<Addr, Addr>, w: World, w': World, ins: Instruction, a: Addr, b: Addr)
    requires Linked(m, w, w') && a !in w.heap && b !in w'.heap
    ensures Makes(w, ins) == Makes(w', ins)
    ensures Linked(if Makes(w, ins) then m[a := b] else m, Exec(w, ins, a), Exec(w', ins, b))
  {
    if Makes(w, ins) {
      LinkedMake(m, w, w', ins, a, b);
    } else if Stores(w, ins) {
      LinkedStore(m, w, w', ins, a, b);
    } else {
      if ins.Load? && ins.from < |w.roots| {
        LinkedSlot(m, w, w', ins.from, ins.slot);
      } else if ins.Store? && ins.to < |w.roots| {
        LinkedSlot(m, w, w', ins.to, ins.slot);
      }
    }
  }

  /** Where the objects that matter are after a promotion. */
  ghost function MovedLinks(m: map<Addr, Addr>, s: Start, h: Heap): map<Addr, Addr> {
    map a | a in m && LiveObject(s, m[a]) :: NewPlace(h, m[a])
  }

  lemma MovedWord(m: map<Addr, Addr>, s: Start, h: Heap, w: Word, w': Word)
    requires LinkedWord(m, w, w') && LiveWord(s, w')
    ensures LinkedWord(MovedLinks(m, s, h), w, Relocated(h, w'))
  {
  }

  lemma MovedObject(m: map<Addr, Addr>, s: Start, h: Heap, w: World, a: Addr)
    requires Linked(m, w, World(s.heap, s.roots)) && GoodStart(s) && a in m && LiveObject(s, m[a]) && Kept(s, h, m[a])
    ensures NewPlace(h, m[a]) in Survivors(s, h)
    ensures LinkedObject(MovedLinks(m, s, h), w.heap[a], Survivors(s, h)[NewPlace(h, m[a])])
  {
    hide LiveObject, Relocated, MovedLinks, NewPlace, GoodStart;
    var o, o' := w.heap[a], s.heap[m[a]];
    assert LinkedObject(m, o, o');
    assert h[NewPlace(h, m[a])] == Image(h, o');
    if o.Cell? {
      forall i | 0 <= i < |o.slots| ensures LinkedWord(MovedLinks(m, s, h), o.slots[i], Relocated(h, o'.slots[i])) {
        LiveSlot(s, m[a], i);
        MovedWord(m, s, h, o.slots[i], o'.slots[i]);
      }
    }
  }

  /** A promotion keeps the correspondence. */
  lemma LinkedPromotion(m: map<Addr, Addr>, w: World, s: Start, h: Heap, roots: seq<Word>)
    requires Linked(m, w, World(s.heap, s.roots)) && GoodStart(s) && Isomorphic(s, h, roots)
    ensures Linked(MovedLinks(m, s, h), w, World(Survivors(s, h), roots))
  {
    hide GoodStart, LiveObject, LiveWord, Kept, LinkedObject, LinkedWord, NewPlace, Relocated, Survivors;
    var m' := MovedLinks(m, s, h);
    forall i | 0 <= i < |roots| ensures LinkedWord(m', w.roots[i], roots[i]) {
      LiveRoot(s, i);
      MovedWord(m, s, h, w.roots[i], s.roots[i]);
    }
    forall a | a in m'
      ensures a in w.heap && m'[a] in Survivors(s, h) && LinkedObject(m', w.heap[a], Survivors(s, h)[m'[a]])
    {
      MovedObject(m, s, h, w, a);
    }
  }

  // ---- The write barrier, and what a promotion may start from.

  /** The remembered sets after an instruction: a store of a pointer to a younger object enters the
      holder. */
  function Remembered(s: Start, ins: Instruction): seq<Addr> {
    var w := World(s.heap, s.roots);
    if Stores(w, ins) && s.oldGen <= w.roots[ins.to].addr.gen
        && Younger(w.roots[ins.from], w.roots[ins.to].addr.gen) then
      s.remembered + [w.roots[ins.to].addr]
    else
      s.remembered
  }

  function Mutated(s: Start, ins: Instruction, a: Addr): Start {
    var w := Exec(World(s.heap, s.roots), ins, a);
    s.(heap := w.heap, roots := w.roots, remembered := Remembered(s, ins))
  }

  /** A promotion may start, and every pointer to a younger generation is remembered. */
  ghost predicate Fit(s: Start, chunks: Chunks, cur: nat, cur2: nat) {
    GoodStart(s) && GoodSpaces(s, chunks, cur, cur2) && WritesRemembered(s)
  }

  lemma MakeKeepsGood(s: Start, ins: Instruction, a: Addr)
    requires GoodStart(s) && Makes(World(s.heap, s.roots), ins) && a !in s.heap && a.gen < s.oldGen
    ensures GoodStart(Mutated(s, ins, a))
  {
    hide Clean;
    var s', o := Mutated(s, ins, a), NewObject(World(s.heap, s.roots), ins);
    assert GoodObject(s'.heap, o) by {
      if ins.Make? {
        forall i | 0 <= i < |ins.parts| ensures GoodPointer(s'.heap, o.slots[i]) {
          assert GoodPointer(s.heap, s.roots[ins.parts[i]]);
        }
      }
    }
    forall x | x in s.heap ensures GoodObject(s'.heap, s.heap[x]) {
      assert GoodObject(s.heap, s.heap[x]);
    }
    forall i | 0 <= i < |s'.roots| ensures GoodPointer(s'.heap, s'.roots[i]) {
      if i != ins.dst {
        assert GoodPointer(s.heap, s.roots[i]);
      }
    }
  }

  /** The object at `b` after a store. */
  lemma StoredObject(s: Start, ins: Instruction, a: Addr, b: Addr)
    requires GoodStart(s) && Stores(World(s.heap, s.roots), ins) && b in s.heap
    ensures var s' := Mutated(s, ins, a);
            && s'.heap.Keys == s.heap.Keys && TagOf(s'.heap[b]) == TagOf(s.heap[b])
            && Extent(s'.heap[b]) == Extent(s.heap[b]) && s'.heap[b].Cell? == s.heap[b].Cell?
            && GoodObject(s.heap, s'.heap[b])
            && forall limit: nat :: limit <= b.gen && Clean(s.heap[b], limit) && !Clean(s'.heap[b], limit) ==>
                 b.gen < s.oldGen || b in s'.remembered
  {
    assert GoodObject(s.heap, s.heap[b]);
    assert GoodPointer(s.heap, s.roots[ins.from]);
    var s' := Mutated(s, ins, a);
    if b == s.roots[ins.to].addr {
      forall limit: nat | limit <= b.gen && Clean(s.heap[b], limit) && !Clean(s'.heap[b], limit)
        ensures b.gen < s.oldGen || b in s'.remembered
      {
        var o := s'.heap[b];
        var k :| 0 <= k < |o.slots| && Younger(o.slots[k], limit);
        assert k == ins.slot;
      }
    }
  }

  lemma StoreKeepsGood(s: Start, ins: Instruction, a: Addr)
    requires GoodStart(s) && Stores(World(s.heap, s.roots), ins)
    ensures GoodStart(Mutated(s, ins, a))
  {
    hide Clean, Extent, Stores;
    var s' := Mutated(s, ins, a);
    forall b | b in s.heap
      ensures b in s'.heap && GoodObject(s'.heap, s'.heap[b]) && TagOf(s'.heap[b]) == TagOf(s.heap[b])
      ensures s'.heap[b].Cell? == s.heap[b].Cell? && Extent(s'.heap[b]) == Extent(s.heap[b])
      ensures b.gen >= s.oldGen && !Clean(s'.heap[b], s.oldGen) ==> b in s'.remembered
    {
      StoreKeepsObject(s, ins, a, b);
    }
    StoreKeepsRoots(s, ins, a);
  }

  lemma StoreKeepsObject(s: Start, ins: Instruction, a: Addr, b: Addr)
    requires GoodStart(s) && Stores(World(s.heap, s.roots), ins) && b in s.heap
    ensures var s' := Mutated(s, ins, a);
            && b in s'.heap && GoodObject(s'.heap, s'.heap[b]) && TagOf(s'.heap[b]) == TagOf(s.heap[b])
            && s'.heap[b].Cell? == s.heap[b].Cell? && Extent(s'.heap[b]) == Extent(s.heap[b])
            && (b.gen >= s.oldGen && !Clean(s'.heap[b], s.oldGen) ==> b in s'.remembered)
  {
    hide Clean, Extent;
    var s' := Mutated(s, ins, a);
    StoredObject(s, ins, a, b);
    forall w | GoodPointer(s.heap, w) ensures GoodPointer(s'.heap, w) {
      if w.Ptr? {
        StoredObject(s, ins, a, w.addr);
      }
    }
  }

  lemma StoreKeepsRoots(s: Start, ins: Instruction, a: Addr)
    requires GoodStart(s) && Stores(World(s.heap, s.roots), ins)
    ensures var s' := Mutated(s, ins, a);
            && s'.roots == s.roots && s'.heap.Keys == s.heap.Keys
               && (forall i | 0 <= i < |s.roots| :: GoodPointer(s'.heap, s.roots[i]))
            && (forall b | b in s'.remembered ::
                  b in s.remembered || (b in s.heap && b.gen >= s.oldGen && s.heap[b].Cell?))
  {
    hide Clean, Extent;
    forall i | 0 <= i < |s.roots| ensures GoodPointer(Mutated(s, ins, a).heap, s.roots[i]) {
      if s.roots[i].Ptr? {
        StoredObject(s, ins, a, s.roots[i].addr);
      }
    }
  }

  /** Every instruction keeps memory fit for a promotion. */
  lemma MutatorKeepsFit(s: Start, chunks: Chunks, cur: nat, cur2: nat, ins: Instruction, a: Addr)
    requires Fit(s, chunks, cur, cur2) && a !in s.heap && a.gen < s.oldGen
    ensures Fit(Mutated(s, ins, a), chunks, cur, cur2)
  {
    hide Clean, Spaces, GoodStart;
    var s', w := Mutated(s, ins, a), World(s.heap, s.roots);
    if Makes(w, ins) {
      MakeKeepsGood(s, ins, a);
      SpacesKept(s, s', chunks, cur, cur2);
    } else if Stores(w, ins) {
      StoreKeepsGood(s, ins, a);
      SpacesKept(s, s', chunks, cur, cur2);
      forall b | b in s.heap && b.gen >= s.oldGen && !Clean(s'.heap[b], b.gen)
        ensures b in s'.remembered || InExtra(s'.extra, b)
      {
        StoredObject(s, ins, a, b);
      }
    } else {
      OtherKeepsGood(s, ins, a);
      SpacesKept(s, s', chunks, cur, cur2);
    }
  }

  lemma OtherKeepsGood(s: Start, ins: Instruction, a: Addr)
    requires GoodStart(s) && !Makes(World(s.heap, s.roots), ins) && !Stores(World(s.heap, s.roots), ins)
    ensures GoodStart(Mutated(s, ins, a)) && Mutated(s, ins, a).heap == s.heap
            && Mutated(s, ins, a).remembered == s.remembered
  {
    hide Clean, Makes, Stores;
    if ins.Load? && ins.from < |s.roots| && HasSlot(s.heap, s.roots[ins.from], ins.slot) {
      assert GoodObject(s.heap, s.heap[s.roots[ins.from].addr]);
    }
  }

  lemma SpacesKept(s: Start, s': Start, chunks: Chunks, cur: nat, cur2: nat)
    requires GoodSpaces(s, chunks, cur, cur2) && GoodStart(s) && s'.oldGen == s.oldGen && s'.youngGen == s.youngGen
    requires s'.supply == s.supply
    requires forall a | a in s'.heap && a !in s.heap :: a.gen < s.oldGen
    ensures GoodSpaces(s', chunks, cur, cur2)
  {
    hide GoodHeap, Clean, FirstEnds, AllApart, GoodSupply, Unused, ChunkFits, Numbered;
    var ends := FirstEnds(s, chunks, cur, cur2);
    EndsKept(s, s', chunks, cur, cur2);
    NumberedKept(s, s', chunks, cur, cur2);
    forall k | k in chunks ensures ChunkFits(s', chunks, cur, cur2, ends, k) && k.gen >= s.oldGen {
      FitsKept(s, s', chunks, cur, cur2, ends, k);
    }
  }

  lemma NumberedKept(s: Start, s': Start, chunks: Chunks, cur: nat, cur2: nat)
    requires Numbered(s, chunks, cur, cur2) && 0 < s.oldGen < s.youngGen
    requires s'.oldGen == s.oldGen && s'.youngGen == s.youngGen
    requires forall a | a in s'.heap && a !in s.heap :: a.gen < s.oldGen
    ensures Numbered(s', chunks, cur, cur2)
  {
  }

  lemma FitsKept(s: Start, s': Start, chunks: Chunks, cur: nat, cur2: nat, ends: Ends, k: Addr)
    requires AllFit(s, chunks, cur, cur2, ends) && k in chunks && s.oldGen < s.youngGen
    requires s'.oldGen == s.oldGen && s'.youngGen == s.youngGen
    ensures k in ends && ChunkFits(s', chunks, cur, cur2, ends, k) && k.gen >= s.oldGen
  {
    assert ChunkFits(s, chunks, cur, cur2, ends, k);
  }

  lemma EndsKept(s: Start, s': Start, chunks: Chunks, cur: nat, cur2: nat)
    requires s'.oldGen == s.oldGen && s'.youngGen == s.youngGen
    ensures FirstEnds(s', chunks, cur, cur2) == FirstEnds(s, chunks, cur, cur2)
  {
  }

  // ---- Runs.

  /** A promotion that starts from `s` may stop at `fault`. */
  ghost predicate MayStop(s: Start, chunks: Chunks, cur: nat, cur2: nat, fault: Fault) {
    exists h, roots, chunks' :: StoppedInOrder(s, chunks, cur, cur2, h, roots, chunks', fault)
  }

  /** The program makes no bytevector of an odd number of 8-byte units. */
  ghost predicate EvenProgram(program: seq<Instruction>) {
    forall ins | ins in program && ins.MakeBytes? :: Size(Bytes(ins.typetag, ins.data)) % 16 == 0
  }

  /** Nothing lies in the collected generations. */
  ghost predicate Emptied(s: Start) {
    forall a | a in s.heap :: a.gen >= s.oldGen
  }

  /** Run a program with promotions wherever it asks for one.  The program learns what it would learn
      if nothing were ever moved, up to the end or to a promotion that stops; and memory is fit for
      a promotion whenever one begins, and at the end.  A promotion leaves the collected generations
      empty.  If all bytevectors are even and no chunk begins where another ends, no promotion stops. */
  method Run(s0: Start, chunks0: Chunks, cur0: nat, cur20: nat, program: seq<Instruction>)
    returns (seen: seq<Seen>, s: Start, chunks: Chunks, cur: nat, cur2: nat, fault: Fault)
    requires Fit(s0, chunks0, cur0, cur20) && forall ins | ins in program && ins.PromoteNow? :: 0 < ins.bufferSize
    ensures Fit(s, chunks, cur, cur2)
    ensures seen <= Ideal(World(s0.heap, s0.roots), program)
    ensures fault == NoFault ==> seen == Ideal(World(s0.heap, s0.roots), program)
    ensures fault == NoFault && program != [] && program[|program| - 1].PromoteNow? ==> Emptied(s)
    ensures fault != NoFault ==>
              MayStop(s, chunks, cur, cur2, fault) && 0 < |seen| <= |program| && program[|seen| - 1].PromoteNow?
    ensures EvenBytes(s0) && EvenProgram(program) ==> !fault.Overrun?
    ensures Spread(chunks0, s0.supply, 0) ==> !fault.Endless? && !fault.Unfinished?
    ensures EvenBytes(s0) && EvenProgram(program) && Spread(chunks0, s0.supply, 0) ==>
              fault == NoFault && seen == Ideal(World(s0.heap, s0.roots), program)
  {
    hide *;
    ghost var even, spread := EvenBytes(s0) && EvenProgram(program), Spread(chunks0, s0.supply, 0);
    seen, s, chunks, cur, cur2, fault := [], s0, chunks0, cur0, cur20, NoFault;
    ghost var w, w0, m := World(s0.heap, s0.roots), World(s0.heap, s0.roots), map a | a in s0.heap :: a;
    LinkedAtFirst(s0, m, chunks, cur, cur2);
    for k := 0 to |program|
      invariant fault == NoFault && |seen| == k && Fit(s, chunks, cur, cur2) && Linked(m, w, World(s.heap, s.roots))
      invariant Ideal(w0, program) == seen + Ideal(w, program[k..])
      invariant (even ==> EvenBytes(s)) && (spread ==> Spread(chunks, s.supply, 0))
      invariant 0 < k && program[k - 1].PromoteNow? ==> Emptied(s)
    {
      var ins := program[k];
      assert program[k..][0] == ins && program[k..][1..] == program[k + 1..];
      IdealStep(w, program[k..]);
      LinkedLearn(m, w, World(s.heap, s.roots), ins);
      ghost var a := Fresh(w.heap);
      seen := seen + [Learn(World(s.heap, s.roots), ins)];
      if ins.PromoteNow? {
        NothingDone(w, ins, a);
        s, chunks, cur, cur2, fault, m := PromoteToBoth(s, chunks, cur, cur2, ins, w, m);
        if fault != NoFault {
          return;
        }
      } else {
        FitGenerations(s, chunks, cur, cur2);
        var b := Place(s);
        MutatorKeepsFit(s, chunks, cur, cur2, ins, b);
        if even {
          MutatorKeepsEven(s, ins, b, program);
        }
        LinkedExec(m, w, World(s.heap, s.roots), ins, a, b);
        m := if Makes(w, ins) then m[a := b] else m;
        w := Exec(w, ins, a);
        MutatedWorld(s, ins, b);
        SameSupply(s, ins, b);
        s := Mutated(s, ins, b);
      }
    }
    IdealEnd(w, program[|program|..]);
  }

  lemma MutatorKeepsEven(s: Start, ins: Instruction, a: Addr, program: seq<Instruction>)
    requires EvenBytes(s) && EvenProgram(program) && ins in program
    ensures EvenBytes(Mutated(s, ins, a))
  {
    hide Size;
    var w := World(s.heap, s.roots);
    if Makes(w, ins) && ins.MakeBytes? {
      assert Size(NewObject(w, ins)) % 16 == 0;
    }
  }

  lemma SameSupply(s: Start, ins: Instruction, a: Addr)
    ensures Mutated(s, ins, a).supply == s.supply
  {
  }

  /** After a promotion there is nothing in the collected generations. */
  lemma PromotionKeepsEven(s: Start, h: Heap, roots: seq<Word>, extra: set<Word>, kept: seq<Addr>, taken: nat)
    ensures EvenBytes(NextStart(s, h, roots, extra, kept, taken))
  {
  }

  lemma PromotionKeepsSpread(s: Start, chunks: Chunks, chunks': Chunks, cur': nat, cur2': nat, taken: nat, s': Start)
    requires Spread(chunks, s.supply, 0) && Drawn(s.supply, chunks, 0, chunks', taken)
    requires GoodSpaces(s', chunks', cur', cur2') && s'.supply == Rest(s.supply, taken)
    ensures Spread(chunks', s'.supply, 0)
  {
    hide Spread, Drawn, FirstEnds, Unused, GoodSupply;
    forall k | k in chunks' ensures 0 < chunks'[k].lim {
      assert ChunkFits(s', chunks', cur', cur2', FirstEnds(s', chunks', cur', cur2'), k);
    }
    SpreadKept(s.supply, chunks, 0, chunks', taken);
    RestIsSpread(chunks', s.supply, taken);
  }

  lemma LinkedAtFirst(s: Start, m: map<Addr, Addr>, chunks: Chunks, cur: nat, cur2: nat)
    requires Fit(s, chunks, cur, cur2) && m == map a | a in s.heap :: a
    ensures Linked(m, World(s.heap, s.roots), World(s.heap, s.roots))
  {
    forall a | a in m ensures LinkedObject(m, s.heap[a], s.heap[a]) {
      assert GoodObject(s.heap, s.heap[a]);
    }
    forall i | 0 <= i < |s.roots| ensures LinkedWord(m, s.roots[i], s.roots[i]) {
      assert GoodPointer(s.heap, s.roots[i]);
    }
  }

  lemma IdealStep(w: World, program: seq<Instruction>)
    requires program != []
    ensures Ideal(w, program) == [Learn(w, program[0])] + Ideal(Exec(w, program[0], Fresh(w.heap)), program[1..])
  {
  }

  lemma IdealEnd(w: World, program: seq<Instruction>)
    requires program == []
    ensures Ideal(w, program) == []
  {
  }

  lemma NothingDone(w: World, ins: Instruction, a: Addr)
    requires ins.PromoteNow?
    ensures Exec(w, ins, a) == w
  {
  }

  lemma MutatedWorld(s: Start, ins: Instruction, a: Addr)
    ensures World(Mutated(s, ins, a).heap, Mutated(s, ins, a).roots) == Exec(World(s.heap, s.roots), ins, a)
  {
  }

  lemma FitGenerations(s: Start, chunks: Chunks, cur: nat, cur2: nat)
    requires Fit(s, chunks, cur, cur2)
    ensures 0 < s.oldGen
  {
  }

  /** Room for a new object in the nursery. */
  method Place(s: Start) returns (a: Addr)
    requires 0 < s.oldGen
    ensures a !in s.heap && a.gen < s.oldGen
  {
    ghost var n := RoomForMore(s.heap);
    assert Addr(0, 0, n) !in s.heap;
    a :| a !in s.heap && a.gen < s.oldGen;
  }

  lemma PromotionEmpties(s: Start, h: Heap, roots: seq<Word>, extra: set<Word>, kept: seq<Addr>, taken: nat)
    ensures Emptied(NextStart(s, h, roots, extra, kept, taken))
  {
  }

  /** A promotion, and what is done with the remembered sets after it. */
  method PromoteToBoth(s: Start, chunks: Chunks, cur: nat, cur2: nat, ins: Instruction, ghost w: World,
                       ghost m: map<Addr, Addr>)
    returns (s': Start, chunks': Chunks, cur': nat, cur2': nat, fault: Fault, ghost m': map<Addr, Addr>)
    requires Fit(s, chunks, cur, cur2) && ins.PromoteNow? && 0 < ins.bufferSize && Linked(m, w, World(s.heap, s.roots))
    ensures Fit(s', chunks', cur', cur2') && Linked(m', w, World(s'.heap, s'.roots))
    ensures fault == NoFault ==> Emptied(s')
    ensures cur' > cur ==> (cur' - cur + ins.losSteps) * GC_CHUNK_SIZE <= ins.oldRemaining
    ensures cur2' > cur2 ==> ins.oldRemaining < (cur' - cur + ins.losSteps + 1) * GC_CHUNK_SIZE
    ensures fault != NoFault ==>
              s' == s && chunks' == chunks && cur' == cur && cur2' == cur2 && MayStop(s, chunks, cur, cur2, fault)
    ensures EvenBytes(s) ==> !fault.Overrun? && EvenBytes(s')
    ensures Spread(chunks, s.supply, 0) ==> !fault.Endless? && !fault.Unfinished? && Spread(chunks', s'.supply, 0)
  {
    hide GoodStart, GoodSpaces, WritesRemembered, Isomorphic, ExtraGrown, GenerationsRemembered, Survivors;
    hide Linked, MovedLinks, StoppedInOrder, EvenBytes, Spread, Drawn, Emptied;
    var h, roots, extra, kept, taken;
    h, roots, extra, kept, chunks', cur', cur2', taken, fault :=
      Promote(s, chunks, cur, cur2, ins.oldRemaining, ins.youngRemaining, ins.losSteps, ins.bufferSize);
    if fault == NoFault {
      LinkedPromotion(m, w, s, h, roots);
      s', m' := NextStart(s, h, roots, extra, kept, taken), MovedLinks(m, s, h);
      PromotionKeepsEven(s, h, roots, extra, kept, taken);
      PromotionEmpties(s, h, roots, extra, kept, taken);
      if Spread(chunks, s.supply, 0) {
        PromotionKeepsSpread(s, chunks, chunks', cur', cur2', taken, s');
      }
    } else {
      s', m', chunks', cur', cur2' := s, m, chunks, cur, cur2;
    }
  }
}
