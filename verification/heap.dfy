/** Scheme objects in memory, as a copying collector sees them.

    An address is a generation, a chunk of that generation's semispace and a byte offset
    from the chunk's first word, so the generation of an address can be read off it. */
module SchemeHeap {

  const GC_LARGE_OBJECT_LIMIT := 4096  // one page
  const GC_CHUNK_SIZE := 256 * 1024
  const PAGESIZE := 4096

  datatype Addr = Addr(gen: nat, chunk: nat, off: nat)

  /** The first byte of the chunk that `a` lies in; it also serves as the chunk's name. */
  function Base(a: Addr): Addr {
    Addr(a.gen, a.chunk, 0)
  }

  datatype Tag = PairTag | VecTag | ProcTag | BvecTag

  /** An immediate (its low bit is clear) or a tagged pointer. */
  datatype Word = Imm(bits: int) | Ptr(addr: Addr, tag: Tag)

  /** What starts at an address: a pair, vector or procedure; a bytevector-like object; the
      fake bignum that seals the unused tail of a chunk; or the forwarding header followed by
      the new location. */
  datatype Obj =
    | Cell(tag: Tag, typetag: nat, slots: seq<Word>)
    | Bytes(typetag: nat, data: seq<nat>)
    | Seal(bytes: nat)
    | Fwd(to: Word)

  lemma PageUnits(l: nat)
    requires l % PAGESIZE == 0
    ensures l % 8 == 0 && l % 16 == 0 && (0 < l ==> PAGESIZE <= l)
  {
    var p := l / PAGESIZE;
    assert l == 16 * (256 * p) == 8 * (512 * p);
  }

  const ZERO_PAIR := Cell(PairTag, 0, [Imm(0), Imm(0)])

  function RoundUp8(n: nat): (r: nat)
    ensures n <= r < n + 8 && r % 8 == 0
  {
    (n + 7) / 8 * 8
  }

  /** Bytes an object needs before padding: pairs have no header word. */
  function Extent(o: Obj): nat {
    match o
    case Cell(tag, _, slots) => if tag == PairTag then 8 else 4 + 4 * |slots|
    case Bytes(_, data) => 4 + |data|
    case Seal(bytes) => bytes
    case Fwd(_) => 8
  }

  /** Bytes an object occupies: objects start on 8-byte boundaries. */
  function Size(o: Obj): nat {
    RoundUp8(Extent(o))
  }

  function TagOf(o: Obj): Tag {
    if o.Cell? then o.tag else BvecTag
  }

  type Heap = map<Addr, Obj>

  /** A chunk: its numeric address, the first free byte as last recorded, and its size. */
  datatype Chunk = Chunk(place: nat, top: nat, lim: nat)

  /** What spare chunks and the operating system provide when chunk after chunk is asked for. */
  type Supply = nat -> Chunk

  /** `w` points into a generation younger than `limit`. */
  predicate Younger(w: Word, limit: nat) {
    w.Ptr? && w.addr.gen < limit
  }

  /** No slot of `o` points into a generation younger than `limit`. */
  ghost predicate Clean(o: Obj, limit: nat) {
    o.Cell? ==> forall i | 0 <= i < |o.slots| :: !Younger(o.slots[i], limit)
  }

  /** The pointer `w` refers to an object of the kind its tag says. */
  predicate GoodPointer(h: Heap, w: Word) {
    w.Ptr? ==> w.addr in h && TagOf(h[w.addr]) == w.tag
  }

  ghost predicate GoodObject(h: Heap, o: Obj) {
    && (o.Cell? || o.Bytes?)
    && (o.Cell? ==>
          && o.tag != BvecTag
          && (o.tag == PairTag ==> |o.slots| == 2)
          && forall i | 0 <= i < |o.slots| :: GoodPointer(h, o.slots[i]))
  }

  /** Every object is whole and every pointer has a target of the right kind. */
  ghost predicate GoodHeap(h: Heap) {
    forall a | a in h :: GoodObject(h, h[a])
  }
}
