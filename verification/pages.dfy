/** Pages, who owns them, and how many bytes each owner has. */
module PageOwners {

  const PAGESIZE := 4096
  const DESCRIPTOR_BYTES := 4

  // Generation numbers of pages that belong to no generation.
  const FOREIGN_PAGE := -1
  const UNALLOCATED_PAGE := -2
  const RTS_OWNED_PAGE := -3

  // Attribute bits.
  const MB_ALLOCATED: bv32 := 1
  const MB_HEAP_MEMORY: bv32 := 2
  const MB_RTS_MEMORY: bv32 := 4
  const MB_FOREIGN: bv32 := 8
  const MB_REMSET: bv32 := 16
  const MB_SUMMARY_SETS: bv32 := 256
  const MB_SMIRCY_MARK: bv32 := 512

  const HEAP_ATTRIBUTES: bv32 := MB_ALLOCATED | MB_HEAP_MEMORY

  /** The attributes of run-time memory for `attribute`. */
  function RtsAttributes(attribute: bv32): bv32 {
    MB_ALLOCATED | MB_RTS_MEMORY | attribute
  }

  function WithBits(b: bv32, attr: bv32): bv32 {
    b | attr
  }

  /** `after` has the bits `added`, and otherwise those of `before`. */
  predicate BitsAdded(before: bv32, added: bv32, after: bv32) {
    after & added == added && after & !added == before & !added
  }

  lemma AttributesAdded(b: bv32, attr: bv32)
    ensures BitsAdded(b, attr, WithBits(b, attr))
  {
    HasBits(b, attr);
    KeepsBits(b, attr);
  }

  lemma RtsAttributesAdded(attribute: bv32)
    ensures BitsAdded(MB_ALLOCATED | MB_RTS_MEMORY, attribute, RtsAttributes(attribute))
  {
    HasBits(MB_ALLOCATED | MB_RTS_MEMORY, attribute);
    KeepsBits(MB_ALLOCATED | MB_RTS_MEMORY, attribute);
  }

  lemma HasBits(b: bv32, attr: bv32)
    ensures (b | attr) & attr == attr
  {
  }

  lemma KeepsBits(b: bv32, attr: bv32)
    ensures (b | attr) & !attr == b & !attr
  {
  }

  /** `b` has all bits of `x`. */
  predicate HasAll(b: bv32, x: bv32) {
    b & x == x
  }

  lemma AddedAreThere(b: bv32, attr: bv32)
    ensures HasAll(WithBits(b, attr), attr)
  {
    HasBits(b, attr);
  }

  /** Bits that were there stay. */
  lemma BitsStay(b: bv32, attr: bv32, x: bv32)
    requires HasAll(b, x)
    ensures HasAll(WithBits(b, attr), x)
  {
  }

  datatype Page = Page(gen: int, attr: bv32)

  datatype Category = NoOwner | Heap | Remset | Summary | Smircy | Rts

  /** Whose account a page with attributes `b` is on. */
  function CategoryOf(b: bv32): Category {
    if b & 1 == 0 then NoOwner
    else if b & 2 != 0 then Heap
    else if b & 16 != 0 then Remset
    else if b & 256 != 0 then Summary
    else if b & 512 != 0 then Smircy
    else Rts
  }

  /** Pages of `s` on the account of `c`. */
  function Count(s: seq<Page>, c: Category): nat {
    if s == [] then 0 else Count(s[..|s| - 1], c) + if CategoryOf(s[|s| - 1].attr) == c then 1 else 0
  }

  function BytesOf(s: seq<Page>, c: Category): nat {
    PAGESIZE * Count(s, c)
  }

  lemma {:induction false} CountConcat(s: seq<Page>, t: seq<Page>, c: Category)
    ensures Count(s + t, c) == Count(s, c) + Count(t, c)
    decreases |t|
  {
    if t == [] {
      assert s + t == s;
    } else {
      assert (s + t)[..|s + t| - 1] == s + t[..|t| - 1];
      CountConcat(s, t[..|t| - 1], c);
    }
  }

  /** Pages that all have category `d`. */
  lemma {:induction false} CountUniform(s: seq<Page>, d: Category, c: Category)
    requires forall i | 0 <= i < |s| :: CategoryOf(s[i].attr) == d
    ensures Count(s, c) == if c == d then |s| else 0
    decreases |s|
  {
    if s != [] {
      CountUniform(s[..|s| - 1], d, c);
    }
  }

  /** Changes that leave every page's category leave the accounts. */
  lemma {:induction false} CountKept(s: seq<Page>, t: seq<Page>, c: Category)
    requires |s| == |t| && forall i | 0 <= i < |s| :: CategoryOf(t[i].attr) == CategoryOf(s[i].attr)
    ensures Count(t, c) == Count(s, c)
    decreases |s|
  {
    if s != [] {
      CountKept(s[..|s| - 1], t[..|t| - 1], c);
    }
  }

  lemma CountThirds(s: seq<Page>, a: nat, b: nat, c: Category)
    requires a <= b <= |s|
    ensures Count(s, c) == Count(s[..a], c) + Count(s[a..b], c) + Count(s[b..], c)
  {
    hide Count, CategoryOf;
    assert s == s[..a] + s[a..b] + s[b..];
    CountConcat(s[..a] + s[a..b], s[b..], c);
    CountConcat(s[..a], s[a..b], c);
  }

  /** Moving the pages from `a` to `b` from the account of `d` to the account of `e`. */
  lemma PagesMoved(s: seq<Page>, t: seq<Page>, a: nat, b: nat, d: Category, e: Category, c: Category)
    requires a <= b <= |s| == |t| && s[..a] == t[..a] && s[b..] == t[b..]
    requires forall i | a <= i < b :: CategoryOf(s[i].attr) == d && CategoryOf(t[i].attr) == e
    ensures Count(t, c) - Count(s, c) == (if c == e then b - a else 0) - (if c == d then b - a else 0)
  {
    hide Count, CategoryOf;
    CountThirds(s, a, b, c);
    CountThirds(t, a, b, c);
    CountUniform(s[a..b], d, c);
    CountUniform(t[a..b], e, c);
  }

  const FOREIGN := Page(FOREIGN_PAGE, MB_FOREIGN)

  /** `n` pages that belong to nobody. */
  function Foreign(n: nat): (s: seq<Page>)
    ensures |s| == n && forall i | 0 <= i < n :: s[i] == FOREIGN
  {
    seq(n, _ => FOREIGN)
  }

  lemma ForeignIsUnowned(n: nat, c: Category)
    requires c != NoOwner
    ensures Count(Foreign(n), c) == 0
  {
    CountUniform(Foreign(n), NoOwner, c);
  }
}
