/** The page tables of the low-level allocator, the write barrier's view of them, and memory
    accounting. */
module PageTables {
  import opened PageOwners

  const INITIAL_SLOTS := 8192  // 32 MB
  const MEMSET_FOREIGN: bv32 := 0x0808_0808

  function Max(a: int, b: int): int {
    if a > b then a else b
  }

  /** The known pages and the size of the tables; the first page is 0 before the first allocation. */
  datatype Area = Area(membot: int, memtop: int, slots: nat)

  /** What becomes of the known pages and the tables when `n` pages are allocated at `ptr`. */
  function AfterAlloc(a: Area, ptr: int, n: nat): (b: Area) {
    if a.membot == 0 then
      Area(ptr, ptr + n, a.slots)
    else if ptr < a.membot then
      Area(ptr, a.memtop, if a.memtop - 1 - ptr >= a.slots then Max(a.memtop - ptr, 2 * a.slots) else a.slots)
    else if ptr + n > a.memtop then
      Area(a.membot, ptr + n, if ptr + n - 1 - a.membot >= a.slots then Max(ptr + n - a.membot, 2 * a.slots)
          else a.slots)
    else
      a
  }

  /** The tables handle a block exactly if it does not begin below the known pages and end above them,
      and if the first block of all does not need larger tables. */
  predicate Covered(a: Area, ptr: int, n: nat) {
    if a.membot == 0 then n <= a.slots else !(ptr < a.membot && ptr + n > a.memtop)
  }

  lemma CoveredExactly(a: Area, ptr: int, n: nat)
    requires 0 < ptr && 0 < n && 0 < a.slots && 0 <= a.membot
    requires a.membot != 0 ==> a.membot < a.memtop <= a.membot + a.slots
    ensures var b := AfterAlloc(a, ptr, n);
            Covered(a, ptr, n) <==> b.membot <= ptr && ptr + n <= b.memtop <= b.membot + b.slots
  {
  }

  /** Bytes of two tables of `slots` entries. */
  function TableBytes(slots: nat): nat {
    2 * DESCRIPTOR_BYTES * slots
  }

  /** `s` with `page` in the places from `a` to `b`. */
  function Assigned(s: seq<Page>, a: nat, b: nat, page: Page): (t: seq<Page>)
    requires a <= b <= |s|
    ensures |t| == |s| && forall i | 0 <= i < |s| :: t[i] == if a <= i < b then page else s[i]
  {
    s[..a] + seq(b - a, _ => page) + s[b..]
  }

  lemma ForeignHasNoOwner()
    ensures CategoryOf(FOREIGN.attr) == NoOwner
  {
  }

  lemma RtsCategory(attribute: bv32)
    requires attribute & MB_HEAP_MEMORY == 0
    ensures CategoryOf(RtsAttributes(attribute)) ==
            if attribute & MB_REMSET != 0 then Remset
            else if attribute & MB_SUMMARY_SETS != 0 then Summary
            else if attribute & MB_SMIRCY_MARK != 0 then Smircy
            else Rts
  {
  }

  lemma FreedCategory(attr: bv32)
    requires CategoryOf(attr) != NoOwner
    ensures CategoryOf(attr) ==
            if attr & MB_HEAP_MEMORY != 0 then Heap
            else if attr & MB_REMSET != 0 then Remset
            else if attr & MB_SUMMARY_SETS != 0 then Summary
            else if attr & MB_SMIRCY_MARK != 0 then Smircy
            else Rts
  {
  }

  lemma BitsOutsideCategory(b: bv32, attr: bv32)
    requires attr & 0x0000_0313 == 0
    ensures CategoryOf(WithBits(b, attr)) == CategoryOf(b)
  {
  }

  /** The accounts after the pages around `before` became known and a block of `n` of them was assigned. */
  lemma BlockCounted(before: seq<Page>, below: nat, above: nat, a: nat, n: nat, page: Page)
    requires a + n <= below + |before| + above && CategoryOf(page.attr) != NoOwner
    requires forall j | 0 <= j < |before| && a <= below + j < a + n :: CategoryOf(before[j].attr) == NoOwner
    ensures var after := Assigned(Foreign(below) + before + Foreign(above), a, a + n, page);
            forall c | c != NoOwner ::
              BytesOf(after, c) == BytesOf(before, c) + if c == CategoryOf(page.attr) then PAGESIZE * n else 0
  {
    ForeignHasNoOwner();
    hide CategoryOf, Count;
    var grown := Foreign(below) + before + Foreign(above);
    forall i | a <= i < a + n ensures CategoryOf(grown[i].attr) == NoOwner {
      if below <= i < below + |before| {
        assert grown[i] == before[i - below];
      }
    }
    var after := Assigned(grown, a, a + n, page);
    forall c | c != NoOwner
      ensures BytesOf(after, c) == BytesOf(before, c) + if c == CategoryOf(page.attr) then PAGESIZE * n else 0
    {
      CountConcat(Foreign(below) + before, Foreign(above), c);
      CountConcat(Foreign(below), before, c);
      ForeignIsUnowned(below, c);
      ForeignIsUnowned(above, c);
      PagesMoved(grown, after, a, a + n, NoOwner, CategoryOf(page.attr), c);
    }
  }

  /** The accounts after a block was freed. */
  lemma BlockFreed(before: seq<Page>, after: seq<Page>, a: nat, n: nat, c: Category)
    requires a + n <= |before| && c != NoOwner
             && after == Assigned(before, a, a + n, Page(UNALLOCATED_PAGE, MB_FOREIGN))
    requires forall i | a <= i < a + n :: CategoryOf(before[i].attr) == c
    ensures forall d | d != NoOwner :: BytesOf(after, d) == BytesOf(before, d) - if d == c then PAGESIZE * n else 0
  {
    ForeignHasNoOwner();
    hide CategoryOf, Count;
    forall d | d != NoOwner ensures BytesOf(after, d) == BytesOf(before, d) - if d == c then PAGESIZE * n else 0 {
      PagesMoved(before, after, a, a + n, c, NoOwner, d);
    }
  }

  lemma SameAccounts(before: seq<Page>, after: seq<Page>)
    requires |after| == |before| && forall i | 0 <= i < |before| ::
             CategoryOf(after[i].attr) == CategoryOf(before[i].attr)
    ensures forall c :: BytesOf(after, c) == BytesOf(before, c)
  {
    forall c ensures BytesOf(after, c) == BytesOf(before, c) {
      CountKept(before, after, c);
    }
  }

  class Allocator {
    // The tables: entry i of both describes page `pagebase` + i.  `pagebase` is 0 before the first
    // allocation; the operating system does not give out page 0.
    var descG: array<int>
    var descB: array<bv32>
    var slots: nat
    var pagebase: int
    var membot: int
    var memtop: int

    // The write barrier's copies.
    var wbEnabled: bool
    var gGenv: array<int>
    var gPgbase: int

    // Bytes on each account, and high-water marks.
    var heapBytes: int
    var remsetBytes: int
    var summBytes: int
    var smircyBytes: int
    var rtsBytes: int
    var wastageBytes: int
    var memBytes: int
    var maxMemBytes: int
    var peakHeapBytes: int
    var peakRemsetBytes: int
    var peakSummBytes: int
    var peakSmircyBytes: int
    var peakRtsBytes: int
    var peakWastageBytes: int

    // What was last assigned to each page from `membot` to `memtop`.
    ghost var owners: seq<Page>

    /** The tables hold `s` from entry 0 on, except perhaps in entries `a` to `b`. */
    ghost predicate Holds(s: seq<Page>, a: int, b: int)
      reads `descG, `descB, descG, descB
    {
      && |s| <= descG.Length && |s| <= descB.Length
      && forall i | 0 <= i < |s| && !(a <= i < b) :: descG[i] == s[i].gen && descB[i] == s[i].attr
    }

    /** The tables hold `s` from entry `d` on. */
    ghost predicate HoldsAt(d: nat, s: seq<Page>)
      reads `descG, `descB, descG, descB
    {
      && d + |s| <= descG.Length && d + |s| <= descB.Length
      && forall i | 0 <= i < |s| :: descG[d + i] == s[i].gen && descB[d + i] == s[i].attr
    }

    lemma HoldsBehind(d: nat, s: seq<Page>, n: nat)
      requires HoldsAt(d, s) && forall i | n <= i < d :: descG[i] == FOREIGN_PAGE && descB[i] == MB_FOREIGN
      ensures Holds(Foreign(d) + s, 0, n)
    {
      forall i | 0 <= i < d + |s| && !(0 <= i < n) ensures descG[i] == (Foreign(d) + s)[i].gen
          && descB[i] == (Foreign(d) + s)[i].attr {
        if i >= d {
          assert descG[d + (i - d)] == s[i - d].gen && descB[d + (i - d)] == s[i - d].attr;
        }
      }
    }

    /** There are two tables of the same length. */
    ghost predicate TwoTables()
      reads `descG, `descB, `slots
    {
      descG.Length == descB.Length == slots && descG as object != descB as object
    }

    ghost predicate Table(a: int, b: int)
      reads `descG, `descB, `slots, `pagebase, `membot, `memtop, `owners, descG, descB
    {
      && TwoTables() && 0 < slots && |owners| <= slots
      && (pagebase == 0 ==> membot == memtop == 0 && owners == [])
      && (pagebase != 0 ==> 0 < pagebase == membot < memtop == membot + |owners|)
      && Holds(owners, a, b)
    }

    ghost predicate BarrierInStep()
      reads `wbEnabled, `gGenv, `gPgbase, `descG, `pagebase
    {
      wbEnabled ==> gGenv == descG && gPgbase == pagebase != 0
    }

    /** Every counter is the bytes of the pages on its account; the tables are on the account of the
        run-time system. */
    ghost predicate Accounts()
      reads `owners, `slots, `heapBytes, `remsetBytes, `summBytes, `smircyBytes, `rtsBytes
    {
      forall c | c != NoOwner :: Counter(c) == BytesOf(owners, c) + if c == Rts then TableBytes(slots) else 0
    }

    function Counter(c: Category): int
      reads `heapBytes, `remsetBytes, `summBytes, `smircyBytes, `rtsBytes
    {
      match c
      case NoOwner => 0
      case Heap => heapBytes
      case Remset => remsetBytes
      case Summary => summBytes
      case Smircy => smircyBytes
      case Rts => rtsBytes
    }

    /** The total is the sum of the counters, and the largest total the sum of the counters at its peak. */
    ghost predicate Totals()
      reads `heapBytes, `remsetBytes, `summBytes, `smircyBytes, `rtsBytes, `wastageBytes, `memBytes, `maxMemBytes
      reads `peakHeapBytes, `peakRemsetBytes, `peakSummBytes, `peakSmircyBytes, `peakRtsBytes, `peakWastageBytes
    {
      && memBytes == heapBytes + remsetBytes + summBytes + smircyBytes + rtsBytes + wastageBytes
      && PeakIsSum() && memBytes <= maxMemBytes
    }

    ghost predicate PeakIsSum()
      reads `maxMemBytes
      reads `peakHeapBytes, `peakRemsetBytes, `peakSummBytes, `peakSmircyBytes, `peakRtsBytes, `peakWastageBytes
    {
      maxMemBytes == peakHeapBytes + peakRemsetBytes + peakSummBytes + peakSmircyBytes + peakRtsBytes + peakWastageBytes
    }

    ghost predicate Valid()
      reads this, descG, descB
    {
      Table(0, 0) && BarrierInStep() && Accounts() && PeakIsSum()
    }

    /** What was last assigned to page `p`. */
    ghost function At(p: int): Page
      requires membot <= p < membot + |owners|
      reads `owners, `membot
    {
      owners[p - membot]
    }

    constructor ()
      ensures Valid() && pagebase == 0 && slots == INITIAL_SLOTS && !wbEnabled && fresh(descG) && fresh(descB)
      ensures (forall i | 0 <= i < slots :: descG[i] == FOREIGN_PAGE && descB[i] == MB_FOREIGN)
              && gGenv.Length == gPgbase == 0
      ensures owners == [] && heapBytes == wastageBytes == memBytes == maxMemBytes == 0
    {
      slots := INITIAL_SLOTS;
      descG := new int[INITIAL_SLOTS](_ => FOREIGN_PAGE);
      descB := new bv32[INITIAL_SLOTS](_ => MB_FOREIGN);
      rtsBytes := TableBytes(INITIAL_SLOTS);
      pagebase, membot, memtop := 0, 0, 0;
      wbEnabled, gPgbase := false, 0;
      gGenv := new int[0];
      heapBytes, remsetBytes, summBytes, smircyBytes, wastageBytes, memBytes := 0, 0, 0, 0, 0, 0;
      maxMemBytes, peakHeapBytes, peakRemsetBytes, peakSummBytes := 0, 0, 0, 0;
      peakSmircyBytes, peakRtsBytes, peakWastageBytes := 0, 0, 0;
      owners := [];
    }

    /** The generation and the attributes of page `p`. */
    method Lookup(p: int) returns (gen: int, attr: bv32)
      requires Table(0, 0) && membot <= p < memtop
      ensures Page(gen, attr) == At(p)
    {
      gen, attr := descG[p - pagebase], descB[p - pagebase];
    }

    /** Tell the barrier where the tables are. */
    method WbSetup()
      requires Valid() && pagebase != 0
      modifies `wbEnabled, `gGenv, `gPgbase
      ensures Valid() && wbEnabled
    {
      wbEnabled, gGenv, gPgbase := true, descG, pagebase;
    }

    method WbReSetup()
      requires pagebase != 0
      modifies `gGenv, `gPgbase
      ensures BarrierInStep()
    {
      if wbEnabled {
        gGenv, gPgbase := descG, pagebase;
      }
    }

    method WbDisable()
      requires Valid()
      modifies `wbEnabled
      ensures Valid() && !wbEnabled
    {
      wbEnabled := false;
    }

    /** Move the entries of both tables up by `diff`. */
    method Slide(diff: nat)
      requires TwoTables()
      modifies descG, descB
      ensures forall i | diff <= i < slots :: descG[i] == old(descG[i - diff]) && descB[i] == old(descB[i - diff])
    {
      var i := slots - 1;
      while i >= diff
        invariant -1 <= i < slots && (diff <= slots ==> diff - 1 <= i)
        invariant forall k | 0 <= k <= i :: descG[k] == old(descG[k]) && descB[k] == old(descB[k])
        invariant forall k | i < k < slots && diff <= k ::
                    descG[k] == old(descG[k - diff]) && descB[k] == old(descB[k - diff])
      {
        descG[i] := descG[i - diff];
        descB[i] := descB[i - diff];
        i := i - 1;
      }
    }

    /** Set entries `a` to `b`. */
    method Fill(a: nat, b: nat, gen: int, attr: bv32)
      requires TwoTables() && b <= slots
      modifies descG, descB
      ensures forall i | 0 <= i < slots ::
                descG[i] == (if a <= i < b then gen else old(descG[i]))
                    && descB[i] == (if a <= i < b then attr else old(descB[i]))
    {
      var i := a;
      while i < b
        invariant a <= i <= if a <= b then b else a
        invariant forall k | 0 <= k < slots && !(a <= k < i) :: descG[k] == old(descG[k]) && descB[k] == old(descB[k])
        invariant forall k | a <= k < i :: descG[k] == gen && descB[k] == attr
      {
        descG[i] := gen;
        descB[i] := attr;
        i := i + 1;
      }
    }

    /** A table of `newSlots` entries that are `fill`, but for the first `count` entries of `table`, which are
        at `dest`. */
    static method Enlarged<T>(table: array<T>, count: nat, newSlots: nat, dest: nat, fill: T) returns (larger: array<T>)
      requires count <= table.Length && dest + count <= newSlots
      ensures fresh(larger) && larger.Length == newSlots
      ensures forall i | 0 <= i < count :: larger[dest + i] == table[i]
      ensures forall i | 0 <= i < newSlots && !(dest <= i < dest + count) :: larger[i] == fill
    {
      larger := new T[newSlots](_ => fill);
      for i := 0 to count
        invariant forall k | 0 <= k < i :: larger[dest + k] == table[k]
        invariant forall k | 0 <= k < newSlots && !(dest <= k < dest + i) :: larger[k] == fill
      {
        larger[dest + i] := table[i];
      }
    }

    /** Replace both tables by larger ones that cover the pages from `newBot` to `newTop`.  New entries
        get the byte patterns that memset writes. */
    method GrowTable(newBot: int, newTop: int)
      requires Table(0, 0) && 0 < newBot <= pagebase && memtop <= newTop && pagebase != 0
      modifies `descG, `descB, `slots, `pagebase, `membot, `memtop, `memBytes, `rtsBytes
      ensures fresh(descG) && fresh(descB) && TwoTables() && slots == Max(newTop - newBot, 2 * old(slots))
      ensures pagebase == membot == newBot && memtop == newTop
      ensures HoldsAt(old(pagebase) - newBot, owners)
      ensures forall i | 0 <= i < slots && !(0 <= i - (old(pagebase) - newBot) < old(memtop - pagebase)) ::
                descG[i] == FOREIGN_PAGE && descB[i] == MEMSET_FOREIGN
      ensures rtsBytes - old(rtsBytes) == memBytes - old(memBytes) == TableBytes(slots) - TableBytes(old(slots))
    {
      var newSlots := Max(newTop - newBot, 2 * slots);
      ChargeTables(newSlots);
      var dest := pagebase - newBot;
      var count := memtop - pagebase;
      var newB := Enlarged(descB, count, newSlots, dest, MEMSET_FOREIGN);
      var newG := Enlarged(descG, count, newSlots, dest, FOREIGN_PAGE);
      descB, descG := newB, newG;
      slots, pagebase, membot, memtop := newSlots, newBot, newBot, newTop;
    }

    /** Charge the new tables to the account of the run-time system, and credit the old ones. */
    method ChargeTables(newSlots: nat)
      modifies `memBytes, `rtsBytes
      ensures rtsBytes - old(rtsBytes) == memBytes - old(memBytes) == TableBytes(newSlots) - TableBytes(slots)
    {
      memBytes, rtsBytes := memBytes + DESCRIPTOR_BYTES * newSlots * 2, rtsBytes + DESCRIPTOR_BYTES * newSlots * 2;
      memBytes, rtsBytes := memBytes - DESCRIPTOR_BYTES * slots, rtsBytes - DESCRIPTOR_BYTES * slots;
      memBytes, rtsBytes := memBytes - DESCRIPTOR_BYTES * slots, rtsBytes - DESCRIPTOR_BYTES * slots;
    }

    /** Make `ptr` the first page of the tables. */
    method MakeRoomBelow(ptr: int)
      requires Table(0, 0) && pagebase != 0 && 0 < ptr < membot
      modifies `descG, `descB, descG, descB, `slots, `pagebase, `membot, `memtop, `memBytes, `rtsBytes
      ensures TwoTables() && memtop - ptr <= slots && old(slots) <= slots && pagebase == membot == ptr
              && memtop == old(memtop)
      ensures slots == if old(memtop) - 1 - ptr >= old(slots) then Max(old(memtop) - ptr, 2 * old(slots))
              else old(slots)
      ensures descG == old(descG) || fresh(descG)
      ensures descB == old(descB) || fresh(descB)
      ensures HoldsAt(old(pagebase) - ptr, owners)
      ensures rtsBytes - old(rtsBytes) == memBytes - old(memBytes) == TableBytes(slots) - TableBytes(old(slots))
    {
      if memtop - 1 - ptr >= slots {
        GrowTable(ptr, memtop);
      } else {
        var diff := pagebase - ptr;
        Slide(diff);
        forall i | 0 <= i < |owners| ensures descG[diff + i] == owners[i].gen && descB[diff + i] == owners[i].attr {
          assert descG[diff + i] == old(descG[diff + i - diff]) && descB[diff + i] == old(descB[diff + i - diff]);
        }
        pagebase, membot := ptr, ptr;
      }
    }

    /** Make entries `n` to `d` foreign; what follows them stays. */
    method FillBelow(n: nat, d: nat, ghost s: seq<Page>)
      requires TwoTables() && HoldsAt(d, s)
      modifies descG, descB
      ensures Holds(Foreign(d) + s, 0, n)
    {
      Fill(n, d, FOREIGN_PAGE, MB_FOREIGN);
      HoldsBehind(d, s, n);
    }

    /** The new block begins below the known pages.  Its own entries are left to the caller; the pages
        between it and the known ones are foreign.  Where it ends is not looked at. */
    method AllocationBelowMembot(ptr: int, n: nat)
      requires Table(0, 0) && pagebase != 0 && 0 < ptr < membot && 0 < n
      modifies `descG, `descB, descG, descB, `slots, `pagebase, `membot, `memtop, `memBytes, `rtsBytes
      modifies `owners, `gGenv, `gPgbase
      ensures Table(0, n) && pagebase == ptr && memtop == old(memtop) && BarrierInStep()
      ensures (descG == old(descG) || fresh(descG)) && (descB == old(descB) || fresh(descB))
      ensures slots == if old(memtop) - 1 - ptr >= old(slots) then Max(old(memtop) - ptr, 2 * old(slots))
              else old(slots)
      ensures owners == Foreign(old(pagebase) - ptr) + old(owners)
      ensures rtsBytes - old(rtsBytes) == memBytes - old(memBytes) == TableBytes(slots) - TableBytes(old(slots))
    {
      var oldBase := pagebase;
      MakeRoomBelow(ptr);
      FillBelow(n, oldBase - ptr, owners);
      WbReSetup();
      owners := Foreign(oldBase - ptr) + owners;
    }

    /** The new block ends above the known pages. */
    method AllocationAboveMemtop(ptr: int, n: nat)
      requires Table(0, 0) && BarrierInStep() && pagebase != 0 && membot <= ptr && 0 < n && memtop < ptr + n
      modifies `descG, `descB, descG, descB, `slots, `pagebase, `membot, `memtop, `memBytes, `rtsBytes
      modifies `owners, `gGenv, `gPgbase
      ensures Table(ptr - pagebase, ptr + n - pagebase) && pagebase == old(pagebase) && memtop == ptr + n
              && BarrierInStep()
      ensures (descG == old(descG) || fresh(descG)) && (descB == old(descB) || fresh(descB))
      ensures slots == if memtop - 1 - pagebase >= old(slots) then Max(memtop - pagebase, 2 * old(slots))
              else old(slots)
      ensures owners == old(owners) + Foreign(memtop - old(memtop))
      ensures rtsBytes - old(rtsBytes) == memBytes - old(memBytes) == TableBytes(slots) - TableBytes(old(slots))
    {
      var top := ptr + n;
      var oldMemtop := memtop;
      if top - 1 - pagebase >= slots {
        GrowTable(pagebase, top);
        WbReSetup();
      } else {
        memtop := top;
      }
      Fill(oldMemtop - pagebase, ptr - pagebase, FOREIGN_PAGE, MB_FOREIGN);
      owners := owners + Foreign(top - oldMemtop);
    }

    lemma BlockExcepted(n: nat)
      requires TwoTables() && n <= slots
      ensures Holds(Foreign(n), 0, n)
    {
    }

    /** Tables that hold everything hold everything but some entries. */
    lemma NoneExcepted()
      ensures forall a, b | Table(0, 0) :: Table(a, b)
    {
    }

    /** Memory for a block of `n` pages, which the operating system puts at `ptr`.  `covered` says whether
        the tables cover the known pages, and those the block.  If they do, the caller assigns the pages of
        the block, and all other pages are as they were, or foreign. */
    method GclibAlloc(ptr: int, n: nat, wastage: nat) returns (covered: bool, ghost below: nat, ghost above: nat)
      requires Table(0, 0) && BarrierInStep() && 0 < ptr && 0 < n
      modifies `descG, `descB, descG, descB, `slots, `pagebase, `membot, `memtop, `memBytes, `rtsBytes
      modifies `owners, `gGenv, `gPgbase, `wastageBytes
      ensures covered == Covered(old(Area(membot, memtop, slots)), ptr, n)
      ensures !covered ==> pagebase == membot == ptr && (memtop < ptr + n || pagebase + slots < memtop)
      ensures covered ==>
                Table(ptr - pagebase, ptr + n - pagebase) && BarrierInStep() && pagebase <= ptr && ptr + n <= memtop
      ensures covered ==> owners == Foreign(below) + old(owners) + Foreign(above)
      ensures covered && old(pagebase) != 0 ==> below == old(membot) - membot && above == memtop - old(memtop)
      ensures covered && old(pagebase) == 0 ==> pagebase == ptr && memtop == ptr + n
      ensures Area(membot, memtop, slots) == AfterAlloc(old(Area(membot, memtop, slots)), ptr, n)
      ensures (descG == old(descG) || fresh(descG)) && (descB == old(descB) || fresh(descB))
      ensures rtsBytes - old(rtsBytes) == TableBytes(slots) - TableBytes(old(slots)) && wastageBytes == wastage
    {
      hide Holds, TableBytes, Max;
      wastageBytes := wastage;
      below, above := 0, 0;
      NoneExcepted();
      if pagebase == 0 {
        pagebase, membot, memtop := ptr, ptr, ptr + n;
        covered := n <= slots;
        if covered {
          BlockExcepted(n);
          owners, above := Foreign(n), n;
        }
      } else if ptr < membot {
        below := membot - ptr;
        covered := ptr + n <= memtop;
        AllocationBelowMembot(ptr, n);
      } else {
        covered := true;
        if ptr + n > memtop {
          above := ptr + n - memtop;
          AllocationAboveMemtop(ptr, n);
        }
      }
    }

    /** Recompute the total, and remember the counters if it is the largest so far. */
    method UpdateMemBytes()
      requires PeakIsSum()
      modifies `memBytes, `maxMemBytes, `peakHeapBytes, `peakRemsetBytes, `peakSummBytes, `peakSmircyBytes
      modifies `peakRtsBytes, `peakWastageBytes
      ensures Totals() && maxMemBytes == Max(old(maxMemBytes), memBytes)
      ensures if memBytes > old(maxMemBytes) then
                && peakHeapBytes == heapBytes && peakRemsetBytes == remsetBytes && peakSummBytes == summBytes
                && peakSmircyBytes == smircyBytes && peakRtsBytes == rtsBytes && peakWastageBytes == wastageBytes
              else
                unchanged(`peakHeapBytes, `peakRemsetBytes, `peakSummBytes, `peakSmircyBytes, `peakRtsBytes,
                          `peakWastageBytes)
    {
      memBytes := heapBytes + remsetBytes + summBytes + smircyBytes + rtsBytes + wastageBytes;
      if memBytes > maxMemBytes {
        maxMemBytes := memBytes;
        peakHeapBytes, peakRemsetBytes, peakSummBytes := heapBytes, remsetBytes, summBytes;
        peakSmircyBytes, peakRtsBytes, peakWastageBytes := smircyBytes, rtsBytes, wastageBytes;
      }
    }

    /** Assign `page` to the pages from entry `a` to entry `b`. */
    method Assign(a: nat, b: nat, page: Page)
      requires a <= b <= |owners| && pagebase != 0 && (Table(a, b) || Table(0, 0))
      modifies descG, descB, `owners
      ensures Table(0, 0) && owners == Assigned(old(owners), a, b, page)
    {
      Fill(a, b, page.gen, page.attr);
      owners := Assigned(owners, a, b, page);
    }

    /** The operating system gives out only pages that are on nobody's account. */
    ghost predicate Unowned(ptr: int, n: nat)
      reads `owners, `membot, `memtop
    {
      forall p | ptr <= p < ptr + n && membot <= p < membot + |owners| :: CategoryOf(At(p).attr) == NoOwner
    }

    /** Outside the block of `n` pages at `ptr`, known pages have kept their owner, and pages that have
        become known are foreign. */
    ghost predicate OthersKept(before: seq<Page>, bot: int, ptr: int, n: nat)
      reads `owners, `membot
    {
      forall p | membot <= p < membot + |owners| && !(ptr <= p < ptr + n) ::
        At(p) == if bot != 0 && bot <= p < bot + |before| then before[p - bot] else FOREIGN
    }

    /** Allocate `n` pages and make `page` their owner. */
    method GiveBlock(ptr: int, n: nat, page: Page, wastage: nat) returns (covered: bool)
      requires Valid() && 0 < ptr && 0 < n && Unowned(ptr, n)
      requires CategoryOf(page.attr) != NoOwner
      modifies `descG, `descB, descG, descB, `slots, `pagebase, `membot, `memtop, `memBytes, `rtsBytes
      modifies `owners, `gGenv, `gPgbase
      modifies `wastageBytes
      ensures covered == Covered(old(Area(membot, memtop, slots)), ptr, n)
      ensures !covered ==> pagebase == membot == ptr && (memtop < ptr + n || pagebase + slots < memtop)
      ensures covered ==> Table(0, 0) && BarrierInStep() && pagebase != 0 && membot <= ptr && ptr + n <= memtop
      ensures covered ==> forall p | ptr <= p < ptr + n :: At(p) == page
      ensures covered ==> OthersKept(old(owners), old(membot), ptr, n)
      ensures wastageBytes == wastage
      ensures Area(membot, memtop, slots) == AfterAlloc(old(Area(membot, memtop, slots)), ptr, n)
      ensures (descG == old(descG) || fresh(descG)) && (descB == old(descB) || fresh(descB))
      ensures covered ==> forall c | c != NoOwner ::
                BytesOf(owners, c) == BytesOf(old(owners), c) + if c == CategoryOf(page.attr) then PAGESIZE * n else 0
      ensures forall c :: Counter(c) == old(Counter(c)) + if c == Rts then
              TableBytes(slots) - TableBytes(old(slots)) else 0
    {
      hide AfterAlloc, Holds, BytesOf, CategoryOf, TableBytes, Assigned, Foreign, OthersKept, At, Unowned;
      ghost var before, bot := owners, membot;
      UnownedEntries(ptr, n);
      ghost var below, above;
      covered, below, above := GclibAlloc(ptr, n, wastage);
      if !covered {
        return;
      }
      ghost var a := ptr - membot;
      BlockCounted(before, below, above, a, n, page);
      Assign(ptr - pagebase, ptr + n - pagebase, page);
      BlockPlaced(before, bot, below, above, ptr, n, page);
    }

    /** What a block placed among the pages known `before` means page by page. */
    lemma BlockPlaced(before: seq<Page>, bot: int, below: nat, above: nat, ptr: int, n: nat, page: Page)
      requires 0 < membot <= ptr && ptr - membot + n <= below + |before| + above
      requires owners == Assigned(Foreign(below) + before + Foreign(above), ptr - membot, ptr - membot + n, page)
      requires if bot == 0 then before == [] else below == bot - membot
      ensures forall p | ptr <= p < ptr + n :: At(p) == page
      ensures OthersKept(before, bot, ptr, n)
    {
    }

    lemma UnownedEntries(ptr: int, n: nat)
      requires Unowned(ptr, n)
      ensures forall j | 0 <= j < |owners| && ptr <= membot + j < ptr + n :: CategoryOf(owners[j].attr) == NoOwner
    {
      forall j | 0 <= j < |owners| && ptr <= membot + j < ptr + n ensures CategoryOf(owners[j].attr) == NoOwner {
        assert CategoryOf(At(membot + j).attr) == NoOwner;
      }
    }

    /** `n` pages of heap memory for generation `gen`.  If the tables do not cover the block, the entries
        that C goes on to write are not those of known pages, or are beyond the tables; nothing is claimed
        about what it does then. */
    method AllocHeap(ptr: int, n: nat, gen: int, wastage: nat) returns (covered: bool)
      requires Valid() && 0 < ptr && 0 < n && Unowned(ptr, n)
      modifies this, descG, descB
      ensures covered == Covered(old(Area(membot, memtop, slots)), ptr, n)
      ensures !covered ==> pagebase == membot == ptr && (memtop < ptr + n || pagebase + slots < memtop)
      ensures covered ==> Valid() && Totals() && membot <= ptr && ptr + n <= memtop
      ensures covered ==> forall p | ptr <= p < ptr + n :: At(p) == Page(gen, MB_ALLOCATED | MB_HEAP_MEMORY)
      ensures covered ==> OthersKept(old(owners), old(membot), ptr, n)
      ensures Area(membot, memtop, slots) == AfterAlloc(old(Area(membot, memtop, slots)), ptr, n)
      ensures (descG == old(descG) || fresh(descG)) && (descB == old(descB) || fresh(descB))
      ensures covered ==> heapBytes == old(heapBytes) + PAGESIZE * n && wbEnabled == old(wbEnabled)
      ensures covered ==> wastageBytes == wastage && maxMemBytes == Max(old(maxMemBytes), memBytes)
    {
      hide AfterAlloc, Table, Holds, BytesOf, Unowned, Covered, OthersKept, PeakIsSum, Totals;
      covered := GiveBlock(ptr, n, Page(gen, HEAP_ATTRIBUTES), wastage);
      if covered {
        heapBytes := heapBytes + PAGESIZE * n;
        UpdateMemBytes();
        TotalsHavePeak();
      }
    }

    /** Charge `bytes` to the account that the attributes of run-time memory name. */
    method ChargeRts(attribute: bv32, bytes: nat)
      requires attribute & MB_HEAP_MEMORY == 0
      modifies `remsetBytes, `summBytes, `smircyBytes, `rtsBytes
      ensures var d := CategoryOf(RtsAttributes(attribute));
              d != NoOwner && forall c :: Counter(c) == old(Counter(c)) + if c == d then bytes else 0
    {
      RtsCategory(attribute);
      if attribute & MB_REMSET != 0 {
        remsetBytes := remsetBytes + bytes;
      } else if attribute & MB_SUMMARY_SETS != 0 {
        summBytes := summBytes + bytes;
      } else if attribute & MB_SMIRCY_MARK != 0 {
        smircyBytes := smircyBytes + bytes;
      } else {
        rtsBytes := rtsBytes + bytes;
      }
    }

    /** Credit `bytes` to the account of pages with attributes `attr`. */
    method Credit(attr: bv32, bytes: nat)
      requires CategoryOf(attr) != NoOwner
      modifies `heapBytes, `remsetBytes, `summBytes, `smircyBytes, `rtsBytes
      ensures forall c :: Counter(c) == old(Counter(c)) - if c == CategoryOf(attr) then bytes else 0
    {
      FreedCategory(attr);
      if attr & MB_HEAP_MEMORY != 0 {
        heapBytes := heapBytes - bytes;
      } else if attr & MB_REMSET != 0 {
        remsetBytes := remsetBytes - bytes;
      } else if attr & MB_SUMMARY_SETS != 0 {
        summBytes := summBytes - bytes;
      } else if attr & MB_SMIRCY_MARK != 0 {
        smircyBytes := smircyBytes - bytes;
      } else {
        rtsBytes := rtsBytes - bytes;
      }
    }

    /** `n` pages for the run-time system, charged to the account that `attribute` names. */
    method AllocRts(ptr: int, n: nat, attribute: bv32, wastage: nat) returns (covered: bool)
      requires Valid() && 0 < ptr && 0 < n && Unowned(ptr, n) && attribute & MB_HEAP_MEMORY == 0
      modifies this, descG, descB
      ensures covered == Covered(old(Area(membot, memtop, slots)), ptr, n)
      ensures !covered ==> pagebase == membot == ptr && (memtop < ptr + n || pagebase + slots < memtop)
      ensures covered ==> Valid() && Totals() && membot <= ptr && ptr + n <= memtop
      ensures covered ==> forall p | ptr <= p < ptr + n :: At(p) == Page(RTS_OWNED_PAGE, RtsAttributes(attribute))
      ensures covered ==>
                forall p | ptr <= p < ptr + n :: BitsAdded(MB_ALLOCATED | MB_RTS_MEMORY, attribute, At(p).attr)
      ensures covered ==> OthersKept(old(owners), old(membot), ptr, n) && wbEnabled == old(wbEnabled)
      ensures covered ==> wastageBytes == wastage && maxMemBytes == Max(old(maxMemBytes), memBytes)
      ensures Area(membot, memtop, slots) == AfterAlloc(old(Area(membot, memtop, slots)), ptr, n)
      ensures (descG == old(descG) || fresh(descG)) && (descB == old(descB) || fresh(descB))
    {
      hide *;
      Parts();
      covered := RtsBlock(ptr, n, attribute, wastage);
      if covered {
        UpdateMemBytes();
        TotalsHavePeak();
        Parts();
        RtsAttributesAdded(attribute);
      }
    }

    /** Give a block to the run-time system, and charge it. */
    method RtsBlock(ptr: int, n: nat, attribute: bv32, wastage: nat) returns (covered: bool)
      requires Valid() && 0 < ptr && 0 < n && Unowned(ptr, n) && attribute & MB_HEAP_MEMORY == 0
      modifies `descG, `descB, descG, descB, `slots, `pagebase, `membot, `memtop, `memBytes, `rtsBytes, `owners
      modifies `gGenv, `gPgbase, `wastageBytes, `remsetBytes, `summBytes, `smircyBytes
      ensures covered == Covered(old(Area(membot, memtop, slots)), ptr, n)
      ensures !covered ==> pagebase == membot == ptr && (memtop < ptr + n || pagebase + slots < memtop)
      ensures covered ==> Table(0, 0) && BarrierInStep() && Accounts() && membot <= ptr && ptr + n <= memtop
      ensures covered ==> forall p | ptr <= p < ptr + n :: At(p) == Page(RTS_OWNED_PAGE, RtsAttributes(attribute))
      ensures covered ==> OthersKept(old(owners), old(membot), ptr, n) && wastageBytes == wastage
      ensures Area(membot, memtop, slots) == AfterAlloc(old(Area(membot, memtop, slots)), ptr, n)
      ensures (descG == old(descG) || fresh(descG)) && (descB == old(descB) || fresh(descB))
    {
      hide AfterAlloc, Table, Holds, BytesOf, Unowned, Covered, OthersKept, PeakIsSum, CategoryOf, RtsAttributes;
      hide Counter, TableBytes, At, BarrierInStep;
      RtsCategory(attribute);
      covered := GiveBlock(ptr, n, Page(RTS_OWNED_PAGE, RtsAttributes(attribute)), wastage);
      if covered {
        ChargeRts(attribute, PAGESIZE * n);
      }
    }

    lemma TotalsHavePeak()
      requires Totals()
      ensures PeakIsSum()
    {
    }

    lemma BlockReplaced(before: seq<Page>, addr: int, n: nat, page: Page)
      requires 0 < membot <= addr && addr - membot + n <= |before|
      requires owners == Assigned(before, addr - membot, addr - membot + n, page)
      ensures forall p | addr <= p < addr + n :: At(p) == page
      ensures OthersKept(before, membot, addr, n)
    {
    }

    /** Give back the block of `n` pages at `addr`, which all are on one account. */
    method Free(addr: int, n: nat, wastage: nat)
      requires Valid() && pagebase != 0 && membot <= addr && addr + n <= memtop && 0 < n
      requires CategoryOf(At(addr).attr) != NoOwner
      requires forall p | addr <= p < addr + n :: CategoryOf(At(p).attr) == CategoryOf(At(addr).attr)
      modifies descG, descB, `owners, `heapBytes, `remsetBytes, `summBytes, `smircyBytes, `rtsBytes, `wastageBytes
      modifies `memBytes, `maxMemBytes, `peakHeapBytes, `peakRemsetBytes, `peakSummBytes, `peakSmircyBytes
      modifies `peakRtsBytes, `peakWastageBytes
      ensures Valid() && Totals() && wastageBytes == wastage && maxMemBytes == Max(old(maxMemBytes), memBytes)
      ensures forall p | addr <= p < addr + n :: At(p) == Page(UNALLOCATED_PAGE, MB_FOREIGN)
      ensures OthersKept(old(owners), old(membot), addr, n)
    {
      hide *;
      Parts();
      wastageBytes := wastage;
      var _, attr := Lookup(addr);
      FreeBlock(addr, n, attr);
      UpdateMemBytes();
      TotalsHavePeak();
      Parts();
    }

    lemma Parts()
      ensures Valid() <==> Table(0, 0) && BarrierInStep() && Accounts() && PeakIsSum()
      ensures Table(0, 0) && pagebase != 0 ==> 0 < pagebase == membot && memtop == membot + |owners|
    {
    }

    /** Credit the account of the block of `n` pages at `addr`, and make the block nobody's. */
    method FreeBlock(addr: int, n: nat, attr: bv32)
      requires Table(0, 0) && Accounts() && pagebase != 0 && membot <= addr && addr + n <= memtop && 0 < n
      requires CategoryOf(attr) != NoOwner && forall p | addr <= p < addr + n ::
               CategoryOf(At(p).attr) == CategoryOf(attr)
      modifies descG, descB, `owners, `heapBytes, `remsetBytes, `summBytes, `smircyBytes, `rtsBytes
      ensures Table(0, 0) && Accounts() && OthersKept(old(owners), membot, addr, n)
      ensures forall p | addr <= p < addr + n :: At(p) == Page(UNALLOCATED_PAGE, MB_FOREIGN)
    {
      hide Table, Holds, BytesOf, CategoryOf, Counter, TableBytes, OthersKept, At;
      Credit(attr, PAGESIZE * n);
      ReleaseBlock(addr, n, CategoryOf(attr));
    }

    /** Make the block of `n` pages at `addr` nobody's, which was on the account of `c`. */
    method ReleaseBlock(addr: int, n: nat, ghost c: Category)
      requires Table(0, 0) && pagebase != 0 && membot <= addr && addr + n <= memtop && 0 < n && c != NoOwner
      requires forall p | addr <= p < addr + n :: CategoryOf(At(p).attr) == c
      modifies descG, descB, `owners
      ensures Table(0, 0) && OthersKept(old(owners), membot, addr, n)
      ensures forall p | addr <= p < addr + n :: At(p) == Page(UNALLOCATED_PAGE, MB_FOREIGN)
      ensures forall d | d != NoOwner :: BytesOf(owners, d) == BytesOf(old(owners), d) - if d == c then
              PAGESIZE * n else 0
    {
      hide Holds, BytesOf, CategoryOf, OthersKept, Assigned;
      ghost var before, a := owners, addr - membot;
      forall i | a <= i < a + n ensures CategoryOf(before[i].attr) == c {
        assert At(membot + i) == before[i];
      }
      Assign(addr - pagebase, addr + n - pagebase, Page(UNALLOCATED_PAGE, MB_FOREIGN));
      BlockFreed(before, owners, a, n, c);
      BlockReplaced(before, addr, n, Page(UNALLOCATED_PAGE, MB_FOREIGN));
    }

    /** Make `gen` the generation of the `n` pages at `addr`. */
    method SetGeneration(addr: int, n: nat, gen: int)
      requires Valid() && membot <= addr && addr + n <= memtop
      modifies descG, `owners
      ensures Valid() && |owners| == |old(owners)| && heapBytes == old(heapBytes)
      ensures forall p | membot <= p < memtop :: At(p) == if addr <= p < addr + n then old(At(p)).(gen := gen)
              else old(At(p))
    {
      hide BytesOf, PeakIsSum, CategoryOf, WithBits;
      ghost var before := owners;
      var p := addr - pagebase;
      var end := p + n;
      while p < end
        invariant addr - pagebase <= p <= end && Table(0, 0) && |owners| == |before|
        invariant forall i | 0 <= i < |owners| :: owners[i] == if addr - pagebase <= i < p then
                  before[i].(gen := gen) else before[i]
      {
        descG[p] := gen;
        owners := owners[p := owners[p].(gen := gen)];
        p := p + 1;
      }
      SameAccounts(before, owners);
    }

    method OrAttribute(i: nat, attr: bv32)
      requires Table(0, 0) && i < |owners|
      modifies descB, `owners
      ensures Table(0, 0) && owners == old(owners)[i := old(owners)[i].(attr := WithBits(old(owners)[i].attr, attr))]
    {
      hide WithBits;
      descB[i] := WithBits(descB[i], attr);
      owners := owners[i := owners[i].(attr := WithBits(owners[i].attr, attr))];
    }

    /** Add attribute bits, but not one that says whose account a page is on, to the `n` pages at `addr`. */
    method AddAttribute(addr: int, n: nat, attr: bv32)
      requires Valid() && membot <= addr && addr + n <= memtop && attr & 0x0000_0313 == 0
      modifies descB, `owners
      ensures Valid() && |owners| == |old(owners)|
      ensures forall p | membot <= p < memtop ::
                At(p) == if addr <= p < addr + n then old(At(p)).(attr := WithBits(old(At(p)).attr, attr))
                    else old(At(p))
      ensures forall p | addr <= p < addr + n :: BitsAdded(old(At(p)).attr, attr, At(p).attr)
    {
      hide BytesOf, PeakIsSum, CategoryOf, WithBits, BitsAdded;
      ghost var before := owners;
      var p := addr - pagebase;
      var end := p + n;
      while p < end
        invariant addr - pagebase <= p <= end && Table(0, 0) && |owners| == |before|
        invariant forall i | 0 <= i < |owners| ::
                    owners[i] == if addr - pagebase <= i < p then
                        before[i].(attr := WithBits(before[i].attr, attr)) else before[i]
      {
        OrAttribute(p, attr);
        p := p + 1;
      }
      forall i | 0 <= i < |before| ensures CategoryOf(owners[i].attr) == CategoryOf(before[i].attr) {
        BitsOutsideCategory(before[i].attr, attr);
      }
      SameAccounts(before, owners);
      forall q | addr <= q < addr + n ensures BitsAdded(before[q - membot].attr, attr, At(q).attr) {
        AttributesAdded(before[q - membot].attr, attr);
      }
    }
  }

  lemma HeapHasOwner(gen: int)
    ensures CategoryOf(Page(gen, HEAP_ATTRIBUTES).attr) == Heap
  {
  }

  /** A page is allocated and freed again, and then the operating system gives out a block that begins
      below that page and ends above it: the last 14 pages of the block stay unknown. */
  method BlockOnBothSides() returns (t: Allocator, first: bool, second: bool)
    ensures fresh(t) && first && !second && t.membot == 5 && t.memtop == 11 < 5 + 20
  {
    hide CategoryOf, Allocator.Holds, Allocator.Accounts, Allocator.PeakIsSum, Allocator.Totals, BytesOf;
    HeapHasOwner(0);
    ForeignHasNoOwner();
    t := new Allocator();
    first := t.AllocHeap(10, 1, 0, 0);
    t.Free(10, 1, 0);
    second := t.AllocHeap(5, 20, 0, 0);
  }

  /** A first block that is larger than the tables. */
  method OversizedFirstBlock(ptr: int) returns (t: Allocator, covered: bool)
    requires 0 < ptr
    ensures fresh(t) && !covered && t.pagebase == ptr && t.pagebase + t.slots < t.memtop
  {
    t := new Allocator();
    covered := t.AllocHeap(ptr, INITIAL_SLOTS + 1, 0, 0);
  }
}
