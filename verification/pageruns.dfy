/** Runs of the low-level allocator: a page's entry is what the run last assigned to it. */
module PageTableRuns {
  import opened PageOwners
  import opened PageTables

  datatype Op =
    | HeapBlock(ptr: int, n: nat, gen: int)
    | RtsBlock(ptr: int, n: nat, attribute: bv32)
    | Release(ptr: int, n: nat)
    | Regenerate(ptr: int, n: nat, gen: int)
    | Mark(ptr: int, n: nat, attribute: bv32)
    | EnableBarrier
    | DisableBarrier

  predicate Allocates(op: Op) {
    op.HeapBlock? || op.RtsBlock?
  }

  /** `op` is about page `p`. */
  predicate Concerns(op: Op, p: int) {
    !op.EnableBarrier? && !op.DisableBarrier? && op.ptr <= p < op.ptr + op.n
  }

  /** What `op` makes of page `p`. */
  function Effect(op: Op, p: int, before: Page): Page {
    if !Concerns(op, p) then before else
      match op
      case HeapBlock(_, _, gen) => Page(gen, HEAP_ATTRIBUTES)
      case RtsBlock(_, _, attribute) => Page(RTS_OWNED_PAGE, RtsAttributes(attribute))
      case Release(_, _) => Page(UNALLOCATED_PAGE, MB_FOREIGN)
      case Regenerate(_, _, gen) => before.(gen := gen)
      case Mark(_, _, attribute) => before.(attr := WithBits(before.attr, attribute))
      case _ => before
  }

  /** What a run leaves as the owner of page `p`. */
  function LastAssigned(ops: seq<Op>, p: int): Page {
    if ops == [] then FOREIGN else Effect(ops[|ops| - 1], p, LastAssigned(ops[..|ops| - 1], p))
  }

  /** The known pages and the size of the tables after a run. */
  function AreaAfter(ops: seq<Op>): Area {
    if ops == [] then Area(0, 0, INITIAL_SLOTS) else
      var last, a := ops[|ops| - 1], AreaAfter(ops[..|ops| - 1]);
      if Allocates(last) then AfterAlloc(a, last.ptr, last.n) else a
  }

  /** Whether a run leaves the barrier switched on. */
  function SwitchedOn(ops: seq<Op>): bool {
    if ops == [] then false else
      var last := ops[|ops| - 1];
      last.EnableBarrier? || (!last.DisableBarrier? && SwitchedOn(ops[..|ops| - 1]))
  }

  /** What the allocator's callers and the operating system see to. */
  ghost predicate Allowed(ops: seq<Op>, op: Op) {
    var a := AreaAfter(ops);
    match op
    case HeapBlock(ptr, n, _) => FreeBlock(ops, ptr, n)
    case RtsBlock(ptr, n, attribute) => FreeBlock(ops, ptr, n) && attribute & MB_HEAP_MEMORY == 0
    case Release(ptr, n) =>
      && a.membot != 0 && a.membot <= ptr && ptr + n <= a.memtop && 0 < n
      && CategoryOf(LastAssigned(ops, ptr).attr) != NoOwner
      && forall p | ptr <= p < ptr + n ::
         CategoryOf(LastAssigned(ops, p).attr) == CategoryOf(LastAssigned(ops, ptr).attr)
    case Regenerate(ptr, n, _) => a.membot <= ptr && ptr + n <= a.memtop
    case Mark(ptr, n, attribute) => a.membot <= ptr && ptr + n <= a.memtop && attribute & 0x0000_0313 == 0
    case EnableBarrier => a.membot != 0
    case DisableBarrier => true
  }

  /** A block that the operating system may give out. */
  ghost predicate FreeBlock(ops: seq<Op>, ptr: int, n: nat) {
    && 0 < ptr && 0 < n && Covered(AreaAfter(ops), ptr, n)
    && forall p | ptr <= p < ptr + n :: CategoryOf(LastAssigned(ops, p).attr) == NoOwner
  }

  /** The tables agree with the run, and so do the accounts once there are pages to account for. */
  ghost predicate Agrees(t: Allocator, ops: seq<Op>)
    reads t, t.descG, t.descB
  {
    && t.Valid() && Area(t.membot, t.memtop, t.slots) == AreaAfter(ops) && (t.membot != 0 ==> t.Totals())
    && t.wbEnabled == SwitchedOn(ops)
    && (forall p | t.membot <= p < t.membot + |t.owners| :: t.At(p) == LastAssigned(ops, p))
    && (forall p | !(t.membot <= p < t.membot + |t.owners|) :: LastAssigned(ops, p) == FOREIGN)
  }

  lemma AreaGrows(a: Area, ptr: int, n: nat)
    requires 0 < n && (a.membot != 0 ==> a.membot < a.memtop)
    ensures var b := AfterAlloc(a, ptr, n);
            a.membot != 0 ==> b.membot <= a.membot && a.memtop <= b.memtop
  {
  }

  /** The tables hold what `op` makes of each page. */
  ghost predicate Updated(t: Allocator, ops: seq<Op>, op: Op)
    reads t, t.descG, t.descB
  {
    && (forall p | t.membot <= p < t.membot + |t.owners| :: t.At(p) == Effect(op, p, LastAssigned(ops, p)))
    && (forall p | !(t.membot <= p < t.membot + |t.owners|) :: LastAssigned(ops, p) == FOREIGN && !Concerns(op, p))
  }

  lemma StepAgrees(t: Allocator, ops: seq<Op>, op: Op)
    requires t.Valid() && Updated(t, ops, op) && (t.membot != 0 ==> t.Totals())
    requires Area(t.membot, t.memtop, t.slots) == AreaAfter(ops + [op])
    requires t.wbEnabled == (op.EnableBarrier? || (!op.DisableBarrier? && SwitchedOn(ops)))
    ensures Agrees(t, ops + [op])
  {
    hide Allocator.Valid, Effect, AreaAfter;
    assert (ops + [op])[..|ops|] == ops;
    forall p ensures LastAssigned(ops + [op], p) == Effect(op, p, LastAssigned(ops, p)) {
    }
    forall p | !(t.membot <= p < t.membot + |t.owners|) ensures LastAssigned(ops + [op], p) == FOREIGN {
      NoEffect(op, p, FOREIGN);
    }
  }

  lemma NoEffect(op: Op, p: int, before: Page)
    requires !Concerns(op, p)
    ensures Effect(op, p, before) == before
  {
  }

  lemma AreaStep(ops: seq<Op>, op: Op)
    ensures AreaAfter(ops + [op]) ==
            if Allocates(op) then AfterAlloc(AreaAfter(ops), op.ptr, op.n) else AreaAfter(ops)
  {
    assert (ops + [op])[..|ops|] == ops;
  }

  /** One operation, after the operations `done`. */
  method Perform(t: Allocator, op: Op, ghost done: seq<Op>, wastage: nat)
    requires Agrees(t, done) && Allowed(done, op)
    modifies t, t.descG, t.descB
    ensures Agrees(t, done + [op])
    ensures (t.descG == old(t.descG) || fresh(t.descG)) && (t.descB == old(t.descB) || fresh(t.descB))
  {
    hide Agrees, Allowed;
    if Allocates(op) {
      PerformAllocation(t, op, done, wastage);
    } else if op.EnableBarrier? || op.DisableBarrier? {
      PerformSwitch(t, op, done);
    } else {
      PerformChange(t, op, done, wastage);
    }
  }

  method PerformSwitch(t: Allocator, op: Op, ghost done: seq<Op>)
    requires Agrees(t, done) && Allowed(done, op) && (op.EnableBarrier? || op.DisableBarrier?)
    modifies t`wbEnabled, t`gGenv, t`gPgbase
    ensures Agrees(t, done + [op])
  {
    hide Allocator.Holds, BytesOf, Allocator.PeakIsSum, Allocator.Totals, CategoryOf, Allocator.Counter;
    hide Allocator.Accounts, WithBits;
    hide RtsAttributes, AfterAlloc, Covered, AreaAfter, LastAssigned;
    AreaStep(done, op);
    if op.EnableBarrier? {
      t.WbSetup();
    } else {
      t.WbDisable();
    }
    StepAgrees(t, done, op);
  }

  method PerformChange(t: Allocator, op: Op, ghost done: seq<Op>, wastage: nat)
    requires Agrees(t, done) && Allowed(done, op) && (op.Release? || op.Regenerate? || op.Mark?)
    modifies t, t.descG, t.descB
    ensures Agrees(t, done + [op]) && t.descG == old(t.descG) && t.descB == old(t.descB)
  {
    hide Allocator.Holds, BytesOf, Allocator.PeakIsSum, Allocator.Totals, CategoryOf, Allocator.Counter;
    hide Allocator.Accounts, WithBits, BitsAdded, HasAll;
    hide RtsAttributes, AfterAlloc, Covered, AreaAfter, LastAssigned;
    AreaStep(done, op);
    match op {
      case Release(ptr, n) =>
        t.Free(ptr, n, wastage);
      case Regenerate(ptr, n, gen) =>
        t.SetGeneration(ptr, n, gen);
      case Mark(ptr, n, attribute) =>
        t.AddAttribute(ptr, n, attribute);
    }
    StepAgrees(t, done, op);
  }

  method PerformAllocation(t: Allocator, op: Op, ghost done: seq<Op>, wastage: nat)
    requires Agrees(t, done) && Allowed(done, op) && Allocates(op)
    modifies t, t.descG, t.descB
    ensures Agrees(t, done + [op])
    ensures (t.descG == old(t.descG) || fresh(t.descG)) && (t.descB == old(t.descB) || fresh(t.descB))
  {
    hide Allocator.Holds, BytesOf, Allocator.PeakIsSum, Allocator.Totals, CategoryOf, Allocator.Counter;
    hide Allocator.Accounts, WithBits;
    hide RtsAttributes, AfterAlloc, Covered, AreaAfter, LastAssigned;
    AreaStep(done, op);
    AreaGrows(AreaAfter(done), op.ptr, op.n);
    match op {
      case HeapBlock(ptr, n, gen) =>
        var covered := t.AllocHeap(ptr, n, gen, wastage);
        assert covered;
      case RtsBlock(ptr, n, attribute) =>
        var covered := t.AllocRts(ptr, n, attribute, wastage);
        assert covered;
    }
    StepAgrees(t, done, op);
  }

  /** Every prefix of a run may be followed by its next operation. */
  ghost predicate Runnable(ops: seq<Op>) {
    forall k | 0 <= k < |ops| :: Allowed(ops[..k], ops[k])
  }

  /** Whatever was allocated, freed and changed in whatever order, and however often the tables slid and
      grew, the tables hold what was last assigned to each page, the barrier knows where they are, every
      counter is the bytes on its account, and the total is their sum. */
  method Run(ops: seq<Op>, wastage: seq<nat>) returns (t: Allocator)
    requires Runnable(ops) && |wastage| == |ops|
    ensures fresh(t) && fresh(t.descG) && fresh(t.descB)
    ensures Agrees(t, ops) && t.wbEnabled == SwitchedOn(ops) && t.BarrierInStep() && t.Accounts()
    ensures (exists op :: op in ops && Allocates(op)) ==> t.Totals()
  {
    hide Allowed, Allocator.Holds, Allocator.PeakIsSum, Allocator.Accounts, Allocator.Totals;
    t := new Allocator();
    for i := 0 to |ops|
      invariant Agrees(t, ops[..i]) && fresh(t) && fresh(t.descG) && fresh(t.descB)
    {
      assert ops[..i + 1] == ops[..i] + [ops[i]];
      Perform(t, ops[i], ops[..i], wastage[i]);
    }
    assert ops[..|ops|] == ops;
    SomeKnown(ops);
  }

  lemma AllowedAbove0(ops: seq<Op>, op: Op)
    requires Allowed(ops, op)
    ensures Allocates(op) ==> 0 < op.ptr
  {
  }

  lemma ShorterIsRunnable(ops: seq<Op>)
    requires Runnable(ops) && ops != []
    ensures Runnable(ops[..|ops| - 1]) && Allowed(ops[..|ops| - 1], ops[|ops| - 1])
  {
    hide Allowed;
    var fewer := ops[..|ops| - 1];
    forall k | 0 <= k < |fewer| ensures Allowed(fewer[..k], fewer[k]) {
      assert fewer[..k] == ops[..k] && fewer[k] == ops[k];
    }
  }

  lemma LastArea(ops: seq<Op>)
    requires ops != []
    ensures var last, a := ops[|ops| - 1], AreaAfter(ops[..|ops| - 1]);
            AreaAfter(ops) == if Allocates(last) then AfterAlloc(a, last.ptr, last.n) else a
  {
  }

  /** Once a block was allocated there are known pages. */
  lemma {:induction false} SomeKnown(ops: seq<Op>)
    requires Runnable(ops)
    ensures AreaAfter(ops).membot >= 0
    ensures (exists op :: op in ops && Allocates(op)) ==> AreaAfter(ops).membot > 0
    decreases |ops|
  {
    if ops != [] {
      var fewer, last := ops[..|ops| - 1], ops[|ops| - 1];
      ShorterIsRunnable(ops);
      AllowedAbove0(fewer, last);
      LastArea(ops);
      SomeKnown(fewer);
      hide Allowed, Runnable, AreaAfter;
      assert forall op | op in ops :: op == last || op in fewer;
    }
  }

  /** `op` does not allocate or free page `p`. */
  predicate Leaves(op: Op, p: int) {
    Concerns(op, p) ==> !Allocates(op) && !op.Release?
  }

  /** Operation number `i` marks page `p`, which is not freed or assigned anew since. */
  predicate MarkedAt(ops: seq<Op>, i: int, p: int) {
    && 0 <= i < |ops| && ops[i].Mark? && Concerns(ops[i], p)
    && forall j | i < j < |ops| :: Leaves(ops[j], p)
  }

  /** Such a page has all bits of its mark. */
  lemma {:induction false} MarksStay(ops: seq<Op>, i: int, p: int)
    requires MarkedAt(ops, i, p)
    ensures HasAll(LastAssigned(ops, p).attr, ops[i].attribute)
    decreases |ops|
  {
    hide Effect, HasAll;
    var n := |ops| - 1;
    var before := LastAssigned(ops[..n], p);
    if i == n {
      MarkHasBits(ops[n], p, before);
    } else {
      assert ops[..n][i] == ops[i] && forall j | i < j < n :: ops[..n][j] == ops[j];
      MarksStay(ops[..n], i, p);
      LeavesBits(ops[n], p, before, ops[i].attribute);
    }
  }

  lemma MarkHasBits(op: Op, p: int, before: Page)
    requires op.Mark? && Concerns(op, p)
    ensures HasAll(Effect(op, p, before).attr, op.attribute)
  {
    hide WithBits, HasAll, RtsAttributes;
    AddedAreThere(before.attr, op.attribute);
  }

  lemma LeavesBits(op: Op, p: int, before: Page, x: bv32)
    requires Leaves(op, p) && HasAll(before.attr, x)
    ensures HasAll(Effect(op, p, before).attr, x)
  {
    hide WithBits, HasAll, RtsAttributes;
    if op.Mark? {
      BitsStay(before.attr, op.attribute, x);
    }
  }

  /** Looking up a known page after a run gives what was last assigned to it, with all attributes that
      were added since. */
  method RunAndLookUp(ops: seq<Op>, wastage: seq<nat>, p: int) returns (known: bool, gen: int, attr: bv32)
    requires Runnable(ops) && |wastage| == |ops|
    ensures known ==> Page(gen, attr) == LastAssigned(ops, p)
    ensures !known ==> LastAssigned(ops, p) == FOREIGN
    ensures known ==> forall i | MarkedAt(ops, i, p) :: HasAll(attr, ops[i].attribute)
    ensures known == (AreaAfter(ops).membot <= p < AreaAfter(ops).memtop)
  {
    hide Allowed, Runnable, Allocator.Holds, Allocator.PeakIsSum, Allocator.Accounts, Allocator.Totals, LastAssigned;
    hide WithBits, HasAll, CategoryOf;
    var t := Run(ops, wastage);
    known, gen, attr := t.membot <= p < t.memtop, 0, 0;
    if known {
      gen, attr := t.Lookup(p);
      forall i | MarkedAt(ops, i, p) ensures HasAll(attr, ops[i].attribute) {
        MarksStay(ops, i, p);
      }
    }
  }
}
