/** Continuation frames in heap vectors, and as an unbounded list. */
module ContinuationFrames {

  datatype SObject =
    | Null
    | False
    | True
    | Fixnum(value: int)
    | Procedure(entry: nat)
    | Vector(svl: SVL)
    | Other(id: nat)

  /** A vector.  Whoever can reach it can change its elements. */
  class SVL {
    var elements: seq<SObject>

    constructor (elements: seq<SObject>)
      ensures this.elements == elements
    {
      this.elements := elements;
    }
  }

  /** Return points are small enough to be fixnums. */
  type Label = x: int | -0x2000_0000 <= x < 0x2000_0000

  /** One frame: where it returns to and its slots, the first of which holds the procedure. */
  datatype Frame = Frame(ret: Label, slots: seq<SObject>)

  // Offsets in a heap frame.
  const HC_RETOFFSET := 0
  const HC_DYNLINK := 1
  const HC_OVERHEAD := 2

  predicate GoodFrame(f: Frame) {
    |f.slots| > 0 && f.slots[0].Procedure?
  }

  /** What the vector for frame `f` contains, when `parent` is the next frame of the chain. */
  function HeapElements(f: Frame, parent: SObject): (e: seq<SObject>)
    ensures |e| == HC_OVERHEAD + |f.slots| && e[HC_RETOFFSET] == Fixnum(f.ret) && e[HC_DYNLINK] == parent
    ensures e[HC_OVERHEAD..] == f.slots
  {
    [Fixnum(f.ret), parent] + f.slots
  }

  /** What refers to number `i` of the vectors `vs`; behind the last one comes #f. */
  function Link(vs: seq<SVL>, i: nat): SObject {
    if i < |vs| then Vector(vs[i]) else False
  }

  /** Number `i` of the vectors holds number `i` of the frames, and refers to the next vector. */
  ghost predicate HoldsFrame(vs: seq<SVL>, fs: seq<Frame>, i: nat)
    requires i < |vs| && i < |fs|
    reads vs
  {
    vs[i].elements == HeapElements(fs[i], Link(vs, i + 1)) && GoodFrame(fs[i])
  }

  /** `h` is a chain of the vectors `vs`, and they hold the frames `fs`, newest first. */
  ghost predicate ChainOf(h: SObject, vs: seq<SVL>, fs: seq<Frame>)
    reads vs
  {
    && |vs| == |fs| && h == Link(vs, 0)
    && forall i | 0 <= i < |vs| :: HoldsFrame(vs, fs, i)
  }

  lemma ToHeapChains(v: SVL, f: Frame, parent: SObject, vs: seq<SVL>, fs: seq<Frame>)
    requires GoodFrame(f) && ChainOf(parent, vs, fs) && v.elements == HeapElements(f, parent)
    ensures ChainOf(Vector(v), [v] + vs, [f] + fs)
  {
    hide HeapElements, GoodFrame;
    forall i | 0 <= i <= |vs| ensures HoldsFrame([v] + vs, [f] + fs, i) {
      LinkBehind(v, vs, i);
      if i > 0 {
        assert HoldsFrame(vs, fs, i - 1);
      }
    }
  }

  lemma LinkBehind(v: SVL, vs: seq<SVL>, i: nat)
    ensures Link([v] + vs, i + 1) == Link(vs, i)
  {
  }

  /** The chain behind the newest frame. */
  lemma ChainStep(h: SObject, vs: seq<SVL>, fs: seq<Frame>)
    requires ChainOf(h, vs, fs) && (h.Vector? || vs != [] || fs != [])
    ensures h.Vector? && vs != [] && fs != [] && h.svl == vs[0] && vs[0] in vs && GoodFrame(fs[0])
    ensures 0 <= HC_DYNLINK < |h.svl.elements|
    ensures h.svl.elements == HeapElements(fs[0], h.svl.elements[HC_DYNLINK])
    ensures ChainOf(h.svl.elements[HC_DYNLINK], vs[1..], fs[1..]) && fs == [fs[0]] + fs[1..]
  {
    assert HoldsFrame(vs, fs, 0);
    forall i | 0 <= i < |vs| - 1 ensures HoldsFrame(vs[1..], fs[1..], i) {
      assert HoldsFrame(vs, fs, i + 1);
    }
  }

  /** A heap chain holds its frames and nothing else. */
  lemma {:induction false} ChainIsUnique(h: SObject, vs: seq<SVL>, fs: seq<Frame>, vs': seq<SVL>, fs': seq<Frame>)
    requires ChainOf(h, vs, fs) && ChainOf(h, vs', fs')
    ensures vs == vs' && fs == fs'
    decreases |vs|
  {
    if h.Vector? {
      ChainStep(h, vs, fs);
      ChainStep(h, vs', fs');
      ChainIsUnique(h.svl.elements[HC_DYNLINK], vs[1..], fs[1..], vs'[1..], fs'[1..]);
      assert vs == [vs[0]] + vs[1..] && vs' == [vs'[0]] + vs'[1..];
      assert fs[0].slots == h.svl.elements[HC_OVERHEAD..] == fs'[0].slots;
    }
  }
}

/** The stack cache: a ring of reusable frames that spills into heap chains and refills from
    them. */
module StackCache {
  import opened ContinuationFrames

  const NUM_SLOT_FIELDS := 8
  const NREGS := 32

  /** A frame that restores the registers `reg`, and Result if `full`, and goes on at `index`. */
  function ContextFrame(restore: SObject, index: Label, reg: seq<SObject>, result: SObject, full: bool): Frame {
    Frame(index, [restore] + reg + [result, if full then True else False])
  }

  class StackCacheFrame {
    var before: StackCacheFrame?
    var after: StackCacheFrame?
    var fields: seq<SObject>         // s0 ... s7
    var overflowSlots: seq<SObject>
    var returnIndex: Label
    var lastslot: nat
    var dirty: bool

    constructor ()
      ensures Valid() && Unused() && NothingHeld()
      ensures before == after == null && returnIndex == 0
    {
      before, after := null, null;
      fields, overflowSlots := seq(NUM_SLOT_FIELDS, _ => Null), [];
      returnIndex, lastslot, dirty := 0, 0, false;
    }

    function Capacity(): nat
      reads `overflowSlots
    {
      NUM_SLOT_FIELDS + |overflowSlots|
    }

    /** As the constructor leaves it. */
    ghost predicate Unused()
      reads `overflowSlots, `lastslot, `dirty
    {
      lastslot == 0 && !dirty && overflowSlots == []
    }

    predicate Valid()
      reads `fields, `overflowSlots, `lastslot
    {
      |fields| == NUM_SLOT_FIELDS && lastslot < Capacity()
    }

    function GetSlot(slot: nat): SObject
      requires Valid() && slot < Capacity()
      reads `fields, `overflowSlots, `lastslot
    {
      if slot < NUM_SLOT_FIELDS then fields[slot] else overflowSlots[slot - NUM_SLOT_FIELDS]
    }

    /** The frame this object stands for; what lies beyond `lastslot` does not matter. */
    ghost function Contents(): (f: Frame)
      requires Valid()
      reads `fields, `overflowSlots, `lastslot, `returnIndex
      ensures |f.slots| == lastslot + 1 && forall i | 0 <= i <= lastslot :: f.slots[i] == GetSlot(i)
    {
      Frame(returnIndex, (fields + overflowSlots)[..lastslot + 1])
    }

    method SetSlot(slot: nat, value: SObject)
      requires Valid() && slot < Capacity()
      modifies `fields, `overflowSlots
      ensures Valid() && Capacity() == old(Capacity())
      ensures forall i | 0 <= i < Capacity() :: GetSlot(i) == if i == slot then value else old(GetSlot(i))
      ensures Contents() == if slot <= lastslot then old(Contents()).(slots := old(Contents()).slots[slot := value])
                            else old(Contents())
    {
      if slot < NUM_SLOT_FIELDS {
        fields := fields[slot := value];
      } else {
        overflowSlots := overflowSlots[slot - NUM_SLOT_FIELDS := value];
      }
    }

    method SetReturnIndex(index: Label)
      requires Valid()
      modifies `returnIndex
      ensures Valid() && Contents() == old(Contents()).(ret := index)
    {
      returnIndex := index;
    }

    /** Save the 32 registers and Result behind `restore`, and whether Result is to be restored. */
    method SaveRegisters(restore: SObject, index: Label, reg: seq<SObject>, result: SObject, full: bool)
      requires Valid() && lastslot == NREGS + 2 && |reg| == NREGS
      modifies `fields, `overflowSlots, `returnIndex
      ensures Valid() && Contents() == ContextFrame(restore, index, reg, result, full)
      ensures Capacity() == old(Capacity()) && forall i | lastslot < i < Capacity() :: GetSlot(i) == old(GetSlot(i))
    {
      fields := [restore] + reg[..NUM_SLOT_FIELDS - 1];
      returnIndex := index;
      overflowSlots := reg[NUM_SLOT_FIELDS - 1..] + [result, if full then True else False] + overflowSlots[27..];
      assert Contents().slots == ContextFrame(restore, index, reg, result, full).slots;
    }

    /** Become a frame that holds just `p`. */
    method Begin(p: SObject)
      requires Valid() && p.Procedure?
      modifies `fields, `overflowSlots, `lastslot, `returnIndex, `dirty
      ensures Valid() && Contents() == Frame(0, [p]) && GoodFrame(Contents())
    {
      PrepareSmall(0);
      SetSlot(0, p);
      returnIndex := 0;
      assert Contents().slots == [p];
    }

    /** Let go of all slots but the first. */
    method Drop()
      requires Valid()
      modifies `lastslot
      ensures Valid() && lastslot == 0 && forall i | 0 <= i < Capacity() :: GetSlot(i) == old(GetSlot(i))
    {
      lastslot := 0;
    }

    /** Make slots 0 to `last` available; what they hold is not defined. */
    method Prepare(last: nat)
      requires Valid()
      modifies `overflowSlots, `dirty, `lastslot
      ensures Valid() && lastslot == last && old(Capacity()) <= Capacity()
      ensures dirty == (last < old(Capacity()) && (old(lastslot) != last || old(dirty)))
      ensures Capacity() == if old(Capacity()) <= last then last + 1 else old(Capacity())
      ensures forall i | 0 <= i < NUM_SLOT_FIELDS :: GetSlot(i) == old(GetSlot(i))
      ensures forall i | NUM_SLOT_FIELDS <= i < Capacity() ::
                GetSlot(i) == if old(Capacity()) <= last then False else old(GetSlot(i))
    {
      if lastslot == last {
        return;
      }
      if Capacity() <= last {
        assert 1 + last - NUM_SLOT_FIELDS > |overflowSlots|;
        overflowSlots := seq(1 + last - NUM_SLOT_FIELDS, _ => False);
        dirty := false;
      } else {
        dirty := true;
      }
      lastslot := last;
    }

    /** As `Prepare`, when there is room for slot `last` in any frame. */
    method PrepareSmall(last: nat)
      requires Valid() && last < NUM_SLOT_FIELDS
      modifies `dirty, `lastslot
      ensures Valid() && lastslot == last && dirty == (old(lastslot) != last || old(dirty))
    {
      if lastslot != last {
        dirty := true;
        lastslot := last;
      }
    }

    /** No unused slot keeps an object alive. */
    ghost predicate NothingHeld()
      requires Valid()
      reads `fields, `overflowSlots, `lastslot
    {
      forall i | lastslot < i < Capacity() :: GetSlot(i) in {Null, False}
    }

    /** Forget what unused slots hold, which works if and only if the frame is marked dirty or there
        is nothing to forget. */
    method Clear()
      requires Valid()
      modifies `fields, `overflowSlots, `dirty
      ensures Valid() && Contents() == old(Contents()) && Capacity() == old(Capacity()) && !dirty
      ensures forall i | lastslot < i < Capacity() :: GetSlot(i) == if old(dirty) then False else old(GetSlot(i))
      ensures NothingHeld() <==> old(dirty || NothingHeld())
      ensures !old(dirty) ==> fields == old(fields) && overflowSlots == old(overflowSlots)
    {
      if dirty {
        var limit := Capacity();
        var i := lastslot + 1;
        while i < limit
          invariant lastslot < i <= limit == Capacity() && Valid() && Capacity() == old(Capacity())
          invariant forall k | 0 <= k <= lastslot :: GetSlot(k) == old(GetSlot(k))
          invariant forall k | lastslot < k < i :: GetSlot(k) == False
        {
          SetSlot(i, False);
          i := i + 1;
        }
        dirty := false;
      }
      assert Contents().slots == old(Contents()).slots;
    }

    /** A new vector with the contents of this frame. */
    method ToVector(parent: SObject) returns (v: SVL)
      requires Valid()
      ensures fresh(v) && v.elements == HeapElements(Contents(), parent)
    {
      var elements := [Fixnum(returnIndex), parent];
      if lastslot < NUM_SLOT_FIELDS {
        elements := elements + fields[..lastslot + 1];
      } else {
        elements := elements + fields + overflowSlots[..lastslot - 7];
      }
      v := new SVL(elements);
      assert elements[HC_OVERHEAD..] == Contents().slots;
      assert elements == elements[..HC_OVERHEAD] + elements[HC_OVERHEAD..];
    }

    /** Load the frame that `v` holds. */
    method FillFromVector(v: SVL, ghost f: Frame, ghost parent: SObject)
      requires Valid() && GoodFrame(f) && v.elements == HeapElements(f, parent)
      modifies `fields, `overflowSlots, `dirty, `lastslot, `returnIndex
      ensures Valid() && Contents() == f
    {
      var elements := v.elements;
      Prepare(|elements| - HC_OVERHEAD - 1);
      returnIndex := elements[HC_RETOFFSET].value;
      var si := 0;
      while si <= lastslot
        invariant 0 <= si <= lastslot + 1 && Valid() && lastslot == |elements| - HC_OVERHEAD - 1
        invariant returnIndex == f.ret
        invariant forall k | 0 <= k < si :: GetSlot(k) == elements[k + HC_OVERHEAD]
      {
        SetSlot(si, elements[si + HC_OVERHEAD]);
        si := si + 1;
      }
      assert Contents().slots == elements[HC_OVERHEAD..];
    }
  }

  class Cont {
    var heap: SObject
    var cont: StackCacheFrame
    const ROOT: StackCacheFrame
    const LIMIT: StackCacheFrame
    const SENTINEL: StackCacheFrame

    // The ring from SENTINEL on, the position of `cont` in it, and what the frames from `cont` back
    // to ROOT hold; the vectors of the heap chain, and what they hold.
    ghost const ring: seq<StackCacheFrame>
    ghost var at: nat
    ghost var cached: seq<Frame>
    ghost var spilled: seq<SVL>
    ghost var below: seq<Frame>

    /** The frames form a ring. */
    ghost predicate Linked()
      reads ring`before, ring`after
    {
      && |ring| >= 2 && ring[0] == SENTINEL && ring[1] == ROOT && ring[|ring| - 1] == LIMIT
      && (forall i, j | 0 <= i < j < |ring| :: ring[i] != ring[j])
      && (forall i | 0 <= i < |ring| :: ring[i].after == ring[if i + 1 < |ring| then i + 1 else 0])
      && (forall i | 0 <= i < |ring| :: ring[i].before == ring[if i > 0 then i - 1 else |ring| - 1])
    }

    ghost predicate FramesValid()
      reads ring`fields, ring`overflowSlots, ring`lastslot
    {
      forall i | 0 <= i < |ring| :: ring[i].Valid()
    }

    /** The frames up to position `n` hold `fs`, newest first. */
    ghost predicate Holding(fs: seq<Frame>, n: nat)
      reads ring`fields, ring`overflowSlots, ring`lastslot, ring`returnIndex
    {
      && FramesValid() && |fs| == n < |ring|
      && (forall i | 0 <= i < n :: ring[n - i].Contents() == fs[i])
      && (forall i | 0 <= i < n :: GoodFrame(fs[i]))
    }

    ghost predicate Valid()
      reads this, ring, spilled
    {
      Linked() && 1 <= at < |ring| && ring[at] == cont && Holding(cached, at) && ChainOf(heap, spilled, below)
    }

    /** The list this cache stands for, newest frame first. */
    ghost function Stack(): seq<Frame>
      reads `cached, `below
    {
      cached + below
    }

    /** A ring of `size` frames and a sentinel. */
    static method BuildRing(size: nat)
      returns (sentinel: StackCacheFrame, root: StackCacheFrame, limit: StackCacheFrame,
          ghost frames: seq<StackCacheFrame>)
      requires 1 <= size
      ensures |frames| == size + 1 && frames[0] == sentinel && frames[1] == root && frames[size] == limit
      ensures forall j | 0 <= j < |frames| :: fresh(frames[j]) && frames[j].Valid() && frames[j].Unused()
      ensures forall j, k | 0 <= j < k < |frames| :: frames[j] != frames[k]
      ensures forall j | 0 <= j < |frames| :: frames[j].after == frames[if j + 1 < |frames| then j + 1 else 0]
      ensures forall j | 0 <= j < |frames| :: frames[j].before == frames[if j > 0 then j - 1 else |frames| - 1]
    {
      sentinel := new StackCacheFrame();
      limit := sentinel;
      frames := [sentinel];
      for i := 0 to size
        invariant |frames| == i + 1 && frames[0] == sentinel && frames[i] == limit
        invariant forall j, k | 0 <= j < k < |frames| :: frames[j] != frames[k]
        invariant forall j | 0 <= j < |frames| :: fresh(frames[j]) && frames[j].Valid() && frames[j].Unused()
        invariant forall j | 0 <= j < i :: frames[j].after == frames[j + 1] && frames[j + 1].before == frames[j]
      {
        var newframe := new StackCacheFrame();
        newframe.before := limit;
        limit.after := newframe;
        frames := frames + [newframe];
        limit := newframe;
      }
      assert frames[0].after == frames[1];
      limit.after := sentinel;
      sentinel.before := limit;
      root := sentinel.after;
    }

    /** A cache of `size` frames that holds the initial continuation `p`. */
    constructor (size: nat, p: SObject)
      requires 1 <= size && p.Procedure?
      ensures Valid() && fresh(ring) && |ring| == size + 1 && Stack() == [Frame(0, [p])] && at == 1
      ensures forall i | 2 <= i < |ring| :: ring[i].Unused()
    {
      var sentinel, root, limit;
      ghost var frames;
      sentinel, root, limit, frames := BuildRing(size);
      SENTINEL, ROOT, LIMIT, ring := sentinel, root, limit, frames;
      heap, cont, at, cached, spilled, below := False, root, 1, [Frame(0, [p])], [], [];
      new;
      cont.Begin(p);
    }

    // ---- The frames below one that changes.

    lemma HoldingPush(fs: seq<Frame>, n: nat)
      requires Holding(fs, n) && n + 1 < |ring| && GoodFrame(ring[n + 1].Contents())
      ensures Holding([ring[n + 1].Contents()] + fs, n + 1)
    {
    }

    /** No frame but the one at position `k` has changed. */
    twostate predicate OthersSame(k: nat)
      reads ring
    {
      forall i | 0 <= i < |ring| && i != k :: unchanged(ring[i])
    }

    twostate lemma OnlyNewestChanged()
      requires Linked() && at < |ring| && ring[at] == cont
      requires forall f | f in ring && f != cont :: unchanged(f)
      ensures OthersSame(at)
    {
      assert forall i | 0 <= i < |ring| && i != at :: ring[i] in ring && ring[i] != cont;
    }

    /** The oldest `n` frames of the cache. */
    ghost function Oldest(n: nat): seq<Frame>
      requires n <= |cached|
      reads `cached
    {
      cached[|cached| - n..]
    }

    /** Changing the newest frame leaves what lies below it. */
    twostate lemma BelowHolds()
      requires 1 <= at < |ring| && at == old(at) <= 1 + old(|cached|) && old(Holding(Oldest(at - 1), at - 1))
      requires ring[at].Valid() && OthersSame(at)
      ensures Holding(old(Oldest(at - 1)), at - 1)
    {
    }

    twostate lemma NewestChanged()
      requires 1 <= at < |ring| && at == old(at) <= 1 + old(|cached|) && old(Holding(Oldest(at - 1), at - 1))
      requires ring[at].Valid() && OthersSame(at) && GoodFrame(ring[at].Contents())
      ensures Holding([ring[at].Contents()] + old(Oldest(at - 1)), at)
    {
      BelowHolds();
      HoldingPush(old(Oldest(at - 1)), at - 1);
    }

    lemma HoldingPop(fs: seq<Frame>, n: nat)
      requires Holding(fs, n) && 0 < n
      ensures fs[0] == ring[n].Contents() && GoodFrame(fs[0]) && Holding(fs[1..], n - 1)
    {
      forall i | 0 <= i < n - 1 ensures ring[n - 1 - i].Contents() == fs[1..][i] {
        assert ring[n - (i + 1)].Contents() == fs[i + 1];
      }
    }

    lemma Parts()
      ensures Valid() <==>
                Linked() && 1 <= at < |ring| && ring[at] == cont && Holding(cached, at) && ChainOf(heap, spilled, below)
      ensures Stack() == cached + below
      ensures Oldest(|cached|) == cached && (cached != [] ==> Oldest(|cached| - 1) == cached[1..])
    {
    }

    /** The newest frame is what `cont` holds. */
    lemma Newest()
      requires Valid()
      ensures cont.Valid() && cont.Contents() == cached[0] == Stack()[0] && GoodFrame(cached[0])
      ensures FramesValid() && cached[0].slots != [] && cached[0].slots[0].Procedure?
      ensures 0 < cont.Capacity() && cont.GetSlot(0) == cached[0].slots[0]
      ensures Holding(cached[1..], at - 1) && Stack() == [cached[0]] + (cached[1..] + below) && |cached| == at
    {
      hide ChainOf, Linked;
      HoldingPop(cached, at);
    }

    lemma Positions(i: nat, j: nat)
      requires Linked() && i < |ring| && j < |ring|
      ensures ring[i] == ring[j] <==> i == j
      ensures ring[i].after == ring[if i + 1 < |ring| then i + 1 else 0]
    {
    }

    lemma Distinct()
      requires Linked()
      ensures forall i, j | 0 <= i < j < |ring| :: ring[i] != ring[j]
    {
    }

    lemma Corners()
      requires Linked()
      ensures |ring| >= 2 && ring[0] == SENTINEL && ring[1] == ROOT && ring[|ring| - 1] == LIMIT
    {
    }

    /** The cache holds one frame, in ROOT. */
    lemma OneFrame()
      requires FramesValid() && |ring| >= 2 && GoodFrame(ring[1].Contents())
      ensures Holding([ring[1].Contents()], 1)
    {
    }

    twostate lemma FramesStillValid()
      requires old(FramesValid()) && cont.Valid()
      requires forall f | f in ring && f != cont :: unchanged(f)
      ensures FramesValid()
    {
      assert forall i | 0 <= i < |ring| :: ring[i] in ring;
    }

    lemma EveryFrame(i: nat)
      requires FramesValid() && i < |ring|
      ensures ring[i].Valid() && ring[i] in ring
    {
    }

    static lemma ChainEnds()
      ensures ChainOf(False, [], [])
    {
    }

    static lemma ChainKinds(h: SObject, vs: seq<SVL>, fs: seq<Frame>)
      requires ChainOf(h, vs, fs)
      ensures h.Vector? <==> fs != []
    {
    }

    /** Install the initial continuation `p`. */
    method Reset(p: SObject)
      requires Valid() && p.Procedure?
      modifies this, ring`fields, ring`overflowSlots, ring`lastslot, ring`returnIndex, ring`dirty
      ensures Valid() && Stack() == [Frame(0, [p])]
    {
      hide *;
      Parts();
      Newest();
      Corners();
      EveryFrame(1);
      heap, spilled, below, cont, at := False, [], [], ROOT, 1;
      cont.Begin(p);
      FramesStillValid();
      OneFrame();
      cached := [cont.Contents()];
      ChainEnds();
      Parts();
    }

    /** Frame number `k` is not marked dirty, and `nothing` says whether its unused slots hold no object. */
    ghost predicate IsClear(k: nat, nothing: bool)
      requires k < |ring|
      reads ring[k]
    {
      ring[k].Valid() && !ring[k].dirty && ring[k].NothingHeld() == nothing
    }

    /** Clearing frame number `k` leaves it with no object in an unused slot. */
    ghost predicate WillBeClear(k: nat)
      requires k < |ring|
      reads ring[k]
    {
      ring[k].Valid() && (ring[k].dirty || ring[k].NothingHeld())
    }

    /** Forget what unused slots hold, in every frame but the sentinel that is marked dirty. */
    method Clear()
      requires Valid()
      modifies ring`fields, ring`overflowSlots, ring`dirty
      ensures Valid() && Stack() == old(Stack())
      ensures unchanged(SENTINEL) && forall k | 1 <= k < |ring| :: IsClear(k, old(WillBeClear(k)))
      ensures forall k | 1 <= k < |ring| && !old(ring[k].dirty) ::
                ring[k].fields == old(ring[k].fields) && ring[k].overflowSlots == old(ring[k].overflowSlots)
    {
      hide *;
      Parts();
      Corners();
      Distinct();
      var frame := ROOT;
      ghost var i := 1;
      while frame != SENTINEL
        invariant 1 <= i <= |ring| && frame == ring[if i < |ring| then i else 0]
        invariant Valid() && Linked() && Stack() == old(Stack())
        invariant forall k | 0 <= k < |ring| && !(1 <= k < i) :: unchanged(ring[k])
        invariant forall k | 1 <= k < i :: IsClear(k, old(WillBeClear(k)))
        invariant forall k | 1 <= k < |ring| && !old(ring[k].dirty) ::
                    ring[k].fields == old(ring[k].fields) && ring[k].overflowSlots == old(ring[k].overflowSlots)
        decreases |ring| - i
      {
        Positions(i, 0);
        ClearFrame(frame, i);
        Parts();
        frame := frame.after;
        i := i + 1;
      }
    }

    method ClearFrame(frame: StackCacheFrame, ghost i: nat)
      requires Valid() && i < |ring| && ring[i] == frame
      modifies frame`fields, frame`overflowSlots, frame`dirty
      ensures Valid() && Stack() == old(Stack()) && IsClear(i, old(WillBeClear(i)))
      ensures !old(frame.dirty) ==> frame.fields == old(frame.fields) && frame.overflowSlots == old(frame.overflowSlots)
    {
      hide ChainOf, Linked, StackCacheFrame.Contents, StackCacheFrame.Capacity, StackCacheFrame.NothingHeld;
      Frames(cached, at, i);
      frame.Clear();
      assert forall k | 0 <= k < |ring| :: ring[k].Valid() && ring[k].Contents() == old(ring[k].Contents());
    }

    lemma Frames(fs: seq<Frame>, n: nat, i: nat)
      requires Holding(fs, n) && i < |ring|
      ensures ring[i].Valid() && |fs| == n
    {
    }

    /** All frames, as a heap chain: a new vector for each frame in the cache, and behind them the
        vectors that were there. */
    method CopyOutStack() returns (h: SObject, ghost vs: seq<SVL>)
      requires Valid()
      ensures ChainOf(h, vs, Stack())
      ensures |vs| == at + |spilled| && vs[at..] == spilled && forall j | 0 <= j < at :: fresh(vs[j])
    {
      hide *;
      Parts();
      HoldingFrames(cached, at);
      h := heap;
      var f: StackCacheFrame := ROOT;
      ghost var i, news: seq<SVL> := 1, [];
      Reached(1);
      NothingCopied();
      while f != cont.after
        invariant 1 <= i <= at + 1 && Here(f, i) && (f == cont.after <==> i == at + 1)
        invariant |news| == i - 1 && ChainOf(h, news + spilled, cached[at + 1 - i..] + below)
        invariant forall v | v in news :: fresh(v)
        decreases at + 1 - i
      {
        var v := CopyFrame(f, h, i, news);
        news := [v] + news;
        h := Vector(v);
        FrameHere(f, i);
        f := f.after;
        i := i + 1;
        Reached(i);
      }
      vs := news + spilled;
      assert vs[at..] == spilled && forall j | 0 <= j < at :: vs[j] == news[j] && news[j] in news;
      AllCopied();
    }

    lemma NothingCopied()
      requires Valid()
      ensures |cached| == at && ChainOf(heap, [] + spilled, cached[at..] + below)
    {
      hide *;
      Parts();
      HoldingFrames(cached, at);
      assert [] + spilled == spilled && cached[at..] + below == below;
    }

    lemma AllCopied()
      requires Valid()
      ensures cached[0..] + below == Stack()
    {
    }

    /** A new vector for the frame `f` at position `i`, in front of the vectors `news` made so far. */
    method CopyFrame(f: StackCacheFrame, h: SObject, ghost i: nat, ghost news: seq<SVL>) returns (v: SVL)
      requires Valid() && 1 <= i <= at == |cached| && Here(f, i)
      requires ChainOf(h, news + spilled, cached[at + 1 - i..] + below)
      ensures fresh(v) && ChainOf(Vector(v), ([v] + news) + spilled, cached[at - i..] + below)
    {
      hide *;
      FrameHere(f, i);
      v := f.ToVector(h);
      ToHeapChains(v, f.Contents(), h, news + spilled, cached[at + 1 - i..] + below);
      assert [v] + (news + spilled) == ([v] + news) + spilled;
      assert [f.Contents()] + (cached[at + 1 - i..] + below) == cached[at - i..] + below;
    }

    /** `f` is the frame at position `i`, counted around the ring. */
    ghost predicate Here(f: StackCacheFrame, i: nat) {
      i <= |ring| && |ring| > 0 && f == ring[if i < |ring| then i else 0]
    }

    /** The frame at position `at` + 1 is the one after `cont`, and no frame before it is. */
    lemma Reached(i: nat)
      requires Linked() && 1 <= at < |ring| && ring[at] == cont && 1 <= i <= at + 1
      ensures i == 1 ==> Here(ROOT, 1)
      ensures forall f: StackCacheFrame | Here(f, i) :: f == cont.after <==> i == at + 1
    {
      assert ring[at].after == ring[if at + 1 < |ring| then at + 1 else 0];
    }

    lemma FrameHere(f: StackCacheFrame, i: nat)
      requires Valid() && 1 <= i <= at && Here(f, i)
      ensures f.Valid() && f.Contents() == cached[at - i] && GoodFrame(f.Contents()) && |cached| == at
      ensures [cached[at - i]] + cached[at + 1 - i..] == cached[at - i..]
      ensures f.after != null && Here(f.after, i + 1)
    {
      CachedAt(i);
      assert ring[i].after == ring[if i + 1 < |ring| then i + 1 else 0];
    }

    lemma CachedAt(i: nat)
      requires Valid() && 1 <= i <= at
      ensures ring[i].Valid() && ring[i].Contents() == cached[at - i] && GoodFrame(cached[at - i])
      ensures cached[at - i..] == [cached[at - i]] + cached[at + 1 - i..]
    {
      assert ring[at - (at - i)] == ring[i];
    }

    /** Write all frames out to the heap and go back to the sentinel. */
    method Flush()
      requires Valid()
      modifies `heap, `cont, `at, `cached, `spilled, `below
      ensures cont == SENTINEL && at == 0 && cached == [] && Stack() == old(Stack())
      ensures ChainOf(heap, spilled, below) && Holding([], 0)
    {
      hide *;
      Parts();
      HoldingFrames(cached, at);
      Corners();
      ghost var fs, vs := Stack(), [];
      heap, vs := CopyOutStack();
      cont, at, cached, spilled, below := SENTINEL, 0, [], vs, fs;
      HoldingNothing();
      Parts();
    }

    lemma Settle()
      requires Valid()
      ensures LIMIT.Valid() && 1 <= at < |ring| && ring[|ring| - 1] == LIMIT && LIMIT in ring
      ensures cont == ring[at] && (cont == LIMIT <==> at == |ring| - 1) && Stack() != []
    {
    }

    lemma HoldingNothing()
      requires FramesValid() && |ring| > 0
      ensures Holding([], 0)
    {
    }

    /** Move to the next frame of the ring; if there is none, flush the ring first. */
    method NextFrame()
      requires Valid()
      modifies `heap, `cont, `at, `cached, `spilled, `below
      ensures 1 <= at < |ring| && ring[at] == cont && ChainOf(heap, spilled, below)
      ensures Holding(cached, at - 1) && Stack() == old(Stack())
      ensures at == if old(cont) == LIMIT then 1 else old(at) + 1
    {
      hide *;
      Parts();
      Corners();
      Positions(at, |ring| - 1);
      Positions(0, 1);
      if cont == LIMIT {
        Flush();
      }
      cont := cont.after;
      at := at + 1;
      Parts();
    }

    /** Set up the frame that `cont` has moved to. */
    method Claim(last: nat, p: SObject, small: bool)
      requires Linked() && 1 <= at < |ring| && ring[at] == cont && ChainOf(heap, spilled, below)
               && Holding(cached, at - 1)
      requires p.Procedure? && (small ==> last < NUM_SLOT_FIELDS)
      modifies `cached, cont`fields, cont`overflowSlots, cont`lastslot, cont`dirty
      ensures Valid() && |Stack()| == 1 + |old(Stack())| && Stack()[1..] == old(Stack())
      ensures |Stack()[0].slots| == last + 1 && Stack()[0].slots[0] == p && cont.lastslot == last < cont.Capacity()
      ensures cont.dirty ==
              ((small || last < old(cont.Capacity())) && (old(cont.lastslot) != last || old(cont.dirty)))
    {
      hide *;
      Frames(cached, at - 1, at);
      Parts();
      if small {
        cont.PrepareSmall(last);
      } else {
        cont.Prepare(last);
      }
      cont.SetSlot(0, p);
      OnlyNewestChanged();
      NewestChanged();
      cached := [cont.Contents()] + cached;
      Parts();
    }

    /** Push a frame with slots 0 to `last`; the first holds `p`, the others are undefined. */
    method Save(last: nat, p: SObject)
      requires Valid() && p.Procedure?
      modifies this, ring`fields, ring`overflowSlots, ring`lastslot, ring`dirty
      ensures Valid() && |Stack()| == 1 + |old(Stack())| && Stack()[1..] == old(Stack())
      ensures |Stack()[0].slots| == last + 1 && Stack()[0].slots[0] == p
      ensures at == (if old(cont) == LIMIT then 1 else old(at) + 1) && cont.lastslot == last < cont.Capacity()
      ensures var f := cont;
              f.dirty == (last < old(f.Capacity()) && (old(f.lastslot) != last || old(f.dirty)))
    {
      NextFrame();
      Claim(last, p, false);
    }

    /** As `Save`, for frames that need no overflow slots. */
    method SaveSmall(last: nat, p: SObject)
      requires Valid() && p.Procedure? && last < NUM_SLOT_FIELDS
      modifies this, ring`fields, ring`overflowSlots, ring`lastslot, ring`dirty
      ensures Valid() && |Stack()| == 1 + |old(Stack())| && Stack()[1..] == old(Stack())
      ensures |Stack()[0].slots| == last + 1 && Stack()[0].slots[0] == p
      ensures at == (if old(cont) == LIMIT then 1 else old(at) + 1) && cont.lastslot == last
      ensures var f := cont;
              f.dirty == (old(f.lastslot) != last || old(f.dirty))
    {
      NextFrame();
      Claim(last, p, true);
    }

    /** Take the next frame from the heap chain.  Fails if what the cache has instead of a chain is
        not a vector. */
    method FillCache() returns (ok: bool)
      requires Linked() && FramesValid() && (heap.Vector? ==> ChainOf(heap, spilled, below))
      modifies this, ring`fields, ring`overflowSlots, ring`lastslot, ring`returnIndex, ring`dirty
      ensures ok == old(heap).Vector?
      ensures ok ==> Valid() && Stack() == old(below)
      ensures !ok ==> heap == old(heap)
    {
      hide *;
      Corners();
      EveryFrame(1);
      cont, at := ROOT, 1;
      ok := heap.Vector?;
      if ok {
        ChainStep(heap, spilled, below);
        var v := heap.svl;
        heap := v.elements[HC_DYNLINK];
        ghost var f := below[0];
        spilled, below := spilled[1..], below[1..];
        cont.FillFromVector(v, f, heap);
        FramesStillValid();
        OneFrame();
        cached := [cont.Contents()];
        Parts();
      }
    }

    /** The newest frame has slots 0 to `last` and belongs to `p`. */
    method CheckPop(last: nat, p: SObject) returns (ok: bool)
      requires Valid() && p.Procedure?
      ensures ok == (|Stack()[0].slots| == last + 1 && Stack()[0].slots[0] == p)
    {
      Newest();
      ok := cont.lastslot == last && cont.GetSlot(0).entry == p.entry;
    }

    /** Pop the newest frame.  Fails exactly when it is the last one. */
    method Pop() returns (ok: bool)
      requires Valid()
      modifies this, ring`fields, ring`overflowSlots, ring`lastslot, ring`returnIndex, ring`dirty
      ensures ok == (|old(Stack())| > 1)
      ensures ok ==> Valid() && Stack() == old(Stack())[1..]
      ensures old(at) > 1 ==> at == old(at) - 1 && old(cont).lastslot == 0 && forall f | f in ring ::
                f.fields == old(f.fields) && f.overflowSlots == old(f.overflowSlots) && f.dirty == old(f.dirty)
    {
      hide *;
      Newest();
      Parts();
      Corners();
      StepBack();
      cont.Drop();
      OnlyNewestChanged();
      BelowHolds();
      cont, at, cached := cont.before, at - 1, cached[1..];
      ok := true;
      if cont == SENTINEL {
        HoldingFrames(cached, at);
        ChainKinds(heap, spilled, below);
        ok := FillCache();
      } else {
        Parts();
      }
    }

    lemma StepBack()
      requires Linked() && 1 <= at < |ring| && ring[at] == cont
      ensures cont.before == ring[at - 1] && (ring[at - 1] == SENTINEL <==> at == 1)
    {
    }

    lemma HoldingFrames(fs: seq<Frame>, n: nat)
      requires Holding(fs, n)
      ensures FramesValid() && |fs| == n
    {
    }

    /** The current continuation, as a heap chain.  Vectors that already exist are not changed. */
    method GetCC() returns (k: SObject, ghost vs: seq<SVL>)
      requires Valid()
      ensures ChainOf(k, vs, Stack())
    {
      k, vs := CopyOutStack();
    }

    /** Install `k`, which is a continuation or no vector at all.  Its vectors are not changed. */
    method SetCC(k: SObject, ghost vs: seq<SVL>, ghost fs: seq<Frame>) returns (ok: bool)
      requires Linked() && FramesValid() && (k.Vector? ==> ChainOf(k, vs, fs))
      modifies this, ring`fields, ring`overflowSlots, ring`lastslot, ring`returnIndex, ring`dirty
      ensures ok == k.Vector?
      ensures ok ==> Valid() && Stack() == fs
    {
      heap, spilled, below := k, vs, fs;
      ok := FillCache();
    }

    /** Store into a slot of the newest frame. */
    method Store(slot: nat, value: SObject)
      requires Valid() && slot < cont.Capacity() && (slot == 0 ==> value.Procedure?)
      modifies `cached, ring`fields, ring`overflowSlots
      ensures Valid() && |Stack()| == |old(Stack())| && Stack()[1..] == old(Stack())[1..]
      ensures Stack()[0] == if slot < |old(Stack())[0].slots| then
                              old(Stack())[0].(slots := old(Stack())[0].slots[slot := value])
                            else old(Stack())[0]
      ensures cont.Valid() && cont.Capacity() == old(cont.Capacity()) && cont.GetSlot(slot) == value
    {
      hide *;
      Newest();
      Parts();
      cont.SetSlot(slot, value);
      OnlyNewestChanged();
      NewestChanged();
      cached := [cont.Contents()] + cached[1..];
      Parts();
    }

    /** Save a context in the newest frame. */
    method SaveRegisters(restore: SObject, index: Label, reg: seq<SObject>, result: SObject, full: bool)
      requires Valid() && |Stack()[0].slots| == NREGS + 3 && |reg| == NREGS && restore.Procedure?
      modifies `cached, ring`fields, ring`overflowSlots, ring`returnIndex
      ensures Valid() && Stack() == old(Stack())[0 := ContextFrame(restore, index, reg, result, full)]
    {
      hide *;
      Newest();
      Parts();
      cont.SaveRegisters(restore, index, reg, result, full);
      ContextIsGood(restore, index, reg, result, full);
      OnlyNewestChanged();
      NewestChanged();
      cached := [cont.Contents()] + cached[1..];
      Parts();
      assert Stack() == old(Stack())[0 := cont.Contents()];
    }

    static lemma ContextIsGood(restore: SObject, index: Label, reg: seq<SObject>, result: SObject, full: bool)
      requires restore.Procedure?
      ensures GoodFrame(ContextFrame(restore, index, reg, result, full))
    {
    }

    method Load(slot: nat) returns (value: SObject)
      requires Valid() && slot < |Stack()[0].slots|
      ensures value == Stack()[0].slots[slot]
    {
      Newest();
      value := cont.GetSlot(slot);
    }

    /** Set the return point of the newest frame.  Fails if `code` is not what that frame returns
        to. */
    method SetReturn(code: nat, index: Label) returns (ok: bool)
      requires Valid()
      modifies `cached, ring`returnIndex
      ensures Valid() && ok == (Stack()[0].slots[0] == Procedure(code))
      ensures Stack() == if ok then old(Stack())[0 := old(Stack())[0].(ret := index)] else old(Stack())
    {
      hide *;
      Newest();
      Parts();
      ok := code == cont.GetSlot(0).entry;
      if ok {
        cont.SetReturnIndex(index);
        OnlyNewestChanged();
        NewestChanged();
        cached := [cont.Contents()] + cached[1..];
        Parts();
        assert Stack() == old(Stack())[0 := cont.Contents()];
      }
    }

    /** Where the newest frame returns to. */
    method ReturnAddress() returns (entry: nat, index: Label)
      requires Valid()
      ensures Stack()[0].slots[0] == Procedure(entry) && index == Stack()[0].ret
    {
      Newest();
      entry, index := cont.GetSlot(0).entry, cont.returnIndex;
    }
  }

  /** A frame with an overflow slot that holds `value`; it was never used before, and so is not
      marked dirty. */
  method PushedFrame(p: SObject, value: SObject) returns (c: Cont)
    requires p.Procedure?
    ensures fresh(c) && fresh(c.ring) && c.Valid() && c.cont == c.LIMIT && c.at == 2 && |c.ring| == 3
    ensures c.Stack()[1..] == [Frame(0, [p])]
    ensures !c.cont.dirty && c.cont.Valid() && NUM_SLOT_FIELDS < c.cont.Capacity()
    ensures c.cont.GetSlot(NUM_SLOT_FIELDS) == value
  {
    c := new Cont(2, p);
    hide *;
    c.Settle();
    c.Save(NUM_SLOT_FIELDS, p);
    c.Settle();
    c.Store(NUM_SLOT_FIELDS, value);
    assert c.cont == c.ring[2];
  }

  /** The frame is popped and the cache is cleared; the object is still there. */
  method PoppedFrameHolds(p: SObject, value: SObject) returns (c: Cont, held: SObject)
    requires p.Procedure?
    ensures fresh(c) && c.Valid() && c.Stack() == [Frame(0, [p])]
    ensures c.LIMIT != c.cont && c.LIMIT.Valid() && NUM_SLOT_FIELDS < c.LIMIT.Capacity()
    ensures c.LIMIT.GetSlot(NUM_SLOT_FIELDS) == held == value && c.LIMIT.lastslot == 0
    ensures forall k | 1 <= k < |c.ring| :: c.ring[k].Valid() && !c.ring[k].dirty
  {
    hide Cont.Valid, Cont.Stack, StackCacheFrame.NothingHeld;
    c := PushedFrame(p, value);
    c.Settle();
    ghost var stack := c.Stack();
    assert stack == [stack[0]] + stack[1..];
    var _ := c.Pop();
    c.Settle();
    label Before:
    c.Clear();
    forall k | 1 <= k < |c.ring| ensures c.ring[k].Valid() && !c.ring[k].dirty {
      assert c.IsClear(k, old@Before(c.WillBeClear(k)));
    }
    c.Settle();
    held := c.LIMIT.GetSlot(NUM_SLOT_FIELDS);
  }
}
