/** The write barrier: stores that create pointers between generations are entered into store buffers,
    which are emptied into the remembered set when one of them is full. */
module StoreBuffers {

  datatype Slot = Immediate | Pointer(target: nat)

  /** An object and the generation its page belongs to. */
  datatype Object = Object(gen: nat, slots: seq<Slot>)

  type Objects = map<nat, Object>

  /** Which stores matter, and which buffer an entry goes to. */
  datatype Policy =
    | OlderHolder                                               // buffer of the holder's generation
    | Filtered(genOrder: bool, rhsNum: int, lhsNum: int)        // buffer of the target's generation

  /** A pointer from generation `gl` into generation `gr` has to be remembered. */
  predicate MustRecord(p: Policy, gl: nat, gr: nat) {
    match p
    case OlderHolder => gl > gr
    case Filtered(genOrder, rhsNum, lhsNum) =>
      gl != gr && (genOrder ==> gl > gr) && gr != rhsNum && gl != lhsNum
  }

  /** With `n` generations, the filters of the other policy let every pointer from an older to a younger
      generation pass: the generation they let no pointer into is none, or the oldest, and the one they
      let no pointer out of is none, or the youngest. */
  predicate PassesOlder(p: Policy, n: nat) {
    match p
    case OlderHolder => true
    case Filtered(_, rhsNum, lhsNum) => (rhsNum < 0 || rhsNum >= n - 1) && (lhsNum <= 0 || lhsNum >= n)
  }

  /** Every pointer from an older to a younger generation has to be remembered if and only if the filters
      let all of them pass. */
  lemma PassesOlderExactly(p: Policy, n: nat)
    ensures (forall gl: nat, gr: nat | gr < gl < n :: MustRecord(p, gl, gr)) <==> PassesOlder(p, n)
  {
    if p.Filtered? && 0 <= p.rhsNum < n - 1 {
      assert !MustRecord(p, p.rhsNum + 1, p.rhsNum);
    } else if p.Filtered? && 0 < p.lhsNum < n {
      assert !MustRecord(p, p.lhsNum, 0);
    }
  }

  /** With the generation-order filter on, both policies remember the same pointers exactly then. */
  lemma PoliciesAgree(n: nat, rhsNum: int, lhsNum: int)
    ensures (forall gl: nat, gr: nat | gl < n && gr < n ::
               MustRecord(Filtered(true, rhsNum, lhsNum), gl, gr) <==> MustRecord(OlderHolder, gl, gr))
            <==> PassesOlder(Filtered(true, rhsNum, lhsNum), n)
  {
    var p := Filtered(true, rhsNum, lhsNum);
    PassesOlderExactly(p, n);
    if !PassesOlder(p, n) {
      var gl: nat, gr: nat :| gr < gl < n && !MustRecord(p, gl, gr);
      assert MustRecord(OlderHolder, gl, gr);
    }
  }

  /** No pointer out of the youngest generation has to be remembered. */
  predicate IgnoresYoungest(p: Policy) {
    match p
    case OlderHolder => true
    case Filtered(genOrder, _, lhsNum) => genOrder || lhsNum == 0
  }

  lemma IgnoresYoungestExactly(p: Policy)
    ensures IgnoresYoungest(p) <==> forall gr: nat :: !MustRecord(p, 0, gr)
  {
    if !IgnoresYoungest(p) {
      assert MustRecord(p, 0, if p.rhsNum == 1 then 2 else 1);
    }
  }

  /** What a store enters: the holder, and the offset of the slot. */
  datatype Entry = Entry(holder: nat, offset: nat)

  class Barrier {
    const policy: Policy
    const twoWords: bool          // entries carry the offset of the slot
    const generations: nat
    const ssb: seq<array<nat>>    // a buffer for each generation, and perhaps for an extra remembered set
    var top: seq<nat>
    var enabled: bool
    var heap: Objects
    var remembered: seq<set<nat>> // what each buffer was emptied into
    ghost var entered: seq<seq<Entry>>

    /** Where entry number `k` of a buffer lies. */
    function At(k: nat): nat {
      if twoWords then 2 * k else k
    }

    /** Buffer `g` holds what was entered. */
    ghost predicate Holds(g: nat)
      requires g < |ssb| == |top| == |entered|
      reads `top, `entered, ssb[g]
    {
      && top[g] == At(|entered[g]|) <= ssb[g].Length
      && forall k | 0 <= k < |entered[g]| ::
           ssb[g][At(k)] == entered[g][k].holder && (twoWords ==> ssb[g][At(k) + 1] == entered[g][k].offset)
    }

    /** Buffer `g` has room for one more entry. */
    ghost predicate HasRoom(g: nat)
      requires g < |ssb| == |top|
      reads `top
    {
      top[g] + At(1) <= ssb[g].Length
    }

    ghost predicate Valid()
      reads this, ssb
    {
      && |top| == |ssb| == |entered| == |remembered| && generations <= |ssb|
      && (forall g, h | 0 <= g < h < |ssb| :: ssb[g] != ssb[h])
      && (forall g | 0 <= g < |ssb| :: Holds(g) && HasRoom(g))
      && (forall a | a in heap :: heap[a].gen < generations)
    }

    /** `a` is in buffer `g`, or in what that was emptied into. */
    ghost predicate EnteredIn(a: nat, g: nat)
      reads `entered, `remembered
    {
      && g < |entered| && g < |remembered|
      && (a in remembered[g] || exists e :: e in entered[g] && e.holder == a)
    }

    /** Every pointer out of generation `from` or an older one that has to be remembered has its holder
        entered for the holder's generation, or for the target's, as the policy has it. */
    ghost predicate Recorded(from: nat)
      reads `heap, `entered, `remembered
    {
      forall a, i | a in heap && 0 <= i < |heap[a].slots| && heap[a].slots[i].Pointer?
          && heap[a].slots[i].target in heap && heap[a].gen >= from
                    && MustRecord(policy, heap[a].gen, heap[heap[a].slots[i].target].gen) ::
        EnteredIn(a, if policy.OlderHolder? then heap[a].gen else heap[heap[a].slots[i].target].gen)
    }

    /** Every pointer from an older to a younger generation has a holder that is entered. */
    ghost predicate OlderCovered()
      reads `heap, `entered, `remembered
    {
      forall a, i | a in heap && 0 <= i < |heap[a].slots| && heap[a].slots[i].Pointer?
          && heap[a].slots[i].target in heap
                    && heap[a].gen > heap[heap[a].slots[i].target].gen ::
        EnteredIn(a, if policy.OlderHolder? then heap[a].gen else heap[heap[a].slots[i].target].gen)
    }

    /** The invariant of generational collection. */
    lemma PassedIsCovered()
      requires Valid() && Recorded(1) && PassesOlder(policy, generations)
      ensures OlderCovered()
    {
      hide EnteredIn;
      PassesOlderExactly(policy, generations);
    }

    constructor (policy: Policy, twoWords: bool, generations: nat, buffers: seq<array<nat>>)
      requires generations <= |buffers|
      requires forall g, h | 0 <= g < h < |buffers| :: buffers[g] != buffers[h]
      requires forall g | 0 <= g < |buffers| :: buffers[g].Length >= if twoWords then 2 else 1
      ensures Valid() && Recorded(0) && heap == map[] && enabled && this.policy == policy && ssb == buffers
      ensures this.generations == generations && this.twoWords == twoWords
    {
      this.policy, this.twoWords, this.generations, ssb := policy, twoWords, generations, buffers;
      top := seq(|buffers|, _ => 0);
      enabled, heap, remembered := true, map[], seq(|buffers|, _ => {});
      entered := seq(|buffers|, _ => []);
    }

    /** Empty all buffers. */
    method CompactAll()
      requires |top| == |ssb| == |entered| == |remembered|
      requires forall g | 0 <= g < |ssb| :: Holds(g) && ssb[g].Length >= At(1)
      modifies `top, `remembered, `entered
      ensures |top| == |entered| == |remembered| == |ssb| && (forall g | 0 <= g < |ssb| :: Holds(g) && HasRoom(g))
      ensures forall a, g :: EnteredIn(a, g) <==> old(EnteredIn(a, g))
      ensures forall g | 0 <= g < |entered| :: entered[g] == []
    {
      var g := 0;
      while g < |ssb|
        invariant 0 <= g <= |ssb| == |top| == |entered| == |remembered|
        invariant forall h | 0 <= h < g :: top[h] == 0 && entered[h] == []
        invariant forall h | g <= h < |ssb| :: top[h] == old(top[h]) && entered[h] == old(entered[h]) && Holds(h)
        invariant forall a, h :: EnteredIn(a, h) <==> old(EnteredIn(a, h))
      {
        ProcessBuffer(g);
        g := g + 1;
      }
    }

    /** Move the holders in buffer `g` into the set that belongs to it. */
    method ProcessBuffer(g: nat)
      requires g < |ssb| == |top| == |entered| == |remembered| && Holds(g)
      modifies `top, `remembered, `entered
      ensures top == old(top)[g := 0] && entered == old(entered)[g := []] && |remembered| == |old(remembered)|
      ensures forall a, h :: EnteredIn(a, h) <==> old(EnteredIn(a, h))
    {
      ghost var k := 0;
      var p, moved := 0, {};
      while p < top[g]
        invariant top == old(top) && entered == old(entered) && k <= |entered[g]| && p == At(k)
        invariant forall a :: a in moved <==> exists i :: 0 <= i < k && entered[g][i].holder == a
        decreases top[g] - p
      {
        moved := moved + {ssb[g][p]};
        p := p + if twoWords then 2 else 1;
        k := k + 1;
      }
      remembered := remembered[g := remembered[g] + moved];
      top := top[g := 0];
      entered := entered[g := []];
    }

    /** Enter `a`, and the offset of one of its slots, in buffer `g`. */
    method Enqueue(g: nat, a: nat, offset: nat)
      requires Valid() && g < |ssb|
      modifies `top, `remembered, `entered, ssb[g]
      ensures Valid() && forall b, h :: EnteredIn(b, h) <==> (b == a && h == g) || old(EnteredIn(b, h))
      ensures |entered| == |ssb|
      ensures if old(top[g]) + 2 * At(1) <= ssb[g].Length then
                entered == old(entered)[g := old(entered[g]) + [Entry(a, offset)]] && remembered == old(remembered)
              else
                forall h | 0 <= h < |ssb| :: entered[h] == []
    {
      assert Holds(g);
      ssb[g][top[g]] := a;
      if twoWords {
        ssb[g][top[g] + 1] := offset;
        top := top[g := top[g] + 2];
      } else {
        top := top[g := top[g] + 1];
      }
      entered := entered[g := entered[g] + [Entry(a, offset)]];
      EnteredMore(old(entered), g, Entry(a, offset), old(remembered));
      forall h | 0 <= h < |ssb| ensures Holds(h) && (h != g ==> HasRoom(h)) && ssb[h].Length >= At(1) {
        assert old(Holds(h)) && old(HasRoom(h));
      }
      if (if twoWords then top[g] + 1 >= ssb[g].Length else top[g] == ssb[g].Length) {
        CompactAll();
      }
    }

    lemma EnteredMore(before: seq<seq<Entry>>, g: nat, e: Entry, r: seq<set<nat>>)
      requires g < |before| == |r| && entered == before[g := before[g] + [e]] && r == remembered
      ensures forall b, h: nat ::
                EnteredIn(b, h) <==>
                (b == e.holder && h == g)
                || (h < |before| && (b in r[h] || exists x :: x in before[h] && x.holder == b))
    {
      assert e in entered[g];
      assert forall x | x in before[g] :: x in entered[g];
      assert forall x | x in entered[g] :: x == e || x in before[g];
    }

    /** After a store of a pointer to `rhs` into slot `offset` of `lhs`. */
    method PartialBarrier(lhs: nat, rhs: nat, offset: nat)
      requires Valid() && lhs in heap && rhs in heap
      modifies `top, `remembered, `entered, ssb
      ensures Valid()
      ensures forall b, g ::
                EnteredIn(b, g) <==>
                old(EnteredIn(b, g))
                || (enabled && MustRecord(policy, heap[lhs].gen, heap[rhs].gen) && b == lhs
                    && g == if policy.OlderHolder? then heap[lhs].gen else heap[rhs].gen)
    {
      if !enabled {
        return;
      }
      var gl, gr := heap[lhs].gen, heap[rhs].gen;
      match policy {
        case OlderHolder =>
          if gl <= gr {
            return;
          }
          Enqueue(gl, lhs, offset);
        case Filtered(genOrder, rhsNum, lhsNum) =>
          if gl == gr {
            return;
          }
          if genOrder && gl <= gr {
            return;
          }
          if rhsNum == gr {
            return;
          }
          if lhsNum == gl {
            return;
          }
          Enqueue(gr, lhs, offset);
      }
    }

    /** A store by the mutator, followed by the barrier. */
    method Store(lhs: nat, i: nat, x: Slot)
      requires Valid() && enabled && lhs in heap && i < |heap[lhs].slots|
      modifies `heap, `top, `remembered, `entered, ssb
      ensures Valid() && forall b, g | EnteredIn(b, g) && b != lhs :: old(EnteredIn(b, g))
      ensures forall from | old(Recorded(from)) :: Recorded(from)
      ensures heap == old(heap)[lhs := Object(old(heap)[lhs].gen, old(heap)[lhs].slots[i := x])]
    {
      hide EnteredIn;
      heap := heap[lhs := Object(heap[lhs].gen, heap[lhs].slots[i := x])];
      if x.Pointer? && x.target in heap {
        PartialBarrier(lhs, x.target, i);
      }
    }

    /** A new object in the youngest generation, which the barrier does not see. */
    method Allocate(a: nat, slots: seq<Slot>)
      requires Valid() && a !in heap && generations > 0
      requires forall b, i | b in heap && 0 <= i < |heap[b].slots| && heap[b].slots[i].Pointer? ::
               heap[b].slots[i].target != a
      modifies `heap
      ensures Valid() && heap == old(heap)[a := Object(0, slots)]
      ensures forall from | old(Recorded(from)) && (from > 0 || IgnoresYoungest(policy)) :: Recorded(from)
    {
      heap := heap[a := Object(0, slots)];
    }
  }

  datatype Step = DoStore(lhs: nat, i: nat, x: Slot) | DoAllocate(a: nat, slots: seq<Slot>)

  /** Memory after a step; a step that does not apply does nothing. */
  function After(heap: Objects, step: Step): Objects {
    match step
    case DoStore(lhs, i, x) =>
      if lhs in heap && i < |heap[lhs].slots| then
        heap[lhs := Object(heap[lhs].gen, heap[lhs].slots[i := x])]
      else heap
    case DoAllocate(a, slots) => if a !in heap && Unreferenced(heap, a) then heap[a := Object(0, slots)] else heap
  }

  function AfterAll(heap: Objects, steps: seq<Step>): Objects {
    if steps == [] then heap else After(AfterAll(heap, steps[..|steps| - 1]), steps[|steps| - 1])
  }

  /** After every run of stores and allocations, whichever policy and entry size the barrier has and
      however often its buffers filled up, every pointer out of an older generation that has to be
      remembered is, and if none out of the youngest one has to be, every pointer; and so is every
      pointer from an older to a younger generation if the filters let them pass. */
  method RunMutator(b: Barrier, steps: seq<Step>)
    requires b.Valid() && b.Recorded(1) && b.enabled && b.generations > 0
    modifies b`heap, b`top, b`remembered, b`entered, b.ssb
    ensures b.Valid() && b.Recorded(1) && b.heap == AfterAll(old(b.heap), steps)
    ensures old(b.Recorded(0)) && IgnoresYoungest(b.policy) ==> b.Recorded(0)
    ensures PassesOlder(b.policy, b.generations) ==> b.OlderCovered()
  {
    hide Barrier.Valid, Barrier.Recorded, Barrier.OlderCovered;
    for k := 0 to |steps|
      invariant b.Valid() && b.Recorded(1) && b.heap == AfterAll(old(b.heap), steps[..k])
      invariant old(b.Recorded(0)) && IgnoresYoungest(b.policy) ==> b.Recorded(0)
    {
      assert steps[..k + 1][..k] == steps[..k];
      match steps[k]
      case DoStore(lhs, i, x) =>
        if lhs in b.heap && i < |b.heap[lhs].slots| {
          b.Store(lhs, i, x);
        }
      case DoAllocate(a, slots) =>
        if a !in b.heap && Unreferenced(b.heap, a) {
          b.Allocate(a, slots);
        }
    }
    assert steps[..|steps|] == steps;
    if PassesOlder(b.policy, b.generations) {
      b.PassedIsCovered();
    }
  }

  /** No slot refers to the place of an object still to be allocated. */
  predicate Unreferenced(heap: Objects, a: nat) {
    forall b | b in heap :: forall i | 0 <= i < |heap[b].slots| && heap[b].slots[i].Pointer? ::
        heap[b].slots[i].target != a
  }
}
