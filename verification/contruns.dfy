/** Runs of stack operations, on an unbounded list of frames and on a stack cache.  In the list,
    slots that were never stored into are undefined. */
module ContinuationRuns {
  import opened ContinuationFrames
  import opened StackCache

  datatype Cell<T> = Undefined | Is(value: T)

  datatype Plan = Plan(ret: Cell<Label>, cells: seq<Cell<SObject>>)

  /** The frames, newest first; the continuations captured so far; what loads have returned. */
  datatype Machine = Machine(stack: seq<Plan>, captured: seq<seq<Plan>>, seen: seq<SObject>)

  datatype Op =
    | Save(last: nat, p: SObject)
    | Pop
    | Store(slot: nat, value: SObject)
    | Load(slot: nat)
    | SetReturn(code: nat, index: Label)
    | Return
    | Clear
    | Capture
    | Throw(k: nat)

  /** What compiled code may do next: it loads only what it has stored, and pops only what is not
      the initial continuation. */
  predicate Allowed(m: Machine, op: Op) {
    m.stack != [] &&
    var top := m.stack[0];
    match op
    case Save(_, p) => p.Procedure?
    case Pop => |m.stack| > 1
    case Store(slot, value) => slot < |top.cells| && (slot == 0 ==> value.Procedure?)
    case Load(slot) => slot < |top.cells| && top.cells[slot].Is?
    case SetReturn(code, _) => top.cells != [] && top.cells[0] == Is(Procedure(code))
    case Return => top.ret.Is? && top.cells != [] && top.cells[0].Is? && top.cells[0].value.Procedure?
    case Clear => true
    case Capture => true
    case Throw(k) => k < |m.captured|
  }

  function Step(m: Machine, op: Op): Machine
    requires Allowed(m, op)
  {
    var top := m.stack[0];
    match op
    case Save(last, p) => m.(stack := [Plan(Undefined, [Is(p)] + seq(last, _ => Undefined))] + m.stack)
    case Pop => m.(stack := m.stack[1..])
    case Store(slot, value) => m.(stack := m.stack[0 := top.(cells := top.cells[slot := Is(value)])])
    case Load(slot) => m.(seen := m.seen + [top.cells[slot].value])
    case SetReturn(_, index) => m.(stack := m.stack[0 := top.(ret := Is(index))])
    case Return => m.(seen := m.seen + [top.cells[0].value, Fixnum(top.ret.value)])
    case Clear => m
    case Capture => m.(captured := m.captured + [m.stack])
    case Throw(k) => m.(stack := m.captured[k])
  }

  /** The state after `ops`, if all of them are allowed. */
  function Run(m: Machine, ops: seq<Op>): Cell<Machine>
    decreases |ops|
  {
    if ops == [] then Is(m) else if Allowed(m, ops[0]) then Run(Step(m, ops[0]), ops[1..]) else Undefined
  }

  lemma Next(m: Machine, ops: seq<Op>, i: nat, m': Machine)
    requires i < |ops| && Allowed(m, ops[i]) && Step(m, ops[i]) == m'
    ensures Run(m, ops[i..]) == Run(m', ops[i + 1..])
  {
    assert ops[i..][1..] == ops[i + 1..];
  }

  /** A frame is captured with what was stored into it, popped, thrown to, given a return point, returned to
      and popped again. */
  function ExampleOps(p: SObject, x: SObject): seq<Op>
    requires p.Procedure?
  {
    [Save(1, p), Store(1, x), Load(1), Capture, Pop, Throw(0), SetReturn(p.entry, 7), Return, Clear, Pop]
  }

  /** A run with an operation of every kind is allowed. */
  lemma RunExample(p: SObject, x: SObject)
    requires p.Procedure?
    ensures var start := Machine([Plan(Is(0), [Is(p)])], [], []);
            Run(start, ExampleOps(p, x)) ==
            Is(Machine(start.stack, [[Plan(Undefined, [Is(p), Is(x)])] + start.stack], [x, p, Fixnum(7)]))
  {
    hide Run;
    var bottom, ops := [Plan(Is(0), [Is(p)])], ExampleOps(p, x);
    assert ops[0..] == ops && ops[10..] == [];
    UntilCapture(p, x, bottom, ops);
    UntilPop(p, x, bottom, ops);
  }

  lemma UntilCapture(p: SObject, x: SObject, bottom: seq<Plan>, ops: seq<Op>)
    requires p.Procedure? && bottom != [] && |ops| > 4
    requires ops[0] == Save(1, p) && ops[1] == Store(1, x) && ops[2] == Load(1) && ops[3] == Capture
    ensures var full := [Plan(Undefined, [Is(p), Is(x)])] + bottom;
            Run(Machine(bottom, [], []), ops[0..]) == Run(Machine(full, [full], [x]), ops[4..])
  {
    hide Run;
    var made, full := [Plan(Undefined, [Is(p), Undefined])] + bottom, [Plan(Undefined, [Is(p), Is(x)])] + bottom;
    assert [Is(p)] + seq(1, _ => Undefined) == [Is(p), Undefined];
    Next(Machine(bottom, [], []), ops, 0, Machine(made, [], []));
    assert [Is(p), Undefined][1 := Is(x)] == [Is(p), Is(x)] && made[0 := full[0]] == full;
    Next(Machine(made, [], []), ops, 1, Machine(full, [], []));
    Next(Machine(full, [], []), ops, 2, Machine(full, [], [x]));
    Next(Machine(full, [], [x]), ops, 3, Machine(full, [full], [x]));
  }

  lemma UntilPop(p: SObject, x: SObject, bottom: seq<Plan>, ops: seq<Op>)
    requires p.Procedure? && bottom != [] && |ops| == 10 && ops[4] == Pop && ops[5] == Throw(0)
    requires ops[6] == SetReturn(p.entry, 7) && ops[7] == Return && ops[8] == Clear && ops[9] == Pop
    ensures var full := [Plan(Undefined, [Is(p), Is(x)])] + bottom;
            Run(Machine(full, [full], [x]), ops[4..]) == Is(Machine(bottom, [full], [x, p, Fixnum(7)]))
  {
    hide Run;
    var full, last := [Plan(Undefined, [Is(p), Is(x)])] + bottom, [Plan(Is(7), [Is(p), Is(x)])] + bottom;
    assert full[1..] == bottom && last[1..] == bottom && full[0 := last[0]] == last;
    Next(Machine(full, [full], [x]), ops, 4, Machine(bottom, [full], [x]));
    Next(Machine(bottom, [full], [x]), ops, 5, Machine(full, [full], [x]));
    Next(Machine(full, [full], [x]), ops, 6, Machine(last, [full], [x]));
    assert [x] + [p, Fixnum(7)] == [x, p, Fixnum(7)];
    Next(Machine(last, [full], [x]), ops, 7, Machine(last, [full], [x, p, Fixnum(7)]));
    Next(Machine(last, [full], [x, p, Fixnum(7)]), ops, 8, Machine(last, [full], [x, p, Fixnum(7)]));
    Next(Machine(last, [full], [x, p, Fixnum(7)]), ops, 9, Machine(bottom, [full], [x, p, Fixnum(7)]));
    assert ops[10..] == [];
    NothingLeft(Machine(bottom, [full], [x, p, Fixnum(7)]));
  }

  lemma NothingLeft(m: Machine)
    ensures Run(m, []) == Is(m)
  {
  }

  // ---- The stack cache behaves like the list.

  /** `f` has everything that `p` defines. */
  ghost predicate Matches(f: Frame, p: Plan) {
    && |f.slots| == |p.cells|
    && (p.ret.Is? ==> p.ret.value == f.ret)
    && (forall i | 0 <= i < |p.cells| && p.cells[i].Is? :: p.cells[i].value == f.slots[i])
  }

  ghost predicate MatchesAll(fs: seq<Frame>, ps: seq<Plan>) {
    |fs| == |ps| && forall i | 0 <= i < |ps| :: Matches(fs[i], ps[i])
  }

  ghost function AllOf(vss: seq<seq<SVL>>): (r: set<SVL>)
    ensures forall i, v | 0 <= i < |vss| && v in vss[i] :: v in r
  {
    set i, v | 0 <= i < |vss| && v in vss[i] :: v
  }

  /** The continuations `ks` are chains of the vectors `vss`, which hold the frames `fss`. */
  ghost predicate ChainsOf(ks: seq<SObject>, vss: seq<seq<SVL>>, fss: seq<seq<Frame>>)
    reads AllOf(vss)
  {
    && |ks| == |vss| == |fss|
    && forall k | 0 <= k < |ks| :: ks[k].Vector? && ChainOf(ks[k], vss[k], fss[k])
  }

  /** The frames `fs`, and the continuations `ks` captured so far, correspond to `m`. */
  ghost predicate Represents(fs: seq<Frame>, ks: seq<SObject>, vss: seq<seq<SVL>>, fss: seq<seq<Frame>>,
                             seen: seq<SObject>, m: Machine)
    reads AllOf(vss)
  {
    && MatchesAll(fs, m.stack) && seen == m.seen
    && ChainsOf(ks, vss, fss) && |fss| == |m.captured|
    && (forall k | 0 <= k < |fss| :: MatchesAll(fss[k], m.captured[k]))
  }

  /** A frame whose slots are all defined. */
  function PlanOf(f: Frame): Plan {
    Plan(Is(f.ret), seq(|f.slots|, i requires 0 <= i < |f.slots| => Is(f.slots[i])))
  }

  /** The unbounded list that holds `fs`. */
  function ListOf(fs: seq<Frame>): Machine {
    Machine(seq(|fs|, i requires 0 <= i < |fs| => PlanOf(fs[i])), [], [])
  }

  lemma ListMatches(fs: seq<Frame>)
    ensures Represents(fs, [], [], [], [], ListOf(fs))
  {
  }

  lemma SaveMatches(fs: seq<Frame>, fs': seq<Frame>, m: Machine, last: nat, p: SObject)
    requires MatchesAll(fs, m.stack) && m.stack != [] && p.Procedure?
    requires |fs'| == 1 + |fs| && fs'[1..] == fs && |fs'[0].slots| == last + 1 && fs'[0].slots[0] == p
    ensures MatchesAll(fs', Step(m, Save(last, p)).stack)
  {
    var ps := Step(m, Save(last, p)).stack;
    forall i | 0 <= i < |ps| ensures Matches(fs'[i], ps[i]) {
      if i > 0 {
        assert fs'[i] == fs[i - 1] && ps[i] == m.stack[i - 1];
      }
    }
  }

  lemma TopMatches(fs: seq<Frame>, fs': seq<Frame>, ps: seq<Plan>, top: Plan)
    requires MatchesAll(fs, ps) && ps != [] && |fs'| == |fs| && fs'[1..] == fs[1..] && Matches(fs'[0], top)
    ensures MatchesAll(fs', ps[0 := top])
  {
    forall i | 0 < i < |fs| ensures fs'[i] == fs[i] {
      assert fs'[1..][i - 1] == fs[1..][i - 1];
    }
  }

  /** One operation on the newest frames. */
  method PerformOnFrames(c: Cont, op: Op, seen: seq<SObject>, ghost m: Machine) returns (seen': seq<SObject>)
    requires c.Valid() && MatchesAll(c.Stack(), m.stack) && seen == m.seen && Allowed(m, op)
    requires !op.Capture? && !op.Throw?
    modifies c, c.ring`fields, c.ring`overflowSlots, c.ring`lastslot, c.ring`returnIndex, c.ring`dirty
    ensures c.Valid() && MatchesAll(c.Stack(), Step(m, op).stack) && seen' == Step(m, op).seen
  {
    hide Cont.Linked, Cont.Holding, Cont.Valid, Cont.Stack, ChainOf;
    seen' := seen;
    ghost var fs := c.Stack();
    match op
    case Save(last, p) =>
      if last < NUM_SLOT_FIELDS {
        c.SaveSmall(last, p);
      } else {
        c.Save(last, p);
      }
      SaveMatches(fs, c.Stack(), m, last, p);
    case Pop =>
      var _ := c.Pop();
    case Store(slot, value) =>
      c.Newest();
      c.Store(slot, value);
      TopMatches(fs, c.Stack(), m.stack, Step(m, op).stack[0]);
    case Load(slot) =>
      var value := c.Load(slot);
      seen' := seen + [value];
    case SetReturn(code, index) =>
      var _ := c.SetReturn(code, index);
      TopMatches(fs, c.Stack(), m.stack, Step(m, op).stack[0]);
    case Return =>
      var entry, index := c.ReturnAddress();
      seen' := seen + [Procedure(entry), Fixnum(index)];
    case Clear =>
      c.Clear();
  }

  /** One operation on the cache and on the list. */
  method Perform(c: Cont, op: Op, ks: seq<SObject>, ghost vss: seq<seq<SVL>>, ghost fss: seq<seq<Frame>>,
                 seen: seq<SObject>, ghost m: Machine)
    returns (ks': seq<SObject>, ghost vss': seq<seq<SVL>>, ghost fss': seq<seq<Frame>>, seen': seq<SObject>)
    requires c.Valid() && Represents(c.Stack(), ks, vss, fss, seen, m) && Allowed(m, op)
    modifies c, c.ring`fields, c.ring`overflowSlots, c.ring`lastslot, c.ring`returnIndex, c.ring`dirty
    ensures c.Valid() && Represents(c.Stack(), ks', vss', fss', seen', Step(m, op))
  {
    hide Cont.Linked, Cont.Holding, Cont.Valid, Cont.Stack, ChainOf, AllOf, MatchesAll;
    ks', vss', fss', seen' := ks, vss, fss, seen;
    ghost var fs := c.Stack();
    if op.Capture? {
      var k;
      ghost var vs;
      k, vs := c.GetCC();
      NotEmpty(c);
      ChainStep(k, vs, fs);
      ks', vss', fss' := ks + [k], vss + [vs], fss + [fs];
    } else if op.Throw? {
      ValidParts(c);
      var _ := c.SetCC(ks[op.k], vss[op.k], fss[op.k]);
    } else {
      seen' := PerformOnFrames(c, op, seen, m);
    }
  }

  lemma ValidParts(c: Cont)
    requires c.Valid()
    ensures c.Linked() && c.FramesValid()
  {
  }

  /** Whatever its size, a stack cache performs every run as the unbounded list does: it holds the
      same frames and its loads return the same objects. */
  method Execute(c: Cont, ops: seq<Op>, ghost m: Machine) returns (seen: seq<SObject>)
    requires c.Valid() && Represents(c.Stack(), [], [], [], [], m) && Run(m, ops).Is?
    modifies c, c.ring`fields, c.ring`overflowSlots, c.ring`lastslot, c.ring`returnIndex, c.ring`dirty
    ensures c.Valid() && MatchesAll(c.Stack(), Run(m, ops).value.stack) && seen == Run(m, ops).value.seen
  {
    hide Cont.Linked, Cont.Holding, Cont.Stack, ChainOf, Allowed, Step, MatchesAll;
    seen := [];
    var ks := [];
    ghost var vss, fss, now := [], [], m;
    for i := 0 to |ops|
      invariant c.Valid() && Represents(c.Stack(), ks, vss, fss, seen, now) && Run(now, ops[i..]) == Run(m, ops)
    {
      assert ops[i..][1..] == ops[i + 1..];
      ks, vss, fss, seen := Perform(c, ops[i], ks, vss, fss, seen, now);
      now := Step(now, ops[i]);
    }
  }

  // ---- Captured continuations.

  /** No run changes a vector of a captured continuation, so that it goes on holding the frames it
      was captured with. */
  method CapturedIsImmutable(c: Cont, ops: seq<Op>, ghost m: Machine, k: SObject, ghost vs: seq<SVL>,
                             ghost fs: seq<Frame>)
    returns (seen: seq<SObject>)
    requires c.Valid() && Represents(c.Stack(), [], [], [], [], m) && Run(m, ops).Is? && ChainOf(k, vs, fs)
    modifies c, c.ring`fields, c.ring`overflowSlots, c.ring`lastslot, c.ring`returnIndex, c.ring`dirty
    ensures c.Valid() && ChainOf(k, vs, fs)
    ensures forall v | v in vs :: v.elements == old(v.elements)
  {
    hide *;
    seen := Execute(c, ops, m);
  }

  /** A continuation is captured and thrown to again and again, with any run of operations before
      each throw, among them captures of continuations that share its vectors.  Every throw
      reinstates exactly the frames at capture. */
  method ThrowReinstates(c: Cont, runs: seq<seq<Op>>) returns (ghost found: seq<seq<Frame>>)
    requires c.Valid() && forall ops | ops in runs :: Run(ListOf(c.Stack()), ops).Is?
    modifies c, c.ring`fields, c.ring`overflowSlots, c.ring`lastslot, c.ring`returnIndex, c.ring`dirty
    ensures c.Valid() && c.Stack() == old(c.Stack())
    ensures |found| == |runs| && forall i | 0 <= i < |runs| :: found[i] == old(c.Stack())
  {
    hide *;
    found := [];
    var k;
    ghost var vs, fs := [], c.Stack();
    NotEmpty(c);
    k, vs := c.GetCC();
    ChainStep(k, vs, fs);
    for i := 0 to |runs|
      invariant c.Valid() && c.Stack() == fs && ChainOf(k, vs, fs)
      invariant |found| == i && forall j | 0 <= j < i :: found[j] == fs
    {
      ListMatches(fs);
      var _ := Execute(c, runs[i], ListOf(fs));
      ValidParts(c);
      var _ := c.SetCC(k, vs, fs);
      found := found + [c.Stack()];
    }
  }

  lemma NotEmpty(c: Cont)
    requires c.Valid()
    ensures c.Stack() != []
  {
  }

  /** The size of the cache cannot be observed. */
  method SizeIsInvisible(size1: nat, size2: nat, p: SObject, ops: seq<Op>)
    returns (seen1: seq<SObject>, seen2: seq<SObject>)
    requires 1 <= size1 && 1 <= size2 && p.Procedure?
    requires Run(Machine([Plan(Is(0), [Is(p)])], [], []), ops).Is?
    ensures seen1 == seen2 == Run(Machine([Plan(Is(0), [Is(p)])], [], []), ops).value.seen
  {
    hide Cont.Linked, Cont.Holding, ChainOf, Cont.Stack, Run;
    ghost var m := Machine([Plan(Is(0), [Is(p)])], [], []);
    var c1 := new Cont(size1, p);
    seen1 := Execute(c1, ops, m);
    var c2 := new Cont(size2, p);
    seen2 := Execute(c2, ops, m);
  }
}
