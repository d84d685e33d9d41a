/** Runs of a Scheme program and its millicode: allocations, calls and returns, stores into frames,
    captures and throws, and callouts that may be nested and left by throws. */
module MillicodeRuns {
  import opened FrameChains
  import opened StackRegions
  import opened SchemeCallouts

  datatype Option<T> = None | Some(value: T)

  /** A frame as the program sees it: words that a procedure saved, or an interrupted program.  `own`
      says whether the interrupted procedure had a frame. */
  datatype SchemeFrame =
    | Saved(words: seq<int>)
    | Interrupted(retaddr: int, reg: seq<int>, fp: seq<nat>, result: int, preserve: bool, own: bool)

  /** The registers, whether the newest frame belongs to the running procedure, all frames, newest
      first, and the continuations captured so far. */
  datatype Scheme = Scheme(reg: seq<int>, fp: seq<nat>, result: int, second: int, third: int, fourth: int, retaddr: int,
                           own: bool, stack: seq<SchemeFrame>, captured: seq<seq<SchemeFrame>>)

  datatype Step =
    | Allocate(nwords: nat)
    | Compute(reg: seq<int>, fp: seq<nat>, result: int, second: int, third: int, fourth: int, retaddr: int)
    | Call
    | Enter(n: nat)
    | Leave
    | Return
    | SetSlot(i: nat, x: int)
    | SetReturn(x: int)
    | CallCC
    | ThrowTo(k: nat)
    | Callout(procedure: int, argc: nat, preserve: bool)
    | Resume

  /** What the compiler, the type system and the run-time system see to: words are data, objects and
      frames are not too large, a procedure changes and pops only its own frame, control returns to the
      newest frame, and the last frame is not popped. */
  predicate Allowed(a: Scheme, step: Step) {
    a.stack != [] &&
    match step
    case Allocate(nwords) => 4 * Even(nwords) <= LARGEST_OBJECT
    case Compute(reg, fp, result, second, third, fourth, retaddr) =>
      && |reg| == |a.reg| && |fp| == |a.fp| && (forall i | 0 <= i < |reg| :: ValidDatum(reg[i]))
      && (forall i | 0 <= i < |fp| :: fp[i] < 0x1_0000_0000)
      && ValidDatum(result) && ValidDatum(second) && ValidDatum(third) && ValidDatum(fourth) && ValidDatum(retaddr)
    case Call => true
    case Enter(n) => n + 4 <= MAX_FRAME
    case Leave => a.own && a.stack[0].Saved? && |a.stack| > 1
    case Return => !a.own && a.stack[0].Saved?
    case SetSlot(i, x) => a.own && a.stack[0].Saved? && STK_REG0 + i < |a.stack[0].words| && ValidDatum(x)
    case SetReturn(x) => a.own && a.stack[0].Saved? && a.stack[0].words != [] && IsFixnum(x)
    case CallCC => true
    case ThrowTo(k) => k < |a.captured|
    case Callout(procedure, _, _) => 5 <= |a.reg| && ValidDatum(procedure)
    case Resume => !a.own && a.stack[0].Interrupted? && |a.stack| > 1
  }

  function Perform(a: Scheme, step: Step): Scheme
    requires Allowed(a, step)
  {
    match step
    case Allocate(_) => a
    case Compute(reg, fp, result, second, third, fourth, retaddr) =>
      a.(reg := reg, fp := fp, result := result, second := second, third := third, fourth := fourth, retaddr := retaddr)
    case Call => a.(own := false)
    case Enter(n) => a.(stack := [Saved(Region.SavedFrame(n, ReadRegister(a, 0), 0))] + a.stack, own := true)
    case Leave => a.(stack := a.stack[1..], own := false)
    case Return => a.(own := true)
    case SetSlot(i, x) => SetTop(a, STK_REG0 + i, x)
    case SetReturn(x) => SetTop(a, STK_RETADDR, x)
    case CallCC => a.(captured := a.captured + [a.stack])
    case ThrowTo(k) => a.(stack := a.captured[k], own := false)
    case Callout(procedure, argc, preserve) =>
      a.(stack := [Interrupted(a.retaddr, a.reg, a.fp, a.result, preserve, a.own)] + a.stack,
         reg := [procedure, a.result, a.second, a.third, a.fourth] + a.reg[5..],
         result := 4 * argc, retaddr := 0, own := false)
    case Resume =>
      var f := a.stack[0];
      a.(stack := a.stack[1..], reg := f.reg, fp := f.fp, retaddr := f.retaddr, own := f.own,
         result := if f.preserve then f.result else a.result)
  }

  function ReadRegister(a: Scheme, i: nat): int {
    if i < |a.reg| then a.reg[i] else 0
  }

  function SetTop(a: Scheme, i: nat, x: int): Scheme
    requires a.stack != [] && a.stack[0].Saved? && i < |a.stack[0].words|
  {
    a.(stack := a.stack[0 := Saved(a.stack[0].words[i := x])])
  }

  /** The state after `steps`, if all of them are allowed. */
  function Run(a: Scheme, steps: seq<Step>): Option<Scheme>
    decreases |steps|
  {
    if steps == [] then Some(a) else if Allowed(a, steps[0]) then Run(Perform(a, steps[0]), steps[1..]) else None
  }

  lemma {:induction false} RunAppend(a: Scheme, steps: seq<Step>, more: seq<Step>)
    ensures Run(a, steps + more) == if Run(a, steps).Some? then Run(Run(a, steps).value, more) else None
    decreases |steps|
  {
    if steps == [] {
      assert steps + more == more;
    } else if Allowed(a, steps[0]) {
      assert (steps + more)[1..] == steps[1..] + more;
      RunAppend(Perform(a, steps[0]), steps[1..], more);
    }
  }

  // ---- How memory corresponds to what the program sees.

  /** `f` is the frame `x` in memory; the link of a saved frame does not matter. */
  ghost predicate InMemory(f: seq<int>, x: SchemeFrame, nreg: nat, nfp: nat) {
    match x
    case Saved(words) => 4 <= |words| == |f| && forall i | 0 <= i < |f| && i != STK_DYNLINK :: f[i] == words[i]
    case Interrupted(retaddr, reg, fp, result, preserve, _) =>
      && f == Context(retaddr, reg, fp, result, preserve) && |reg| == nreg && |fp| == nfp
      && forall i | 0 <= i < |fp| :: fp[i] < 0x1_0000_0000
  }

  ghost predicate AllInMemory(fs: seq<seq<int>>, xs: seq<SchemeFrame>, nreg: nat, nfp: nat) {
    |fs| == |xs| && forall i | 0 <= i < |xs| :: InMemory(fs[i], xs[i], nreg, nfp)
  }

  ghost predicate GoodContinuation(k: seq<seq<int>>) {
    k != [] && forall i | 0 <= i < |k| :: GoodFrame(k[i])
  }

  ghost predicate CapturedInMemory(ks: seq<seq<seq<int>>>, xss: seq<seq<SchemeFrame>>, nreg: nat, nfp: nat) {
    && |ks| == |xss|
    && forall k | 0 <= k < |ks| :: GoodContinuation(ks[k]) && AllInMemory(ks[k], xss[k], nreg, nfp)
  }

  ghost predicate SameRegisters(m: Millicode, a: Scheme)
    reads m
  {
    && m.reg == a.reg && m.fp == a.fp && m.result == a.result && m.second == a.second && m.third == a.third
    && m.fourth == a.fourth && m.retaddr == a.retaddr
  }

  ghost predicate Simulates(m: Millicode, ks: seq<seq<seq<int>>>, a: Scheme)
    reads m, m.region, m.region.mem
  {
    && m.Valid() && SameRegisters(m, a) && AllInMemory(m.region.All(), a.stack, |a.reg|, |a.fp|)
    && (a.own ==> m.region.frames != []) && CapturedInMemory(ks, a.captured, |a.reg|, |a.fp|)
  }

  lemma PushedInMemory(fs: seq<seq<int>>, fs': seq<seq<int>>, xs: seq<SchemeFrame>, x: SchemeFrame, nreg: nat, nfp: nat)
    requires AllInMemory(fs, xs, nreg, nfp) && |fs'| == 1 + |fs| && fs'[1..] == fs && InMemory(fs'[0], x, nreg, nfp)
    ensures AllInMemory(fs', [x] + xs, nreg, nfp)
  {
    forall i | 0 < i < |fs'| ensures fs'[i] == fs[i - 1] {
      assert fs'[1..][i - 1] == fs[i - 1];
    }
  }

  lemma PoppedInMemory(fs: seq<seq<int>>, xs: seq<SchemeFrame>, nreg: nat, nfp: nat)
    requires AllInMemory(fs, xs, nreg, nfp) && xs != []
    ensures fs != [] && InMemory(fs[0], xs[0], nreg, nfp) && AllInMemory(fs[1..], xs[1..], nreg, nfp)
  {
  }

  lemma SavedInMemory(f: seq<int>, n: nat, reg0: int, nreg: nat, nfp: nat)
    requires Region.SavedWords(f, n, reg0)
    ensures InMemory(f, Saved(Region.SavedFrame(n, reg0, 0)), nreg, nfp)
  {
  }

  lemma Parts(m: Millicode)
    requires m.Valid()
    ensures m.region.Valid() && 5 <= |m.reg| && ValidDatum(m.reg[0]) && m.region.All() != []
    ensures m.region.frames != [] ==> m.region.frames[0] == m.region.All()[0]
  {
  }

  // ---- The steps.

  /** Push or pop a frame, or return to one. */
  method PerformOnStack(m: Millicode, step: Step, ghost ks: seq<seq<seq<int>>>, ghost a: Scheme) returns (ok: bool)
    requires Simulates(m, ks, a) && Allowed(a, step) && (step.Enter? || step.Leave? || step.Return?)
    modifies m.region, m.region.mem
    ensures m.Valid() && (ok ==> Simulates(m, ks, Perform(a, step)))
    ensures MinimalSize(m.region.buffer) <= m.region.size ==> ok
    ensures m.region.objects == old(m.region.objects) || m.region.objects == []
  {
    hide Region.Valid, Region.All, Chain, GoodFrame, AllInMemory, CapturedInMemory, ValidDatum, MinimalSize, InMemory;
    hide Region.SavedFrame, Region.SavedWords;
    Parts(m);
    ghost var fs, nreg, nfp := m.region.All(), |a.reg|, |a.fp|;
    PoppedInMemory(fs, a.stack, nreg, nfp);
    ok := true;
    match step {
      case Enter(n) =>
        ok := m.region.Save(n, m.reg[0]);
        if ok {
          SavedInMemory(m.region.All()[0], n, a.reg[0], nreg, nfp);
          PushedInMemory(fs, m.region.All(), a.stack, Saved(Region.SavedFrame(n, a.reg[0], 0)), nreg, nfp);
        }
      case Leave =>
        var size := m.region.GetWord(STK_CONTSIZE);
        FrameWords(m, a.stack[0].words, nreg, nfp);
        m.region.Pop(size / 4 + 1 - 4);
      case Return =>
        var _ := m.region.Return();
    }
  }

  lemma FrameWords(m: Millicode, words: seq<int>, nreg: nat, nfp: nat)
    requires m.Valid() && m.region.frames != [] && InMemory(m.region.All()[0], Saved(words), nreg, nfp)
    ensures 4 <= |m.region.frames[0]| == |words| && m.region.All()[0][STK_CONTSIZE] == 4 * (|words| - 1)
  {
    m.TopIsGood();
  }

  /** Change a word of the newest frame. */
  method PerformStore(m: Millicode, i: nat, x: int, ghost ks: seq<seq<seq<int>>>, ghost a: Scheme)
    requires Simulates(m, ks, a) && a.own && a.stack != [] && a.stack[0].Saved? && i < |a.stack[0].words|
    requires i != STK_CONTSIZE && i != STK_DYNLINK && if i == STK_RETADDR then IsFixnum(x) else ValidDatum(x)
    modifies m.region`frames, m.region.mem
    ensures Simulates(m, ks, SetTop(a, i, x)) && m.region.objects == old(m.region.objects)
  {
    hide Region.Valid, Region.All, Chain, GoodFrame, CapturedInMemory, ValidDatum;
    Parts(m);
    ghost var fs := m.region.All();
    assert InMemory(fs[0], a.stack[0], |a.reg|, |a.fp|);
    m.region.SetWord(i, x);
    assert forall j | 0 < j < |fs| :: m.region.All()[j] == fs[j];
  }

  /** Capture a continuation, or throw to one. */
  method PerformControl(m: Millicode, step: Step, ks: seq<seq<seq<int>>>, ghost a: Scheme)
    returns (ok: bool, ks': seq<seq<seq<int>>>)
    requires Simulates(m, ks, a) && Allowed(a, step) && (step.CallCC? || step.ThrowTo?)
    modifies m.region, m.region.mem
    ensures m.Valid() && (ok ==> Simulates(m, ks', Perform(a, step)))
    ensures MinimalSize(m.region.buffer) <= m.region.size ==> ok
    ensures m.region.objects == old(m.region.objects) || m.region.objects == []
  {
    hide Region.Valid, Region.All, Chain, GoodFrame, AllInMemory, ValidDatum, MinimalSize;
    Parts(m);
    ok, ks' := true, ks;
    if step.CallCC? {
      var k;
      m.region.AllAreGood();
      k, ok := m.region.Capture();
      if ok {
        ks' := ks + [k];
      }
    } else {
      m.region.Reinstate(ks[step.k]);
    }
  }

  /** Call Scheme from millicode, or go back. */
  method PerformCallout(m: Millicode, step: Step, ghost ks: seq<seq<seq<int>>>, ghost a: Scheme) returns (ok: bool)
    requires Simulates(m, ks, a) && Allowed(a, step) && (step.Callout? || step.Resume?)
    modifies m, m.region, m.region.mem
    ensures m.Valid() && (ok ==> Simulates(m, ks, Perform(a, step)))
    ensures MinimalSize(m.region.buffer) <= m.region.size ==> ok
    ensures m.region.objects == old(m.region.objects) || m.region.objects == []
  {
    hide Region.Valid, Region.All, Chain, GoodFrame, AllInMemory, CapturedInMemory, ValidDatum, MinimalSize;
    hide Context;
    Parts(m);
    ghost var fs, nreg, nfp := m.region.All(), |a.reg|, |a.fp|;
    ok := true;
    match step {
      case Callout(procedure, argc, preserve) =>
        FloatsAreWords(m);
        ok := m.Callout(procedure, argc, preserve);
        if ok {
          PushedInMemory(fs, m.region.All(), a.stack, Perform(a, step).stack[0], nreg, nfp);
        }
      case Resume =>
        PoppedInMemory(fs, a.stack, nreg, nfp);
        ghost var f := a.stack[0];
        SameDepth(m, a);
        var _ := m.region.Return();
        var _ := m.RestoreContext(f.retaddr, f.reg, f.fp, f.result, f.preserve);
    }
  }

  lemma FloatsAreWords(m: Millicode)
    requires m.Valid()
    ensures forall i | 0 <= i < |m.fp| :: m.fp[i] < 0x1_0000_0000
  {
  }

  lemma SameDepth(m: Millicode, a: Scheme)
    requires AllInMemory(m.region.All(), a.stack, |a.reg|, |a.fp|)
    ensures |m.region.All()| == |a.stack|
  {
  }

  /** Any step.  If it fails, there was no room for a frame or an object even after a collection. */
  method PerformStep(m: Millicode, step: Step, ks: seq<seq<seq<int>>>, ghost a: Scheme)
    returns (ok: bool, ks': seq<seq<seq<int>>>, ghost given: seq<Block>)
    requires Simulates(m, ks, a) && Allowed(a, step)
    modifies m, m.region, m.region.mem
    ensures m.Valid() && (ok ==> Simulates(m, ks', Perform(a, step)))
    ensures MinimalSize(m.region.buffer) <= m.region.size ==> ok
    ensures m.region.objects == old(m.region.objects) + given || m.region.objects == given
    ensures given == [] || (step.Allocate? && |given| == 1 && given[0].words == step.nwords)
  {
    hide Region.Valid, Region.All, Chain, GoodFrame, AllInMemory, CapturedInMemory, ValidDatum, MinimalSize;
    Parts(m);
    ok, ks', given := true, ks, [];
    match step {
      case Allocate(nwords) =>
        var o := m.region.Alloc(nwords);
        ok := !o.NoRoom?;
        given := if o.At? then [Block(o.p, nwords)] else [];
      case Compute(reg, fp, result, second, third, fourth, retaddr) =>
        m.reg, m.fp, m.result, m.second := reg, fp, result, second;
        m.third, m.fourth, m.retaddr := third, fourth, retaddr;
      case Call =>
      case SetSlot(i, x) =>
        PerformStore(m, STK_REG0 + i, x, ks, a);
      case SetReturn(x) =>
        PerformStore(m, STK_RETADDR, x, ks, a);
      case CallCC =>
        ok, ks' := PerformControl(m, step, ks, a);
      case ThrowTo(_) =>
        ok, ks' := PerformControl(m, step, ks, a);
      case Callout(_, _, _) =>
        ok := PerformCallout(m, step, ks, a);
      case Resume =>
        ok := PerformCallout(m, step, ks, a);
      case _ =>
        ok := PerformOnStack(m, step, ks, a);
    }
  }

  /** `objects` are the last of `given`. */
  ghost predicate LastOf(given: seq<Block>, objects: seq<Block>) {
    exists n: nat :: n <= |given| && objects == given[n..]
  }

  lemma LastOfMore(given: seq<Block>, objects: seq<Block>, more: seq<Block>, objects': seq<Block>)
    requires LastOf(given, objects) && (objects' == objects + more || objects' == more)
    ensures LastOf(given + more, objects')
  {
    var n: nat :| n <= |given| && objects == given[n..];
    assert (given + more)[n..] == objects + more && (given + more)[|given|..] == more;
  }

  /** Every run does in memory what the program sees, and passes the integrity check after every step.
      It can fail only in an area that is smaller than the minimal size.  Of the objects `given` to the
      program, those since the last collection lie apart from each other and below the heap pointer. */
  method Execute(m: Millicode, steps: seq<Step>, ghost a: Scheme)
    returns (checked: bool, completed: bool, ks: seq<seq<seq<int>>>, ghost given: seq<Block>)
    requires Simulates(m, [], a) && Run(a, steps).Some?
    modifies m, m.region, m.region.mem
    ensures checked && m.Valid()
    ensures m.region.ObjectsApart() && LastOf(old(m.region.objects) + given, m.region.objects)
    ensures completed ==> Simulates(m, ks, Run(a, steps).value)
    ensures MinimalSize(m.region.buffer) <= m.region.size ==> completed
  {
    hide Simulates, Allowed, Perform, MinimalSize, Millicode.Valid, Millicode.GoodRoots, Region.InOrder;
    hide Region.ObjectsApart, LastOf;
    checked, completed, ks, given := true, true, [], [];
    ghost var before := m.region.objects;
    AllOfThem(before);
    ghost var now := a;
    SimulatesParts(m, ks, now);
    for i := 0 to |steps|
      invariant checked && completed && Simulates(m, ks, now) && m.Valid() && Run(now, steps[i..]) == Run(a, steps)
      invariant LastOf(before + given, m.region.objects)
    {
      assert steps[i..][1..] == steps[i + 1..];
      ghost var objects, more := m.region.objects, [];
      completed, ks, more := PerformStep(m, steps[i], ks, now);
      LastOfMore(before + given, objects, more, m.region.objects);
      assert before + (given + more) == (before + given) + more;
      given := given + more;
      m.ValidIsInOrder();
      checked := m.IntegrityCheck();
      if !completed {
        HeapInOrder(m);
        return;
      }
      now := Perform(now, steps[i]);
    }
    HeapInOrder(m);
  }

  lemma HeapInOrder(m: Millicode)
    requires m.Valid()
    ensures m.region.ObjectsApart()
  {
  }

  lemma AllOfThem(objects: seq<Block>)
    ensures LastOf(objects + [], objects)
  {
    assert (objects + [])[0..] == objects;
  }

  lemma SimulatesParts(m: Millicode, ks: seq<seq<seq<int>>>, a: Scheme)
    requires Simulates(m, ks, a)
    ensures m.Valid()
  {
  }

  /** The program before its first step: one frame, which is not its own. */
  function Initial(reg: seq<int>, fp: seq<nat>): Scheme {
    Scheme(reg, fp, FALSE_CONST, FALSE_CONST, FALSE_CONST, FALSE_CONST, 0, false, [Saved([0, 12, 0, 0])], [])
  }

  lemma Next(a: Scheme, steps: seq<Step>, i: nat, a': Scheme)
    requires i < |steps| && Allowed(a, steps[i]) && Perform(a, steps[i]) == a'
    ensures Run(a, steps[i..]) == Run(a', steps[i + 1..])
  {
    assert steps[i..][1..] == steps[i + 1..];
  }

  /** The frame of a procedure that has saved REG0, stored 8 into slot 1 and set its return address to 12. */
  function Stored(reg: seq<int>): SchemeFrame
    requires reg != []
  {
    Saved([12, 16, 0, reg[0], 8])
  }

  /** The registers as a program starts with them. */
  function With(reg: seq<int>, fp: seq<nat>, own: bool, stack: seq<SchemeFrame>, captured: seq<seq<SchemeFrame>>)
    : Scheme
  {
    Scheme(reg, fp, FALSE_CONST, FALSE_CONST, FALSE_CONST, FALSE_CONST, 0, own, stack, captured)
  }

  /** A procedure saves a frame and captures it, is interrupted by a callout that saves the largest of frames,
      goes on, allocates one of the largest objects, leaves its frame, and is thrown back to. */
  function ExampleSteps(reg: seq<int>, fp: seq<nat>): seq<Step> {
    [Enter(1), SetSlot(1, 8), SetReturn(12), CallCC, Callout(0, 3, true), Enter(MAX_FRAME - 4), Leave, Resume,
     Allocate(4194302), Leave, Return, Call, ThrowTo(0), Return, Leave, Compute(reg, fp, 4, 8, 12, 16, 20)]
  }

  /** A run with a step of every kind is allowed. */
  lemma RunExample(reg: seq<int>, fp: seq<nat>)
    requires 5 <= |reg| && forall i | 0 <= i < |reg| :: ValidDatum(reg[i])
    requires forall i | 0 <= i < |fp| :: fp[i] < 0x1_0000_0000
    ensures var start := Initial(reg, fp);
            Run(start, ExampleSteps(reg, fp)) ==
            Some(Scheme(reg, fp, 4, 8, 12, 16, 20, false, start.stack, [[Stored(reg)] + start.stack]))
  {
    hide Run, With, Stored, Allowed, Perform, ValidDatum, Initial;
    var steps, bottom := ExampleSteps(reg, fp), Initial(reg, fp).stack;
    assert steps[0..] == steps;
    Starts(reg, fp, bottom);
    UntilCapture(reg, fp, bottom, steps);
    UntilResumed(reg, fp, bottom, steps);
    UntilThrow(reg, fp, bottom, steps);
  }

  lemma Starts(reg: seq<int>, fp: seq<nat>, bottom: seq<SchemeFrame>)
    requires bottom == Initial(reg, fp).stack
    ensures With(reg, fp, false, bottom, []) == Initial(reg, fp) && |bottom| == 1 && bottom[0].Saved?
  {
  }

  lemma UntilCapture(reg: seq<int>, fp: seq<nat>, bottom: seq<SchemeFrame>, steps: seq<Step>)
    requires reg != [] && bottom != [] && |steps| > 4
    requires steps[0] == Enter(1) && steps[1] == SetSlot(1, 8) && steps[2] == SetReturn(12) && steps[3] == CallCC
    ensures var full := [Stored(reg)] + bottom;
            Run(With(reg, fp, false, bottom, []), steps[0..]) == Run(With(reg, fp, true, full, [full]), steps[4..])
  {
    hide Run;
    var w0, w1 := [0, 16, 0, reg[0], UNSPECIFIED_CONST], [0, 16, 0, reg[0], 8];
    assert Region.SavedFrame(1, reg[0], 0) == w0 && w0[4 := 8] == w1 && w1[0 := 12] == Stored(reg).words;
    var s0, s1, full := [Saved(w0)] + bottom, [Saved(w1)] + bottom, [Stored(reg)] + bottom;
    assert s0[0 := s1[0]] == s1 && s1[0 := full[0]] == full;
    Next(With(reg, fp, false, bottom, []), steps, 0, With(reg, fp, true, s0, []));
    Next(With(reg, fp, true, s0, []), steps, 1, With(reg, fp, true, s1, []));
    Next(With(reg, fp, true, s1, []), steps, 2, With(reg, fp, true, full, []));
    Next(With(reg, fp, true, full, []), steps, 3, With(reg, fp, true, full, [full]));
  }

  lemma UntilResumed(reg: seq<int>, fp: seq<nat>, bottom: seq<SchemeFrame>, steps: seq<Step>)
    requires 5 <= |reg| && bottom != [] && |steps| > 8 && steps[4] == Callout(0, 3, true)
    requires steps[5] == Enter(MAX_FRAME - 4) && steps[6] == Leave && steps[7] == Resume
    ensures var full := [Stored(reg)] + bottom;
            Run(With(reg, fp, true, full, [full]), steps[4..]) == Run(With(reg, fp, true, full, [full]), steps[8..])
  {
    hide Run, Stored;
    var full := [Stored(reg)] + bottom;
    var a := With(reg, fp, true, full, [full]);
    var b := Perform(a, steps[4]);
    var c := Perform(b, steps[5]);
    assert c.stack[1..] == b.stack && b.stack[1..] == full;
    Next(a, steps, 4, b);
    Next(b, steps, 5, c);
    Next(c, steps, 6, b);
    Next(b, steps, 7, a);
  }

  lemma UntilThrow(reg: seq<int>, fp: seq<nat>, bottom: seq<SchemeFrame>, steps: seq<Step>)
    requires reg != [] && |bottom| == 1 && bottom[0].Saved? && |steps| == 16
    requires forall i | 0 <= i < |reg| :: ValidDatum(reg[i])
    requires forall i | 0 <= i < |fp| :: fp[i] < 0x1_0000_0000
    requires steps[8] == Allocate(4194302) && steps[9] == Leave && steps[10] == Return && steps[11] == Call
    requires steps[12] == ThrowTo(0) && steps[13] == Return && steps[14] == Leave
    requires steps[15] == Compute(reg, fp, 4, 8, 12, 16, 20)
    ensures var full := [Stored(reg)] + bottom;
            Run(With(reg, fp, true, full, [full]), steps[8..])
            == Some(Scheme(reg, fp, 4, 8, 12, 16, 20, false, bottom, [full]))
  {
    hide Run;
    var full := [Stored(reg)] + bottom;
    assert full[1..] == bottom;
    Next(With(reg, fp, true, full, [full]), steps, 8, With(reg, fp, true, full, [full]));
    Next(With(reg, fp, true, full, [full]), steps, 9, With(reg, fp, false, bottom, [full]));
    Next(With(reg, fp, false, bottom, [full]), steps, 10, With(reg, fp, true, bottom, [full]));
    Next(With(reg, fp, true, bottom, [full]), steps, 11, With(reg, fp, false, bottom, [full]));
    Next(With(reg, fp, false, bottom, [full]), steps, 12, With(reg, fp, false, full, [full]));
    Next(With(reg, fp, false, full, [full]), steps, 13, With(reg, fp, true, full, [full]));
    Next(With(reg, fp, true, full, [full]), steps, 14, With(reg, fp, false, bottom, [full]));
    var last := Scheme(reg, fp, 4, 8, 12, 16, 20, false, bottom, [full]);
    Next(With(reg, fp, false, bottom, [full]), steps, 15, last);
    assert steps[16..] == [];
    NothingLeft(last);
  }

  lemma NothingLeft(a: Scheme)
    ensures Run(a, []) == Some(a)
  {
  }

  /** Every run from the beginning, in an area of any size that passes the check and with any registers. */
  method RunFromStart(size: nat, buffer: nat, margin: nat, reg: seq<int>, fp: seq<nat>, steps: seq<Step>)
    returns (m: Millicode, checked: bool, completed: bool, ghost given: seq<Block>)
    requires buffer % 2 == 0 && size % 2 == 0 && LARGE_OBJECT_WORDS + MAX_FRAME <= size && buffer <= LARGE_OBJECT_WORDS
    requires 5 <= |reg| && |fp| % 2 == 0 && Even(7 + |reg| + 2 * |fp|) + margin <= MAX_FRAME
    requires (forall i | 0 <= i < |reg| :: ValidDatum(reg[i])) && forall i | 0 <= i < |fp| :: fp[i] < 0x1_0000_0000
    requires Run(Initial(reg, fp), steps).Some?
    ensures checked && m.Valid() && (MinimalSize(buffer) <= size ==> completed)
    ensures m.region.ObjectsApart() && LastOf(given, m.region.objects)
    ensures completed ==> exists ks :: Simulates(m, ks, Run(Initial(reg, fp), steps).value)
  {
    hide Chain, Run, Perform, Allowed, Region.Valid;
    var r := new Region(size, buffer, [0, 12, 0, 0]);
    m := new Millicode(r, margin, reg, fp);
    var ks;
    checked, completed, ks, given := Execute(m, steps, Initial(reg, fp));
    assert [] + given == given;
  }

  // ---- Callouts are transparent.

  /** Whatever a callout runs, among it further callouts and throws: once it gets back to its frame, and
      resumes, the interrupted program goes on as if nothing had been, but for Result if that was not to
      be preserved. */
  lemma CalloutIsTransparent(a: Scheme, procedure: int, argc: nat, preserve: bool, steps: seq<Step>)
    requires Allowed(a, Callout(procedure, argc, preserve))
    requires Run(Perform(a, Callout(procedure, argc, preserve)), steps).Some?
    requires var b := Run(Perform(a, Callout(procedure, argc, preserve)), steps).value;
             !b.own && b.stack == Perform(a, Callout(procedure, argc, preserve)).stack
    ensures var b, r := Run(Perform(a, Callout(procedure, argc, preserve)), steps).value,
                        Run(a, [Callout(procedure, argc, preserve)] + steps + [Resume]);
            r == Some(a.(result := if preserve then a.result else b.result, second := b.second, third := b.third,
                         fourth := b.fourth, captured := b.captured))
  {
    assert a.stack != [];
    hide Allowed;
    var call := Callout(procedure, argc, preserve);
    var a1 := Perform(a, call);
    RunAppend(a1, steps, [Resume]);
    assert [call] + steps + [Resume] == [call] + (steps + [Resume]);
    assert ([call] + (steps + [Resume]))[1..] == steps + [Resume];
    var b := Run(a1, steps).value;
    ResumeAllowed(b);
    assert Run(b, [Resume]) == Some(Perform(b, Resume));
  }

  lemma ResumeAllowed(b: Scheme)
    requires !b.own && |b.stack| > 1 && b.stack[0].Interrupted?
    ensures Allowed(b, Resume)
  {
  }

  /** The same in memory. */
  method AroundCallout(m: Millicode, ghost a: Scheme, procedure: int, argc: nat, preserve: bool, steps: seq<Step>)
    returns (checked: bool, completed: bool)
    requires Simulates(m, [], a) && Allowed(a, Callout(procedure, argc, preserve))
    requires Run(Perform(a, Callout(procedure, argc, preserve)), steps).Some?
    requires var b := Run(Perform(a, Callout(procedure, argc, preserve)), steps).value;
             !b.own && b.stack == Perform(a, Callout(procedure, argc, preserve)).stack
    modifies m, m.region, m.region.mem
    ensures checked && m.Valid() && (MinimalSize(m.region.buffer) <= m.region.size ==> completed)
    ensures completed ==> m.reg == old(m.reg) && m.fp == old(m.fp) && m.retaddr == old(m.retaddr)
    ensures completed && preserve ==> m.result == old(m.result)
    ensures completed ==> AllInMemory(m.region.All(), a.stack, |a.reg|, |a.fp|)
  {
    hide Perform, Run, Allowed, MinimalSize, AllInMemory, CapturedInMemory, Millicode.Valid;
    CalloutIsTransparent(a, procedure, argc, preserve, steps);
    var ks;
    ghost var given;
    checked, completed, ks, given := Execute(m, [Callout(procedure, argc, preserve)] + steps + [Resume], a);
  }
}
