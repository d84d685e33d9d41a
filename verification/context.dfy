/** Saving the registers across a call into the run-time system, and calling back into Scheme. */
module CallContext {
  import opened ContinuationFrames
  import opened StackCache
  import opened ContinuationRuns

  const LASTREG := NREGS - 1

  /** The code that restores a context, and the code that the trampoline ends with. */
  const RESTORE_CONTEXT := Procedure(0)
  const INITIAL := Procedure(1)

  datatype Option<T> = None | Some(value: T)

  /** How a call from outside ends. */
  datatype Outcome = Returned(result: SObject) | Raised(exception: nat)

  /** What Scheme code does from its entry on: operations on the stack, what it leaves in the registers
      and in Result, and the exception that it throws, if any. */
  datatype Behaviour = Behaviour(ops: seq<Op>, registers: seq<SObject>, left: SObject, exception: Option<nat>)

  /** Code acts on the registers and Result that it finds. */
  type Code = (seq<SObject>, SObject) -> Behaviour

  ghost predicate GoodBehaviour(b: Behaviour, start: Machine) {
    |b.registers| == NREGS && Run(start, b.ops).Is?
  }

  class Processor {
    var reg: seq<SObject>
    var result: SObject
    var implicitContinuation: Label
    const stack: Cont

    constructor (registers: seq<SObject>, cacheSize: nat)
      requires |registers| == NREGS && 1 <= cacheSize
      ensures Valid() && reg == registers && stack.Stack() == [Frame(0, [INITIAL])]
      ensures result == Null && implicitContinuation == -1
    {
      reg, result, implicitContinuation := registers, Null, -1;
      stack := new Cont(cacheSize, INITIAL);
    }

    ghost predicate Valid()
      reads this, stack, stack.ring, stack.spilled
    {
      |reg| == NREGS && stack.Valid()
    }

    /** Push a frame that restores everything, and clear the implicit continuation. */
    method SaveContext(full: bool)
      requires Valid() && reg[0].Procedure?
      modifies `implicitContinuation, stack, stack.ring`fields, stack.ring`overflowSlots, stack.ring`lastslot
      modifies stack.ring`returnIndex, stack.ring`dirty
      ensures Valid() && implicitContinuation == -1
      ensures stack.Stack() ==
              [ContextFrame(RESTORE_CONTEXT, old(implicitContinuation), reg, result, full)] + old(stack.Stack())
    {
      hide Cont.Linked, Cont.Holding, Cont.Stack, ChainOf, ContextFrame;
      stack.Save(1 + LASTREG + 2, reg[0]);
      ghost var saved := stack.Stack();
      stack.SaveRegisters(RESTORE_CONTEXT, implicitContinuation, reg, result, full);
      assert saved == [saved[0]] + saved[1..];
      implicitContinuation := -1;
    }

    /** Restore the registers from the newest frame and pop it.  `ok` is false if the frame does not
        restore a context or is the last one. */
    method RestoreContext(jumpIndex: Label) returns (ok: bool, entry: nat, jump: Label)
      requires Valid() && stack.Stack() != [] && |stack.Stack()[0].slots| == NREGS + 3
               && stack.Stack()[0].slots[1].Procedure?
      modifies `reg, `result, stack, stack.ring`fields, stack.ring`overflowSlots, stack.ring`lastslot
      modifies stack.ring`returnIndex, stack.ring`dirty
      ensures reg == old(stack.Stack())[0].slots[1..NREGS + 1]
      ensures result == if old(stack.Stack())[0].slots[NREGS + 2] == True then old(stack.Stack())[0].slots[NREGS + 1]
                        else old(result)
      ensures ok == (old(stack.Stack())[0].slots[0] == RESTORE_CONTEXT && |old(stack.Stack())| > 1)
      ensures ok ==>
                Valid() && stack.Stack() == old(stack.Stack())[1..] && reg[0] == Procedure(entry) && jump == jumpIndex
    {
      hide Cont.Linked, Cont.Holding, Cont.Stack, ChainOf;
      ghost var top := stack.Stack()[0];
      for i := 0 to NREGS
        invariant Valid() && stack.Stack() == old(stack.Stack()) && reg[..i] == top.slots[1..i + 1]
        modifies `reg
      {
        var value := stack.Load(i + 1);
        ghost var before := reg[..i];
        reg := reg[i := value];
        assert reg[..i + 1] == before + [value] && top.slots[1..i + 2] == top.slots[1..i + 1] + [value];
      }
      assert reg == reg[..NREGS];
      var restoreResult := stack.Load(LASTREG + 3);
      if restoreResult == True {
        result := stack.Load(LASTREG + 2);
      }
      entry, jump := reg[0].entry, jumpIndex;
      ok := stack.CheckPop(NREGS + 2, RESTORE_CONTEXT);
      if ok {
        ok := stack.Pop();
      }
    }

    /** What a call into the run-time system does to the registers is undone when it returns,
        whatever the stack went through in between: here the continuation is captured, operations
        run on the stack, and the continuation is thrown to. */
    method AroundOperations(full: bool, ops: seq<Op>, clobbered: seq<SObject>, clobberedResult: SObject)
      returns (ok: bool, entry: nat, jump: Label)
      requires Valid() && reg[0].Procedure? && |clobbered| == NREGS
      requires Run(ListOf([ContextFrame(RESTORE_CONTEXT, implicitContinuation, reg, result, full)]
               + stack.Stack()), ops).Is?
      modifies this, stack, stack.ring`fields, stack.ring`overflowSlots, stack.ring`lastslot
      modifies stack.ring`returnIndex, stack.ring`dirty
      ensures ok && Valid() && stack.Stack() == old(stack.Stack()) && reg == old(reg)
      ensures result == if full then old(result) else clobberedResult
      ensures old(reg)[0] == Procedure(entry) && jump == old(implicitContinuation)
    {
      hide Cont.Linked, Cont.Holding, Cont.Stack, ChainOf, Run, MatchesAll, GoodFrame, ListOf, ContextFrame;
      NotEmpty();
      ghost var top := ContextFrame(RESTORE_CONTEXT, implicitContinuation, reg, result, full);
      ContextSlots(RESTORE_CONTEXT, implicitContinuation, reg, result, full);
      SaveContext(full);
      var k;
      ghost var vs, fs := [], stack.Stack();
      k, vs := stack.GetCC();
      ListMatches(stack.Stack());
      var _ := Execute(stack, ops, ListOf(stack.Stack()));
      reg, result := clobbered, clobberedResult;
      ok, entry, jump := ReturnTo(k, vs, fs, top);
    }

    /** Throw to a continuation whose newest frame restores a context. */
    method ReturnTo(k: SObject, ghost vs: seq<SVL>, ghost fs: seq<Frame>, ghost top: Frame)
      returns (ok: bool, entry: nat, jump: Label)
      requires Valid() && ChainOf(k, vs, fs) && |fs| > 1 && top == fs[0]
      requires |top.slots| == NREGS + 3 && top.slots[0] == RESTORE_CONTEXT && top.slots[1].Procedure?
      modifies this, stack, stack.ring`fields, stack.ring`overflowSlots, stack.ring`lastslot
      modifies stack.ring`returnIndex, stack.ring`dirty
      ensures ok && Valid() && stack.Stack() == fs[1..] && reg == top.slots[1..NREGS + 1]
      ensures result == if top.slots[NREGS + 2] == True then top.slots[NREGS + 1] else old(result)
      ensures reg[0] == Procedure(entry) && jump == top.ret
    {
      hide Cont.Linked, Cont.Holding, Cont.Stack, ChainOf, GoodFrame;
      ChainStep(k, vs, fs);
      ValidParts(stack);
      var _ := stack.SetCC(k, vs, fs);
      var _, index := stack.ReturnAddress();
      ok, entry, jump := RestoreContext(index);
    }

    static lemma ContextSlots(restore: SObject, index: Label, r: seq<SObject>, res: SObject, full: bool)
      requires |r| == NREGS
      ensures var f := ContextFrame(restore, index, r, res, full);
              && f.ret == index && |f.slots| == NREGS + 3 && f.slots[0] == restore && f.slots[1] == r[0]
                 && f.slots[1..NREGS + 1] == r
              && f.slots[NREGS + 1] == res && f.slots[NREGS + 2] == if full then True else False
    {
    }

    lemma NotEmpty()
      requires Valid()
      ensures |stack.Stack()| > 0
    {
    }

    /** A call from outside into Scheme.  The code finds the procedure in register 0, the arguments behind
        it, their number in Result, and the other registers as they were.  Either way the continuation is
        afterwards what it was. */
    method Callback(p: SObject, args: seq<SObject>, code: Code) returns (r: Outcome)
      requires Valid() && p.Procedure? && |args| <= 4
      requires GoodBehaviour(code([p] + args + reg[|args| + 1..], Fixnum(|args|)), ListOf([Frame(0, [INITIAL])]))
      modifies `reg, `result, stack, stack.ring`fields, stack.ring`overflowSlots, stack.ring`lastslot
      modifies stack.ring`returnIndex, stack.ring`dirty
      ensures Valid() && stack.Stack() == old(stack.Stack())
      ensures var b := code([p] + args + old(reg)[|args| + 1..], Fixnum(|args|));
              && reg == b.registers && result == b.left
              && r == if b.exception.Some? then Raised(b.exception.value) else Returned(b.left)
    {
      hide Cont.Valid, Cont.Linked, Cont.Holding, Cont.FramesValid, Cont.Stack, ChainOf, Run, GoodFrame, ListOf;
      hide GoodBehaviour;
      NotEmpty();
      var k;
      ghost var vs, fs := [], stack.Stack();
      k, vs := stack.GetCC();
      ChainStep(k, vs, fs);
      stack.Reset(INITIAL);
      SetArguments(args);
      assert [p] + args + reg[|args| + 1..] == reg[0 := p];
      r := Trampoline(p, |args|, code);
      ValidParts(stack);
      var _ := stack.SetCC(k, vs, fs);
    }

    /** The arguments of a call go to registers 1, 2, ... */
    method SetArguments(args: seq<SObject>)
      requires |reg| == NREGS && |args| <= 4
      modifies `reg
      ensures |reg| == NREGS && reg[1..|args| + 1] == args && reg[|args| + 1..] == old(reg)[|args| + 1..]
    {
      for i := 0 to |args|
        invariant |reg| == NREGS && forall k | 0 <= k < i :: reg[k + 1] == args[k]
        invariant forall k | i < k < NREGS :: reg[k] == old(reg)[k]
      {
        reg := reg[i + 1 := args[i]];
      }
    }

    /** Run Scheme code until it returns to the initial continuation or throws an exception. */
    method Trampoline(p: SObject, argc: nat, code: Code) returns (r: Outcome)
      requires Valid() && GoodBehaviour(code(reg[0 := p], Fixnum(argc)), ListOf(stack.Stack()))
      modifies `reg, `result, stack, stack.ring`fields, stack.ring`overflowSlots, stack.ring`lastslot
      modifies stack.ring`returnIndex, stack.ring`dirty
      ensures var b := code(old(reg)[0 := p], Fixnum(argc));
              && Valid() && reg == b.registers && result == b.left
              && r == if b.exception.Some? then Raised(b.exception.value) else Returned(b.left)
    {
      hide Cont.Valid, Cont.Stack, ChainOf, Run, MatchesAll, Represents, ListOf;
      reg, result := reg[0 := p], Fixnum(argc);
      var b := code(reg, result);
      ListMatches(stack.Stack());
      var _ := Execute(stack, b.ops, ListOf(stack.Stack()));
      reg, result := b.registers, b.left;
      r := if b.exception.Some? then Raised(b.exception.value) else Returned(result);
    }
  }
}
