/** Calling Scheme from millicode, and restoring the interrupted program afterwards. */
module SchemeCallouts {
  import opened FrameChains
  import opened StackRegions

  // A floating-point word travels through the stack as two fixnums.
  function Low(w: nat): nat {
    w % 0x1_0000 * 4
  }

  function High(w: nat): nat {
    w / 0x1_0000 * 4
  }

  /** (high << 14) | (low >> 2) on 32-bit words. */
  function Join(high: nat, low: nat): nat {
    high * 0x4000 % 0x1_0000_0000 + low / 4
  }

  /** The pieces of a word are fixnums, and give the word back. */
  lemma PiecesJoin(w: nat)
    requires w < 0x1_0000_0000
    ensures IsFixnum(Low(w)) && IsFixnum(High(w)) && Low(w) < 0x4_0000 && High(w) < 0x4_0000
    ensures Join(High(w), Low(w)) == w
  {
    assert w == w / 0x1_0000 * 0x1_0000 + w % 0x1_0000;
    assert High(w) * 0x4000 == w / 0x1_0000 * 0x1_0000;
  }

  /** The pieces of a sequence of words. */
  function Pieces(fp: seq<nat>): (p: seq<int>)
    ensures |p| == 2 * |fp|
  {
    if fp == [] then [] else Pieces(fp[..|fp| - 1]) + [Low(fp[|fp| - 1]), High(fp[|fp| - 1])]
  }

  lemma {:induction false} PiecesAt(fp: seq<nat>, i: nat)
    requires i < |fp|
    ensures Pieces(fp)[2 * i] == Low(fp[i]) && Pieces(fp)[2 * i + 1] == High(fp[i])
  {
    if i < |fp| - 1 {
      PiecesAt(fp[..|fp| - 1], i);
    }
  }

  const RETURN_FROM_SCHEME := 0x1000  // a code address, which is word-aligned

  /** The frame that holds an interrupted program. */
  function Context(k: int, reg: seq<int>, fp: seq<nat>, result: int, preserve: bool): (f: seq<int>)
    ensures |f| == 7 + |reg| + 2 * |fp|
  {
    [RETURN_FROM_SCHEME, 4 * (6 + |reg| + 2 * |fp|), 0, 0, k] + reg + Pieces(fp)
    + [result, if preserve then TRUE_CONST else FALSE_CONST]
  }

  lemma ContextIsGood(k: int, reg: seq<int>, fp: seq<nat>, result: int, preserve: bool)
    requires ValidDatum(k) && ValidDatum(result) && forall i | 0 <= i < |reg| :: ValidDatum(reg[i])
    requires 7 + |reg| + 2 * |fp| <= MAX_FRAME
    requires forall i | 0 <= i < |fp| :: fp[i] < 0x1_0000_0000
    ensures GoodFrame(Context(k, reg, fp, result, preserve))
  {
    forall i | 0 <= i < 2 * |fp| ensures ValidDatum(Pieces(fp)[i]) {
      PiecesAt(fp, i / 2);
      PiecesJoin(fp[i / 2]);
    }
  }

  class Millicode {
    const region: Region
    const margin: nat          // words a callout leaves free above the heap
    var reg: seq<int>
    var fp: seq<nat>           // two words for each floating register
    var result: int
    var second: int
    var third: int
    var fourth: int
    var retaddr: int

    ghost predicate Valid()
      reads this, region, region.mem
    {
      && region.Valid() && 5 <= |reg| && |fp| % 2 == 0 && Even(7 + |reg| + 2 * |fp|) + margin <= MAX_FRAME
      && GoodRoots()
      && (forall i | 0 <= i < |fp| :: fp[i] < 0x1_0000_0000)
    }

    constructor (region: Region, margin: nat, reg: seq<int>, fp: seq<nat>)
      requires region.Valid() && 5 <= |reg| && |fp| % 2 == 0 && Even(7 + |reg| + 2 * |fp|) + margin <= MAX_FRAME
      requires forall i | 0 <= i < |reg| :: ValidDatum(reg[i])
      requires forall i | 0 <= i < |fp| :: fp[i] < 0x1_0000_0000
      ensures Valid() && this.region == region && this.margin == margin && this.reg == reg && this.fp == fp
      ensures result == second == third == fourth == FALSE_CONST && retaddr == 0
    {
      this.region, this.margin, this.reg, this.fp := region, margin, reg, fp;
      result, second, third, fourth, retaddr := FALSE_CONST, FALSE_CONST, FALSE_CONST, FALSE_CONST, 0;
    }

    ghost predicate GoodGlobals()
      reads this
    {
      ValidDatum(result) && ValidDatum(second) && ValidDatum(third) && ValidDatum(fourth) && ValidDatum(retaddr)
    }

    ghost predicate GoodRoots()
      reads this
    {
      GoodGlobals() && forall i | 0 <= i < |reg| :: ValidDatum(reg[i])
    }

    lemma ValidIsInOrder()
      requires Valid()
      ensures GoodRoots() && region.InOrder() && region.mem.Length == region.size
    {
      region.ValidIsInOrder();
    }

    /** The check of the roots, of the heap and stack pointers, and of the frames on the stack. */
    method IntegrityCheck() returns (ok: bool)
      requires region.mem.Length == region.size
      ensures ok <==> GoodRoots() && region.InOrder()
    {
      ok := ValidDatum(result) && ValidDatum(second) && ValidDatum(third) && ValidDatum(fourth) && ValidDatum(retaddr);
      for i := 0 to |reg|
        invariant ok <==> GoodGlobals() && forall k | 0 <= k < i :: ValidDatum(reg[k])
      {
        ok := ok && ValidDatum(reg[i]);
      }
      var inOrder := region.IntegrityCheck();
      ok := ok && inOrder;
    }

    /** The words of the callout frame behind the registers. */
    method FloatingPieces() returns (p: seq<int>)
      requires Valid()
      ensures p == Pieces(fp)
    {
      p := [];
      for i := 0 to |fp| / 2
        invariant p == Pieces(fp[..2 * i])
      {
        var w0, w1 := fp[2 * i], fp[2 * i + 1];
        p := p + [Low(w0), High(w0), Low(w1), High(w1)];
        assert fp[..2 * i + 1] == fp[..2 * i] + [w0] && fp[..2 * i + 2] == fp[..2 * i + 1] + [w1];
        assert fp[..2 * i + 1][..2 * i] == fp[..2 * i] && fp[..2 * i + 2][..2 * i + 1] == fp[..2 * i + 1];
      }
      assert fp[..2 * (|fp| / 2)] == fp;
    }

    /** Push the interrupted program and enter `procedure` with `argc` arguments.  Fails if there is no
        room for the frame, and the margin, even after a collection. */
    method Callout(procedure: int, argc: nat, preserve: bool) returns (ok: bool)
      requires Valid() && ValidDatum(procedure)
      modifies this, region, region.mem
      ensures Valid() && |reg| == old(|reg|)
      ensures var words := Even(7 + |old(reg)| + 2 * |old(fp)|);
              ok == (old(region.stkp) - words >= old(region.etop) + margin || old(region.Room()) - words >= margin)
      ensures MinimalSize(region.buffer) <= region.size ==> ok
      ensures ok ==> region.etop + margin <= region.stkp
      ensures region.Heap() == old(region.Heap()) || region.Heap() == EMPTY
      ensures ok ==>
                region.All() == [Context(old(retaddr), old(reg), old(fp), old(result), preserve)] + old(region.All())
      ensures ok ==> reg == [procedure, old(result), old(second), old(third), old(fourth)] + old(reg[5..])
      ensures ok ==> result == 4 * argc && fp == old(fp) && retaddr == 0
      ensures second == old(second) && third == old(third) && fourth == old(fourth)
    {
      hide Chain, GoodFrame, Region.Valid, Region.All, Region.Heap, Pieces, Context, MinimalSize;
      NotEmpty();
      ok := PushContext(preserve);
      if ok {
        reg := reg[1 := result][2 := second][3 := third][4 := fourth];
        reg, result, retaddr := reg[0 := procedure], 4 * argc, 0;
      }
    }

    method PushContext(preserve: bool) returns (ok: bool)
      requires Valid()
      modifies region, region.mem
      ensures Valid() && region.All() != []
      ensures var words := Even(7 + |reg| + 2 * |fp|);
              && old(region.All()) != []
              && ok == (old(region.stkp) - words >= old(region.etop) + margin || old(region.Room()) - words >= margin)
      ensures MinimalSize(region.buffer) <= region.size ==> ok
      ensures ok ==> region.etop + margin <= region.stkp
      ensures region.Heap() == old(region.Heap()) || region.Heap() == EMPTY
      ensures ok ==> region.All() == [Context(retaddr, reg, fp, result, preserve)] + old(region.All())
    {
      hide Chain, GoodFrame, Region.Valid, Region.Heap, Pieces, MinimalSize;
      NotEmpty();
      ContextIsGood(retaddr, reg, fp, result, preserve);
      ok := region.Reserve(7 + |reg| + 2 * |fp|, margin);
      if ok {
        var frame := [RETURN_FROM_SCHEME, 4 * (6 + |reg| + 2 * |fp|), 0, 0, retaddr] + reg;
        var p := FloatingPieces();
        frame := frame + p + [result, if preserve then TRUE_CONST else FALSE_CONST];
        assert frame == Context(retaddr, reg, fp, result, preserve);
        region.Push(frame);
      }
    }

    /** The registers out of the newest frame `f`. */
    method LoadRegisters(ghost f: seq<int>)
      requires region.Valid() && region.frames != [] && f == region.All()[0] && 5 + |reg| <= |f|
      modifies `reg
      ensures |reg| == old(|reg|) && reg == f[5..5 + |reg|]
    {
      hide Chain, GoodFrame, Region.Valid;
      TopOfAll();
      var n := |reg|;
      for i := 0 to n
        invariant |reg| == n && reg[..i] == f[5..5 + i]
      {
        ghost var before := reg[..i];
        var x := region.GetWord(5 + i);
        reg := reg[i := x];
        assert reg[..i + 1] == before + [x] && f[5..5 + i + 1] == f[5..5 + i] + [x];
      }
      assert reg == reg[..n];
    }

    /** The floating registers out of the newest frame `f`, which holds them as pieces from `at` on. */
    method LoadFloats(ghost f: seq<int>, at: nat, ghost fp0: seq<nat>)
      requires region.Valid() && region.frames != [] && f == region.All()[0]
      requires |fp0| == |fp| && at + 2 * |fp| <= |f| && f[at..at + 2 * |fp|] == Pieces(fp0)
      requires forall i | 0 <= i < |fp0| :: fp0[i] < 0x1_0000_0000
      modifies `fp
      ensures fp == fp0
    {
      hide Chain, GoodFrame, Region.Valid, Pieces, Join, Low, High;
      TopOfAll();
      var n := |fp|;
      for i := 0 to n
        invariant |fp| == n && fp[..i] == fp0[..i]
      {
        ghost var before := fp[..i];
        PiecesAt(fp0, i);
        PiecesJoin(fp0[i]);
        assert f[at + 2 * i] == f[at..at + 2 * n][2 * i] && f[at + 2 * i + 1] == f[at..at + 2 * n][2 * i + 1];
        var high := region.GetWord(at + 2 * i + 1);
        var low := region.GetWord(at + 2 * i);
        fp := fp[i := Join(high, low)];
        assert fp[..i + 1] == before + [fp0[i]] && fp0[..i + 1] == fp0[..i] + [fp0[i]];
      }
      assert fp == fp[..n] && fp0 == fp0[..n];
    }

    lemma TopOfAll()
      requires region.Valid() && region.frames != []
      ensures region.All() != [] && region.All()[0] == region.frames[0]
    {
    }

    static lemma ContextParts(k: int, r: seq<int>, w: seq<nat>, res: int, preserve: bool)
      ensures var f, n := Context(k, r, w, res, preserve), 5 + |r|;
              && f[4] == k && f[5..n] == r && f[n..n + 2 * |w|] == Pieces(w) && |f| == n + 2 * |w| + 2
              && f[n + 2 * |w|] == res && f[n + 2 * |w| + 1] == if preserve then TRUE_CONST else FALSE_CONST
    {
    }

    /** Pop the newest frame, which has `words` words, and refill the stack if it is empty. */
    method PopContext(words: nat)
      requires region.Valid() && region.frames != [] && |region.frames[0]| == words >= 4 && |region.All()| > 1
      modifies region, region.mem
      ensures region.Valid() && region.All() == old(region.All())[1..] && region.frames != []
      ensures region.Heap() == old(region.Heap()) || region.Heap() == EMPTY
    {
      region.Pop(words - 4);
      region.StackEmpty();
      if region.stkp == region.stkbot {
        region.Underflow();
      }
    }

    /** Restore the interrupted program from the newest frame, and pop it. */
    method RestoreContext(ghost k0: int, ghost reg0: seq<int>, ghost fp0: seq<nat>, ghost result0: int,
                          ghost preserve: bool)
      returns (k: int)
      requires Valid() && region.frames != [] && |region.All()| > 1 && |reg0| == |reg| && |fp0| == |fp|
      requires region.All()[0] == Context(k0, reg0, fp0, result0, preserve)
      requires forall i | 0 <= i < |fp0| :: fp0[i] < 0x1_0000_0000
      modifies this, region, region.mem
      ensures Valid() && region.All() == old(region.All())[1..] && region.frames != []
      ensures region.Heap() == old(region.Heap()) || region.Heap() == EMPTY
      ensures reg == reg0 && fp == fp0 && k == retaddr == k0
      ensures result == if preserve then result0 else old(result)
      ensures second == old(second) && third == old(third) && fourth == old(fourth)
    {
      hide *;
      LoadContext(k0, reg0, fp0, result0, preserve);
      k := retaddr;
      ContextParts(k0, reg0, fp0, result0, preserve);
      ValidParts();
      TopOfAll();
      PopContext(7 + |reg| + 2 * |fp|);
      ValidParts();
    }

    lemma ValidParts()
      ensures Valid() ==> region.Valid()
      ensures Valid() <==>
              && region.Valid() && 5 <= |reg| && |fp| % 2 == 0 && Even(7 + |reg| + 2 * |fp|) + margin <= MAX_FRAME
              && (forall i | 0 <= i < |reg| :: ValidDatum(reg[i]))
              && (forall i | 0 <= i < |fp| :: fp[i] < 0x1_0000_0000)
              && ValidDatum(result) && ValidDatum(second) && ValidDatum(third) && ValidDatum(fourth)
              && ValidDatum(retaddr)
    {
    }

    /** Load the registers from the newest frame. */
    method LoadContext(ghost k0: int, ghost reg0: seq<int>, ghost fp0: seq<nat>, ghost result0: int,
                       ghost preserve: bool)
      requires Valid() && region.frames != [] && |reg0| == |reg| && |fp0| == |fp|
      requires region.All()[0] == Context(k0, reg0, fp0, result0, preserve)
      requires forall i | 0 <= i < |fp0| :: fp0[i] < 0x1_0000_0000
      modifies `reg, `fp, `retaddr, `result
      ensures Valid() && reg == reg0 && fp == fp0 && retaddr == k0
      ensures result == if preserve then result0 else old(result)
    {
      hide Chain, Region.Valid, Region.Heap, Pieces, Context, ValidDatum;
      ghost var f := region.All()[0];
      ContextParts(k0, reg0, fp0, result0, preserve);
      TopIsGood();
      TopOfAll();
      LoadRegisters(f);
      var n := 5 + |reg|;
      LoadFloats(f, n, fp0);
      retaddr := region.GetWord(4);
      var keep := region.GetWord(n + 2 * |fp| + 1);
      if keep == TRUE_CONST {
        result := region.GetWord(n + 2 * |fp|);
      }
      assert forall i | 0 <= i < |reg| :: reg[i] == f[5 + i];
    }

    lemma TopIsGood()
      requires Valid() && region.frames != []
      ensures GoodFrame(region.All()[0])
    {
    }

    lemma NotEmpty()
      requires Valid()
      ensures |region.All()| > 0
    {
    }
  }
}
