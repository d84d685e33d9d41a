/** One memory area that the heap fills from below and the stack from above. */
module StackRegions {
  import opened FrameChains

  const LARGE_OBJECT_WORDS := 1024
  const LARGEST_OBJECT := 16777215  // bytes
  const UNDERFLOW_WORDS := 4

  /** What lies at the bottom of the stack: a frame whose return address handles stack underflow. */
  const UNDERFLOW_FRAME := [0, 12, 0xDEADBEEF, 0]

  /** The size in words, buffer included, from which no operation can fail for lack of room. */
  function MinimalSize(buffer: nat): nat {
    2 * MAX_FRAME + 2 * UNDERFLOW_WORDS + buffer
  }

  /** The outcome of an allocation: a place in the area, a large object, an exception because no object
      may be so large, or an assertion that fails because there is no room even after a collection. */
  datatype Allocated = At(p: int) | Large | TooLarge | NoRoom

  /** An object in the area: where it begins, and its words. */
  datatype Block = Block(at: int, words: nat)

  /** The heap after a collection, which moves all objects elsewhere. */
  ghost const EMPTY: (int, seq<Block>, seq<int>) := (0, [], [])

  class Region {
    const size: nat
    const buffer: nat            // words kept free between heap and stack by the slow paths
    const mem: array<int>
    var etop: int
    var stkp: int
    var stkbot: int
    var cont: seq<seq<int>>      // the heap continuation, newest frame first

    ghost var frames: seq<seq<int>>
    ghost var objects: seq<Block>  // allocated since the last collection

    ghost predicate Valid()
      reads this, mem
    {
      Sound() && HasBottom()
    }

    /** An underflow frame lies at the bottom of the stack. */
    ghost predicate HasBottom()
      reads `stkbot, mem
    {
      0 <= stkbot <= mem.Length - UNDERFLOW_WORDS && mem[stkbot..stkbot + UNDERFLOW_WORDS] == UNDERFLOW_FRAME
    }

    /** Everything is in order but perhaps the underflow frame. */
    ghost predicate Sound()
      reads this, mem
    {
      && mem.Length == size && buffer % 2 == 0 && size % 2 == 0
      && LARGE_OBJECT_WORDS + MAX_FRAME <= size && buffer <= LARGE_OBJECT_WORDS
      && 0 <= etop <= stkp <= stkbot <= size && etop % 2 == stkp % 2 == stkbot % 2 == 0
      && Chain(mem[..], stkp, frames, stkbot)
      && (forall i | 0 <= i < |cont| :: GoodFrame(cont[i]))
      && frames + cont != []
      && ObjectsApart()
    }

    /** The objects lie one behind the other, and below the heap pointer. */
    ghost predicate ObjectsApart()
      reads `objects, `etop
    {
      && (forall i | 0 <= i < |objects| :: 0 <= objects[i].at && objects[i].at + objects[i].words <= etop)
      && (forall i, j | 0 <= i < j < |objects| :: objects[i].at + objects[i].words <= objects[j].at)
    }

    /** The heap pointer, the objects, and all words below the heap pointer. */
    ghost function Heap(): (int, seq<Block>, seq<int>)
      reads `etop, `objects, mem
    {
      (etop, objects, if 0 <= etop <= mem.Length then mem[..etop] else [])
    }

    /** The continuation: all frames, newest first. */
    ghost function All(): seq<seq<int>>
      reads `frames, `cont
    {
      frames + cont
    }

    /** An area of any size that passes the check when a nursery is created, with an underflow frame. */
    constructor (size: nat, buffer: nat, initial: seq<int>)
      requires buffer % 2 == 0 && size % 2 == 0 && GoodFrame(initial)
      requires LARGE_OBJECT_WORDS + MAX_FRAME <= size && buffer <= LARGE_OBJECT_WORDS
      ensures Valid() && fresh(mem) && All() == [initial] && this.size == size && this.buffer == buffer
      ensures etop == 0 && stkp == size - UNDERFLOW_WORDS && frames == [] && objects == []
    {
      this.size, this.buffer := size, buffer;
      var memory := new int[size](_ => 0);
      forall i | 0 <= i < UNDERFLOW_WORDS {
        memory[size - UNDERFLOW_WORDS + i] := UNDERFLOW_FRAME[i];
      }
      mem := memory;
      etop, stkp, stkbot := 0, size - UNDERFLOW_WORDS, size - UNDERFLOW_WORDS;
      cont, frames, objects := [initial], [], [];
    }

    /** Write a frame and nothing else. */
    method WriteFrame(at: nat, f: seq<int>)
      requires at + |f| <= mem.Length
      modifies mem
      ensures mem[at..at + |f|] == f && mem[at + |f|..] == old(mem[at + |f|..]) && mem[..at] == old(mem[..at])
      ensures forall e | 0 <= e <= at :: mem[..e] == old(mem[..e])
    {
      var i := 0;
      while i < |f|
        invariant 0 <= i <= |f| && mem[at..at + i] == f[..i]
        invariant mem[at + |f|..] == old(mem[at + |f|..]) && mem[..at] == old(mem[..at])
      {
        mem[at + i] := f[i];
        i := i + 1;
      }
      forall e | 0 <= e <= at ensures mem[..e] == old(mem[..e]) {
        assert mem[..e] == mem[..at][..e] && old(mem[..e]) == old(mem[..at])[..e];
      }
    }

    lemma FramesAreGood(m: seq<int>, at: int, fs: seq<seq<int>>, bot: int)
      requires Chain(m, at, fs, bot)
      ensures forall i | 0 <= i < |fs| :: GoodFrame(fs[i])
      decreases |fs|
    {
      if fs != [] {
        FramesAreGood(m, at + Even(|fs[0]|), fs[1..], bot);
      }
    }

    /** Walk the stack from frame to frame. */
    method Gather() returns (found: seq<seq<int>>)
      requires Valid()
      ensures found == frames
    {
      hide Chain, GoodFrame, HasBottom, ObjectsApart;
      var top := stkp;
      found := [];
      ghost var left := frames;
      ChainBounds(mem[..], top, left, stkbot);
      while top < stkbot
        invariant 0 <= top <= stkbot <= mem.Length && found + left == frames
        invariant Chain(mem[..], top, left, stkbot) && (top < stkbot <==> left != [])
        decreases stkbot - top
      {
        ChainPop(mem[..], top, left, stkbot);
        FrameSize(left[0]);
        var contsize := mem[top + STK_CONTSIZE];
        var n := contsize / 4 + 1;
        assert mem[top..top + n] == left[0];
        found := found + [mem[top..top + n]];
        top := top + Even(n);
        left := left[1..];
        ChainBounds(mem[..], top, left, stkbot);
      }
    }

    /** Move all frames into the heap continuation. */
    method Flush()
      requires Valid()
      modifies `stkbot, `cont, `frames
      ensures Sound() && frames == [] && stkbot == stkp && All() == old(All()) && Heap() == old(Heap())
    {
      hide GoodFrame;
      var flushed := Gather();
      FramesAreGood(mem[..], stkp, frames, stkbot);
      cont := flushed + cont;
      stkbot := stkp;
      frames := [];
    }

    lemma ChainBounds(m: seq<int>, at: int, fs: seq<seq<int>>, bot: int)
      requires Chain(m, at, fs, bot)
      ensures 0 <= at <= bot <= |m| && (at < bot <==> fs != [])
    {
    }

    lemma FrameSize(f: seq<int>)
      requires GoodFrame(f)
      ensures 4 <= |f| <= MAX_FRAME
    {
    }

    /** Make an underflow frame the bottom of an empty stack.  Fails if there is no room. */
    method Create() returns (ok: bool)
      requires Sound() && frames == []
      modifies mem, `stkp, `stkbot
      ensures Sound() && frames == [] && Heap() == old(Heap()) && (ok ==> Valid())
      ensures ok == (old(stkp) - UNDERFLOW_WORDS >= etop && old(stkp) - buffer >= etop)
      ensures stkp == if ok then old(stkp) - UNDERFLOW_WORDS else old(stkp)
    {
      ok := stkp - buffer >= etop && stkp - UNDERFLOW_WORDS >= etop;
      if ok {
        WriteFrame(stkp - UNDERFLOW_WORDS, UNDERFLOW_FRAME);
        stkp := stkp - UNDERFLOW_WORDS;
        stkbot := stkp;
      }
    }

    /** Push a frame that is already good. */
    method Push(f: seq<int>)
      requires Valid() && GoodFrame(f) && etop <= stkp - Even(|f|)
      modifies `stkp, `frames, mem
      ensures Valid() && All() == [f] + old(All()) && frames == [f] + old(frames) && stkp == old(stkp) - Even(|f|)
      ensures Heap() == old(Heap())
    {
      hide GoodFrame, Chain, MinimalSize, HasBottom, ObjectsApart, Heap;
      ghost var before, at := mem[..], stkp;
      BottomIs();
      FrameSize(f);
      ChainBounds(before, at, frames, stkbot);
      stkp := stkp - Even(|f|);
      WriteFrame(stkp, f);
      ghost var k := stkp + |f|;
      assert mem[..][k..] == mem[k..] && before[k..] == old(mem[k..]) && mem[..][stkp..k] == mem[stkp..k];
      BottomKept(before, mem[..], stkp + |f|, stkbot);
      PushedChain(before, mem[..], at, f, frames, stkbot);
      BottomIs();
      SameHeap();
      frames := [f] + frames;
    }

    twostate lemma SameHeap()
      requires etop == old(etop) && objects == old(objects)
      requires 0 <= etop <= mem.Length && mem[..etop] == old(mem[..etop])
      ensures Heap() == old(Heap())
    {
    }

    lemma BottomIs()
      ensures HasBottom() <==>
              && 0 <= stkbot <= mem.Length - UNDERFLOW_WORDS
              && mem[..][stkbot..stkbot + UNDERFLOW_WORDS] == UNDERFLOW_FRAME
    {
      if 0 <= stkbot <= mem.Length - UNDERFLOW_WORDS {
        assert mem[..][stkbot..stkbot + UNDERFLOW_WORDS] == mem[stkbot..stkbot + UNDERFLOW_WORDS];
      }
    }

    static lemma BottomKept(m: seq<int>, m': seq<int>, from: nat, bot: nat)
      requires |m| == |m'| && from <= bot <= |m| - UNDERFLOW_WORDS && m[from..] == m'[from..]
      ensures m'[bot..bot + UNDERFLOW_WORDS] == m[bot..bot + UNDERFLOW_WORDS]
    {
      SliceOfRest(m, from, bot, UNDERFLOW_WORDS);
      SliceOfRest(m', from, bot, UNDERFLOW_WORDS);
    }

    static lemma SliceOfRest(m: seq<int>, from: nat, at: nat, n: nat)
      requires from <= at && at + n <= |m|
      ensures m[from..][at - from..at - from + n] == m[at..at + n]
    {
    }

    lemma PushedChain(m: seq<int>, m': seq<int>, at: int, f: seq<int>, fs: seq<seq<int>>, bot: int)
      requires Chain(m, at, fs, bot) && |m'| == |m| && GoodFrame(f) && 0 <= at - Even(|f|)
      requires var k := at - Even(|f|); m'[k..k + |f|] == f && m'[k + |f|..] == m[k + |f|..]
      ensures Chain(m', at - Even(|f|), [f] + fs, bot)
    {
      var k := at - Even(|f|);
      assert m'[at..] == m'[k + |f|..][Even(|f|) - |f|..] && m[at..] == m[k + |f|..][Even(|f|) - |f|..];
      ChainKept(m, m', at, fs, bot);
      ChainPush(m', k, f, fs, bot);
    }

    /** Copy the newest heap frame to the stack, which is empty.  Fails if there is no room. */
    method RestoreFrame() returns (ok: bool)
      requires Valid() && frames == []
      modifies mem, `stkp, `cont, `frames
      ensures Valid() && All() == old(All()) && ok == (old(stkp) - Even(|old(cont)[0]|) >= etop)
      ensures Heap() == old(Heap())
      ensures ok ==> frames == [old(cont)[0]] && stkp == old(stkp) - Even(|old(cont)[0]|) && stkbot == old(stkbot)
      ensures !ok ==> stkp == old(stkp) && frames == []
    {
      hide GoodFrame, Chain, HasBottom;
      var f := cont[0];
      ok := stkp - Even(|f|) >= etop;
      if ok {
        Push(f);
        cont := cont[1..];
      }
    }

    /** Where the stack pointer is after a collection: below an underflow frame and the newest frame. */
    ghost function Room(): int
      requires All() != []
      reads `frames, `cont
    {
      size - UNDERFLOW_WORDS - Even(|All()[0]|)
    }

    /** A collection: everything leaves the area but the newest frame.  Recreating the stack cannot
        fail. */
    method Collect()
      requires Valid()
      modifies this, mem
      ensures Valid() && All() == old(All()) && |frames| == 1 && stkp == Room() && Heap() == EMPTY
    {
      Flush();
      etop, stkp, stkbot, objects := 0, size, size, [];
      var created := Create();
      var restored := RestoreFrame();
      assert created && restored;
    }

    /** Words free for the heap. */
    function Free(): int
      reads `etop, `stkp
    {
      stkp - buffer - etop
    }

    /** With the minimal size there is room after any collection. */
    lemma RoomSuffices()
      requires Valid() && MinimalSize(buffer) <= size
      ensures Room() - buffer >= LARGE_OBJECT_WORDS && Room() - buffer >= Even(|All()[0]|) + UNDERFLOW_WORDS
      ensures Room() >= MAX_FRAME + buffer
    {
      AllAreGood();
    }

    lemma AllAreGood()
      requires Sound()
      ensures forall i | 0 <= i < |All()| :: GoodFrame(All()[i])
    {
      FramesAreGood(mem[..], stkp, frames, stkbot);
    }

    /** An object of `nwords` words at the heap pointer. */
    method Bump(nwords: nat) returns (o: Allocated)
      requires Valid() && etop + Even(nwords) <= stkp
      modifies `etop, `objects
      ensures Valid() && o == At(old(etop)) && etop == old(etop) + Even(nwords)
      ensures objects == old(objects) + [Block(old(etop), nwords)]
    {
      hide Chain, GoodFrame, HasBottom;
      o := At(etop);
      etop, objects := etop + Even(nwords), objects + [Block(etop, nwords)];
    }

    /** Memory for an object of `nwords` words. */
    method Alloc(nwords: nat) returns (o: Allocated)
      requires Valid()
      modifies this, mem
      ensures Valid() && All() == old(All()) && (frames == [] ==> old(frames) == [])
      ensures o.TooLarge? <==> 4 * Even(nwords) > LARGEST_OBJECT
      ensures o.At? ==>
                var before := if old(stkp - etop) >= Even(nwords) then old(Heap()) else EMPTY;
                && o.p == before.0 && etop == o.p + Even(nwords) && objects == before.1 + [Block(o.p, nwords)]
                && o.p <= mem.Length && mem[..o.p] == before.2
      ensures !o.At? ==> Heap() == if o.TooLarge? || old(Free()) >= Even(nwords) then old(Heap()) else EMPTY
      ensures o.Large? <==>
              4 * Even(nwords) <= LARGEST_OBJECT && nwords > LARGE_OBJECT_WORDS && old(stkp - etop) < Even(nwords)
      ensures o.NoRoom? <==>
                && nwords <= LARGE_OBJECT_WORDS && old(stkp - etop) < Even(nwords)
                && old(Free()) < Even(nwords) && old(Room()) - buffer < Even(nwords)
      ensures MinimalSize(buffer) <= size ==> !o.NoRoom?
    {
      hide Chain, GoodFrame, HasBottom, ObjectsApart;
      if MinimalSize(buffer) <= size {
        RoomSuffices();
      }
      var n := Even(nwords);
      if 4 * n > LARGEST_OBJECT {
        o := TooLarge;
      } else if etop + n <= stkp {
        o := Bump(nwords);
      } else {
        if Free() < n {
          Collect();
        }
        if n > LARGE_OBJECT_WORDS {
          o := Large;
        } else if Free() < n {
          o := NoRoom;
        } else {
          o := Bump(nwords);
        }
      }
    }

    /** Refill the empty stack. */
    method Underflow()
      requires Valid() && frames == []
      modifies this, mem
      ensures Valid() && All() == old(All()) && frames != []
      ensures Heap() == if old(stkp) - Even(|old(cont)[0]|) >= old(etop) then old(Heap()) else EMPTY
    {
      var ok := RestoreFrame();
      if !ok {
        Collect();
      }
    }

    /** Space for a frame of `words` words and `margin` words more, after a collection if need be.  Fails
        if a collection does not make enough room; then C collects again and again, and every further
        collection leaves everything as it is. */
    method Reserve(words: nat, margin: nat) returns (ok: bool)
      requires Valid()
      modifies this, mem
      ensures Valid() && All() == old(All()) && (frames == [] ==> old(frames) == [])
      ensures ok == (old(stkp) - Even(words) >= old(etop) + margin || old(Room()) - Even(words) >= margin)
      ensures ok ==> etop + margin <= stkp - Even(words)
      ensures !ok ==> etop == 0 && stkp == Room() && |frames| == 1
      ensures if old(stkp) - Even(words) >= old(etop) + margin then unchanged(this, mem) else Heap() == EMPTY
      ensures MinimalSize(buffer) <= size && Even(words) + margin <= MAX_FRAME + buffer ==> ok
    {
      if MinimalSize(buffer) <= size {
        RoomSuffices();
      }
      if stkp - Even(words) < etop + margin {
        Collect();
      }
      ok := stkp - Even(words) >= etop + margin;
    }

    /** Enter a procedure that saves `n` + 1 registers.  Fails if there is no room for the frame even
        after a collection. */
    method Save(n: nat, reg0: int) returns (ok: bool)
      requires Valid() && n + 4 <= MAX_FRAME && ValidDatum(reg0)
      modifies this, mem
      ensures Valid() && (!ok ==> All() == old(All()))
      ensures ok == (old(stkp) - Even(n + 4) >= old(etop) || old(Room()) >= Even(n + 4))
      ensures ok ==> frames != [] && |All()| == 1 + |old(All())| && All()[1..] == old(All())
      ensures ok ==> SavedWords(All()[0], n, reg0)
      ensures old(stkp) - Even(n + 4) >= old(etop) ==>
                All()[0][STK_DYNLINK] == old(mem[stkp - Even(n + 4) + STK_DYNLINK])
      ensures MinimalSize(buffer) <= size ==> ok
      ensures if old(stkp) - Even(n + 4) >= old(etop) then stkp == old(stkp) - Even(n + 4) && Heap() == old(Heap())
              else Heap() == EMPTY
    {
      hide Chain, GoodFrame, ValidDatum, SavedWords, MinimalSize, HasBottom, Heap;
      ok := Reserve(n + 4, 0);
      if ok {
        Push(SavedFrame(n, reg0, mem[stkp - Even(n + 4) + STK_DYNLINK]));
      }
    }

    /** `f` is what a procedure saves, whatever its link is: no return address yet, the size, REG0, and
        slots without a value. */
    static ghost predicate SavedWords(f: seq<int>, n: nat, reg0: int) {
      && |f| == n + 4 && f[STK_RETADDR] == 0 && f[STK_CONTSIZE] == 4 * (n + 3) && f[STK_REG0] == reg0
      && forall i | STK_REG0 < i < n + 4 :: f[i] == UNSPECIFIED_CONST
    }

    /** A frame with `n` + 1 slots, the first of which holds REG0; the link is left as it was. */
    static function SavedFrame(n: nat, reg0: int, link: int): (f: seq<int>)
      ensures SavedWords(f, n, reg0) && f[STK_DYNLINK] == link
      ensures n + 4 <= MAX_FRAME && ValidDatum(reg0) ==> GoodFrame(f)
    {
      [0, 4 * (n + 3), link, reg0] + seq(n, _ => UNSPECIFIED_CONST)
    }

    /** Leave the procedure whose frame has `n` + 1 slots; its caller's frame may be in the heap. */
    method Pop(n: nat)
      requires Valid() && frames != [] && |frames[0]| == n + 4 && |All()| > 1
      modifies `stkp, `frames
      ensures Valid() && All() == old(All())[1..] && Heap() == old(Heap())
    {
      hide GoodFrame, Even, Chain, HasBottom, ObjectsApart;
      ChainPop(mem[..], stkp, frames, stkbot);
      FrameSize(frames[0]);
      stkp := stkp + Even(n + 4);
      frames := frames[1..];
    }

    /** Where the newest frame returns to. */
    method Return() returns (retaddr: int)
      requires Valid()
      modifies this, mem
      ensures Valid() && All() == old(All()) && frames != [] && retaddr == All()[0][STK_RETADDR]
      ensures Heap() == if old(frames) != [] || old(stkp) - Even(|old(cont)[0]|) >= old(etop) then old(Heap())
              else EMPTY
    {
      if stkp == stkbot {
        StackEmpty();
        Underflow();
      } else {
        StackEmpty();
      }
      ChainPop(mem[..], stkp, frames, stkbot);
      retaddr := mem[stkp + STK_RETADDR];
    }

    lemma StackEmpty()
      requires Valid()
      ensures frames == [] <==> stkp == stkbot
    {
    }

    /** Change a word of the newest frame. */
    method SetWord(i: nat, x: int)
      requires Valid() && frames != [] && i < |frames[0]| && i != STK_CONTSIZE && i != STK_DYNLINK
      requires if i == STK_RETADDR then IsFixnum(x) else ValidDatum(x)
      modifies mem, `frames
      ensures Valid() && All() == old(All())[0 := old(All())[0][i := x]] && frames != [] && Heap() == old(Heap())
    {
      hide Chain, GoodFrame;
      ghost var before := mem[..];
      SetChain(before, stkp, frames, stkbot, i, x);
      mem[stkp + i] := x;
      assert mem[..] == before[stkp + i := x];
      assert mem[stkbot..stkbot + UNDERFLOW_WORDS] == before[stkbot..stkbot + UNDERFLOW_WORDS];
      frames := [frames[0][i := x]] + frames[1..];
    }

    lemma SetChain(m: seq<int>, at: int, fs: seq<seq<int>>, bot: int, i: nat, x: int)
      requires Chain(m, at, fs, bot) && fs != [] && i < |fs[0]| && i != STK_CONTSIZE && i != STK_DYNLINK
      requires if i == STK_RETADDR then IsFixnum(x) else ValidDatum(x)
      ensures 0 <= at && at + i < bot <= |m| && Chain(m[at + i := x], at, [fs[0][i := x]] + fs[1..], bot)
      ensures GoodFrame(fs[0][i := x])
    {
      ChainPop(m, at, fs, bot);
      var m', f := m[at + i := x], fs[0][i := x];
      var k := at + Even(|f|);
      assert m'[k..] == m[k..];
      assert m'[at..at + |f|] == m[at..at + |f|][i := x];
      ChainKept(m, m', k, fs[1..], bot);
      ChainPush(m', at, f, fs[1..], bot);
    }

    method GetWord(i: nat) returns (x: int)
      requires Valid() && frames != [] && i < |frames[0]|
      ensures x == All()[0][i]
    {
      ChainPop(mem[..], stkp, frames, stkbot);
      x := mem[stkp + i];
    }

    /** The continuation as a heap object; the stack is left with its newest frame only.  Fails if
        there is no room for recreating the stack even after a collection. */
    method Capture() returns (k: seq<seq<int>>, ok: bool)
      requires Valid()
      modifies this, mem
      ensures Valid() && All() == old(All()) && (ok ==> k == All() && frames != [])
      ensures var room := Even(|old(All())[0]|) + UNDERFLOW_WORDS;
              && ok == (old(Free()) >= room || old(Room()) - buffer >= room)
              && Heap() == if old(Free()) >= room then old(Heap()) else EMPTY
      ensures MinimalSize(buffer) <= size ==> ok
    {
      hide Chain, GoodFrame, HasBottom, ObjectsApart;
      if MinimalSize(buffer) <= size {
        RoomSuffices();
      }
      var room := TopFrameRoom();
      if Free() < room {
        Collect();
      }
      k := [];
      ok := Free() >= room;
      if ok {
        k := TakeAll();
      }
    }

    /** Move all frames to the heap continuation, and the newest one back. */
    method TakeAll() returns (k: seq<seq<int>>)
      requires Valid() && Free() >= Even(|All()[0]|) + UNDERFLOW_WORDS
      modifies this, mem
      ensures Valid() && All() == old(All()) && k == All() && frames != [] && Heap() == old(Heap())
    {
      hide Chain, GoodFrame, HasBottom, ObjectsApart, Heap;
      Flush();
      k := cont;
      var created := Create();
      var restored := RestoreFrame();
      assert created && restored;
    }

    /** Words needed to recreate the stack with its newest frame. */
    method TopFrameRoom() returns (room: nat)
      requires Valid()
      ensures room == Even(|All()[0]|) + UNDERFLOW_WORDS
    {
      hide Chain, GoodFrame, HasBottom, ObjectsApart;
      StackEmpty();
      if stkp == stkbot {
        room := Even(|cont[0]|) + UNDERFLOW_WORDS;
      } else {
        ChainPop(mem[..], stkp, frames, stkbot);
        FrameSize(frames[0]);
        var contsize := mem[stkp + STK_CONTSIZE];
        room := Even(contsize / 4 + 1) + UNDERFLOW_WORDS;
      }
    }

    /** Make `k` the continuation. */
    method Reinstate(k: seq<seq<int>>)
      requires Valid() && k != [] && forall i | 0 <= i < |k| :: GoodFrame(k[i])
      modifies this, mem
      ensures Valid() && All() == k && frames != []
      ensures Heap() == if old(stkbot) - Even(|k[0]|) >= old(etop) then old(Heap()) else EMPTY
    {
      hide GoodFrame;
      ChainBounds(mem[..], stkp, frames, stkbot);
      stkp := stkbot;
      frames := [];
      cont := k;
      Underflow();
    }

    /** Heap and stack pointers are in order, and the stack has good frames only. */
    ghost predicate InOrder()
      reads this, mem
    {
      0 <= etop <= stkp <= stkbot && etop <= size && FramesFrom(mem[..], stkp, stkbot)
    }

    lemma ValidIsInOrder()
      requires Valid()
      ensures InOrder()
    {
      ChainPasses(mem[..], stkp, frames, stkbot);
    }

    /** The check of the heap and stack pointers, and of every frame met in walking the stack, in whatever
        state the area is.  A frame that reaches beyond the area fails it; C reads on there. */
    method IntegrityCheck() returns (ok: bool)
      requires mem.Length == size
      ensures ok <==> InOrder()
    {
      ok := 0 <= etop <= stkp <= stkbot && etop <= size;
      if !ok {
        return;
      }
      var frame := stkp;
      while frame < stkbot
        invariant 0 <= frame && FramesFrom(mem[..], stkp, stkbot) == FramesFrom(mem[..], frame, stkbot)
        decreases stkbot - frame
      {
        ok := CheckFrame(frame);
        if !ok {
          return;
        }
        frame := frame + Even(mem[frame + STK_CONTSIZE] / 4 + 1);
      }
    }

    /** The check of one frame. */
    method CheckFrame(frame: nat) returns (ok: bool)
      requires mem.Length == size && frame < stkbot
      ensures ok ==>
                && frame + STK_REG0 < mem.Length && 12 <= mem[frame + STK_CONTSIZE]
                && FramesFrom(mem[..], frame, stkbot)
                   == FramesFrom(mem[..], frame + Even(mem[frame + STK_CONTSIZE] / 4 + 1), stkbot)
      ensures !ok ==> !FramesFrom(mem[..], frame, stkbot)
    {
      if mem.Length <= frame + STK_REG0 {
        return false;
      }
      var contsize, retaddr := mem[frame + STK_CONTSIZE], mem[frame + STK_RETADDR];
      ok := IsFixnum(contsize) && contsize >= 12 && IsFixnum(retaddr) && frame + contsize / 4 < mem.Length;
      if ok {
        for i := STK_REG0 to contsize / 4 + 1
          invariant ok <==> forall k | frame + STK_REG0 <= k < frame + i :: ValidDatum(mem[..][k])
        {
          ok := ok && ValidDatum(mem[frame + i]);
        }
      }
    }
  }

  /** Every area that passes the check but is smaller than the minimal size fails: with a frame of the
      largest size on the stack, capturing the continuation finds no room. */
  method TooSmall(size: nat, buffer: nat) returns (r: Region, saved: bool, captured: bool)
    requires buffer % 2 == 0 && size % 2 == 0 && buffer <= LARGE_OBJECT_WORDS
    requires LARGE_OBJECT_WORDS + MAX_FRAME <= size < MinimalSize(buffer)
    ensures fresh(r) && r.Valid() && r.size == size && r.buffer == buffer && saved && !captured
  {
    hide Chain;
    r := new Region(size, buffer, [0, 12, 0, 0]);
    saved := r.Save(MAX_FRAME - 4, 0);
    var _, ok := r.Capture();
    captured := ok;
  }
}
