/** Chains of stack frames in memory. */
module FrameChains {

  // Offsets in a stack frame.
  const STK_RETADDR := 0
  const STK_CONTSIZE := 1
  const STK_DYNLINK := 2
  const STK_REG0 := 3

  const MAX_FRAME := 1024  // words

  const TRUE_CONST := 0x6
  const FALSE_CONST := 0x2
  const NIL_CONST := 0xA
  const UNSPECIFIED_CONST := 0x116
  const UNDEFINED_CONST := 0x316
  const EOF_CONST := 0x216

  function Even(n: nat): (m: nat)
    ensures n <= m <= n + 1 && m % 2 == 0
  {
    n + n % 2
  }

  predicate IsFixnum(x: int) {
    x % 4 == 0
  }

  /** A word the collector may find in a frame: a pointer, a fixnum, a character or another
      immediate constant. */
  predicate ValidDatum(x: int) {
    || x % 2 == 1
    || IsFixnum(x)
    || x % 256 == 0x26
    || x in {TRUE_CONST, FALSE_CONST, NIL_CONST, UNSPECIFIED_CONST, UNDEFINED_CONST, EOF_CONST}
  }

  /** By its two low bits, a word is data unless they are 10 and it is neither a character nor one of the six
      constants. */
  lemma DatumByTag(x: int)
    ensures ValidDatum(x) <==> (x % 4 == 2 ==> x % 256 == 0x26 || x in {0x2, 0x6, 0xA, 0x116, 0x216, 0x316})
  {
  }

  /** A frame's words, without padding: the size field counts the bytes after the first word. */
  predicate GoodFrame(f: seq<int>) {
    && 4 <= |f| <= MAX_FRAME && f[STK_CONTSIZE] == 4 * (|f| - 1) && IsFixnum(f[STK_RETADDR])
    && forall i | STK_REG0 <= i < |f| :: ValidDatum(f[i])
  }

  /** The frames `fs` follow each other in `m` from `at` up to `bot`. */
  ghost predicate Chain(m: seq<int>, at: int, fs: seq<seq<int>>, bot: int)
    decreases |fs|
  {
    && 0 <= at <= bot <= |m|
    && if fs == [] then at == bot else
         GoodFrame(fs[0]) && at + Even(|fs[0]|) <= bot && m[at..at + |fs[0]|] == fs[0]
         && Chain(m, at + Even(|fs[0]|), fs[1..], bot)
  }

  /** Writing below a chain leaves it. */
  lemma {:induction false} ChainKept(m: seq<int>, m': seq<int>, at: int, fs: seq<seq<int>>, bot: int)
    requires Chain(m, at, fs, bot) && |m'| == |m| && m'[at..] == m[at..]
    ensures Chain(m', at, fs, bot)
    decreases |fs|
  {
    if fs != [] {
      var n, w := |fs[0]|, Even(|fs[0]|);
      assert m[at..at + n] == m[at..][..n] && m'[at..at + n] == m'[at..][..n];
      assert m'[at + w..] == m'[at..][w..] && m[at + w..] == m[at..][w..];
      ChainKept(m, m', at + w, fs[1..], bot);
    }
  }

  /** From `at` up to `bot` or beyond it, every frame has a size that is a fixnum of at least 12 bytes, a
      fixnum for its return address, and slots that the collector understands, all of them in memory. */
  ghost predicate FramesFrom(m: seq<int>, at: int, bot: int)
    decreases bot - at
  {
    at < bot ==>
      && 0 <= at && at + STK_REG0 < |m| && IsFixnum(m[at + STK_RETADDR])
      && IsFixnum(m[at + STK_CONTSIZE]) && 12 <= m[at + STK_CONTSIZE] && at + m[at + STK_CONTSIZE] / 4 < |m|
      && (forall i | at + STK_REG0 <= i <= at + m[at + STK_CONTSIZE] / 4 :: ValidDatum(m[i]))
      && FramesFrom(m, at + Even(m[at + STK_CONTSIZE] / 4 + 1), bot)
  }

  lemma GoodWords(m: seq<int>, at: nat, f: seq<int>)
    requires GoodFrame(f) && at + |f| <= |m| && m[at..at + |f|] == f
    ensures IsFixnum(m[at + STK_RETADDR]) && 4 <= |f| && m[at + STK_CONTSIZE] == 4 * (|f| - 1)
    ensures forall i | at + STK_REG0 <= i < at + |f| :: ValidDatum(m[i])
  {
    forall i | at + STK_REG0 <= i < at + |f| ensures ValidDatum(m[i]) {
      assert m[at..at + |f|][i - at] == f[i - at];
    }
  }

  lemma {:induction false} ChainPasses(m: seq<int>, at: int, fs: seq<seq<int>>, bot: int)
    requires Chain(m, at, fs, bot)
    ensures FramesFrom(m, at, bot)
    decreases |fs|
  {
    hide GoodFrame, ValidDatum;
    if fs != [] {
      ChainPop(m, at, fs, bot);
      GoodWords(m, at, fs[0]);
      ChainPasses(m, at + Even(|fs[0]|), fs[1..], bot);
    }
  }

  /** A frame in front of a chain. */
  lemma ChainPush(m: seq<int>, at: int, f: seq<int>, fs: seq<seq<int>>, bot: int)
    requires 0 <= at && GoodFrame(f) && at + Even(|f|) <= |m| && m[at..at + |f|] == f
    requires Chain(m, at + Even(|f|), fs, bot)
    ensures Chain(m, at, [f] + fs, bot)
  {
    assert ([f] + fs)[1..] == fs;
  }

  lemma ChainPop(m: seq<int>, at: int, fs: seq<seq<int>>, bot: int)
    requires Chain(m, at, fs, bot) && fs != []
    ensures GoodFrame(fs[0]) && at + Even(|fs[0]|) <= bot <= |m| && m[at..at + |fs[0]|] == fs[0] && 0 <= at < bot
    ensures Chain(m, at + Even(|fs[0]|), fs[1..], bot)
    ensures m[at + STK_CONTSIZE] == 4 * (|fs[0]| - 1) && m[at + STK_RETADDR] == fs[0][STK_RETADDR]
    ensures forall i | 0 <= i < |fs[0]| :: m[at + i] == fs[0][i]
  {
  }

  /** Words taken by frames and their padding. */
  function Words(fs: seq<seq<int>>): nat {
    if fs == [] then 0 else Even(|fs[0]|) + Words(fs[1..])
  }

  /** The chain is exact: it takes all words between its ends. */
  lemma {:induction false} ChainIsExact(m: seq<int>, at: int, fs: seq<seq<int>>, bot: int)
    requires Chain(m, at, fs, bot)
    ensures bot == at + Words(fs)
    decreases |fs|
  {
    if fs != [] {
      ChainIsExact(m, at + Even(|fs[0]|), fs[1..], bot);
    }
  }

  /** Memory determines the chain between two places. */
  lemma {:induction false} ChainIsUnique(m: seq<int>, at: int, fs: seq<seq<int>>, gs: seq<seq<int>>, bot: int)
    requires Chain(m, at, fs, bot) && Chain(m, at, gs, bot)
    ensures fs == gs
    decreases |fs|
  {
    if fs != [] && gs != [] {
      assert m[at..at + |fs[0]|][STK_CONTSIZE] == m[at..at + |gs[0]|][STK_CONTSIZE];
      ChainIsUnique(m, at + Even(|fs[0]|), fs[1..], gs[1..], bot);
      assert fs == [fs[0]] + fs[1..] && gs == [gs[0]] + gs[1..];
    }
  }
}
