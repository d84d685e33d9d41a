/** Whole promotions. */
module PromotionRun {
  import opened SchemeHeap
  import opened Copying
  import opened ChunkLayout
  import opened PromotionSteps
  import opened ScanFingers
  import opened Promotion
  import opened PromotionMeaning

  /** A run that began with `s` and `chunks` stopped at `fault` with memory `h`, roots `roots` and chunks
      `chunks'`.  Up to there everything was in order, and nothing but copying, scanning and adding
      chunks of the supply had happened since the start. */
  ghost predicate StoppedInOrder(s: Start, chunks: Chunks, cur: nat, cur2: nat, h: Heap, roots: seq<Word>,
                                 chunks': Chunks, fault: Fault) {
    exists v: View ::
      v.heap == h && v.roots == roots && v.chunks == chunks' && StoppedAt(s, v, fault)
      && Onward(s, FirstView(s, chunks, cur, cur2), v)
  }

  /** What a finished promotion has to establish: the live graph is moved as it is, the extra
      remembered set is exact, what is not remembered is untouched, and the next promotion may start
      from here, with the generational invariant if this one had it. */
  ghost predicate Promoted(s: Start, h: Heap, roots: seq<Word>, extra: set<Word>, kept: seq<Addr>, taken: nat) {
    var s' := NextStart(s, h, roots, extra, kept, taken);
    && Isomorphic(s, h, roots)
    && ExtraGrown(s, h, extra)
    && (WritesRemembered(s) ==> GenerationsRemembered(s, h, extra, kept))
    && (forall a | a in s.heap && a.gen >= s.oldGen && a !in s.remembered :: a in h && h[a] == s.heap[a])
    && GoodStart(s') && (WritesRemembered(s) ==> WritesRemembered(s'))
  }

  /** The numeric addresses of the bytevectors that were moved are multiples of 16. */
  ghost predicate BytesAligned(s: Start, h: Heap, chunks: Chunks) {
    forall a | a in s.heap && a.gen < s.oldGen && s.heap[a].Bytes? && a in h && h[a].Fwd? ::
      Base(NewPlace(h, a)) in chunks && Place(chunks, NewPlace(h, a)) % 16 == 0
  }

  /** No object that may have to be copied is a bytevector of an odd number of 8-byte units. */
  ghost predicate EvenBytes(s: Start) {
    forall a | a in s.heap && a.gen < s.oldGen && s.heap[a].Bytes? :: Size(s.heap[a]) % 16 == 0
  }

  /** Memory `h` has objects in the young area that were moved there. */
  ghost predicate MovedToYoung(s: Start, h: Heap) {
    exists a | a in s.heap && a.gen < s.oldGen && a in h && h[a].Fwd? :: NewPlace(h, a).gen == s.youngGen
  }

  /** A promotion from start to end.  The old area grows by no more chunks than it has bytes to spend,
      and the young area is not used before less than a chunk of them is left.  Nothing but chunks of the
      supply is added.  A run that stops early does so in a state that it has
      reached from the start and that `StoppedAt` describes.  Without bytevectors of an odd number of
      units no copy runs past its chunk; with chunks of which none begins where another ends the scan
      comes to its end; so that with both the promotion finishes. */
  method Promote(s: Start, chunks: Chunks, current: nat, current2: nat, oldRemaining: nat, youngRemaining: nat,
                 losSteps: int, bufferSize: nat)
    returns (h: Heap, roots: seq<Word>, extra: set<Word>, kept: seq<Addr>, chunks': Chunks, current': nat,
             current2': nat, taken: nat, fault: Fault)
    requires GoodStart(s) && GoodSpaces(s, chunks, current, current2) && 0 < bufferSize
    ensures fault == NoFault ==> Promoted(s, h, roots, extra, kept, taken)
    ensures fault == NoFault ==> GoodSpaces(NextStart(s, h, roots, extra, kept, taken), chunks', current', current2')
    ensures BytesAligned(s, h, chunks')
    ensures current <= current' && current2 <= current2'
    ensures current' > current ==> (current' - current + losSteps) * GC_CHUNK_SIZE <= oldRemaining
    ensures current2' > current2 || MovedToYoung(s, h) ==>
              oldRemaining < (current' - current + losSteps + 1) * GC_CHUNK_SIZE
    ensures Drawn(s.supply, chunks, 0, chunks', taken)
    ensures fault != NoFault ==> StoppedInOrder(s, chunks, current, current2, h, roots, chunks', fault)
    ensures EvenBytes(s) ==> !fault.Overrun?
    ensures Spread(chunks, s.supply, 0) ==> !fault.Endless? && !fault.Unfinished?
    ensures EvenBytes(s) && Spread(chunks, s.supply, 0) ==> fault == NoFault
  {
    hide *;
    var e := new CheneyEnv(s, chunks, current, current2, oldRemaining, youngRemaining, losSteps, bufferSize);
    ghost var v0 := e.Now();
    kept := e.OldspaceCopy();
    h, roots, extra, chunks' := e.heap, e.roots, e.npRemset + (set w | w in e.ssb), e.chunks;
    current', current2', taken, fault := e.current, e.current2, e.taken, e.fault;
    ghost var v := e.Now();
    NowIs(e);
    OnwardDraws(s, chunks, current, current2, v);
    StillGood(e, kept);
    if fault == NoFault {
      FinishedIsDone(e, kept);
      IsPromoted(s, v, kept);
      NextSpacesAreGood(s, v, kept);
    } else {
      StoppedParts(e, v, chunks, current, current2);
      StopsForAReason(s, chunks, current, current2, h, roots, chunks', fault);
    }
    AllAligned(s, v);
    BudgetSpent(e, current, current2, oldRemaining, losSteps);
  }

  lemma AllAligned(s: Start, v: View)
    requires Good(s, v)
    ensures BytesAligned(s, v.heap, v.chunks)
  {
    hide Good, NewPlace, Base;
    forall a | a in s.heap && a.gen < s.oldGen && s.heap[a].Bytes? && a in v.heap && v.heap[a].Fwd?
      ensures Base(NewPlace(v.heap, a)) in v.chunks && Place(v.chunks, NewPlace(v.heap, a)) % 16 == 0
    {
      var b := NewPlace(v.heap, a);
      MovedBytes(s, v, a);
      LimitsArePages(s, v, Base(b));
      PageAndOffset(v.chunks[Base(b)].place, b.off);
    }
  }

  lemma PageAndOffset(place: nat, off: nat)
    requires place % PAGESIZE == 0 && off % 16 == 0
    ensures (place + off) % 16 == 0
  {
    assert place + off == 16 * (256 * (place / PAGESIZE) + off / 16);
  }

  lemma MovedBytes(s: Start, v: View, a: Addr)
    requires Good(s, v) && a in s.heap && s.heap[a].Bytes? && a in v.heap && v.heap[a].Fwd?
    ensures Base(NewPlace(v.heap, a)) in v.chunks && NewPlace(v.heap, a).off % 16 == 0
  {
    hide Spaces, Tiled, BlackIsClean, ExtraIsExact, SweptIsClean, RootsStand, Justified, SupplyLeft;
    NewLocation(s, v.heap, v.src, a);
    var b := v.heap[a].to.addr;
    assert IsCopy(s, v.heap, v.src, b);
    CopyInChunk(s, v, b);
  }

  lemma CopyInChunk(s: Start, v: View, b: Addr)
    requires Good(s, v) && b in v.src
    ensures Base(b) in v.chunks
  {
    hide Good;
    CopyIsTile(s, v, b);
    EndsAreChunks(s, v);
  }

  lemma EndsAreChunks(s: Start, v: View)
    requires Good(s, v)
    ensures v.ends.Keys == v.chunks.Keys
  {
  }

  lemma NowIs(e: CheneyEnv)
    ensures e.Now().heap == e.heap && e.Now().roots == e.roots && e.Now().extra == e.npRemset + (set w | w in e.ssb)
    ensures e.Now().chunks == e.chunks && e.Now().cur == e.current && e.Now().cur2 == e.current2
    ensures e.Now().taken == e.taken
  {
  }

  lemma OnwardDraws(s: Start, chunks: Chunks, cur: nat, cur2: nat, v: View)
    requires Onward(s, FirstView(s, chunks, cur, cur2), v)
    ensures Drawn(s.supply, chunks, 0, v.chunks, v.taken) && cur <= v.cur && cur2 <= v.cur2
  {
  }

  lemma StillGood(e: CheneyEnv, kept: seq<Addr>)
    requires e.Finished(kept) || e.Stopped()
    ensures Good(e.was, e.Now()) && e.Budget()
  {
    hide Good, GoesRound, EndsEarly, RunsPast, TopOnRecord, CheneyEnv.Budget, CheneyEnv.Now;
  }

  lemma FinishedIsDone(e: CheneyEnv, kept: seq<Addr>)
    requires e.Finished(kept)
    ensures Done(e.was, e.Now()) && e.Budget() && forall a | a in kept :: a in e.was.remembered
    ensures forall j | 0 <= j < |e.was.remembered| ::
              e.was.remembered[j] in kept || e.was.remembered[j] in e.Now().dropped
    ensures TopOnRecord(e.was, e.Now(), e.was.oldGen) && TopOnRecord(e.was, e.Now(), e.was.youngGen)
  {
    hide Good, TopOnRecord;
  }

  lemma IsPromoted(s: Start, v: View, kept: seq<Addr>)
    requires Done(s, v) && forall a | a in kept :: a in s.remembered
    requires forall j | 0 <= j < |s.remembered| :: s.remembered[j] in kept || s.remembered[j] in v.dropped
    ensures Promoted(s, v.heap, v.roots, v.extra, kept, v.taken)
  {
    hide Done, Isomorphic, ExtraGrown, WritesRemembered, GenerationsRemembered, GoodStart, NextStart;
    DoneIsIsomorphic(s, v);
    ExtraHasGrown(s, v);
    if WritesRemembered(s) {
      RememberedAgain(s, v, kept);
      NextIsRemembered(s, v, kept);
    }
    forall a | a in s.heap && a.gen >= s.oldGen && a !in s.remembered ensures a in v.heap && v.heap[a] == s.heap[a] {
      UnrememberedUnchanged(s, v, a);
    }
    NextStartIsGood(s, v, kept);
  }

  /** What the budget in steps means in bytes. */
  lemma BudgetSpent(e: CheneyEnv, current: nat, current2: nat, oldRemaining: nat, losSteps: int)
    requires e.Budget() && e.startCurrent == current && e.startCurrent2 == current2 && e.oldLosSteps == losSteps
    requires StepsIn(e.startSteps, oldRemaining) && e.oldGen == e.was.oldGen
    requires Good(e.was, e.Now()) && current <= e.current && current2 <= e.current2
    ensures e.current > current ==> (e.current - current + losSteps) * GC_CHUNK_SIZE <= oldRemaining
    ensures e.current2 > current2 || MovedToYoung(e.was, e.heap) ==>
              oldRemaining < (e.current - current + losSteps + 1) * GC_CHUNK_SIZE
  {
    hide Good, MovedToYoung;
    NowIs(e);
    if !e.hasSwitched {
      AllInOld(e.was, e.Now());
    }
  }

  lemma AllInOld(s: Start, v: View)
    requires Good(s, v) && forall b | b in v.src :: b.gen == s.oldGen
    ensures !MovedToYoung(s, v.heap)
  {
    hide Good;
    forall a | a in s.heap && a.gen < s.oldGen && a in v.heap && v.heap[a].Fwd?
      ensures NewPlace(v.heap, a).gen == s.oldGen != s.youngGen
    {
      ForwardedHasCopy(s, v, a);
      DistinctGenerations(s, v);
    }
  }

  lemma StoppedParts(e: CheneyEnv, v: View, chunks: Chunks, cur: nat, cur2: nat)
    requires e.Stopped() && v == e.Now() && Onward(e.was, FirstView(e.was, chunks, cur, cur2), v)
    requires v.heap == e.heap && v.roots == e.roots && v.chunks == e.chunks
    ensures StoppedInOrder(e.was, chunks, cur, cur2, e.heap, e.roots, e.chunks, e.fault) && e.Budget()
  {
    hide StoppedAt, Onward, FirstView;
  }

  /** Nothing but the copy of a reachable bytevector can run past a chunk, and only one that takes
      an odd number of 8-byte units. */
  lemma OverrunNeedsOddBytevector(s: Start, v: View, a: Addr, d: Addr, end: nat)
    requires StoppedAt(s, v, Overrun(a, d, end))
    ensures a in s.heap && Reachable(s, a) && s.heap[a].Bytes? && Size(s.heap[a]) % 16 == 8 && a.gen < s.oldGen
  {
    hide Good, Reachable, IsFree, Size;
    LimitsArePages(s, v, Base(d));
    PageUnits(end);
    CheneyEnv.OddUnits(d.off, end);
  }

  /** Only a chunk that begins where another ends can keep the scan from its end: both were there from
      the start or came from the supply. */
  lemma AliasNeedsTouching(s: Start, chunks: Chunks, cur: nat, cur2: nat, v: View, fault: Fault)
    requires StoppedAt(s, v, fault) && Onward(s, FirstView(s, chunks, cur, cur2), v)
    requires fault.Endless? || fault.Unfinished?
    ensures !Spread(chunks, s.supply, 0)
  {
    hide Good, Finger, IsFree, Drawn, Touches, Spread;
    OnwardDraws(s, chunks, cur, cur2, v);
    forall k | k in v.chunks ensures 0 < v.chunks[k].lim {
      LimitsArePages(s, v, k);
    }
    if Spread(chunks, s.supply, 0) {
      SpreadKept(s.supply, chunks, 0, v.chunks, v.taken);
      AbuttingTouch(v.chunks, s.supply, v.taken, fault.dest, fault.scan);
    }
  }

  lemma AbuttingTouch(chunks: Chunks, supply: Supply, n: nat, q: Addr, p: Addr)
    requires Abuts(chunks, q, p)
    ensures !Spread(chunks, supply, n)
  {
    assert Touches(chunks[Base(q)], chunks[Base(p)]);
  }

  lemma StopsForAReason(s: Start, chunks: Chunks, cur: nat, cur2: nat, h: Heap, roots: seq<Word>, chunks': Chunks,
                        fault: Fault)
    requires StoppedInOrder(s, chunks, cur, cur2, h, roots, chunks', fault)
    ensures fault.Overrun? ==> !EvenBytes(s)
    ensures fault.Endless? || fault.Unfinished? ==> !Spread(chunks, s.supply, 0)
    ensures fault != NoFault
  {
    hide Good, Onward, Spread, FirstView, Size, RunsPast, GoesRound, EndsEarly;
    var v: View :| v.heap == h && v.roots == roots && v.chunks == chunks' && StoppedAt(s, v, fault)
                   && Onward(s, FirstView(s, chunks, cur, cur2), v);
    if fault.Overrun? {
      OverrunNeedsOddBytevector(s, v, fault.obj, fault.dest, fault.end);
    } else {
      AliasNeedsTouching(s, chunks, cur, cur2, v, fault);
    }
  }
}
