/** Lists of arguments, and where the calling convention puts arguments. */
module ArgumentLists {

  /** A tagged word; `at` names the pair that a pointer refers to. */
  datatype Word = Fix(value: int) | Nil | Const(code: nat) | Ref(at: int)

  const FALSE := Const(2)

  datatype Pair = Pair(car: Word, cdr: Word)

  type Pairs = map<int, Pair>

  /** `w` is a list of the words `s`. */
  ghost predicate ListIn(h: Pairs, w: Word, s: seq<Word>)
    decreases |s|
  {
    if s == [] then w == Nil
    else w.Ref? && w.at in h && h[w.at].car == s[0] && ListIn(h, h[w.at].cdr, s[1..])
  }

  ghost predicate Extends(h0: Pairs, h1: Pairs) {
    forall k | k in h0 :: k in h1 && h1[k] == h0[k]
  }

  lemma {:induction false} ListKept(h0: Pairs, h1: Pairs, w: Word, s: seq<Word>)
    requires ListIn(h0, w, s) && Extends(h0, h1)
    ensures ListIn(h1, w, s)
    decreases |s|
  {
    if s != [] {
      ListKept(h0, h1, h0[w.at].cdr, s[1..]);
    }
  }

  /** The pairs `cells` hold `s` and are linked in this order, the last to `end`. */
  ghost predicate Linked(h: Pairs, cells: seq<int>, s: seq<Word>, end: Word) {
    && |cells| == |s|
    && (forall i, j | 0 <= i < j < |cells| :: cells[i] != cells[j])
    && (forall i | 0 <= i < |cells| :: cells[i] in h && h[cells[i]] == Pair(s[i], HeadOr(cells, i + 1, end)))
  }

  /** The pair at position `i`, or what follows the last one. */
  function HeadOr(cells: seq<int>, i: nat, end: Word): Word {
    if i < |cells| then Ref(cells[i]) else end
  }

  /** None of `cells` is in use. */
  ghost predicate Fresh(h: Pairs, cells: seq<int>) {
    forall i | 0 <= i < |cells| :: cells[i] !in h
  }

  lemma {:induction false} LinkedIsList(h: Pairs, cells: seq<int>, s: seq<Word>, end: Word, more: seq<Word>)
    requires Linked(h, cells, s, end) && ListIn(h, end, more)
    ensures ListIn(h, HeadOr(cells, 0, end), s + more)
    decreases |s|
  {
    if s == [] {
      assert s + more == more;
    } else {
      LinkedTail(h, cells, s, end);
      LinkedIsList(h, cells[1..], s[1..], end, more);
      assert (s + more)[1..] == s[1..] + more;
    }
  }

  lemma LinkedTail(h: Pairs, cells: seq<int>, s: seq<Word>, end: Word)
    requires Linked(h, cells, s, end) && s != []
    ensures Linked(h, cells[1..], s[1..], end) && HeadOr(cells[1..], 0, end) == HeadOr(cells, 1, end)
  {
  }

  lemma LinkedKept(h0: Pairs, h1: Pairs, cells: seq<int>, s: seq<Word>, end: Word)
    requires Linked(h0, cells, s, end) && Extends(h0, h1)
    ensures Linked(h1, cells, s, end)
  {
  }

  lemma NothingLinked(h: Pairs, end: Word)
    ensures Linked(h, [], [], end) && HeadOr([], 0, end) == end && Extends(h, h) && Fresh(h, [])
  {
  }

  lemma FreshGrows(h0: Pairs, h: Pairs, cells: seq<int>, k: int, p: Pair)
    requires Extends(h0, h) && Fresh(h0, cells) && k !in h
    ensures Extends(h0, h[k := p]) && Fresh(h0, [k] + cells) && HeadOr([k] + cells, 0, Nil) == Ref(k)
    ensures forall end :: HeadOr([k] + cells, 0, end) == Ref(k)
  {
  }

  /** Memory after `x` was added in pair `k` to the end of the list whose last pair is `last`. */
  function CopyStep(h: Pairs, last: Word, x: Word, k: int): Pairs {
    var h1 := h[k := Pair(x, Nil)];
    if last.Ref? && last.at in h then h1[last.at := Pair(h[last.at].car, Ref(k))] else h1
  }

  /** A new pair behind a chain. */
  lemma LinkedSnoc(h0: Pairs, h: Pairs, cells: seq<int>, s: seq<Word>, k: int, x: Word)
    requires Linked(h, cells, s, Nil) && Extends(h0, h) && Fresh(h0, cells) && k !in h
    ensures var last := if cells == [] then Nil else Ref(cells[|cells| - 1]);
            var h' := CopyStep(h, last, x, k);
            && Linked(h', cells + [k], s + [x], Nil) && Extends(h0, h') && Fresh(h0, cells + [k])
            && HeadOr(cells + [k], 0, Nil) == if cells == [] then Ref(k) else HeadOr(cells, 0, Nil)
  {
    var last := if cells == [] then Nil else Ref(cells[|cells| - 1]);
    var h', cells' := CopyStep(h, last, x, k), cells + [k];
    forall i | 0 <= i < |cells'| ensures cells'[i] in h'
        && h'[cells'[i]] == Pair((s + [x])[i], HeadOr(cells', i + 1, Nil)) {
      if i < |cells| {
        assert h[cells[i]] == Pair(s[i], HeadOr(cells, i + 1, Nil));
      }
    }
  }

  lemma LinkedInHeap(h: Pairs, cells: seq<int>, s: seq<Word>, end: Word)
    requires Linked(h, cells, s, end)
    ensures |cells| == |s| && forall i | 0 <= i < |cells| :: cells[i] in h
  {
  }

  /** The next pair of a list that was there before `cells` were made. */
  lemma ListStep(h0: Pairs, h: Pairs, w: Word, s: seq<Word>, cells: seq<int>)
    requires ListIn(h0, w, s) && w != Nil && Extends(h0, h) && Fresh(h0, cells)
    ensures s != [] && w.Ref? && w.at in h && h[w.at].car == s[0] && ListIn(h0, h[w.at].cdr, s[1..])
    ensures forall i | 0 <= i < |cells| :: cells[i] != w.at
  {
  }

  lemma ListEnds(h: Pairs, s: seq<Word>)
    requires ListIn(h, Nil, s)
    ensures s == []
  {
  }

  /** A chain made later, in front of one made earlier. */
  lemma JoinNew(h0: Pairs, h1: Pairs, h2: Pairs, c1: seq<int>, s1: seq<Word>, c2: seq<int>, s2: seq<Word>)
    requires Linked(h1, c2, s2, Nil) && Extends(h0, h1) && Fresh(h0, c2)
    requires Linked(h2, c1, s1, HeadOr(c2, 0, Nil)) && Extends(h1, h2) && Fresh(h1, c1)
    ensures Linked(h2, c1 + c2, s1 + s2, Nil) && Extends(h0, h2) && Fresh(h0, c1 + c2)
    ensures HeadOr(c1 + c2, 0, Nil) == HeadOr(c1, 0, HeadOr(c2, 0, Nil))
  {
    LinkedKept(h1, h2, c2, s2, Nil);
    LinkedJoin(h2, c1, s1, c2, s2, Nil);
  }

  /** A list of one item, made after a chain. */
  lemma OneMore(h0: Pairs, h1: Pairs, cells: seq<int>, s: seq<Word>, k: int, item: Word)
    requires Linked(h1, cells, s, Nil) && Extends(h0, h1) && Fresh(h0, cells) && k !in h1
    ensures var h2 := h1[k := Pair(item, Nil)];
            Linked(h2, cells, s, Nil) && Extends(h0, h2) && ListIn(h2, Ref(k), [item])
  {
    var h2 := h1[k := Pair(item, Nil)];
    LinkedKept(h1, h2, cells, s, Nil);
    assert ListIn(h2, Nil, [item][1..]);
  }

  /** Memory after a pair `t` that holds `rest` was hung onto the pair `last`. */
  function Cut(h: Pairs, last: int, t: int, rest: Word): Pairs
    requires last in h
  {
    h[t := Pair(rest, Nil)][last := Pair(h[last].car, Ref(t))]
  }

  /** The first part of a chain after the cut. */
  lemma CutFront(h: Pairs, cells: seq<int>, s: seq<Word>, k: nat, t: int, rest: Word)
    requires Linked(h, cells, s, Nil) && 0 < k <= |s| && t !in h && cells[k - 1] in h
    ensures Linked(Cut(h, cells[k - 1], t, rest), cells[..k], s[..k], Ref(t))
  {
    var h2, front := Cut(h, cells[k - 1], t, rest), cells[..k];
    forall i | 0 <= i < k ensures front[i] in h2 && h2[front[i]] == Pair(s[..k][i], HeadOr(front, i + 1, Ref(t))) {
      assert h[cells[i]] == Pair(s[i], HeadOr(cells, i + 1, Nil));
    }
  }

  /** The second part. */
  lemma CutBack(h: Pairs, cells: seq<int>, s: seq<Word>, k: nat, t: int, rest: Word)
    requires Linked(h, cells, s, Nil) && 0 < k <= |s| && t !in h && cells[k - 1] in h
    ensures Linked(Cut(h, cells[k - 1], t, rest), cells[k..], s[k..], Nil)
    ensures HeadOr(cells[k..], 0, Nil) == HeadOr(cells, k, Nil)
  {
    var h2, back := Cut(h, cells[k - 1], t, rest), cells[k..];
    forall i | 0 <= i < |cells| - k ensures back[i] in h2 && h2[back[i]] == Pair(s[k..][i], HeadOr(back, i + 1, Nil)) {
      assert h[cells[k + i]] == Pair(s[k + i], HeadOr(cells, k + i + 1, Nil));
    }
  }

  lemma CutExtends(h0: Pairs, h: Pairs, cells: seq<int>, k: nat, t: int, rest: Word)
    requires Extends(h0, h) && Fresh(h0, cells) && 0 < k <= |cells| && t !in h && cells[k - 1] in h
    ensures Extends(h0, Cut(h, cells[k - 1], t, rest)) && Fresh(h0, cells[k..])
  {
  }

  /** Cutting a new list after `k` pairs and hanging a list of the rest, `t`, onto the first part. */
  lemma CutRest(h0: Pairs, h1: Pairs, cells: seq<int>, s: seq<Word>, k: nat, t: int)
    requires Linked(h1, cells, s, Nil) && Extends(h0, h1) && Fresh(h0, cells) && 0 < k <= |s| && t !in h1
    ensures var rest := HeadOr(cells, k, Nil);
            && cells[k - 1] in h1
            && var h2 := Cut(h1, cells[k - 1], t, rest);
            && Extends(h0, h2) && Fresh(h0, cells[k..]) && Linked(h2, cells[k..], s[k..], Nil)
            && HeadOr(cells[k..], 0, Nil) == rest && ListIn(h2, HeadOr(cells, 0, Nil), s[..k] + [rest])
  {
    var rest := HeadOr(cells, k, Nil);
    LinkedInHeap(h1, cells, s, Nil);
    var h2 := Cut(h1, cells[k - 1], t, rest);
    CutFront(h1, cells, s, k, t, rest);
    CutBack(h1, cells, s, k, t, rest);
    CutExtends(h0, h1, cells, k, t, rest);
    assert ListIn(h2, Nil, [rest][1..]);
    hide Linked, Fresh, Extends;
    LinkedIsList(h2, cells[..k], s[..k], Ref(t), [rest]);
  }

  /** When the list in the last register is replaced by one that ends after argument `n` with `rest`,
      those arguments and `rest` are passed. */
  lemma PassedCut(h0: Pairs, h: Pairs, reg0: seq<Word>, reg: seq<Word>, args: seq<Word>, n: nat, rest: Word)
    requires Passed(h0, reg0, args) && |reg| == |reg0| && |reg| - 1 <= n <= |args|
    requires forall i | 0 < i < |reg| - 1 :: reg[i] == reg0[i]
    requires ListIn(h, reg[|reg| - 1], args[|reg| - 2..n] + [rest])
    ensures Passed(h, reg, args[..n] + [rest])
  {
    hide ListIn;
    var r := |reg| - 1;
    assert (args[..n] + [rest])[r - 1..] == args[r - 1..n] + [rest];
  }

  /** A new pair in front of a chain. */
  lemma LinkedCons(h: Pairs, cells: seq<int>, s: seq<Word>, end: Word, k: int, x: Word)
    requires Linked(h, cells, s, end) && k !in h
    ensures Linked(h[k := Pair(x, HeadOr(cells, 0, end))], [k] + cells, [x] + s, end)
  {
    var h' := h[k := Pair(x, HeadOr(cells, 0, end))];
    forall i | 0 <= i < |cells| + 1
      ensures ([k] + cells)[i] in h' && h'[([k] + cells)[i]] == Pair(([x] + s)[i], HeadOr([k] + cells, i + 1, end))
    {
      if i > 0 {
        assert h[cells[i - 1]] == Pair(s[i - 1], HeadOr(cells, i, end));
      }
    }
  }

  /** Linking two chains. */
  lemma LinkedJoin(h: Pairs, c1: seq<int>, s1: seq<Word>, c2: seq<int>, s2: seq<Word>, end: Word)
    requires Linked(h, c1, s1, HeadOr(c2, 0, end)) && Linked(h, c2, s2, end)
    requires forall i, j | 0 <= i < |c1| && 0 <= j < |c2| :: c1[i] != c2[j]
    ensures Linked(h, c1 + c2, s1 + s2, end) && HeadOr(c1 + c2, 0, end) == HeadOr(c1, 0, HeadOr(c2, 0, end))
  {
    var cells, s := c1 + c2, s1 + s2;
    forall i | 0 <= i < |cells| ensures cells[i] in h && h[cells[i]] == Pair(s[i], HeadOr(cells, i + 1, end)) {
      if i < |c1| {
        assert h[c1[i]] == Pair(s1[i], HeadOr(c1, i + 1, HeadOr(c2, 0, end)));
      } else {
        assert h[c2[i - |c1|]] == Pair(s2[i - |c1|], HeadOr(c2, i - |c1| + 1, end));
      }
    }
    forall i, j | 0 <= i < j < |cells| ensures cells[i] != cells[j] {
      if i < |c1| <= j {
        assert c1[i] != c2[j - |c1|];
      }
    }
  }

  /** The calling convention for `args`: the first r - 1 arguments are in registers 1 to r - 1, and if
      there are more, the others are in a list in register r. */
  ghost predicate Passed(h: Pairs, reg: seq<Word>, args: seq<Word>) {
    var r := |reg| - 1;
    && r >= 1
    && (forall i | 0 <= i < |args| && i < r - 1 :: reg[i + 1] == args[i])
    && (|args| >= r ==> ListIn(h, reg[r], args[r - 1..]))
  }
}

/** mc_apply and mc_restargs, under a collector that may move every pair at each allocation. */
module RestArguments {
  import opened ArgumentLists

  const G_RESULT := 0
  const G_SECOND := 1
  const G_THIRD := 2
  const G_REST0 := 3
  const G_REST1 := 4
  const G_REST2 := 5
  const G_REG0 := 6

  /** A word with its address replaced by the identity of the pair there. */
  function Seen(id: map<int, int>, w: Word): Word {
    if w.Ref? && w.at in id then Ref(id[w.at]) else w
  }

  function SeenAll(id: map<int, int>, g: seq<Word>): (v: seq<Word>)
    ensures |v| == |g| && forall i | 0 <= i < |g| :: v[i] == Seen(id, g[i])
  {
    seq(|g|, i requires 0 <= i < |g| => Seen(id, g[i]))
  }

  predicate Sound(heap: Pairs, w: Word) {
    w.Ref? ==> w.at in heap
  }

  /** Memory and globals are sound, and `id` and `view` describe them: the identity of the pair at each
      address, and the pairs by identity. */
  ghost predicate Describes(globals: seq<Word>, heap: Pairs, id: map<int, int>, view: Pairs) {
    && (forall i | 0 <= i < |globals| :: Sound(heap, globals[i]))
    && id.Keys == heap.Keys
    && (forall a | a in heap :: Sound(heap, heap[a].car) && Sound(heap, heap[a].cdr))
    && (forall a | a in heap :: id[a] in view && view[id[a]] == Pair(Seen(id, heap[a].car), Seen(id, heap[a].cdr)))
    && (forall a, b | a in heap && b in heap && id[a] == id[b] :: a == b)
  }

  /** `there` says where each pair moves, `back` where it came from. */
  predicate Moves(h: Pairs, there: map<int, int>, back: map<int, int>) {
    && there.Keys == h.Keys
    && (forall a | a in there :: there[a] in back && back[there[a]] == a)
    && (forall b | b in back :: back[b] in there && there[back[b]] == b)
  }

  function Moved(w: Word, there: map<int, int>): Word {
    if w.Ref? && w.at in there then Ref(there[w.at]) else w
  }

  function MovedAll(g: seq<Word>, there: map<int, int>): (v: seq<Word>)
    ensures |v| == |g| && forall i | 0 <= i < |g| :: v[i] == Moved(g[i], there)
  {
    seq(|g|, i requires 0 <= i < |g| => Moved(g[i], there))
  }

  function MovedHeap(h: Pairs, there: map<int, int>, back: map<int, int>): Pairs
    requires Moves(h, there, back)
  {
    map b | b in back :: Pair(Moved(h[back[b]].car, there), Moved(h[back[b]].cdr, there))
  }

  /** A collection cannot be noticed by looking at the globals and what they lead to. */
  lemma MovingIsInvisible(g: seq<Word>, h: Pairs, id: map<int, int>, view: Pairs, there: map<int, int>,
                          back: map<int, int>)
    requires Describes(g, h, id, view) && Moves(h, there, back)
    ensures var id' := map b | b in back :: id[back[b]];
            Describes(MovedAll(g, there), MovedHeap(h, there, back), id', view)
                && SeenAll(id', MovedAll(g, there)) == SeenAll(id, g)
  {
    hide Moved, Seen, Sound;
    var id', h', g' := map b | b in back :: id[back[b]], MovedHeap(h, there, back), MovedAll(g, there);
    forall i | 0 <= i < |g| ensures Sound(h', g'[i]) && Seen(id', g'[i]) == Seen(id, g[i]) {
      MovedWord(h, id, there, back, g[i]);
    }
    forall b | b in h'
      ensures Sound(h', h'[b].car) && Sound(h', h'[b].cdr)
      ensures id'[b] in view && view[id'[b]] == Pair(Seen(id', h'[b].car), Seen(id', h'[b].cdr))
    {
      var a := back[b];
      assert a in h && id'[b] == id[a] && id[a] in view;
      MovedWord(h, id, there, back, h[a].car);
      MovedWord(h, id, there, back, h[a].cdr);
    }
    forall b, c | b in h' && c in h' && id'[b] == id'[c] ensures b == c {
      DistinctAfterMove(h, id, there, back, b, c);
    }
  }

  lemma DistinctAfterMove(h: Pairs, id: map<int, int>, there: map<int, int>, back: map<int, int>, b: int, c: int)
    requires Moves(h, there, back) && id.Keys == h.Keys && b in back && c in back && id[back[b]] == id[back[c]]
    requires forall x, y | x in h && y in h && id[x] == id[y] :: x == y
    ensures b == c
  {
    var x, y := back[b], back[c];
    assert x in h && y in h && id[x] == id[y];
    assert x == y;
    assert there[x] == b && there[y] == c;
  }

  lemma MovedWord(h: Pairs, id: map<int, int>, there: map<int, int>, back: map<int, int>, w: Word)
    requires Moves(h, there, back) && id.Keys == h.Keys && Sound(h, w)
    ensures Seen(map b | b in back :: id[back[b]], Moved(w, there)) == Seen(id, w)
    ensures Sound(MovedHeap(h, there, back), Moved(w, there))
  {
  }

  const UNSET := Pair(Fix(0), Fix(0))

  /** A new pair, not yet initialised. */
  lemma PairAdded(g: seq<Word>, h: Pairs, id: map<int, int>, view: Pairs, p: int, name: int)
    requires Describes(g, h, id, view) && p !in h && name !in view
    ensures Describes(g, h[p := UNSET], id[p := name], view[name := UNSET])
            && SeenAll(id[p := name], g) == SeenAll(id, g)
  {
    forall w | Sound(h, w) ensures Seen(id[p := name], w) == Seen(id, w) {
    }
  }

  /** Storing into a pair, seen from outside. */
  lemma PairSet(g: seq<Word>, h: Pairs, id: map<int, int>, view: Pairs, p: int, car: Word, cdr: Word)
    requires Describes(g, h, id, view) && p in h && Sound(h, car) && Sound(h, cdr)
    ensures Describes(g, h[p := Pair(car, cdr)], id, view[id[p] := Pair(Seen(id, car), Seen(id, cdr))])
  {
  }

  lemma Member<T>(s: set<T>) returns (x: T)
    requires s != {}
    ensures x in s
  {
    x :| x in s;
  }

  lemma Unused(s: set<int>) returns (p: int)
    ensures forall x | x in s :: x < p
  {
    p := 0;
    var left := s;
    while left != {}
      invariant left <= s
      invariant forall x | x in s && x !in left :: x < p
      decreases |left|
    {
      var x := Member(left);
      p := if p <= x then x + 1 else p;
      left := left - {x};
    }
  }

  /** Nothing lies where pairs number `from` to `count` - 1 of a chunk at `base` would lie. */
  predicate Room(heap: Pairs, base: int, from: nat, count: nat) {
    forall i | from <= i < count :: base + 2 * i !in heap
  }

  /** The first `u` pairs of a chunk hold the first words of `s`, and all but the last are linked. */
  ghost predicate Filled(h: Pairs, names: seq<int>, s: seq<Word>, u: nat) {
    && u <= |names| == |s|
    && (forall i | 0 <= i < u :: names[i] in h && h[names[i]].car == s[i])
    && (forall i | 0 <= i < u - 1 :: names[i] in h && h[names[i]].cdr == Ref(names[i + 1]))
  }

  /** Pairs other than `names` are as they were. */
  ghost predicate OthersKept(h0: Pairs, h: Pairs, names: seq<int>) {
    forall k | k in h0 && k !in names :: k in h && h[k] == h0[k]
  }

  lemma OthersStillKept(h0: Pairs, h1: Pairs, h2: Pairs, names: seq<int>)
    requires OthersKept(h0, h1, names) && OthersKept(h1, h2, names)
    ensures OthersKept(h0, h2, names)
  {
  }

  lemma NothingFilled(h: Pairs, names: seq<int>, s: seq<Word>)
    requires |names| == |s|
    ensures Filled(h, names, s, 0)
  {
  }

  /** The next pair of a list that has nothing to do with `names`. */
  lemma ListStepAside(h0: Pairs, h: Pairs, names: seq<int>, w: Word, s: seq<Word>)
    requires ListIn(h0, w, s) && w != Nil && OthersKept(h0, h, names) && Fresh(h0, names)
    ensures s != [] && w.Ref? && w.at in h && h[w.at].car == s[0] && ListIn(h0, h[w.at].cdr, s[1..])
  {
  }

  /** New pairs disturb nothing that was there before. */
  lemma AsideExtends(h0: Pairs, h: Pairs, names: seq<int>)
    requires Fresh(h0, names)
    ensures OthersKept(h0, h, names) <==> Extends(h0, h)
  {
    forall k | k in names ensures k !in h0 {
      var i :| 0 <= i < |names| && names[i] == k;
    }
  }

  class Vm {
    const LASTREG: nat
    var globals: seq<Word>
    var heap: Pairs            // by address
    ghost var id: map<int, int>
    ghost var view: Pairs

    ghost predicate Valid()
      reads this
    {
      LASTREG >= 1 && |globals| == G_REG0 + LASTREG + 1 && Describes(globals, heap, id, view)
    }

    /** The globals, with identities for addresses. */
    ghost function G(): (g: seq<Word>)
      reads `id, `globals
      ensures |g| == |globals|
    {
      SeenAll(id, globals)
    }

    ghost function Regs(): seq<Word>
      requires |globals| == G_REG0 + LASTREG + 1
      reads `id, `globals
    {
      G()[G_REG0..]
    }

    /** A collection: every pair may move, and every global is updated. */
    method Collect()
      requires Valid()
      modifies `globals, `heap, `id
      ensures Valid() && G() == old(G())
    {
      ghost var same := map a | a in heap :: a;
      assert Moves(heap, same, same);
      hide *;
      var there: map<int, int>, back: map<int, int> :| Moves(heap, there, back);
      Parts();
      MovingIsInvisible(globals, heap, id, view, there, back);
      id := map b | b in back :: id[back[b]];
      globals, heap := MovedAll(globals, there), MovedHeap(heap, there, back);
      Parts();
    }

    lemma Parts()
      ensures Valid() <==> LASTREG >= 1 && |globals| == G_REG0 + LASTREG + 1 && Describes(globals, heap, id, view)
      ensures G() == SeenAll(id, globals)
    {
    }

    /** Memory for one pair, after a collection if need be. */
    method AllocPair() returns (p: int)
      requires Valid()
      modifies `globals, `heap, `id, `view
      ensures Valid() && G() == old(G()) && p in heap && p in id
      ensures id[p] !in old(view) && view == old(view)[id[p] := view[id[p]]]
    {
      Collect();
      ghost var free := Unused(heap.Keys);
      assert free !in heap;
      p :| p !in heap;
      ghost var name := Unused(view.Keys);
      PairAdded(globals, heap, id, view, p, name);
      heap, id, view := heap[p := UNSET], id[p := name], view[name := UNSET];
    }

    method SetPair(p: int, car: Word, cdr: Word)
      requires Valid() && p in heap && Sound(heap, car) && Sound(heap, cdr)
      modifies `heap, `view
      ensures Valid() && heap.Keys == old(heap.Keys)
      ensures view == old(view)[id[p] := Pair(Seen(id, car), Seen(id, cdr))]
    {
      PairSet(globals, heap, id, view, p, car, cdr);
      heap, view := heap[p := Pair(car, cdr)], view[id[p] := Pair(Seen(id, car), Seen(id, cdr))];
    }

    method SetGlobal(i: nat, w: Word)
      requires Valid() && i < |globals| && Sound(heap, w)
      modifies `globals
      ensures Valid() && G() == old(G())[i := Seen(id, w)]
    {
      globals := globals[i := w];
    }

    lemma GlobalSound(i: nat)
      requires Valid() && i < |globals|
      ensures Sound(heap, globals[i]) && |G()| == |globals| && G()[i] == Seen(id, globals[i])
    {
    }

    /** The pair that global `i` refers to. */
    method Fetch(i: nat) returns (car: Word, cdr: Word)
      requires Valid() && i < |globals| && G()[i].Ref? && G()[i].at in view
      ensures Sound(heap, car) && Sound(heap, cdr) && view[G()[i].at] == Pair(Seen(id, car), Seen(id, cdr))
    {
      GlobalSound(i);
      car, cdr := heap[globals[i].at].car, heap[globals[i].at].cdr;
    }

    /** Store `value` into the cdr of the pair in global `i`, and tell the write barrier the pair, the value
        and where the slot is. */
    method ListSetCdr(i: nat, value: Word)
      requires Valid() && i < |globals| && G()[i].Ref? && G()[i].at in view && Sound(heap, value)
      modifies `globals, `heap, `view
      ensures Valid() && id == old(id) && heap.Keys == old(heap.Keys)
      ensures var k := old(G())[i].at; view == old(view)[k := Pair(old(view)[k].car, Seen(id, value))]
      ensures forall j | 0 <= j < |globals| && j !in {G_RESULT, G_SECOND, G_THIRD} :: globals[j] == old(globals[j])
      ensures globals[G_RESULT] == old(globals[i]) && globals[G_SECOND] == value
      ensures globals[G_THIRD] == Fix(globals[G_RESULT].at + 1)
    {
      GlobalSound(i);
      var pair := globals[i];
      SetGlobal(G_RESULT, pair);
      SetGlobal(G_SECOND, value);
      SetGlobal(G_THIRD, Fix(pair.at + 1));
      SetPair(pair.at, heap[pair.at].car, value);
    }

    /** A new pair of the words in globals `a` and `b`, which are read after the collection that
        allocation may cause.  The pair is left in global `c`. */
    method Cons(a: nat, b: nat, c: nat) returns (ghost k: int)
      requires Valid() && a < |globals| && b < |globals| && c < |globals|
      modifies `globals, `heap, `id, `view
      ensures Valid() && k !in old(view) && view == old(view)[k := Pair(old(G())[a], old(G())[b])]
      ensures G() == old(G())[c := Ref(k)]
    {
      var p := AllocPair();
      k := id[p];
      SetPair(p, globals[a], globals[b]);
      SetGlobal(c, Ref(p));
    }

    /** A new list of registers `lo` to `hi`, followed by `tail`. */
    method ListFromRegisters(lo: nat, hi: nat, tail: Word) returns (w: Word, ghost cells: seq<int>)
      requires Valid() && Sound(heap, tail) && 0 < lo <= hi + 1 && hi <= LASTREG
      modifies `globals, `heap, `id, `view
      ensures Valid() && Sound(heap, w) && Extends(old(view), view) && Fresh(old(view), cells)
      ensures Linked(view, cells, old(Regs())[lo..hi + 1], old(Seen(id, tail)))
      ensures Seen(id, w) == HeadOr(cells, 0, old(Seen(id, tail)))
      ensures Regs() == old(Regs())
    {
      hide Describes, SeenAll, Seen, Linked, Fresh, Extends, HeadOr;
      ghost var h0, regs, end := view, Regs(), Seen(id, tail);
      SetGlobal(G_REST0, tail);
      cells := [];
      NothingLinked(view, end);
      assert regs[hi + 1..hi + 1] == [];
      var i := hi;
      while i >= lo
        invariant lo - 1 <= i <= hi && Valid() && |globals| == G_REG0 + LASTREG + 1 && Regs() == regs
        invariant Extends(h0, view) && Fresh(h0, cells)
        invariant Linked(view, cells, regs[i + 1..hi + 1], end) && G()[G_REST0] == HeadOr(cells, 0, end)
      {
        assert regs[i..hi + 1] == [regs[i]] + regs[i + 1..hi + 1];
        ghost var h, k := view, 0;
        k := Cons(G_REG0 + i, G_REST0, G_REST0);
        LinkedCons(h, cells, regs[i + 1..hi + 1], end, k, regs[i]);
        FreshGrows(h0, h, cells, k, view[k]);
        cells := [k] + cells;
        i := i - 1;
        Parts();
      }
      w := globals[G_REST0];
      GlobalSound(G_REST0);
    }

    /** Make the pair at `p` the last pair of the copy. */
    method LinkAfter(p: int)
      requires Valid() && p in heap && p in id
      requires G()[G_REST1] != Nil ==> G()[G_REST1].Ref? && G()[G_REST1].at in view
      modifies `globals, `heap, `view
      ensures Valid() && Regs() == old(Regs()) && |G()| == old(|G()|)
      ensures view == (if old(G())[G_REST1] == Nil then old(view)
                       else old(view)[old(G())[G_REST1].at := Pair(old(view)[old(G())[G_REST1].at].car, Ref(id[p]))])
      ensures G()[G_REST0] == (if old(G())[G_REST1] == Nil then Ref(id[p]) else old(G())[G_REST0])
      ensures G()[G_REST1] == Ref(id[p]) && G()[G_REST2] == old(G())[G_REST2]
    {
      hide Describes;
      GlobalSound(G_REST1);
      if globals[G_REST1] == Nil {
        SetGlobal(G_REST1, Ref(p));
        SetGlobal(G_REST0, Ref(p));
      } else {
        ListSetCdr(G_REST1, Ref(p));
        var _, cdr := Fetch(G_REST1);
        SetGlobal(G_REST1, cdr);
      }
    }

    /** Copy the pair in REST2 to the end of the list whose last pair is in REST1, and go on to the
        next. */
    method CopyPair() returns (ghost k: int)
      requires Valid() && G()[G_REST2].Ref? && G()[G_REST2].at in view
      requires G()[G_REST1] != Nil ==> G()[G_REST1].Ref? && G()[G_REST1].at in view && G()[G_REST1] != G()[G_REST2]
      modifies `globals, `heap, `id, `view
      ensures Valid() && k !in old(view) && Regs() == old(Regs()) && |G()| == old(|G()|)
      ensures view == CopyStep(old(view), old(G())[G_REST1], old(view)[old(G())[G_REST2].at].car, k)
      ensures G()[G_REST0] == (if old(G())[G_REST1] == Nil then Ref(k) else old(G())[G_REST0])
      ensures G()[G_REST1] == Ref(k) && G()[G_REST2] == old(view)[old(G())[G_REST2].at].cdr
    {
      hide Describes, SeenAll;
      var p := AllocPair();
      k := id[p];
      GlobalSound(G_REST1);
      var car, cdr := Fetch(G_REST2);
      SetPair(p, car, Nil);
      LinkAfter(p);
      car, cdr := Fetch(G_REST2);
      SetGlobal(G_REST2, cdr);
    }

    /** A copy of the list `head`. */
    method ListCopy(head: Word, ghost s: seq<Word>) returns (w: Word, ghost cells: seq<int>)
      requires Valid() && Sound(heap, head) && ListIn(view, Seen(id, head), s)
      modifies `globals, `heap, `id, `view
      ensures Valid() && Sound(heap, w) && Extends(old(view), view) && Fresh(old(view), cells)
      ensures Linked(view, cells, s, Nil) && Seen(id, w) == HeadOr(cells, 0, Nil) && Regs() == old(Regs())
    {
      hide Describes, SeenAll, Linked, Fresh, Extends, HeadOr, ListIn, CopyStep;
      ghost var h0, regs := view, Regs();
      SetGlobal(G_REST0, Nil);
      SetGlobal(G_REST1, Nil);
      SetGlobal(G_REST2, head);
      cells := [];
      ghost var i := 0;
      NothingLinked(view, Nil);
      GlobalSound(G_REST2);
      while globals[G_REST2] != Nil
        invariant i <= |s| && Valid() && |globals| == G_REG0 + LASTREG + 1 && Regs() == regs
        invariant Extends(h0, view) && Fresh(h0, cells) && Linked(view, cells, s[..i], Nil)
        invariant ListIn(h0, G()[G_REST2], s[i..]) && G()[G_REST0] == HeadOr(cells, 0, Nil)
        invariant |cells| == i && G()[G_REST1] == if i == 0 then Nil else Ref(cells[i - 1])
        decreases |s| - i
      {
        GlobalSound(G_REST2);
        ListStep(h0, view, G()[G_REST2], s[i..], cells);
        ghost var h := view;
        LinkedInHeap(h, cells, s[..i], Nil);
        ghost var k := CopyPair();
        LinkedSnoc(h0, h, cells, s[..i], k, s[i]);
        assert s[..i + 1] == s[..i] + [s[i]] && s[i..][1..] == s[i + 1..];
        cells := cells + [k];
        i := i + 1;
      }
      w := globals[G_REST0];
      GlobalSound(G_REST0);
      GlobalSound(G_REST2);
      ListEnds(h0, s[i..]);
      assert s[..i] == s;
    }

    /** A list of one item. */
    method List1(item: Word) returns (w: Word, ghost k: int)
      requires Valid() && Sound(heap, item)
      modifies `globals, `heap, `id, `view
      ensures Valid() && Sound(heap, w) && k !in old(view) && Seen(id, w) == Ref(k)
      ensures view == old(view)[k := Pair(old(Seen(id, item)), Nil)]
      ensures G() == old(G())[G_REST0 := old(Seen(id, item))]
    {
      hide Describes;
      SetGlobal(G_REST0, item);
      var p := AllocPair();
      k := id[p];
      GlobalSound(G_REST0);
      SetPair(p, globals[G_REST0], Nil);
      w := Ref(p);
    }

    /** The arguments before number `i` are in registers, and `rest` is the list of the others. */
    ghost predicate SpreadUpTo(i: nat, rest: Word, args: seq<Word>)
      requires |globals| == G_REG0 + LASTREG + 1
      reads `globals, `heap, `id, `view
    {
      && 1 <= i <= LASTREG && i <= |args| + 1 && Sound(heap, rest) && ListIn(view, Seen(id, rest), args[i - 1..])
      && forall k | 0 <= k < i - 1 :: G()[G_REG0 + 1 + k] == args[k]
    }

    /** Put the next argument into its register. */
    method SpreadOne(i: nat, rest: Word, ghost args: seq<Word>) returns (rest': Word)
      requires Valid() && SpreadUpTo(i, rest, args) && i < LASTREG && rest != Nil
      modifies `globals
      ensures Valid() && SpreadUpTo(i + 1, rest', args)
      ensures G()[G_RESULT] == old(G())[G_RESULT] && G()[G_THIRD] == old(G())[G_THIRD]
    {
      hide Describes, SeenAll, ListIn;
      ListStep(view, view, Seen(id, rest), args[i - 1..], []) by {
        NothingLinked(view, Nil);
      }
      assert args[i - 1..][1..] == args[i..];
      var car;
      car, rest' := FetchWord(rest);
      SetGlobal(G_REG0 + i, car);
    }

    /** What does not fit the registers goes into the last one; then enter the procedure in RESULT. */
    method EnterApplied(i: nat, rest: Word, ghost args: seq<Word>)
      requires Valid() && SpreadUpTo(i, rest, args) && (i == LASTREG || rest == Nil)
      modifies `globals
      ensures Valid() && Passed(view, Regs(), args)
      ensures Regs()[0] == old(G())[G_RESULT] && G()[G_RESULT] == old(G())[G_THIRD]
    {
      hide Describes, SeenAll, ListIn;
      if rest == Nil {
        ListEnds(view, args[i - 1..]);
      }
      SetGlobal(G_REG0 + LASTREG, rest);
      GlobalSound(G_RESULT);
      SetGlobal(G_REG0, globals[G_RESULT]);
      GlobalSound(G_THIRD);
      SetGlobal(G_RESULT, globals[G_THIRD]);
    }

    /** Spread the list in SECOND over the registers, and enter the procedure in RESULT. */
    method Apply(ghost args: seq<Word>)
      requires Valid() && ListIn(view, G()[G_SECOND], args)
      modifies `globals
      ensures Valid() && Passed(view, Regs(), args)
      ensures Regs()[0] == old(G())[G_RESULT] && G()[G_RESULT] == old(G())[G_THIRD]
    {
      hide Describes, SeenAll, ListIn, Passed;
      var rest := globals[G_SECOND];
      GlobalSound(G_SECOND);
      assert args[0..] == args;
      var i := 1;
      hide Seen;
      while i <= LASTREG - 1 && rest != Nil
        invariant Valid() && SpreadUpTo(i, rest, args)
        invariant G()[G_RESULT] == old(G())[G_RESULT] && G()[G_THIRD] == old(G())[G_THIRD]
      {
        rest := SpreadOne(i, rest, args);
        i := i + 1;
      }
      EnterApplied(i, rest, args);
    }

    /** The pair that `w` refers to. */
    method FetchWord(w: Word) returns (car: Word, cdr: Word)
      requires Valid() && Sound(heap, w) && Seen(id, w).Ref?
      ensures Sound(heap, car) && Sound(heap, cdr)
      ensures Seen(id, w).at in view && view[Seen(id, w).at] == Pair(Seen(id, car), Seen(id, cdr))
    {
      car, cdr := heap[w.at].car, heap[w.at].cdr;
    }

    /** The arguments from number `n` on are in the new list `cells`, and the first `n` and this list
        are passed as `n` + 1 arguments. */
    ghost predicate Rested(h0: Pairs, args: seq<Word>, n: nat, cells: seq<int>)
      requires n <= |args| && |globals| == G_REG0 + LASTREG + 1
      reads `id, `globals, `view
    {
      && Extends(h0, view) && Fresh(h0, cells) && Linked(view, cells, args[n..], Nil)
      && Passed(view, Regs(), args[..n] + [HeadOr(cells, 0, Nil)])
    }

    /** All arguments are in registers. */
    method RestArgsCase0(j: nat, n: nat, ghost args: seq<Word>) returns (ghost cells: seq<int>)
      requires Valid() && Passed(view, Regs(), args) && n <= j == |args| && n < LASTREG - 1 && j < LASTREG
      modifies `globals, `heap, `id, `view
      ensures Valid() && Rested(old(view), args, n, cells) && Regs()[0] == old(Regs())[0]
    {
      hide Describes, SeenAll, Linked, Fresh, Extends, HeadOr, ListIn;
      var w;
      w, cells := ListFromRegisters(n + 1, j, Nil);
      assert old(Regs())[n + 1..j + 1] == args[n..];
      SetGlobal(G_REG0 + n + 1, w);
      assert forall i | 0 < i <= n :: Regs()[i] == old(Regs())[i];
    }

    /** Some arguments are in the list in the last register. */
    method RestArgsCase1(j: nat, n: nat, ghost args: seq<Word>) returns (ghost cells: seq<int>)
      requires Valid() && Passed(view, Regs(), args) && n <= j == |args| && n < LASTREG - 1 && LASTREG <= j
      modifies `globals, `heap, `id, `view
      ensures Valid() && Rested(old(view), args, n, cells) && Regs()[0] == old(Regs())[0]
    {
      hide Describes, SeenAll, Linked, Fresh, Extends, HeadOr, ListIn;
      ghost var h0 := view;
      GlobalSound(G_REG0 + LASTREG);
      var tail;
      ghost var c2;
      tail, c2 := ListCopy(globals[G_REG0 + LASTREG], args[LASTREG - 1..]);
      ghost var h1 := view;
      var w;
      ghost var c1;
      w, c1 := ListFromRegisters(n + 1, LASTREG - 1, tail);
      assert old(Regs())[n + 1..LASTREG] == args[n..LASTREG - 1];
      JoinNew(h0, h1, view, c1, args[n..LASTREG - 1], c2, args[LASTREG - 1..]);
      assert args[n..LASTREG - 1] + args[LASTREG - 1..] == args[n..];
      cells := c1 + c2;
      SetGlobal(G_REG0 + n + 1, w);
      assert forall i | 0 < i <= n :: Regs()[i] == old(Regs())[i];
    }

    /** The list takes the last place in a list of its own. */
    method RestArgsCase2(j: nat, n: nat, ghost args: seq<Word>) returns (ghost cells: seq<int>)
      requires Valid() && Passed(view, Regs(), args) && n <= j == |args| && n == LASTREG - 1
      modifies `globals, `heap, `id, `view
      ensures Valid() && Rested(old(view), args, n, cells) && Regs()[0] == old(Regs())[0]
    {
      hide Describes, SeenAll, Linked, Fresh, Extends, HeadOr, ListIn;
      ghost var h0 := view;
      var rest;
      cells := [];
      NothingLinked(view, Nil);
      if n == j {
        rest := Nil;
      } else {
        GlobalSound(G_REG0 + LASTREG);
        rest, cells := ListCopy(globals[G_REG0 + LASTREG], args[LASTREG - 1..]);
      }
      ghost var h1, item := view, Seen(id, rest);
      var w;
      ghost var k;
      w, k := List1(rest);
      OneMore(h0, h1, cells, args[n..], k, item);
      SetGlobal(G_REG0 + LASTREG, w);
      assert (args[..n] + [item])[LASTREG - 1..] == [item];
      assert forall i | 0 < i < LASTREG :: Regs()[i] == old(Regs())[i];
    }

    /** Fixed arguments reach into the list, which is cut after them. */
    method RestArgsCase3(j: nat, n: nat, ghost args: seq<Word>) returns (ghost cells: seq<int>)
      requires Valid() && Passed(view, Regs(), args) && LASTREG <= n <= j == |args|
      modifies `globals, `heap, `id, `view
      ensures Valid() && Rested(old(view), args, n, cells) && Regs()[0] == old(Regs())[0]
    {
      hide Describes, SeenAll, Linked, Fresh, Extends, HeadOr, ListIn, Seen;
      ghost var h0, regs, s := view, Regs(), args[LASTREG - 1..];
      GlobalSound(G_REG0 + LASTREG);
      var l;
      ghost var all;
      l, all := ListCopy(globals[G_REG0 + LASTREG], s);
      SetGlobal(G_REG0 + LASTREG, l);
      assert Regs() == regs[LASTREG := HeadOr(all, 0, Nil)];
      var k := n - (LASTREG - 1);
      LinkedInHeap(view, all, s, Nil);
      CutList(h0, l, k, all, s);
      cells := all[k..];
      assert s[k..] == args[n..] && s[..k] == args[LASTREG - 1..n];
      PassedCut(h0, view, regs, Regs(), args, n, HeadOr(cells, 0, Nil));
    }

    /** Cut the new list `head` after `k` pairs, and hang a list of the rest onto the first part. */
    method CutList(ghost h0: Pairs, head: Word, k: nat, ghost all: seq<int>, ghost s: seq<Word>)
      requires Valid() && Sound(heap, head) && Linked(view, all, s, Nil) && Seen(id, head) == HeadOr(all, 0, Nil)
      requires Extends(h0, view) && Fresh(h0, all) && 0 < k <= |s|
      modifies `globals, `heap, `id, `view
      ensures Valid() && Extends(h0, view) && Fresh(h0, all[k..]) && Linked(view, all[k..], s[k..], Nil)
      ensures ListIn(view, HeadOr(all, 0, Nil), s[..k] + [HeadOr(all[k..], 0, Nil)]) && Regs() == old(Regs())
    {
      hide Describes, SeenAll, Linked, Fresh, Extends, HeadOr, ListIn;
      ghost var h1 := view;
      var l, prev := Skip(head, k, all, s);
      SetGlobal(G_REST1, prev);
      var tail;
      ghost var t;
      tail, t := List1(l);
      LinkedInHeap(h1, all, s, Nil);
      CutRest(h0, h1, all, s, k, t);
      ListSetCdr(G_REST1, tail);
    }

    /** The word after `k` pairs of a list, and the last of these pairs. */
    method Skip(head: Word, k: nat, ghost cells: seq<int>, ghost s: seq<Word>) returns (l: Word, prev: Word)
      requires Valid() && Sound(heap, head) && Linked(view, cells, s, Nil) && Seen(id, head) == HeadOr(cells, 0, Nil)
      requires 0 < k <= |s|
      ensures Sound(heap, l) && Seen(id, l) == HeadOr(cells, k, Nil)
      ensures Sound(heap, prev) && Seen(id, prev) == Ref(cells[k - 1])
    {
      hide Describes, SeenAll, Seen;
      l, prev := head, head;
      var left := k;
      while left > 0
        invariant 0 <= left <= k && Sound(heap, l) && Seen(id, l) == HeadOr(cells, k - left, Nil)
        invariant left < k ==> Sound(heap, prev) && Seen(id, prev) == Ref(cells[k - left - 1])
      {
        prev := l;
        var _, cdr := FetchWord(l);
        l := cdr;
        left := left - 1;
      }
    }

    /** Collect the arguments after the first SECOND ones into a new list, and pass it as one more
        argument. */
    method RestArgs(ghost args: seq<Word>) returns (ghost cells: seq<int>)
      requires Valid() && Passed(view, Regs(), args)
      requires G()[G_RESULT] == Fix(|args|) && G()[G_SECOND].Fix? && 0 <= G()[G_SECOND].value <= |args|
      modifies `globals, `heap, `id, `view
      ensures Valid() && Rested(old(view), args, old(G())[G_SECOND].value, cells) && Regs()[0] == old(Regs())[0]
    {
      hide Describes, Rested, Passed, SeenAll;
      GlobalSound(G_RESULT);
      GlobalSound(G_SECOND);
      var j, n := globals[G_RESULT].value, globals[G_SECOND].value;
      if n < LASTREG - 1 && j < LASTREG {
        cells := RestArgsCase0(j, n, args);
      } else if n < LASTREG - 1 {
        cells := RestArgsCase1(j, n, args);
      } else if n == LASTREG - 1 {
        cells := RestArgsCase2(j, n, args);
      } else {
        cells := RestArgsCase3(j, n, args);
      }
    }

    /** Applying a procedure with `n` fixed parameters and a rest parameter to a list of arguments. */
    method ApplyWithRest(n: nat, ghost args: seq<Word>) returns (ghost cells: seq<int>)
      requires Valid() && ListIn(view, G()[G_SECOND], args) && G()[G_THIRD] == Fix(|args|) && n <= |args|
      modifies `globals, `heap, `id, `view
      ensures Valid() && Rested(old(view), args, n, cells) && Regs()[0] == old(G())[G_RESULT]
    {
      hide Describes, Rested, Passed, SeenAll, ListIn;
      Apply(args);
      SetGlobal(G_SECOND, Fix(n));
      cells := RestArgs(args);
    }

    // ---- The variant that allocates all pairs at once.

    /** Memory for as many words as RESULT says, which are `count` consecutive pairs, unless that is more
        than the largest object. */
    method AllocChunk(largestObject: nat, ghost count: nat) returns (ok: bool, base: int, ghost names: seq<int>)
      requires Valid() && G()[G_RESULT] == Fix(2 * count)
      modifies `globals, `heap, `id, `view
      ensures ok == (8 * count <= largestObject)
      ensures Valid() && G() == old(G()) && Extends(old(view), view) && Fresh(old(view), names)
      ensures !ok ==> names == []
      ensures ok ==> Chunk(base, names, count)
    {
      hide Describes, SeenAll;
      GlobalSound(G_RESULT);
      var words := globals[G_RESULT].value;
      base, names := 0, [];
      ok := 4 * words <= largestObject;
      if !ok {
        return;
      }
      Collect();
      ghost var free := Unused(heap.Keys);
      assert Room(heap, free, 0, count);
      base :| Room(heap, base, 0, words / 2);
      for u := 0 to words / 2
        invariant Valid() && G() == old(G()) && Extends(old(view), view) && Fresh(old(view), names)
        invariant Chunk(base, names, u) && Room(heap, base, u, count)
      {
        ghost var name := Unused(view.Keys);
        PairAdded(globals, heap, id, view, base + 2 * u, name);
        heap, id, view := heap[base + 2 * u := UNSET], id[base + 2 * u := name], view[name := UNSET];
        names := names + [name];
      }
    }

    /** Pairs number 0 to `count` - 1 from `base` on are called `names`. */
    ghost predicate Chunk(base: int, names: seq<int>, count: nat)
      reads `heap, `id, `view
    {
      && |names| == count
      && (forall i | 0 <= i < count ::
            base + 2 * i in heap && base + 2 * i in id && id[base + 2 * i] == names[i] && names[i] in view)
      && (forall i, j | 0 <= i < j < count :: names[i] != names[j])
    }

    /** Put `x` into pair number `u` of a chunk and link the pair before it to this one. */
    method PutNext(base: int, ghost names: seq<int>, ghost count: nat, u: nat, x: Word, ghost s: seq<Word>)
      requires Valid() && Chunk(base, names, count) && u < count == |s| && Sound(heap, x)
      requires Filled(view, names, s, u) && Seen(id, x) == s[u]
      modifies `heap, `view
      ensures Valid() && heap.Keys == old(heap.Keys) && Chunk(base, names, count) && Filled(view, names, s, u + 1)
      ensures OthersKept(old(view), view, names)
    {
      hide Describes, SeenAll;
      var p := base + 2 * u;
      assert names[u] in names && (u > 0 ==> names[u - 1] in names);
      PairSound(p);
      SetPair(p, x, heap[p].cdr);
      if u > 0 {
        assert base + 2 * (u - 1) == p - 2;
        PairSound(p - 2);
        SetPair(p - 2, heap[p - 2].car, Ref(p));
      }
    }

    lemma PairSound(p: int)
      requires Valid() && p in heap
      ensures Sound(heap, heap[p].car) && Sound(heap, heap[p].cdr) && p in id && id[p] in view
      ensures view[id[p]] == Pair(Seen(id, heap[p].car), Seen(id, heap[p].cdr))
    {
    }

    /** As `RestArgs`, with one allocation, for fixed arguments that are all in registers.  The list takes
        exactly the `2 * (j - n)` words that were allocated.  Fails if that is more than the largest
        object. */
    method RestArgsInOneChunk(largestObject: nat, ghost args: seq<Word>)
      returns (ok: bool, words: nat, used: nat, ghost cells: seq<int>)
      requires Valid() && Passed(view, Regs(), args)
      requires G()[G_RESULT] == Fix(|args|) && G()[G_SECOND].Fix? && 0 <= G()[G_SECOND].value <= |args|
      requires G()[G_SECOND].value < LASTREG - 1
      modifies `globals, `heap, `id, `view
      ensures words == 2 * (|args| - old(G())[G_SECOND].value) && ok == (4 * words <= largestObject || words == 0)
      ensures ok ==> Valid() && Rested(old(view), args, old(G())[G_SECOND].value, cells) && Regs()[0] == old(Regs())[0]
      ensures ok ==> used == words == 2 * |cells|
      ensures ok ==> G()[G_RESULT] == if words == 0 then old(G())[G_RESULT] else FALSE
    {
      hide Describes, SeenAll, Linked, Fresh, Extends, HeadOr, ListIn;
      GlobalSound(G_RESULT);
      GlobalSound(G_SECOND);
      var j, n := globals[G_RESULT].value, globals[G_SECOND].value;
      words, used, cells, ok := 2 * (j - n), 0, [], true;
      if words == 0 {
        SetGlobal(G_REG0 + n + 1, Nil);
        NothingLinked(view, Nil);
        assert args[n..] == [] && forall i | 0 < i <= n :: Regs()[i] == old(Regs())[i];
      } else {
        ok, used, cells := ChunkOfRest(largestObject, j, n, args);
      }
    }

    /** The list of arguments `n` to `j`, which are not empty, in one chunk. */
    method ChunkOfRest(largestObject: nat, j: nat, n: nat, ghost args: seq<Word>)
      returns (ok: bool, used: nat, ghost cells: seq<int>)
      requires Valid() && Passed(view, Regs(), args) && n < j == |args| && n < LASTREG - 1
      modifies `globals, `heap, `id, `view
      ensures ok == (8 * (j - n) <= largestObject)
      ensures ok ==> Valid() && Rested(old(view), args, n, cells) && Regs()[0] == old(Regs())[0]
      ensures ok ==> used == 2 * (j - n) == 2 * |cells| && G()[G_RESULT] == FALSE
    {
      hide Describes, SeenAll, Linked, Fresh, Extends, HeadOr, ListIn, Filled, OthersKept;
      ghost var h0 := view;
      SetGlobal(G_RESULT, Fix(2 * (j - n)));
      var base;
      ok, base, cells := AllocChunk(largestObject, j - n);
      used := 0;
      if ok {
        SetGlobal(G_RESULT, FALSE);
        AsideExtends(h0, view, cells);
        var u := FillChunk(base, cells, j, n, args, h0);
        used := 2 * u;
        AsideExtends(h0, view, cells);
        CloseChunk(h0, base, u, cells, args[n..]);
        ChunkHead(cells);
        SetGlobal(G_REG0 + n + 1, Ref(base));
        assert forall i | 0 < i <= n :: Regs()[i] == old(Regs())[i];
      }
    }

    static lemma ChunkHead(cells: seq<int>)
      requires cells != []
      ensures HeadOr(cells, 0, Nil) == Ref(cells[0])
    {
    }

    /** Copy arguments `n` to `j` from registers and the list in the last register into a chunk. */
    method FillChunk(base: int, ghost names: seq<int>, j: nat, n: nat, ghost args: seq<Word>, ghost h0: Pairs)
      returns (u: nat)
      requires Valid() && Passed(h0, Regs(), args) && n < j == |args| && n < LASTREG - 1 && Chunk(base, names, j - n)
      modifies `heap, `view
      requires Fresh(h0, names) && OthersKept(h0, view, names)
      ensures Valid() && Chunk(base, names, j - n) && u == j - n && Filled(view, names, args[n..], u)
      ensures OthersKept(h0, view, names)
    {
      hide Describes, SeenAll, ListIn, Filled;
      ghost var s := args[n..];
      NothingFilled(view, names, s);
      u := 0;
      var k := n + 1;
      var limit := if j < LASTREG - 1 then j else LASTREG - 1;
      while k <= limit
        invariant n + 1 <= k <= limit + 1 && u == k - (n + 1) && Valid() && Chunk(base, names, j - n)
        invariant Filled(view, names, s, u) && OthersKept(h0, view, names)
      {
        GlobalSound(G_REG0 + k);
        assert Regs()[k] == s[u];
        PutNext(base, names, j - n, u, globals[G_REG0 + k], s);
        u := u + 1;
        k := k + 1;
      }
      if j >= LASTREG {
        GlobalSound(G_REG0 + LASTREG);
        u := FillFromList(base, names, u, globals[G_REG0 + LASTREG], s, h0);
      }
    }

    /** Copy the list `head` into a chunk. */
    method FillFromList(base: int, ghost names: seq<int>, u0: nat, head: Word, ghost s: seq<Word>, ghost h0: Pairs)
      returns (u: nat)
      requires Valid() && Chunk(base, names, |s|) && u0 <= |s| && Filled(view, names, s, u0) && Sound(heap, head)
      requires OthersKept(h0, view, names) && Fresh(h0, names) && ListIn(h0, Seen(id, head), s[u0..])
      modifies `heap, `view
      ensures Valid() && Chunk(base, names, |s|) && u == |s| && Filled(view, names, s, u) && OthersKept(h0, view, names)
    {
      hide Describes, ListIn, Filled, OthersKept, Fresh;
      u := u0;
      var t := head;
      while t != Nil
        invariant u <= |s| && Valid() && Chunk(base, names, |s|) && Filled(view, names, s, u) && Sound(heap, t)
        invariant OthersKept(h0, view, names) && ListIn(h0, Seen(id, t), s[u..])
        decreases |s| - u
      {
        ListStepAside(h0, view, names, Seen(id, t), s[u..]);
        var car, cdr := FetchWord(t);
        assert s[u..][1..] == s[u + 1..];
        ghost var h := view;
        PutNext(base, names, |s|, u, car, s);
        OthersStillKept(h0, h, view, names);
        u := u + 1;
        t := cdr;
      }
      ListEnds(h0, s[u..]);
    }

    /** End the list in a chunk. */
    method CloseChunk(ghost h0: Pairs, base: int, u: nat, ghost names: seq<int>, ghost s: seq<Word>)
      requires Valid() && Chunk(base, names, u) && 0 < u == |s| && Filled(view, names, s, u)
      requires Fresh(h0, names) && Extends(h0, view)
      modifies `heap, `view
      ensures Valid() && Linked(view, names, s, Nil) && Extends(h0, view) && heap.Keys == old(heap.Keys)
      ensures base in heap && base in id && id[base] == names[0]
    {
      hide Describes, SeenAll;
      var prev := base + 2 * (u - 1);
      assert base + 2 * 0 == base;
      PairSound(prev);
      SetPair(prev, heap[prev].car, Nil);
    }
  }
}
