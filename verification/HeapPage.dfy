/** One sub-page heap page: equal blocks, with the free list threaded through the free blocks' first words. */
module HeapPage {
  import Bits
  import Chains

  const PAGE_SIZE := 4096
  const WORDS_PER_PAGE := 1024
  const NSIZES := 8
  const INVALID_OFFSET := 0xffff

  const SIZES: seq<nat> := [16, 32, 64, 128, 256, 512, 1024, 2048]

  lemma SizesDivide(t: nat)
    requires t < NSIZES
    ensures SIZES[t] >= 16 && SIZES[t] % 4 == 0 && SIZES[t] <= 2048
    ensures (PAGE_SIZE / SIZES[t]) * SIZES[t] == PAGE_SIZE && 2 <= PAGE_SIZE / SIZES[t]
  {
  }

  function BlocksPerPage(t: nat): nat
    requires t < NSIZES
  {
    SizesDivide(t);
    PAGE_SIZE / SIZES[t]
  }

  /** Offsets of the blocks of a page of block size `size`. */
  predicate IsBlock(size: nat, o: nat)
    requires size > 0
  {
    o < PAGE_SIZE && o % size == 0
  }

  /** The word at byte offset `o`. */
  function Word(w: seq<nat>, o: nat): nat
    requires |w| == WORDS_PER_PAGE && o < PAGE_SIZE
  {
    w[o / 4]
  }

  function Store(w: seq<nat>, i: nat, x: nat): seq<nat>
    requires i < |w|
  {
    w[i := x]
  }

  /** The in-page free list is exactly `free`: aligned blocks, no repetition, each linking to the next by
      absolute address, the last holding NULL. */
  ghost predicate FreeListIs(base: nat, size: nat, w: seq<nat>, head: nat, free: seq<nat>)
    requires size > 0
  {
    && |w| == WORDS_PER_PAGE && Chains.NoDup(free)
    && (forall i :: 0 <= i < |free| ==> IsBlock(size, free[i]))
    && (if free == [] then head == INVALID_OFFSET else head == free[0])
    && (forall i {:trigger LinkAt(base, free, i)} :: 0 <= i < |free| ==> Word(w, free[i]) == LinkAt(base, free, i))
  }

  /** The next pointer stored in the i-th free block. */
  function LinkAt(base: nat, free: seq<nat>, i: nat): nat { if i + 1 < |free| then base + free[i + 1] else 0 }

  /** Where following next pointers leads: through these blocks to NULL, or not to NULL at all (off the page, or on
      past the number of blocks allowed). */
  datatype Walked = Ends(blocks: seq<nat>) | Lost

  /** Follow next pointers from address `a` until NULL, over at most `limit` blocks. */
  function Walk(base: nat, w: seq<nat>, a: nat, limit: nat): Walked
    requires |w| == WORDS_PER_PAGE
    decreases limit
  {
    if a == 0 then Ends([])
    else if limit == 0 || a < base || a - base >= PAGE_SIZE then Lost
    else match Walk(base, w, Word(w, a - base), limit - 1)
      case Ends(blocks) => Ends([a - base] + blocks)
      case Lost => Lost
  }

  /** The address a list's head offset stands for. */
  function HeadAddress(base: nat, head: nat): nat { if head == INVALID_OFFSET then 0 else base + head }

  /** Following the links from the head visits the free list in order and then meets NULL, whatever longer walk is
      allowed: the list is acyclic and complete. */
  lemma {:induction false} WalkIsFree(base: nat, size: nat, w: seq<nat>, head: nat, free: seq<nat>, limit: nat)
    requires base > 0 && size > 0 && FreeListIs(base, size, w, head, free) && limit >= |free|
    ensures |w| == WORDS_PER_PAGE && (head == INVALID_OFFSET <==> free == [])
    ensures Walk(base, w, HeadAddress(base, head), limit) == Ends(free)
    decreases |free|
  {
    if free != [] {
      var rest := free[1..];
      var next := if |free| == 1 then INVALID_OFFSET else free[1];
      FirstLink(base, size, w, head, free);
      ShorterList(base, size, w, head, free);
      WalkIsFree(base, size, w, next, rest, limit - 1);
      WalkStep(base, w, head, limit, rest);
      assert free == [free[0]] + rest;
    }
  }

  lemma WalkStep(base: nat, w: seq<nat>, o: nat, limit: nat, rest: seq<nat>)
    requires |w| == WORDS_PER_PAGE && o < PAGE_SIZE && limit > 0 && base > 0
    requires Walk(base, w, Word(w, o), limit - 1) == Ends(rest)
    ensures Walk(base, w, base + o, limit) == Ends([o] + rest)
  {
  }

  lemma FirstLink(base: nat, size: nat, w: seq<nat>, head: nat, free: seq<nat>)
    requires size > 0 && FreeListIs(base, size, w, head, free) && free != []
    ensures head == free[0] < PAGE_SIZE && Word(w, head) == if |free| == 1 then 0 else base + free[1]
  {
    assert Word(w, free[0]) == LinkAt(base, free, 0);
  }

  /** Two aligned blocks are the same word or words apart. */
  lemma BlockWords(size: nat, o: nat, p: nat)
    requires size >= 4 && size % 4 == 0 && IsBlock(size, o) && IsBlock(size, p) && o != p
    ensures o / 4 != p / 4
  {
    assert o % 4 == 0 by { MultipleOfFour(size, o); }
    assert p % 4 == 0 by { MultipleOfFour(size, p); }
  }

  lemma MultipleOfFour(size: nat, o: nat)
    requires size > 0 && size % 4 == 0 && o % size == 0
    ensures o % 4 == 0
  {
    var k, m := o / size, size / 4;
    assert o == size * k == 4 * (m * k);
  }

  /** Putting a block on the list: its first word takes the old head. */
  lemma Push(base: nat, size: nat, w: seq<nat>, head: nat, free: seq<nat>, o: nat)
    requires size >= 4 && size % 4 == 0 && FreeListIs(base, size, w, head, free) && IsBlock(size, o) && o !in free
    ensures FreeListIs(base, size, w[o / 4 := if head == INVALID_OFFSET then 0 else base + head], o, [o] + free)
  {
    var w2, free2 := w[o / 4 := if head == INVALID_OFFSET then 0 else base + head], [o] + free;
    forall i | 0 <= i < |free2| ensures Word(w2, free2[i]) == LinkAt(base, free2, i) {
      if i > 0 {
        BlockWords(size, o, free[i - 1]);
        assert Word(w, free[i - 1]) == LinkAt(base, free, i - 1);
      }
    }
  }

  lemma ShorterList(base: nat, size: nat, w: seq<nat>, head: nat, free: seq<nat>)
    requires size > 0 && FreeListIs(base, size, w, head, free) && free != []
    ensures FreeListIs(base, size, w, if |free| == 1 then INVALID_OFFSET else free[1], free[1..])
  {
    var rest := free[1..];
    forall i | 0 <= i < |rest| ensures Word(w, rest[i]) == LinkAt(base, rest, i) {
      assert rest[i] == free[i + 1];
      assert Word(w, free[i + 1]) == LinkAt(base, free, i + 1);
    }
  }

  /** Taking the head off the list: the new head is what its first word points at. */
  lemma Pop(base: nat, size: nat, w: seq<nat>, head: nat, free: seq<nat>)
    requires base > 0 && size > 0 && FreeListIs(base, size, w, head, free) && free != []
    ensures var next := Word(w, head);
            && (next == 0 <==> |free| == 1)
            && (next != 0 ==> next >= base && next - base < PAGE_SIZE)
            && FreeListIs(base, size, w, if next == 0 then INVALID_OFFSET else next - base, free[1..])
  {
    assert Word(w, free[0]) == LinkAt(base, free, 0);
    assert |free| > 1 ==> IsBlock(size, free[1]);
    ShorterList(base, size, w, head, free);
  }

  /** Distinct blocks are at least a block size apart, and a block ends inside the page. */
  lemma BlocksApart(size: nat, o: nat, p: nat)
    requires size > 0 && PAGE_SIZE % size == 0 && IsBlock(size, o) && IsBlock(size, p)
    ensures o + size <= PAGE_SIZE
    ensures o != p ==> o + size <= p || p + size <= o
  {
    MultiplesApart(size, o, p);
    MultiplesApart(size, o, PAGE_SIZE);
  }

  lemma MultiplesApart(size: nat, x: nat, y: nat)
    requires size > 0 && x % size == 0 && y % size == 0
    ensures x != y ==> x + size <= y || y + size <= x
  {
    var n, m := x / size, y / size;
    assert x == size * n && y == size * m;
    assert size * (n - m) == x - y;
    Bits.MulGap(size, n - m);
  }

  /** A store into a block that is not free leaves the free list alone. */
  lemma StoreOutside(base: nat, size: nat, w: seq<nat>, head: nat, free: seq<nat>, block: nat, k: nat, v: nat)
    requires size >= 4 && size % 4 == 0 && PAGE_SIZE % size == 0 && FreeListIs(base, size, w, head, free)
    requires IsBlock(size, block) && block !in free && 4 * k < size
    ensures block / 4 + k < WORDS_PER_PAGE && FreeListIs(base, size, w[block / 4 + k := v], head, free)
  {
    MultipleOfFour(size, block);
    BlocksApart(size, block, block);
    forall i | 0 <= i < |free| ensures free[i] / 4 != block / 4 + k {
      MultipleOfFour(size, free[i]);
      BlocksApart(size, block, free[i]);
    }
  }

  /** A page has PAGE_SIZE / size blocks, so counting the free list tells whether every block is on it. */
  lemma AllFreeByCount(base: nat, t: nat, w: seq<nat>, head: nat, free: seq<nat>)
    requires t < NSIZES && FreeListIs(base, SIZES[t], w, head, free)
    ensures |free| <= BlocksPerPage(t)
    ensures |free| == BlocksPerPage(t) <==> forall o: nat :: IsBlock(SIZES[t], o) ==> o in free
  {
    SizesDivide(t);
    hide FreeListIs;
    CountBlocks(SIZES[t], PAGE_SIZE / SIZES[t], base, w, head, free);
  }

  lemma CountBlocks(size: nat, n: nat, base: nat, w: seq<nat>, head: nat, free: seq<nat>)
    requires size > 0 && n * size == PAGE_SIZE && FreeListIs(base, size, w, head, free)
    ensures |free| <= n
    ensures |free| == n <==> forall o: nat :: IsBlock(size, o) ==> o in free
  {
    assert Chains.NoDup(free) && forall o :: o in free ==> IsBlock(size, o);
    hide *;
    OrderNoDup(size, n);
    forall o: nat ensures o in Order(size, n) <==> IsBlock(size, o) { InOrder(size, n, o); }
    Chains.Cover(free, Order(size, n));
  }

  /** All blocks of a page, lowest first. */
  ghost function Order(size: nat, n: nat): (r: seq<nat>)
    ensures |r| == n
  {
    seq(n, k requires 0 <= k < n => Times(size, k))
  }

  lemma OrderNoDup(size: nat, n: nat)
    requires size > 0
    ensures Chains.NoDup(Order(size, n))
  {
    hide Times;
    var order := Order(size, n);
    forall i, j | 0 <= i < j < n ensures order[i] != order[j] { TimesApart(size, i, j); }
  }

  lemma InOrder(size: nat, n: nat, o: nat)
    requires size > 0 && n * size == PAGE_SIZE
    ensures o in Order(size, n) <==> IsBlock(size, o)
  {
    hide IsBlock, Times, Over;
    var order := Order(size, n);
    IsTimes(size, n, o);
    if IsBlock(size, o) { assert order[Over(size, o)] == o; }
    if k :| 0 <= k < n && order[k] == o { TimesIs(size, n, k); }
  }

  function Times(size: nat, k: nat): nat { k * size }

  function Over(size: nat, o: nat): nat
    requires size > 0
  {
    o / size
  }

  lemma TimesApart(size: nat, i: nat, j: nat)
    requires size > 0 && i < j
    ensures Times(size, i) != Times(size, j)
  {
    assert Times(size, j) - Times(size, i) == size * (j - i);
    Bits.MulGap(size, j - i);
  }

  lemma IsTimes(size: nat, n: nat, o: nat)
    requires size > 0 && n * size == PAGE_SIZE
    ensures IsBlock(size, o) ==> Over(size, o) < n && Times(size, Over(size, o)) == o
  {
    if IsBlock(size, o) { BlockIndex(size, n, o); }
  }

  lemma TimesIs(size: nat, n: nat, k: nat)
    requires size > 0 && n * size == PAGE_SIZE && k < n
    ensures IsBlock(size, Times(size, k))
  {
    NthBlock(size, n, k);
  }

  /** The first `i` blocks of a fresh page, linked downwards. */
  ghost predicate CarvedTo(base: nat, size: nat, w: seq<nat>, free: seq<nat>, i: nat)
    requires size > 0
  {
    && |free| == i && i >= 1 && (forall k :: 0 <= k < i ==> free[k] == (i - 1 - k) * size)
    && FreeListIs(base, size, w, (i - 1) * size, free)
  }

  /** Fresh page, holding anything: link block i to block i-1, block 0 to NULL; the list starts at the last block. */
  method Carve(base: nat, t: nat, found: seq<nat>) returns (w: seq<nat>, head: nat, nfree: nat, ghost free: seq<nat>)
    requires t < NSIZES && base > 0 && |found| == WORDS_PER_PAGE
    ensures FreeListIs(base, SIZES[t], w, head, free)
    ensures nfree == |free| == BlocksPerPage(t)
    ensures forall o: nat :: IsBlock(SIZES[t], o) ==> o in free
  {
    var size := SIZES[t];
    SizesDivide(t);
    nfree := PAGE_SIZE / size;
    w := found[0 := 0];
    head := 0;
    free := [0];
    assert CarvedTo(base, size, w, free, 1);
    hide CarvedTo, FreeListIs;
    var i := 1;
    while i < nfree
      invariant 1 <= i <= nfree && head == (i - 1) * size && |w| == WORDS_PER_PAGE
      invariant CarvedTo(base, size, w, free, i)
    {
      CarveStep(base, size, nfree, w, free, i);
      w := w[i * size / 4 := base + (i - 1) * size];
      head := i * size;
      free := [head] + free;
      i := i + 1;
    }
    CarveDone(base, size, nfree, w, free);
  }

  lemma CarveDone(base: nat, size: nat, n: nat, w: seq<nat>, free: seq<nat>)
    requires size > 0 && n * size == PAGE_SIZE && CarvedTo(base, size, w, free, n)
    ensures n >= 1 && |free| == n && FreeListIs(base, size, w, (n - 1) * size, free)
    ensures forall o: nat :: IsBlock(size, o) ==> o in free
  {
    assert n >= 1 && |free| == n && FreeListIs(base, size, w, (n - 1) * size, free);
    hide *;
    forall o: nat | IsBlock(size, o) ensures o in free {
      InCarved(base, size, n, w, free, o);
    }
  }

  lemma InCarved(base: nat, size: nat, n: nat, w: seq<nat>, free: seq<nat>, o: nat)
    requires size > 0 && n * size == PAGE_SIZE && CarvedTo(base, size, w, free, n) && IsBlock(size, o)
    ensures o in free
  {
    hide FreeListIs;
    BlockIndex(size, n, o);
    var k := n - 1 - o / size;
    assert n - 1 - k == o / size;
    assert free[k] == (n - 1 - k) * size;
  }

  lemma BlockIndex(size: nat, n: nat, o: nat)
    requires size > 0 && n * size == PAGE_SIZE && IsBlock(size, o)
    ensures o / size < n && (o / size) * size == o
  {
    var k := o / size;
    assert o == size * k;
    assert size * (k - n) == o - PAGE_SIZE;
    Bits.MulGap(size, k - n);
    assert k == n ==> size * (k - n) == 0;
  }

  lemma NthBlock(size: nat, n: nat, i: nat)
    requires size > 0 && n * size == PAGE_SIZE && i < n
    ensures IsBlock(size, i * size)
  {
    assert size * (n - i) == PAGE_SIZE - i * size;
    Bits.MulGap(size, n - i);
    Bits.DivModUnique(i * size, size, i, 0);
  }

  lemma CarveStep(base: nat, size: nat, n: nat, w: seq<nat>, free: seq<nat>, i: nat)
    requires base > 0 && size >= 16 && size % 4 == 0 && n * size == PAGE_SIZE && 1 <= i < n
    requires CarvedTo(base, size, w, free, i)
    ensures i * size < PAGE_SIZE && |w| == WORDS_PER_PAGE
    ensures CarvedTo(base, size, w[i * size / 4 := base + (i - 1) * size], [i * size] + free, i + 1)
  {
    NthBlock(size, n, i);
    NthBlock(size, n, i - 1);
    forall k | 0 <= k < i ensures free[k] != i * size {
      assert i * size - free[k] == size * (k + 1);
      Bits.MulGap(size, k + 1);
    }
    Push(base, size, w, (i - 1) * size, free, i * size);
  }
}
