/** The kernel heap's operations. Each method is one stretch of code run under the heap's lock; the page allocator's
    answers arrive as parameters, because it is called with the lock released. */
module KernelHeap {
  import opened HeapPage
  import opened HeapInvariant
  import Bits
  import Chains
  import P = PagerefPool

  const LARGEST_SUBPAGE_SIZE := 2048
  const NULL := 0

  datatype Freed = Nothing | BlockOnly | BlockAndPage(page: nat) | WholePages(page: nat) | Stopped

  /** Extent of the live block at `a`. */
  ghost function Extent(v: View, a: nat): nat
  {
    if a in v.live && v.live[a].ref in v.refs && BlockType(v.refs[v.live[a].ref]) < NSIZES
    then SIZES[BlockType(v.refs[v.live[a].ref])] else 0
  }

  // ---- What holds of every reachable heap ----

  /** Any two live blocks are disjoint. */
  lemma LiveBlocksApart(v: View, a: nat, b: nat)
    requires Core(v) && a in v.live && b in v.live && a != b
    ensures a + Extent(v, a) <= b || b + Extent(v, b) <= a
  {
    hide ListsOk, PagesOk, LiveOk, SpaceOk, SlotsOk;
    assert LiveOk(v) && PagesOk(v);
    LiveBlockFits(v, a);
    LiveBlockFits(v, b);
    OwnBlock(v, a);
    OwnBlock(v, b);
    hide Core, PageAddr, BlockType;
    var p, q := v.live[a].ref, v.live[b].ref;
    if p == q {
      SizesDivide(BlockType(v.refs[p]));
      BlocksApart(SIZES[BlockType(v.refs[p])], a - PageAddr(v.refs[p]), b - PageAddr(v.refs[p]));
    } else {
      hide *;
      PageAligned(v.refs[p]);
      PageAligned(v.refs[q]);
      PageBelow(PageAddr(v.refs[p]), PageAddr(v.refs[q]));
      PageBelow(PageAddr(v.refs[q]), PageAddr(v.refs[p]));
      if PageAddr(v.refs[p]) == PageAddr(v.refs[q]) { PagesDiffer(v, p, q); }
    }
  }

  /** A live block lies inside its page, is aligned to its size and holds what was asked for. */
  lemma LiveBlockFits(v: View, a: nat)
    requires Core(v) && a in v.live
    ensures v.live[a].ref in v.refs && 0 < Extent(v, a) && v.live[a].size <= Extent(v, a) && a % Extent(v, a) == 0
    ensures PageAddr(v.refs[v.live[a].ref]) <= a
    ensures a + Extent(v, a) <= PageAddr(v.refs[v.live[a].ref]) + PAGE_SIZE
  {
    hide ListsOk, PagesOk, LiveOk, SpaceOk, SlotsOk;
    OwnBlock(v, a);
    hide Core, PageAddr, BlockType;
    var p := v.live[a].ref;
    var t := BlockType(v.refs[p]);
    SizesDivide(t);
    PageAligned(v.refs[p]);
    BlocksApart(SIZES[t], a - PageAddr(v.refs[p]), a - PageAddr(v.refs[p]));
    SumAligned(SIZES[t], PAGE_SIZE / SIZES[t], PageAddr(v.refs[p]), a - PageAddr(v.refs[p]));
  }

  lemma SumAligned(size: nat, n: nat, base: nat, o: nat)
    requires size > 0 && n * size == PAGE_SIZE && base % PAGE_SIZE == 0 && o % size == 0
    ensures (base + o) % size == 0
  {
    var k, j := base / PAGE_SIZE, o / size;
    assert base == PAGE_SIZE * k && o == size * j;
    Bits.MulAssoc(size, n, k);
    assert base + o == size * (n * k + j) + 0;
    Bits.DivModUnique(base + o, size, n * k + j, 0);
  }

  /** Whole-page allocations are disjoint from each other and from every live block. */
  lemma WholePagesApart(v: View, b: nat, c: nat)
    requires Core(v) && b in v.big
    ensures c in v.big && c != b ==> b + PAGE_SIZE * v.big[b] <= c || c + PAGE_SIZE * v.big[c] <= b
    ensures c in v.live ==> b + PAGE_SIZE * v.big[b] <= c || c + Extent(v, c) <= b
  {
    hide ListsOk, PagesOk, LiveOk, SlotsOk;
    assert c in v.big && c != b ==> Outside(b, v.big[b], c) && Outside(c, v.big[c], b);
    if c in v.live {
      assert LiveOk(v);
      LiveBlockFits(v, c);
      OwnBlock(v, c);
      var x := PageAddr(v.refs[v.live[c].ref]);
      assert b % PAGE_SIZE == 0 && Outside(b, v.big[b], x);
      PageAligned(v.refs[v.live[c].ref]);
      hide Core, SpaceOk, PageAddr, BlockType;
      PageBelow(x, b);
    }
  }

  lemma PageBelow(x: nat, b: nat)
    requires x % PAGE_SIZE == 0 && b % PAGE_SIZE == 0
    ensures x < b ==> x + PAGE_SIZE <= b
  {
  }

  /** Following a page's links from its list head visits its non-live blocks, each once, `nfree` of them, and then
      meets NULL, however many more blocks the walk would be allowed. */
  lemma FreeListIsTheRest(v: View, p: nat, limit: nat)
    requires Core(v) && p in v.all && p in v.refs && limit >= v.refs[p].nfree
    ensures PageAddr(v.refs[p]) in v.mem && |v.mem[PageAddr(v.refs[p])]| == WORDS_PER_PAGE
    ensures BlockType(v.refs[p]) < NSIZES
    ensures v.refs[p].freelistOffset == INVALID_OFFSET <==> v.refs[p].nfree == 0
    ensures var r := v.refs[p];
            var walk := Walk(PageAddr(r), v.mem[PageAddr(r)], HeadAddress(PageAddr(r), r.freelistOffset), limit);
            && walk.Ends? && |walk.blocks| == r.nfree && Chains.NoDup(walk.blocks)
            && forall o: nat :: o in walk.blocks <==> IsBlock(SIZES[BlockType(r)], o) && PageAddr(r) + o !in v.live
  {
    hide ListsOk, LiveOk, SpaceOk, SlotsOk, FreeListIs, PageAddr, BlockType;
    var r := v.refs[p];
    assert PagesOk(v) && LiveOk(v) && PageOk(r, v.mem, v.free[p]);
    hide PagesOk, Core;
    FreeListParts(PageAddr(r), SIZES[BlockType(r)], v.mem[PageAddr(r)], r.freelistOffset, v.free[p]);
    WalkIsFree(PageAddr(r), SIZES[BlockType(r)], v.mem[PageAddr(r)], r.freelistOffset, v.free[p], limit);
    hide PageOk, Walk, IsBlock;
    forall o: nat ensures o in v.free[p] <==> IsBlock(SIZES[BlockType(r)], o) && PageAddr(r) + o !in v.live {
      if IsBlock(SIZES[BlockType(r)], o) { LiveOrFree(v, p, o); }
    }
  }

  lemma FreeListParts(base: nat, size: nat, w: seq<nat>, head: nat, free: seq<nat>)
    requires size > 0 && FreeListIs(base, size, w, head, free)
    ensures |w| == WORDS_PER_PAGE && Chains.NoDup(free) && forall o :: o in free ==> IsBlock(size, o)
  {
  }

  lemma LiveOrFree(v: View, p: nat, o: nat)
    requires PagesOk(v) && LiveOk(v) && p in v.all && p in v.refs && p in v.free && BlockType(v.refs[p]) < NSIZES
    requires IsBlock(SIZES[BlockType(v.refs[p])], o)
    ensures PageAddr(v.refs[p]) + o in v.live <==> o !in v.free[p]
  {
    hide PagesOk, PageAddr, BlockType, LiveAt;
    if o !in v.free[p] {
      assert NonFree(v, p, o);
      assert BlockLive(v, p, o);
      AddrIs(v, p, o);
    } else if PageAddr(v.refs[p]) + o in v.live {
      assert o < PAGE_SIZE;
      hide LiveOk;
      OneOwner(v, p, PageAddr(v.refs[p]) + o);
    }
  }

  /** Page accounting: a page is on the all-pages list once, on the list of its size once and on no other, and its
      slot's bit is set; a slot's bit is set for no other reason than that or a reservation. */
  lemma PageAccounting(v: View, p: nat)
    requires Core(v) && p in v.all
    ensures |v.same| == NSIZES && P.PoolOk(v.roots)
    ensures p in v.refs && BlockType(v.refs[p]) < NSIZES
    ensures forall t :: 0 <= t < NSIZES ==> (p in v.same[t] <==> t == BlockType(v.refs[p]))
    ensures Chains.NoDup(v.all) && Chains.NoDup(v.same[BlockType(v.refs[p])])
    ensures p in v.slots && IsSlot(v.slots[p]) && P.InUse(v.roots[v.slots[p].root], v.slots[p].index)
    ensures p == P.RefAddr(v.roots, v.slots[p].root, v.slots[p].index)
    ensures forall q :: q in v.all ==> q in v.slots && (q != p ==> v.slots[q] != v.slots[p])
    ensures forall w: nat, i: nat :: IsSlot(P.Slot(w, i)) ==>
              (P.InUse(v.roots[w], i) <==>
                  P.Slot(w, i) in v.reserved || exists q :: q in v.all && v.slots[q] == P.Slot(w, i))
  {
    hide ListsOk, LiveOk, SpaceOk, SlotsOk, PageAddr, BlockType;
    assert PageOk(v.refs[p], v.mem, v.free[p]) && ListsOk(v) && SlotsOk(v);
    hide PageOk, PagesOk, Core;
    AccountLists(v, p);
    AccountSlots(v, p);
    forall w: nat, i: nat | IsSlot(P.Slot(w, i))
      ensures P.InUse(v.roots[w], i) <==>
              P.Slot(w, i) in v.reserved || exists q :: q in v.all && v.slots[q] == P.Slot(w, i)
    {
      BitMeans(v, w, i);
    }
  }

  /** A slot's bit is set for a reservation, or because the slot's reference is listed. */
  lemma BitMeans(v: View, w: nat, i: nat)
    requires SlotsOk(v) && IsSlot(P.Slot(w, i))
    ensures forall q :: q in v.all ==> q in v.slots
    ensures P.InUse(v.roots[w], i) <==>
            P.Slot(w, i) in v.reserved || exists q :: q in v.all && v.slots[q] == P.Slot(w, i)
  {
    hide P.InUse, P.RefAddr;
    if Listed(v, w, i) {
      var q := P.RefAddr(v.roots, w, i);
      assert SlotOf(v, q, v.slots[q]);
      SlotApart(v, v.slots[q], P.Slot(w, i));
    }
    if q :| q in v.all && v.slots[q] == P.Slot(w, i) {
      assert SlotOf(v, q, v.slots[q]);
      assert Listed(v, w, i);
    }
  }

  /** Different slots of roots with pages have different addresses. */
  lemma SlotApart(v: View, x: P.Slot, y: P.Slot)
    requires P.PoolOk(v.roots) && IsSlot(x) && IsSlot(y) && v.roots[x.root].page != 0 && v.roots[y.root].page != 0
    requires P.RefAddr(v.roots, x.root, x.index) == P.RefAddr(v.roots, y.root, y.index)
    ensures x == y
  {
    P.SlotNumber(v.roots, x.root, x.index, x.root);
    P.SlotNumber(v.roots, y.root, y.index, x.root);
  }

  lemma AccountLists(v: View, p: nat)
    requires ListsOk(v) && p in v.all && p in v.refs && BlockType(v.refs[p]) < NSIZES
    ensures |v.same| == NSIZES
    ensures forall t :: 0 <= t < NSIZES ==> (p in v.same[t] <==> t == BlockType(v.refs[p]))
    ensures Chains.NoDup(v.all) && Chains.NoDup(v.same[BlockType(v.refs[p])])
  {
    hide BlockType;
    assert Chains.Chain(v.nextAll, v.allbase, v.all);
    assert Chains.Chain(v.nextSame, v.sizebases[BlockType(v.refs[p])], v.same[BlockType(v.refs[p])]);
  }

  lemma AccountSlots(v: View, p: nat)
    requires SlotsOk(v) && p in v.all
    ensures P.PoolOk(v.roots)
    ensures p in v.slots && IsSlot(v.slots[p]) && P.InUse(v.roots[v.slots[p].root], v.slots[p].index)
    ensures p == P.RefAddr(v.roots, v.slots[p].root, v.slots[p].index)
    ensures forall q :: q in v.all ==> q in v.slots && (q != p ==> v.slots[q] != v.slots[p])
  {
    hide P.InUse;
    assert SlotOf(v, p, v.slots[p]);
    assert Listed(v, v.slots[p].root, v.slots[p].index);
    forall q | q in v.all && q != p ensures v.slots[q] != v.slots[p] { assert SlotOf(v, q, v.slots[q]); }
  }

  /** Pages asked for to serve `sz` bytes, in the source's 32-bit arithmetic. */
  function WholePagesFor(sz: nat): nat
  {
    (sz + PAGE_SIZE - 1) % WORD / PAGE_SIZE
  }

  /** They are enough, and none too many, exactly when rounding up does not overflow. */
  lemma WholePagesSuffice(sz: nat)
    requires sz < WORD
    ensures PAGE_SIZE * WholePagesFor(sz) >= sz <==> sz + PAGE_SIZE - 1 < WORD || sz == 0
    ensures sz + PAGE_SIZE - 1 < WORD ==> PAGE_SIZE * WholePagesFor(sz) < sz + PAGE_SIZE
    ensures sz + PAGE_SIZE - 1 >= WORD ==> WholePagesFor(sz) == 0
  {
  }

  /** The largest request asks for no pages at all. */
  lemma LargestRequest()
    ensures WholePagesFor(0xffff_ffff) == 0
  {
  }

  /** The packed word's parts are what masking takes out of it. */
  lemma PackedByMasks(pa: nat, blk: nat, head: nat, n: nat)
    requires pa < WORD && blk < WORD
    ensures MkPab(pa, blk) == Bits.Or(Bits.And(pa, 0xfffff000), Bits.And(blk, 0xfff))
    ensures var r := PageRef(MkPab(pa, blk), head, n);
            PageAddr(r) == Bits.And(r.pab, 0xfffff000) && BlockType(r) == Bits.And(r.pab, 0xfff)
  {
    hide Bits.And, Bits.Or;
    FrameMask(pa);
    FrameMask(blk);
    FrameMask(MkPab(pa, blk));
    assert Bits.Pow2(12) == 4096;
    Bits.OrIsSum(pa / PAGE_SIZE, blk % PAGE_SIZE, 12);
  }

  lemma FrameMask(x: nat)
    requires x < WORD
    ensures Bits.And(x, 0xfffff000) == x - x % PAGE_SIZE && Bits.And(x, 0xfff) == x % PAGE_SIZE
  {
    assert Bits.Pow2(12) == 4096 && Bits.Pow2(20) == 0x100000 && Bits.Pow2(32) == 0x1_0000_0000;
    hide Bits.And, Bits.Pow2;
    Bits.AndMask(x, 12);
    Bits.AndHighMask(x, 20, 12);
  }

  // ---- The operations ----

  /** The smallest block type that holds `sz`; NSIZES where the source stops the system. */
  method BlockTypeFor(sz: nat) returns (t: nat)
    ensures t <= NSIZES && (t < NSIZES <==> sz <= LARGEST_SUBPAGE_SIZE)
    ensures t < NSIZES ==> sz <= SIZES[t] && forall i :: 0 <= i < t ==> SIZES[i] < sz
  {
    assert SIZES[7] == LARGEST_SUBPAGE_SIZE && forall i :: 0 <= i < NSIZES ==> SIZES[i] <= SIZES[7];
    t := 0;
    while t < NSIZES && sz > SIZES[t]
      invariant t <= NSIZES && forall i :: 0 <= i < t ==> SIZES[i] < sz
    {
      t := t + 1;
    }
  }

  ghost predicate NoIdleBut(v: View, p: nat)
  {
    forall q :: q in v.all && q != p && q in v.refs && BlockType(v.refs[q]) < NSIZES ==>
      v.refs[q].nfree < BlocksPerPage(BlockType(v.refs[q]))
  }

  /** Some reservation sits in a root below `w` that has no page. */
  ghost predicate PagelessBelow(v: View, w: nat)
    requires P.PoolOk(v.roots)
  {
    exists x :: x in v.reserved && IsSlot(x) && x.root < w && v.roots[x.root].page == 0
  }

  ghost predicate Unused(v: View)
  {
    && v.all == [] && v.live == map[] && v.big == map[] && v.reserved == {}
    && forall w :: 0 <= w < |v.roots| ==> v.roots[w].page == NULL && P.Shaped(v.roots[w]) && P.Used(v.roots[w]) == {}
  }

  class Heap {
    const pool: P.Pool
    var refs: map<nat, PageRef>
    var nextSame: map<nat, nat>
    var nextAll: map<nat, nat>
    var sizebases: seq<nat>
    var allbase: nat
    var mem: map<nat, seq<nat>>
    /** The variables above with what they stand for. */
    ghost var v: View

    ghost predicate Tied()
      reads this, pool
    {
      && v.refs == refs && v.nextSame == nextSame && v.nextAll == nextAll && v.sizebases == sizebases
      && v.allbase == allbase && v.mem == mem && v.roots == pool.roots
    }

    ghost predicate Valid()
      reads this, pool
    {
      Tied() && Core(v) && NoIdlePage(v)
    }

    constructor ()
      ensures Valid() && Unused(v) && fresh(pool)
    {
      pool := new P.Pool();
      refs, nextSame, nextAll, mem := map[], map[], map[], map[];
      sizebases, allbase := seq(NSIZES, _ => NULL), NULL;
      new;
      v := View(refs, nextSame, nextAll, sizebases, allbase, mem, pool.roots,
                [], seq(NSIZES, _ => []), map[], map[], map[], map[], {});
      EmptyHeap(v);
    }

    /** The head block of p's free list becomes the client's. */
    method TakeBlock(p: nat, sz: nat) returns (a: nat)
      requires Tied() && Core(v) && NoIdleBut(v, p) && p in v.all && p in v.refs && v.refs[p].nfree > 0
      requires BlockType(v.refs[p]) < NSIZES && sz <= SIZES[BlockType(v.refs[p])]
      modifies this`refs, this`v
      ensures Valid() && a != NULL && a !in old(v).live
      ensures v == old(v).(refs := v.refs, free := v.free, live := old(v).live[a := Block(p, sz)])
      ensures p in v.refs && v.refs[p].pab == old(v).refs[p].pab
    {
      hide Core, NoIdlePage, NoIdleBut, PageAddr, BlockType, Word, Addr;
      HeadFacts(v, p);
      var r := refs[p];
      var base := PageAddr(r);
      var next := Word(mem[base], r.freelistOffset);
      a := base + r.freelistOffset;
      r := r.(nfree := r.nfree - 1, freelistOffset := if next != NULL then next - base else INVALID_OFFSET);
      ghost var rest := v.free[p][1..];
      assert r == refs[p].(nfree := |rest|, freelistOffset := if rest == [] then INVALID_OFFSET else rest[0]);
      AddrIs(v, p, v.free[p][0]);
      ghost var v2 := v.(refs := v.refs[p := r], free := v.free[p := rest], live := v.live[a := Block(p, sz)]);
      assert Takes(v, v2, p, sz);
      hide Takes;
      TakeKeeps(v, v2, p, sz);
      TakenIdle(v, v2, p, sz);
      refs := refs[p := r];
      v := v2;
    }

    /** The first page of block type `t` with a free block, NULL if there is none. */
    method Scan(t: nat) returns (pr: nat)
      requires Tied() && Core(v) && t < NSIZES && |v.same| == NSIZES
      ensures pr != NULL ==> pr in v.same[t] && pr in v.refs && v.refs[pr].nfree > 0
      ensures pr == NULL ==> forall p :: p in v.same[t] && p in v.refs ==> v.refs[p].nfree == 0
    {
      SizeList(v, t);
      hide Core;
      ghost var list := v.same[t];
      pr := sizebases[t];
      ghost var i := 0;
      while pr != NULL && refs[pr].nfree == 0
        invariant i <= |list| && pr == if i < |list| then list[i] else NULL
        invariant forall k :: 0 <= k < i ==> list[k] in refs && refs[list[k]].nfree == 0
        decreases |list| - i
      {
        pr := nextSame[pr];
        i := i + 1;
      }
    }

    /** Look for a page of the right block size with a free block, and take it. */
    method TryAlloc(sz: nat) returns (a: nat)
      requires Valid() && sz < LARGEST_SUBPAGE_SIZE
      modifies this`refs, this`v
      ensures Valid()
      ensures a == NULL ==> v == old(v)
      ensures a == NULL <==> forall p :: p in old(v).all && p in old(v).refs && Fits(old(v).refs[p], sz) ==>
              old(v).refs[p].nfree == 0
      ensures a != NULL ==> Allocated(old(v), v, a, sz) && v == old(v).(refs := v.refs, free := v.free, live := v.live)
    {
      hide Core, NoIdlePage, BlockType, Fits;
      var t := BlockTypeFor(sz);
      BestFit(v, t, sz);
      var pr := Scan(t);
      if pr == NULL {
        return NULL;
      }
      NoIdleWeaker(v, pr);
      FitsParts(refs[pr], sz);
      ghost var r := refs[pr];
      a := TakeBlock(pr, sz);
      SameFit(r, refs[pr], sz);
    }

    /** Set the bit of the first free slot. Until its reference goes on the lists the slot counts as reserved. */
    method ReserveRef() returns (x: P.Slot)
      requires Valid()
      modifies pool, this`v
      ensures Valid()
      ensures x.NoSlot? ==> v == old(v)
      ensures |old(v).roots| == |v.roots| == P.NUM_PAGEREFPAGES && forall w :: 0 <= w < |v.roots| ==>
              P.Shaped(old(v).roots[w])
      ensures x.NoSlot? <==> forall w :: 0 <= w < |v.roots| ==> P.AllUsed(old(v).roots[w])
      ensures x.Slot? ==> IsSlot(x) && x !in old(v).reserved
      ensures x.Slot? ==> v == old(v).(roots := v.roots, reserved := old(v).reserved + {x})
      ensures x.Slot? ==>
              v.roots == old(v).roots[x.root := v.roots[x.root]] && v.roots[x.root].page == old(v).roots[x.root].page
      ensures x.Slot? ==> !P.InUse(old(v).roots[x.root], x.index) && P.Shaped(v.roots[x.root])
      ensures x.Slot? ==> P.Used(v.roots[x.root]) == P.Used(old(v).roots[x.root]) + {x.index}
      ensures x.Slot? ==> forall w :: 0 <= w < x.root ==> P.AllUsed(old(v).roots[w])
    {
      hide Core, NoIdlePage, P.PoolOk, P.Used, P.InUse, P.AllUsed;
      CorePool(v);
      x := pool.Reserve();
      if x.Slot? {
        ghost var v2 := v.(roots := pool.roots, reserved := v.reserved + {x});
        ReserveKeeps(v, v2, x);
        NoIdleSame(v, v2);
        v := v2;
        CorePool(v);
      }
    }

    /** The answer to asking for a page of references, 0 for none. The slot is usable exactly when its root now has
        a page; if not, the source gives up and the slot stays reserved for good. */
    method RefPageArrived(x: P.Slot, va: nat) returns (usable: bool, giveBack: bool)
      requires Valid() && x in v.reserved && IsSlot(x)
      requires va != NULL ==> FreshPage(v, va)
      modifies pool, this`v
      ensures Valid() && v == old(v).(roots := v.roots)
      ensures |v.roots| == |old(v).roots| == P.NUM_PAGEREFPAGES
      ensures usable <==> v.roots[x.root].page != NULL
      ensures giveBack <==> va != NULL && old(v).roots[x.root].page != NULL
      ensures v.roots[x.root].page == if old(v).roots[x.root].page != NULL then old(v).roots[x.root].page else va
      ensures v.roots == old(v).roots[x.root := old(v).roots[x.root].(page := v.roots[x.root].page)]
      ensures va == NULL || giveBack ==> v == old(v)
    {
      hide Core, NoIdlePage, P.PoolOk, P.Used;
      CorePool(v);
      FreshParts(v, va);
      usable, giveBack := pool.PageArrived(x.root, va);
      if va != NULL && !giveBack {
        ghost var v2 := v.(roots := pool.roots);
        RootPageKeeps(v, v2, x.root, va);
        NoIdleSame(v, v2);
        v := v2;
      } else {
        assert pool.roots == v.roots;
      }
    }

    /** A fresh page is carved, described by the reserved reference and put on both lists, all its blocks free. */
    method AddPage(x: P.Slot, va: nat, t: nat, found: seq<nat>) returns (pr: nat)
      requires Valid() && x in v.reserved && IsSlot(x) && |v.roots| == P.NUM_PAGEREFPAGES && t < NSIZES
      requires v.roots[x.root].page != NULL && FreshPage(v, va) && |found| == WORDS_PER_PAGE
      modifies this
      ensures Tied() && Core(v) && NoIdleBut(v, pr) && pr in v.refs && v.refs[pr].nfree > 0
      ensures PageAddr(v.refs[pr]) == va && BlockType(v.refs[pr]) == t && Installs(old(v), v, x, pr, va, t)
      ensures pr == P.RefAddr(v.roots, x.root, x.index)
    {
      hide Core, NoIdlePage, NoIdleBut, PageAddr, BlockType, FreshPage, MkPab, Installs, FreeListIs, IsBlock;
      pr := P.RefAddr(pool.roots, x.root, x.index);
      FreshParts(v, va);
      PageNotNull(v, va);
      var w, head, nfree; ghost var fl;
      w, head, nfree, fl := Carve(va, t, found);
      SizeList(v, t);
      SizesDivide(t);
      PackParts(va, t, head, nfree);
      ghost var v2 := Installed(v, x, pr, va, t, w, head, fl);
      InstalledInstalls(v, x, pr, va, t, w, head, fl);
      InstallKeeps(v, v2, x, pr, va, t);
      InstalledIdle(v, v2, x, pr, va, t);
      refs := refs[pr := PageRef(MkPab(va, t), head, nfree)];
      mem := mem[va := w];
      nextSame := nextSame[pr := sizebases[t]];
      sizebases := sizebases[t := pr];
      nextAll := nextAll[pr := allbase];
      allbase := pr;
      v := v2;
    }

    /** The added page gives its first block. */
    method InstallPage(x: P.Slot, va: nat, found: seq<nat>, sz: nat) returns (a: nat)
      requires Valid() && x in v.reserved && IsSlot(x) && |v.roots| == P.NUM_PAGEREFPAGES
      requires v.roots[x.root].page != NULL && FreshPage(v, va) && |found| == WORDS_PER_PAGE
      requires sz < LARGEST_SUBPAGE_SIZE
      modifies this
      ensures Valid() && a != NULL && Allocated(old(v), v, a, sz) && PageAddr(v.refs[v.live[a].ref]) == va
      ensures v.live[a].ref == P.RefAddr(v.roots, x.root, x.index) && v.all == [v.live[a].ref] + old(v).all
      ensures v.reserved == old(v).reserved - {x} && v.big == old(v).big && v.roots == old(v).roots
      ensures v.slots == old(v).slots[v.live[a].ref := x]
      ensures va in v.mem && v.mem == old(v).mem[va := v.mem[va]]
    {
      hide Core, NoIdlePage, NoIdleBut, PageAddr, BlockType, Fits, FreshPage, MkPab, FreeListIs, IsBlock;
      var t := BlockTypeFor(sz);
      var pr := AddPage(x, va, t, found);
      ghost var r := v.refs[pr];
      TypeFits(r, t, sz);
      a := TakeBlock(pr, sz);
      SameFit(r, v.refs[pr], sz);
      SameAddr(r, v.refs[pr]);
    }

    /** The sub-page page that address `a` lies on, NULL if there is none. */
    method FindPage(a: nat) returns (pr: nat)
      requires Tied() && Core(v)
      ensures pr != NULL ==> pr in v.all && pr in v.refs && Covers(v.refs[pr], a)
      ensures pr == NULL ==> forall p :: p in v.all && p in v.refs ==> !Covers(v.refs[p], a)
    {
      hide Core, Covers, PageAddr, BlockType;
      AllList(v);
      ghost var list := v.all;
      pr := allbase;
      ghost var i := 0;
      while pr != NULL && !Covers(refs[pr], a)
        invariant i <= |list| && pr == if i < |list| then list[i] else NULL
        invariant forall k :: 0 <= k < i ==> list[k] in refs && !Covers(refs[list[k]], a)
        decreases |list| - i
      {
        pr := nextAll[pr];
        i := i + 1;
      }
    }

    /** The block at offset `o` goes to the head of its page's free list. */
    method PutBlock(p: nat, o: nat)
      requires Tied() && Core(v) && p in v.all && NonFree(v, p, o)
      modifies this`refs, this`mem, this`v
      ensures Tied() && Core(v) && Puts(old(v), v, p, o)
    {
      hide Core, PageAddr, BlockType, Word, IsBlock, NonFree, Addr, Puts, Store;
      HeadFacts(v, p);
      BlockInPage(v, p, o);
      var r := refs[p];
      var base := PageAddr(r);
      var link := if r.freelistOffset == INVALID_OFFSET then NULL else base + r.freelistOffset;
      var w := Store(mem[base], o / 4, link);
      r := r.(nfree := r.nfree + 1, freelistOffset := o);
      ghost var v2 := v.(refs := v.refs[p := r], mem := v.mem[base := w], free := v.free[p := [o] + v.free[p]],
                         live := v.live - {Addr(v, p, o)});
      PutsView(v, v2, p, o, link);
      PutKeeps(v, v2, p, o);
      mem := mem[base := w];
      refs := refs[p := r];
      v := v2;
    }

    /** A page whose blocks are all free leaves both lists and its slot is released. Releasing stops the system
        exactly when some slot below its root is reserved in a root without a page. */
    method DropPage(p: nat) returns (ok: bool)
      requires Tied() && Core(v) && p in v.all && p in v.refs && (forall o: nat :: !NonFree(v, p, o))
      requires p in v.slots && IsSlot(v.slots[p]) && P.PoolOk(v.roots)
      modifies this, pool
      ensures ok <==> !PagelessBelow(old(v), old(v).slots[p].root)
      ensures ok ==> Tied() && Core(v) && (forall q :: q in v.all <==> q in old(v).all && q != p)
      ensures ok ==> Unlisted(old(v), v)
    {
      hide Core, BlockType, NonFree, PagelessBelow, Chains.Chain, P.PoolOk, P.Used, P.InUse, P.RefAddr;
      DropFacts(v, p);
      var t := BlockType(refs[p]);
      var same2, base2, all2, allbase2;
      ghost var listed, sorted;
      same2, base2, sorted := Chains.Unlink(nextSame, sizebases[t], p, v.same[t]);
      all2, allbase2, listed := Chains.Unlink(nextAll, allbase, p, v.all);
      ghost var x := v.slots[p];
      ghost var v2 := v.(nextSame := same2, sizebases := v.sizebases[t := base2], nextAll := all2, allbase := allbase2,
                         all := listed, same := v.same[t := sorted]);
      nextSame := same2;
      sizebases := sizebases[t := base2];
      nextAll := all2;
      allbase := allbase2;
      ok := pool.Free(p, x.root, x.index);
      PagelessIff(v, x.root);
      if ok {
        v2 := v2.(roots := pool.roots);
        assert Removes(v, v2, p, t);
        hide Removes;
        RemoveKeeps(v, v2, p, t);
        v := v2;
      }
    }

    /** Give back what kmalloc returned. A whole-page allocation is never taken for a block; a block's page goes back
        exactly when no other block of it is live; no other live word changes. */
    method Kfree(ptr: nat) returns (f: Freed)
      requires Valid() && (ptr == NULL || ptr in v.live || ptr in v.big)
      modifies this, pool
      ensures f.Stopped? || Valid()
      ensures ptr == NULL ==> f.Nothing? && v == old(v)
      ensures ptr in old(v).big ==> f == WholePages(ptr) && v == old(v).(big := old(v).big - {ptr})
      ensures ptr in old(v).live ==> (f.BlockOnly? <==> OtherLive(old(v), ptr))
      ensures ptr in old(v).live ==> (f.Stopped? <==> !OtherLive(old(v), ptr) && OwnerPageless(old(v), ptr))
      ensures ptr in old(v).live && f.BlockAndPage? ==> f.page == PageOf(old(v), ptr)
      ensures ptr in old(v).live && !f.Stopped? ==>
                && (f.BlockOnly? || f.BlockAndPage?)
                && v.live == old(v).live - {ptr} && v.big == old(v).big && v.reserved == old(v).reserved
                && OnlyWithin(old(v).mem, v.mem, ptr, Extent(old(v), ptr))
                && Filled(v.mem, ptr, 1, Extent(old(v), ptr) / 4)
                && (forall p :: p in v.all <==> p in old(v).all && !(f.BlockAndPage? && p == old(v).live[ptr].ref))
    {
      hide Core, NoIdlePage, BlockType, PageAddr, NonFree, IsBlock, Covers, Puts, OtherLive, OwnerPageless, OnlyWord,
           OnlyWithin, Filled, PageOf, Extent;
      if ptr == NULL {
        NullIsNothing(v);
        return Nothing;
      }
      var pr := FindPage(ptr);
      FoundOwner(v, ptr, pr);
      if pr == NULL {
        ghost var v2 := v.(big := v.big - {ptr});
        BigGone(v, v2, ptr);
        NoIdleSame(v, v2);
        v := v2;
        return WholePages(ptr);
      }
      ghost var vf := v;
      OwnParts(v, ptr);
      var base, t := PageAddr(refs[pr]), BlockType(refs[pr]);
      PageFound(v, ptr);
      WholeWords(v, ptr);
      FillDeadbeef(ptr, SIZES[t]);
      ghost var v0 := v;
      MemAside(vf, v0, ptr);
      OwnParts(v, ptr);
      PutBlock(pr, ptr - base);
      PutParts(v0, v, pr, ptr);
      SizesDivide(t);
      if refs[pr].nfree != BlocksPerPage(t) {
        PutIdle(v0, v, pr, ptr);
        LinkedAfterFill(vf.mem, v0.mem, v.mem, ptr, SIZES[t] / 4);
        return BlockOnly;
      }
      ghost var v1 := v;
      LastFacts(v0, v1, pr, ptr);
      LinkedAfterFill(vf.mem, v0.mem, v1.mem, ptr, SIZES[t] / 4);
      var ok := DropPage(pr);
      if !ok {
        return Stopped;
      }
      DropIdle(v0, v1, v, pr, ptr);
      f := BlockAndPage(base);
    }

    /** A sub-page request from start to end with no one else running: `page` and `refPage` are the page allocator's
        answers, 0 for none, should it be asked. It fails exactly when no page in use has a block of that size to give
        and there is no new page, or no reference to describe it by. */
    method SubpageKmalloc(sz: nat, page: nat, found: seq<nat>, refPage: nat) returns (a: nat)
      requires Valid() && sz < LARGEST_SUBPAGE_SIZE && |found| == WORDS_PER_PAGE
      requires (page != NULL ==> FreshPage(v, page)) && (refPage != NULL ==> FreshPage(v, refPage) && page != refPage)
      modifies this, pool
      ensures Valid() && v.big == old(v).big
      ensures a == NULL <==> NoFreeBlock(old(v), sz) && (page == NULL || NoRefFor(old(v), refPage))
      ensures a != NULL ==> Allocated(old(v), v, a, sz)
      ensures !NoFreeBlock(old(v), sz) ==> v == old(v).(refs := v.refs, free := v.free, live := v.live)
      ensures a != NULL && NoFreeBlock(old(v), sz) ==> FromNewPage(old(v), v, a, page, refPage)
      ensures a == NULL ==> v.live == old(v).live && v.all == old(v).all && v.mem == old(v).mem && v.refs == old(v).refs
      ensures a == NULL ==>
              if page != NULL && exists w: nat :: FirstOpen(old(v), w) then LosesSlot(old(v), v) else v == old(v)
    {
      hide Core, NoIdlePage, FreshPage, P.PoolOk, P.Used, P.InUse, P.AllUsed, P.Shaped, Fits, BlockType, PageAddr,
           P.RefAddr, Allocated, FirstOpen, FromNewPage, LosesSlot;
      ghost var v0 := v;
      a := TryAlloc(sz);
      if a != NULL || page == NULL {
        return;
      }
      var x := ReserveRef();
      OpenRoot(v0, x);
      if x.NoSlot? {
        return NULL;
      }
      FreshAfterReserve(v0, v, page);
      FreshAfterReserve(v0, v, refPage);
      ghost var v1 := v;
      if pool.roots[x.root].page == NULL {
        var usable, giveBack := RefPageArrived(x, refPage);
        if !usable {
          OpenWithout(v0, x, refPage);
          SlotLost(v0, v, x);
          return NULL;
        }
        FreshBeside(v1, v, x.root, page);
      }
      ghost var v2 := v;
      a := InstallPage(x, page, found, sz);
      AllocatedOnTop(v0, v2, v, a, sz);
      NewPageBlock(v, a, page);
      CameFromNewPage(v0, v2, v, x, a, page, refPage);
    }

    /** A request for whole pages; `address` is the page allocator's answer. */
    method KmallocLarge(sz: nat, address: nat) returns (a: nat)
      requires Valid() && LARGEST_SUBPAGE_SIZE <= sz < WORD
      requires address != NULL ==> FreshPages(v, address, WholePagesFor(sz))
      modifies this`v
      ensures Valid() && a == address
      ensures a == NULL ==> v == old(v)
      ensures a != NULL ==> a !in old(v).big && v == old(v).(big := old(v).big[a := WholePagesFor(sz)])
      ensures a != NULL ==> PAGE_SIZE * v.big[a] >= sz
    {
      hide Core, NoIdlePage, PageAddr, BlockType;
      a := address;
      if a != NULL {
        WholePagesSuffice(sz);
        ghost var v2 := v.(big := v.big[a := WholePagesFor(sz)]);
        BigKeeps(v, v2, a, WholePagesFor(sz));
        NoIdleSame(v, v2);
        v := v2;
      }
    }

    /** Stores a word into a live block; nothing the heap relies on changes. */
    method StoreWord(a: nat, k: nat, x: nat)
      requires Valid() && a in v.live && 4 * k < Extent(v, a)
      modifies this`mem, this`v
      ensures Valid() && v == old(v).(mem := v.mem) && OnlyWord(old(v).mem, v.mem, a + 4 * k)
      ensures Load(v.mem, a + 4 * k) == x
    {
      hide Core, NoIdlePage, OnlyWord, Extent, Load, Store;
      var base, i := PageBase(a + 4 * k), WordIndex(a + 4 * k);
      StoreFacts(v, a, k);
      var w := Store(mem[base], i, x);
      ghost var v2 := v.(mem := v.mem[base := w]);
      StoreKept(v, v2, a, k, x);
      mem := mem[base := w];
      v := v2;
    }

    /** Overwrites a block that is still live, to make stray uses of it show. */
    method FillDeadbeef(a: nat, len: nat)
      requires Valid() && a in v.live && len == Extent(v, a)
      modifies this`mem, this`v
      ensures Valid() && v == old(v).(mem := v.mem) && OnlyWithin(old(v).mem, v.mem, a, len)
      ensures Filled(v.mem, a, 0, len / 4)
    {
      hide Core, NoIdlePage, OnlyWord, OnlyWithin, Filled, Extent, Load;
      ghost var v0 := v;
      StartFill(v.mem, a);
      var i := 0;
      while i < len / 4
        invariant i <= len / 4 && Valid() && v == v0.(mem := v.mem)
        invariant OnlyWithin(v0.mem, v.mem, a, 4 * i) && Filled(v.mem, a, 0, i)
      {
        ghost var m := v.mem;
        SameExtent(v0, v, a);
        StoreWord(a, i, DEADBEEF);
        FillStep(v0.mem, m, v.mem, a, i);
        i := i + 1;
      }
      WholeWords(v0, a);
    }
  }

  const DEADBEEF := 0xdeadbeef

  /** The two memories differ at most in the `len` bytes from `a` on. */
  ghost predicate OnlyWithin(mem: map<nat, seq<nat>>, mem2: map<nat, seq<nat>>, a: nat, len: nat)
  {
    && mem2.Keys == mem.Keys
    && forall b :: b in mem ==> SameOutside(mem[b], mem2[b], b, a, len)
  }

  ghost predicate SameOutside(w: seq<nat>, w2: seq<nat>, base: nat, a: nat, len: nat)
  {
    |w2| == |w| && forall i :: 0 <= i < |w| && !(a <= base + 4 * i < a + len) ==> w2[i] == w[i]
  }

  /** Words `from` to `to` of the block at `a` hold the fill value. */
  ghost predicate Filled(mem: map<nat, seq<nat>>, a: nat, from: nat, to: nat)
  {
    forall i: nat :: from <= i < to ==> Load(mem, a + 4 * i) == DEADBEEF
  }

  lemma PageFound(v: View, a: nat)
    requires a in v.live && v.live[a].ref in v.refs && BlockType(v.refs[v.live[a].ref]) < NSIZES
    ensures PageOf(v, a) == PageAddr(v.refs[v.live[a].ref]) && Extent(v, a) == SIZES[BlockType(v.refs[v.live[a].ref])]
  {
  }

  lemma StartFill(mem: map<nat, seq<nat>>, a: nat)
    ensures OnlyWithin(mem, mem, a, 0) && Filled(mem, a, 0, 0)
  {
  }

  lemma SameExtent(v: View, v2: View, a: nat)
    requires v2 == v.(mem := v2.mem)
    ensures Extent(v2, a) == Extent(v, a)
  {
  }

  lemma WholeWords(v: View, a: nat)
    requires Core(v) && a in v.live
    ensures Extent(v, a) == 4 * (Extent(v, a) / 4) >= 4
  {
    hide Core, PageAddr, BlockType;
    OwnParts(v, a);
    SizesDivide(BlockType(v.refs[v.live[a].ref]));
  }

  lemma WithinWord(mem: map<nat, seq<nat>>, m: map<nat, seq<nat>>, m2: map<nat, seq<nat>>, a: nat, len: nat, c: nat,
                   len2: nat)
    requires OnlyWithin(mem, m, a, len) && OnlyWord(m, m2, c) && a <= c < a + len2 && len <= len2
    ensures OnlyWithin(mem, m2, a, len2)
  {
    forall b | b in mem ensures SameOutside(mem[b], m2[b], b, a, len2) {
      assert SameOutside(mem[b], m[b], b, a, len) && SameBut(m[b], m2[b], b, c);
    }
  }

  lemma OtherWord(m: map<nat, seq<nat>>, m2: map<nat, seq<nat>>, c: nat, a: nat)
    requires OnlyWord(m, m2, c) && a != c && a % 4 == c % 4
    ensures Load(m2, a) == Load(m, a)
  {
    hide PageBase, WordIndex;
    WordAt(a);
    if PageBase(a) in m {
      assert SameBut(m[PageBase(a)], m2[PageBase(a)], PageBase(a), c);
    }
  }

  /** An address is its page's, and its word's number in it, and at most three bytes more. */
  lemma WordAt(a: nat)
    ensures PageBase(a) + 4 * WordIndex(a) == a - a % 4
  {
    var q, r := a / PAGE_SIZE, a % PAGE_SIZE;
    assert a == 4 * (1024 * q) + r;
    assert r == 4 * (r / 4) + r % 4;
    Bits.DivModUnique(a, 4, 1024 * q + r / 4, r % 4);
  }

  lemma FillStep(mem: map<nat, seq<nat>>, m: map<nat, seq<nat>>, m2: map<nat, seq<nat>>, a: nat, k: nat)
    requires OnlyWithin(mem, m, a, 4 * k) && OnlyWord(m, m2, a + 4 * k) && Filled(m, a, 0, k)
    requires Load(m2, a + 4 * k) == DEADBEEF
    ensures OnlyWithin(mem, m2, a, 4 * (k + 1)) && Filled(m2, a, 0, k + 1)
  {
    hide OnlyWithin, OnlyWord, Load;
    WithinWord(mem, m, m2, a, 4 * k, a + 4 * k, 4 * (k + 1));
    forall i: nat | i < k + 1 ensures Load(m2, a + 4 * i) == DEADBEEF {
      if i < k {
        assert Load(m, a + 4 * i) == DEADBEEF;
        OtherWord(m, m2, a + 4 * k, a + 4 * i);
      }
    }
  }

  /** What freeing leaves of the block: the link in its first word, the fill value in the rest. */
  lemma LinkedAfterFill(mem: map<nat, seq<nat>>, m: map<nat, seq<nat>>, m2: map<nat, seq<nat>>, a: nat, n: nat)
    requires OnlyWithin(mem, m, a, 4 * n) && Filled(m, a, 0, n) && OnlyWord(m, m2, a) && n > 0
    ensures OnlyWithin(mem, m2, a, 4 * n) && Filled(m2, a, 1, n)
  {
    hide OnlyWithin, OnlyWord, Load;
    WithinWord(mem, m, m2, a, 4 * n, a, 4 * n);
    forall i: nat | 1 <= i < n ensures Load(m2, a + 4 * i) == DEADBEEF {
      OtherWord(m, m2, a, a + 4 * i);
    }
  }

  /** Who shares a page does not depend on what the pages hold. */
  lemma MemAside(v: View, v2: View, a: nat)
    requires v2 == v.(mem := v2.mem) && a in v.live
    ensures OtherLive(v2, a) == OtherLive(v, a) && OwnerPageless(v2, a) == OwnerPageless(v, a)
    ensures PageOf(v2, a) == PageOf(v, a)
  {
    hide PageAddr;
  }

  function PageBase(a: nat): nat { a - a % PAGE_SIZE }

  function WordIndex(a: nat): nat { a % PAGE_SIZE / 4 }

  /** The word at address `a`. */
  ghost function Load(mem: map<nat, seq<nat>>, a: nat): nat
  {
    if PageBase(a) in mem && WordIndex(a) < |mem[PageBase(a)]| then mem[PageBase(a)][WordIndex(a)] else 0
  }

  lemma StoreFacts(v: View, a: nat, k: nat)
    requires Core(v) && a in v.live && 4 * k < Extent(v, a)
    ensures PageBase(a + 4 * k) in v.mem && WordIndex(a + 4 * k) < |v.mem[PageBase(a + 4 * k)]|
    ensures |v.mem[PageBase(a + 4 * k)]| == WORDS_PER_PAGE
    ensures var p := v.live[a].ref;
            && p in v.refs && BlockType(v.refs[p]) < NSIZES && Extent(v, a) == SIZES[BlockType(v.refs[p])]
            && PageAddr(v.refs[p]) == PageBase(a + 4 * k) <= a
            && WordIndex(a + 4 * k) == (a - PageAddr(v.refs[p])) / 4 + k
    ensures a + 4 * k == PageBase(a + 4 * k) + 4 * WordIndex(a + 4 * k)
  {
    hide Core, PageAddr, BlockType;
    LiveBlockFits(v, a);
    OwnParts(v, a);
    var p := v.live[a].ref;
    HeadFacts(v, p);
    PageAligned(v.refs[p]);
    SizesDivide(BlockType(v.refs[p]));
    MultipleOfFour(Extent(v, a), a);
    BlockEnd(PageAddr(v.refs[p]), a, k, Extent(v, a));
  }

  lemma BlockEnd(base: nat, a: nat, k: nat, size: nat)
    requires base % PAGE_SIZE == 0 && base <= a && a + size <= base + PAGE_SIZE && 4 * k < size && a % 4 == 0
    ensures PageBase(a + 4 * k) == base && WordIndex(a + 4 * k) == (a - base) / 4 + k < WORDS_PER_PAGE
    ensures a + 4 * k == base + 4 * WordIndex(a + 4 * k)
  {
    PageOfAddress(base, a + 4 * k);
  }

  lemma StoreKept(v: View, v2: View, a: nat, k: nat, x: nat)
    requires Core(v) && NoIdlePage(v) && a in v.live && 4 * k < Extent(v, a)
    requires PageBase(a + 4 * k) in v.mem && WordIndex(a + 4 * k) < |v.mem[PageBase(a + 4 * k)]|
    requires var base := PageBase(a + 4 * k);
             v2 == v.(mem := v.mem[base := Store(v.mem[base], WordIndex(a + 4 * k), x)])
    ensures Core(v2) && NoIdlePage(v2) && OnlyWord(v.mem, v2.mem, a + 4 * k) && Load(v2.mem, a + 4 * k) == x
  {
    hide Core, NoIdlePage, OnlyWord, PageAddr, BlockType, PageBase, WordIndex;
    StoreFacts(v, a, k);
    StoreKeeps(v, v2, a, k, x);
    NoIdleSame(v, v2);
    StoredWord(v.mem, v2.mem, PageBase(a + 4 * k), WordIndex(a + 4 * k), x, a + 4 * k);
  }

  lemma PageOfAddress(base: nat, a: nat)
    requires base % PAGE_SIZE == 0 && base <= a < base + PAGE_SIZE
    ensures base == a - a % PAGE_SIZE
  {
  }

  lemma StoredWord(mem: map<nat, seq<nat>>, mem2: map<nat, seq<nat>>, base: nat, i: nat, x: nat, a: nat)
    requires base in mem && i < |mem[base]| && mem2 == mem[base := Store(mem[base], i, x)] && a == base + 4 * i
    ensures OnlyWord(mem, mem2, a) && mem2[base][i] == x
  {
    forall b | b in mem ensures SameBut(mem[b], mem2[b], b, a) {}
  }

  lemma FreshAfterReserve(v: View, v2: View, va: nat)
    requires va != NULL ==> FreshPage(v, va)
    requires v2.all == v.all && v2.refs == v.refs && v2.big == v.big && |v2.roots| == |v.roots|
    requires forall w :: 0 <= w < |v.roots| ==> v2.roots[w].page == v.roots[w].page
    ensures va != NULL ==> FreshPage(v2, va)
  {
    hide PageAddr, Outside;
  }

  lemma FreshBeside(v: View, v2: View, w: nat, va: nat)
    requires FreshPage(v, va) && v2 == v.(roots := v2.roots) && w < |v.roots| == |v2.roots| && v2.roots[w].page != va
    requires forall u :: 0 <= u < |v.roots| && u != w ==> v2.roots[u].page == v.roots[u].page
    ensures FreshPage(v2, va)
  {
    hide PageAddr, Outside;
  }

  /** Another block of the same page is live. */
  ghost predicate OtherLive(v: View, a: nat)
  {
    a in v.live && exists b :: b in v.live && b != a && v.live[b].ref == v.live[a].ref
  }

  /** The root holding the block's page reference lies above a root with reservations but no page. */
  ghost predicate OwnerPageless(v: View, a: nat)
  {
    && a in v.live && v.live[a].ref in v.slots && IsSlot(v.slots[v.live[a].ref]) && P.PoolOk(v.roots)
    && PagelessBelow(v, v.slots[v.live[a].ref].root)
  }

  ghost function PageOf(v: View, a: nat): nat
    requires a in v.live
  {
    if v.live[a].ref in v.refs then PageAddr(v.refs[v.live[a].ref]) else NULL
  }

  ghost predicate SameBut(w: seq<nat>, w2: seq<nat>, base: nat, a: nat)
  {
    |w2| == |w| && forall i :: 0 <= i < |w| && base + 4 * i != a ==> w2[i] == w[i]
  }

  /** The two memories differ at most in the word at address `a`. */
  ghost predicate OnlyWord(mem: map<nat, seq<nat>>, mem2: map<nat, seq<nat>>, a: nat)
  {
    && mem2.Keys == mem.Keys
    && forall b :: b in mem ==> SameBut(mem[b], mem2[b], b, a)
  }

  lemma NullIsNothing(v: View)
    requires Core(v)
    ensures NULL !in v.live && NULL !in v.big
  {
    hide ListsOk, SlotsOk, LiveOk, PagesOk, PageAddr;
    if NULL in v.live {
      OwnBlock(v, NULL);
      HeadFacts(v, v.live[NULL].ref);
    }
  }

  /** The page found for a live block is its own; for a whole-page allocation none is found. */
  lemma FoundOwner(v: View, ptr: nat, pr: nat)
    requires Core(v) && (ptr in v.live || ptr in v.big)
    requires pr != NULL ==> pr in v.all && pr in v.refs && Covers(v.refs[pr], ptr)
    requires pr == NULL ==> forall p :: p in v.all && p in v.refs ==> !Covers(v.refs[p], ptr)
    ensures pr == NULL ==> ptr !in v.live
    ensures pr != NULL ==> ptr !in v.big && ptr in v.live && v.live[ptr].ref == pr
  {
    hide ListsOk, SlotsOk, LiveOk, PagesOk, PageAddr, BlockType;
    assert LiveOk(v) && PagesOk(v);
    if ptr in v.live { OwnBlock(v, ptr); }
    hide Core;
    if pr != NULL {
      PageAligned(v.refs[pr]);
      if ptr in v.big {
        assert Outside(ptr, v.big[ptr], PageAddr(v.refs[pr]));
        SamePage(PageAddr(v.refs[pr]), ptr, ptr);
      }
      OneOwner(v, pr, ptr);
    }
  }

  lemma OwnParts(v: View, a: nat)
    requires Core(v) && a in v.live
    ensures v.live[a].ref in v.all && v.live[a].ref in v.refs && PageAddr(v.refs[v.live[a].ref]) <= a
    ensures NonFree(v, v.live[a].ref, a - PageAddr(v.refs[v.live[a].ref])) && BlockType(v.refs[v.live[a].ref]) < NSIZES
  {
    hide ListsOk, PagesOk, LiveOk, SpaceOk, SlotsOk, PageAddr, BlockType;
    OwnBlock(v, a);
  }

  lemma PutParts(v: View, v2: View, p: nat, a: nat)
    requires p in v.refs && a >= PageAddr(v.refs[p]) && Puts(v, v2, p, a - PageAddr(v.refs[p]))
    ensures v2 == v.(refs := v2.refs, mem := v2.mem, free := v2.free, live := v.live - {a})
    ensures p in v2.refs && v2.refs[p].pab == v.refs[p].pab && BlockType(v2.refs[p]) == BlockType(v.refs[p])
    ensures SamePabs(v, v2)
  {
    hide NonFree, PageAddr;
  }

  ghost predicate Unlisted(v: View, v2: View)
  {
    && v2.refs == v.refs && v2.mem == v.mem && v2.free == v.free && v2.live == v.live && v2.big == v.big
    && v2.slots == v.slots && v2.reserved == v.reserved
  }

  lemma DropFacts(v: View, p: nat)
    requires Core(v) && p in v.all
    ensures p in v.refs && BlockType(v.refs[p]) < NSIZES && |v.same| == |v.sizebases| == NSIZES
    ensures Chains.Chain(v.nextAll, v.allbase, v.all)
    ensures Chains.Chain(v.nextSame, v.sizebases[BlockType(v.refs[p])], v.same[BlockType(v.refs[p])])
    ensures P.PoolOk(v.roots) && |v.roots| == P.NUM_PAGEREFPAGES && forall w :: 0 <= w < |v.roots| ==>
            P.Shaped(v.roots[w])
    ensures p in v.slots && IsSlot(v.slots[p]) && v.roots[v.slots[p].root].page != 0
    ensures P.InUse(v.roots[v.slots[p].root], v.slots[p].index)
    ensures p == P.RefAddr(v.roots, v.slots[p].root, v.slots[p].index)
  {
    hide LiveOk, SpaceOk, PageAddr, BlockType, P.Shaped, P.InUse, Chains.Chain;
    CorePool(v);
    assert SlotOf(v, p, v.slots[p]);
    assert PageOk(v.refs[p], v.mem, v.free[p]);
    hide PageOk;
    assert Listed(v, v.slots[p].root, v.slots[p].index);
  }

  /** In a root without a page every set bit is a reservation. */
  lemma PagelessIff(v: View, w: nat)
    requires Core(v) && w < P.NUM_PAGEREFPAGES && P.PoolOk(v.roots)
    ensures PagelessBelow(v, w) <==> !forall u :: 0 <= u < w && v.roots[u].page == 0 ==> P.Used(v.roots[u]) == {}
  {
    hide ListsOk, PagesOk, LiveOk, SpaceOk, P.InUse;
    assert SlotsOk(v);
    hide Core;
    if x :| x in v.reserved && IsSlot(x) && x.root < w && v.roots[x.root].page == 0 {
      PagelessBit(v, x.root, x.index);
      assert x.index in P.Used(v.roots[x.root]);
    }
    if u: nat :| u < w && v.roots[u].page == 0 && P.Used(v.roots[u]) != {} {
      var s :| s in P.Used(v.roots[u]);
      PagelessBit(v, u, s);
      assert IsSlot(P.Slot(u, s));
    }
  }

  lemma PagelessBit(v: View, w: nat, s: nat)
    requires SlotsOk(v) && w < P.NUM_PAGEREFPAGES && s < P.NPAGEREFS_PER_PAGE && v.roots[w].page == 0
    ensures P.InUse(v.roots[w], s) <==> P.Slot(w, s) in v.reserved
  {
    hide P.InUse;
    assert !Listed(v, w, s);
  }

  /** No page in use gives blocks of the size for `sz` and has one left. */
  ghost predicate NoFreeBlock(v: View, sz: nat)
  {
    forall p :: p in v.all && p in v.refs && Fits(v.refs[p], sz) ==> v.refs[p].nfree == 0
  }

  /** The first root with a slot not in use. */
  ghost predicate FirstOpen(v: View, w: nat)
  {
    && w < |v.roots| && (forall u :: 0 <= u <= w ==> P.Shaped(v.roots[u])) && !P.AllUsed(v.roots[w])
    && forall u :: 0 <= u < w ==> P.AllUsed(v.roots[u])
  }

  /** No root has a slot left, or the first that does has no page of references and gets none. */
  ghost predicate NoRefFor(v: View, refPage: nat)
  {
    forall w: nat :: FirstOpen(v, w) ==> v.roots[w].page == NULL && refPage == NULL
  }

  /** Block `a` lies on the new page, which is now the first of all, described by a reference of the first root that
      had a slot, in the root's own page or in the one it now has. */
  ghost predicate FromNewPage(v: View, v2: View, a: nat, page: nat, refPage: nat)
  {
    && a in v2.live && page <= a < page + PAGE_SIZE
    && var p := v2.live[a].ref;
       && p in v2.refs && PageAddr(v2.refs[p]) == page && v2.all == [p] + v.all
       && page in v2.mem && v2.mem == v.mem[page := v2.mem[page]]
       && p in v2.slots && IsSlot(v2.slots[p]) && v2.slots[p] !in v2.reserved && v2.reserved == v.reserved
       && var x := v2.slots[p];
          && FirstOpen(v, x.root) && !P.InUse(v.roots[x.root], x.index)
          && |v2.roots| == |v.roots| == P.NUM_PAGEREFPAGES && p == P.RefAddr(v2.roots, x.root, x.index)
          && v2.roots[x.root].page == (if v.roots[x.root].page != NULL then v.roots[x.root].page else refPage)
          && forall u :: 0 <= u < |v.roots| && u != x.root ==> v2.roots[u] == v.roots[u]
  }

  /** Nothing has changed but that a slot of the first root that had one stays in use for good. */
  ghost predicate LosesSlot(v: View, v2: View)
  {
    exists x :: x !in v.reserved && IsSlot(x) && FirstOpen(v, x.root)
                && v2 == v.(roots := v2.roots, reserved := v.reserved + {x})
  }

  lemma OpenRoot(v: View, x: P.Slot)
    requires |v.roots| == P.NUM_PAGEREFPAGES && forall w :: 0 <= w < |v.roots| ==> P.Shaped(v.roots[w])
    requires x.NoSlot? <==> forall w :: 0 <= w < |v.roots| ==> P.AllUsed(v.roots[w])
    requires x.Slot? ==> IsSlot(x) && !P.InUse(v.roots[x.root], x.index)
    requires x.Slot? ==> forall w :: 0 <= w < x.root ==> P.AllUsed(v.roots[w])
    ensures forall w: nat :: FirstOpen(v, w) <==> x.Slot? && w == x.root
  {
    if x.Slot? {
      assert !P.AllUsed(v.roots[x.root]);
      assert FirstOpen(v, x.root);
    }
  }

  lemma OpenWithout(v: View, x: P.Slot, refPage: nat)
    requires IsSlot(x) && x.root < |v.roots| && v.roots[x.root].page == NULL && refPage == NULL
    requires forall w: nat :: FirstOpen(v, w) <==> w == x.root
    ensures NoRefFor(v, refPage) && exists w: nat :: FirstOpen(v, w)
  {
    assert FirstOpen(v, x.root);
  }

  lemma SlotLost(v: View, v2: View, x: P.Slot)
    requires x !in v.reserved && IsSlot(x) && FirstOpen(v, x.root)
    requires v2 == v.(roots := v2.roots, reserved := v.reserved + {x})
    ensures LosesSlot(v, v2)
  {
  }

  lemma AllocatedOnTop(v: View, v1: View, v2: View, a: nat, sz: nat)
    requires v1.live == v.live && Allocated(v1, v2, a, sz)
    ensures Allocated(v, v2, a, sz)
  {
  }

  lemma NewPageBlock(v: View, a: nat, page: nat)
    requires Core(v) && a in v.live && v.live[a].ref in v.refs && PageAddr(v.refs[v.live[a].ref]) == page
    ensures page <= a < page + PAGE_SIZE
  {
    hide Core, Extent;
    LiveBlockFits(v, a);
  }

  lemma CameFromNewPage(v: View, v1: View, v2: View, x: P.Slot, a: nat, page: nat, refPage: nat)
    requires x !in v.reserved && IsSlot(x) && FirstOpen(v, x.root) && !P.InUse(v.roots[x.root], x.index)
    requires |v.roots| == |v1.roots| == P.NUM_PAGEREFPAGES && v1.all == v.all && v1.mem == v.mem
    requires v1.reserved == v.reserved + {x}
    requires v1.roots == v.roots[x.root := v1.roots[x.root]]
    requires v1.roots[x.root].page == if v.roots[x.root].page != NULL then v.roots[x.root].page else refPage
    requires a in v2.live && page <= a < page + PAGE_SIZE && v2.live[a].ref in v2.refs && v2.roots == v1.roots
    requires PageAddr(v2.refs[v2.live[a].ref]) == page && v2.live[a].ref == P.RefAddr(v2.roots, x.root, x.index)
    requires v2.all == [v2.live[a].ref] + v1.all && v2.reserved == v1.reserved - {x}
    requires v2.slots == v1.slots[v2.live[a].ref := x] && page in v2.mem && v2.mem == v1.mem[page := v2.mem[page]]
    ensures FromNewPage(v, v2, a, page, refPage)
  {
    hide FirstOpen, P.RefAddr, PageAddr, P.InUse;
    assert v2.reserved == v.reserved;
  }

  ghost predicate Allocated(v: View, v2: View, a: nat, sz: nat)
  {
    && a !in v.live && a in v2.live && v2.live == v.live[a := v2.live[a]] && v2.live[a].size == sz
    && v2.live[a].ref in v2.refs && Fits(v2.refs[v2.live[a].ref], sz)
  }

  predicate Covers(r: PageRef, a: nat) { PageAddr(r) <= a < PageAddr(r) + PAGE_SIZE }

  ghost function Installed(v: View, x: P.Slot, p: nat, va: nat, t: nat, w: seq<nat>, head: nat, fl: seq<nat>): View
    requires t < |v.sizebases| == |v.same|
  {
    v.(refs := v.refs[p := PageRef(MkPab(va, t), head, |fl|)], mem := v.mem[va := w], free := v.free[p := fl],
       nextAll := v.nextAll[p := v.allbase], allbase := p, all := [p] + v.all,
       nextSame := v.nextSame[p := v.sizebases[t]], sizebases := v.sizebases[t := p],
       same := v.same[t := [p] + v.same[t]],
       slots := v.slots[p := x], reserved := v.reserved - {x})
  }

  lemma InstalledInstalls(v: View, x: P.Slot, p: nat, va: nat, t: nat, w: seq<nat>, head: nat, fl: seq<nat>)
    requires |v.sizebases| == |v.same| == NSIZES && t < NSIZES && FreeListIs(va, SIZES[t], w, head, fl)
    requires forall o: nat :: IsBlock(SIZES[t], o) ==> o in fl
    ensures Installs(v, Installed(v, x, p, va, t, w, head, fl), x, p, va, t)
  {
    hide MkPab, IsBlock, FreeListIs;
  }

  /** After a block is given back, its page has a block in use exactly when another of its blocks was live. */
  lemma OtherIff(v: View, v2: View, p: nat, a: nat)
    requires Core(v) && a in v.live && v.live[a].ref == p && p in v.refs && a >= PageAddr(v.refs[p])
    requires p in v.all && Puts(v, v2, p, a - PageAddr(v.refs[p]))
    ensures OtherLive(v, a) <==> exists o: nat :: NonFree(v2, p, o)
  {
    hide ListsOk, PagesOk, SpaceOk, SlotsOk, PageAddr, BlockType, NonFree, Puts, LiveAt, BlockLive, LiveOk;
    assert LiveOk(v);
    hide Core;
    var base := PageAddr(v.refs[p]);
    if b :| b in v.live && b != a && v.live[b].ref == p {
      LiveIsNonFree(v, b);
      PutNonFree(v, v2, p, a - base, p, b - base);
    }
    if o: nat :| NonFree(v2, p, o) {
      PutNonFree(v, v2, p, a - base, p, o);
      NonFreeIsLive(v, p, o);
      assert base + o != a;
    }
  }

  lemma LiveIsNonFree(v: View, b: nat)
    requires LiveOk(v) && b in v.live
    ensures v.live[b].ref in v.refs && PageAddr(v.refs[v.live[b].ref]) <= b
    ensures NonFree(v, v.live[b].ref, b - PageAddr(v.refs[v.live[b].ref]))
  {
    hide NonFree, PageAddr, BlockType, BlockLive;
    assert LiveAt(v, b, v.live[b]);
  }

  lemma NonFreeIsLive(v: View, p: nat, o: nat)
    requires LiveOk(v) && p in v.all && p in v.refs && NonFree(v, p, o)
    ensures PageAddr(v.refs[p]) + o in v.live && v.live[PageAddr(v.refs[p]) + o].ref == p
  {
    hide NonFree, PageAddr, LiveAt;
    assert BlockLive(v, p, o);
    hide LiveOk;
  }

  lemma CountTells(v: View, p: nat)
    requires Core(v) && p in v.all
    ensures p in v.refs && BlockType(v.refs[p]) < NSIZES && v.refs[p].nfree <= BlocksPerPage(BlockType(v.refs[p]))
    ensures v.refs[p].nfree == BlocksPerPage(BlockType(v.refs[p])) <==> forall o: nat :: !NonFree(v, p, o)
  {
    hide ListsOk, LiveOk, SpaceOk, SlotsOk, PageAddr, BlockType, FreeListIs, IsBlock;
    var r := v.refs[p];
    assert PageOk(r, v.mem, v.free[p]);
    hide Core, PagesOk;
    AllFreeByCount(PageAddr(r), BlockType(r), v.mem[PageAddr(r)], r.freelistOffset, v.free[p]);
    assert forall o: nat :: NonFree(v, p, o) <==> IsBlock(SIZES[BlockType(r)], o) && o !in v.free[p];
  }

  lemma PutWord(v: View, v2: View, p: nat, a: nat)
    requires Core(v) && p in v.refs && a >= PageAddr(v.refs[p]) && Puts(v, v2, p, a - PageAddr(v.refs[p]))
    ensures OnlyWord(v.mem, v2.mem, a)
  {
    hide Core, PageAddr, BlockType;
    var base := PageAddr(v.refs[p]);
    SizesDivide(BlockType(v.refs[p]));
    MultipleOfFour(SIZES[BlockType(v.refs[p])], a - base);
    hide NonFree, IsBlock;
    forall b | b in v.mem ensures SameBut(v.mem[b], v2.mem[b], b, a) {}
  }

  /** The page keeps a live block. */
  lemma PutIdle(v: View, v2: View, p: nat, a: nat)
    requires Core(v) && NoIdlePage(v) && Core(v2) && a in v.live && v.live[a].ref == p && p in v.refs
    requires a >= PageAddr(v.refs[p]) && Puts(v, v2, p, a - PageAddr(v.refs[p])) && p in v.all && p in v2.refs
    requires BlockType(v2.refs[p]) < NSIZES && v2.refs[p].nfree != BlocksPerPage(BlockType(v2.refs[p]))
    ensures NoIdlePage(v2) && OtherLive(v, a) && OnlyWord(v.mem, v2.mem, a)
  {
    hide Core, PageAddr, BlockType, NonFree, OtherLive, OnlyWord;
    assert v2.all == v.all && forall q :: q != p && q in v2.refs ==> q in v.refs && v2.refs[q] == v.refs[q];
    CountTells(v2, p);
    OtherIff(v, v2, p, a);
    PutWord(v, v2, p, a);
  }

  /** The page has no live block left. */
  lemma LastFacts(v: View, v2: View, p: nat, a: nat)
    requires Core(v) && Core(v2) && a in v.live && v.live[a].ref == p && p in v.refs && p in v.all
    requires a >= PageAddr(v.refs[p]) && Puts(v, v2, p, a - PageAddr(v.refs[p])) && p in v2.refs
    requires BlockType(v2.refs[p]) < NSIZES && v2.refs[p].nfree == BlocksPerPage(BlockType(v2.refs[p]))
    ensures !OtherLive(v, a) && OnlyWord(v.mem, v2.mem, a) && (forall o: nat :: !NonFree(v2, p, o))
    ensures p in v2.all && p in v2.slots && IsSlot(v2.slots[p]) && P.PoolOk(v2.roots)
    ensures OwnerPageless(v, a) <==> PagelessBelow(v2, v2.slots[p].root)
  {
    hide Core, PageAddr, BlockType, NonFree, OtherLive, OnlyWord, P.PoolOk;
    assert v2.all == v.all && v2.slots == v.slots && v2.roots == v.roots && v2.reserved == v.reserved;
    DropFacts(v2, p);
    CountTells(v2, p);
    OtherIff(v, v2, p, a);
    PutWord(v, v2, p, a);
  }

  lemma DropIdle(v: View, v1: View, v2: View, p: nat, a: nat)
    requires NoIdlePage(v) && p in v.refs && a >= PageAddr(v.refs[p]) && Puts(v, v1, p, a - PageAddr(v.refs[p]))
    requires v2.refs == v1.refs && forall q :: q in v2.all <==> q in v1.all && q != p
    ensures NoIdlePage(v2)
  {
    hide PageAddr, BlockType, NonFree;
  }

  lemma PutsView(v: View, v2: View, p: nat, o: nat, link: nat)
    requires p in v.all && p in v.refs && p in v.free && NonFree(v, p, o) && o < PAGE_SIZE
    requires PageAddr(v.refs[p]) in v.mem && |v.mem[PageAddr(v.refs[p])]| == WORDS_PER_PAGE
    requires link == if v.refs[p].freelistOffset == INVALID_OFFSET then NULL
             else PageAddr(v.refs[p]) + v.refs[p].freelistOffset
    requires v2 == v.(refs := v.refs[p := v.refs[p].(nfree := v.refs[p].nfree + 1, freelistOffset := o)],
                      mem := v.mem[PageAddr(v.refs[p]) := Store(v.mem[PageAddr(v.refs[p])], o / 4, link)],
                      free := v.free[p := [o] + v.free[p]],
                      live := v.live - {Addr(v, p, o)})
    ensures Puts(v, v2, p, o)
  {
  }

  lemma BlockInPage(v: View, p: nat, o: nat)
    requires NonFree(v, p, o)
    ensures o < PAGE_SIZE
  {
  }

  lemma AllList(v: View)
    requires Core(v)
    ensures v.allbase == if v.all == [] then NULL else v.all[0]
    ensures forall i {:trigger v.all[i]} :: 0 <= i < |v.all| ==>
              && v.all[i] != NULL && v.all[i] in v.refs && v.all[i] in v.nextAll
              && v.nextAll[v.all[i]] == if i + 1 < |v.all| then v.all[i + 1] else NULL
  {
    hide LiveOk, SpaceOk, SlotsOk, BlockType, PageAddr, PageOk, Chains.Chain;
    assert Chains.Chain(v.nextAll, v.allbase, v.all) && forall p :: p in v.all ==> p in v.refs;
    hide Core, ListsOk, PagesOk;
    ChainSteps(v.nextAll, v.allbase, v.all);
  }

  lemma InstalledIdle(v: View, v2: View, x: P.Slot, p: nat, va: nat, t: nat)
    requires NoIdlePage(v) && Installs(v, v2, x, p, va, t)
    ensures NoIdleBut(v2, p)
  {
    hide MkPab, IsBlock, FreeListIs, BlockType;
  }

  lemma TypeFits(r: PageRef, t: nat, sz: nat)
    requires BlockType(r) == t < NSIZES && sz <= SIZES[t] && forall i :: 0 <= i < t ==> SIZES[i] < sz
    ensures Fits(r, sz)
  {
  }

  lemma SameAddr(r: PageRef, r2: PageRef)
    requires r2.pab == r.pab
    ensures PageAddr(r2) == PageAddr(r)
  {
  }

  lemma PageNotNull(v: View, va: nat)
    requires FreshPage(v, va)
    ensures va > 0
  {
  }

  lemma CorePool(v: View)
    requires Core(v)
    ensures P.PoolOk(v.roots) && |v.roots| == P.NUM_PAGEREFPAGES && forall w :: 0 <= w < |v.roots| ==>
            P.Shaped(v.roots[w])
  {
    hide ListsOk, PagesOk, LiveOk, SpaceOk, P.Shaped;
  }

  lemma NoIdleSame(v: View, v2: View)
    requires NoIdlePage(v) && v2.refs == v.refs && v2.all == v.all
    ensures NoIdlePage(v2)
  {
    hide BlockType;
  }

  lemma FreshParts(v: View, va: nat)
    requires va != NULL ==> FreshPage(v, va)
    ensures va % PAGE_SIZE == 0 && va < WORD
    ensures (va != NULL ==> forall w :: 0 <= w < |v.roots| ==> v.roots[w].page != va)
  {
    hide PageAddr, Outside;
  }

  lemma FitsParts(r: PageRef, sz: nat)
    requires Fits(r, sz)
    ensures BlockType(r) < NSIZES && sz <= SIZES[BlockType(r)]
  {
  }

  lemma SameFit(r: PageRef, r2: PageRef, sz: nat)
    requires Fits(r, sz) && r2.pab == r.pab
    ensures Fits(r2, sz)
  {
  }

  /** The block type is the smallest that holds `sz`. */
  ghost predicate Fits(r: PageRef, sz: nat)
  {
    BlockType(r) < NSIZES && sz <= SIZES[BlockType(r)] && forall i :: 0 <= i < BlockType(r) ==> SIZES[i] < sz
  }

  /** The list of pages of block type `t`, as a scan meets it. */
  lemma SizeList(v: View, t: nat)
    requires Core(v) && t < NSIZES
    ensures |v.sizebases| == |v.same| == NSIZES
    ensures v.sizebases[t] == if v.same[t] == [] then NULL else v.same[t][0]
    ensures forall i {:trigger v.same[t][i]} :: 0 <= i < |v.same[t]| ==>
              && v.same[t][i] != NULL && v.same[t][i] in v.refs && v.same[t][i] in v.nextSame
              && v.nextSame[v.same[t][i]] == if i + 1 < |v.same[t]| then v.same[t][i + 1] else NULL
  {
    hide PagesOk, LiveOk, SpaceOk, SlotsOk, BlockType, Chains.Chain;
    assert Chains.Chain(v.nextSame, v.sizebases[t], v.same[t]);
    assert forall p :: p in v.same[t] ==> p in v.refs;
    hide Core, ListsOk;
    ChainSteps(v.nextSame, v.sizebases[t], v.same[t]);
  }

  lemma ChainSteps(next: map<nat, nat>, head: nat, list: seq<nat>)
    requires Chains.Chain(next, head, list)
    ensures head == if list == [] then NULL else list[0]
    ensures forall i {:trigger list[i]} :: 0 <= i < |list| ==>
              list[i] != NULL && list[i] in next && next[list[i]] == if i + 1 < |list| then list[i + 1] else NULL
  {
    forall i | 0 <= i < |list|
      ensures list[i] != NULL && list[i] in next && next[list[i]] == if i + 1 < |list| then list[i + 1] else NULL
    {
      assert next[list[i]] == Chains.After(list, i);
    }
  }

  lemma BestFit(v: View, t: nat, sz: nat)
    requires Core(v) && t < NSIZES && sz <= SIZES[t] && forall i :: 0 <= i < t ==> SIZES[i] < sz
    ensures |v.same| == NSIZES
    ensures forall p :: p in v.same[t] <==> p in v.all && p in v.refs && Fits(v.refs[p], sz)
  {
    hide PagesOk, LiveOk, SpaceOk, SlotsOk, Chains.Chain, BlockType;
    forall p ensures p in v.same[t] <==> p in v.all && p in v.refs && Fits(v.refs[p], sz) {
      assert p in v.same[t] <==> p in v.all && p in v.refs && BlockType(v.refs[p]) == t;
      if p in v.refs && Fits(v.refs[p], sz) { OneFit(BlockType(v.refs[p]), t, sz); }
    }
  }

  lemma OneFit(u: nat, t: nat, sz: nat)
    requires u < NSIZES && t < NSIZES && sz <= SIZES[u] && sz <= SIZES[t]
    requires forall i :: 0 <= i < t ==> SIZES[i] < sz
    requires forall i :: 0 <= i < u ==> SIZES[i] < sz
    ensures u == t
  {
  }

  lemma NoIdleWeaker(v: View, p: nat)
    requires NoIdlePage(v)
    ensures NoIdleBut(v, p)
  {
  }

  lemma EmptyHeap(v: View)
    requires v.all == [] && v.live == map[] && v.big == map[] && v.reserved == {} && v.allbase == NULL
    requires |v.sizebases| == |v.same| == NSIZES && P.PoolOk(v.roots)
    requires forall t :: 0 <= t < NSIZES ==> v.sizebases[t] == NULL && v.same[t] == []
    requires forall w :: 0 <= w < |v.roots| ==> P.Used(v.roots[w]) == {}
    ensures Core(v) && NoIdlePage(v)
  {
    forall w, s | 0 <= w < P.NUM_PAGEREFPAGES && 0 <= s < P.NPAGEREFS_PER_PAGE ensures !P.InUse(v.roots[w], s) {
      assert s !in P.Used(v.roots[w]);
    }
  }

  lemma HeadFacts(v: View, p: nat)
    requires Core(v) && p in v.all
    ensures p in v.refs && p in v.free && BlockType(v.refs[p]) < NSIZES && v.refs[p].nfree == |v.free[p]|
    ensures PageAddr(v.refs[p]) > 0 && PageAddr(v.refs[p]) in v.mem && |v.mem[PageAddr(v.refs[p])]| == WORDS_PER_PAGE
    ensures v.free[p] != [] ==>
              && v.refs[p].freelistOffset == v.free[p][0] < PAGE_SIZE
              && (var next := Word(v.mem[PageAddr(v.refs[p])], v.free[p][0]);
                  && (next == NULL <==> |v.free[p]| == 1)
                  && (next != NULL ==> next == PageAddr(v.refs[p]) + v.free[p][1]))
  {
    hide ListsOk, LiveOk, SpaceOk, SlotsOk, PageAddr, BlockType, FreeListIs;
    var r := v.refs[p];
    assert PageOk(r, v.mem, v.free[p]);
    hide Core, PagesOk;
    FreeListParts(PageAddr(r), SIZES[BlockType(r)], v.mem[PageAddr(r)], r.freelistOffset, v.free[p]);
    if v.free[p] != [] {
      FirstLink(PageAddr(r), SIZES[BlockType(r)], v.mem[PageAddr(r)], r.freelistOffset, v.free[p]);
    }
  }

  lemma TakenIdle(v: View, v2: View, p: nat, size: nat)
    requires Core(v) && NoIdleBut(v, p) && Takes(v, v2, p, size)
    ensures NoIdlePage(v2)
  {
    hide ListsOk, LiveOk, SpaceOk, SlotsOk, PageAddr, BlockType, FreeListIs;
    var r := v.refs[p];
    assert PageOk(r, v.mem, v.free[p]);
    AllFreeByCount(PageAddr(r), BlockType(r), v.mem[PageAddr(r)], r.freelistOffset, v.free[p]);
    assert SamePabs(v, v2);
    hide Core, PagesOk;
    forall q | q in v2.all && q in v2.refs && BlockType(v2.refs[q]) < NSIZES
      ensures v2.refs[q].nfree < BlocksPerPage(BlockType(v2.refs[q]))
    {
      PabParts(v, v2, q);
    }
  }

  // ---- A run that stops the system ----

  /** Before the run's next failed request: root 0 has no page and `n` slots in use, every other root none. */
  ghost predicate Leaking(v: View, n: nat)
  {
    && v.all == [] && v.live == map[] && v.big == map[]
    && |v.roots| == P.NUM_PAGEREFPAGES
    && (forall w :: 0 <= w < |v.roots| ==> P.RootOk(v.roots[w]) && v.roots[w].page == NULL)
    && |P.Used(v.roots[0])| == n && (forall w :: 1 <= w < |v.roots| ==> P.Used(v.roots[w]) == {})
    && (n > 0 ==> exists x :: x in v.reserved && IsSlot(x) && x.root == 0)
  }

  lemma NextSlotOfRoot0(v: View, v2: View, n: nat, x: P.Slot)
    requires Leaking(v, n) && P.PoolOk(v2.roots) && IsSlot(x) && !P.InUse(v.roots[x.root], x.index)
    requires forall w :: 0 <= w < x.root ==> P.AllUsed(v.roots[w])
    requires v2 == v.(roots := v.roots[x.root := v2.roots[x.root]], reserved := v.reserved + {x})
    requires v2.roots[x.root].page == v.roots[x.root].page
    requires P.Used(v2.roots[x.root]) == P.Used(v.roots[x.root]) + {x.index}
    ensures n < P.NPAGEREFS_PER_PAGE ==> Leaking(v2, n + 1)
    ensures n == P.NPAGEREFS_PER_PAGE ==> x.root == 1
  {
    P.FullIffAllUsed(v.roots[0]);
    P.FullIffAllUsed(v.roots[1]);
    assert x.index !in P.Used(v.roots[x.root]);
    if n < P.NPAGEREFS_PER_PAGE {
      assert x.root == 0 && x in v2.reserved;
    }
  }

  lemma StartLeak(v: View)
    requires Core(v) && Unused(v)
    ensures Leaking(v, 0)
  {
    hide ListsOk, PagesOk, LiveOk, SpaceOk;
  }

  /** A request fails for want of a page of references. */
  method LeakOne(h: Heap, ghost n: nat)
    requires h.Valid() && Leaking(h.v, n) && n < P.NPAGEREFS_PER_PAGE
    modifies h, h.pool
    ensures h.Valid() && Leaking(h.v, n + 1)
  {
    hide Core, NoIdlePage, P.AllUsed, P.InUse, P.Used, P.Shaped, Fits, Leaking, P.PoolOk;
    NothingListed(h.v, n);
    var a := h.TryAlloc(16);
    assert a == NULL;
    ghost var v := h.v;
    var x := h.ReserveRef();
    SlotIsThere(v, n);
    CorePool(h.v);
    NextSlotOfRoot0(v, h.v, n, x);
    PagelessRoots(h.v, n + 1);
    var usable, giveBack := h.RefPageArrived(x, NULL);
  }

  lemma NothingListed(v: View, n: nat)
    requires Leaking(v, n)
    ensures v.all == []
  {
  }

  lemma SlotIsThere(v: View, n: nat)
    requires Leaking(v, n)
    ensures |v.roots| == P.NUM_PAGEREFPAGES && (forall w :: 0 <= w < |v.roots| ==> P.Shaped(v.roots[w]))
    ensures !P.AllUsed(v.roots[1])
  {
    assert 0 !in P.Used(v.roots[1]);
    assert !P.InUse(v.roots[1], 0);
  }

  lemma PagelessRoots(v: View, n: nat)
    requires Leaking(v, n)
    ensures forall w :: 0 <= w < |v.roots| ==> v.roots[w].page == NULL
  {
  }

  /** The next request is served from the second root; freeing its block stops the system. */
  method ServeAndFree(h: Heap) returns (f: Freed)
    requires h.Valid() && Leaking(h.v, P.NPAGEREFS_PER_PAGE)
    modifies h, h.pool
    ensures f.Stopped?
  {
    hide Core, NoIdlePage, P.AllUsed, P.InUse, P.Used, P.Shaped, Fits, Leaking, P.PoolOk, FreshPage, PageAddr,
         OwnerPageless;
    ghost var v := h.v;
    var x := h.ReserveRef();
    SlotIsThere(v, P.NPAGEREFS_PER_PAGE);
    CorePool(h.v);
    NextSlotOfRoot0(v, h.v, P.NPAGEREFS_PER_PAGE, x);
    AnyPageIsFresh(v, h.v, x);
    ghost var v1 := h.v;
    var usable, giveBack := h.RefPageArrived(x, 2 * PAGE_SIZE);
    FreshBeside(v1, h.v, x.root, PAGE_SIZE);
    ghost var v2 := h.v;
    var a := h.InstallPage(x, PAGE_SIZE, seq(WORDS_PER_PAGE, _ => 0), 16);
    CorePool(h.v);
    Owner(v, h.v, x, a);
    f := h.Kfree(a);
  }

  lemma AnyPageIsFresh(v: View, v1: View, x: P.Slot)
    requires Leaking(v, P.NPAGEREFS_PER_PAGE) && IsSlot(x) && v1.all == v.all && v1.big == v.big
    requires |v1.roots| == |v.roots|
    requires v1.roots == v.roots[x.root := v1.roots[x.root]] && v1.roots[x.root].page == v.roots[x.root].page
    ensures FreshPage(v1, PAGE_SIZE) && FreshPage(v1, 2 * PAGE_SIZE)
    ensures v.live == map[] && v1.roots[x.root].page == NULL
  {
  }

  lemma Owner(v: View, v2: View, x: P.Slot, a: nat)
    requires Leaking(v, P.NPAGEREFS_PER_PAGE) && P.PoolOk(v2.roots) && IsSlot(x) && x.root == 1 && a in v2.live
    requires v2.live == map[a := v2.live[a]] && v2.slots == v.slots[v2.live[a].ref := x]
    requires v2.reserved == v.reserved + {x} - {x}
    requires v2.roots[0].page == v.roots[0].page
    ensures OwnerPageless(v2, a) && !OtherLive(v2, a)
  {
    var y :| y in v.reserved && IsSlot(y) && y.root == 0;
    assert y in v2.reserved && v2.roots[y.root].page == 0;
    assert PagelessBelow(v2, 1);
  }

  /** 256 requests for which no page of references could be had leave the first root full and without a page; the
      first block served from the second root then cannot be given back. */
  method FailedRequestsThenFree() returns (f: Freed)
    ensures f.Stopped?
  {
    var h := new Heap();
    hide Core, NoIdlePage, P.AllUsed, P.InUse, P.Used, P.Shaped, Fits, BlockType, PageAddr, P.RefAddr;
    StartLeak(h.v);
    var i := 0;
    while i < P.NPAGEREFS_PER_PAGE
      invariant i <= P.NPAGEREFS_PER_PAGE && h.Valid() && Leaking(h.v, i)
      invariant fresh(h) && fresh(h.pool)
    {
      LeakOne(h, i);
      i := i + 1;
    }
    f := ServeAndFree(h);
  }
}
