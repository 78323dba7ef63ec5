/** What the kernel heap keeps: equal-sized blocks carved from pages, each page described by a page reference that
    is on two lists, and whole-page allocations beside them; and why each change to it keeps that. */
module HeapInvariant {
  import opened HeapPage
  import Bits
  import Chains
  import P = PagerefPool

  const WORD := P.WORD

  /** `pab` packs the page address with the block type. */
  datatype PageRef = PageRef(pab: nat, freelistOffset: nat, nfree: nat)

  function PageAddr(r: PageRef): nat { r.pab - r.pab % PAGE_SIZE }

  function BlockType(r: PageRef): nat { r.pab % PAGE_SIZE }

  function MkPab(pa: nat, blk: nat): nat { (pa - pa % PAGE_SIZE) + blk % PAGE_SIZE }

  /** A live block: the reference of its page and the size asked for. */
  datatype Block = Block(ref: nat, size: nat)

  /** The heap's variables, with what they stand for: the two lists, each page's free blocks, the live blocks,
      whole-page allocations (base to page count), where each reference sits in the pool, and slots taken but not
      (yet) on the lists. */
  datatype View = View(
    refs: map<nat, PageRef>, nextSame: map<nat, nat>, nextAll: map<nat, nat>, sizebases: seq<nat>, allbase: nat,
    mem: map<nat, seq<nat>>, roots: seq<P.Root>,
    all: seq<nat>, same: seq<seq<nat>>, free: map<nat, seq<nat>>, live: map<nat, Block>, big: map<nat, nat>,
    slots: map<nat, P.Slot>, reserved: set<P.Slot>)

  ghost predicate ListsOk(v: View)
  {
    && |v.sizebases| == |v.same| == NSIZES
    && Chains.Chain(v.nextAll, v.allbase, v.all)
    && (forall t :: 0 <= t < NSIZES ==> Chains.Chain(v.nextSame, v.sizebases[t], v.same[t]))
    && (forall t, p :: 0 <= t < NSIZES ==> (p in v.same[t] <==> p in v.all && p in v.refs && BlockType(v.refs[p]) == t))
  }

  ghost predicate PageOk(r: PageRef, mem: map<nat, seq<nat>>, free: seq<nat>)
  {
    && BlockType(r) < NSIZES && 0 < PageAddr(r) && PageAddr(r) + PAGE_SIZE <= WORD && PageAddr(r) in mem
    && r.nfree == |free|
    && FreeListIs(PageAddr(r), SIZES[BlockType(r)], mem[PageAddr(r)], r.freelistOffset, free)
  }

  ghost predicate PagesOk(v: View)
  {
    && (forall p :: p in v.all ==> p in v.refs && p in v.free && PageOk(v.refs[p], v.mem, v.free[p]))
    && (forall p, q :: p in v.all && q in v.all && p != q ==> PageAddr(v.refs[p]) != PageAddr(v.refs[q]))
  }

  /** `o` is a block of p's page that is not on its free list. */
  ghost predicate NonFree(v: View, p: nat, o: nat)
  {
    && p in v.refs && p in v.free && BlockType(v.refs[p]) < NSIZES
    && IsBlock(SIZES[BlockType(v.refs[p])], o) && o !in v.free[p]
  }

  ghost predicate LiveAt(v: View, a: nat, b: Block)
  {
    && b.ref in v.all && b.ref in v.refs && PageAddr(v.refs[b.ref]) <= a
    && NonFree(v, b.ref, a - PageAddr(v.refs[b.ref]))
    && b.size <= SIZES[BlockType(v.refs[b.ref])]
  }

  function Addr(v: View, p: nat, o: nat): nat
    requires p in v.refs
  {
    PageAddr(v.refs[p]) + o
  }

  ghost predicate BlockLive(v: View, p: nat, o: nat)
  {
    p in v.refs && Addr(v, p, o) in v.live && v.live[Addr(v, p, o)].ref == p
  }

  /** The live blocks are exactly the blocks not on a free list. */
  ghost predicate LiveOk(v: View)
  {
    && (forall a {:trigger LiveAt(v, a, v.live[a])} :: a in v.live ==> LiveAt(v, a, v.live[a]))
    && (forall p, o: nat :: p in v.all && NonFree(v, p, o) ==> BlockLive(v, p, o))
  }

  predicate Outside(b: nat, n: nat, page: nat) { page < b || page >= b + PAGE_SIZE * n }

  ghost predicate SpaceOk(v: View)
  {
    && (forall b :: b in v.big ==> 0 < b && b % PAGE_SIZE == 0 && v.big[b] >= 1 && b + PAGE_SIZE * v.big[b] <= WORD)
    && (forall b, c :: b in v.big && c in v.big && b != c ==> Outside(b, v.big[b], c))
    && (forall b, p :: b in v.big && p in v.all && p in v.refs ==> Outside(b, v.big[b], PageAddr(v.refs[p])))
    && (forall w, p :: 0 <= w < |v.roots| && p in v.all && p in v.refs ==> v.roots[w].page != PageAddr(v.refs[p]))
    && (forall w, b :: 0 <= w < |v.roots| && b in v.big && v.roots[w].page != 0 ==>
         Outside(b, v.big[b], v.roots[w].page))
  }

  /** A slot's bit is set exactly when it is reserved or its reference is on the lists. */
  ghost predicate SlotsOk(v: View)
  {
    && P.PoolOk(v.roots)
    && (forall p :: p in v.all ==> p in v.slots && SlotOf(v, p, v.slots[p]) && v.slots[p] !in v.reserved)
    && (forall x :: x in v.reserved ==> IsSlot(x))
    && (forall w, s :: 0 <= w < P.NUM_PAGEREFPAGES && 0 <= s < P.NPAGEREFS_PER_PAGE ==>
          (P.InUse(v.roots[w], s) <==> P.Slot(w, s) in v.reserved || Listed(v, w, s)))
  }

  predicate IsSlot(x: P.Slot) { x.Slot? && x.root < P.NUM_PAGEREFPAGES && x.index < P.NPAGEREFS_PER_PAGE }

  ghost predicate SlotOf(v: View, p: nat, x: P.Slot)
    requires P.PoolOk(v.roots)
  {
    IsSlot(x) && v.roots[x.root].page != 0 && p == P.RefAddr(v.roots, x.root, x.index)
  }

  ghost predicate Listed(v: View, w: nat, s: nat)
    requires P.PoolOk(v.roots) && w < P.NUM_PAGEREFPAGES
  {
    v.roots[w].page != 0 && P.RefAddr(v.roots, w, s) in v.all
  }

  /** The invariant inside the lock ... */
  ghost predicate Core(v: View) { ListsOk(v) && PagesOk(v) && LiveOk(v) && SpaceOk(v) && SlotsOk(v) }

  /** ... and when it is free: every page on the lists has a live block. */
  ghost predicate NoIdlePage(v: View)
  {
    forall p :: p in v.all && p in v.refs && BlockType(v.refs[p]) < NSIZES ==>
      v.refs[p].nfree < BlocksPerPage(BlockType(v.refs[p]))
  }

  // ---- Taking a block ----

  /** Rewriting one reference's list head and count, with its page's words, touches nothing the lists depend on. */
  ghost predicate OnlyPage(v: View, v2: View, p: nat)
  {
    && p in v.all && p in v.refs && p in v2.refs && v2.refs[p].pab == v.refs[p].pab
    && v2 == v.(refs := v.refs[p := v2.refs[p]], free := v2.free, live := v2.live, mem := v2.mem)
  }

  lemma SameLists(v: View, v2: View, p: nat)
    requires Core(v) && OnlyPage(v, v2, p)
    ensures ListsOk(v2) && SpaceOk(v2) && SlotsOk(v2)
  {
    assert ListsOk(v) && SpaceOk(v) && SlotsOk(v);
    hide Core, ListsOk, SpaceOk, SlotsOk;
    assert v2.refs.Keys == v.refs.Keys && forall q :: q in v.refs ==> v2.refs[q].pab == v.refs[q].pab;
    SameSorting(v, v2);
    SameSpace(v, v2);
    SameSlots(v, v2);
  }

  lemma SameSorting(v: View, v2: View)
    requires ListsOk(v) && v2.refs.Keys == v.refs.Keys && (forall q :: q in v.refs ==> v2.refs[q].pab == v.refs[q].pab)
    requires v2 == v.(refs := v2.refs, free := v2.free, live := v2.live, mem := v2.mem)
    ensures ListsOk(v2)
  {
    hide Chains.Chain;
    forall t, p | 0 <= t < NSIZES
      ensures p in v2.same[t] <==> p in v2.all && p in v2.refs && BlockType(v2.refs[p]) == t
    {
      assert p in v.same[t] <==> p in v.all && p in v.refs && BlockType(v.refs[p]) == t;
    }
  }

  lemma SameSpace(v: View, v2: View)
    requires SpaceOk(v) && v2.refs.Keys == v.refs.Keys && (forall q :: q in v.refs ==> v2.refs[q].pab == v.refs[q].pab)
    requires v2.all == v.all && v2.big == v.big && v2.roots == v.roots
    ensures SpaceOk(v2)
  {
    hide Outside;
    forall p | p in v.all && p in v.refs ensures PageAddr(v2.refs[p]) == PageAddr(v.refs[p]) {}
  }

  lemma SameSlots(v: View, v2: View)
    requires SlotsOk(v) && v2.roots == v.roots && v2.all == v.all && v2.slots == v.slots && v2.reserved == v.reserved
    ensures SlotsOk(v2)
  {
    hide P.InUse, P.RefAddr;
    forall w, s | 0 <= w < P.NUM_PAGEREFPAGES && 0 <= s < P.NPAGEREFS_PER_PAGE
      ensures P.InUse(v.roots[w], s) <==> P.Slot(w, s) in v.reserved || Listed(v2, w, s)
    {
      assert Listed(v2, w, s) == Listed(v, w, s);
    }
    forall p | p in v.all ensures SlotOf(v2, p, v.slots[p]) { assert SlotOf(v, p, v.slots[p]); }
  }

  /** The page a live address lies on is the page of its own reference. */
  lemma OneOwner(v: View, p: nat, a: nat)
    requires PagesOk(v) && LiveOk(v) && p in v.all && p in v.refs && a in v.live
    requires PageAddr(v.refs[p]) <= a < PageAddr(v.refs[p]) + PAGE_SIZE
    ensures v.live[a].ref == p && NonFree(v, p, a - PageAddr(v.refs[p]))
  {
    hide PageAddr, PagesOk, LiveAt;
    var q := v.live[a].ref;
    assert LiveAt(v, a, v.live[a]);
    hide *;
    OnPage(v, a, v.live[a]);
    PageAligned(v.refs[p]);
    PageAligned(v.refs[q]);
    SamePage(PageAddr(v.refs[p]), PageAddr(v.refs[q]), a);
    PagesDiffer(v, p, q);
  }

  lemma OnPage(v: View, a: nat, b: Block)
    requires LiveAt(v, a, b)
    ensures b.ref in v.all && b.ref in v.refs && PageAddr(v.refs[b.ref]) <= a < PageAddr(v.refs[b.ref]) + PAGE_SIZE
    ensures NonFree(v, b.ref, a - PageAddr(v.refs[b.ref]))
  {
    hide PageAddr;
  }

  lemma PagesDiffer(v: View, p: nat, q: nat)
    requires PagesOk(v) && p in v.all && q in v.all && p in v.refs && q in v.refs
    requires PageAddr(v.refs[p]) == PageAddr(v.refs[q])
    ensures p == q
  {
    hide PageAddr, PageOk;
  }

  lemma PageAligned(r: PageRef)
    ensures PageAddr(r) % PAGE_SIZE == 0
  {
  }

  lemma SamePage(x: nat, y: nat, a: nat)
    requires x % PAGE_SIZE == 0 && y % PAGE_SIZE == 0 && x <= a < x + PAGE_SIZE && y <= a < y + PAGE_SIZE
    ensures x == y
  {
  }

  /** The head block of p's free list becomes live. */
  ghost predicate Takes(v: View, v2: View, p: nat, size: nat)
  {
    && p in v.all && p in v.refs && p in v.free && v.free[p] != []
    && BlockType(v.refs[p]) < NSIZES && size <= SIZES[BlockType(v.refs[p])]
    && (var rest := v.free[p][1..];
        var head := if rest == [] then INVALID_OFFSET else rest[0];
        v2 == v.(refs := v.refs[p := v.refs[p].(nfree := |rest|, freelistOffset := head)],
                 free := v.free[p := rest],
                 live := v.live[Addr(v, p, v.free[p][0]) := Block(p, size)]))
  }

  lemma TakeKeeps(v: View, v2: View, p: nat, size: nat)
    requires Core(v) && Takes(v, v2, p, size)
    ensures Core(v2) && Addr(v, p, v.free[p][0]) !in v.live
  {
    hide ListsOk, SpaceOk, SlotsOk, PagesOk, LiveOk, PageAddr, BlockType;
    assert OnlyPage(v, v2, p);
    hide Takes, OnlyPage;
    HeadIsDead(v, p);
    TakePages(v, v2, p, size);
    TakeLive(v, v2, p, size);
    SameLists(v, v2, p);
  }

  lemma AddrIs(v: View, p: nat, o: nat)
    requires p in v.refs
    ensures Addr(v, p, o) == PageAddr(v.refs[p]) + o
  {
  }

  lemma HeadIsDead(v: View, p: nat)
    requires PagesOk(v) && LiveOk(v) && p in v.all && p in v.refs && p in v.free && v.free[p] != []
    ensures Addr(v, p, v.free[p][0]) !in v.live
  {
    hide PageAddr, LiveOk, PagesOk;
    HeadBlock(v, p);
    var o := v.free[p][0];
    assert !NonFree(v, p, o) && o < PAGE_SIZE;
    hide *;
    if Addr(v, p, o) in v.live {
      AddrIs(v, p, o);
      OneOwner(v, p, Addr(v, p, o));
    }
  }

  lemma TakePages(v: View, v2: View, p: nat, size: nat)
    requires PagesOk(v) && Takes(v, v2, p, size)
    ensures PagesOk(v2)
  {
    var r := v.refs[p];
    assert PageOk(r, v.mem, v.free[p]);
    ShorterList(PageAddr(r), SIZES[BlockType(r)], v.mem[PageAddr(r)], r.freelistOffset, v.free[p]);
    assert PageAddr(v2.refs[p]) == PageAddr(r) && BlockType(v2.refs[p]) == BlockType(r);
    hide FreeListIs;
    assert PageOk(v2.refs[p], v2.mem, v2.free[p]);
    hide PageOk;
    forall q | q in v2.all ensures q in v2.refs && q in v2.free && PageOk(v2.refs[q], v2.mem, v2.free[q]) {}
  }

  lemma TakeLive(v: View, v2: View, p: nat, size: nat)
    requires PagesOk(v) && LiveOk(v) && Takes(v, v2, p, size) && Addr(v, p, v.free[p][0]) !in v.live
    ensures LiveOk(v2)
  {
    HeadBlock(v, p);
    hide PagesOk, LiveAt, NonFree, BlockLive, Takes, IsBlock, PageAddr, Addr, BlockType;
    forall a | a in v2.live ensures LiveAt(v2, a, v2.live[a]) { TakeAt(v, v2, p, size, a); }
    forall q, x: nat | q in v2.all && NonFree(v2, q, x) ensures BlockLive(v2, q, x) { TakeBack(v, v2, p, size, q, x); }
  }

  lemma TakeNonFree(v: View, v2: View, p: nat, size: nat, q: nat, x: nat)
    requires Takes(v, v2, p, size) && Chains.NoDup(v.free[p])
    requires IsBlock(SIZES[BlockType(v.refs[p])], v.free[p][0])
    ensures NonFree(v2, q, x) <==> NonFree(v, q, x) || (q == p && x == v.free[p][0])
  {
    assert v.free[p] == [v.free[p][0]] + v.free[p][1..];
    PabParts(v, v2, q);
    hide IsBlock, PageAddr, BlockType;
  }

  lemma TakeAt(v: View, v2: View, p: nat, size: nat, a: nat)
    requires LiveOk(v) && Takes(v, v2, p, size) && Chains.NoDup(v.free[p]) && a in v2.live
    requires IsBlock(SIZES[BlockType(v.refs[p])], v.free[p][0])
    ensures LiveAt(v2, a, v2.live[a])
  {
    hide IsBlock, PageAddr, BlockType, LiveAt, NonFree, Addr, BlockLive;
    var q := v2.live[a].ref;
    assert SamePabs(v, v2) && v2.all == v.all;
    PabParts(v, v2, q);
    if a != Addr(v, p, v.free[p][0]) {
      assert LiveAt(v, a, v.live[a]) && v2.live[a] == v.live[a];
      hide Takes, LiveOk;
      StillAt(v, v2, p, size, a, v.live[a]);
    } else {
      assert v2.live[a] == Block(p, size);
      AddrIs(v, p, v.free[p][0]);
      TakeNonFree(v, v2, p, size, p, v.free[p][0]);
      NewAt(v2, p, a, size);
    }
  }

  lemma StillAt(v: View, v2: View, p: nat, size: nat, a: nat, b: Block)
    requires Takes(v, v2, p, size) && Chains.NoDup(v.free[p]) && LiveAt(v, a, b)
    requires IsBlock(SIZES[BlockType(v.refs[p])], v.free[p][0])
    ensures LiveAt(v2, a, b)
  {
    hide IsBlock, PageAddr, BlockType, NonFree;
    assert SamePabs(v, v2) && v2.all == v.all;
    hide Takes;
    PabParts(v, v2, b.ref);
    TakeNonFree(v, v2, p, size, b.ref, a - PageAddr(v.refs[b.ref]));
  }

  lemma NewAt(v: View, p: nat, a: nat, size: nat)
    requires p in v.all && p in v.refs && a >= PageAddr(v.refs[p]) && NonFree(v, p, a - PageAddr(v.refs[p]))
    requires BlockType(v.refs[p]) < NSIZES && size <= SIZES[BlockType(v.refs[p])]
    ensures LiveAt(v, a, Block(p, size))
  {
    hide PageAddr, BlockType;
  }

  lemma TakeBack(v: View, v2: View, p: nat, size: nat, q: nat, x: nat)
    requires LiveOk(v) && Takes(v, v2, p, size) && Chains.NoDup(v.free[p]) && q in v2.all && NonFree(v2, q, x)
    requires IsBlock(SIZES[BlockType(v.refs[p])], v.free[p][0]) && Addr(v, p, v.free[p][0]) !in v.live
    ensures BlockLive(v2, q, x)
  {
    hide PageAddr, BlockType, IsBlock;
    TakeNonFree(v, v2, p, size, q, x);
    PabParts(v, v2, q);
    assert NonFree(v, q, x) ==> BlockLive(v, q, x) by { hide NonFree; }
    assert SamePabs(v, v2) && v2.live == v.live[Addr(v, p, v.free[p][0]) := Block(p, size)];
    hide LiveOk, NonFree, Takes;
    if NonFree(v, q, x) {
      StillLive(v, v2, q, x, Addr(v, p, v.free[p][0]), p, size);
    }
  }

  lemma StillLive(v: View, v2: View, q: nat, x: nat, a: nat, p: nat, size: nat)
    requires SamePabs(v, v2) && BlockLive(v, q, x) && a !in v.live && v2.live == v.live[a := Block(p, size)]
    ensures BlockLive(v2, q, x)
  {
    PabParts(v, v2, q);
    hide PageAddr;
  }

  ghost predicate SamePabs(v: View, v2: View)
  {
    v2.refs.Keys == v.refs.Keys && forall q :: q in v.refs ==> v2.refs[q].pab == v.refs[q].pab
  }

  lemma PabParts(v: View, v2: View, q: nat)
    requires SamePabs(v, v2)
    ensures q in v2.refs <==> q in v.refs
    ensures q in v.refs ==> PageAddr(v2.refs[q]) == PageAddr(v.refs[q]) && BlockType(v2.refs[q]) == BlockType(v.refs[q])
  {
  }

  lemma HeadBlock(v: View, p: nat)
    requires PagesOk(v) && p in v.all && p in v.free && v.free[p] != []
    ensures p in v.refs && BlockType(v.refs[p]) < NSIZES && IsBlock(SIZES[BlockType(v.refs[p])], v.free[p][0])
    ensures Chains.NoDup(v.free[p])
  {
    assert PageOk(v.refs[p], v.mem, v.free[p]);
  }

  // ---- Giving a block back ----

  /** The block at offset `o` of p's page goes to the head of the page's free list. */
  ghost predicate Puts(v: View, v2: View, p: nat, o: nat)
  {
    && p in v.all && p in v.refs && p in v.free && NonFree(v, p, o) && o < PAGE_SIZE
    && PageAddr(v.refs[p]) in v.mem && |v.mem[PageAddr(v.refs[p])]| == WORDS_PER_PAGE
    && (var r := v.refs[p];
        var link: nat := if r.freelistOffset == INVALID_OFFSET then 0 else PageAddr(r) + r.freelistOffset;
        v2 == v.(refs := v.refs[p := r.(nfree := r.nfree + 1, freelistOffset := o)],
                 mem := v.mem[PageAddr(r) := Store(v.mem[PageAddr(r)], o / 4, link)],
                 free := v.free[p := [o] + v.free[p]],
                 live := v.live - {Addr(v, p, o)}))
  }

  lemma PutKeeps(v: View, v2: View, p: nat, o: nat)
    requires Core(v) && Puts(v, v2, p, o)
    ensures Core(v2)
  {
    hide ListsOk, SpaceOk, SlotsOk, PagesOk, LiveOk, PageAddr, BlockType, NonFree, IsBlock;
    assert OnlyPage(v, v2, p);
    hide Puts, OnlyPage;
    PutPages(v, v2, p, o);
    PutLive(v, v2, p, o);
    SameLists(v, v2, p);
  }

  lemma PutPages(v: View, v2: View, p: nat, o: nat)
    requires PagesOk(v) && Puts(v, v2, p, o)
    ensures PagesOk(v2)
  {
    hide FreeListIs, PageAddr, BlockType, IsBlock, PageOk;
    assert SamePabs(v, v2);
    PutPage(v, v2, p, o);
    forall q | q in v2.all ensures q in v2.refs && q in v2.free && PageOk(v2.refs[q], v2.mem, v2.free[q]) {
      if q != p {
        assert PageOk(v.refs[q], v.mem, v.free[q]) && PageAddr(v.refs[q]) != PageAddr(v.refs[p]);
        OtherWords(v.refs[q], v.mem, v2.mem, v.free[q]);
      }
    }
    forall q, q' | q in v2.all && q' in v2.all && q != q' ensures PageAddr(v2.refs[q]) != PageAddr(v2.refs[q']) {
      PabParts(v, v2, q);
      PabParts(v, v2, q');
    }
  }

  lemma OtherWords(r: PageRef, mem: map<nat, seq<nat>>, mem2: map<nat, seq<nat>>, free: seq<nat>)
    requires PageOk(r, mem, free)
    requires PageAddr(r) in mem ==> PageAddr(r) in mem2 && mem2[PageAddr(r)] == mem[PageAddr(r)]
    ensures PageOk(r, mem2, free)
  {
  }

  lemma PutPage(v: View, v2: View, p: nat, o: nat)
    requires PagesOk(v) && Puts(v, v2, p, o)
    ensures p in v2.refs && p in v2.free && PageOk(v2.refs[p], v2.mem, v2.free[p])
  {
    hide FreeListIs, IsBlock;
    var r := v.refs[p];
    PabParts(v, v2, p);
    assert PageOk(r, v.mem, v.free[p]);
    hide PagesOk, PageAddr, BlockType;
    SizesDivide(BlockType(r));
    Push(PageAddr(r), SIZES[BlockType(r)], v.mem[PageAddr(r)], r.freelistOffset, v.free[p], o);
  }

  lemma PutNonFree(v: View, v2: View, p: nat, o: nat, q: nat, x: nat)
    requires Puts(v, v2, p, o)
    ensures NonFree(v2, q, x) <==> NonFree(v, q, x) && !(q == p && x == o)
  {
    hide IsBlock, PageAddr;
    PabParts(v, v2, q);
    hide BlockType;
  }

  lemma PutLive(v: View, v2: View, p: nat, o: nat)
    requires PagesOk(v) && LiveOk(v) && Puts(v, v2, p, o)
    ensures LiveOk(v2)
  {
    hide PagesOk, LiveAt, NonFree, BlockLive, Puts, IsBlock, PageAddr, Addr, BlockType;
    forall a | a in v2.live ensures LiveAt(v2, a, v2.live[a]) { PutAt(v, v2, p, o, a); }
    forall q, x: nat | q in v2.all && NonFree(v2, q, x) ensures BlockLive(v2, q, x) { PutBack(v, v2, p, o, q, x); }
  }

  lemma PutAt(v: View, v2: View, p: nat, o: nat, a: nat)
    requires LiveOk(v) && Puts(v, v2, p, o) && a in v2.live
    ensures LiveAt(v2, a, v2.live[a])
  {
    hide IsBlock, PageAddr, BlockType, NonFree, BlockLive, Addr;
    assert SamePabs(v, v2) && v2.all == v.all && a != Addr(v, p, o) && a in v.live && v2.live[a] == v.live[a];
    AddrIs(v, p, o);
    hide Puts;
    var b := v.live[a];
    assert LiveAt(v, a, b);
    hide LiveOk;
    PabParts(v, v2, b.ref);
    PutNonFree(v, v2, p, o, b.ref, a - PageAddr(v.refs[b.ref]));
  }

  lemma PutBack(v: View, v2: View, p: nat, o: nat, q: nat, x: nat)
    requires LiveOk(v) && Puts(v, v2, p, o) && q in v2.all && NonFree(v2, q, x)
    ensures BlockLive(v2, q, x)
  {
    hide PageAddr, BlockType, IsBlock, Addr;
    PutNonFree(v, v2, p, o, q, x);
    assert BlockLive(v, q, x) && BlockLive(v, p, o) by { hide NonFree, BlockLive, LiveAt; assert NonFree(v, q, x); }
    assert SamePabs(v, v2) && v2.live == v.live - {Addr(v, p, o)};
    hide Puts, LiveOk, NonFree;
    PabParts(v, v2, q);
    AddrIs(v, p, o);
    AddrIs(v, q, x);
    AddrIs(v2, q, x);
  }

  // ---- Taking a page off the lists ----

  /** Page p, all of whose blocks are free, leaves both lists and its slot's bit is cleared. */
  ghost predicate Removes(v: View, v2: View, p: nat, t: nat)
  {
    && v2 == v.(nextAll := v2.nextAll, nextSame := v2.nextSame, allbase := v2.allbase, sizebases := v2.sizebases,
                all := v2.all, same := v2.same, roots := v2.roots)
    && p in v.all && p in v.refs
    && BlockType(v.refs[p]) == t < NSIZES == |v.same| == |v2.same| == |v.sizebases| == |v2.sizebases|
    && Chains.Chain(v2.nextAll, v2.allbase, v2.all) && (forall q :: q in v2.all <==> q in v.all && q != p)
    && Chains.Chain(v2.nextSame, v2.sizebases[t], v2.same[t])
    && (forall q :: q in v2.same[t] <==> q in v.same[t] && q != p)
    && (forall u :: 0 <= u < NSIZES && u != t ==> v2.same[u] == v.same[u] && v2.sizebases[u] == v.sizebases[u])
    && v2.nextSame.Keys == v.nextSame.Keys
    && (forall q :: q in v.nextSame && q !in v.same[t] ==> v2.nextSame[q] == v.nextSame[q])
  }

  ghost predicate ClearsSlot(v: View, v2: View, x: P.Slot)
  {
    && P.PoolOk(v.roots) && P.PoolOk(v2.roots) && IsSlot(x)
    && v2.roots == v.roots[x.root := v2.roots[x.root]] && v2.roots[x.root].page == v.roots[x.root].page
    && P.Used(v2.roots[x.root]) == P.Used(v.roots[x.root]) - {x.index}
  }

  lemma RemoveKeeps(v: View, v2: View, p: nat, t: nat)
    requires Core(v) && Removes(v, v2, p, t) && p in v.slots && ClearsSlot(v, v2, v.slots[p])
    requires forall o: nat :: !NonFree(v, p, o)
    ensures Core(v2)
  {
    hide ListsOk, PagesOk, LiveOk, SpaceOk, SlotsOk, Removes, ClearsSlot, NonFree;
    RemoveLists(v, v2, p, t);
    RemovePages(v, v2, p, t);
    RemoveLive(v, v2, p, t);
    RemoveSpace(v, v2, p, t);
    RemoveSlot(v, v2, p, t);
  }

  lemma RemoveLists(v: View, v2: View, p: nat, t: nat)
    requires ListsOk(v) && Removes(v, v2, p, t)
    ensures ListsOk(v2)
  {
    hide Chains.Chain, BlockType;
    forall u | 0 <= u < NSIZES ensures Chains.Chain(v2.nextSame, v2.sizebases[u], v2.same[u]) {
      if u != t {
        forall q | q in v.same[u] ensures q !in v.same[t] {
          assert BlockType(v.refs[q]) == u;
        }
        Chains.Agree(v.nextSame, v2.nextSame, v.sizebases[u], v.same[u]);
      }
    }
    forall u, q | 0 <= u < NSIZES
      ensures q in v2.same[u] <==> q in v2.all && q in v2.refs && BlockType(v2.refs[q]) == u
    {
      assert q in v.same[u] <==> q in v.all && q in v.refs && BlockType(v.refs[q]) == u;
    }
  }

  lemma RemovePages(v: View, v2: View, p: nat, t: nat)
    requires PagesOk(v) && Removes(v, v2, p, t)
    ensures PagesOk(v2)
  {
    hide Chains.Chain, BlockType, PageAddr, PageOk;
  }

  lemma RemoveSpace(v: View, v2: View, p: nat, t: nat)
    requires SpaceOk(v) && Removes(v, v2, p, t) && p in v.slots && ClearsSlot(v, v2, v.slots[p])
    ensures SpaceOk(v2)
  {
    hide Chains.Chain, BlockType, PageAddr, Outside;
    assert |v2.roots| == |v.roots|;
    assert forall w :: 0 <= w < |v2.roots| ==> v2.roots[w].page == v.roots[w].page;
  }

  lemma RemoveLive(v: View, v2: View, p: nat, t: nat)
    requires LiveOk(v) && Removes(v, v2, p, t) && forall o: nat :: !NonFree(v, p, o)
    ensures LiveOk(v2)
  {
    hide Chains.Chain, BlockType, PageAddr, Addr, IsBlock, LiveAt, NonFree, BlockLive;
    assert Fewer(v, v2, p);
    hide Removes;
    forall a | a in v2.live ensures LiveAt(v2, a, v2.live[a]) { FewerAt(v, v2, p, a); }
    forall q, x: nat | q in v2.all && NonFree(v2, q, x) ensures BlockLive(v2, q, x) { FewerBack(v, v2, p, q, x); }
  }

  ghost predicate Fewer(v: View, v2: View, p: nat)
  {
    && v2.refs == v.refs && v2.free == v.free && v2.live == v.live
    && v2.slots == v.slots && v2.reserved == v.reserved
    && forall q :: q in v2.all <==> q in v.all && q != p
  }

  lemma FewerAt(v: View, v2: View, p: nat, a: nat)
    requires LiveOk(v) && Fewer(v, v2, p) && a in v2.live && forall o: nat :: !NonFree(v, p, o)
    ensures LiveAt(v2, a, v2.live[a])
  {
    hide PageAddr, IsBlock, BlockLive, BlockType;
    assert LiveAt(v, a, v.live[a]);
  }

  lemma FewerBack(v: View, v2: View, p: nat, q: nat, x: nat)
    requires LiveOk(v) && Fewer(v, v2, p) && q in v2.all && NonFree(v2, q, x)
    ensures BlockLive(v2, q, x)
  {
    hide PageAddr, IsBlock, LiveAt;
    assert NonFree(v, q, x);
    assert BlockLive(v, q, x);
  }

  lemma RemoveSlot(v: View, v2: View, p: nat, t: nat)
    requires SlotsOk(v) && Removes(v, v2, p, t) && p in v.slots && ClearsSlot(v, v2, v.slots[p])
    ensures SlotsOk(v2)
  {
    var x := v.slots[p];
    assert Fewer(v, v2, p) && p in v.all by { hide Chains.Chain, BlockType, SlotsOk; }
    assert SlotOf(v, p, x) && x !in v.reserved && P.PoolOk(v.roots) && P.PoolOk(v2.roots);
    hide Removes, ClearsSlot, SlotOf, Listed, P.InUse, P.RefAddr, P.RootOk;
    forall w, s | 0 <= w < P.NUM_PAGEREFPAGES && 0 <= s < P.NPAGEREFS_PER_PAGE
      ensures P.InUse(v2.roots[w], s) <==> P.Slot(w, s) in v2.reserved || Listed(v2, w, s)
    {
      RemoveSlotBit(v, v2, p, x, w, s);
    }
    forall q | q in v2.all ensures q in v2.slots && SlotOf(v2, q, v2.slots[q]) && v2.slots[q] !in v2.reserved {
      SlotOfStays(v, v2, x, q, v.slots[q]);
    }
  }

  lemma SlotOfStays(v: View, v2: View, x: P.Slot, q: nat, y: P.Slot)
    requires ClearsSlot(v, v2, x) && SlotOf(v, q, y)
    ensures SlotOf(v2, q, y)
  {
    hide P.RootOk, P.Used;
  }

  lemma RemoveSlotBit(v: View, v2: View, p: nat, x: P.Slot, w: nat, s: nat)
    requires SlotsOk(v) && Fewer(v, v2, p) && ClearsSlot(v, v2, x) && SlotOf(v, p, x) && x !in v.reserved
    requires w < P.NUM_PAGEREFPAGES && s < P.NPAGEREFS_PER_PAGE
    ensures P.InUse(v2.roots[w], s) <==> P.Slot(w, s) in v2.reserved || Listed(v2, w, s)
  {
    assert IsSlot(x) && P.PoolOk(v2.roots);
    hide P.InUse, SlotOf, ClearsSlot, P.RootOk;
    assert P.InUse(v.roots[w], s) <==> P.Slot(w, s) in v.reserved || Listed(v, w, s);
    hide SlotsOk;
    ClearedBit(v, v2, x, w, s);
    SlotIsOwn(v, p, x, w, s);
    assert P.RefAddr(v2.roots, w, s) == P.RefAddr(v.roots, w, s);
  }

  lemma ClearedBit(v: View, v2: View, x: P.Slot, w: nat, s: nat)
    requires ClearsSlot(v, v2, x) && w < P.NUM_PAGEREFPAGES && s < P.NPAGEREFS_PER_PAGE
    ensures v2.roots[w].page == v.roots[w].page
    ensures P.InUse(v2.roots[w], s) <==> P.InUse(v.roots[w], s) && !(w == x.root && s == x.index)
  {
    hide P.InUse;
    assert P.InUse(v.roots[w], s) <==> s in P.Used(v.roots[w]);
    assert P.InUse(v2.roots[w], s) <==> s in P.Used(v2.roots[w]);
  }

  /** Different slots have different addresses. */
  lemma SlotIsOwn(v: View, p: nat, x: P.Slot, w: nat, s: nat)
    requires P.PoolOk(v.roots) && SlotOf(v, p, x) && w < P.NUM_PAGEREFPAGES && s < P.NPAGEREFS_PER_PAGE
    ensures v.roots[w].page != 0 ==> (P.RefAddr(v.roots, w, s) == p <==> w == x.root && s == x.index)
  {
    if v.roots[w].page != 0 {
      P.SlotNumber(v.roots, w, s, x.root);
      P.SlotNumber(v.roots, x.root, x.index, x.root);
    }
  }

  // ---- Adding a page ----

  /** A page that nothing in the heap overlaps, as the page allocator hands out. */
  ghost predicate FreshPage(v: View, va: nat)
  {
    && 0 < va && va % PAGE_SIZE == 0 && va + PAGE_SIZE <= WORD
    && (forall p :: p in v.all && p in v.refs ==> PageAddr(v.refs[p]) != va)
    && (forall b :: b in v.big ==> Outside(b, v.big[b], va))
    && (forall w :: 0 <= w < |v.roots| ==> v.roots[w].page != va)
  }

  /** Slot x's reference p takes on the carved page at `va` and goes to the front of both lists. */
  ghost predicate Installs(v: View, v2: View, x: P.Slot, p: nat, va: nat, t: nat)
  {
    && |v.sizebases| == |v.same| == NSIZES && t < NSIZES && p in v2.refs && p in v2.free && va in v2.mem
    && v2.refs[p].pab == MkPab(va, t) && v2.refs[p].nfree == |v2.free[p]|
    && FreeListIs(va, SIZES[t], v2.mem[va], v2.refs[p].freelistOffset, v2.free[p])
    && (forall o: nat :: IsBlock(SIZES[t], o) ==> o in v2.free[p])
    && v2 == v.(refs := v.refs[p := v2.refs[p]], mem := v.mem[va := v2.mem[va]], free := v.free[p := v2.free[p]],
                nextAll := v.nextAll[p := v.allbase], allbase := p, all := [p] + v.all,
                nextSame := v.nextSame[p := v.sizebases[t]], sizebases := v.sizebases[t := p],
                same := v.same[t := [p] + v.same[t]],
                slots := v.slots[p := x], reserved := v.reserved - {x})
  }

  lemma PackParts(va: nat, t: nat, head: nat, n: nat)
    requires va % PAGE_SIZE == 0 && t < PAGE_SIZE
    ensures PageAddr(PageRef(MkPab(va, t), head, n)) == va && BlockType(PageRef(MkPab(va, t), head, n)) == t
  {
  }

  /** A reserved slot's reference is not on the lists. */
  lemma ReservedNotListed(v: View, x: P.Slot)
    requires SlotsOk(v) && x in v.reserved && v.roots[x.root].page != 0
    ensures P.RefAddr(v.roots, x.root, x.index) !in v.all && P.RefAddr(v.roots, x.root, x.index) != 0
  {
    var p := P.RefAddr(v.roots, x.root, x.index);
    if p in v.all {
      SlotIsOwn(v, p, v.slots[p], x.root, x.index);
    }
  }

  lemma InstallKeeps(v: View, v2: View, x: P.Slot, p: nat, va: nat, t: nat)
    requires Core(v) && FreshPage(v, va) && x in v.reserved && IsSlot(x) && v.roots[x.root].page != 0
    requires p == P.RefAddr(v.roots, x.root, x.index) && Installs(v, v2, x, p, va, t)
    ensures Core(v2) && p !in v.all
  {
    hide ListsOk, PagesOk, LiveOk, SpaceOk, Installs, FreshPage;
    ReservedNotListed(v, x);
    hide SlotsOk;
    assert PageAddr(v2.refs[p]) == va && BlockType(v2.refs[p]) == t by { InstalledParts(v, v2, x, p, va, t); }
    hide PageAddr, BlockType, P.RefAddr;
    InstallLists(v, v2, x, p, va, t);
    InstallPages(v, v2, x, p, va, t);
    InstallLive(v, v2, x, p, va, t);
    InstallSpace(v, v2, x, p, va, t);
    InstallSlot(v, v2, x, p, va, t);
  }

  lemma InstalledParts(v: View, v2: View, x: P.Slot, p: nat, va: nat, t: nat)
    requires FreshPage(v, va) && Installs(v, v2, x, p, va, t)
    ensures t < NSIZES && p in v2.refs && PageAddr(v2.refs[p]) == va && BlockType(v2.refs[p]) == t
  {
    hide FreeListIs, IsBlock, PageAddr, BlockType, MkPab;
    PackParts(va, t, v2.refs[p].freelistOffset, v2.refs[p].nfree);
  }

  lemma InstallLists(v: View, v2: View, x: P.Slot, p: nat, va: nat, t: nat)
    requires ListsOk(v) && Installs(v, v2, x, p, va, t) && p !in v.all && p != 0 && BlockType(v2.refs[p]) == t
    ensures ListsOk(v2)
  {
    hide FreeListIs, IsBlock, BlockType, MkPab, Chains.Chain;
    forall u ensures 0 <= u < NSIZES ==> p !in v.same[u] {}
    Chains.Prepend(v.nextAll, v.allbase, v.all, p);
    forall u | 0 <= u < NSIZES ensures Chains.Chain(v2.nextSame, v2.sizebases[u], v2.same[u]) {
      if u == t {
        Chains.Prepend(v.nextSame, v.sizebases[t], v.same[t], p);
      } else {
        Chains.Elsewhere(v.nextSame, v.sizebases[u], v.same[u], p, v.sizebases[t]);
      }
    }
    forall u, q | 0 <= u < NSIZES
      ensures q in v2.same[u] <==> q in v2.all && q in v2.refs && BlockType(v2.refs[q]) == u
    {
      assert q in v.same[u] <==> q in v.all && q in v.refs && BlockType(v.refs[q]) == u;
    }
  }

  lemma InstallPages(v: View, v2: View, x: P.Slot, p: nat, va: nat, t: nat)
    requires PagesOk(v) && Installs(v, v2, x, p, va, t) && p !in v.all && FreshPage(v, va)
    requires PageAddr(v2.refs[p]) == va && BlockType(v2.refs[p]) == t
    ensures PagesOk(v2)
  {
    hide FreeListIs, IsBlock, BlockType, MkPab, PageAddr;
    assert PageOk(v2.refs[p], v2.mem, v2.free[p]);
    hide PageOk;
    forall q | q in v2.all ensures q in v2.refs && q in v2.free && PageOk(v2.refs[q], v2.mem, v2.free[q]) {
      if q != p {
        assert q in v.all && PageOk(v.refs[q], v.mem, v.free[q]) && PageAddr(v.refs[q]) != va;
        OtherWords(v.refs[q], v.mem, v2.mem, v.free[q]);
      }
    }
  }

  lemma InstallLive(v: View, v2: View, x: P.Slot, p: nat, va: nat, t: nat)
    requires LiveOk(v) && Installs(v, v2, x, p, va, t) && p !in v.all && BlockType(v2.refs[p]) == t
    ensures LiveOk(v2)
  {
    hide FreeListIs, BlockType, MkPab, PageAddr, IsBlock, LiveAt, BlockLive, Addr;
    assert forall o: nat :: !NonFree(v2, p, o);
    assert More(v, v2, p);
    hide Installs, NonFree;
    forall a | a in v2.live ensures LiveAt(v2, a, v2.live[a]) { MoreAt(v, v2, p, a); }
    forall q, o: nat | q in v2.all && NonFree(v2, q, o) ensures BlockLive(v2, q, o) { MoreBack(v, v2, p, q, o); }
  }

  ghost predicate More(v: View, v2: View, p: nat)
  {
    && v2.live == v.live && (forall q :: q in v2.all <==> q in v.all || q == p)
    && (forall q :: q != p ==> (q in v2.refs <==> q in v.refs) && (q in v2.free <==> q in v.free))
    && (forall q :: q != p && q in v.refs ==> v2.refs[q] == v.refs[q])
    && (forall q :: q != p && q in v.free ==> v2.free[q] == v.free[q])
  }

  lemma MoreAt(v: View, v2: View, p: nat, a: nat)
    requires LiveOk(v) && More(v, v2, p) && a in v2.live && p !in v.all
    ensures LiveAt(v2, a, v2.live[a])
  {
    hide PageAddr, IsBlock, BlockLive, BlockType;
    assert LiveAt(v, a, v.live[a]);
    hide LiveOk;
  }

  lemma MoreBack(v: View, v2: View, p: nat, q: nat, x: nat)
    requires LiveOk(v) && More(v, v2, p) && q in v2.all && NonFree(v2, q, x) && !NonFree(v2, p, x)
    ensures BlockLive(v2, q, x)
  {
    hide PageAddr, IsBlock, LiveAt, BlockType;
    assert NonFree(v, q, x);
    assert BlockLive(v, q, x);
    hide LiveOk;
    AddrIs(v, q, x);
    AddrIs(v2, q, x);
  }

  lemma InstallSpace(v: View, v2: View, x: P.Slot, p: nat, va: nat, t: nat)
    requires SpaceOk(v) && Installs(v, v2, x, p, va, t) && FreshPage(v, va) && PageAddr(v2.refs[p]) == va
    ensures SpaceOk(v2)
  {
    hide FreeListIs, IsBlock, BlockType, MkPab, PageAddr, Outside;
  }

  lemma InstallSlot(v: View, v2: View, x: P.Slot, p: nat, va: nat, t: nat)
    requires SlotsOk(v) && Installs(v, v2, x, p, va, t) && p !in v.all && x in v.reserved && IsSlot(x)
    requires v.roots[x.root].page != 0 && p == P.RefAddr(v.roots, x.root, x.index)
    ensures SlotsOk(v2)
  {
    assert v2.roots == v.roots && v2.all == [p] + v.all && v2.slots == v.slots[p := x]
        && v2.reserved == v.reserved - {x};
    hide Installs, P.InUse, P.RefAddr;
    assert SlotOf(v, p, x);
    forall w, s | 0 <= w < P.NUM_PAGEREFPAGES && 0 <= s < P.NPAGEREFS_PER_PAGE
      ensures P.InUse(v2.roots[w], s) <==> P.Slot(w, s) in v2.reserved || Listed(v2, w, s)
    {
      assert P.InUse(v.roots[w], s) <==> P.Slot(w, s) in v.reserved || Listed(v, w, s);
      hide SlotsOk;
      SlotIsOwn(v, p, x, w, s);
    }
    forall q | q in v2.all ensures q in v2.slots && SlotOf(v2, q, v2.slots[q]) && v2.slots[q] !in v2.reserved {
      if q != p { assert SlotOf(v, q, v.slots[q]); }
    }
  }

  // ---- Slots and whole pages ----

  /** Nothing about blocks, pages or lists depends on the pool or on whole-page allocations. */
  lemma BlocksFrame(v: View, v2: View)
    requires ListsOk(v) && PagesOk(v) && LiveOk(v)
    requires v2 == v.(roots := v2.roots, reserved := v2.reserved, slots := v2.slots, big := v2.big)
    ensures ListsOk(v2) && PagesOk(v2) && LiveOk(v2)
  {
    hide Chains.Chain, BlockType, PageAddr, PageOk, IsBlock, LiveOk;
    SameLive(v, v2);
  }

  lemma SameLive(v: View, v2: View)
    requires LiveOk(v) && v2.refs == v.refs && v2.free == v.free && v2.all == v.all && v2.live == v.live
    ensures LiveOk(v2)
  {
    hide BlockType, PageAddr, IsBlock;
    forall a | a in v2.live ensures LiveAt(v2, a, v2.live[a]) {
      assert LiveAt(v, a, v.live[a]);
    }
    forall p, o: nat | p in v2.all && NonFree(v2, p, o) ensures BlockLive(v2, p, o) {
      assert NonFree(v, p, o);
      assert BlockLive(v, p, o);
    }
  }

  /** A clear bit is set and its slot reserved. */
  lemma ReserveKeeps(v: View, v2: View, x: P.Slot)
    requires Core(v) && IsSlot(x) && v2 == v.(roots := v2.roots, reserved := v.reserved + {x})
    requires P.PoolOk(v2.roots) && !P.InUse(v.roots[x.root], x.index)
    requires v2.roots == v.roots[x.root := v2.roots[x.root]] && v2.roots[x.root].page == v.roots[x.root].page
    requires P.Used(v2.roots[x.root]) == P.Used(v.roots[x.root]) + {x.index}
    ensures Core(v2) && x !in v.reserved
  {
    hide ListsOk, PagesOk, LiveOk, P.InUse;
    BlocksFrame(v, v2);
    assert P.InUse(v.roots[x.root], x.index) <==> P.Slot(x.root, x.index) in v.reserved || Listed(v, x.root, x.index);
    assert SpaceOk(v2) by { SpaceFrame(v, v2); }
    hide SpaceOk;
    forall w, s | 0 <= w < P.NUM_PAGEREFPAGES && 0 <= s < P.NPAGEREFS_PER_PAGE
      ensures P.InUse(v2.roots[w], s) <==> P.Slot(w, s) in v2.reserved || Listed(v2, w, s)
    {
      assert P.InUse(v.roots[w], s) <==> s in P.Used(v.roots[w]);
      assert P.InUse(v2.roots[w], s) <==> s in P.Used(v2.roots[w]);
      assert P.InUse(v.roots[w], s) <==> P.Slot(w, s) in v.reserved || Listed(v, w, s);
    }
    forall p | p in v2.all ensures p in v2.slots && SlotOf(v2, p, v2.slots[p]) && v2.slots[p] !in v2.reserved {
      assert SlotOf(v, p, v.slots[p]);
    }
  }

  lemma SpaceFrame(v: View, v2: View)
    requires SpaceOk(v) && v2.refs == v.refs && v2.all == v.all && v2.big == v.big && |v2.roots| == |v.roots|
    requires forall w :: 0 <= w < |v.roots| ==> v2.roots[w].page == v.roots[w].page
    ensures SpaceOk(v2)
  {
    hide Outside, PageAddr;
  }

  /** A root without a page gets one: no reference on the lists lies on it. */
  lemma RootPageKeeps(v: View, v2: View, w: nat, va: nat)
    requires Core(v) && w < P.NUM_PAGEREFPAGES && v.roots[w].page == 0 && FreshPage(v, va)
    requires v2 == v.(roots := v.roots[w := v.roots[w].(page := va)]) && P.PoolOk(v2.roots)
    ensures Core(v2)
  {
    hide ListsOk, PagesOk, LiveOk, P.InUse;
    BlocksFrame(v, v2);
    assert SpaceOk(v2) by { hide SlotsOk, Outside, PageAddr; }
    hide SpaceOk, FreshPage;
    forall u, s | 0 <= u < P.NUM_PAGEREFPAGES && 0 <= s < P.NPAGEREFS_PER_PAGE
      ensures P.InUse(v2.roots[u], s) <==> P.Slot(u, s) in v2.reserved || Listed(v2, u, s)
    {
      RootPageBit(v, v2, w, va, u, s);
    }
    forall p | p in v2.all ensures p in v2.slots && SlotOf(v2, p, v2.slots[p]) && v2.slots[p] !in v2.reserved {
      assert SlotOf(v, p, v.slots[p]);
    }
  }

  lemma RootPageBit(v: View, v2: View, w: nat, va: nat, u: nat, s: nat)
    requires SlotsOk(v) && w < P.NUM_PAGEREFPAGES && v.roots[w].page == 0 && va != 0
    requires v2 == v.(roots := v.roots[w := v.roots[w].(page := va)]) && P.PoolOk(v2.roots)
    requires u < P.NUM_PAGEREFPAGES && s < P.NPAGEREFS_PER_PAGE
    ensures P.InUse(v2.roots[u], s) <==> P.Slot(u, s) in v2.reserved || Listed(v2, u, s)
  {
    assert P.InUse(v.roots[u], s) <==> P.Slot(u, s) in v.reserved || Listed(v, u, s);
    assert P.InUse(v2.roots[u], s) == P.InUse(v.roots[u], s);
    hide P.InUse, P.RootOk;
    if u == w {
      var p := P.RefAddr(v2.roots, u, s);
      if p in v.all {
        assert SlotOf(v, p, v.slots[p]);
        assert SlotOf(v2, p, v.slots[p]);
        SlotIsOwn(v2, p, v.slots[p], u, s);
      }
    } else {
      assert P.RefAddr(v2.roots, u, s) == P.RefAddr(v.roots, u, s);
    }
  }

  /** A whole-page allocation comes or goes. */
  lemma BigKeeps(v: View, v2: View, b: nat, n: nat)
    requires Core(v) && FreshPages(v, b, n) && v2 == v.(big := v.big[b := n])
    ensures Core(v2) && b !in v.big
  {
    hide ListsOk, PagesOk, LiveOk, SlotsOk, PageAddr;
    BlocksFrame(v, v2);
    SameSlots(v, v2);
  }

  lemma BigGone(v: View, v2: View, b: nat)
    requires Core(v) && b in v.big && v2 == v.(big := v.big - {b})
    ensures Core(v2)
  {
    hide ListsOk, PagesOk, LiveOk, SlotsOk, PageAddr, Outside;
    BlocksFrame(v, v2);
    SameSlots(v, v2);
  }

  /** `n` pages from `b` on that nothing in the heap overlaps. */
  ghost predicate FreshPages(v: View, b: nat, n: nat)
  {
    && 0 < b && b % PAGE_SIZE == 0 && n >= 1 && b + PAGE_SIZE * n <= WORD
    && (forall p :: p in v.all && p in v.refs ==> Outside(b, n, PageAddr(v.refs[p])))
    && (forall c :: c in v.big ==> Outside(b, n, c) && Outside(c, v.big[c], b))
    && (forall w :: 0 <= w < |v.roots| && v.roots[w].page != 0 ==> Outside(b, n, v.roots[w].page))
  }

  lemma OwnBlock(v: View, a: nat)
    requires LiveOk(v) && a in v.live
    ensures LiveAt(v, a, v.live[a])
  {
  }

  lemma StorePages(v: View, v2: View, p: nat, o: nat, k: nat, x: nat)
    requires PagesOk(v) && p in v.all && NonFree(v, p, o) && 4 * k < SIZES[BlockType(v.refs[p])]
    requires PageAddr(v.refs[p]) in v.mem && o / 4 + k < |v.mem[PageAddr(v.refs[p])]|
    requires var base := PageAddr(v.refs[p]);
             v2 == v.(mem := v.mem[base := Store(v.mem[base], o / 4 + k, x)])
    ensures PagesOk(v2)
  {
    var r := v.refs[p];
    assert PageOk(r, v.mem, v.free[p]);
    hide PageAddr, BlockType, IsBlock, FreeListIs;
    SizesDivide(BlockType(r));
    StoreOutside(PageAddr(r), SIZES[BlockType(r)], v.mem[PageAddr(r)], r.freelistOffset, v.free[p], o, k, x);
    assert PageOk(r, v2.mem, v.free[p]);
    hide PageOk;
    forall q | q in v2.all ensures PageOk(v2.refs[q], v2.mem, v2.free[q]) {
      if q != p { OtherWords(v.refs[q], v.mem, v2.mem, v.free[q]); }
    }
  }

  /** A client stores into word `k` of its own live block. */
  lemma StoreKeeps(v: View, v2: View, a: nat, k: nat, x: nat)
    requires Core(v) && a in v.live && v.live[a].ref in v.refs && BlockType(v.refs[v.live[a].ref]) < NSIZES
    requires 4 * k < SIZES[BlockType(v.refs[v.live[a].ref])]
    requires PageAddr(v.refs[v.live[a].ref]) in v.mem && |v.mem[PageAddr(v.refs[v.live[a].ref])]| == WORDS_PER_PAGE
    requires PageAddr(v.refs[v.live[a].ref]) <= a && (a - PageAddr(v.refs[v.live[a].ref])) / 4 + k < WORDS_PER_PAGE
    requires var base := PageAddr(v.refs[v.live[a].ref]);
             v2 == v.(mem := v.mem[base := Store(v.mem[base], (a - base) / 4 + k, x)])
    ensures Core(v2)
  {
    hide ListsOk, LiveOk, SlotsOk, SpaceOk, PagesOk, PageAddr, BlockType;
    var p := v.live[a].ref;
    OwnBlock(v, a);
    assert OnlyPage(v, v2, p);
    SameLists(v, v2, p);
    SameLive(v, v2);
    StorePages(v, v2, p, a - PageAddr(v.refs[p]), k, x);
  }
}
