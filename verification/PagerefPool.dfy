/** The pool of page references: up to sixteen pages of 256 slots, each with a bitmap of slots in use. */
module PagerefPool {
  import Chains

  const PAGE_SIZE := 4096
  const NUM_PAGEREFPAGES := 16
  const NPAGEREFS_PER_PAGE := 256
  const INUSE_WORDS := 8
  const REF_SIZE := 16
  const WORD := 0x1_0000_0000

  /** `page` is 0 for NULL; each in-use word is its 32 bits, low bit first. */
  datatype Root = Root(page: nat, inuse: seq<seq<bool>>, numinuse: nat)

  datatype Slot = NoSlot | Slot(root: nat, index: nat)

  predicate Shaped(r: Root) { |r.inuse| == INUSE_WORDS && forall i :: 0 <= i < INUSE_WORDS ==> |r.inuse[i]| == 32 }

  predicate InUse(r: Root, s: nat)
    requires Shaped(r) && s < NPAGEREFS_PER_PAGE
  {
    r.inuse[s / 32][s % 32]
  }

  ghost function Used(r: Root): set<nat>
    requires Shaped(r)
  {
    set s: nat | s < NPAGEREFS_PER_PAGE && InUse(r, s)
  }

  ghost predicate RootOk(r: Root)
  {
    Shaped(r) && r.numinuse == |Used(r)| && r.page % PAGE_SIZE == 0 && r.page < WORD
  }

  ghost predicate PoolOk(roots: seq<Root>)
  {
    && |roots| == NUM_PAGEREFPAGES
    && (forall w :: 0 <= w < |roots| ==> RootOk(roots[w]))
    && (forall v, w :: 0 <= v < w < |roots| && roots[v].page != 0 ==> roots[v].page != roots[w].page)
  }

  function RefAddr(roots: seq<Root>, w: nat, s: nat): nat
    requires w < |roots|
  {
    roots[w].page + REF_SIZE * s
  }

  function WithBit(r: Root, s: nat, b: bool): Root
    requires Shaped(r) && s < NPAGEREFS_PER_PAGE
  {
    r.(inuse := r.inuse[s / 32 := r.inuse[s / 32][s % 32 := b]])
  }

  predicate AllUsed(r: Root)
    requires Shaped(r)
  {
    forall s :: 0 <= s < NPAGEREFS_PER_PAGE ==> InUse(r, s)
  }

  /** A root has 256 slots in use exactly when every bit is set. */
  lemma FullIffAllUsed(r: Root)
    requires RootOk(r)
    ensures r.numinuse <= NPAGEREFS_PER_PAGE
    ensures r.numinuse == NPAGEREFS_PER_PAGE <==> AllUsed(r)
  {
    var n: nat :| n == NPAGEREFS_PER_PAGE;
    FullSize(Used(r), n);
    assert AllUsed(r) ==> forall s: nat :: s < n ==> s in Used(r);
    assert forall s: nat :: s in Used(r) ==> InUse(r, s);
  }

  lemma FullSize(u: set<nat>, n: nat)
    requires forall s :: s in u ==> s < n
    ensures |u| <= n
    ensures |u| == n <==> forall s: nat :: s < n ==> s in u
  {
    assert Chains.Below(n) >= u;
    Chains.SameSize(u, Chains.Below(n));
  }

  /** Setting a clear bit adds one slot; clearing a set bit takes exactly that one away. */
  lemma BitChange(r: Root, s: nat, b: bool)
    requires RootOk(r) && s < NPAGEREFS_PER_PAGE && InUse(r, s) != b
    ensures Shaped(WithBit(r, s, b))
    ensures Used(WithBit(r, s, b)) == if b then Used(r) + {s} else Used(r) - {s}
    ensures |Used(WithBit(r, s, b))| == if b then r.numinuse + 1 else r.numinuse - 1
    ensures !b ==> r.numinuse > 0
  {
    var q := WithBit(r, s, b);
    forall t | 0 <= t < NPAGEREFS_PER_PAGE ensures InUse(q, t) == if t == s then b else InUse(r, t) {
      assert t == 32 * (t / 32) + t % 32 && s == 32 * (s / 32) + s % 32;
    }
    assert Used(q) == if b then Used(r) + {s} else Used(r) - {s};
    assert !b ==> s in Used(r);
  }

  /** The first clear bit of a word that is not full. */
  method FirstClear(word: seq<bool>) returns (j: nat)
    requires |word| == 32 && exists k :: 0 <= k < 32 && !word[k]
    ensures j < 32 && !word[j] && forall k :: 0 <= k < j ==> word[k]
  {
    j := 0;
    while word[j]
      invariant j < 32 && forall k :: 0 <= k < j ==> word[k]
      decreases 32 - j
    {
      j := j + 1;
    }
  }

  predicate Full(word: seq<bool>) { forall k :: 0 <= k < |word| ==> word[k] }

  /** The first clear slot of a root that is not full: the search cannot fall through. */
  method FirstFree(r: Root) returns (s: nat)
    requires RootOk(r) && r.numinuse < NPAGEREFS_PER_PAGE
    ensures s < NPAGEREFS_PER_PAGE && !InUse(r, s) && forall t :: 0 <= t < s ==> InUse(r, t)
  {
    FullIffAllUsed(r);
    var i := 0;
    while i < INUSE_WORDS && Full(r.inuse[i])
      invariant i <= INUSE_WORDS
      invariant forall t :: 0 <= t < 32 * i ==> InUse(r, t)
    {
      i := i + 1;
    }
    var j := FirstClear(r.inuse[i]);
    s := i * 32 + j;
  }

  lemma BitTaken(r: Root, s: nat)
    requires RootOk(r) && s < NPAGEREFS_PER_PAGE && !InUse(r, s)
    ensures var q := WithBit(r, s, true).(numinuse := r.numinuse + 1);
            RootOk(q) && q.page == r.page && Used(q) == Used(r) + {s}
    ensures !AllUsed(r)
  {
    BitChange(r, s, true);
    assert Used(WithBit(r, s, true).(numinuse := r.numinuse + 1)) == Used(WithBit(r, s, true));
  }

  lemma RootsOk(roots: seq<Root>)
    requires PoolOk(roots)
    ensures forall w :: 0 <= w < |roots| ==> Shaped(roots[w])
  {
  }


  class Pool {
    var roots: seq<Root>

    constructor ()
      ensures PoolOk(roots)
      ensures forall w :: 0 <= w < |roots| ==> roots[w].page == 0 && Used(roots[w]) == {}
    {
      var none := Root(0, seq(INUSE_WORDS, _ => seq(32, _ => false)), 0);
      assert Used(none) == {};
      roots := seq(NUM_PAGEREFPAGES, _ => none);
    }

    /** Take the first free slot of the first root with one; nothing is free only when every bit of every root is
        set. The slot's page may still have to be found. */
    method Reserve() returns (slot: Slot)
      requires PoolOk(roots)
      modifies this
      ensures PoolOk(roots)
      ensures slot.NoSlot? ==> roots == old(roots)
      ensures slot.NoSlot? <==> forall w :: 0 <= w < |old(roots)| ==> AllUsed(old(roots)[w])
      ensures slot.Slot? ==>
                && slot.root < NUM_PAGEREFPAGES && slot.index < NPAGEREFS_PER_PAGE
                && !InUse(old(roots)[slot.root], slot.index)
                && (forall v :: 0 <= v < slot.root ==> AllUsed(old(roots)[v]))
                && roots == old(roots)[slot.root := roots[slot.root]]
                && roots[slot.root].page == old(roots)[slot.root].page
                && Used(roots[slot.root]) == Used(old(roots)[slot.root]) + {slot.index}
    {
      hide InUse, Used, AllUsed, WithBit, RootOk;
      RootsOk(roots);
      var w := 0;
      while w < NUM_PAGEREFPAGES && roots[w].numinuse >= NPAGEREFS_PER_PAGE
        invariant w <= NUM_PAGEREFPAGES && roots == old(roots)
        invariant forall v :: 0 <= v < w ==> AllUsed(roots[v])
      {
        FullIffAllUsed(roots[w]);
        w := w + 1;
      }
      if w == NUM_PAGEREFPAGES {
        return NoSlot;
      }
      var s := FirstFree(roots[w]);
      BitTaken(roots[w], s);
      roots := roots[w := WithBit(roots[w], s, true).(numinuse := roots[w].numinuse + 1)];
      slot := Slot(w, s);
    }

    /** The lock is retaken with the result of asking for a page of references (0 when there was none). Someone
        else may have supplied the root's page meanwhile, and then this one goes back. */
    method PageArrived(w: nat, va: nat) returns (usable: bool, giveBack: bool)
      requires PoolOk(roots) && w < NUM_PAGEREFPAGES && va % PAGE_SIZE == 0 && va < WORD
      requires va != 0 ==> forall v :: 0 <= v < |roots| ==> roots[v].page != va
      modifies this
      ensures PoolOk(roots)
      ensures usable <==> roots[w].page != 0
      ensures giveBack <==> va != 0 && old(roots)[w].page != 0
      ensures var page := if old(roots)[w].page != 0 then old(roots)[w].page else va;
              roots == old(roots)[w := old(roots)[w].(page := page)]
    {
      giveBack := va != 0 && roots[w].page != 0;
      if va != 0 && roots[w].page == 0 {
        roots := roots[w := roots[w].(page := va)];
        assert Used(roots[w]) == Used(old(roots)[w]);
      }
      usable := roots[w].page != 0;
    }

    /** Release the slot at address `p`. The scan passes over the lower roots first and stops the system on one
        that has slots in use but no page; that is the only way it fails. */
    method Free(p: nat, ghost w: nat, ghost s: nat) returns (ok: bool)
      requires PoolOk(roots) && w < NUM_PAGEREFPAGES && s < NPAGEREFS_PER_PAGE
      requires roots[w].page != 0 && InUse(roots[w], s) && p == RefAddr(roots, w, s)
      modifies this
      ensures ok <==> forall v :: 0 <= v < w && old(roots)[v].page == 0 ==> Used(old(roots)[v]) == {}
      ensures !ok ==> roots == old(roots)
      ensures ok ==> PoolOk(roots) && roots == old(roots)[w := roots[w]] && roots[w].page == old(roots)[w].page
      ensures ok ==> Used(roots[w]) == Used(old(roots)[w]) - {s}
    {
      var v := 0;
      while true
        invariant v <= w && roots == old(roots)
        invariant forall u :: 0 <= u < v && roots[u].page == 0 ==> Used(roots[u]) == {}
        decreases w - v
      {
        var page := roots[v].page;
        if page == 0 {
          if roots[v].numinuse != 0 {
            return false;
          }
        } else {
          SlotNumber(roots, w, s, v);
          var j := (p - page) / REF_SIZE % WORD;
          if j < NPAGEREFS_PER_PAGE {
            BitChange(roots[v], j, false);
            roots := roots[v := WithBit(roots[v], j, false).(numinuse := roots[v].numinuse - 1)];
            assert Used(roots[v]) == Used(WithBit(old(roots)[v], j, false));
            return true;
          }
        }
        v := v + 1;
      }
    }
  }

  /** The unsigned slot number computed against a root's page is in range for the owning root only. */
  lemma SlotNumber(roots: seq<Root>, w: nat, s: nat, v: nat)
    requires PoolOk(roots) && w < |roots| && s < NPAGEREFS_PER_PAGE && v < |roots|
    requires roots[w].page != 0 && roots[v].page != 0
    ensures var j := (RefAddr(roots, w, s) - roots[v].page) / REF_SIZE % WORD;
            (j < NPAGEREFS_PER_PAGE <==> v == w) && (v == w ==> j == s)
  {
    var a, b := roots[w].page / PAGE_SIZE, roots[v].page / PAGE_SIZE;
    assert roots[w].page == PAGE_SIZE * a && roots[v].page == PAGE_SIZE * b;
    assert v != w ==> a != b;
    assert RefAddr(roots, w, s) - roots[v].page == REF_SIZE * (NPAGEREFS_PER_PAGE * (a - b) + s);
    var j := NPAGEREFS_PER_PAGE * (a - b) + s;
    assert (RefAddr(roots, w, s) - roots[v].page) / REF_SIZE == j;
  }

  /** With a page for every root that has slots in use, releasing cannot stop the system; otherwise releasing any
      slot of a higher root does. */
  lemma ReleaseIsSafe(roots: seq<Root>, w: nat)
    requires PoolOk(roots) && w < |roots|
    ensures (forall v, s :: 0 <= v < w && 0 <= s < NPAGEREFS_PER_PAGE && InUse(roots[v], s) ==> roots[v].page != 0)
       <==> (forall v :: 0 <= v < w && roots[v].page == 0 ==> Used(roots[v]) == {})
  {
    forall v | 0 <= v < w && roots[v].page == 0 && Used(roots[v]) != {}
      ensures exists s :: 0 <= s < NPAGEREFS_PER_PAGE && InUse(roots[v], s)
    {
      var s :| s in Used(roots[v]);
      assert InUse(roots[v], s);
    }
    forall v, s | 0 <= v < w && 0 <= s < NPAGEREFS_PER_PAGE && InUse(roots[v], s) ensures s in Used(roots[v]) {
    }
  }
}
