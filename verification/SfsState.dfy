/** An SFS volume as a value: free map, disk, loaded inodes, and who owns each block; and why every change to it keeps
    each block in exactly one pair of hands. */
module SfsState {
  import opened SfsLayout

  datatype Owner =
    | Super | FreemapBlock(i: nat) | InodeBlock(ino: nat) | IndirectBlock(ino: nat) | DataBlock(ino: nat, k: nat)

  /** A loaded inode and whether it differs from its block on disk. */
  datatype Vnode = Vnode(inode: Inode, dirty: bool)

  datatype Fs = Fs(nblocks: nat, used: set<nat>, disk: seq<seq<nat>>, vnodes: map<nat, Vnode>,
                   inodes: set<nat>, owner: map<nat, Owner>)

  function FreemapBlocks(nblocks: nat): nat { (nblocks + BITSPERBLOCK - 1) / BITSPERBLOCK }

  /** The free map fills whole blocks. */
  function FreemapBits(nblocks: nat): nat { FreemapBlocks(nblocks) * BITSPERBLOCK }

  /** The map has a bit for every block, in as few blocks as will do. */
  lemma FreemapCovers(nblocks: nat)
    ensures nblocks <= FreemapBits(nblocks) < nblocks + BITSPERBLOCK
  {
  }

  ghost predicate Shape(s: Fs)
  {
    && |s.disk| == s.nblocks < WORD && (forall b :: 0 <= b < s.nblocks ==> IsBlock(s.disk[b]))
    && (forall i :: i in s.inodes ==> i < s.nblocks)
    && s.vnodes.Keys <= s.inodes
    && (forall i :: i in s.vnodes ==> InodeOk(s.vnodes[i].inode))
    && (forall i :: i in s.vnodes && !s.vnodes[i].dirty ==> s.vnodes[i].inode == Decode(s.disk[i]))
  }

  /** The inode as the system sees it: the loaded copy, or else what is on disk. */
  ghost function Cur(s: Fs, ino: nat): Inode
    requires Shape(s) && ino in s.inodes
  {
    if ino in s.vnodes then s.vnodes[ino].inode else Decode(s.disk[ino])
  }

  lemma CurOk(s: Fs, ino: nat)
    requires Shape(s) && ino in s.inodes
    ensures InodeOk(Cur(s, ino))
  {
    DecodeOk(s.disk[ino]);
  }

  /** Disk block of file block `k`, 0 for none. */
  ghost function MapOf(s: Fs, ino: nat, k: nat): nat
    requires Shape(s) && ino in s.inodes && k < MAXBLOCKS
  {
    CurOk(s, ino);
    var n := Cur(s, ino);
    if k < NDIRECT then n.direct[k]
    else if n.indirect == 0 || n.indirect >= s.nblocks then 0
    else Word(s.disk[n.indirect], k - NDIRECT)
  }

  /** Owners that have a block. */
  ghost predicate Has(s: Fs, o: Owner)
    requires Shape(s)
  {
    match o
    case Super => true
    case FreemapBlock(i) => i < FreemapBlocks(s.nblocks)
    case InodeBlock(ino) => ino in s.inodes
    case IndirectBlock(ino) => ino in s.inodes && Cur(s, ino).indirect != 0
    case DataBlock(ino, k) => ino in s.inodes && k < MAXBLOCKS && MapOf(s, ino, k) != 0
  }

  ghost function BlockFor(s: Fs, o: Owner): nat
    requires Shape(s) && Has(s, o)
  {
    match o
    case Super => 0
    case FreemapBlock(i) => FREEMAP_START + i
    case InodeBlock(ino) => ino
    case IndirectBlock(ino) => Cur(s, ino).indirect
    case DataBlock(ino, k) => MapOf(s, ino, k)
  }

  ghost predicate OwnerOk(s: Fs, o: Owner)
    requires Shape(s)
  {
    Has(s, o) ==> BlockFor(s, o) in s.owner && s.owner[BlockFor(s, o)] == o
  }

  ghost predicate BlockOk(s: Fs, b: nat)
    requires Shape(s)
  {
    b in s.owner ==> b < s.nblocks && Has(s, s.owner[b]) && BlockFor(s, s.owner[b]) == b
  }

  /** The free map marks exactly the owned blocks, and ownership is one to one. */
  ghost predicate Owned(s: Fs)
    requires Shape(s)
  {
    s.used == s.owner.Keys && (forall o :: OwnerOk(s, o)) && (forall b :: BlockOk(s, b))
  }

  ghost predicate FsInv(s: Fs) { Shape(s) && Owned(s) }

  // ---- Where a volume starts ----

  ghost function FormatOwner(b: nat): Owner
  {
    if b == 0 then Super
    else if b == ROOTDIR_INO then InodeBlock(ROOTDIR_INO)
    else FreemapBlock((b - FREEMAP_START) as nat)
  }

  /** A newly made volume: superblock, free map and the inode of an empty root directory. */
  ghost function Formatted(image: seq<seq<nat>>): Fs
  {
    var n := FREEMAP_START + FreemapBlocks(|image|);
    var owner := map b: nat | b < n :: FormatOwner(b);
    Fs(|image|, owner.Keys, image, map[], {ROOTDIR_INO}, owner)
  }

  predicate IsFormatted(image: seq<seq<nat>>)
  {
    && |image| < WORD && (forall b :: 0 <= b < |image| ==> IsBlock(image[b]))
    && FREEMAP_START + FreemapBlocks(|image|) <= |image|
    && image[ROOTDIR_INO] == Encode(Inode(0, TYPE_DIR, 1, seq(NDIRECT, _ => 0), 0))
  }

  lemma FormattedInv(image: seq<seq<nat>>)
    requires IsFormatted(image)
    ensures FsInv(Formatted(image))
    ensures Cur(Formatted(image), ROOTDIR_INO) == Inode(0, TYPE_DIR, 1, seq(NDIRECT, _ => 0), 0)
  {
    InodeRoundTrip(Inode(0, TYPE_DIR, 1, seq(NDIRECT, _ => 0), 0));
    hide Encode, Decode, IsBlock, FreemapBlocks;
    var s := Formatted(image);
    forall o ensures OwnerOk(s, o) {}
    forall b ensures BlockOk(s, b) {}
  }

  // ---- What the invariant gives ----

  /** Two owners never share a block, and every owned block is marked and on the disk. */
  lemma OneOwnerEach(s: Fs, o: Owner, q: Owner)
    requires FsInv(s) && Has(s, o) && Has(s, q)
    ensures BlockFor(s, o) in s.used && BlockFor(s, o) < s.nblocks
    ensures BlockFor(s, o) == BlockFor(s, q) ==> o == q
  {
    hide Has, BlockFor;
    assert OwnerOk(s, o) && OwnerOk(s, q);
    assert BlockOk(s, BlockFor(s, o));
  }

  /** No block is leaked: every marked block has an owner. */
  lemma MarkedHasOwner(s: Fs, b: nat)
    requires FsInv(s) && b in s.used
    ensures exists o :: Has(s, o) && BlockFor(s, o) == b
  {
    assert BlockOk(s, b);
    assert Has(s, s.owner[b]) && BlockFor(s, s.owner[b]) == b;
  }

  /** Block 0 is the superblock's, so as a block number it can stand for "none". */
  lemma ZeroIsTaken(s: Fs)
    requires FsInv(s)
    ensures 0 in s.used && s.nblocks > 0
  {
    assert OwnerOk(s, Super) && BlockOk(s, 0);
  }

  /** A block mapped to a file, or holding an inode or its indirect entries, is marked: the source's checks for a block
      marked free cannot fail. */
  lemma MappedIsMarked(s: Fs, ino: nat, k: nat)
    requires FsInv(s) && ino in s.inodes && k < MAXBLOCKS
    ensures ino in s.used && ino < s.nblocks
    ensures MapOf(s, ino, k) != 0 ==> MapOf(s, ino, k) in s.used && MapOf(s, ino, k) < s.nblocks
    ensures Cur(s, ino).indirect != 0 ==> Cur(s, ino).indirect in s.used && Cur(s, ino).indirect < s.nblocks
  {
    OneOwnerEach(s, InodeBlock(ino), InodeBlock(ino));
    if MapOf(s, ino, k) != 0 { OneOwnerEach(s, DataBlock(ino, k), DataBlock(ino, k)); }
    if Cur(s, ino).indirect != 0 { OneOwnerEach(s, IndirectBlock(ino), IndirectBlock(ino)); }
  }

  // ---- Changing one owner's block ----

  ghost predicate SameOwner(s: Fs, s2: Fs, o: Owner)
    requires Shape(s) && Shape(s2)
  {
    (Has(s2, o) <==> Has(s, o)) && (Has(s, o) ==> BlockFor(s2, o) == BlockFor(s, o))
  }

  ghost predicate SameOthers(s: Fs, s2: Fs, o: Owner)
    requires Shape(s) && Shape(s2)
  {
    forall q :: q != o ==> SameOwner(s, s2, q)
  }

  lemma GainsBlock(s: Fs, s2: Fs, o: Owner, b: nat)
    requires FsInv(s) && Shape(s2) && s2.nblocks == s.nblocks && b < s.nblocks && b !in s.used
    requires s2.used == s.used + {b} && s2.owner == s.owner[b := o]
    requires !Has(s, o) && Has(s2, o) && BlockFor(s2, o) == b && SameOthers(s, s2, o)
    ensures FsInv(s2)
  {
    hide Has, BlockFor, Shape;
    forall q ensures OwnerOk(s2, q) {
      if q != o { assert SameOwner(s, s2, q) && OwnerOk(s, q); }
    }
    forall c ensures BlockOk(s2, c) {
      if c != b && c in s.owner {
        assert BlockOk(s, c);
        assert SameOwner(s, s2, s.owner[c]);
      }
    }
  }

  lemma LosesBlock(s: Fs, s2: Fs, o: Owner)
    requires FsInv(s) && Shape(s2) && s2.nblocks == s.nblocks && Has(s, o) && !Has(s2, o) && SameOthers(s, s2, o)
    requires s2.used == s.used - {BlockFor(s, o)} && s2.owner == s.owner - {BlockFor(s, o)}
    ensures FsInv(s2)
  {
    hide Has, BlockFor, Shape;
    assert OwnerOk(s, o);
    forall q ensures OwnerOk(s2, q) {
      if q != o { assert SameOwner(s, s2, q) && OwnerOk(s, q); }
    }
    forall c ensures BlockOk(s2, c) {
      if c in s2.owner {
        assert BlockOk(s, c);
        assert SameOwner(s, s2, s.owner[c]);
      }
    }
  }

  lemma KeepsBlocks(s: Fs, s2: Fs)
    requires FsInv(s) && Shape(s2) && s2.nblocks == s.nblocks && s2.used == s.used && s2.owner == s.owner
    requires forall q :: SameOwner(s, s2, q)
    ensures FsInv(s2)
  {
    hide Has, BlockFor, Shape;
    forall q ensures OwnerOk(s2, q) { assert SameOwner(s, s2, q) && OwnerOk(s, q); }
    forall c ensures BlockOk(s2, c) {
      if c in s.owner { assert BlockOk(s, c) && SameOwner(s, s2, s.owner[c]); }
    }
  }

  // ---- What an inode's mapping depends on ----

  /** Inode i reads the same in both states, and so does its indirect block. */
  ghost predicate Kept(s: Fs, s2: Fs, i: nat)
    requires Shape(s) && Shape(s2)
  {
    && s2.nblocks == s.nblocks && i in s.inodes && i in s2.inodes && Cur(s2, i) == Cur(s, i)
    && (0 < Cur(s, i).indirect < s.nblocks ==> s2.disk[Cur(s, i).indirect] == s.disk[Cur(s, i).indirect])
  }

  lemma KeptOwners(s: Fs, s2: Fs, i: nat, o: Owner)
    requires Shape(s) && Shape(s2) && s2.nblocks == s.nblocks && Kept(s, s2, i)
    requires (o.InodeBlock? || o.IndirectBlock? || o.DataBlock?) && o.ino == i
    ensures SameOwner(s, s2, o)
  {
    hide Shape;
    if o.DataBlock? && o.k < MAXBLOCKS { KeptMap(s, s2, i, o.k); }
  }

  lemma KeptMap(s: Fs, s2: Fs, i: nat, k: nat)
    requires Shape(s) && Shape(s2) && s2.nblocks == s.nblocks && Kept(s, s2, i) && k < MAXBLOCKS
    ensures MapOf(s2, i, k) == MapOf(s, i, k)
  {
    CurOk(s, i);
  }

  /** Other inodes are kept and the set of inodes is the same, so only owners of `ino` can change. */
  lemma OthersKept(s: Fs, s2: Fs, ino: nat, q: Owner)
    requires Shape(s) && Shape(s2) && s2.nblocks == s.nblocks && s2.inodes == s.inodes
    requires forall i :: i in s.inodes && i != ino ==> Kept(s, s2, i)
    requires (q.InodeBlock? || q.IndirectBlock? || q.DataBlock?) ==> q.ino != ino
    ensures SameOwner(s, s2, q)
  {
    hide Shape, Kept;
    if q.InodeBlock? || q.IndirectBlock? || q.DataBlock? {
      if q.ino in s.inodes { KeptOwners(s, s2, q.ino, q); }
    }
  }

  /** Changing the contents of a block that is neither i's inode block nor its indirect block keeps i. */
  lemma KeptIfElsewhere(s: Fs, s2: Fs, i: nat)
    requires Shape(s) && Shape(s2) && i in s.inodes && i in s2.inodes
    requires (i in s2.vnodes <==> i in s.vnodes) && (i in s.vnodes ==> s2.vnodes[i].inode == s.vnodes[i].inode)
    requires s2.nblocks == s.nblocks && s2.disk[i] == s.disk[i]
    requires 0 < Cur(s, i).indirect < s.nblocks ==> s2.disk[Cur(s, i).indirect] == s.disk[Cur(s, i).indirect]
    ensures Kept(s, s2, i)
  {
  }

  /** File block `k` as bytes: zeros where nothing is mapped. */
  ghost function Data(s: Fs, ino: nat, k: nat): seq<nat>
    requires Shape(s) && ino in s.inodes && k < MAXBLOCKS
  {
    var b := MapOf(s, ino, k);
    if b == 0 || b >= s.nblocks then Zeros() else s.disk[b]
  }

  const MAXSIZE := MAXBLOCKS * BLOCKSIZE

  /** Offsets this far apart name the same block: the block number is kept in 32 bits. */
  const OFFSETS := 0x200_0000_0000

  /** Byte `x` of a file, 0 where nothing is mapped. */
  ghost function Content(s: Fs, ino: nat, x: nat): nat
    requires Shape(s) && ino in s.inodes && x < MAXSIZE
  {
    DataSize(s, ino, x / BLOCKSIZE);
    Data(s, ino, x / BLOCKSIZE)[x % BLOCKSIZE]
  }

  lemma DataSize(s: Fs, ino: nat, k: nat)
    requires Shape(s) && ino in s.inodes && k < MAXBLOCKS
    ensures IsBlock(Data(s, ino, k))
  {
    hide MapOf;
  }

  /** No file's bytes differ. */
  ghost predicate SameData(s: Fs, s2: Fs)
    requires Shape(s) && Shape(s2)
  {
    forall i, k :: i in s.inodes && i in s2.inodes && 0 <= k < MAXBLOCKS ==> Data(s2, i, k) == Data(s, i, k)
  }

  /** No mapping but that of data owner `o` differs. */
  ghost predicate MapsBut(s: Fs, s2: Fs, o: Owner)
    requires Shape(s) && Shape(s2)
  {
    s2.inodes == s.inodes &&
    forall i, k :: i in s.inodes && 0 <= k < MAXBLOCKS && DataBlock(i, k) != o ==> MapOf(s2, i, k) == MapOf(s, i, k)
  }

  /** No file's size, type or link count differs. */
  ghost predicate SameMeta(s: Fs, s2: Fs)
    requires Shape(s) && Shape(s2)
  {
    forall i :: i in s.inodes && i in s2.inodes ==>
      Cur(s2, i).size == Cur(s, i).size && Cur(s2, i).kind == Cur(s, i).kind && Cur(s2, i).links == Cur(s, i).links
  }

  /** Every block holding file data has the same contents. */
  ghost predicate SameDataBlocks(s: Fs, s2: Fs)
  {
    && |s2.disk| == |s.disk| == s2.nblocks == s.nblocks
    && forall x: nat :: x < s.nblocks && x in s.owner && s.owner[x].DataBlock? ==> s2.disk[x] == s.disk[x]
  }

  lemma DataUnchanged(s: Fs, s2: Fs, i: nat, k: nat)
    requires FsInv(s) && Shape(s2) && i in s.inodes && i in s2.inodes && k < MAXBLOCKS
    requires MapOf(s2, i, k) == MapOf(s, i, k) && SameDataBlocks(s, s2)
    ensures Data(s2, i, k) == Data(s, i, k)
  {
    hide MapOf, Shape;
    if MapOf(s, i, k) != 0 { assert OwnerOk(s, DataBlock(i, k)); }
  }

  /** Between s and s2 only inode `ino` differs, and of its owners only `o`. */
  ghost predicate OnlyOwner(s: Fs, s2: Fs, ino: nat, o: Owner)
  {
    && Shape(s) && Shape(s2) && s2.nblocks == s.nblocks && s2.inodes == s.inodes && ino in s.inodes
    && (forall i :: i in s.inodes && i != ino ==> Kept(s, s2, i))
    && (o == IndirectBlock(ino) || (o.DataBlock? && o.ino == ino && o.k < MAXBLOCKS))
    && (o.DataBlock? ==> Cur(s2, ino).indirect == Cur(s, ino).indirect)
    && (forall k :: 0 <= k < MAXBLOCKS && DataBlock(ino, k) != o ==> MapOf(s2, ino, k) == MapOf(s, ino, k))
  }

  lemma OnlyOwnerOthers(s: Fs, s2: Fs, ino: nat, o: Owner)
    requires OnlyOwner(s, s2, ino, o)
    ensures SameOthers(s, s2, o)
  {
    hide Shape, Kept, MapOf, Cur;
    forall q | q != o ensures SameOwner(s, s2, q) {
      if (q.InodeBlock? || q.IndirectBlock? || q.DataBlock?) && q.ino == ino {
      } else {
        OthersKept(s, s2, ino, q);
      }
    }
  }

  lemma OnlyOwnerMaps(s: Fs, s2: Fs, ino: nat, o: Owner)
    requires OnlyOwner(s, s2, ino, o)
    ensures MapsBut(s, s2, o)
  {
    hide Shape, Kept, MapOf, Cur;
    forall i, k | i in s.inodes && 0 <= k < MAXBLOCKS && DataBlock(i, k) != o
      ensures MapOf(s2, i, k) == MapOf(s, i, k)
    {
      if i != ino { KeptMap(s, s2, i, k); }
    }
  }

  lemma GainKeeps(s: Fs, s2: Fs, ino: nat, o: Owner, b: nat)
    requires FsInv(s) && OnlyOwner(s, s2, ino, o) && b < s.nblocks && b !in s.used
    requires s2.used == s.used + {b} && s2.owner == s.owner[b := o]
    requires !Has(s, o) && Has(s2, o) && BlockFor(s2, o) == b
    requires s2.disk[b] == Zeros() && SameDataBlocks(s, s2)
    ensures FsInv(s2) && SameData(s, s2) && MapsBut(s, s2, o)
  {
    hide Owned, MapOf, Cur, Has, BlockFor;
    OnlyOwnerOthers(s, s2, ino, o);
    GainsBlock(s, s2, o, b);
    hide Shape, FsInv, SameOthers, SameDataBlocks, Kept;
    OnlyOwnerMaps(s, s2, ino, o);
    forall i, k | i in s.inodes && i in s2.inodes && 0 <= k < MAXBLOCKS ensures Data(s2, i, k) == Data(s, i, k) {
      if DataBlock(i, k) == o {
        GainedData(s, s2, i, k);
      } else {
        if i != ino { KeptMap(s, s2, i, k); }
        DataUnchanged(s, s2, i, k);
      }
    }
  }

  lemma GainedData(s: Fs, s2: Fs, i: nat, k: nat)
    requires Shape(s) && Shape(s2) && i in s.inodes && i in s2.inodes && k < MAXBLOCKS
    requires !Has(s, DataBlock(i, k)) && Has(s2, DataBlock(i, k)) && BlockFor(s2, DataBlock(i, k)) < s2.nblocks
    requires s2.disk[BlockFor(s2, DataBlock(i, k))] == Zeros()
    ensures Data(s2, i, k) == Data(s, i, k)
  {
    hide MapOf, Shape;
  }

  lemma LossKeeps(s: Fs, s2: Fs, ino: nat, o: Owner)
    requires FsInv(s) && OnlyOwner(s, s2, ino, o) && Has(s, o) && !Has(s2, o) && SameDataBlocks(s, s2)
    requires s2.used == s.used - {BlockFor(s, o)} && s2.owner == s.owner - {BlockFor(s, o)}
    ensures FsInv(s2) && MapsBut(s, s2, o)
    ensures forall i, k :: i in s.inodes && 0 <= k < MAXBLOCKS && DataBlock(i, k) != o ==>
            Data(s2, i, k) == Data(s, i, k)
  {
    hide Owned, MapOf, Cur, Has, BlockFor;
    OnlyOwnerOthers(s, s2, ino, o);
    LosesBlock(s, s2, o);
    hide Shape, FsInv, SameOthers, SameDataBlocks, Kept;
    OnlyOwnerMaps(s, s2, ino, o);
    forall i, k | i in s.inodes && 0 <= k < MAXBLOCKS && DataBlock(i, k) != o ensures Data(s2, i, k) == Data(s, i, k) {
      if i != ino { KeptMap(s, s2, i, k); }
      DataUnchanged(s, s2, i, k);
    }
  }

  /** A free block is no inode, no indirect block and no data block. */
  lemma FreeIsNone(s: Fs, b: nat, i: nat)
    requires FsInv(s) && b !in s.used && i in s.inodes
    ensures i != b && Cur(s, i).indirect != b && b != 0 && b !in s.owner
  {
    MappedIsMarked(s, i, 0);
    ZeroIsTaken(s);
  }

  // ---- The changes ----

  /** Direct pointer `k` of loaded inode `ino` takes fresh block `b`, which is zeroed. */
  ghost function GiveDirect(s: Fs, ino: nat, k: nat, b: nat): Fs
    requires ino in s.vnodes && k < |s.vnodes[ino].inode.direct| && b < |s.disk|
  {
    var n := s.vnodes[ino].inode;
    s.(used := s.used + {b}, disk := s.disk[b := Zeros()], owner := s.owner[b := DataBlock(ino, k)],
       vnodes := s.vnodes[ino := Vnode(n.(direct := n.direct[k := b]), true)])
  }

  lemma GiveDirectKeeps(s: Fs, ino: nat, k: nat, b: nat)
    requires FsInv(s) && ino in s.vnodes && k < NDIRECT && b < s.nblocks && b !in s.used
    requires InodeOk(s.vnodes[ino].inode) && s.vnodes[ino].inode.direct[k] == 0
    ensures FsInv(GiveDirect(s, ino, k, b)) && SameData(s, GiveDirect(s, ino, k, b))
    ensures MapsBut(s, GiveDirect(s, ino, k, b), DataBlock(ino, k)) && MapOf(GiveDirect(s, ino, k, b), ino, k) == b
    ensures SameMeta(s, GiveDirect(s, ino, k, b))
  {
    assert ino in s.inodes;
    hide Owned, Shape, Cur, Has, BlockFor, MapOf;
    var s2 := GiveDirect(s, ino, k, b);
    GiveDirectFacts(s, ino, k, b);
    forall j | 0 <= j < MAXBLOCKS ensures MapOf(s2, ino, j) == if j == k then b else MapOf(s, ino, j) {
      DirectMap(s, s2, ino, k, b, j);
    }
    DirectIs(s, ino, k);
    DataHas(s, ino, k);
    DataHas(s2, ino, k);
    hide GiveDirect;
    GainKeeps(s, s2, ino, DataBlock(ino, k), b);
  }

  lemma GiveDirectFacts(s: Fs, ino: nat, k: nat, b: nat)
    requires FsInv(s) && ino in s.vnodes && k < NDIRECT && b < s.nblocks && b !in s.used && InodeOk(s.vnodes[ino].inode)
    ensures var s2 := GiveDirect(s, ino, k, b);
            && b != 0 && Shape(s2) && SameDataBlocks(s, s2) && s2.disk[b] == Zeros() && InodeOk(Cur(s, ino))
            && Cur(s2, ino) == Cur(s, ino).(direct := Cur(s, ino).direct[k := b]) && SameMeta(s, s2)
            && (0 < Cur(s, ino).indirect < s.nblocks ==> s2.disk[Cur(s, ino).indirect] == s.disk[Cur(s, ino).indirect])
            && (forall i :: i in s.inodes && i != ino ==> Kept(s, s2, i))
  {
    FreshFrame(s, GiveDirect(s, ino, k, b), ino, b);
    hide Owned, IsBlock;
  }

  /** Writing zeros to a free block, and changing the loaded copy of `ino` only. */
  lemma FreshFrame(s: Fs, s2: Fs, ino: nat, b: nat)
    requires FsInv(s) && b < s.nblocks && b !in s.used && ino in s.inodes
    requires s2.nblocks == s.nblocks && s2.inodes == s.inodes && s2.disk == s.disk[b := Zeros()]
    requires s2.vnodes.Keys == s.vnodes.Keys && forall i :: i in s.vnodes && i != ino ==> s2.vnodes[i] == s.vnodes[i]
    requires ino in s2.vnodes ==>
             InodeOk(s2.vnodes[ino].inode) && (s2.vnodes[ino].dirty || s2.vnodes[ino] == s.vnodes[ino])
    ensures Shape(s2) && SameDataBlocks(s, s2) && b != 0
    ensures forall i :: i in s.inodes ==> i != b && Cur(s, i).indirect != b
    ensures forall i :: i in s.inodes && i != ino ==> Kept(s, s2, i)
  {
    forall i | i in s.inodes ensures i != b && Cur(s, i).indirect != b { FreeIsNone(s, b, i); }
    FreeIsNone(s, b, ino);
    hide Owned, IsBlock;
    assert Shape(s2);
    forall i | i in s.inodes && i != ino ensures Kept(s, s2, i) { KeptIfElsewhere(s, s2, i); }
  }

  lemma DirectMap(s: Fs, s2: Fs, ino: nat, k: nat, b: nat, j: nat)
    requires Shape(s) && Shape(s2) && s2.nblocks == s.nblocks && ino in s.inodes && ino in s2.inodes && k < NDIRECT
    requires j < MAXBLOCKS
    requires InodeOk(Cur(s, ino)) && Cur(s2, ino) == Cur(s, ino).(direct := Cur(s, ino).direct[k := b])
    requires 0 < Cur(s, ino).indirect < s.nblocks ==> s2.disk[Cur(s, ino).indirect] == s.disk[Cur(s, ino).indirect]
    ensures MapOf(s2, ino, j) == if j == k then b else MapOf(s, ino, j)
  {
    hide Cur;
  }

  /** Loaded inode `ino` takes fresh block `b`, zeroed, as its indirect block. */
  ghost function GiveIndirect(s: Fs, ino: nat, b: nat): Fs
    requires ino in s.vnodes && b < |s.disk|
  {
    s.(used := s.used + {b}, disk := s.disk[b := Zeros()], owner := s.owner[b := IndirectBlock(ino)],
       vnodes := s.vnodes[ino := Vnode(s.vnodes[ino].inode.(indirect := b), true)])
  }

  lemma GiveIndirectKeeps(s: Fs, ino: nat, b: nat)
    requires FsInv(s) && ino in s.vnodes && b < s.nblocks && b !in s.used
    requires InodeOk(s.vnodes[ino].inode) && s.vnodes[ino].inode.indirect == 0
    ensures FsInv(GiveIndirect(s, ino, b)) && SameData(s, GiveIndirect(s, ino, b))
    ensures MapsBut(s, GiveIndirect(s, ino, b), IndirectBlock(ino)) && SameMeta(s, GiveIndirect(s, ino, b))
  {
    var s2 := GiveIndirect(s, ino, b);
    FreshFrame(s, s2, ino, b);
    hide Owned, IsBlock;
    assert Cur(s2, ino) == Cur(s, ino).(indirect := b) && s2.disk[b] == Zeros();
    hide Shape, GiveIndirect, InodeOk;
    forall j | 0 <= j < MAXBLOCKS ensures MapOf(s2, ino, j) == MapOf(s, ino, j) { EmptyIndirectMap(s, s2, ino, b, j); }
    hide MapOf;
    GainKeeps(s, s2, ino, IndirectBlock(ino), b);
  }

  lemma EmptyIndirectMap(s: Fs, s2: Fs, ino: nat, b: nat, j: nat)
    requires Shape(s) && Shape(s2) && s2.nblocks == s.nblocks && ino in s.inodes && ino in s2.inodes && j < MAXBLOCKS
    requires 0 < b < s.nblocks && s2.disk[b] == Zeros()
    requires Cur(s, ino).indirect == 0 && Cur(s2, ino) == Cur(s, ino).(indirect := b)
    ensures MapOf(s2, ino, j) == MapOf(s, ino, j)
  {
    hide Cur;
    if j >= NDIRECT { ZeroWords(j - NDIRECT); }
  }

  /** Entry `j` of ino's indirect block is changed to `b`. */
  ghost function PutEntry(s: Fs, ino: nat, j: nat, b: nat): seq<seq<nat>>
    requires Shape(s) && ino in s.inodes && j < DBPERIDB && Cur(s, ino).indirect < s.nblocks
  {
    var x := Cur(s, ino).indirect;
    s.disk[x := Bytes(WordsOf(s.disk[x])[j := b])]
  }

  /** Entry `j` of ino's indirect block takes fresh block `b`, which is zeroed. */
  ghost function GiveEntry(s: Fs, ino: nat, j: nat, b: nat): Fs
    requires Shape(s) && ino in s.inodes && j < DBPERIDB && Cur(s, ino).indirect < s.nblocks && b < s.nblocks
  {
    s.(used := s.used + {b}, disk := PutEntry(s, ino, j, b)[b := Zeros()],
        owner := s.owner[b := DataBlock(ino, NDIRECT + j)])
  }

  lemma GiveEntryKeeps(s: Fs, ino: nat, j: nat, b: nat)
    requires FsInv(s) && ino in s.inodes && j < DBPERIDB && b < s.nblocks && b !in s.used
    requires 0 < Cur(s, ino).indirect < s.nblocks && MapOf(s, ino, NDIRECT + j) == 0
    ensures FsInv(GiveEntry(s, ino, j, b)) && SameData(s, GiveEntry(s, ino, j, b))
    ensures MapsBut(s, GiveEntry(s, ino, j, b), DataBlock(ino, NDIRECT + j))
    ensures MapOf(GiveEntry(s, ino, j, b), ino, NDIRECT + j) == b && SameMeta(s, GiveEntry(s, ino, j, b))
  {
    hide Owned, Shape, Cur, Has, BlockFor, MapOf;
    var s2 := GiveEntry(s, ino, j, b);
    GiveEntryFacts(s, ino, j, b);
    forall k | 0 <= k < MAXBLOCKS ensures MapOf(s2, ino, k) == if k == NDIRECT + j then b else MapOf(s, ino, k) {
      EntryMap(s, s2, ino, j, b, k);
    }
    DataHas(s, ino, NDIRECT + j);
    DataHas(s2, ino, NDIRECT + j);
    hide GiveEntry;
    GainKeeps(s, s2, ino, DataBlock(ino, NDIRECT + j), b);
  }

  lemma DataHas(s: Fs, ino: nat, k: nat)
    requires Shape(s) && ino in s.inodes && k < MAXBLOCKS
    ensures Has(s, DataBlock(ino, k)) <==> MapOf(s, ino, k) != 0
    ensures Has(s, DataBlock(ino, k)) ==> BlockFor(s, DataBlock(ino, k)) == MapOf(s, ino, k)
  {
  }

  lemma GiveEntryFacts(s: Fs, ino: nat, j: nat, b: nat)
    requires FsInv(s) && ino in s.inodes && j < DBPERIDB && b < s.nblocks && b !in s.used
    requires 0 < Cur(s, ino).indirect < s.nblocks
    ensures var s2 := GiveEntry(s, ino, j, b);
            && b != 0 && Shape(s2) && SameDataBlocks(s, s2) && Cur(s2, ino) == Cur(s, ino) && s2.disk[b] == Zeros()
            && (forall i :: i in s.inodes && i != ino ==> Kept(s, s2, i))
            && WordsOf(s2.disk[Cur(s, ino).indirect]) == WordsOf(s.disk[Cur(s, ino).indirect])[j := b]
  {
    hide IsBlock, WordsOf, Bytes;
    var s2 := GiveEntry(s, ino, j, b);
    FreeIsNone(s, b, ino);
    IndirectFrame(s, s2, ino, b);
    EntryWords(s, s2, ino, j, b);
  }

  lemma EntryWords(s: Fs, s2: Fs, ino: nat, j: nat, b: nat)
    requires Shape(s) && ino in s.inodes && j < DBPERIDB && b < WORD
    requires 0 < Cur(s, ino).indirect < s.nblocks == |s2.disk|
    requires s2.disk[Cur(s, ino).indirect] == Bytes(WordsOf(s.disk[Cur(s, ino).indirect])[j := b])
    ensures WordsOf(s2.disk[Cur(s, ino).indirect]) == WordsOf(s.disk[Cur(s, ino).indirect])[j := b]
  {
    var x := Cur(s, ino).indirect;
    WordsInRange(s.disk[x]);
    WordsRoundTrip(WordsOf(s.disk[x])[j := b]);
  }

  lemma EntryMap(s: Fs, s2: Fs, ino: nat, j: nat, b: nat, k: nat)
    requires Shape(s) && Shape(s2) && s2.nblocks == s.nblocks && ino in s.inodes && ino in s2.inodes && j < DBPERIDB
    requires k < MAXBLOCKS
    requires 0 < Cur(s, ino).indirect < s.nblocks && Cur(s2, ino) == Cur(s, ino)
    requires WordsOf(s2.disk[Cur(s, ino).indirect]) == WordsOf(s.disk[Cur(s, ino).indirect])[j := b]
    ensures MapOf(s2, ino, k) == if k == NDIRECT + j then b else MapOf(s, ino, k)
  {
    hide Cur, Word;
    if k >= NDIRECT {
      var x := Cur(s, ino).indirect;
      assert Word(s2.disk[x], k - NDIRECT) == WordsOf(s2.disk[x])[k - NDIRECT];
      assert Word(s.disk[x], k - NDIRECT) == WordsOf(s.disk[x])[k - NDIRECT];
    }
  }

  /** Writing ino's indirect block, and perhaps zeroing a free block, leaves every other inode and all data alone. */
  lemma IndirectFrame(s: Fs, s2: Fs, ino: nat, b: nat)
    requires FsInv(s) && ino in s.inodes && 0 < Cur(s, ino).indirect < s.nblocks
    requires s2.nblocks == s.nblocks == |s2.disk| && s2.inodes == s.inodes && s2.vnodes == s.vnodes
    requires IsBlock(s2.disk[Cur(s, ino).indirect]) && (b < s.nblocks ==> b !in s.used && IsBlock(s2.disk[b]))
    requires forall x :: 0 <= x < s.nblocks && x != Cur(s, ino).indirect && x != b ==> s2.disk[x] == s.disk[x]
    ensures Shape(s2) && SameDataBlocks(s, s2) && Cur(s2, ino) == Cur(s, ino)
    ensures forall i :: i in s.inodes && i != ino ==> Kept(s, s2, i)
  {
    var d := Cur(s, ino).indirect;
    assert OwnerOk(s, IndirectBlock(ino));
    forall i | i in s.inodes
      ensures i != b && i != d && Cur(s, i).indirect != b && (i != ino ==> Cur(s, i).indirect != d)
    {
      OneOwnerEach(s, InodeBlock(i), IndirectBlock(ino));
      if Cur(s, i).indirect != 0 { OneOwnerEach(s, IndirectBlock(i), IndirectBlock(ino)); }
      if b !in s.used { FreeIsNone(s, b, i); }
    }
    hide Owned, IsBlock;
    assert Shape(s2);
    forall i | i in s.inodes && i != ino ensures Kept(s, s2, i) { KeptIfElsewhere(s, s2, i); }
  }

  /** Direct pointer `k` gives up its block. */
  ghost function TakeDirect(s: Fs, ino: nat, k: nat): Fs
    requires ino in s.vnodes && k < |s.vnodes[ino].inode.direct|
  {
    var n := s.vnodes[ino].inode;
    s.(used := s.used - {n.direct[k]}, owner := s.owner - {n.direct[k]},
       vnodes := s.vnodes[ino := Vnode(n.(direct := n.direct[k := 0]), true)])
  }

  lemma TakeDirectKeeps(s: Fs, ino: nat, k: nat)
    requires FsInv(s) && ino in s.vnodes && k < NDIRECT && InodeOk(s.vnodes[ino].inode)
    requires s.vnodes[ino].inode.direct[k] != 0
    ensures FsInv(TakeDirect(s, ino, k)) && MapOf(TakeDirect(s, ino, k), ino, k) == 0
    ensures MapsBut(s, TakeDirect(s, ino, k), DataBlock(ino, k))
    ensures forall i, j :: i in s.inodes && 0 <= j < MAXBLOCKS && !(i == ino && j == k) ==>
              Data(TakeDirect(s, ino, k), i, j) == Data(s, i, j)
  {
    var s2 := TakeDirect(s, ino, k);
    hide Owned, IsBlock;
    assert Shape(s2) && SameDataBlocks(s, s2);
    assert Cur(s2, ino) == Cur(s, ino).(direct := Cur(s, ino).direct[k := 0]);
    forall i | i in s.inodes && i != ino ensures Kept(s, s2, i) { KeptIfElsewhere(s, s2, i); }
    hide Shape, Cur;
    forall j | 0 <= j < MAXBLOCKS ensures MapOf(s2, ino, j) == if j == k then 0 else MapOf(s, ino, j) {
      DirectMap(s, s2, ino, k, 0, j);
    }
    DirectIs(s, ino, k);
    DataHas(s, ino, k);
    DataHas(s2, ino, k);
    hide MapOf, Has, BlockFor, Kept, SameDataBlocks;
    LossKeeps(s, s2, ino, DataBlock(ino, k));
  }

  lemma DirectIs(s: Fs, ino: nat, k: nat)
    requires Shape(s) && ino in s.vnodes && k < NDIRECT && InodeOk(s.vnodes[ino].inode)
    ensures MapOf(s, ino, k) == s.vnodes[ino].inode.direct[k]
  {
  }

  /** Entry `j` of ino's indirect block gives up its block. */
  ghost function TakeEntry(s: Fs, ino: nat, j: nat): Fs
    requires Shape(s) && ino in s.inodes && j < DBPERIDB && Cur(s, ino).indirect < s.nblocks
  {
    var b := MapOf(s, ino, NDIRECT + j);
    s.(used := s.used - {b}, owner := s.owner - {b}, disk := PutEntry(s, ino, j, 0))
  }

  lemma TakeEntryKeeps(s: Fs, ino: nat, j: nat)
    requires FsInv(s) && ino in s.inodes && j < DBPERIDB
    requires 0 < Cur(s, ino).indirect < s.nblocks && MapOf(s, ino, NDIRECT + j) != 0
    ensures FsInv(TakeEntry(s, ino, j)) && Cur(TakeEntry(s, ino, j), ino) == Cur(s, ino)
    ensures MapOf(TakeEntry(s, ino, j), ino, NDIRECT + j) == 0
    ensures MapsBut(s, TakeEntry(s, ino, j), DataBlock(ino, NDIRECT + j))
    ensures WordsOf(TakeEntry(s, ino, j).disk[Cur(s, ino).indirect]) == WordsOf(s.disk[Cur(s, ino).indirect])[j := 0]
    ensures forall i, k :: i in s.inodes && 0 <= k < MAXBLOCKS && !(i == ino && k == NDIRECT + j) ==>
              Data(TakeEntry(s, ino, j), i, k) == Data(s, i, k)
  {
    hide Owned, Shape, Cur, Has, BlockFor, MapOf, Kept, SameDataBlocks;
    var s2 := TakeEntry(s, ino, j);
    TakeEntryFacts(s, ino, j);
    forall k | 0 <= k < MAXBLOCKS ensures MapOf(s2, ino, k) == if k == NDIRECT + j then 0 else MapOf(s, ino, k) {
      EntryMap(s, s2, ino, j, 0, k);
    }
    DataHas(s, ino, NDIRECT + j);
    DataHas(s2, ino, NDIRECT + j);
    hide PutEntry, Bytes;
    LossKeeps(s, s2, ino, DataBlock(ino, NDIRECT + j));
  }

  lemma TakeEntryFacts(s: Fs, ino: nat, j: nat)
    requires FsInv(s) && ino in s.inodes && j < DBPERIDB && 0 < Cur(s, ino).indirect < s.nblocks
    ensures var s2 := TakeEntry(s, ino, j);
            && Shape(s2) && SameDataBlocks(s, s2) && Cur(s2, ino) == Cur(s, ino)
            && (forall i :: i in s.inodes && i != ino ==> Kept(s, s2, i))
            && WordsOf(s2.disk[Cur(s, ino).indirect]) == WordsOf(s.disk[Cur(s, ino).indirect])[j := 0]
  {
    hide IsBlock, WordsOf, Bytes;
    var s2 := TakeEntry(s, ino, j);
    IndirectFrame(s, s2, ino, s.nblocks);
    EntryWords(s, s2, ino, j, 0);
  }

  /** An indirect block with no entries left is given up. */
  ghost function TakeIndirect(s: Fs, ino: nat): Fs
    requires ino in s.vnodes
  {
    var d := s.vnodes[ino].inode.indirect;
    s.(used := s.used - {d}, owner := s.owner - {d},
       vnodes := s.vnodes[ino := Vnode(s.vnodes[ino].inode.(indirect := 0), true)])
  }

  lemma TakeIndirectKeeps(s: Fs, ino: nat)
    requires FsInv(s) && ino in s.vnodes && InodeOk(s.vnodes[ino].inode) && s.vnodes[ino].inode.indirect != 0
    requires forall k :: NDIRECT <= k < MAXBLOCKS ==> MapOf(s, ino, k) == 0
    ensures FsInv(TakeIndirect(s, ino)) && SameData(s, TakeIndirect(s, ino))
    ensures MapsBut(s, TakeIndirect(s, ino), IndirectBlock(ino))
  {
    var s2 := TakeIndirect(s, ino);
    hide Owned, IsBlock, MapOf;
    assert Shape(s2) && SameDataBlocks(s, s2);
    assert Cur(s2, ino) == Cur(s, ino).(indirect := 0);
    forall i | i in s.inodes && i != ino ensures Kept(s, s2, i) { KeptIfElsewhere(s, s2, i); }
    forall j | 0 <= j < MAXBLOCKS ensures MapOf(s2, ino, j) == MapOf(s, ino, j) { NoIndirectMap(s, s2, ino, j); }
    assert Has(s, IndirectBlock(ino)) && !Has(s2, IndirectBlock(ino))
        && BlockFor(s, IndirectBlock(ino)) == s.vnodes[ino].inode.indirect;
    hide Shape, Cur, Has, BlockFor, Kept, SameDataBlocks;
    LossKeeps(s, s2, ino, IndirectBlock(ino));
    assert forall i, k :: i in s.inodes && 0 <= k < MAXBLOCKS ==> DataBlock(i, k) != IndirectBlock(ino);
  }

  lemma NoIndirectMap(s: Fs, s2: Fs, ino: nat, j: nat)
    requires Shape(s) && Shape(s2) && ino in s.inodes && ino in s2.inodes && j < MAXBLOCKS
    requires Cur(s2, ino) == Cur(s, ino).(indirect := 0) && (j >= NDIRECT ==> MapOf(s, ino, j) == 0)
    ensures MapOf(s2, ino, j) == MapOf(s, ino, j)
  {
  }

  // ---- Inodes ----

  /** Every inode reads as before. */
  lemma AllKept(s: Fs, s2: Fs)
    requires FsInv(s) && Shape(s2) && s2 == s.(disk := s2.disk, vnodes := s2.vnodes)
    requires forall i :: i in s.inodes ==> Kept(s, s2, i)
    ensures FsInv(s2)
    ensures SameDataBlocks(s, s2) ==> SameData(s, s2)
    ensures forall i, k :: i in s.inodes && 0 <= k < MAXBLOCKS ==> MapOf(s2, i, k) == MapOf(s, i, k)
  {
    hide Owned, Kept, Shape, SameDataBlocks, MapOf;
    forall q ensures SameOwner(s, s2, q) {
      if q.InodeBlock? || q.IndirectBlock? || q.DataBlock? {
        if q.ino in s.inodes { KeptOwners(s, s2, q.ino, q); }
      }
    }
    KeepsBlocks(s, s2);
    forall i, k | i in s.inodes && 0 <= k < MAXBLOCKS
      ensures MapOf(s2, i, k) == MapOf(s, i, k) { KeptMap(s, s2, i, k); }
    if SameDataBlocks(s, s2) {
      forall i, k | i in s.inodes && i in s2.inodes && 0 <= k < MAXBLOCKS ensures Data(s2, i, k) == Data(s, i, k) {
        DataUnchanged(s, s2, i, k);
      }
    }
  }

  /** A block of file data is written. */
  lemma WriteDataKeeps(s: Fs, s2: Fs, ino: nat, k: nat, bytes: seq<nat>)
    requires FsInv(s) && ino in s.inodes && k < MAXBLOCKS && 0 < MapOf(s, ino, k) < s.nblocks && IsBlock(bytes)
    requires s2 == s.(disk := s.disk[MapOf(s, ino, k) := bytes])
    ensures FsInv(s2) && Data(s2, ino, k) == bytes
    ensures forall i, j :: i in s.inodes && 0 <= j < MAXBLOCKS ==> MapOf(s2, i, j) == MapOf(s, i, j)
    ensures forall i, j :: i in s.inodes && 0 <= j < MAXBLOCKS && !(i == ino && j == k) ==>
            Data(s2, i, j) == Data(s, i, j)
  {
    var b := MapOf(s, ino, k);
    forall i | i in s.inodes ensures i != b && Cur(s, i).indirect != b {
      OneOwnerEach(s, DataBlock(ino, k), InodeBlock(i));
      if Cur(s, i).indirect != 0 { OneOwnerEach(s, DataBlock(ino, k), IndirectBlock(i)); }
    }
    hide Owned, IsBlock, MapOf;
    assert Shape(s2);
    forall i | i in s.inodes ensures Kept(s, s2, i) { KeptIfElsewhere(s, s2, i); }
    hide Shape, Kept;
    AllKept(s, s2);
    forall i, j | i in s.inodes && 0 <= j < MAXBLOCKS && !(i == ino && j == k) ensures Data(s2, i, j) == Data(s, i, j) {
      if MapOf(s, i, j) == b { OneOwnerEach(s, DataBlock(ino, k), DataBlock(i, j)); }
    }
  }

  /** A loaded inode changes in size, type or link count only. */
  lemma SetMetaKeeps(s: Fs, s2: Fs, ino: nat, n: Inode)
    requires FsInv(s) && ino in s.vnodes && InodeOk(n) && s2 == s.(vnodes := s.vnodes[ino := Vnode(n, true)])
    requires n.direct == s.vnodes[ino].inode.direct && n.indirect == s.vnodes[ino].inode.indirect
    ensures FsInv(s2) && SameData(s, s2)
    ensures forall i, k :: i in s.inodes && 0 <= k < MAXBLOCKS ==> MapOf(s2, i, k) == MapOf(s, i, k)
  {
    hide Owned, IsBlock;
    assert Shape(s2) && SameDataBlocks(s, s2);
    forall i, k | i in s.inodes && 0 <= k < MAXBLOCKS ensures MapOf(s2, i, k) == MapOf(s, i, k) {}
    assert forall i :: i in s.inodes ==> Cur(s2, i).indirect == Cur(s, i).indirect;
    hide Shape, Cur, MapOf, SameDataBlocks;
    forall q ensures SameOwner(s, s2, q) {}
    KeepsBlocks(s, s2);
    forall i, k | i in s.inodes && i in s2.inodes && 0 <= k < MAXBLOCKS ensures Data(s2, i, k) == Data(s, i, k) {
      DataUnchanged(s, s2, i, k);
    }
  }

  /** Loading an inode, writing a loaded one back, and forgetting a clean one change nothing but where it is read
      from. */
  lemma LoadKeeps(s: Fs, s2: Fs, ino: nat)
    requires FsInv(s) && ino in s.inodes && ino !in s.vnodes
    requires s2 == s.(vnodes := s.vnodes[ino := Vnode(Decode(s.disk[ino]), false)])
    ensures FsInv(s2) && SameData(s, s2) && Cur(s2, ino) == Cur(s, ino)
  {
    DecodeOk(s.disk[ino]);
    hide Owned, IsBlock, Decode, InodeOk;
    assert Shape(s2) && SameDataBlocks(s, s2);
    forall i | i in s.inodes ensures Kept(s, s2, i) {}
    AllKept(s, s2);
  }

  lemma SyncKeeps(s: Fs, s2: Fs, ino: nat)
    requires FsInv(s) && ino in s.vnodes && InodeOk(s.vnodes[ino].inode)
    requires s2 == s.(disk := s.disk[ino := Encode(s.vnodes[ino].inode)],
             vnodes := s.vnodes[ino := s.vnodes[ino].(dirty := false)])
    ensures FsInv(s2) && SameData(s, s2) && Cur(s2, ino) == Cur(s, ino) && Decode(s2.disk[ino]) == Cur(s, ino)
    ensures forall i, k :: i in s.inodes && 0 <= k < MAXBLOCKS ==> MapOf(s2, i, k) == MapOf(s, i, k)
  {
    InodeRoundTrip(s.vnodes[ino].inode);
    forall i | i in s.inodes && Cur(s, i).indirect != 0 ensures Cur(s, i).indirect != ino {
      OneOwnerEach(s, IndirectBlock(i), InodeBlock(ino));
    }
    forall x: nat | x in s.owner && s.owner[x].DataBlock? ensures x != ino {
      assert OwnerOk(s, InodeBlock(ino));
    }
    hide Owned, IsBlock, Decode, Encode, InodeOk;
    assert Shape(s2) && SameDataBlocks(s, s2);
    forall i | i in s.inodes ensures Kept(s, s2, i) {}
    AllKept(s, s2);
  }

  lemma ForgetKeeps(s: Fs, s2: Fs, ino: nat)
    requires FsInv(s) && ino in s.vnodes && !s.vnodes[ino].dirty && s2 == s.(vnodes := s.vnodes - {ino})
    ensures FsInv(s2) && SameData(s, s2) && Cur(s2, ino) == Cur(s, ino)
    ensures forall i, k :: i in s.inodes && 0 <= k < MAXBLOCKS ==> MapOf(s2, i, k) == MapOf(s, i, k)
  {
    hide Owned, IsBlock, Decode, InodeOk;
    assert Shape(s2) && SameDataBlocks(s, s2);
    forall i | i in s.inodes ensures Kept(s, s2, i) {}
    AllKept(s, s2);
  }

  function EmptyInode(kind: nat): Inode { Inode(0, kind, 0, seq(NDIRECT, _ => 0), 0) }

  /** Fresh block `b`, zeroed, becomes a loaded inode of the given type. */
  ghost function NewInode(s: Fs, b: nat, kind: nat): Fs
    requires b < |s.disk|
  {
    s.(used := s.used + {b}, disk := s.disk[b := Zeros()], owner := s.owner[b := InodeBlock(b)],
       inodes := s.inodes + {b}, vnodes := s.vnodes[b := Vnode(EmptyInode(kind), true)])
  }

  /** An inode without blocks owns its own block only. */
  lemma BareInode(s: Fs, ino: nat, k: nat)
    requires Shape(s) && ino in s.inodes && k < MAXBLOCKS && Cur(s, ino).indirect == 0
    requires forall j :: 0 <= j < NDIRECT && j < |Cur(s, ino).direct| ==> Cur(s, ino).direct[j] == 0
    ensures MapOf(s, ino, k) == 0
  {
    CurOk(s, ino);
  }

  /** Apart from inode `ino`, present in one state only and without blocks, nothing differs. */
  lemma OthersBeside(s: Fs, s2: Fs, ino: nat)
    requires Shape(s) && Shape(s2) && s2.nblocks == s.nblocks && (ino in s.inodes <==> ino !in s2.inodes)
    requires forall i :: i != ino ==> (i in s2.inodes <==> i in s.inodes)
    requires forall i :: i in s.inodes && i != ino ==> Kept(s, s2, i)
    requires ino in s.inodes ==> Cur(s, ino).indirect == 0 && forall k :: 0 <= k < MAXBLOCKS ==> MapOf(s, ino, k) == 0
    requires ino in s2.inodes ==> Cur(s2, ino).indirect == 0 && forall k :: 0 <= k < MAXBLOCKS ==>
             MapOf(s2, ino, k) == 0
    ensures SameOthers(s, s2, InodeBlock(ino))
  {
    hide Shape, Kept, MapOf, Cur;
    forall q | q != InodeBlock(ino) ensures SameOwner(s, s2, q) {
      if (q.InodeBlock? || q.IndirectBlock? || q.DataBlock?) && q.ino != ino && q.ino in s.inodes {
        KeptOwners(s, s2, q.ino, q);
      }
    }
  }

  lemma NewInodeKeeps(s: Fs, b: nat, kind: nat)
    requires FsInv(s) && b < s.nblocks && b !in s.used && kind < HALF
    ensures FsInv(NewInode(s, b, kind)) && SameData(s, NewInode(s, b, kind)) && b !in s.inodes
    ensures forall k :: 0 <= k < MAXBLOCKS ==> Data(NewInode(s, b, kind), b, k) == Zeros()
  {
    var s2 := NewInode(s, b, kind);
    NewInodeFrame(s, b, kind);
    hide Owned, IsBlock, InodeOk, NewInode;
    forall k | 0 <= k < MAXBLOCKS ensures MapOf(s2, b, k) == 0 { BareInode(s2, b, k); }
    OthersBeside(s, s2, b);
    assert s2 == s.(used := s.used + {b}, disk := s2.disk, owner := s.owner[b := InodeBlock(b)], inodes := s2.inodes,
        vnodes := s2.vnodes);
    GainsBlock(s, s2, InodeBlock(b), b);
    hide Shape, MapOf, SameDataBlocks, Kept;
    forall i, k | i in s.inodes && i in s2.inodes && 0 <= k < MAXBLOCKS ensures Data(s2, i, k) == Data(s, i, k) {
      KeptMap(s, s2, i, k);
      DataUnchanged(s, s2, i, k);
    }
  }

  lemma NewInodeFrame(s: Fs, b: nat, kind: nat)
    requires FsInv(s) && b < s.nblocks && b !in s.used && kind < HALF
    ensures var s2 := NewInode(s, b, kind);
            && Shape(s2) && SameDataBlocks(s, s2) && b !in s.inodes && s2.inodes == s.inodes + {b}
            && s2.nblocks == s.nblocks && s2.used == s.used + {b} && s2.owner == s.owner[b := InodeBlock(b)]
            && Cur(s2, b) == EmptyInode(kind)
            && s2 == s.(used := s2.used, disk := s2.disk, owner := s2.owner, inodes := s2.inodes, vnodes := s2.vnodes)
            && (forall i :: i in s.inodes ==> Kept(s, s2, i))
  {
    var s2 := NewInode(s, b, kind);
    forall i | i in s.inodes ensures i != b && Cur(s, i).indirect != b { FreeIsNone(s, b, i); }
    hide Owned, IsBlock;
    assert Shape(s2);
    forall i | i in s.inodes ensures Kept(s, s2, i) { KeptIfElsewhere(s, s2, i); }
  }

  /** An inode without blocks is discarded and its own block given up. */
  ghost function DropInode(s: Fs, ino: nat): Fs
  {
    s.(used := s.used - {ino}, owner := s.owner - {ino}, inodes := s.inodes - {ino}, vnodes := s.vnodes - {ino})
  }

  lemma DropInodeKeeps(s: Fs, ino: nat)
    requires FsInv(s) && ino in s.inodes && Cur(s, ino).indirect == 0
    requires forall k :: 0 <= k < MAXBLOCKS ==> MapOf(s, ino, k) == 0
    ensures FsInv(DropInode(s, ino)) && SameData(s, DropInode(s, ino))
    ensures forall i, k :: i in s.inodes && i != ino && 0 <= k < MAXBLOCKS ==>
            MapOf(DropInode(s, ino), i, k) == MapOf(s, i, k)
  {
    var s2 := DropInode(s, ino);
    hide Owned, IsBlock, InodeOk, MapOf;
    assert Shape(s2) && SameDataBlocks(s, s2);
    forall i | i in s.inodes && i != ino ensures Kept(s, s2, i) {}
    OthersBeside(s, s2, ino);
    hide Shape, SameDataBlocks, Kept;
    LosesBlock(s, s2, InodeBlock(ino));
    forall i, k | i in s.inodes && i != ino && 0 <= k < MAXBLOCKS ensures MapOf(s2, i, k) == MapOf(s, i, k) {
      KeptMap(s, s2, i, k);
    }
    forall i, k | i in s.inodes && i in s2.inodes && 0 <= k < MAXBLOCKS ensures Data(s2, i, k) == Data(s, i, k) {
      KeptMap(s, s2, i, k);
      DataUnchanged(s, s2, i, k);
    }
  }

  /** The free map's blocks are nobody's data, inode or entries. */
  lemma OffFreemap(s: Fs, o: Owner)
    requires FsInv(s) && Has(s, o) && !o.FreemapBlock?
    ensures !(FREEMAP_START <= BlockFor(s, o) < FREEMAP_START + FreemapBlocks(s.nblocks))
  {
    var b := BlockFor(s, o);
    if FREEMAP_START <= b < FREEMAP_START + FreemapBlocks(s.nblocks) {
      OneOwnerEach(s, o, FreemapBlock(b - FREEMAP_START));
    }
  }

  /** What a block of the free map holds on disk does not matter to any file. */
  lemma FreemapContents(s: Fs, s2: Fs, j: nat)
    requires FsInv(s) && j < FreemapBlocks(s.nblocks) && |s2.disk| == |s.disk|
    requires FREEMAP_START + j < |s.disk| ==>
               IsBlock(s2.disk[FREEMAP_START + j])
                   && s2 == s.(disk := s.disk[FREEMAP_START + j := s2.disk[FREEMAP_START + j]])
    ensures FREEMAP_START + j < |s.disk| && FsInv(s2) && SameData(s, s2) && SameMeta(s, s2)
    ensures forall i, k :: i in s.inodes && 0 <= k < MAXBLOCKS ==> MapOf(s2, i, k) == MapOf(s, i, k)
  {
    var b := FREEMAP_START + j;
    OneOwnerEach(s, FreemapBlock(j), FreemapBlock(j));
    forall i | i in s.inodes ensures i != b && Cur(s, i).indirect != b {
      OneOwnerEach(s, InodeBlock(i), FreemapBlock(j));
      if Cur(s, i).indirect != 0 { OneOwnerEach(s, IndirectBlock(i), FreemapBlock(j)); }
    }
    assert OwnerOk(s, FreemapBlock(j));
    hide Owned, IsBlock, MapOf;
    assert Shape(s2) && SameDataBlocks(s, s2);
    forall i | i in s.inodes ensures Kept(s, s2, i) { KeptIfElsewhere(s, s2, i); }
    AllKept(s, s2);
  }

  /** What a free block holds does not matter. */
  lemma FreeContents(s: Fs, s2: Fs, b: nat)
    requires FsInv(s) && b < s.nblocks && b !in s.used && |s2.disk| == |s.disk| && IsBlock(s2.disk[b])
    requires s2 == s.(disk := s.disk[b := s2.disk[b]])
    ensures FsInv(s2) && SameData(s, s2) && SameMeta(s, s2)
    ensures forall i, k :: i in s.inodes && 0 <= k < MAXBLOCKS ==> MapOf(s2, i, k) == MapOf(s, i, k)
  {
    forall i | i in s.inodes ensures i != b && Cur(s, i).indirect != b { FreeIsNone(s, b, i); }
    assert b !in s.owner;
    hide Owned, IsBlock, MapOf;
    assert Shape(s2) && SameDataBlocks(s, s2);
    forall i | i in s.inodes ensures Kept(s, s2, i) { KeptIfElsewhere(s, s2, i); }
    AllKept(s, s2);
  }

  /** File blocks `gone` of inode `ino` are unmapped; nothing else differs but block pointers. */
  ghost predicate Cleared(s: Fs, s2: Fs, ino: nat, gone: set<nat>)
  {
    && Shape(s) && Shape(s2) && s2.nblocks == s.nblocks && s2.inodes == s.inodes && s2.vnodes.Keys == s.vnodes.Keys
    && ino in s.inodes && SameMeta(s, s2)
    && (forall i, k :: i in s.inodes && 0 <= k < MAXBLOCKS && !(i == ino && k in gone) ==> SameBlock(s, s2, i, k))
    && (forall k :: k in gone && k < MAXBLOCKS ==> MapOf(s2, ino, k) == 0)
  }

  ghost predicate SameBlock(s: Fs, s2: Fs, i: nat, k: nat)
    requires Shape(s) && Shape(s2) && i in s.inodes && i in s2.inodes && k < MAXBLOCKS
  {
    MapOf(s2, i, k) == MapOf(s, i, k) && Data(s2, i, k) == Data(s, i, k)
  }

  lemma ClearedNothing(s: Fs, ino: nat)
    requires FsInv(s) && ino in s.inodes
    ensures Cleared(s, s, ino, {})
  {
    hide Owned;
  }

  /** One more block is unmapped (or was never mapped). */
  lemma ClearOne(s0: Fs, s: Fs, s2: Fs, ino: nat, gone: set<nat>, k: nat)
    requires Cleared(s0, s, ino, gone) && Shape(s2) && k < MAXBLOCKS && s2.nblocks == s.nblocks
    requires s2.vnodes.Keys == s.vnodes.Keys
    requires MapsBut(s, s2, DataBlock(ino, k)) && SameMeta(s, s2) && MapOf(s2, ino, k) == 0
    requires forall i, j :: i in s.inodes && 0 <= j < MAXBLOCKS && !(i == ino && j == k) ==>
             Data(s2, i, j) == Data(s, i, j)
    ensures Cleared(s0, s2, ino, gone + {k})
  {
    hide Shape, MapOf, Cur, Data;
    forall i, j | i in s0.inodes && 0 <= j < MAXBLOCKS && !(i == ino && j in gone + {k})
      ensures SameBlock(s0, s2, i, j)
    {
      assert SameBlock(s0, s, i, j);
      assert DataBlock(i, j) != DataBlock(ino, k);
    }
    forall j | j in gone + {k} && j < MAXBLOCKS ensures MapOf(s2, ino, j) == 0 {
      if j != k { assert DataBlock(ino, j) != DataBlock(ino, k); }
    }
  }

  /** Nothing more is unmapped. */
  lemma ClearNone(s0: Fs, s: Fs, s2: Fs, ino: nat, gone: set<nat>)
    requires Cleared(s0, s, ino, gone) && Shape(s2) && s2.nblocks == s.nblocks && s2.vnodes.Keys == s.vnodes.Keys
    requires s2.inodes == s.inodes
    requires SameMeta(s, s2) && SameData(s, s2)
    requires forall i, k :: i in s.inodes && 0 <= k < MAXBLOCKS ==> MapOf(s2, i, k) == MapOf(s, i, k)
    ensures Cleared(s0, s2, ino, gone)
  {
    hide Shape, MapOf, Cur, Data;
    forall i, j | i in s0.inodes && 0 <= j < MAXBLOCKS && !(i == ino && j in gone) ensures SameBlock(s0, s2, i, j) {
      assert SameBlock(s0, s, i, j);
    }
  }
}
