/** Block allocation, block mapping, truncation and inode life on an SFS volume. Every method runs with the file
    system's big lock held; device I/O succeeds. */
module SfsVolume {
  import opened SfsLayout
  import opened SfsState
  import Bitmap
  import Bits

  datatype Error = Ok | NoSpace | TooBig

  /** With block `b` marked and zeroed but not yet anyone's. */
  ghost function Pending(s: Fs, b: nat): Fs
    requires b < |s.disk|
  {
    s.(used := s.used + {b}, disk := s.disk[b := Zeros()])
  }

  /** Neither files, nor what inodes say beyond their block pointers, differ. */
  ghost predicate SameFiles(s: Fs, s2: Fs)
    requires Shape(s) && Shape(s2)
  {
    SameData(s, s2) && SameMeta(s, s2) && s2.inodes == s.inodes && s2.vnodes.Keys == s.vnodes.Keys
  }

  lemma LoadedOk(s: Fs, ino: nat)
    requires FsInv(s) && ino in s.vnodes
    ensures Shape(s) && ino in s.inodes && InodeOk(s.vnodes[ino].inode) && Cur(s, ino) == s.vnodes[ino].inode
    ensures |s.disk| == s.nblocks < WORD && ino < s.nblocks
  {
    hide Owned;
  }

  /** Bits of the free map that stand for no block, past the volume's end. */
  ghost function Beyond(nblocks: nat): set<nat> { set b: nat | b < FreemapBits(nblocks) && IsPast(b, nblocks) }

  predicate IsPast(b: nat, nblocks: nat) { b >= nblocks }

  // ---- The free map on disk ----

  predicate WholeBlocks(v: seq<seq<bool>>, n: nat)
  {
    |v| == BLOCKSIZE * n && forall i :: 0 <= i < |v| ==> |v[i]| == Bitmap.BITS_PER_WORD
  }

  /** The bytes of the map's j-th block. */
  function MapBlock(v: seq<seq<bool>>, j: nat): seq<nat>
    requires BLOCKSIZE * (j + 1) <= |v|
  {
    seq<nat>(BLOCKSIZE, i requires 0 <= i < BLOCKSIZE => Bitmap.ByteOf(v[BLOCKSIZE * j + i]))
  }

  /** The first `n` of the map's blocks on disk are what the map holds. */
  ghost predicate MapOnDisk(v: seq<seq<bool>>, disk: seq<seq<nat>>, n: nat)
  {
    && BLOCKSIZE * n <= |v| && FREEMAP_START + n <= |disk|
    && forall j :: 0 <= j < n ==> disk[FREEMAP_START + j] == MapBlock(v, j)
  }

  lemma MapIsBlocks(nblocks: nat, v: seq<seq<bool>>)
    requires Bitmap.Shaped(FreemapBits(nblocks), v)
    ensures WholeBlocks(v, FreemapBlocks(nblocks)) && Bitmap.Padded(FreemapBits(nblocks), v)
  {
    assert BITSPERBLOCK == Bitmap.BITS_PER_WORD * BLOCKSIZE;
    hide FreemapBlocks;
    assert Bitmap.Words(FreemapBits(nblocks)) == BLOCKSIZE * FreemapBlocks(nblocks);
  }

  lemma MapBlockOk(v: seq<seq<bool>>, n: nat, j: nat)
    requires WholeBlocks(v, n) && j < n
    ensures IsBlock(MapBlock(v, j))
  {
    assert Bits.Pow2(8) == 256;
    hide Bitmap.ByteOf, Bits.Pow2;
    forall i | 0 <= i < BLOCKSIZE ensures MapBlock(v, j)[i] < 256 { Bitmap.ByteBound(v[BLOCKSIZE * j + i]); }
  }

  /** A store elsewhere leaves the map on disk alone. */
  lemma MapElsewhere(v: seq<seq<bool>>, disk: seq<seq<nat>>, n: nat, b: nat, x: seq<nat>)
    requires b < |disk| && !(FREEMAP_START <= b < FREEMAP_START + n)
    ensures MapOnDisk(v, disk, n) ==> MapOnDisk(v, disk[b := x], n)
  {
    hide MapBlock;
  }

  /** Where the bit of block `b` is on disk: in byte b / 8 of the map, which starts at block 2, worth 2^(b % 8). */
  lemma MapBitOnDisk(v: seq<seq<bool>>, disk: seq<seq<nat>>, n: nat, b: nat)
    requires WholeBlocks(v, n) && MapOnDisk(v, disk, n) && b < BITSPERBLOCK * n
    ensures var j, i := FREEMAP_START + b / BITSPERBLOCK, b % BITSPERBLOCK / 8;
            && j < |disk| && i < |disk[j]| && b / 8 < |v|
            && (disk[j][i] / Bits.Pow2(b % 8) % 2 == 1 <==> Bitmap.Bit(v, b))
  {
    hide Bitmap.ByteOf, Bits.Pow2;
    var j, i := b / BITSPERBLOCK, b % BITSPERBLOCK / 8;
    assert j < n && disk[FREEMAP_START + j] == MapBlock(v, j);
    assert BLOCKSIZE * j + i == b / 8 && b % 8 < Bitmap.BITS_PER_WORD;
    Bitmap.BitIsWorth(v[b / 8], b % 8);
  }

  /** Reading the map's blocks back gives its words. */
  lemma WordsBack(v: seq<seq<bool>>, disk: seq<seq<nat>>, n: nat, j: nat, i: nat)
    requires WholeBlocks(v, n) && MapOnDisk(v, disk, n) && j < n && i < BLOCKSIZE
    ensures BLOCKSIZE * j + i < |v| && |disk[FREEMAP_START + j]| == BLOCKSIZE
    ensures Bitmap.BitsOf(disk[FREEMAP_START + j][i], Bitmap.BITS_PER_WORD) == v[BLOCKSIZE * j + i]
  {
    hide Bitmap.ByteOf, Bitmap.BitsOf;
    assert disk[FREEMAP_START + j] == MapBlock(v, j);
    Bitmap.BitsRoundTrip(v[BLOCKSIZE * j + i]);
  }

  class Volume {
    const nblocks: nat
    const freemap: Bitmap.Map
    var freemapDirty: bool
    var disk: seq<seq<nat>>
    /** Loaded inodes by inode number. */
    var vnodes: map<nat, Vnode>
    ghost var s: Fs

    /** The map is a whole number of blocks long, and what is past the volume's end is marked. */
    ghost predicate MapOk()
      reads freemap
    {
      freemap.Valid() && freemap.nbits == FreemapBits(nblocks) && Beyond(nblocks) <= freemap.Set()
    }

    /** The blocks marked in use. */
    ghost function Marked(): set<nat>
      requires MapOk()
      reads freemap
    {
      freemap.Set() - Beyond(nblocks)
    }

    ghost predicate TiedTo(z: Fs)
      reads this, freemap
    {
      && MapOk() && z.nblocks == nblocks && z.used == Marked() && z.disk == disk && z.vnodes == vnodes
      && MapKept()
    }

    /** A free map not marked dirty is on disk as it is. */
    ghost predicate MapKept()
      reads this, freemap
    {
      !freemapDirty ==> MapOnDisk(freemap.v, disk, FreemapBlocks(nblocks))
    }

    ghost predicate Valid()
      reads this, freemap
    {
      TiedTo(s) && FsInv(s)
    }

    /** Mount a consistent volume: the free map is read from its blocks, and nothing is loaded yet. */
    constructor (image: seq<seq<nat>>, ghost z: Fs, ghost v: seq<seq<bool>>)
      requires FsInv(z) && z.nblocks == |image| && z.disk == image && z.vnodes == map[]
      requires Bitmap.Shaped(FreemapBits(|image|), v) && MapOnDisk(v, image, FreemapBlocks(|image|))
      requires Bitmap.SetOf(FreemapBits(|image|), v) == z.used + Beyond(|image|)
      ensures Valid() && s == z && fresh(freemap) && freemap.v == v && !freemapDirty
    {
      nblocks, freemapDirty, disk, vnodes, s := |image|, false, image, map[], z;
      freemap := new Bitmap.Map(FreemapBits(|image|));
      new;
      UsedBelow(z);
      ghost var n := FreemapBlocks(|image|);
      MapIsBlocks(|image|, v);
      MapIsBlocks(|image|, freemap.v);
      hide FsInv, MapOnDisk, FreemapBlocks, FreemapBits, Bitmap.BitsOf, Bitmap.SetOf;
      var j := 0;
      while j < FreemapBlocks(nblocks)
        invariant 0 <= j <= n && WholeBlocks(freemap.v, n) && disk == image && vnodes == map[] && s == z
        invariant !freemapDirty
        invariant forall k :: 0 <= k < BLOCKSIZE * j ==> freemap.v[k] == v[k]
      {
        var i := 0;
        while i < BLOCKSIZE
          invariant 0 <= i <= BLOCKSIZE && WholeBlocks(freemap.v, n) && disk == image && vnodes == map[] && s == z
          invariant !freemapDirty
          invariant forall k :: 0 <= k < BLOCKSIZE * j + i ==> freemap.v[k] == v[k]
        {
          WordsBack(v, image, n, j, i);
          MapThere(v, image, n, j);
          freemap.v := freemap.v[BLOCKSIZE * j + i := Bitmap.BitsOf(image[FREEMAP_START + j][i], Bitmap.BITS_PER_WORD)];
          i := i + 1;
        }
        j := j + 1;
      }
      assert freemap.v == v;
    }

    /** Write the free map back if it is dirty. */
    method SyncFreemap()
      requires Valid()
      modifies this`disk, this`freemapDirty, this`s
      ensures Valid() && !freemapDirty && s == old(s).(disk := s.disk)
      ensures Shape(old(s)) && Shape(s) && SameFiles(old(s), s)
    {
      NothingChanged(s, Super);
      hide FsInv, Shape, SameFiles, MapOnDisk, FreemapBlocks, MapBlock;
      if !freemapDirty {
        return;
      }
      ghost var s0, n := s, FreemapBlocks(nblocks);
      MapIsBlocks(nblocks, freemap.v);
      FreemapThere(s);
      StartOnDisk(freemap.v, disk, n);
      var j := 0;
      while j < FreemapBlocks(nblocks)
        invariant 0 <= j <= n && Valid() && freemapDirty && s == s0.(disk := s.disk) && |disk| == |s0.disk|
        invariant Shape(s) && SameFiles(s0, s) && MapOnDisk(freemap.v, disk, j)
      {
        MapBlockOk(freemap.v, n, j);
        ghost var s2 := s.(disk := s.disk[FREEMAP_START + j := MapBlock(freemap.v, j)]);
        FreemapStep(s0, s, s2, j);
        NextOnDisk(freemap.v, disk, j);
        disk := disk[FREEMAP_START + j := MapBlock(freemap.v, j)];
        s := s2;
        j := j + 1;
      }
      freemapDirty := false;
    }

    /** Mark a free block and zero it; NoSpace exactly when every block is marked. */
    method Balloc() returns (err: Error, b: nat)
      requires Valid()
      modifies this`freemapDirty, this`disk, freemap
      ensures !err.TooBig?
      ensures err.NoSpace? <==> forall x: nat :: x < nblocks ==> x in s.used
      ensures err.NoSpace? ==> Valid()
      ensures err.Ok? ==> b < |s.disk| == nblocks && b !in s.used && b != 0 && TiedTo(Pending(s, b))
      ensures err.Ok? ==> freemapDirty && forall x: nat :: x < b ==> x in s.used
    {
      var found;
      assert |s.disk| == nblocks;
      ZeroIsTaken(s);
      FreemapCovers(nblocks);
      hide FsInv, FreemapBits;
      found, b := freemap.Alloc();
      if !found {
        assert forall x: nat :: x < nblocks ==> x in freemap.Set() && !IsPast(x, nblocks);
        return NoSpace, 0;
      }
      freemapDirty := true;
      if b >= nblocks {
        // invalid block: the source stops the system
        assert false;
      }
      assert b !in s.used;
      disk := disk[b := Zeros()];
      err := Ok;
    }

    /** Unmark a block that is in use. */
    method Bfree(b: nat)
      requires MapOk() && b < nblocks && b in Marked()
      modifies this`freemapDirty, freemap
      ensures MapOk() && Marked() == old(Marked()) - {b} && freemapDirty
    {
      freemap.Unmark(b);
      freemapDirty := true;
    }

    method Bused(b: nat) returns (u: bool)
      requires MapOk() && b < nblocks
      ensures u <==> b in Marked()
    {
      FreemapCovers(nblocks);
      u := freemap.IsSet(b);
    }

    /** Disk block of a file block, allocated on demand. */
    method Bmap(ino: nat, fileblock: nat, doalloc: bool) returns (err: Error, block: nat)
      requires Valid() && ino in vnodes
      modifies this, freemap
      ensures Valid() && SameFiles(old(s), s) && ino in s.inodes
      ensures err.TooBig? <==> fileblock >= MAXBLOCKS
      ensures err.NoSpace? ==> doalloc && forall x: nat :: x < nblocks ==> x in s.used
      ensures !doalloc ==> s == old(s)
      ensures err.Ok? ==> block == MapOf(s, ino, fileblock) && block < nblocks && (doalloc ==> block != 0)
      ensures MapsBut(old(s), s, DataBlock(ino, fileblock))
      ensures fileblock < MAXBLOCKS && MapOf(old(s), ino, fileblock) != 0 ==> err.Ok? && s == old(s)
      ensures err.NoSpace? && fileblock < NDIRECT ==> s == old(s)
    {
      hide FsInv, Shape, SameFiles, MapsBut, MapOf;
      LoadedOk(s, ino);
      NothingChanged(s, DataBlock(ino, fileblock));
      if fileblock < NDIRECT {
        err, block := BmapDirect(ino, fileblock, doalloc);
      } else if fileblock - NDIRECT < DBPERIDB {
        err, block := BmapIndirect(ino, fileblock - NDIRECT, doalloc);
      } else {
        return TooBig, 0;
      }
    }

    method BmapDirect(ino: nat, k: nat, doalloc: bool) returns (err: Error, block: nat)
      requires Valid() && ino in vnodes && k < NDIRECT
      modifies this, freemap
      ensures Valid() && SameFiles(old(s), s) && ino in s.inodes && !err.TooBig?
      ensures err.NoSpace? ==> doalloc && forall x: nat :: x < nblocks ==> x in s.used
      ensures !doalloc ==> s == old(s)
      ensures err.Ok? ==> block == MapOf(s, ino, k) && block < nblocks && (doalloc ==> block != 0)
      ensures MapsBut(old(s), s, DataBlock(ino, k))
      ensures err.NoSpace? || MapOf(old(s), ino, k) != 0 ==> s == old(s)
      ensures MapOf(old(s), ino, k) != 0 ==> err.Ok?
    {
      hide FsInv, Shape, SameFiles, MapsBut, MapOf, InodeOk;
      LoadedOk(s, ino);
      DirectBlock(s, ino, k);
      NothingChanged(s, DataBlock(ino, k));
      block := vnodes[ino].inode.direct[k];
      if block == 0 && doalloc {
        err, block := Balloc();
        if !err.Ok? {
          return err, 0;
        }
        GiveDirectFiles(s, ino, k, block);
        s := GiveDirect(s, ino, k, block);
        var n := vnodes[ino].inode;
        vnodes := vnodes[ino := Vnode(n.(direct := n.direct[k := block]), true)];
      }
      if block != 0 {
        MarkedBlock(s, ino, k);
        var used := Bused(block);
        assert used;
      }
      ZeroBlock(s);
      err := Ok;
    }

    /** Give an inode its indirect block. */
    method AddIndirect(ino: nat, ghost o: Owner) returns (err: Error, idblock: nat)
      requires Valid() && ino in vnodes && vnodes[ino].inode.indirect == 0
      modifies this, freemap
      ensures Valid() && SameFiles(old(s), s) && !err.TooBig? && MapsBut(old(s), s, o)
      ensures err.NoSpace? ==> s == old(s) && forall x: nat :: x < nblocks ==> x in s.used
      ensures err.Ok? ==> ino in vnodes && vnodes[ino].inode.indirect == idblock != 0
    {
      hide FsInv, Shape, SameFiles, MapsBut, GiveIndirect;
      LoadedOk(s, ino);
      NothingChanged(s, o);
      err, idblock := Balloc();
      if !err.Ok? {
        return err, 0;
      }
      GiveIndirectFiles(s, ino, idblock, o);
      ghost var s1 := GiveIndirect(s, ino, idblock);
      vnodes := vnodes[ino := Vnode(vnodes[ino].inode.(indirect := idblock), true)];
      s := s1;
    }

    method BmapIndirect(ino: nat, j: nat, doalloc: bool) returns (err: Error, block: nat)
      requires Valid() && ino in vnodes && j < DBPERIDB
      modifies this, freemap
      ensures Valid() && SameFiles(old(s), s) && ino in s.inodes && !err.TooBig?
      ensures err.NoSpace? ==> doalloc && forall x: nat :: x < nblocks ==> x in s.used
      ensures !doalloc ==> s == old(s)
      ensures err.Ok? ==> block == MapOf(s, ino, NDIRECT + j) && block < nblocks && (doalloc ==> block != 0)
      ensures MapsBut(old(s), s, DataBlock(ino, NDIRECT + j))
      ensures MapOf(old(s), ino, NDIRECT + j) != 0 ==> err.Ok? && s == old(s)
    {
      hide FsInv, Shape, SameFiles, MapsBut, MapOf, Cur, InodeOk, GiveIndirect, GiveEntry, WordsOf, Bytes, IsBlock;
      ghost var o := DataBlock(ino, NDIRECT + j);
      ghost var s0 := s;
      LoadedOk(s, ino);
      NothingChanged(s, o);
      ZeroBlock(s);
      var idblock := vnodes[ino].inode.indirect;
      NoIndirect(s, ino, j);
      if idblock == 0 && !doalloc {
        return Ok, 0;
      } else if idblock == 0 {
        err, idblock := AddIndirect(ino, o);
        if !err.Ok? {
          return err, 0;
        }
      }
      EntryBlock(s, ino, j);
      var idbuf := WordsOf(disk[idblock]);
      block := idbuf[j];
      if block == 0 && doalloc {
        ghost var s1 := s;
        err, block := Balloc();
        if !err.Ok? {
          return err, 0;
        }
        idbuf := idbuf[j := block];
        disk := disk[idblock := Bytes(idbuf)];
        GiveEntryFiles(s0, s1, ino, j, block);
        s := GiveEntry(s1, ino, j, block);
      }
      if block != 0 {
        MarkedBlock(s, ino, NDIRECT + j);
        var used := Bused(block);
        assert used;
      }
      err := Ok;
    }

    /** Give up the direct blocks from `blocklen` on. */
    method TruncDirect(ino: nat, blocklen: nat)
      requires Valid() && ino in vnodes
      modifies this, freemap
      ensures Valid() && Cleared(old(s), s, ino, Gone(0, blocklen, NDIRECT))
      ensures ino in vnodes && vnodes == old(vnodes)[ino := vnodes[ino]]
    {
      hide FsInv, Shape, Cleared, MapOf, TakeDirect;
      LoadedOk(s, ino);
      ClearedNothing(s, ino);
      assert Gone(0, blocklen, 0) == {};
      var i := 0;
      while i < NDIRECT
        invariant 0 <= i <= NDIRECT && Valid() && ino in vnodes
        invariant Cleared(old(s), s, ino, Gone(0, blocklen, i)) && vnodes == old(vnodes)[ino := vnodes[ino]]
      {
        LoadedOk(s, ino);
        ghost var gone := Gone(0, blocklen, i);
        assert Gone(0, blocklen, i + 1) == if i >= blocklen then gone + {i} else gone;
        if i >= blocklen {
          DirectFreed(old(s), s, ino, i, gone);
          var block := vnodes[ino].inode.direct[i];
          if block != 0 {
            TakeDirectIs(s, ino, i);
            Bfree(block);
            var n := vnodes[ino].inode;
            vnodes := vnodes[ino := Vnode(n.(direct := n.direct[i := 0]), true)];
            s := TakeDirect(s, ino, i);
          }
        }
        i := i + 1;
      }
    }

    /** The disk is behind the model in block `d` only, by what has been done to the buffer read from it. */
    ghost predicate Buffered(d: nat, idbuf: seq<nat>, iddirty: bool)
      reads this, freemap
    {
      && MapOk() && nblocks == s.nblocks == |disk| == |s.disk| && s.used == Marked() && vnodes == s.vnodes && MapKept()
      && d < |disk| && IsBlock(disk[d]) && IsBlock(s.disk[d]) && s.disk == disk[d := s.disk[d]]
      && |idbuf| == DBPERIDB && WordsOf(s.disk[d]) == idbuf
      && if iddirty then freemapDirty && s.disk[d] == Bytes(idbuf) else s.disk == disk
    }

    /** Give up the indirect block's entries past `blocklen` (not the one at it), in a buffer. */
    method TruncEntries(ino: nat, blocklen: nat)
      returns (idbuf: seq<nat>, hasnonzero: bool, iddirty: bool, ghost kept: nat)
      requires Valid() && ino in vnodes && vnodes[ino].inode.indirect != 0
      modifies this`s, this`freemapDirty, freemap
      ensures FsInv(s) && s.vnodes == old(s).vnodes && Buffered(vnodes[ino].inode.indirect, idbuf, iddirty)
      ensures Cleared(old(s), s, ino, Gone(NDIRECT, blocklen + 1, MAXBLOCKS))
      ensures if hasnonzero then kept < DBPERIDB && idbuf[kept] != 0 else forall i :: 0 <= i < DBPERIDB ==>
              idbuf[i] == 0
    {
      hide FsInv, Shape, Cleared, MapOf, TakeEntry, Cur, WordsOf, Bytes, IsBlock, InodeOk;
      LoadedOk(s, ino);
      ClearedNothing(s, ino);
      assert Gone(NDIRECT, blocklen + 1, NDIRECT) == {};
      var d := vnodes[ino].inode.indirect;
      EntryBlock(s, ino, 0);
      idbuf := WordsOf(disk[d]);
      hasnonzero, iddirty, kept := false, false, 0;
      var j := 0;
      while j < DBPERIDB
        invariant 0 <= j <= DBPERIDB && FsInv(s) && ino in s.vnodes && s.vnodes == old(s).vnodes
        invariant Buffered(d, idbuf, iddirty)
        invariant if hasnonzero then kept < j && idbuf[kept] != 0 else forall i :: 0 <= i < j ==> idbuf[i] == 0
        invariant Cleared(old(s), s, ino, Gone(NDIRECT, blocklen + 1, NDIRECT + j))
      {
        EntryBlock(s, ino, j);
        ghost var gone := Gone(NDIRECT, blocklen + 1, NDIRECT + j);
        assert Gone(NDIRECT, blocklen + 1, NDIRECT + j + 1) == if blocklen < NDIRECT + j then gone + {NDIRECT + j}
            else gone;
        if blocklen < NDIRECT + j {
          if idbuf[j] != 0 {
            EntryFreed(old(s), s, ino, j, gone);
            TakeEntryIs(s, ino, j);
            Bfree(idbuf[j]);
            s := TakeEntry(s, ino, j);
            idbuf := idbuf[j := 0];
            iddirty := true;
          } else {
            EntryAbsent(old(s), s, ino, j, gone);
          }
        }
        if idbuf[j] != 0 {
          hasnonzero, kept := true, j;
        }
        j := j + 1;
      }
    }

    /** Truncate the indirect part: the block itself goes once it has no entries, else it is written back. */
    method TruncIndirect(ino: nat, blocklen: nat)
      requires Valid() && ino in vnodes && vnodes[ino].inode.indirect != 0
      modifies this, freemap
      ensures Valid() && Cleared(old(s), s, ino, Gone(NDIRECT, blocklen + 1, MAXBLOCKS))
      ensures ino in vnodes && vnodes == old(vnodes)[ino := vnodes[ino]]
      ensures Shape(s) && ino in s.inodes
      ensures Cur(s, ino).indirect != 0 ==> exists k :: NDIRECT <= k < MAXBLOCKS && MapOf(s, ino, k) != 0
    {
      hide FsInv, Shape, Cleared, MapOf, Cur, WordsOf, Bytes, IsBlock, InodeOk, TakeIndirect;
      var d := vnodes[ino].inode.indirect;
      var idbuf, hasnonzero, iddirty;
      ghost var kept;
      idbuf, hasnonzero, iddirty, kept := TruncEntries(ino, blocklen);
      LoadedOk(s, ino);
      BufferIs(s, ino, idbuf);
      if !hasnonzero {
        IndirectFreed(old(s), s, disk, ino, Gone(NDIRECT, blocklen + 1, MAXBLOCKS));
        TakeIndirectIs(s, ino);
        Bfree(d);
        vnodes := vnodes[ino := Vnode(vnodes[ino].inode.(indirect := 0), true)];
        s := TakeIndirect(s, ino).(disk := disk);
      } else {
        assert MapOf(s, ino, NDIRECT + kept) != 0;
        if iddirty {
          disk := disk[d := Bytes(idbuf)];
        }
      }
    }

    /** Give up the blocks past the first `blocklen`, and the indirect block if that leaves it empty. */
    method GiveUpPast(ino: nat, blocklen: nat)
      requires Valid() && ino in vnodes
      modifies this, freemap
      ensures Valid() && ino in vnodes && vnodes == old(vnodes)[ino := vnodes[ino]] && InodeOk(vnodes[ino].inode)
      ensures Cleared(old(s), s, ino, Gone(0, blocklen, NDIRECT) + Gone(NDIRECT, blocklen + 1, MAXBLOCKS))
      ensures Shape(s) && ino in s.inodes && (blocklen == 0 ==> Cur(s, ino).indirect == 0)
    {
      hide FsInv, Shape, Cleared, MapOf, Cur, InodeOk;
      ghost var s0 := s;
      LoadedOk(s, ino);
      TruncDirect(ino, blocklen);
      ghost var s1 := s;
      ClearedLoaded(s0, s1, ino, Gone(0, blocklen, NDIRECT));
      if blocklen < MAXBLOCKS - 1 && vnodes[ino].inode.indirect != 0 {
        TruncIndirect(ino, blocklen);
      } else {
        NoEntries(s1, ino, blocklen);
      }
      ClearedLoaded(s1, s, ino, Gone(NDIRECT, blocklen + 1, MAXBLOCKS));
      LoadedOk(s, ino);
      EmptyAtZero(s1, s, ino, blocklen);
      ClearedTwice(s0, s1, s, ino, Gone(0, blocklen, NDIRECT), Gone(NDIRECT, blocklen + 1, MAXBLOCKS));
    }

    /** Set a file's length. Blocks past the new end are given up, except that an indirect entry exactly at the new
        length in blocks stays; nothing below it is touched, and length 0 gives up everything. The length counts
        modulo 2^41, and as 0 if it is then among the last 511. */
    method Itrunc(ino: nat, len: nat)
      requires Valid() && ino in vnodes
      modifies this, freemap
      ensures Valid() && Truncated(old(s), s, ino, BlockLength(len), len % WORD)
      ensures CutTo(old(s), s, ino, if len % OFFSETS <= OFFSETS - BLOCKSIZE then len % OFFSETS else 0)
      ensures ino in vnodes && vnodes == old(vnodes)[ino := vnodes[ino]]
    {
      hide FsInv, Shape, Cleared, MapOf, Cur, InodeOk, Truncated, CutTo, BlockLength;
      ghost var s0 := s;
      GiveUpPast(ino, BlockLength(len));
      var n := vnodes[ino].inode.(size := len % WORD);
      ghost var s3 := s.(vnodes := s.vnodes[ino := Vnode(n, true)]);
      SizeSet(s0, s, s3, ino, BlockLength(len), len % WORD);
      TruncatedCuts(s0, s3, ino, len, len % WORD);
      vnodes := vnodes[ino := Vnode(n, true)];
      s := s3;
    }

    /** Load an inode that is in use, from its block; the system stops exactly if it is of no known type. */
    method LoadInode(ino: nat) returns (ok: bool)
      requires Valid() && ino in s.inodes && ino !in vnodes
      modifies this`vnodes, this`s
      ensures Shape(old(s)) && (ok <==> Cur(old(s), ino).kind in {TYPE_FILE, TYPE_DIR}) && (!ok ==> s == old(s))
      ensures ok ==>
              Valid() && vnodes == old(vnodes)[ino := Vnode(Cur(old(s), ino), false)] && s == old(s).(vnodes := vnodes)
      ensures ok ==> Shape(s) && SameData(old(s), s) && SameMeta(old(s), s)
    {
      MappedIsMarked(s, ino, 0);
      hide Owned, MapOf, Decode, IsBlock;
      var used := Bused(ino);
      assert used;
      var n := Decode(disk[ino]);
      if n.kind != TYPE_FILE && n.kind != TYPE_DIR {
        return false;
      }
      ghost var s2 := s.(vnodes := s.vnodes[ino := Vnode(n, false)]);
      LoadKeeps(s, s2, ino);
      assert forall i :: i in s.inodes ==> Cur(s2, i) == Cur(s, i);
      vnodes := vnodes[ino := Vnode(n, false)];
      s := s2;
      ok := true;
    }

    /** Write a loaded inode back if it is dirty; afterwards its block says what memory says. */
    method SyncInode(ino: nat)
      requires Valid() && ino in vnodes
      modifies this`vnodes, this`disk, this`s
      ensures Valid() && vnodes == old(vnodes)[ino := Vnode(old(vnodes)[ino].inode, false)]
      ensures s == old(s).(disk := s.disk, vnodes := vnodes)
      ensures SameData(old(s), s) && SameMeta(old(s), s) && ino < |s.disk| && IsBlock(s.disk[ino])
      ensures Decode(s.disk[ino]) == vnodes[ino].inode
      ensures forall i, k :: i in s.inodes && 0 <= k < MAXBLOCKS ==> MapOf(s, i, k) == MapOf(old(s), i, k)
    {
      hide FsInv, Shape, MapOf, Cur, InodeOk, Decode, Encode, IsBlock, SameData, SameMeta, MapOnDisk;
      LoadedOk(s, ino);
      NothingChanged(s, Super);
      SelfSame(s);
      CleanInode(s, ino);
      assert !vnodes[ino].dirty ==> vnodes[ino] == Vnode(vnodes[ino].inode, false);
      assert s.vnodes == s.vnodes[ino := s.vnodes[ino]];
      if vnodes[ino].dirty {
        ghost var s2 := s.(disk := s.disk[ino := Encode(s.vnodes[ino].inode)],
            vnodes := s.vnodes[ino := s.vnodes[ino].(dirty := false)]);
        SyncFiles(s, s2, ino);
        InodeOffMap(s, ino);
        MapElsewhere(freemap.v, disk, FreemapBlocks(nblocks), ino, Encode(vnodes[ino].inode));
        disk := disk[ino := Encode(vnodes[ino].inode)];
        vnodes := vnodes[ino := vnodes[ino].(dirty := false)];
        s := s2;
      }
    }

    /** Create an object: a fresh block becomes its inode, loaded, of the given type, with every block a hole. */
    method Makeobj(kind: nat) returns (err: Error, ino: nat)
      requires Valid() && kind in {TYPE_FILE, TYPE_DIR}
      modifies this, freemap
      ensures Valid() && !err.TooBig? && SameData(old(s), s) && SameMeta(old(s), s)
      ensures err.NoSpace? <==> forall x: nat :: x < nblocks ==> x in old(s).used
      ensures err.NoSpace? ==> s == old(s)
      ensures err.Ok? ==> ino !in old(s).used && ino !in old(s).inodes && s.inodes == old(s).inodes + {ino}
      ensures err.Ok? ==> vnodes == old(vnodes)[ino := Vnode(EmptyInode(kind), true)] && s.used == old(s).used + {ino}
      ensures err.Ok? ==> 0 < ino < WORD && forall k :: 0 <= k < MAXBLOCKS ==> Data(s, ino, k) == Zeros()
    {
      NothingChanged(s, Super);
      DiskSize(s);
      hide FsInv, Shape, Data, Zeros, Decode, NewInode, SameMeta, SameData;
      err, ino := Balloc();
      if !err.Ok? {
        return err, 0;
      }
      DecodeZeros();
      NewInodeIs(s, ino, kind);
      assert disk[ino] == Zeros();
      var n := Decode(disk[ino]);
      assert n.kind == 0;
      vnodes := vnodes[ino := Vnode(n.(kind := kind), true)];
      s := NewInode(s, ino, kind);
    }

    /** The storage half of letting go of a vnode: without links the file's blocks and its inode are given up, and
        otherwise the inode is written back; either way it is no longer loaded. */
    method Reclaim(ino: nat)
      requires Valid() && ino in vnodes
      modifies this, freemap
      ensures Valid() && vnodes == old(vnodes) - {ino} && Shape(old(s)) && Shape(s)
      ensures var gone := old(vnodes)[ino].inode.links == 0;
              && s.inodes == (if gone then old(s).inodes - {ino} else old(s).inodes)
              && (forall i, k :: i in s.inodes && 0 <= k < MAXBLOCKS ==> SameBlock(old(s), s, i, k))
              && SameMeta(old(s), s)
              && (gone ==> ino !in s.used)
              && (!gone ==> Cur(s, ino) == old(vnodes)[ino].inode)
    {
      hide FsInv, Shape, MapOf, Data, Truncated, Decode, SameBlock, Cur, SameData, SameMeta, InodeOk, IsBlock,
           DropInode;
      NothingChanged(s, Super);
      SelfSame(s);
      LoadedOk(s, ino);
      ghost var s0 := s;
      var gone := vnodes[ino].inode.links == 0;
      if gone {
        Itrunc(ino, 0);
        TruncatedLoaded(s0, s, ino, 0);
        LoadedOk(s, ino);
        TruncatedBare(s0, s, ino);
      }
      ghost var s1 := s;
      SyncInode(ino);
      ghost var s2 := s;
      LoadedOk(s2, ino);
      if gone {
        ReclaimGone(s0, s1, s2, DropInode(s2, ino), ino);
        DropInodeIs(s2, ino);
        Bfree(ino);
        vnodes := vnodes - {ino};
        s := DropInode(s, ino);
      } else {
        ReclaimKept(s0, s2, ino);
        vnodes := vnodes - {ino};
        s := s.(vnodes := s.vnodes - {ino});
      }
    }
  }

  lemma UsedBelow(s: Fs)
    requires FsInv(s)
    ensures forall b :: b in s.used ==> b < s.nblocks
  {
    forall b | b in s.used ensures b < s.nblocks { assert BlockOk(s, b); }
  }

  lemma MapThere(v: seq<seq<bool>>, disk: seq<seq<nat>>, n: nat, j: nat)
    requires MapOnDisk(v, disk, n) && j < n
    ensures FREEMAP_START + j < |disk|
  {
  }

  lemma FreemapThere(s: Fs)
    requires FsInv(s)
    ensures FREEMAP_START + FreemapBlocks(s.nblocks) <= |s.disk|
  {
    var n := FreemapBlocks(s.nblocks);
    ZeroIsTaken(s);
    assert n > 0;
    OneOwnerEach(s, FreemapBlock(n - 1), Super);
  }

  lemma StartOnDisk(v: seq<seq<bool>>, disk: seq<seq<nat>>, n: nat)
    requires FREEMAP_START + n <= |disk|
    ensures MapOnDisk(v, disk, 0)
  {
  }

  lemma NextOnDisk(v: seq<seq<bool>>, disk: seq<seq<nat>>, j: nat)
    requires MapOnDisk(v, disk, j) && FREEMAP_START + j < |disk| && BLOCKSIZE * (j + 1) <= |v|
    ensures MapOnDisk(v, disk[FREEMAP_START + j := MapBlock(v, j)], j + 1)
  {
    hide MapBlock;
  }

  lemma FreemapStep(s0: Fs, s: Fs, s2: Fs, j: nat)
    requires FsInv(s) && j < FreemapBlocks(s.nblocks) && Shape(s0) && Shape(s) && SameFiles(s0, s)
    requires FREEMAP_START + j < |s.disk| == |s2.disk| && IsBlock(s2.disk[FREEMAP_START + j])
    requires s2 == s.(disk := s.disk[FREEMAP_START + j := s2.disk[FREEMAP_START + j]])
    ensures FsInv(s2) && Shape(s2) && SameFiles(s0, s2)
  {
    hide Owned, MapOf, Data, Cur, IsBlock;
    FreemapContents(s, s2, j);
  }

  /** Length in blocks, rounded up, as the source's 32-bit variable holds it. */
  function BlockLength(len: nat): nat { (len + BLOCKSIZE - 1) / BLOCKSIZE % WORD }

  /** File block `k` survives truncation to `blocklen` blocks. */
  predicate Survives(blocklen: nat, k: nat) { if k < NDIRECT then k < blocklen else k <= blocklen }

  ghost predicate Truncated(s: Fs, s2: Fs, ino: nat, blocklen: nat, size: nat)
  {
    && Shape(s) && Shape(s2) && s2.inodes == s.inodes && s2.vnodes.Keys == s.vnodes.Keys && ino in s.inodes
    && (forall i, k :: i in s.inodes && 0 <= k < MAXBLOCKS && (i != ino || Survives(blocklen, k)) ==>
         SameBlock(s, s2, i, k))
    && (forall k :: 0 <= k < MAXBLOCKS && !Survives(blocklen, k) ==> MapOf(s2, ino, k) == 0)
    && (forall i :: i in s.inodes && i != ino ==> Cur(s2, i).size == Cur(s, i).size)
    && (forall i :: i in s.inodes ==> Cur(s2, i).kind == Cur(s, i).kind && Cur(s2, i).links == Cur(s, i).links)
    && Cur(s2, ino).size == size && (blocklen == 0 ==> Cur(s2, ino).indirect == 0)
  }

  /** What cutting a file to `len` bytes leaves: every byte below, and the blocks that hold one; no direct block past
      that, and of the others only the one that begins within a block of the end. */
  ghost predicate CutTo(s: Fs, s2: Fs, ino: nat, len: nat)
  {
    && Shape(s) && Shape(s2) && ino in s.inodes && ino in s2.inodes
    && (forall x :: 0 <= x < len && x < MAXSIZE ==> Content(s2, ino, x) == Content(s, ino, x))
    && (forall k :: 0 <= k < MAXBLOCKS && BLOCKSIZE * k < len ==> MapOf(s2, ino, k) == MapOf(s, ino, k))
    && (forall k :: 0 <= k < NDIRECT && BLOCKSIZE * k >= len ==> MapOf(s2, ino, k) == 0)
    && (forall k :: NDIRECT <= k < MAXBLOCKS && BLOCKSIZE * k >= len ==>
          MapOf(s2, ino, k) == if BLOCKSIZE * (k - 1) < len then MapOf(s, ino, k) else 0)
  }

  /** The length in blocks counts the blocks that begin below the length. */
  lemma BlocksBelow(len: nat, k: nat)
    ensures var m := if len % OFFSETS <= OFFSETS - BLOCKSIZE then len % OFFSETS else 0;
            k < BlockLength(len) <==> BLOCKSIZE * k < m
  {
    var q, r := len / OFFSETS, len % OFFSETS;
    var up := (r + BLOCKSIZE - 1) / BLOCKSIZE;
    assert len + BLOCKSIZE - 1 == BLOCKSIZE * (WORD * q) + (r + BLOCKSIZE - 1);
    assert (len + BLOCKSIZE - 1) / BLOCKSIZE == WORD * q + up;
    assert BLOCKSIZE * up < r + BLOCKSIZE <= BLOCKSIZE * up + BLOCKSIZE;
    assert (WORD * q + up) % WORD == up % WORD;
  }

  /** Cutting at `len` keeps every block below it exactly for lengths of which no block length overflows 32 bits, or
      overflows to one that covers all a file can have. */
  lemma KeepsWhatIsBelow(len: nat)
    ensures (forall k :: 0 <= k < MAXBLOCKS && BLOCKSIZE * k < len ==> Survives(BlockLength(len), k)) <==>
            len <= OFFSETS - BLOCKSIZE ||
            BLOCKSIZE * (MAXBLOCKS - 2) < len % OFFSETS <= OFFSETS - BLOCKSIZE
  {
    hide BlockLength;
    if len > OFFSETS - BLOCKSIZE {
      BlocksBelow(len, MAXBLOCKS - 2);
      assert BLOCKSIZE * (MAXBLOCKS - 1) < len;
      assert Survives(BlockLength(len), MAXBLOCKS - 1) <==> MAXBLOCKS - 2 < BlockLength(len);
    } else {
      forall k | 0 <= k < MAXBLOCKS && BLOCKSIZE * k < len ensures Survives(BlockLength(len), k) {
        BlocksBelow(len, k);
      }
    }
  }

  lemma TruncatedCuts(s: Fs, s2: Fs, ino: nat, len: nat, size: nat)
    requires Truncated(s, s2, ino, BlockLength(len), size)
    ensures CutTo(s, s2, ino, if len % OFFSETS <= OFFSETS - BLOCKSIZE then len % OFFSETS else 0)
  {
    var m := if len % OFFSETS <= OFFSETS - BLOCKSIZE then len % OFFSETS else 0;
    hide BlockLength, Shape, MapOf, Data, Cur;
    forall k | 0 <= k < MAXBLOCKS
      ensures Survives(BlockLength(len), k) <==>
              if k < NDIRECT then BLOCKSIZE * k < m else BLOCKSIZE * (k - 1) < m
    {
      BlocksBelow(len, if k < NDIRECT then k else k - 1);
    }
    forall k | 0 <= k < MAXBLOCKS && Survives(BlockLength(len), k)
      ensures MapOf(s2, ino, k) == MapOf(s, ino, k) && Data(s2, ino, k) == Data(s, ino, k)
    {
      assert SameBlock(s, s2, ino, k);
    }
    forall x | 0 <= x < m && x < MAXSIZE ensures Content(s2, ino, x) == Content(s, ino, x) {
      assert Survives(BlockLength(len), x / BLOCKSIZE);
    }
  }

  lemma ClearedLoaded(s: Fs, s2: Fs, ino: nat, gone: set<nat>)
    requires Cleared(s, s2, ino, gone)
    ensures Shape(s) && Shape(s2) && s2.vnodes.Keys == s.vnodes.Keys && s2.inodes == s.inodes && ino in s.inodes
  {
  }

  lemma ClearedTwice(s0: Fs, s1: Fs, s2: Fs, ino: nat, a: set<nat>, b: set<nat>)
    requires Cleared(s0, s1, ino, a) && Cleared(s1, s2, ino, b)
    ensures Cleared(s0, s2, ino, a + b)
  {
    hide Shape, MapOf, Cur, Data;
    forall i, k | i in s0.inodes && 0 <= k < MAXBLOCKS && !(i == ino && k in a + b) ensures SameBlock(s0, s2, i, k) {
      assert SameBlock(s0, s1, i, k) && SameBlock(s1, s2, i, k);
    }
    forall k | k in a + b && k < MAXBLOCKS ensures MapOf(s2, ino, k) == 0 {
      if k !in b { assert SameBlock(s1, s2, ino, k); }
    }
  }

  /** Nothing in the indirect part needs to go: there is none, or the new end is past it. */
  lemma NoEntries(s: Fs, ino: nat, blocklen: nat)
    requires FsInv(s) && ino in s.vnodes && (blocklen >= MAXBLOCKS - 1 || s.vnodes[ino].inode.indirect == 0)
    ensures Cleared(s, s, ino, Gone(NDIRECT, blocklen + 1, MAXBLOCKS))
  {
    LoadedOk(s, ino);
    ClearedNothing(s, ino);
    var gone := Gone(NDIRECT, blocklen + 1, MAXBLOCKS);
    hide Owned;
    if blocklen >= MAXBLOCKS - 1 {
      assert gone == {};
    } else {
      forall k | k in gone && k < MAXBLOCKS ensures MapOf(s, ino, k) == 0 {}
    }
  }

  /** With every entry gone the indirect block has gone too. */
  lemma EmptyAtZero(s1: Fs, s2: Fs, ino: nat, blocklen: nat)
    requires Cleared(s1, s2, ino, Gone(NDIRECT, blocklen + 1, MAXBLOCKS))
    requires Cur(s2, ino).indirect == 0 || blocklen >= MAXBLOCKS - 1
          || exists k :: NDIRECT <= k < MAXBLOCKS && MapOf(s2, ino, k) != 0
    ensures blocklen == 0 ==> Cur(s2, ino).indirect == 0
  {
    hide Shape, Cur, MapOf, SameBlock, SameMeta;
    if blocklen == 0 {
      forall k | NDIRECT <= k < MAXBLOCKS ensures MapOf(s2, ino, k) == 0 {
        assert k in Gone(NDIRECT, 1, MAXBLOCKS);
      }
    }
  }

  lemma ResizedReads(s: Fs, s2: Fs, ino: nat, size: nat)
    requires FsInv(s) && ino in s.vnodes && InodeOk(s.vnodes[ino].inode) && size < WORD
    requires s2 == s.(vnodes := s.vnodes[ino := Vnode(s.vnodes[ino].inode.(size := size), true)])
    ensures FsInv(s2) && Shape(s) && Shape(s2) && ino in s.inodes && SameData(s, s2)
    ensures forall i, k :: i in s.inodes && 0 <= k < MAXBLOCKS ==> MapOf(s2, i, k) == MapOf(s, i, k)
    ensures forall i :: i in s.inodes && i != ino ==> Cur(s2, i) == Cur(s, i)
    ensures Cur(s2, ino) == Cur(s, ino).(size := size)
  {
    hide Owned, MapOf, Data;
    SetMetaKeeps(s, s2, ino, s.vnodes[ino].inode.(size := size));
  }

  lemma SizeSet(s0: Fs, s2: Fs, s3: Fs, ino: nat, blocklen: nat, size: nat)
    requires Cleared(s0, s2, ino, Gone(0, blocklen, NDIRECT) + Gone(NDIRECT, blocklen + 1, MAXBLOCKS)) && FsInv(s2)
    requires ino in s2.vnodes && InodeOk(s2.vnodes[ino].inode) && size < WORD
    requires (blocklen == 0 ==> Cur(s2, ino).indirect == 0)
    requires s3 == s2.(vnodes := s2.vnodes[ino := Vnode(s2.vnodes[ino].inode.(size := size), true)])
    ensures FsInv(s3) && Truncated(s0, s3, ino, blocklen, size)
  {
    hide FsInv, MapOf, Data, Shape, Cur, InodeOk;
    LoadedOk(s2, ino);
    ResizedReads(s2, s3, ino, size);
    var gone := Gone(0, blocklen, NDIRECT) + Gone(NDIRECT, blocklen + 1, MAXBLOCKS);
    forall i, k | i in s0.inodes && 0 <= k < MAXBLOCKS && (i != ino || Survives(blocklen, k))
      ensures SameBlock(s0, s3, i, k)
    {
      assert SameBlock(s0, s2, i, k);
    }
    forall k | 0 <= k < MAXBLOCKS && !Survives(blocklen, k) ensures MapOf(s3, ino, k) == 0 {
      assert k in gone;
    }
  }

  lemma TruncatedLoaded(s: Fs, s2: Fs, ino: nat, size: nat)
    requires Truncated(s, s2, ino, 0, size)
    ensures Shape(s) && Shape(s2) && s2.vnodes.Keys == s.vnodes.Keys && s2.inodes == s.inodes
  {
  }

  lemma TruncatedBare(s: Fs, s2: Fs, ino: nat)
    requires Truncated(s, s2, ino, 0, 0) && ino in s2.vnodes
    ensures s2.vnodes[ino].inode.indirect == 0
  {
    assert Cur(s2, ino) == s2.vnodes[ino].inode;
  }

  lemma CleanInode(s: Fs, ino: nat)
    requires FsInv(s) && ino in s.vnodes
    ensures ino < |s.disk| && IsBlock(s.disk[ino])
    ensures (!s.vnodes[ino].dirty ==> Decode(s.disk[ino]) == s.vnodes[ino].inode)
  {
    hide Owned;
  }

  lemma InodeOffMap(s: Fs, ino: nat)
    requires FsInv(s) && ino in s.vnodes
    ensures !(FREEMAP_START <= ino < FREEMAP_START + FreemapBlocks(s.nblocks))
  {
    hide FreemapBlocks;
    LoadedOk(s, ino);
    OffFreemap(s, InodeBlock(ino));
  }

  lemma SyncFiles(s: Fs, s2: Fs, ino: nat)
    requires FsInv(s) && ino in s.vnodes && InodeOk(s.vnodes[ino].inode) && ino < |s.disk|
    requires s2 == s.(disk := s.disk[ino := Encode(s.vnodes[ino].inode)],
             vnodes := s.vnodes[ino := s.vnodes[ino].(dirty := false)])
    ensures FsInv(s2) && Shape(s) && Shape(s2) && SameData(s, s2) && SameMeta(s, s2)
    ensures IsBlock(s2.disk[ino]) && Decode(s2.disk[ino]) == s.vnodes[ino].inode
    ensures forall i, k :: i in s.inodes && 0 <= k < MAXBLOCKS ==> MapOf(s2, i, k) == MapOf(s, i, k)
  {
    LoadedOk(s, ino);
    hide Owned, MapOf, Decode, Encode;
    SyncKeeps(s, s2, ino);
    assert forall i :: i in s.inodes && i != ino ==> Cur(s2, i) == Cur(s, i);
  }

  lemma NewInodeIs(s: Fs, b: nat, kind: nat)
    requires FsInv(s) && b < s.nblocks && b !in s.used && kind in {TYPE_FILE, TYPE_DIR} && b < |s.disk|
    ensures var s2 := NewInode(s, b, kind);
            && FsInv(s2) && Shape(s) && Shape(s2) && SameData(s, s2) && SameMeta(s, s2)
            && b !in s.inodes && s2.inodes == s.inodes + {b}
            && (forall k :: 0 <= k < MAXBLOCKS ==> Data(s2, b, k) == Zeros())
            && s2.vnodes == s.vnodes[b := Vnode(EmptyInode(kind), true)]
            && s2 == Pending(s, b).(owner := s2.owner, inodes := s2.inodes, vnodes := s2.vnodes)
  {
    hide Owned, Data;
    NewInodeKeeps(s, b, kind);
    NewInodeFrame(s, b, kind);
  }

  lemma DiskSize(s: Fs)
    requires FsInv(s)
    ensures |s.disk| == s.nblocks < WORD
  {
    hide Owned;
  }

  lemma SelfSame(s: Fs)
    requires Shape(s)
    ensures SameData(s, s)
  {
  }

  lemma DropInodeIs(s: Fs, ino: nat)
    ensures DropInode(s, ino).vnodes == s.vnodes - {ino} && DropInode(s, ino).inodes == s.inodes - {ino}
    ensures DropInode(s, ino) == s.(used := s.used - {ino}, owner := DropInode(s, ino).owner,
                                    inodes := s.inodes - {ino}, vnodes := s.vnodes - {ino})
  {
  }

  lemma DroppedReads(s: Fs, ino: nat)
    requires FsInv(s) && FsInv(DropInode(s, ino))
    ensures Shape(s) && Shape(DropInode(s, ino))
    ensures forall i :: i in s.inodes && i != ino ==> Cur(DropInode(s, ino), i) == Cur(s, i)
  {
    hide Owned;
  }

  lemma ReclaimGone(s0: Fs, s1: Fs, s2: Fs, s3: Fs, ino: nat)
    requires Shape(s0) && Shape(s1) && Shape(s2) && ino in s2.inodes
    requires s2.inodes == s1.inodes && SameData(s1, s2) && SameMeta(s1, s2)
    requires forall i, k :: i in s2.inodes && 0 <= k < MAXBLOCKS ==> MapOf(s2, i, k) == MapOf(s1, i, k)
    requires Truncated(s0, s1, ino, 0, 0) && ino in s2.vnodes && s2.vnodes[ino].inode.indirect == 0
    requires FsInv(s2) && s3 == DropInode(s2, ino)
    ensures ino in s2.used && ino < s2.nblocks
    ensures Shape(s3) && s3.inodes == s0.inodes - {ino}
    ensures SameMeta(s0, s3)
    ensures forall i, k :: i in s0.inodes && i != ino && 0 <= k < MAXBLOCKS ==> SameBlock(s0, s3, i, k)
    ensures FsInv(s3)
  {
    hide FsInv, MapOf, Data, DropInode, Shape, Cur;
    LoadedOk(s2, ino);
    MappedIsMarked(s2, ino, 0);
    forall k | 0 <= k < MAXBLOCKS ensures MapOf(s2, ino, k) == 0 { assert !Survives(0, k); }
    DropInodeKeeps(s2, ino);
    DropInodeIs(s2, ino);
    DroppedReads(s2, ino);
    forall i, k | i in s0.inodes && i != ino && 0 <= k < MAXBLOCKS ensures SameBlock(s0, s3, i, k) {
      assert SameBlock(s0, s1, i, k);
    }
  }

  lemma ReclaimKept(s0: Fs, s2: Fs, ino: nat)
    requires FsInv(s2) && Shape(s0) && ino in s2.vnodes && !s2.vnodes[ino].dirty && s2.inodes == s0.inodes
    requires SameData(s0, s2)
    requires SameMeta(s0, s2)
    requires forall i, k :: i in s2.inodes && 0 <= k < MAXBLOCKS ==> MapOf(s2, i, k) == MapOf(s0, i, k)
    ensures var s3 := s2.(vnodes := s2.vnodes - {ino});
            && FsInv(s3) && Shape(s3) && ino in s3.inodes && Cur(s3, ino) == s2.vnodes[ino].inode && SameMeta(s0, s3)
            && forall i, k :: i in s3.inodes && 0 <= k < MAXBLOCKS ==> SameBlock(s0, s3, i, k)
  {
    hide FsInv, MapOf, Data, Shape, Cur;
    var s3 := s2.(vnodes := s2.vnodes - {ino});
    ForgetKeeps(s2, s3, ino);
    LoadedOk(s2, ino);
    ForgottenReads(s2, ino);
  }

  lemma ForgottenReads(s: Fs, ino: nat)
    requires FsInv(s) && ino in s.vnodes && !s.vnodes[ino].dirty
    ensures var s2 := s.(vnodes := s.vnodes - {ino});
            Shape(s) && Shape(s2) && forall i :: i in s.inodes ==> Cur(s2, i) == Cur(s, i)
  {
    hide Owned;
  }

  lemma EntryAbsent(s0: Fs, s: Fs, ino: nat, j: nat, gone: set<nat>)
    requires FsInv(s) && ino in s.inodes && j < DBPERIDB && MapOf(s, ino, NDIRECT + j) == 0 && Cleared(s0, s, ino, gone)
    ensures Cleared(s0, s, ino, gone + {NDIRECT + j})
  {
    hide Owned, MapOf, Data;
    ClearOne(s0, s, s, ino, gone, NDIRECT + j);
  }

  lemma BufferIs(s: Fs, ino: nat, idbuf: seq<nat>)
    requires FsInv(s) && ino in s.vnodes && 0 < s.vnodes[ino].inode.indirect < s.nblocks == |s.disk|
    requires IsBlock(s.disk[s.vnodes[ino].inode.indirect]) && WordsOf(s.disk[s.vnodes[ino].inode.indirect]) == idbuf
    ensures Shape(s) && ino in s.inodes && |idbuf| == DBPERIDB
    ensures forall k :: NDIRECT <= k < MAXBLOCKS ==> MapOf(s, ino, k) == idbuf[k - NDIRECT]
  {
    LoadedOk(s, ino);
    forall k | NDIRECT <= k < MAXBLOCKS ensures MapOf(s, ino, k) == idbuf[k - NDIRECT] {
      hide FsInv, MapOf, WordsOf, IsBlock;
      EntryBlock(s, ino, k - NDIRECT);
      assert NDIRECT + (k - NDIRECT) == k;
    }
  }

  lemma TakeIndirectIs(s: Fs, ino: nat)
    requires ino in s.vnodes
    ensures var d := s.vnodes[ino].inode.indirect;
            && TakeIndirect(s, ino).vnodes == s.vnodes[ino := Vnode(s.vnodes[ino].inode.(indirect := 0), true)]
            && TakeIndirect(s, ino) == s.(used := s.used - {d}, owner := TakeIndirect(s, ino).owner,
                 vnodes := TakeIndirect(s, ino).vnodes)
  {
  }

  lemma TakeEntryIs(s: Fs, ino: nat, j: nat)
    requires Shape(s) && ino in s.inodes && j < DBPERIDB && Cur(s, ino).indirect < s.nblocks
    ensures var d := Cur(s, ino).indirect;
            TakeEntry(s, ino, j) == s.(used := s.used - {MapOf(s, ino, NDIRECT + j)},
                owner := TakeEntry(s, ino, j).owner,
                                       disk := s.disk[d := Bytes(WordsOf(s.disk[d])[j := 0])])
  {
    hide MapOf, Bytes, WordsOf, Cur;
  }

  /** The emptied indirect block goes: what the disk still holds there does not matter. */
  lemma IndirectFreed(s0: Fs, s: Fs, disk: seq<seq<nat>>, ino: nat, gone: set<nat>)
    requires FsInv(s) && ino in s.vnodes && InodeOk(s.vnodes[ino].inode) && s.vnodes[ino].inode.indirect != 0
    requires Cleared(s0, s, ino, gone)
    requires forall k :: NDIRECT <= k < MAXBLOCKS ==> MapOf(s, ino, k) == 0
    requires var d := s.vnodes[ino].inode.indirect;
             |disk| == |s.disk| && (d < |disk| ==> IsBlock(disk[d]) && disk == s.disk[d := disk[d]])
    ensures var s2 := TakeIndirect(s, ino).(disk := disk);
            && FsInv(s2) && Cleared(s0, s2, ino, gone) && s.vnodes[ino].inode.indirect in s.used
            && s.vnodes[ino].inode.indirect < s.nblocks
            && Shape(s2) && ino in s2.inodes && Cur(s2, ino).indirect == 0
  {
    hide Owned, MapOf, Data, Cleared;
    assert ino in s.inodes && Shape(s) && |s.disk| == s.nblocks;
    MappedIsMarked(s, ino, 0);
    TakeIndirectKeeps(s, ino);
    var s1 := TakeIndirect(s, ino);
    var s2 := s1.(disk := disk);
    var d := s.vnodes[ino].inode.indirect;
    assert SameMeta(s, s1) && s1.nblocks == s.nblocks && s1.vnodes.Keys == s.vnodes.Keys;
    assert forall i, k :: i in s.inodes && 0 <= k < MAXBLOCKS ==> DataBlock(i, k) != IndirectBlock(ino);
    ClearNone(s0, s, s1, ino, gone);
    FreeContents(s1, s2, d);
    ClearNone(s0, s1, s2, ino, gone);
  }

  lemma TakeDirectIs(s: Fs, ino: nat, k: nat)
    requires ino in s.vnodes && k < |s.vnodes[ino].inode.direct|
    ensures var n := s.vnodes[ino].inode;
            && TakeDirect(s, ino, k).vnodes == s.vnodes[ino := Vnode(n.(direct := n.direct[k := 0]), true)]
            && TakeDirect(s, ino, k) == s.(used := s.used - {n.direct[k]}, owner := TakeDirect(s, ino, k).owner,
                                           vnodes := TakeDirect(s, ino, k).vnodes)
  {
  }

  /** File blocks in [lo, hi) from which `blocklen` onwards go. */
  ghost function Gone(lo: nat, from: nat, hi: nat): set<nat> { set k: nat | k < hi && AtLeast(k, lo, from) }

  predicate AtLeast(k: nat, lo: nat, from: nat) { lo <= k && from <= k }

  lemma DirectFreed(s0: Fs, s: Fs, ino: nat, k: nat, gone: set<nat>)
    requires FsInv(s) && ino in s.vnodes && k < NDIRECT && InodeOk(s.vnodes[ino].inode) && Cleared(s0, s, ino, gone)
    ensures var b := s.vnodes[ino].inode.direct[k];
            if b == 0 then Cleared(s0, s, ino, gone + {k})
            else
              && b in s.used && b < s.nblocks && FsInv(TakeDirect(s, ino, k))
              && Cleared(s0, TakeDirect(s, ino, k), ino, gone + {k})
  {
    hide Owned, MapOf, Data;
    assert ino in s.inodes && Shape(s);
    DirectIs(s, ino, k);
    if s.vnodes[ino].inode.direct[k] == 0 {
      ClearOne(s0, s, s, ino, gone, k);
    } else {
      MappedIsMarked(s, ino, k);
      var s2 := TakeDirect(s, ino, k);
      TakeDirectKeeps(s, ino, k);
      assert SameMeta(s, s2) by { hide Cleared; }
      ClearOne(s0, s, s2, ino, gone, k);
    }
  }

  lemma EntryFreed(s0: Fs, s: Fs, ino: nat, j: nat, gone: set<nat>)
    requires FsInv(s) && ino in s.inodes && j < DBPERIDB && 0 < Cur(s, ino).indirect < s.nblocks
    requires MapOf(s, ino, NDIRECT + j) != 0 && Cleared(s0, s, ino, gone)
    ensures MapOf(s, ino, NDIRECT + j) in s.used && MapOf(s, ino, NDIRECT + j) < s.nblocks
    ensures FsInv(TakeEntry(s, ino, j)) && Cleared(s0, TakeEntry(s, ino, j), ino, gone + {NDIRECT + j})
    ensures Cur(TakeEntry(s, ino, j), ino) == Cur(s, ino)
    ensures WordsOf(TakeEntry(s, ino, j).disk[Cur(s, ino).indirect]) == WordsOf(s.disk[Cur(s, ino).indirect])[j := 0]
  {
    hide Owned, MapOf, Data;
    MappedIsMarked(s, ino, NDIRECT + j);
    TakeEntryKeeps(s, ino, j);
    TakeEntryFacts(s, ino, j);
    var s2 := TakeEntry(s, ino, j);
    assert SameMeta(s, s2) by { hide Shape, TakeEntry, Cleared; }
    hide Shape, Cur, WordsOf, Kept, SameDataBlocks;
    ClearOne(s0, s, s2, ino, gone, NDIRECT + j);
  }

  lemma NoIndirect(s: Fs, ino: nat, j: nat)
    requires FsInv(s) && ino in s.vnodes && j < DBPERIDB
    ensures Shape(s) && ino in s.inodes && (s.vnodes[ino].inode.indirect == 0 ==> MapOf(s, ino, NDIRECT + j) == 0)
  {
    hide Owned;
  }

  lemma GiveIndirectFiles(s: Fs, ino: nat, b: nat, o: Owner)
    requires FsInv(s) && ino in s.vnodes && b < s.nblocks && b !in s.used
    requires InodeOk(s.vnodes[ino].inode) && s.vnodes[ino].inode.indirect == 0
    ensures b < |s.disk| && FsInv(GiveIndirect(s, ino, b)) && SameFiles(s, GiveIndirect(s, ino, b))
    ensures MapsBut(s, GiveIndirect(s, ino, b), o) && ino in GiveIndirect(s, ino, b).vnodes
    ensures GiveIndirect(s, ino, b).vnodes[ino].inode.indirect == b
    ensures GiveIndirect(s, ino, b) == Pending(s, b).(owner := GiveIndirect(s, ino, b).owner,
            vnodes := GiveIndirect(s, ino, b).vnodes)
    ensures GiveIndirect(s, ino, b).vnodes == s.vnodes[ino := Vnode(s.vnodes[ino].inode.(indirect := b), true)]
  {
    hide Owned;
    GiveIndirectKeeps(s, ino, b);
    assert forall i, k :: i in s.inodes && 0 <= k < MAXBLOCKS ==> DataBlock(i, k) != IndirectBlock(ino);
  }

  /** The indirect block of a loaded inode that has one, as its buffer shows it. */
  lemma EntryBlock(s: Fs, ino: nat, j: nat)
    requires FsInv(s) && ino in s.vnodes && j < DBPERIDB && s.vnodes[ino].inode.indirect != 0
    ensures Shape(s) && ino in s.inodes && |s.disk| == s.nblocks < WORD && Cur(s, ino) == s.vnodes[ino].inode
    ensures var d := s.vnodes[ino].inode.indirect;
            && d < s.nblocks && d in s.used && IsBlock(s.disk[d])
            && WordsOf(s.disk[d])[j] == MapOf(s, ino, NDIRECT + j)
  {
    hide Owned;
    MappedIsMarked(s, ino, 0);
  }

  lemma GiveEntryFiles(s0: Fs, s: Fs, ino: nat, j: nat, b: nat)
    requires FsInv(s) && ino in s.vnodes && ino in s.inodes && j < DBPERIDB && b < s.nblocks && b !in s.used
    requires Cur(s, ino) == s.vnodes[ino].inode && 0 < Cur(s, ino).indirect < s.nblocks
    requires MapOf(s, ino, NDIRECT + j) == 0
    requires Shape(s0) && SameFiles(s0, s) && MapsBut(s0, s, DataBlock(ino, NDIRECT + j))
    ensures FsInv(GiveEntry(s, ino, j, b)) && SameFiles(s0, GiveEntry(s, ino, j, b))
    ensures MapsBut(s0, GiveEntry(s, ino, j, b), DataBlock(ino, NDIRECT + j))
    ensures MapOf(GiveEntry(s, ino, j, b), ino, NDIRECT + j) == b
    ensures var d := s.vnodes[ino].inode.indirect;
            && b != d && IsBlock(s.disk[d])
            && GiveEntry(s, ino, j, b) ==
                 Pending(s, b).(owner := GiveEntry(s, ino, j, b).owner,
                                disk := s.disk[b := Zeros()][d := Bytes(WordsOf(s.disk[d])[j := b])])
  {
    FreeIsNone(s, b, ino);
    hide Owned, MapOf, Cur;
    GiveEntryKeeps(s, ino, j, b);
    var d := Cur(s, ino).indirect;
    assert s.disk[b := Zeros()][d := Bytes(WordsOf(s.disk[d])[j := b])] ==
        s.disk[d := Bytes(WordsOf(s.disk[d])[j := b])][b := Zeros()];
  }

  lemma ZeroBlock(s: Fs)
    requires FsInv(s)
    ensures s.nblocks > 0
  {
    ZeroIsTaken(s);
  }

  lemma NothingChanged(s: Fs, o: Owner)
    requires FsInv(s)
    ensures Shape(s) && SameFiles(s, s) && MapsBut(s, s, o)
  {
    hide Owned;
  }

  lemma DirectBlock(s: Fs, ino: nat, k: nat)
    requires FsInv(s) && ino in s.vnodes && k < NDIRECT && InodeOk(s.vnodes[ino].inode)
    ensures Shape(s) && ino in s.inodes && |s.vnodes[ino].inode.direct| == NDIRECT
    ensures MapOf(s, ino, k) == s.vnodes[ino].inode.direct[k]
  {
    hide Owned;
    DirectIs(s, ino, k);
  }

  lemma MarkedBlock(s: Fs, ino: nat, k: nat)
    requires FsInv(s) && ino in s.inodes && k < MAXBLOCKS && MapOf(s, ino, k) != 0
    ensures MapOf(s, ino, k) in s.used && MapOf(s, ino, k) < s.nblocks
  {
    hide Owned;
    MappedIsMarked(s, ino, k);
  }

  lemma GiveDirectFiles(s: Fs, ino: nat, k: nat, b: nat)
    requires FsInv(s) && ino in s.vnodes && k < NDIRECT && b < s.nblocks && b !in s.used
    requires InodeOk(s.vnodes[ino].inode) && s.vnodes[ino].inode.direct[k] == 0
    ensures b < |s.disk| && FsInv(GiveDirect(s, ino, k, b)) && SameFiles(s, GiveDirect(s, ino, k, b)) && ino in s.inodes
    ensures MapsBut(s, GiveDirect(s, ino, k, b), DataBlock(ino, k)) && MapOf(GiveDirect(s, ino, k, b), ino, k) == b
  {
    hide Owned;
    GiveDirectKeeps(s, ino, k, b);
  }
}
