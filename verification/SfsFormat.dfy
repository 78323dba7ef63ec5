/** Making a volume, mounting it and mounting it again; and runs on such volumes on which a transfer does not do what
    was asked. */
module SfsFormat {
  import opened SfsLayout
  import opened SfsState
  import opened SfsVolume
  import opened SfsFile
  import Bitmap
  import Chains
  import U = Uio

  const MAXFREEMAPBLOCKS := 32

  datatype Outcome = TooLarge | TooSmall | Ready(image: seq<seq<nat>>)

  /** The blocks from `lo` on below `hi`. */
  ghost function Between(lo: nat, hi: nat): set<nat> { set b: nat | b < hi && IsPast(b, lo) }

  lemma BetweenMore(lo: nat, hi: nat)
    requires lo <= hi
    ensures Between(lo, hi + 1) == Between(lo, hi) + {hi}
  {
  }

  /** Mark the superblock, the root inode and the free map's own blocks, and everything past the volume's end. */
  method InitFreemap(n: nat) returns (m: Bitmap.Map)
    requires FREEMAP_START + FreemapBlocks(n) <= n
    ensures fresh(m) && m.Valid() && m.nbits == FreemapBits(n)
    ensures m.Set() == Between(0, FREEMAP_START + FreemapBlocks(n)) + Beyond(n)
  {
    FreemapCovers(n);
    hide FreemapBlocks, FreemapBits, Bitmap.SetOf;
    m := new Bitmap.Map(FreemapBits(n));
    m.Mark(0);
    m.Mark(ROOTDIR_INO);
    assert m.Set() == Between(0, FREEMAP_START);
    var i := 0;
    while i < FreemapBlocks(n)
      invariant 0 <= i <= FreemapBlocks(n) && m.Valid() && m.nbits == FreemapBits(n)
      invariant m.Set() == Between(0, FREEMAP_START + i)
    {
      m.Mark(FREEMAP_START + i);
      BetweenMore(0, FREEMAP_START + i);
      i := i + 1;
    }
    ghost var low := Between(0, FREEMAP_START + FreemapBlocks(n));
    i := n;
    assert m.Set() == low + Between(n, n);
    while i < FreemapBits(n)
      invariant n <= i <= FreemapBits(n) && m.Valid() && m.nbits == FreemapBits(n)
      invariant m.Set() == low + Between(n, i)
    {
      m.Mark(i);
      BetweenMore(n, i);
      i := i + 1;
    }
    assert Between(n, FreemapBits(n)) == Beyond(n);
  }

  lemma FreemapSizes(n: nat)
    ensures FreemapBlocks(n) > MAXFREEMAPBLOCKS <==> n > 0x2_0000
    ensures n < FREEMAP_START + FreemapBlocks(n) <==> n < 3
  {
  }

  /** Make a volume of `n` blocks: refused if its free map would be too large or would not fit. */
  method Format(n: nat) returns (r: Outcome, ghost v: seq<seq<bool>>)
    requires n < WORD
    ensures r.TooLarge? <==> FreemapBlocks(n) > MAXFREEMAPBLOCKS
    ensures r.TooSmall? <==> FreemapBlocks(n) <= MAXFREEMAPBLOCKS && n < FREEMAP_START + FreemapBlocks(n)
    ensures (r.TooLarge? <==> n > 0x2_0000) && (r.TooSmall? <==> n < 3)
    ensures r.Ready? ==> |r.image| == n && IsFormatted(r.image)
    ensures r.Ready? ==> Bitmap.Shaped(FreemapBits(n), v) && MapOnDisk(v, r.image, FreemapBlocks(n))
    ensures r.Ready? ==> Bitmap.SetOf(FreemapBits(n), v) == Formatted(r.image).used + Beyond(n)
  {
    v := [];
    FreemapSizes(n);
    if FreemapBlocks(n) > MAXFREEMAPBLOCKS {
      return TooLarge, v;
    }
    if n < FREEMAP_START + FreemapBlocks(n) {
      return TooSmall, v;
    }
    var m := InitFreemap(n);
    v := m.v;
    MapIsBlocks(n, v);
    hide Bitmap.SetOf, FreemapBlocks, Encode, Zeros, MapBlock, MapOnDisk, IsBlock;
    var image := seq(n, _ => Zeros());
    StartOnDisk(v, image, FreemapBlocks(n));
    var j := 0;
    while j < FreemapBlocks(n)
      invariant 0 <= j <= FreemapBlocks(n) && |image| == n && MapOnDisk(m.v, image, j) && m.v == v
      invariant forall b :: 0 <= b < n ==> IsBlock(image[b])
    {
      MapBlockOk(v, FreemapBlocks(n), j);
      NextOnDisk(v, image, j);
      image := image[FREEMAP_START + j := MapBlock(m.v, j)];
      j := j + 1;
    }
    var root := Inode(0, TYPE_DIR, 1, seq(NDIRECT, _ => 0), 0);
    MapElsewhere(v, image, FreemapBlocks(n), ROOTDIR_INO, Encode(root));
    image := image[ROOTDIR_INO := Encode(root)];
    assert Formatted(image).used == Between(0, FREEMAP_START + FreemapBlocks(n));
    r := Ready(image);
  }

  /** Unmounting, which asks that nothing is loaded and the map is written, and mounting again finds the same volume. */
  method Remount(vol: Volume) returns (vol2: Volume)
    requires vol.Valid() && vol.vnodes == map[] && !vol.freemapDirty
    ensures vol2.Valid() && vol2.s == vol.s && fresh(vol2)
  {
    MarkedIs(vol);
    hide FsInv, MapOnDisk;
    DiskSize(vol.s);
    vol2 := new Volume(vol.disk, vol.s, vol.freemap.v);
  }

  lemma MarkedIs(vol: Volume)
    requires vol.Valid()
    ensures vol.freemap.Set() == vol.s.used + Beyond(vol.nblocks)
  {
    hide FsInv;
  }

  // ---- Runs that go wrong ----

  /** A whole-block transfer to disk block 2^23 overwrites the superblock. */
  method FarBlock(vol: Volume, u: U.Request) returns (ghost bytes: seq<nat>)
    requires u.Valid() && u.writing && u.resid >= BLOCKSIZE && |vol.disk| > 0 && |vol.disk[0]| == BLOCKSIZE
    modifies vol`disk, u
    ensures vol.disk == old(vol.disk)[0 := bytes] && |bytes| == BLOCKSIZE
    ensures bytes == old(u.Memory())[old(u.Done())..old(u.Done()) + BLOCKSIZE]
  {
    assert DeviceBlock(0x80_0000) == 0;
    hide DeviceBlock, U.Flat;
    bytes := Direct(vol, u, 0x80_0000);
  }

  /** One byte written at offset 2^41 of a file that has a first block becomes its first byte, and the file's recorded
      length becomes 1. */
  method FarWrite(vol: Volume, ino: nat, x: nat)
    requires vol.Valid() && ino in vol.vnodes && x < 256 && Shape(vol.s) && ino in vol.s.inodes
    requires MapOf(vol.s, ino, 0) != 0
    modifies vol, vol.freemap
    ensures vol.Valid() && Shape(vol.s) && ino in vol.s.inodes
    ensures Content(vol.s, ino, 0) == x && Cur(vol.s, ino).size == 1
  {
    ghost var s := vol.s;
    var u := new U.Request(true, [[x]], OFFSETS, 1);
    assert u.Memory() == [x] + U.Flat([]);
    assert FileBlock(OFFSETS) == 0;
    LoadedOk(s, ino);
    assert Cur(s, ino).size < WORD;
    hide FsInv, Shape, MapOf, Cur, Content, Sized, FileBlock, Did;
    NoWholeBlock(s, ino, OFFSETS, true);
    var err;
    ghost var bytes;
    err, bytes := Io(vol, ino, u);
    assert !err.NoSpace?;
    WentFar(s, vol.s, ino, bytes, x, err);
  }

  lemma NoWholeBlock(s: Fs, ino: nat, off: nat, writing: bool)
    requires Shape(s) && ino in s.inodes
    ensures Low(s, ino, off, 1, writing)
  {
  }

  lemma WentFar(s: Fs, s2: Fs, ino: nat, bytes: seq<nat>, x: nat, err: Error)
    requires Did(s, s2, ino, OFFSETS, bytes, true) && Shape(s) && Shape(s2) && ino in s.inodes
    requires Cur(s, ino).size < WORD
    requires Sized(s, s2, ino, SizeAfter(Cur(s, ino).size, OFFSETS, |bytes|, true)) && bytes <= [x] && |bytes| <= 1
    requires err.Ok? ==> |bytes| == 1
    requires err.TooBig? ==> PastEnd(OFFSETS, |bytes|)
    requires !err.NoSpace?
    ensures ino in s2.inodes && Content(s2, ino, 0) == x && Cur(s2, ino).size == 1
  {
    hide Shape, Content, Cur;
    assert FileBlock(OFFSETS) == 0;
    assert bytes != [];
    assert bytes == [x];
    assert OFFSETS % OFFSETS == 0 && (OFFSETS + 1) % WORD == 1;
    LandsWhereAsked(s, s2, ino, OFFSETS, bytes);
  }

  /** That happens to the first file of a new volume of 100 blocks. */
  method FarWriteOnNewVolume() returns (vol: Volume, ino: nat)
    ensures vol.Valid() && Shape(vol.s) && ino in vol.s.inodes
    ensures Content(vol.s, ino, 0) == 7 && Cur(vol.s, ino).size == 1
  {
    hide FsInv, Shape, Cur, MapOf, MapOnDisk, Bitmap.SetOf, Bitmap.Shaped, IsFormatted, Formatted, Content, SameData,
         SameMeta, MapsBut, FreemapBlocks, Beyond, Data, Zeros;
    OneMapBlock();
    var r;
    ghost var v;
    r, v := Format(100);
    NewVolume(r.image);
    vol := new Volume(r.image, Formatted(r.image), v);
    RoomLeft(vol.s, {});
    var err;
    err, ino := vol.Makeobj(TYPE_FILE);
    RoomLeft(vol.s, {ino});
    var block;
    err, block := vol.Bmap(ino, 0, true);
    LoadedOk(vol.s, ino);
    FarWrite(vol, ino, 7);
  }

  lemma OneMapBlock()
    ensures FreemapBlocks(100) == 1
  {
  }

  lemma NewVolume(image: seq<seq<nat>>)
    requires IsFormatted(image) && |image| == 100
    ensures var s := Formatted(image);
            FsInv(s) && s.used == {0, 1, 2} && s.nblocks == 100 && s.disk == image && s.vnodes == map[]
  {
    FormattedInv(image);
    OneMapBlock();
    hide FsInv, IsFormatted, FreemapBlocks;
  }

  lemma RoomLeft(s: Fs, more: set<nat>)
    requires s.used == {0, 1, 2} + more && |more| <= 1
    ensures exists x: nat :: x < 100 && x !in s.used
  {
    if 3 in more && 4 in more { assert {3, 4} <= more; Chains.SubsetSize({3, 4}, more); }
    assert 3 !in s.used || 4 !in s.used;
  }

  /** Truncating a file to 15 blocks keeps its sixteenth, file block 15. */
  method TruncateKeepsOne(vol: Volume, ino: nat)
    requires vol.Valid() && ino in vol.vnodes && Shape(vol.s) && ino in vol.s.inodes && MapOf(vol.s, ino, 15) != 0
    modifies vol, vol.freemap
    ensures vol.Valid() && Shape(vol.s) && ino in vol.s.inodes && MapOf(vol.s, ino, 15) == old(MapOf(vol.s, ino, 15))
    ensures Cur(vol.s, ino).size == 15 * BLOCKSIZE
  {
    hide FsInv, Shape, MapOf, Cur, Truncated;
    ghost var s := vol.s;
    vol.Itrunc(ino, 15 * BLOCKSIZE);
    assert BlockLength(15 * BLOCKSIZE) == 15;
    KeptOne(s, vol.s, ino);
  }

  /** A file cut to 2^41 - 1 bytes, far more than it has, loses its first block. */
  method FarTruncate(vol: Volume, ino: nat)
    requires vol.Valid() && ino in vol.vnodes && Shape(vol.s) && ino in vol.s.inodes && MapOf(vol.s, ino, 0) != 0
    modifies vol, vol.freemap
    ensures vol.Valid() && Shape(vol.s) && ino in vol.s.inodes && MapOf(vol.s, ino, 0) == 0
  {
    hide FsInv, Shape, MapOf, Cur, Truncated, CutTo;
    ghost var s := vol.s;
    vol.Itrunc(ino, OFFSETS - 1);
    CutAll(s, vol.s, ino);
  }

  lemma CutAll(s: Fs, s2: Fs, ino: nat)
    requires CutTo(s, s2, ino, 0)
    ensures Shape(s2) && ino in s2.inodes && MapOf(s2, ino, 0) == 0
  {
    hide Shape, MapOf, Data;
  }

  lemma KeptOne(s: Fs, s2: Fs, ino: nat)
    requires Truncated(s, s2, ino, 15, 15 * BLOCKSIZE)
    ensures Shape(s) && Shape(s2) && ino in s.inodes && ino in s2.inodes && MapOf(s2, ino, 15) == MapOf(s, ino, 15)
    ensures Cur(s2, ino).size == 15 * BLOCKSIZE
  {
    hide Shape, Cur, MapOf, Data;
    assert Survives(15, 15);
    assert SameBlock(s, s2, ino, 15);
  }
}
