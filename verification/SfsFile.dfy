/** Reading and writing files: requests at any offset, split over blocks, against a flat map of bytes. */
module SfsFile {
  import opened SfsLayout
  import opened SfsState
  import opened SfsVolume
  import U = Uio

  /** Disk blocks this far apart share a byte offset: it is computed in 32 bits. */
  const DEVICE_BLOCKS := 0x80_0000

  function FileBlock(offset: nat): nat { offset / BLOCKSIZE % WORD }

  function DeviceBlock(b: nat): nat { b * BLOCKSIZE % WORD / BLOCKSIZE }

  /** The block number computed for an offset is its own exactly below 2^41 bytes; beyond, an earlier offset's. */
  lemma FileBlockIs(offset: nat)
    ensures FileBlock(offset) == offset % OFFSETS / BLOCKSIZE
    ensures FileBlock(offset) == offset / BLOCKSIZE <==> offset < OFFSETS
    ensures offset % BLOCKSIZE == offset % OFFSETS % BLOCKSIZE
  {
    assert OFFSETS == WORD * BLOCKSIZE;
    var q, r := offset / OFFSETS, offset % OFFSETS;
    assert offset == WORD * BLOCKSIZE * q + r;
    assert offset / BLOCKSIZE == WORD * q + r / BLOCKSIZE;
    assert r / BLOCKSIZE < WORD;
  }

  /** The device offset computed for a whole-block transfer addresses that block exactly below block 2^23. */
  lemma DeviceBlockIs(b: nat)
    ensures DeviceBlock(b) == b % DEVICE_BLOCKS
    ensures DeviceBlock(b) == b <==> b < DEVICE_BLOCKS
    ensures b * BLOCKSIZE % WORD % BLOCKSIZE == 0
  {
    assert WORD == DEVICE_BLOCKS * BLOCKSIZE;
    var q, r := b / DEVICE_BLOCKS, b % DEVICE_BLOCKS;
    assert b * BLOCKSIZE == WORD * q + r * BLOCKSIZE;
    assert b * BLOCKSIZE % WORD == r * BLOCKSIZE;
  }

  /** Bytes [off, off + n) of a file. */
  ghost function Slice(s: Fs, ino: nat, off: nat, n: nat): (r: seq<nat>)
    requires Shape(s) && ino in s.inodes && (n > 0 ==> off + n <= MAXSIZE)
    ensures |r| == n
  {
    seq<nat>(n, i requires 0 <= i < n => Content(s, ino, off + i))
  }

  lemma SliceMore(s: Fs, ino: nat, off: nat, n: nat, m: nat)
    requires Shape(s) && ino in s.inodes && (n + m > 0 ==> off + n + m <= MAXSIZE)
    ensures Slice(s, ino, off, n + m) == Slice(s, ino, off, n) + Slice(s, ino, off + n, m)
  {
  }

  /** A stretch within one block. */
  lemma SliceOfBlock(s: Fs, ino: nat, k: nat, skip: nat, n: nat)
    requires Shape(s) && ino in s.inodes && k < MAXBLOCKS && skip + n <= BLOCKSIZE
    ensures |Data(s, ino, k)| == BLOCKSIZE && Slice(s, ino, BLOCKSIZE * k + skip, n) == Data(s, ino, k)[skip..skip + n]
  {
    DataSize(s, ino, k);
    var a, b := Slice(s, ino, BLOCKSIZE * k + skip, n), Data(s, ino, k)[skip..skip + n];
    forall i | 0 <= i < n ensures a[i] == b[i] { ContentAt(s, ino, k, skip + i); }
    assert a == b;
  }

  lemma ContentAt(s: Fs, ino: nat, k: nat, y: nat)
    requires Shape(s) && ino in s.inodes && k < MAXBLOCKS && y < BLOCKSIZE
    ensures |Data(s, ino, k)| == BLOCKSIZE && Content(s, ino, BLOCKSIZE * k + y) == Data(s, ino, k)[y]
  {
    DataSize(s, ino, k);
    assert (BLOCKSIZE * k + y) / BLOCKSIZE == k && (BLOCKSIZE * k + y) % BLOCKSIZE == y;
  }

  /** Exactly bytes [off, off + |bytes|) of file `ino` have become `bytes`; no byte of any other file differs. */
  ghost predicate Wrote(s: Fs, s2: Fs, ino: nat, off: nat, bytes: seq<nat>)
  {
    && Shape(s) && Shape(s2) && s2.inodes == s.inodes && s2.vnodes.Keys == s.vnodes.Keys && ino in s.inodes
    && (bytes != [] ==> off + |bytes| <= MAXSIZE)
    && (forall i, x :: i in s.inodes && 0 <= x < MAXSIZE ==> ByteAfter(s, s2, ino, off, bytes, i, x))
  }

  ghost predicate ByteAfter(s: Fs, s2: Fs, ino: nat, off: nat, bytes: seq<nat>, i: nat, x: nat)
    requires Shape(s) && Shape(s2) && i in s.inodes && i in s2.inodes && x < MAXSIZE
  {
    Content(s2, i, x) == if i == ino && off <= x < off + |bytes| then bytes[x - off] else Content(s, i, x)
  }

  lemma WroteMore(s: Fs, s1: Fs, s2: Fs, ino: nat, off: nat, a: seq<nat>, b: seq<nat>)
    requires Wrote(s, s1, ino, off, a) && Wrote(s1, s2, ino, off + |a|, b)
    ensures Wrote(s, s2, ino, off, a + b)
  {
    hide Shape, Content;
    forall i, x | i in s.inodes && 0 <= x < MAXSIZE ensures ByteAfter(s, s2, ino, off, a + b, i, x) {
      assert ByteAfter(s, s1, ino, off, a, i, x) && ByteAfter(s1, s2, ino, off + |a|, b, i, x);
    }
  }

  lemma WroteNothing(s: Fs, s2: Fs, ino: nat, off: nat)
    requires Shape(s) && Shape(s2) && SameData(s, s2) && s2.inodes == s.inodes && s2.vnodes.Keys == s.vnodes.Keys
    requires ino in s.inodes
    ensures Wrote(s, s2, ino, off, [])
  {
    hide Shape, Data;
    forall i, x | i in s.inodes && 0 <= x < MAXSIZE ensures ByteAfter(s, s2, ino, off, [], i, x) {
      assert Data(s2, i, x / BLOCKSIZE) == Data(s, i, x / BLOCKSIZE);
    }
  }

  /** Splicing bytes into one block writes exactly those bytes. */
  lemma WroteBlock(s: Fs, s2: Fs, ino: nat, k: nat, skip: nat, bytes: seq<nat>)
    requires Shape(s) && Shape(s2) && s2.inodes == s.inodes && s2.vnodes.Keys == s.vnodes.Keys && ino in s.inodes
    requires k < MAXBLOCKS && skip + |bytes| <= BLOCKSIZE && |Data(s, ino, k)| == BLOCKSIZE
    requires Data(s2, ino, k) == U.Splice(Data(s, ino, k), skip, bytes)
    requires forall i, j :: i in s.inodes && 0 <= j < MAXBLOCKS && !(i == ino && j == k) ==>
             Data(s2, i, j) == Data(s, i, j)
    ensures Wrote(s, s2, ino, BLOCKSIZE * k + skip, bytes)
  {
    hide Shape, Data;
    var off := BLOCKSIZE * k + skip;
    forall i, x | i in s.inodes && 0 <= x < MAXSIZE ensures ByteAfter(s, s2, ino, off, bytes, i, x) {
      var j, y := x / BLOCKSIZE, x % BLOCKSIZE;
      assert x == BLOCKSIZE * j + y;
      if i == ino && j == k {
        SplicedByte(Data(s, ino, k), skip, bytes, y);
      }
    }
  }

  lemma SplicedByte(d: seq<nat>, skip: nat, bytes: seq<nat>, y: nat)
    requires skip + |bytes| <= |d| && y < |d|
    ensures U.Splice(d, skip, bytes)[y] == if skip <= y < skip + |bytes| then bytes[y - skip] else d[y]
  {
  }

  /** Since the request stood at `off0` with `r0` to go, `bytes` have moved: from its memory, left as it was, or into
      it. */
  ghost predicate Moved(u: U.Request, mem0: seq<nat>, c0: nat, off0: nat, r0: nat, bytes: seq<nat>)
    reads u
  {
    && u.Valid() && |bytes| <= r0 && u.offset == off0 + |bytes| && u.resid == r0 - |bytes|
    && u.Done() == c0 + |bytes| && Held(mem0, c0, r0, bytes, u.Memory(), u.writing)
  }

  ghost predicate Held(mem0: seq<nat>, c0: nat, r0: nat, bytes: seq<nat>, mem: seq<nat>, writing: bool)
  {
    && c0 + r0 <= |mem0| && |bytes| <= r0
    && if writing then mem == mem0 && bytes == mem0[c0..c0 + |bytes|] else mem == U.Splice(mem0, c0, bytes)
  }

  lemma HeldMore(mem0: seq<nat>, c0: nat, r0: nat, bytes: seq<nat>, mem1: seq<nat>, more: seq<nat>, mem2: seq<nat>,
                 writing: bool)
    requires Held(mem0, c0, r0, bytes, mem1, writing) && Held(mem1, c0 + |bytes|, r0 - |bytes|, more, mem2, writing)
    ensures Held(mem0, c0, r0, bytes + more, mem2, writing)
  {
    hide U.Splice;
    if writing {
      assert mem0[c0..c0 + |bytes|] + more == mem0[c0..c0 + |bytes| + |more|];
    } else {
      U.SpliceTwice(mem0, c0, bytes, more);
    }
  }

  /** `bytes` have been written at offset `off` of the file, or they are what a read there finds and nothing has
      changed; offsets count modulo 2^41. */
  ghost predicate Did(s: Fs, s2: Fs, ino: nat, off: nat, bytes: seq<nat>, writing: bool)
  {
    var at := off % OFFSETS;
    if writing then Wrote(s, s2, ino, at, bytes)
    else
      && s2 == s && Shape(s) && ino in s.inodes
      && (bytes != [] ==> at + |bytes| <= MAXSIZE) && bytes == Slice(s, ino, at, |bytes|)
  }

  lemma DidMore(s: Fs, s1: Fs, s2: Fs, ino: nat, off: nat, bytes: seq<nat>, more: seq<nat>, writing: bool)
    requires Did(s, s1, ino, off, bytes, writing) && Did(s1, s2, ino, off + |bytes|, more, writing)
    ensures Did(s, s2, ino, off, bytes + more, writing)
  {
    hide Shape, Content;
    if bytes == [] {
      assert bytes + more == more;
      if writing { WroteAgain(s, s1, s2, ino, off % OFFSETS, more); }
    } else {
      assert off % OFFSETS + |bytes| <= MAXSIZE by { hide Slice; }
      AliasStep(off, |bytes|);
      if writing {
        WroteMore(s, s1, s2, ino, off % OFFSETS, bytes, more);
      } else {
        hide Slice;
        SliceMore(s, ino, off % OFFSETS, |bytes|, |more|);
      }
    }
  }

  lemma WroteAgain(s: Fs, s1: Fs, s2: Fs, ino: nat, at: nat, more: seq<nat>)
    requires Wrote(s, s1, ino, at, []) && Wrote(s1, s2, ino, at, more)
    ensures Wrote(s, s2, ino, at, more)
  {
    WroteMore(s, s1, s2, ino, at, [], more);
    assert [] + more == more;
  }

  lemma AliasStep(off: nat, n: nat)
    requires off % OFFSETS + n < OFFSETS
    ensures (off + n) % OFFSETS == off % OFFSETS + n
  {
  }

  /** A whole-block transfer of file block `k` goes to its own disk block: every block of the volume is in the device
      offset's reach, or this one is, and is there already if it is to be written. */
  ghost predicate LowBlock(s: Fs, ino: nat, k: nat, writing: bool)
    requires Shape(s) && ino in s.inodes && k < MAXBLOCKS
  {
    s.nblocks <= DEVICE_BLOCKS || (MapOf(s, ino, k) < DEVICE_BLOCKS && (writing ==> MapOf(s, ino, k) != 0))
  }

  /** So do all the whole blocks of a request for `n` bytes at `off`. */
  ghost predicate Low(s: Fs, ino: nat, off: nat, n: nat, writing: bool)
  {
    && Shape(s) && ino in s.inodes
    && forall x: nat :: off <= x && x + BLOCKSIZE <= off + n && x % BLOCKSIZE == 0 && FileBlock(x) < MAXBLOCKS ==>
         LowBlock(s, ino, FileBlock(x), writing)
  }

  /** Blocks the file has stay where they are. */
  ghost predicate MapsKept(s: Fs, s2: Fs, ino: nat)
  {
    && Shape(s) && Shape(s2) && ino in s.inodes && ino in s2.inodes && s2.nblocks == s.nblocks
    && forall k :: 0 <= k < MAXBLOCKS && MapOf(s, ino, k) != 0 ==> MapOf(s2, ino, k) == MapOf(s, ino, k)
  }

  lemma KeepsMapped(s: Fs, s2: Fs, ino: nat, k: nat)
    requires Shape(s) && Shape(s2) && MapsBut(s, s2, DataBlock(ino, k)) && ino in s.inodes && s2.nblocks == s.nblocks
    requires k < MAXBLOCKS && MapOf(s, ino, k) != 0 ==> s2 == s
    ensures MapsKept(s, s2, ino)
  {
    hide Shape, MapOf;
  }

  lemma MapsKeptTwice(s0: Fs, s1: Fs, s2: Fs, ino: nat)
    requires MapsKept(s0, s1, ino) && MapsKept(s1, s2, ino)
    ensures MapsKept(s0, s2, ino)
  {
    hide Shape, MapOf;
  }

  /** The rest of a request is as low as the request was. */
  lemma LowRest(s: Fs, s2: Fs, ino: nat, off: nat, n: nat, m: nat, writing: bool)
    requires Low(s, ino, off, n, writing) && m <= n && if writing then MapsKept(s, s2, ino) else s2 == s
    ensures Low(s2, ino, off + m, n - m, writing)
  {
    hide Shape, MapOf, FileBlock;
    forall x: nat | off + m <= x && x + BLOCKSIZE <= off + n && x % BLOCKSIZE == 0 && FileBlock(x) < MAXBLOCKS
      ensures LowBlock(s2, ino, FileBlock(x), writing)
    {
      assert LowBlock(s, ino, FileBlock(x), writing);
    }
  }

  lemma LowLess(s: Fs, ino: nat, off: nat, n: nat, m: nat, writing: bool)
    requires Low(s, ino, off, n, writing) && m <= n
    ensures Low(s, ino, off, m, writing)
  {
    hide Shape, MapOf, FileBlock, LowBlock;
  }

  lemma LowVolume(s: Fs, ino: nat, off: nat, n: nat, writing: bool)
    requires Shape(s) && ino in s.inodes && s.nblocks <= DEVICE_BLOCKS
    ensures Low(s, ino, off, n, writing)
  {
  }

  predicate AllBytes(m: seq<nat>) { forall i :: 0 <= i < |m| ==> m[i] < 256 }

  /** The file has no block for this offset. */
  ghost predicate Unmapped(s: Fs, ino: nat, off: nat)
  {
    Shape(s) && ino in s.inodes && FileBlock(off) < MAXBLOCKS && MapOf(s, ino, FileBlock(off)) == 0
  }

  lemma UnmappedBefore(s: Fs, s2: Fs, ino: nat, off: nat)
    requires MapsKept(s, s2, ino) && Unmapped(s2, ino, off)
    ensures Unmapped(s, ino, off)
  {
    hide Shape, MapOf, FileBlock;
  }

  ghost predicate Full(vol: Volume)
    reads vol
  {
    forall x: nat :: x < vol.nblocks ==> x in vol.s.used
  }

  /** Transfer part of one block through a buffer. */
  method PartialIo(vol: Volume, ino: nat, u: U.Request, skip: nat, len: nat) returns (err: Error, ghost bytes: seq<nat>)
    requires vol.Valid() && ino in vol.vnodes && u.Valid() && (u.writing ==> AllBytes(u.Memory()))
    requires skip == u.offset % BLOCKSIZE && skip + len <= BLOCKSIZE && len <= u.resid
    modifies vol, vol.freemap, u
    ensures vol.Valid() && Shape(old(vol.s)) && Shape(vol.s) && SameMeta(old(vol.s), vol.s)
    ensures err.Ok? ==> FileBlock(old(u.offset)) < MAXBLOCKS
    ensures Moved(u, old(u.Memory()), old(u.Done()), old(u.offset), old(u.resid), bytes)
            && |bytes| == if err.Ok? then len else 0
    ensures Did(old(vol.s), vol.s, ino, old(u.offset), bytes, u.writing) && MapsKept(old(vol.s), vol.s, ino)
    ensures err.TooBig? <==> FileBlock(old(u.offset)) >= MAXBLOCKS
    ensures err.NoSpace? ==> u.writing && Full(vol) && Unmapped(old(vol.s), ino, old(u.offset))
  {
    hide FsInv, Shape, SameFiles, MapsBut, MapOf, Data, SameMeta, SameData, Wrote, IsBlock, U.Splice, U.Flat,
         FileBlock, DeviceBlock, Did, MapsKept, Low, MapOnDisk, FreemapBlocks, Unmapped, AllBytes;
    ghost var s0, off := vol.s, u.offset;
    FileBlockIs(off);
    var fileblock := FileBlock(u.offset);
    IsUnmapped(s0, ino, off);
    var diskblock;
    err, diskblock := vol.Bmap(ino, fileblock, u.writing);
    ghost var s1 := vol.s;
    FilesOf(s0, s1, ino, off % OFFSETS);
    KeepsMapped(s0, s1, ino, fileblock);
    bytes := [];
    DidNothing(s0, s1, ino, off, u.writing);
    U.SpliceEmpty(u.Memory(), u.Done());
    if !err.Ok? {
      return;
    }
    BlockHere(s1, ino, fileblock);
    var iobuf := if diskblock == 0 then Zeros() else vol.disk[diskblock];
    DidRead(s1, ino, off, fileblock, skip, len);
    bytes := if u.writing then u.Memory()[u.Done()..u.Done() + len] else iobuf[skip..skip + len];
    iobuf := u.Move(iobuf, skip, len);
    if u.writing {
      ghost var s2 := s1.(disk := s1.disk[diskblock := iobuf]);
      BytesOf(u.Memory(), u.Done() - len, len);
      PartWritten(s0, s1, s2, ino, fileblock, skip, bytes, off);
      MapElsewhere(vol.freemap.v, vol.disk, FreemapBlocks(vol.nblocks), diskblock, iobuf);
      vol.disk := vol.disk[diskblock := iobuf];
      vol.s := s2;
    }
  }

  lemma BytesOf(m: seq<nat>, i: nat, n: nat)
    requires AllBytes(m) && i + n <= |m|
    ensures AllBytes(m[i..i + n])
  {
  }

  lemma IsUnmapped(s: Fs, ino: nat, off: nat)
    requires FsInv(s) && ino in s.vnodes
    ensures Shape(s) && ino in s.inodes
    ensures Unmapped(s, ino, off) <==> FileBlock(off) < MAXBLOCKS && MapOf(s, ino, FileBlock(off)) == 0
  {
    hide FsInv, MapOf, FileBlock;
    LoadedOk(s, ino);
  }

  lemma PartWritten(s0: Fs, s1: Fs, s2: Fs, ino: nat, k: nat, skip: nat, bytes: seq<nat>, off: nat)
    requires FsInv(s1) && ino in s1.inodes && k < MAXBLOCKS && 0 < MapOf(s1, ino, k) < s1.nblocks
    requires IsBlock(Data(s1, ino, k)) && off % OFFSETS == BLOCKSIZE * k + skip && MapsKept(s0, s1, ino)
    requires Wrote(s0, s1, ino, off % OFFSETS, []) && SameMeta(s0, s1) && skip + |bytes| <= BLOCKSIZE
    requires AllBytes(bytes) && MapOf(s1, ino, k) < |s1.disk|
    requires s2 == s1.(disk := s1.disk[MapOf(s1, ino, k) := U.Splice(Data(s1, ino, k), skip, bytes)])
    ensures FsInv(s2) && Shape(s2) && SameMeta(s0, s2) && Did(s0, s2, ino, off, bytes, true) && MapsKept(s0, s2, ino)
    ensures !(FREEMAP_START <= MapOf(s1, ino, k) < FREEMAP_START + FreemapBlocks(s1.nblocks))
  {
    hide FsInv, Shape, MapOf, Data, SameMeta, Wrote, IsBlock, U.Splice, Did, MapsKept, FreemapBlocks, AllBytes;
    DataOffMap(s1, ino, k);
    BlockWritten(s0, s1, s2, ino, k, skip, bytes);
    MapsKeptTwice(s0, s1, s2, ino);
    DidWrite(s0, s2, ino, off, bytes);
  }

  lemma DataOffMap(s: Fs, ino: nat, k: nat)
    requires FsInv(s) && ino in s.inodes && k < MAXBLOCKS && MapOf(s, ino, k) != 0
    ensures !(FREEMAP_START <= MapOf(s, ino, k) < FREEMAP_START + FreemapBlocks(s.nblocks))
  {
    hide FreemapBlocks, MapOf;
    OffFreemap(s, DataBlock(ino, k));
  }

  /** Mapping alone writes nothing. */
  lemma FilesOf(s: Fs, s2: Fs, ino: nat, off: nat)
    requires FsInv(s) && FsInv(s2) && SameFiles(s, s2) && ino in s2.inodes
    ensures Shape(s) && Shape(s2) && SameMeta(s, s2) && Wrote(s, s2, ino, off, [])
    ensures s2.vnodes.Keys == s.vnodes.Keys && s2.inodes == s.inodes
  {
    hide Owned, Data, Cur;
    WroteNothing(s, s2, ino, off);
  }

  lemma DidRead(s: Fs, ino: nat, off: nat, k: nat, skip: nat, n: nat)
    requires Shape(s) && ino in s.inodes && k < MAXBLOCKS && skip + n <= BLOCKSIZE
    requires off % OFFSETS == BLOCKSIZE * k + skip
    ensures |Data(s, ino, k)| == BLOCKSIZE && Did(s, s, ino, off, Data(s, ino, k)[skip..skip + n], false)
  {
    hide Shape, Data, Content;
    SliceOfBlock(s, ino, k, skip, n);
  }

  lemma DidWrite(s: Fs, s2: Fs, ino: nat, off: nat, bytes: seq<nat>)
    requires Wrote(s, s2, ino, off % OFFSETS, bytes)
    ensures Did(s, s2, ino, off, bytes, true)
  {
  }

  lemma DidNothing(s: Fs, s2: Fs, ino: nat, off: nat, writing: bool)
    requires Shape(s) && Wrote(s, s2, ino, off % OFFSETS, []) && (!writing ==> s2 == s)
    ensures Did(s, s2, ino, off, [], writing)
  {
    assert |Slice(s, ino, off % OFFSETS, 0)| == 0;
  }

  /** The block found is the file block's data. */
  lemma BlockHere(s: Fs, ino: nat, k: nat)
    requires FsInv(s) && ino in s.inodes && k < MAXBLOCKS
    ensures Shape(s) && MapOf(s, ino, k) < s.nblocks == |s.disk| && IsBlock(Data(s, ino, k))
    ensures Data(s, ino, k) == if MapOf(s, ino, k) == 0 then Zeros() else s.disk[MapOf(s, ino, k)]
  {
    MappedIsMarked(s, ino, k);
    ZeroIsTaken(s);
    hide Owned, MapOf;
    DataSize(s, ino, k);
  }

  lemma SplicedBlock(d: seq<nat>, skip: nat, bytes: seq<nat>)
    requires IsBlock(d) && skip + |bytes| <= BLOCKSIZE && AllBytes(bytes)
    ensures IsBlock(U.Splice(d, skip, bytes))
  {
    var r := U.Splice(d, skip, bytes);
    forall y | 0 <= y < BLOCKSIZE ensures r[y] < 256 { SplicedByte(d, skip, bytes, y); }
  }

  lemma BlockWritten(s0: Fs, s1: Fs, s2: Fs, ino: nat, k: nat, skip: nat, bytes: seq<nat>)
    requires FsInv(s1) && ino in s1.inodes && k < MAXBLOCKS && 0 < MapOf(s1, ino, k) < s1.nblocks
    requires IsBlock(Data(s1, ino, k))
    requires Wrote(s0, s1, ino, BLOCKSIZE * k + skip, []) && SameMeta(s0, s1) && skip + |bytes| <= BLOCKSIZE
    requires AllBytes(bytes)
    requires MapOf(s1, ino, k) < |s1.disk|
    requires s2 == s1.(disk := s1.disk[MapOf(s1, ino, k) := U.Splice(Data(s1, ino, k), skip, bytes)])
    ensures FsInv(s2) && Shape(s2) && Wrote(s0, s2, ino, BLOCKSIZE * k + skip, bytes) && SameMeta(s0, s2)
    ensures MapsKept(s1, s2, ino)
  {
    assert Shape(s0) by { hide Owned, MapOf, Data, IsBlock; }
    hide Owned, MapOf, Wrote, U.Splice, IsBlock, Data;
    SplicedBlock(Data(s1, ino, k), skip, bytes);
    WriteDataKeeps(s1, s2, ino, k, U.Splice(Data(s1, ino, k), skip, bytes));
    assert Shape(s2);
    BlockLen(Data(s1, ino, k));
    WroteBlock(s1, s2, ino, k, skip, bytes);
    WroteMore(s0, s1, s2, ino, BLOCKSIZE * k + skip, [], bytes);
    assert [] + bytes == bytes;
    WriteMeta(s1, s2, ino, k);
    MetaTwice(s0, s1, s2);
  }

  lemma BlockLen(b: seq<nat>)
    requires IsBlock(b)
    ensures |b| == BLOCKSIZE
  {
  }

  lemma MetaTwice(s0: Fs, s1: Fs, s2: Fs)
    requires Shape(s0) && Shape(s1) && Shape(s2) && SameMeta(s0, s1) && SameMeta(s1, s2) && s1.inodes == s2.inodes
    ensures SameMeta(s0, s2)
  {
    hide Shape, Cur;
  }

  /** Writing file data does not touch an inode's block. */
  lemma WriteMeta(s: Fs, s2: Fs, ino: nat, k: nat)
    requires FsInv(s) && Shape(s2) && ino in s.inodes && k < MAXBLOCKS && 0 < MapOf(s, ino, k) < |s.disk|
    requires s2 == s.(disk := s2.disk) && forall x :: 0 <= x < |s.disk| && x < |s2.disk| && x != MapOf(s, ino, k) ==>
             s2.disk[x] == s.disk[x]
    ensures SameMeta(s, s2)
  {
    var b := MapOf(s, ino, k);
    forall i | i in s.inodes ensures i != b { OneOwnerEach(s, DataBlock(ino, k), InodeBlock(i)); }
    hide Owned, MapOf, IsBlock;
  }

  /** The device transfers the one block its request's offset addresses. */
  method DeviceIo(vol: Volume, u: U.Request) returns (b: nat, ghost bytes: seq<nat>)
    requires u.Valid() && u.resid == BLOCKSIZE && u.offset % BLOCKSIZE == 0 && u.offset / BLOCKSIZE < |vol.disk|
    requires |vol.disk[u.offset / BLOCKSIZE]| == BLOCKSIZE
    modifies vol`disk, u
    ensures b == old(u.offset) / BLOCKSIZE && |bytes| == BLOCKSIZE
    ensures Moved(u, old(u.Memory()), old(u.Done()), old(u.offset), old(u.resid), bytes)
    ensures if u.writing then vol.disk == old(vol.disk)[b := bytes]
            else vol.disk == old(vol.disk) && bytes == vol.disk[b]
  {
    hide U.Flat, U.Splice;
    b := u.offset / BLOCKSIZE;
    bytes := if u.writing then u.Memory()[u.Done()..u.Done() + BLOCKSIZE] else vol.disk[b];
    assert vol.disk[b][0..BLOCKSIZE] == vol.disk[b];
    U.SpliceAll(vol.disk[b], bytes);
    var buf := u.Move(vol.disk[b], 0, BLOCKSIZE);
    if u.writing {
      vol.disk := vol.disk[b := buf];
    }
  }

  /** Transfer one whole block straight between the disk and the request, whose offset and residue are set aside and
      then put back, moved by one block. */
  method Direct(vol: Volume, u: U.Request, diskblock: nat) returns (ghost bytes: seq<nat>)
    requires u.Valid() && u.resid >= BLOCKSIZE && DeviceBlock(diskblock) < |vol.disk|
    requires |vol.disk[DeviceBlock(diskblock)]| == BLOCKSIZE
    modifies vol`disk, u
    ensures Moved(u, old(u.Memory()), old(u.Done()), old(u.offset), old(u.resid), bytes) && |bytes| == BLOCKSIZE
    ensures if u.writing then vol.disk == old(vol.disk)[DeviceBlock(diskblock) := bytes]
            else vol.disk == old(vol.disk) && bytes == vol.disk[DeviceBlock(diskblock)]
  {
    hide U.Flat, U.Splice, DeviceBlock;
    DeviceBlockIs(diskblock);
    DeviceOffset(diskblock);
    var saveoff, diskoff := u.offset, diskblock * BLOCKSIZE % WORD;
    u.offset := diskoff;
    var saveres := u.resid;
    u.resid := BLOCKSIZE;
    var b;
    b, bytes := DeviceIo(vol, u);
    u.offset := (u.offset - diskoff) + saveoff;
    u.resid := (u.resid - BLOCKSIZE) + saveres;
  }

  lemma DeviceOffset(b: nat)
    ensures b * BLOCKSIZE % WORD / BLOCKSIZE == DeviceBlock(b)
  {
  }

  /** Transfer one whole block of a file. */
  method BlockIo(vol: Volume, ino: nat, u: U.Request) returns (err: Error, ghost bytes: seq<nat>)
    requires vol.Valid() && ino in vol.vnodes && u.Valid() && (u.writing ==> AllBytes(u.Memory()))
    requires u.offset % BLOCKSIZE == 0 && u.resid >= BLOCKSIZE && Low(vol.s, ino, u.offset, u.resid, u.writing)
    modifies vol, vol.freemap, u
    ensures vol.Valid() && Shape(old(vol.s)) && Shape(vol.s) && SameMeta(old(vol.s), vol.s)
    ensures err.Ok? ==> FileBlock(old(u.offset)) < MAXBLOCKS
    ensures Moved(u, old(u.Memory()), old(u.Done()), old(u.offset), old(u.resid), bytes)
            && |bytes| == if err.Ok? then BLOCKSIZE else 0
    ensures Did(old(vol.s), vol.s, ino, old(u.offset), bytes, u.writing) && MapsKept(old(vol.s), vol.s, ino)
    ensures err.TooBig? <==> FileBlock(old(u.offset)) >= MAXBLOCKS
    ensures err.NoSpace? ==> u.writing && Full(vol) && Unmapped(old(vol.s), ino, old(u.offset))
  {
    hide FsInv, Shape, SameFiles, MapsBut, MapOf, Data, SameMeta, SameData, Wrote, IsBlock, U.Splice, U.Flat,
         FileBlock, DeviceBlock, Did, MapsKept, Low, MapOnDisk, FreemapBlocks;
    ghost var s0, off := vol.s, u.offset;
    FileBlockIs(off);
    var fileblock := FileBlock(u.offset);
    LowFirst(s0, ino, off, u.resid, u.writing);
    var diskblock;
    err, diskblock := vol.Bmap(ino, fileblock, u.writing);
    ghost var s1 := vol.s;
    FilesOf(s0, s1, ino, off % OFFSETS);
    KeepsMapped(s0, s1, ino, fileblock);
    bytes := [];
    DidNothing(s0, s1, ino, off, u.writing);
    U.SpliceEmpty(u.Memory(), u.Done());
    if !err.Ok? {
      return;
    }
    BlockHere(s1, ino, fileblock);
    BlockLen(Data(s1, ino, fileblock));
    DidRead(s1, ino, off, fileblock, 0, BLOCKSIZE);
    assert Data(s1, ino, fileblock)[0..BLOCKSIZE] == Data(s1, ino, fileblock);
    if diskblock == 0 {
      bytes := U.ZeroBytes(BLOCKSIZE);
      ZerosAre();
      u.MoveZeros(BLOCKSIZE);
      return;
    }
    DeviceBlockIs(diskblock);
    DataOffMap(s1, ino, fileblock);
    ghost var disk := vol.disk;
    bytes := Direct(vol, u, diskblock);
    if u.writing {
      MapElsewhere(vol.freemap.v, disk, FreemapBlocks(vol.nblocks), diskblock, bytes);
      U.SpliceAll(Data(s1, ino, fileblock), bytes);
      vol.s := vol.s.(disk := vol.s.disk[diskblock := bytes]);
      BlockWritten(s0, s1, vol.s, ino, fileblock, 0, bytes);
      MapsKeptTwice(s0, s1, vol.s, ino);
      DidWrite(s0, vol.s, ino, off, bytes);
    }
  }

  lemma LowFirst(s: Fs, ino: nat, off: nat, n: nat, writing: bool)
    requires Low(s, ino, off, n, writing) && off % BLOCKSIZE == 0 && n >= BLOCKSIZE
    ensures Shape(s) && ino in s.inodes && (FileBlock(off) < MAXBLOCKS ==> LowBlock(s, ino, FileBlock(off), writing))
  {
  }

  lemma ZerosAre()
    ensures Zeros() == U.ZeroBytes(BLOCKSIZE)
  {
  }

  /** Whether the transfer from `off` on ran into the end of what a file can map. */
  ghost predicate PastEnd(off: nat, n: nat) { FileBlock(off + n) >= MAXBLOCKS }

  /** The volume and the request after `bytes` have moved since the start. */
  ghost predicate Going(vol: Volume, u: U.Request, ino: nat, s0: Fs, mem0: seq<nat>, c0: nat, off0: nat, r0: nat,
                        bytes: seq<nat>)
    reads vol, vol.freemap, u
  {
    && vol.Valid() && ino in vol.vnodes && Low(vol.s, ino, u.offset, u.resid, u.writing)
    && Shape(s0) && Shape(vol.s) && SameMeta(s0, vol.s) && MapsKept(s0, vol.s, ino)
    && s0.inodes == vol.s.inodes && (u.writing ==> AllBytes(mem0))
    && Moved(u, mem0, c0, off0, r0, bytes) && Did(s0, vol.s, ino, off0, bytes, u.writing)
  }

  /** One more part of a block. */
  method PartialStep(vol: Volume, ino: nat, u: U.Request, skip: nat, len: nat,
                     ghost s0: Fs, ghost mem0: seq<nat>, ghost c0: nat, ghost off0: nat, ghost r0: nat,
                         ghost bytes: seq<nat>)
    returns (err: Error, ghost bytes2: seq<nat>)
    requires Going(vol, u, ino, s0, mem0, c0, off0, r0, bytes)
    requires skip == u.offset % BLOCKSIZE && skip + len <= BLOCKSIZE && len <= u.resid
    modifies vol, vol.freemap, u
    ensures Going(vol, u, ino, s0, mem0, c0, off0, r0, bytes2) && |bytes2| == |bytes| + if err.Ok? then len else 0
    ensures u.offset == off0 + |bytes2| && u.resid == r0 - |bytes2|
    ensures err.TooBig? ==> PastEnd(off0, |bytes2|)
    ensures err.NoSpace? ==> u.writing && Full(vol) && Unmapped(s0, ino, off0 + |bytes2|)
  {
    hide FsInv, Shape, SameMeta, U.Splice, U.Flat, FileBlock, Did, AllBytes, Low, MapsKept, Unmapped;
    ghost var s1, r1 := vol.s, u.resid;
    ghost var mem1 := u.Memory();
    ghost var more;
    err, more := PartialIo(vol, ino, u, skip, len);
    HeldMore(mem0, c0, r0, bytes, mem1, more, u.Memory(), u.writing);
    AfterStep(s0, s1, vol.s, ino, off0, bytes, more, u.writing);
    LowRest(s1, vol.s, ino, off0 + |bytes|, r1, |more|, u.writing);
    MapsKeptTwice(s0, s1, vol.s, ino);
    if err.NoSpace? { UnmappedBefore(s0, s1, ino, off0 + |bytes|); }
    bytes2 := bytes + more;
  }

  /** One more whole block. */
  method BlockStep(vol: Volume, ino: nat, u: U.Request,
                   ghost s0: Fs, ghost mem0: seq<nat>, ghost c0: nat, ghost off0: nat, ghost r0: nat,
                       ghost bytes: seq<nat>)
    returns (err: Error, ghost bytes2: seq<nat>)
    requires Going(vol, u, ino, s0, mem0, c0, off0, r0, bytes) && u.offset % BLOCKSIZE == 0 && u.resid >= BLOCKSIZE
    modifies vol, vol.freemap, u
    ensures Going(vol, u, ino, s0, mem0, c0, off0, r0, bytes2) && |bytes2| == |bytes| + if err.Ok? then BLOCKSIZE else 0
    ensures u.offset == off0 + |bytes2| && u.resid == r0 - |bytes2|
    ensures err.TooBig? ==> PastEnd(off0, |bytes2|)
    ensures err.NoSpace? ==> u.writing && Full(vol) && Unmapped(s0, ino, off0 + |bytes2|)
  {
    hide FsInv, Shape, SameMeta, U.Splice, U.Flat, FileBlock, Did, AllBytes, Low, MapsKept, Unmapped;
    ghost var s1, r1 := vol.s, u.resid;
    ghost var mem1 := u.Memory();
    ghost var more;
    err, more := BlockIo(vol, ino, u);
    HeldMore(mem0, c0, r0, bytes, mem1, more, u.Memory(), u.writing);
    AfterStep(s0, s1, vol.s, ino, off0, bytes, more, u.writing);
    LowRest(s1, vol.s, ino, off0 + |bytes|, r1, |more|, u.writing);
    MapsKeptTwice(s0, s1, vol.s, ino);
    if err.NoSpace? { UnmappedBefore(s0, s1, ino, off0 + |bytes|); }
    bytes2 := bytes + more;
  }

  lemma AfterStep(s0: Fs, s1: Fs, s2: Fs, ino: nat, off: nat, bytes: seq<nat>, more: seq<nat>, writing: bool)
    requires Did(s0, s1, ino, off, bytes, writing) && Did(s1, s2, ino, off + |bytes|, more, writing)
    requires Shape(s0) && Shape(s1) && FsInv(s2) && SameMeta(s0, s1) && Shape(s2) && SameMeta(s1, s2)
    ensures Did(s0, s2, ino, off, bytes + more, writing) && SameMeta(s0, s2) && s0.inodes == s2.inodes
    ensures s1.vnodes.Keys == s2.vnodes.Keys && (!writing ==> s2 == s1)
  {
    hide Shape, Content, FsInv, SameMeta, Slice;
    assert s0.inodes == s1.inodes == s2.inodes && s1.vnodes.Keys == s2.vnodes.Keys;
    hide Did;
    DidMore(s0, s1, s2, ino, off, bytes, more, writing);
    MetaTwice(s0, s1, s2);
  }

  /** Transfer all the request asks for: a leading part of a block, whole blocks, a trailing part. On an error, what
      had been moved by then stays moved. */
  method Transfer(vol: Volume, ino: nat, u: U.Request) returns (err: Error, ghost bytes: seq<nat>)
    requires vol.Valid() && ino in vol.vnodes && u.Valid() && (u.writing ==> AllBytes(u.Memory()))
    requires Low(vol.s, ino, u.offset, u.resid, u.writing)
    modifies vol, vol.freemap, u
    ensures Going(vol, u, ino, old(vol.s), old(u.Memory()), old(u.Done()), old(u.offset), old(u.resid), bytes)
    ensures err.Ok? ==> u.resid == 0
    ensures err.TooBig? ==> PastEnd(old(u.offset), |bytes|)
    ensures err.NoSpace? ==> u.writing && Full(vol) && Unmapped(old(vol.s), ino, old(u.offset) + |bytes|)
  {
    hide Going, PastEnd, Full, FsInv, AllBytes, Unmapped, Low, Shape, U.Flat;
    ghost var s0, mem0, c0, off0, r0 := vol.s, u.Memory(), u.Done(), u.offset, u.resid;
    bytes := [];
    StartGoing(vol, u, ino);
    err := Ok;
    var blkoff := u.offset % BLOCKSIZE;
    if blkoff != 0 {
      var len := if BLOCKSIZE - blkoff > u.resid then u.resid else BLOCKSIZE - blkoff;
      err, bytes := PartialStep(vol, ino, u, blkoff, len, s0, mem0, c0, off0, r0, bytes);
      if !err.Ok? { return; }
    }
    if u.resid == 0 {
      return;
    }
    Aligned(off0, |bytes|, blkoff);
    var nblocks := u.resid / BLOCKSIZE;
    var i := 0;
    while i < nblocks
      invariant 0 <= i <= nblocks && err.Ok? && Going(vol, u, ino, s0, mem0, c0, off0, r0, bytes)
      invariant u.offset == off0 + |bytes| && |bytes| <= r0 && u.resid == r0 - |bytes|
      invariant u.offset % BLOCKSIZE == 0 && u.resid / BLOCKSIZE == nblocks - i
    {
      OneBlockOn(u.offset, u.resid);
      err, bytes := BlockStep(vol, ino, u, s0, mem0, c0, off0, r0, bytes);
      if !err.Ok? { return; }
      i := i + 1;
    }
    if u.resid > 0 {
      err, bytes := PartialStep(vol, ino, u, 0, u.resid, s0, mem0, c0, off0, r0, bytes);
    }
  }

  lemma OneBlockOn(off: nat, n: nat)
    requires off % BLOCKSIZE == 0 && n / BLOCKSIZE > 0
    ensures n >= BLOCKSIZE && (off + BLOCKSIZE) % BLOCKSIZE == 0 && (n - BLOCKSIZE) / BLOCKSIZE == n / BLOCKSIZE - 1
  {
  }

  lemma StartGoing(vol: Volume, u: U.Request, ino: nat)
    requires vol.Valid() && ino in vol.vnodes && u.Valid() && (u.writing ==> AllBytes(u.Memory()))
    requires Low(vol.s, ino, u.offset, u.resid, u.writing)
    ensures Going(vol, u, ino, vol.s, u.Memory(), u.Done(), u.offset, u.resid, [])
  {
    hide FsInv, Shape, SameMeta, U.Splice, U.Flat, Did, AllBytes, Low, MapsKept;
    Begin(vol.s, ino, u.offset, u.writing);
    U.SpliceEmpty(u.Memory(), u.Done());
  }

  lemma Begin(s: Fs, ino: nat, off: nat, writing: bool)
    requires FsInv(s) && ino in s.vnodes
    ensures Shape(s) && Did(s, s, ino, off, [], writing) && SameMeta(s, s) && MapsKept(s, s, ino)
  {
    LoadedOk(s, ino);
    hide Owned, Data, Cur;
    WroteNothing(s, s, ino, off % OFFSETS);
    DidNothing(s, s, ino, off, writing);
  }

  lemma Aligned(off: nat, n: nat, blkoff: nat)
    requires blkoff == off % BLOCKSIZE && (blkoff == 0 ==> n == 0) && (blkoff != 0 ==> n == BLOCKSIZE - blkoff)
    ensures (off + n) % BLOCKSIZE == 0
  {
  }

  /** Between s and s2 the only inode fact that differs is ino's size. */
  ghost predicate Sized(s: Fs, s2: Fs, ino: nat, size: nat)
    requires Shape(s) && Shape(s2)
  {
    && ino in s2.inodes && Cur(s2, ino).size == size
    && (forall i :: i in s.inodes && i in s2.inodes && i != ino ==> Cur(s2, i).size == Cur(s, i).size)
    && (forall i :: i in s.inodes && i in s2.inodes ==>
         Cur(s2, i).kind == Cur(s, i).kind && Cur(s2, i).links == Cur(s, i).links)
  }

  lemma SizeOnly(s0: Fs, s1: Fs, s2: Fs, ino: nat, off: nat, bytes: seq<nat>, size: nat)
    requires FsInv(s1) && Wrote(s0, s1, ino, off, bytes) && SameMeta(s0, s1) && ino in s1.vnodes && size < WORD
    requires s2 == s1.(vnodes := s1.vnodes[ino := Vnode(s1.vnodes[ino].inode.(size := size), true)])
    ensures FsInv(s2) && Shape(s2) && Wrote(s0, s2, ino, off, bytes) && Sized(s0, s2, ino, size)
  {
    LoadedOk(s1, ino);
    hide Owned, Data, MapOf, Content;
    SetMetaKeeps(s1, s2, ino, s1.vnodes[ino].inode.(size := size));
    WroteNothing(s1, s2, ino, off + |bytes|);
    WroteMore(s0, s1, s2, ino, off, bytes, []);
    assert bytes + [] == bytes;
  }

  lemma SameSize(s0: Fs, s1: Fs, ino: nat)
    requires FsInv(s1) && Shape(s0) && SameMeta(s0, s1) && ino in s1.vnodes && s0.inodes == s1.inodes
    ensures Shape(s1) && ino in s0.inodes && Sized(s0, s1, ino, Cur(s0, ino).size)
    ensures s1.vnodes[ino].inode.size == Cur(s0, ino).size
  {
    LoadedOk(s1, ino);
    hide Owned;
  }

  /** After a write that ended at `end`, the file is at least that long. */
  method Grow(vol: Volume, ino: nat, end: nat, ghost s0: Fs, ghost off0: nat, ghost bytes: seq<nat>)
    requires vol.Valid() && ino in vol.vnodes && Shape(s0) && Shape(vol.s) && SameMeta(s0, vol.s)
    requires Did(s0, vol.s, ino, off0, bytes, true)
    requires s0.inodes == vol.s.inodes && ino in s0.inodes
    modifies vol`vnodes, vol`s
    ensures vol.Valid() && ino in vol.vnodes && Shape(vol.s) && Did(s0, vol.s, ino, off0, bytes, true)
    ensures vol.s.used == old(vol.s).used
    ensures Sized(s0, vol.s, ino, if end > Cur(s0, ino).size then end % WORD else Cur(s0, ino).size)
  {
    hide FsInv, Shape, SameMeta, Did, Cur, Sized, Wrote;
    SameSize(s0, vol.s, ino);
    if end > vol.vnodes[ino].inode.size {
      var n := vol.vnodes[ino].inode.(size := end % WORD);
      ghost var s2 := vol.s.(vnodes := vol.s.vnodes[ino := Vnode(n, true)]);
      DidIs(s0, vol.s, ino, off0, bytes);
      SizeOnly(s0, vol.s, s2, ino, off0 % OFFSETS, bytes, end % WORD);
      DidWrite(s0, s2, ino, off0, bytes);
      vol.vnodes := vol.vnodes[ino := Vnode(n, true)];
      vol.s := s2;
    }
  }

  /** A request to read or write a file. Reading stops at the file's size; writing past it makes the file longer. */
  method Io(vol: Volume, ino: nat, u: U.Request) returns (err: Error, ghost bytes: seq<nat>)
    requires vol.Valid() && ino in vol.vnodes && u.Valid() && (u.writing ==> AllBytes(u.Memory()))
    requires Low(vol.s, ino, u.offset, u.resid, u.writing)
    modifies vol, vol.freemap, u
    ensures vol.Valid() && Shape(old(vol.s)) && Shape(vol.s) && ino in old(vol.s).inodes
    ensures Moved(u, old(u.Memory()), old(u.Done()), old(u.offset), old(u.resid), bytes)
    ensures Did(old(vol.s), vol.s, ino, old(u.offset), bytes, u.writing)
    ensures Sized(old(vol.s), vol.s, ino, SizeAfter(Cur(old(vol.s), ino).size, old(u.offset), |bytes|, u.writing))
    ensures ino in vol.s.inodes
    ensures Lengthened(Cur(old(vol.s), ino).size, Cur(vol.s, ino).size, old(u.offset), |bytes|, u.writing)
    ensures err.Ok? && u.writing ==> |bytes| == old(u.resid)
    ensures !u.writing ==> UpToEnd(Cur(old(vol.s), ino).size, old(u.offset), old(u.resid), |bytes|, err.Ok?)
    ensures err.TooBig? ==> PastEnd(old(u.offset), |bytes|)
    ensures err.NoSpace? ==> u.writing && Full(vol) && Unmapped(old(vol.s), ino, old(u.offset) + |bytes|)
  {
    hide FsInv, Shape, SameMeta, Did, AllBytes, PastEnd, Held, U.Flat, Cur, Sized, Wrote, Unmapped, Low, Lengthened;
    ghost var s0, off0, r0 := vol.s, u.offset, u.resid;
    var origresid, extraresid := u.resid, 0;
    var size := vol.vnodes[ino].inode.size;
    StartGoing(vol, u, ino);
    GoingParts(vol, u, ino, s0, u.Memory(), u.Done(), off0, r0, []);
    SameSize(s0, s0, ino);
    bytes := [];
    if !u.writing {
      var endpos := u.offset + u.resid;
      if u.offset >= size {
        SizedLengthened(s0, s0, ino, u.offset, 0, false);
        return Ok, [];
      }
      if endpos > size {
        extraresid := endpos - size;
        LowLess(s0, ino, u.offset, u.resid, u.resid - extraresid, false);
        u.resid := u.resid - extraresid;
      }
    }
    ghost var mem0, c0, r1 := u.Memory(), u.Done(), u.resid;
    err, bytes := Transfer(vol, ino, u);
    GoingParts(vol, u, ino, s0, mem0, c0, off0, r1, bytes);
    SameSize(s0, vol.s, ino);
    if u.resid != origresid && u.writing {
      Grow(vol, ino, u.offset, s0, off0, bytes);
    }
    u.resid := u.resid + extraresid;
    HeldLess(mem0, c0, r1, r0, bytes, u.Memory(), u.writing);
    SizedLengthened(s0, vol.s, ino, off0, |bytes|, u.writing);
  }

  /** A read of `n` bytes at `off` has found `got`: none past the end, and short, unless it failed, only at the end. */
  predicate UpToEnd(size: nat, off: nat, n: nat, got: nat, ok: bool)
  {
    && (off >= size ==> got == 0)
    && (off < size ==> off + got <= size && (ok ==> got == n || off + got == size))
  }

  /** The file is as long as it was, or reaches just to the end of what was written, whichever is longer, its length
      being kept in 32 bits. */
  predicate Lengthened(size: nat, size2: nat, off: nat, n: nat, writing: bool)
  {
    && (!writing || n == 0 ==> size2 == size)
    && (writing && n > 0 && off + n < WORD ==> size2 >= size && size2 >= off + n && (size2 == size || size2 == off + n))
    && (writing && n > 0 && off + n >= WORD ==> size2 == if off + n > size then (off + n) % WORD else size)
  }

  /** The size after moving `n` bytes at `off`. */
  function SizeAfter(size: nat, off: nat, n: nat, writing: bool): nat
  {
    if writing && n > 0 && off + n > size then (off + n) % WORD else size
  }

  lemma SizedLengthened(s: Fs, s2: Fs, ino: nat, off: nat, n: nat, writing: bool)
    requires Shape(s) && Shape(s2) && ino in s.inodes
    requires Sized(s, s2, ino, SizeAfter(Cur(s, ino).size, off, n, writing))
    ensures ino in s2.inodes && Lengthened(Cur(s, ino).size, Cur(s2, ino).size, off, n, writing)
  {
    hide Shape, Cur;
  }

  lemma GoingParts(vol: Volume, u: U.Request, ino: nat, s0: Fs, mem0: seq<nat>, c0: nat, off0: nat, r0: nat,
                   bytes: seq<nat>)
    requires Going(vol, u, ino, s0, mem0, c0, off0, r0, bytes)
    ensures vol.Valid() && ino in vol.vnodes && Shape(s0) && Shape(vol.s) && SameMeta(s0, vol.s)
    ensures s0.inodes == vol.s.inodes
    ensures Moved(u, mem0, c0, off0, r0, bytes) && Did(s0, vol.s, ino, off0, bytes, u.writing)
  {
  }

  lemma DidIs(s: Fs, s2: Fs, ino: nat, off: nat, bytes: seq<nat>)
    requires Did(s, s2, ino, off, bytes, true)
    ensures Wrote(s, s2, ino, off % OFFSETS, bytes)
  {
  }

  lemma HeldLess(mem0: seq<nat>, c0: nat, r: nat, r0: nat, bytes: seq<nat>, mem: seq<nat>, writing: bool)
    requires Held(mem0, c0, r, bytes, mem, writing) && r <= r0 && c0 + r0 <= |mem0|
    ensures Held(mem0, c0, r0, bytes, mem, writing) && |mem| == |mem0|
  {
  }

  /** What was written is what a read of the same stretch finds. */
  lemma ReadBack(s: Fs, s2: Fs, ino: nat, off: nat, bytes: seq<nat>)
    requires Wrote(s, s2, ino, off, bytes)
    ensures Slice(s2, ino, off, |bytes|) == bytes
  {
    hide Shape, Content;
    var r := Slice(s2, ino, off, |bytes|);
    forall i | 0 <= i < |bytes| ensures r[i] == bytes[i] {
      assert ByteAfter(s, s2, ino, off, bytes, ino, off + i);
    }
    assert r == bytes;
  }

  /** A write lands where it was asked to exactly below 2^41 bytes; an offset past that stands for a lower one. */
  lemma LandsWhereAsked(s: Fs, s2: Fs, ino: nat, off: nat, bytes: seq<nat>)
    requires Did(s, s2, ino, off, bytes, true) && bytes != []
    ensures off % OFFSETS == off <==> off < OFFSETS
    ensures off < OFFSETS ==> Wrote(s, s2, ino, off, bytes)
    ensures off >= OFFSETS ==> off % OFFSETS < MAXSIZE <= off && Content(s2, ino, off % OFFSETS) == bytes[0]
  {
    hide Shape, Content;
    assert ByteAfter(s, s2, ino, off % OFFSETS, bytes, ino, off % OFFSETS);
  }

  /** Read `len` bytes of metadata that lie within one block. */
  method MetaRead(vol: Volume, ino: nat, pos: nat, len: nat) returns (err: Error, data: seq<nat>)
    requires vol.Valid() && ino in vol.vnodes && 0 < len && pos % BLOCKSIZE + len <= BLOCKSIZE && pos < OFFSETS
    modifies vol, vol.freemap
    ensures vol.Valid() && vol.s == old(vol.s) && Shape(vol.s) && ino in vol.s.inodes
    ensures err.Ok? <==> pos < MAXSIZE
    ensures err.Ok? ==> pos + len <= MAXSIZE && data == Slice(vol.s, ino, pos, len)
  {
    hide FsInv, Shape, SameFiles, MapsBut, MapOf, Data, IsBlock, FileBlock, Slice;
    FileBlockIs(pos);
    var vnblock, blockoffset := FileBlock(pos), pos % BLOCKSIZE;
    var diskblock;
    err, diskblock := vol.Bmap(ino, vnblock, false);
    BlockBound(pos, len);
    LoadedOk(vol.s, ino);
    if !err.Ok? {
      return err, [];
    }
    BlockHere(vol.s, ino, vnblock);
    BlockLen(Data(vol.s, ino, vnblock));
    SliceOfBlock(vol.s, ino, vnblock, blockoffset, len);
    data := if diskblock == 0 then Zeros()[blockoffset..blockoffset + len]
        else vol.disk[diskblock][blockoffset..blockoffset + len];
  }

  lemma BlockBound(pos: nat, len: nat)
    requires 0 < len && pos % BLOCKSIZE + len <= BLOCKSIZE
    ensures pos / BLOCKSIZE < MAXBLOCKS <==> pos < MAXSIZE
    ensures pos < MAXSIZE ==> pos + len <= MAXSIZE
  {
  }

  /** Write metadata that lies within one block, making the file longer if it ends beyond it. */
  method MetaWrite(vol: Volume, ino: nat, pos: nat, data: seq<nat>) returns (err: Error)
    requires vol.Valid() && ino in vol.vnodes && data != [] && pos % BLOCKSIZE + |data| <= BLOCKSIZE && pos < OFFSETS
    requires AllBytes(data)
    modifies vol, vol.freemap
    ensures vol.Valid() && Shape(old(vol.s)) && Shape(vol.s) && ino in old(vol.s).inodes && ino in vol.vnodes
    ensures err.TooBig? <==> pos >= MAXSIZE
    ensures err.NoSpace? ==> Full(vol) && MapOf(old(vol.s), ino, pos / BLOCKSIZE) == 0
    ensures if err.Ok? then Wrote(old(vol.s), vol.s, ino, pos, data) else Wrote(old(vol.s), vol.s, ino, pos, [])
    ensures Sized(old(vol.s), vol.s, ino,
            SizeAfter(Cur(old(vol.s), ino).size, pos, if err.Ok? then |data| else 0, true))
    ensures ino in vol.s.inodes
    ensures Lengthened(Cur(old(vol.s), ino).size, Cur(vol.s, ino).size, pos, if err.Ok? then |data| else 0, true)
  {
    hide FsInv, Shape, SameFiles, MapsBut, MapOf, Data, SameMeta, SameData, Wrote, IsBlock, FileBlock, Did, Sized, Cur,
         U.Splice, MapOnDisk, FreemapBlocks, Lengthened;
    ghost var s0 := vol.s;
    LoadedOk(s0, ino);
    FileBlockIs(pos);
    BlockBound(pos, |data|);
    var vnblock, blockoffset := FileBlock(pos), pos % BLOCKSIZE;
    var diskblock;
    err, diskblock := vol.Bmap(ino, vnblock, true);
    ghost var s1 := vol.s;
    FilesOf(s0, s1, ino, pos);
    SameSize(s0, s1, ino);
    if !err.Ok? {
      SizedLengthened(s0, s1, ino, pos, 0, true);
      return;
    }
    BlockHere(s1, ino, vnblock);
    BlockLen(Data(s1, ino, vnblock));
    var metaiobuf := U.Splice(vol.disk[diskblock], blockoffset, data);
    DataOffMap(s1, ino, vnblock);
    MapElsewhere(vol.freemap.v, vol.disk, FreemapBlocks(vol.nblocks), diskblock, metaiobuf);
    vol.disk := vol.disk[diskblock := metaiobuf];
    vol.s := vol.s.(disk := vol.s.disk[diskblock := metaiobuf]);
    BlockWritten(s0, s1, vol.s, ino, vnblock, blockoffset, data);
    assert pos % OFFSETS == pos;
    SameInodes(s0, vol.s, ino, pos, data);
    DidWrite(s0, vol.s, ino, pos, data);
    Grow(vol, ino, pos + |data|, s0, pos, data);
    DidIs(s0, vol.s, ino, pos, data);
    SizedLengthened(s0, vol.s, ino, pos, |data|, true);
  }

  lemma SameInodes(s: Fs, s2: Fs, ino: nat, off: nat, bytes: seq<nat>)
    requires Wrote(s, s2, ino, off, bytes)
    ensures s2.inodes == s.inodes && s2.vnodes.Keys == s.vnodes.Keys
  {
  }

  // ---- What an operation on one file leaves alone ----

  /** File `i` reads the same and is as long. */
  ghost predicate SameFile(s: Fs, s2: Fs, i: nat)
    requires Shape(s) && Shape(s2) && i in s.inodes && i in s2.inodes
  {
    Cur(s2, i).size == Cur(s, i).size && forall x :: 0 <= x < MAXSIZE ==> Content(s2, i, x) == Content(s, i, x)
  }

  /** Only the bytes and the size of file `ino` may differ. */
  ghost predicate OnlyFile(s: Fs, s2: Fs, ino: nat)
  {
    && Shape(s) && Shape(s2) && s2.inodes == s.inodes && s2.vnodes.Keys == s.vnodes.Keys && ino in s.inodes
    && (forall i :: i in s.inodes && i != ino ==> SameFile(s, s2, i))
    && (forall i :: i in s.inodes ==> Cur(s2, i).kind == Cur(s, i).kind && Cur(s2, i).links == Cur(s, i).links)
  }

  lemma WriteOnly(s: Fs, s2: Fs, ino: nat, off: nat, bytes: seq<nat>, size: nat)
    requires Wrote(s, s2, ino, off, bytes) && Sized(s, s2, ino, size)
    ensures OnlyFile(s, s2, ino)
  {
    hide Shape, Cur, Content;
    forall i | i in s.inodes && i != ino ensures SameFile(s, s2, i) {
      forall x | 0 <= x < MAXSIZE ensures Content(s2, i, x) == Content(s, i, x) {
        assert ByteAfter(s, s2, ino, off, bytes, i, x);
      }
    }
  }

  /** Reading or writing a file leaves every other file alone. */
  lemma IoOnly(s: Fs, s2: Fs, ino: nat, off: nat, bytes: seq<nat>, writing: bool, size: nat)
    requires Did(s, s2, ino, off, bytes, writing) && Shape(s) && Shape(s2) && Sized(s, s2, ino, size)
    ensures OnlyFile(s, s2, ino)
  {
    hide Shape, Cur, Content, Wrote, Slice;
    if writing { WriteOnly(s, s2, ino, off % OFFSETS, bytes, size); }
  }

  /** So does truncating it. */
  lemma TruncOnly(s: Fs, s2: Fs, ino: nat, blocklen: nat, size: nat)
    requires Truncated(s, s2, ino, blocklen, size)
    ensures OnlyFile(s, s2, ino)
  {
    hide Shape, Cur, Data, MapOf;
    forall i | i in s.inodes && i != ino ensures SameFile(s, s2, i) {
      forall x | 0 <= x < MAXSIZE ensures Content(s2, i, x) == Content(s, i, x) {
        assert SameBlock(s, s2, i, x / BLOCKSIZE);
      }
    }
  }

  /** Creating, loading, writing back and letting go of inodes leaves the files in both states alone. */
  lemma FileSame(s: Fs, s2: Fs, i: nat)
    requires Shape(s) && Shape(s2) && i in s.inodes && i in s2.inodes && SameMeta(s, s2)
    requires forall k :: 0 <= k < MAXBLOCKS ==> Data(s2, i, k) == Data(s, i, k)
    ensures SameFile(s, s2, i)
  {
    hide Shape, Cur, Data;
  }
}
