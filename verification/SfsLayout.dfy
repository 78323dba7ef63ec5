/** The on-disk format: blocks of bytes read as 32-bit words, and inodes. */
module SfsLayout {
  const BLOCKSIZE := 512
  const NDIRECT := 15
  const DBPERIDB := 128
  const NOINO := 0
  const ROOTDIR_INO := 1
  const FREEMAP_START := 2
  const TYPE_FILE := 1
  const TYPE_DIR := 2
  const BITSPERBLOCK := 4096
  const WORD := 0x1_0000_0000
  const HALF := 0x1_0000

  /** Blocks a file can have. */
  const MAXBLOCKS := NDIRECT + DBPERIDB

  datatype Inode = Inode(size: nat, kind: nat, links: nat, direct: seq<nat>, indirect: nat)

  predicate IsBlock(b: seq<nat>) { |b| == BLOCKSIZE && forall i :: 0 <= i < BLOCKSIZE ==> b[i] < 256 }

  predicate IsBuffer(ws: seq<nat>) { |ws| == DBPERIDB && forall j :: 0 <= j < DBPERIDB ==> ws[j] < WORD }

  predicate InodeOk(n: Inode)
  {
    && n.size < WORD && n.kind < HALF && n.links < HALF && |n.direct| == NDIRECT && n.indirect < WORD
    && forall k :: 0 <= k < NDIRECT ==> n.direct[k] < WORD
  }

  function Zeros(): (b: seq<nat>)
    ensures IsBlock(b)
  {
    seq(BLOCKSIZE, _ => 0)
  }

  /** Word `j` of a block, most significant byte first. */
  function Word(b: seq<nat>, j: nat): nat
    requires IsBlock(b) && j < DBPERIDB
  {
    ((b[4 * j] * 256 + b[4 * j + 1]) * 256 + b[4 * j + 2]) * 256 + b[4 * j + 3]
  }

  function Byte(w: nat, k: nat): nat
    requires k < 4
  {
    (if k == 0 then w / 0x1000000 else if k == 1 then w / 0x10000 else if k == 2 then w / 0x100 else w) % 256
  }

  function Bytes(ws: seq<nat>): (b: seq<nat>)
    requires |ws| == DBPERIDB
    ensures IsBlock(b)
  {
    seq(BLOCKSIZE, i requires 0 <= i < BLOCKSIZE => Byte(ws[i / 4], i % 4))
  }

  function WordsOf(b: seq<nat>): (ws: seq<nat>)
    requires IsBlock(b)
    ensures |ws| == DBPERIDB
  {
    seq(DBPERIDB, j requires 0 <= j < DBPERIDB => Word(b, j))
  }

  lemma WordBound(b: seq<nat>, j: nat)
    requires IsBlock(b) && j < DBPERIDB
    ensures Word(b, j) < WORD
  {
  }

  lemma FourBytes(w: nat)
    requires w < WORD
    ensures ((Byte(w, 0) * 256 + Byte(w, 1)) * 256 + Byte(w, 2)) * 256 + Byte(w, 3) == w
  {
    var a := w / 0x100;
    var b := a / 0x100;
    Shifted(w);
    assert w == a * 256 + w % 256 && a == b * 256 + a % 256 && b == b / 0x100 * 256 + b % 256;
  }

  lemma Shifted(w: nat)
    requires w < WORD
    ensures w / 0x10000 == w / 0x100 / 0x100 && w / 0x1000000 == w / 0x100 / 0x100 / 0x100 < 256
  {
  }

  /** A buffer of words written to a block and read back is the same. */
  lemma WordsRoundTrip(ws: seq<nat>)
    requires IsBuffer(ws)
    ensures WordsOf(Bytes(ws)) == ws
  {
    var b := Bytes(ws);
    forall j | 0 <= j < DBPERIDB ensures Word(b, j) == ws[j] { WordOfBytes(ws, j); }
    hide Word, Bytes;
  }

  lemma WordOfBytes(ws: seq<nat>, j: nat)
    requires IsBuffer(ws) && j < DBPERIDB
    ensures Word(Bytes(ws), j) == ws[j]
  {
    var b := Bytes(ws);
    FourBytes(ws[j]);
    hide Byte;
    assert b[4 * j] == Byte(ws[j], 0) && b[4 * j + 1] == Byte(ws[j], 1);
    assert b[4 * j + 2] == Byte(ws[j], 2) && b[4 * j + 3] == Byte(ws[j], 3);
  }

  lemma WordsInRange(b: seq<nat>)
    requires IsBlock(b)
    ensures IsBuffer(WordsOf(b))
  {
    forall j | 0 <= j < DBPERIDB ensures WordsOf(b)[j] < WORD { WordBound(b, j); }
  }

  lemma ZeroWords(j: nat)
    requires j < DBPERIDB
    ensures Word(Zeros(), j) == 0
  {
  }

  function InodeWords(n: Inode): seq<nat>
    requires InodeOk(n)
  {
    [n.size, n.kind * HALF + n.links] + n.direct + [n.indirect] + seq(DBPERIDB - 3 - NDIRECT, _ => 0)
  }

  function Encode(n: Inode): (b: seq<nat>)
    requires InodeOk(n)
    ensures IsBlock(b)
  {
    Bytes(InodeWords(n))
  }

  function Decode(b: seq<nat>): Inode
    requires IsBlock(b)
  {
    var ws := WordsOf(b);
    Inode(ws[0], ws[1] / HALF, ws[1] % HALF, ws[2..2 + NDIRECT], ws[2 + NDIRECT])
  }

  lemma DecodeOk(b: seq<nat>)
    requires IsBlock(b)
    ensures InodeOk(Decode(b))
  {
    WordsInRange(b);
  }

  /** An inode written to its block and read back is the same. */
  lemma InodeRoundTrip(n: Inode)
    requires InodeOk(n)
    ensures Decode(Encode(n)) == n
  {
    hide Bytes, WordsOf, InodeWords, InodeOk, IsBuffer, IsBlock;
    InodeWordsAre(n);
    Halves(n);
    WordsRoundTrip(InodeWords(n));
  }

  /** Four bytes of a block as a number, most significant first. */
  predicate Holds(b: seq<nat>, at: nat, x: nat)
    requires at + 4 <= |b|
  {
    x == 0x1000000 * b[at] + 0x10000 * b[at + 1] + 0x100 * b[at + 2] + b[at + 3]
  }

  /** Where an inode's fields are in its block: the size in bytes 0 to 3, type and link count in two each, the direct
      blocks from byte 8, the indirect block at 68, and zeros. */
  lemma InodeBytes(n: Inode)
    requires InodeOk(n)
    ensures var b := Encode(n);
            && Holds(b, 0, n.size) && n.kind == 0x100 * b[4] + b[5] && n.links == 0x100 * b[6] + b[7]
            && (forall k :: 0 <= k < NDIRECT ==> Holds(b, 8 + 4 * k, n.direct[k])) && Holds(b, 68, n.indirect)
            && (forall j :: 18 <= j < DBPERIDB ==> Holds(b, 4 * j, 0))
  {
    var ws, b := InodeWords(n), Encode(n);
    assert |b| == BLOCKSIZE;
    hide Bytes, InodeWords, IsBlock, IsBuffer, Holds, Encode, InodeOk;
    InodeWordsAre(n);
    InodeTail(n);
    WordHeld(n, 0);
    KindAndLinks(n);
    WordHeld(n, 17);
    forall k | 0 <= k < NDIRECT ensures Holds(b, 8 + 4 * k, n.direct[k]) {
      WordHeld(n, k + 2);
      assert n.direct[k] == ws[2..2 + NDIRECT][k] == ws[k + 2] && 8 + 4 * k == 4 * (k + 2);
    }
    forall j | 18 <= j < DBPERIDB ensures Holds(b, 4 * j, 0) { WordHeld(n, j); }
  }

  lemma KindAndLinks(n: Inode)
    requires InodeOk(n)
    ensures n.kind == 0x100 * Encode(n)[4] + Encode(n)[5] && n.links == 0x100 * Encode(n)[6] + Encode(n)[7]
  {
    var b := Encode(n);
    WordHeld(n, 1);
    InodeWordsAre(n);
    hide Bytes, InodeWords, Encode;
    TwoHalves(n.kind, n.links, b[4], b[5], b[6], b[7]);
  }

  lemma WordHeld(n: Inode, j: nat)
    requires InodeOk(n) && j < DBPERIDB
    ensures |InodeWords(n)| == DBPERIDB && Holds(Encode(n), 4 * j, InodeWords(n)[j])
  {
    InodeWordsAre(n);
    WordOfBytes(InodeWords(n), j);
    hide Bytes, InodeWords;
  }

  lemma InodeTail(n: Inode)
    requires InodeOk(n)
    ensures |InodeWords(n)| == DBPERIDB && forall j :: 18 <= j < DBPERIDB ==> InodeWords(n)[j] == 0
  {
  }

  lemma TwoHalves(kind: nat, links: nat, a: nat, b: nat, c: nat, d: nat)
    requires kind * HALF + links == 0x1000000 * a + 0x10000 * b + 0x100 * c + d && links < HALF
    requires a < 256 && b < 256 && c < 256 && d < 256
    ensures kind == 0x100 * a + b && links == 0x100 * c + d
  {
  }

  lemma Halves(n: Inode)
    requires InodeOk(n)
    ensures (n.kind * HALF + n.links) / HALF == n.kind && (n.kind * HALF + n.links) % HALF == n.links
  {
  }

  lemma InodeWordsAre(n: Inode)
    requires InodeOk(n)
    ensures IsBuffer(InodeWords(n))
    ensures var ws := InodeWords(n);
            ws[0] == n.size && ws[1] == n.kind * HALF + n.links && ws[2..2 + NDIRECT] == n.direct
                && ws[2 + NDIRECT] == n.indirect
  {
    var ws := InodeWords(n);
    assert |ws| == DBPERIDB;
    forall j | 0 <= j < DBPERIDB ensures ws[j] < WORD {
      assert 2 <= j < 2 + NDIRECT ==> ws[j] == n.direct[j - 2];
    }
    assert ws[2..2 + NDIRECT] == n.direct;
  }

  /** A zeroed block is an inode of no type, size, links or blocks. */
  lemma DecodeZeros()
    ensures Decode(Zeros()) == Inode(0, 0, 0, seq(NDIRECT, _ => 0), 0)
  {
    var ws := WordsOf(Zeros());
    forall j | 0 <= j < DBPERIDB ensures ws[j] == 0 { ZeroWords(j); }
  }
}
