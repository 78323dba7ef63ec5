/** Directories: files of fixed-size entries that stand for a finite map from names to inode numbers. */
module SfsDir {
  import opened SfsLayout
  import opened SfsState
  import opened SfsVolume
  import opened SfsFile
  import Bits

  const ENTRYSIZE := 64
  const NAMELEN := 60

  datatype Entry = Entry(ino: nat, name: seq<nat>)

  datatype Outcome = Linked(slot: nat) | Exists | NameTooLong | Failed(err: Error)

  /** A C string's characters: bytes, none of them NUL. */
  predicate IsName(name: seq<nat>) { forall i :: 0 <= i < |name| ==> 0 < name[i] < 256 }

  /** The string at the start of a buffer, up to the first NUL or the end. */
  function CString(b: seq<nat>): seq<nat>
  {
    if b == [] || b[0] == 0 then [] else [b[0]] + CString(b[1..])
  }

  lemma {:induction false} CStringPadded(name: seq<nat>, pad: nat)
    requires IsName(name)
    ensures CString(name + seq<nat>(pad, _ => 0)) == name
    decreases |name|
  {
    var b := name + seq<nat>(pad, _ => 0);
    if name != [] {
      CStringPadded(name[1..], pad);
      assert b[1..] == name[1..] + seq<nat>(pad, _ => 0);
      assert name == [name[0]] + name[1..];
    }
  }

  /** An entry as read back: the last name byte is taken to be NUL whatever it is. */
  function Decoded(b: seq<nat>): Entry
    requires |b| == ENTRYSIZE
  {
    Entry(((b[0] * 256 + b[1]) * 256 + b[2]) * 256 + b[3], CString(b[4..ENTRYSIZE - 1]))
  }

  function Encoded(e: Entry): (b: seq<nat>)
    requires |e.name| < NAMELEN
    ensures |b| == ENTRYSIZE
  {
    [Byte(e.ino, 0), Byte(e.ino, 1), Byte(e.ino, 2), Byte(e.ino, 3)] + e.name + seq<nat>(NAMELEN - |e.name|, _ => 0)
  }

  lemma EntryRoundTrip(e: Entry)
    requires e.ino < WORD && IsName(e.name) && |e.name| < NAMELEN
    ensures Decoded(Encoded(e)) == e && AllBytes(Encoded(e))
  {
    FourBytes(e.ino);
    EncodedBytes(e);
    var b := Encoded(e);
    CStringPadded(e.name, NAMELEN - 1 - |e.name|);
    assert b[4..ENTRYSIZE - 1] == e.name + seq<nat>(NAMELEN - 1 - |e.name|, _ => 0);
    hide Byte;
  }

  /** Where an entry's fields are: the inode number in the first four bytes, most significant first, then the name, then
      zeros. */
  lemma EntryBytes(e: Entry, i: nat)
    requires e.ino < WORD && |e.name| < NAMELEN && i < ENTRYSIZE
    ensures e.ino == 0x1000000 * Encoded(e)[0] + 0x10000 * Encoded(e)[1] + 0x100 * Encoded(e)[2] + Encoded(e)[3]
    ensures i >= 4 ==> Encoded(e)[i] == if i - 4 < |e.name| then e.name[i - 4] else 0
  {
    FourBytes(e.ino);
    hide Byte;
  }

  lemma EncodedBytes(e: Entry)
    requires e.ino < WORD && IsName(e.name) && |e.name| < NAMELEN
    ensures AllBytes(Encoded(e))
  {
  }

  ghost function Slots(s: Fs, dir: nat): nat
    requires Shape(s) && dir in s.inodes
  {
    Cur(s, dir).size / ENTRYSIZE
  }

  ghost function At(s: Fs, dir: nat, i: nat): Entry
    requires Shape(s) && dir in s.inodes && ENTRYSIZE * (i + 1) <= MAXSIZE
  {
    Decoded(Slice(s, dir, ENTRYSIZE * i, ENTRYSIZE))
  }

  /** The entries in use have different names, and the size is a whole number of entries. */
  ghost predicate DirOk(s: Fs, dir: nat)
  {
    && Shape(s) && dir in s.inodes && Cur(s, dir).size % ENTRYSIZE == 0 && Cur(s, dir).size <= MAXSIZE
    && forall i, j :: 0 <= i < j < Slots(s, dir) ==> Distinct(At(s, dir, i), At(s, dir, j))
  }

  predicate Distinct(a: Entry, b: Entry) { a.ino != NOINO && b.ino != NOINO ==> a.name != b.name }

  /** The map the first `n` entries stand for. */
  ghost function Names(s: Fs, dir: nat, n: nat): map<seq<nat>, nat>
    requires Shape(s) && dir in s.inodes && ENTRYSIZE * n <= MAXSIZE
  {
    if n == 0 then map[] else
    var e := At(s, dir, n - 1);
    if e.ino == NOINO then Names(s, dir, n - 1) else Names(s, dir, n - 1)[e.name := e.ino]
  }

  /** The directory as a map. */
  ghost function DirMap(s: Fs, dir: nat): map<seq<nat>, nat>
    requires DirOk(s, dir)
  {
    Names(s, dir, Slots(s, dir))
  }

  /** A newly made volume's root directory binds no name. */
  lemma FormattedRootIsEmpty(image: seq<seq<nat>>)
    requires IsFormatted(image)
    ensures FsInv(Formatted(image)) && DirOk(Formatted(image), ROOTDIR_INO)
    ensures DirMap(Formatted(image), ROOTDIR_INO) == map[]
  {
    FormattedInv(image);
  }

  /** A name is bound exactly when some entry in use has it. */
  lemma {:induction false} NamesAre(s: Fs, dir: nat, n: nat, name: seq<nat>)
    requires DirOk(s, dir) && n <= Slots(s, dir)
    ensures name in Names(s, dir, n) <==>
            exists i :: 0 <= i < n && At(s, dir, i).ino != NOINO && At(s, dir, i).name == name
    ensures forall i :: 0 <= i < n && At(s, dir, i).ino != NOINO ==> At(s, dir, i).name in Names(s, dir, n)
    ensures forall i :: 0 <= i < n && At(s, dir, i).ino != NOINO && At(s, dir, i).name == name ==>
            Names(s, dir, n)[name] == At(s, dir, i).ino
  {
    hide Shape, At, Cur;
    if n > 0 {
      NamesAre(s, dir, n - 1, name);
      var e := At(s, dir, n - 1);
      forall i | 0 <= i < n && At(s, dir, i).ino != NOINO && At(s, dir, i).name == name
        ensures Names(s, dir, n)[name] == At(s, dir, i).ino
      {
        if i < n - 1 { assert Distinct(At(s, dir, i), e); }
      }
    }
  }

  /** With every entry in use there are as many names as entries. */
  lemma {:induction false} NamesFull(s: Fs, dir: nat, n: nat)
    requires DirOk(s, dir) && n <= Slots(s, dir) && forall i :: 0 <= i < n ==> At(s, dir, i).ino != NOINO
    ensures |Names(s, dir, n)| == n
  {
    hide Shape, At, Cur;
    if n > 0 {
      NamesFull(s, dir, n - 1);
      var e := At(s, dir, n - 1);
      NamesAre(s, dir, n - 1, e.name);
      forall i | 0 <= i < n - 1 ensures At(s, dir, i).name != e.name { assert Distinct(At(s, dir, i), e); }
      OneMore(Names(s, dir, n - 1), e.name, e.ino);
    }
  }

  lemma OneMore(m: map<seq<nat>, nat>, name: seq<nat>, ino: nat)
    requires name !in m
    ensures |m[name := ino]| == |m| + 1
  {
    assert m[name := ino].Keys == m.Keys + {name};
  }

  /** A directory with no entry free and no room for another is full of names. */
  lemma FullDirectory(s: Fs, dir: nat, slot: nat)
    requires DirOk(s, dir) && ENTRYSIZE * (slot + 1) > MAXSIZE && slot <= Slots(s, dir)
    requires slot == Slots(s, dir) ==> forall i :: 0 <= i < Slots(s, dir) ==> At(s, dir, i).ino != NOINO
    ensures ENTRYSIZE * |DirMap(s, dir)| == MAXSIZE
  {
    hide Shape, At, Cur, Names;
    DirSize(s, dir);
    assert ENTRYSIZE * 1144 == MAXSIZE && slot == Slots(s, dir) == 1144;
    NamesFull(s, dir, slot);
  }

  /** Slot `k` holds `e` and every other slot what it held; there are `n` slots. */
  ghost predicate SlotSet(s: Fs, s2: Fs, dir: nat, k: nat, e: Entry, n: nat)
  {
    && Shape(s) && Shape(s2) && dir in s.inodes && dir in s2.inodes && ENTRYSIZE * n <= MAXSIZE && k < n
    && Cur(s2, dir).size == ENTRYSIZE * n
    && (forall i :: 0 <= i < n ==> At(s2, dir, i) == if i == k then e else At(s, dir, i))
  }

  lemma {:induction false} NamesLinked(s: Fs, s2: Fs, dir: nat, k: nat, e: Entry, n: nat, m: nat)
    requires DirOk(s, dir) && SlotSet(s, s2, dir, k, e, n) && m <= n
    requires (m <= Slots(s, dir) || (k == Slots(s, dir) && m == k + 1))
    requires e.ino != NOINO && (k < Slots(s, dir) ==> At(s, dir, k).ino == NOINO) && e.name !in DirMap(s, dir)
    ensures Names(s2, dir, m) == if m <= k then Names(s, dir, m)
                                 else if m <= Slots(s, dir) then Names(s, dir, m)[e.name := e.ino]
                                     else Names(s, dir, k)[e.name := e.ino]
    decreases m
  {
    hide Shape, At, Cur, DirMap;
    if m > 0 {
      NamesLinked(s, s2, dir, k, e, n, m - 1);
      if m - 1 != k && At(s, dir, m - 1).ino != NOINO { NotBound(s, dir, m - 1, e.name); }
    }
  }

  lemma NotBound(s: Fs, dir: nat, i: nat, name: seq<nat>)
    requires DirOk(s, dir) && i < Slots(s, dir) && At(s, dir, i).ino != NOINO && name !in DirMap(s, dir)
    ensures At(s, dir, i).name != name
  {
    hide Shape, At, Cur;
    NamesAre(s, dir, Slots(s, dir), name);
  }

  /** Storing an unbound name in a free slot, or at the end, adds exactly that binding. */
  lemma LinkAdds(s: Fs, s2: Fs, dir: nat, k: nat, e: Entry)
    requires DirOk(s, dir) && k <= Slots(s, dir) && (k < Slots(s, dir) ==> At(s, dir, k).ino == NOINO)
    requires SlotSet(s, s2, dir, k, e, if k < Slots(s, dir) then Slots(s, dir) else k + 1)
    requires e.ino != NOINO && e.name !in DirMap(s, dir)
    ensures DirOk(s2, dir) && DirMap(s2, dir) == DirMap(s, dir)[e.name := e.ino]
  {
    hide Shape, At, Cur, Names, Slots;
    var n := if k < Slots(s, dir) then Slots(s, dir) else k + 1;
    NamesLinked(s, s2, dir, k, e, n, n);
    SetSlots(s, s2, dir, k, e, n);
    SlotsBound(s, dir);
    forall i, j | 0 <= i < j < n
      ensures Distinct(At(s2, dir, i), At(s2, dir, j)) { LinkDistinct(s, s2, dir, k, e, n, i, j); }
  }

  lemma SlotsBound(s: Fs, dir: nat)
    requires DirOk(s, dir)
    ensures ENTRYSIZE * Slots(s, dir) <= MAXSIZE
  {
  }

  lemma SetSlots(s: Fs, s2: Fs, dir: nat, k: nat, e: Entry, n: nat)
    requires SlotSet(s, s2, dir, k, e, n)
    ensures Slots(s2, dir) == n && Cur(s2, dir).size % ENTRYSIZE == 0 && Cur(s2, dir).size <= MAXSIZE
  {
  }

  lemma LinkDistinct(s: Fs, s2: Fs, dir: nat, k: nat, e: Entry, n: nat, i: nat, j: nat)
    requires DirOk(s, dir) && k <= Slots(s, dir) && SlotSet(s, s2, dir, k, e, n)
    requires n == (if k < Slots(s, dir) then Slots(s, dir) else k + 1)
    requires e.ino != NOINO && e.name !in DirMap(s, dir) && i < j < n
    ensures Distinct(At(s2, dir, i), At(s2, dir, j))
  {
    hide Shape, At, Cur, DirMap;
    if i != k && j != k {
      assert Distinct(At(s, dir, i), At(s, dir, j));
    } else {
      var o := if i == k then j else i;
      if At(s, dir, o).ino != NOINO { NotBound(s, dir, o, e.name); }
    }
  }

  lemma {:induction false} NamesUnlinked(s: Fs, s2: Fs, dir: nat, k: nat, e: Entry, m: nat)
    requires DirOk(s, dir) && SlotSet(s, s2, dir, k, e, Slots(s, dir)) && m <= Slots(s, dir) && e.ino == NOINO
    requires At(s, dir, k).ino != NOINO
    ensures Names(s2, dir, m) == if m <= k then Names(s, dir, m) else Names(s, dir, m) - {At(s, dir, k).name}
    decreases m
  {
    hide Shape, At, Cur;
    if m > 0 {
      NamesUnlinked(s, s2, dir, k, e, m - 1);
      if m - 1 == k {
        NamesAre(s, dir, k, At(s, dir, k).name);
        forall i | 0 <= i < k && At(s, dir, i).ino != NOINO ensures At(s, dir, i).name != At(s, dir, k).name {
          assert Distinct(At(s, dir, i), At(s, dir, k));
        }
      } else if m - 1 > k && At(s, dir, m - 1).ino != NOINO {
        assert Distinct(At(s, dir, k), At(s, dir, m - 1));
      }
    }
  }

  /** Clearing a slot in use removes exactly its binding. */
  lemma UnlinkRemoves(s: Fs, s2: Fs, dir: nat, k: nat, e: Entry)
    requires DirOk(s, dir) && k < Slots(s, dir) && SlotSet(s, s2, dir, k, e, Slots(s, dir)) && e.ino == NOINO
    requires At(s, dir, k).ino != NOINO
    ensures DirOk(s2, dir) && At(s, dir, k).name in DirMap(s, dir)
    ensures DirMap(s2, dir) == DirMap(s, dir) - {At(s, dir, k).name}
  {
    NamesUnlinked(s, s2, dir, k, e, Slots(s, dir));
    NamesAre(s, dir, Slots(s, dir), At(s, dir, k).name);
    hide Shape, At, Cur, Names;
    forall i, j | 0 <= i < j < Slots(s, dir) ensures Distinct(At(s2, dir, i), At(s2, dir, j)) {
      if i != k && j != k { assert Distinct(At(s, dir, i), At(s, dir, j)); }
    }
    assert Slots(s2, dir) == Slots(s, dir);
  }

  /** Writing one slot's bytes sets that slot. */
  lemma SlotWritten(s: Fs, s2: Fs, dir: nat, k: nat, data: seq<nat>, n: nat)
    requires Wrote(s, s2, dir, ENTRYSIZE * k, data) && |data| == ENTRYSIZE && k < n && ENTRYSIZE * n <= MAXSIZE
    requires Cur(s2, dir).size == ENTRYSIZE * n
    ensures SlotSet(s, s2, dir, k, Decoded(data), n)
  {
    hide Shape, Cur, Decoded;
    forall i | 0 <= i < n ensures At(s2, dir, i) == if i == k then Decoded(data) else At(s, dir, i) {
      SlotBytes(s, s2, dir, k, data, i);
    }
  }

  lemma SlotBytes(s: Fs, s2: Fs, dir: nat, k: nat, data: seq<nat>, i: nat)
    requires Wrote(s, s2, dir, ENTRYSIZE * k, data) && |data| == ENTRYSIZE && ENTRYSIZE * (i + 1) <= MAXSIZE
    ensures Slice(s2, dir, ENTRYSIZE * i, ENTRYSIZE) == if i == k then data else Slice(s, dir, ENTRYSIZE * i, ENTRYSIZE)
  {
    hide Shape, Content;
    if i == k {
      ReadBack(s, s2, dir, ENTRYSIZE * k, data);
    } else {
      var a, b := Slice(s2, dir, ENTRYSIZE * i, ENTRYSIZE), Slice(s, dir, ENTRYSIZE * i, ENTRYSIZE);
      forall y | 0 <= y < ENTRYSIZE ensures a[y] == b[y] {
        assert ByteAfter(s, s2, dir, ENTRYSIZE * k, data, dir, ENTRYSIZE * i + y);
      }
      assert a == b;
    }
  }

  /** A directory is the same whenever its file is, whatever happened to others. */
  lemma DirFrame(s: Fs, s2: Fs, dir: nat)
    requires DirOk(s, dir) && Shape(s2) && dir in s2.inodes && SameFile(s, s2, dir)
    ensures DirOk(s2, dir) && DirMap(s2, dir) == DirMap(s, dir) && Slots(s2, dir) == Slots(s, dir)
    ensures forall i :: 0 <= i < Slots(s, dir) ==> At(s2, dir, i) == At(s, dir, i)
  {
    SlotsBound(s, dir);
    hide Shape, Cur, Content;
    forall i | 0 <= i < Slots(s, dir) ensures At(s2, dir, i) == At(s, dir, i) {
      assert Slice(s2, dir, ENTRYSIZE * i, ENTRYSIZE) == Slice(s, dir, ENTRYSIZE * i, ENTRYSIZE);
    }
    hide At;
    SameNames(s, s2, dir, Slots(s, dir));
    forall i, j | 0 <= i < j < Slots(s2, dir) ensures Distinct(At(s2, dir, i), At(s2, dir, j)) {
      assert Distinct(At(s, dir, i), At(s, dir, j));
    }
  }

  /** Nothing written: the directory is the same. */
  lemma DirUnchanged(s: Fs, s2: Fs, dir: nat, off: nat)
    requires DirOk(s, dir) && Wrote(s, s2, dir, off, []) && Cur(s2, dir).size == Cur(s, dir).size
    ensures DirOk(s2, dir) && DirMap(s2, dir) == DirMap(s, dir)
  {
    hide Cur, Content;
    forall x | 0 <= x < MAXSIZE ensures Content(s2, dir, x) == Content(s, dir, x) {
      assert ByteAfter(s, s2, dir, off, [], dir, x);
    }
    DirFrame(s, s2, dir);
  }

  lemma {:induction false} SameNames(s: Fs, s2: Fs, dir: nat, n: nat)
    requires Shape(s) && Shape(s2) && dir in s.inodes && dir in s2.inodes && ENTRYSIZE * n <= MAXSIZE
    requires forall i :: 0 <= i < n ==> At(s2, dir, i) == At(s, dir, i)
    ensures Names(s2, dir, n) == Names(s, dir, n)
  {
    hide Shape, At;
    if n > 0 { SameNames(s, s2, dir, n - 1); }
  }

  // ---- The operations ----

  /** Read one slot. */
  method ReadSlot(vol: Volume, dir: nat, slot: nat) returns (e: Entry)
    requires vol.Valid() && dir in vol.vnodes && DirOk(vol.s, dir) && slot < Slots(vol.s, dir)
    modifies vol, vol.freemap
    ensures vol.Valid() && vol.s == old(vol.s) && DirOk(vol.s, dir) && slot < Slots(vol.s, dir)
    ensures e == At(vol.s, dir, slot)
  {
    SlotsBound(vol.s, dir);
    hide FsInv, Shape, Cur, Slice, Decoded, Names, Slots;
    SlotInBlock(slot);
    var err, data := MetaRead(vol, dir, slot * ENTRYSIZE, ENTRYSIZE);
    e := Decoded(data);
  }

  lemma SlotInBlock(slot: nat)
    ensures slot * ENTRYSIZE % BLOCKSIZE + ENTRYSIZE <= BLOCKSIZE
  {
    var q, r := slot / 8, slot % 8;
    assert slot * ENTRYSIZE == BLOCKSIZE * q + r * ENTRYSIZE;
    Bits.DivModUnique(slot * ENTRYSIZE, BLOCKSIZE, q, r * ENTRYSIZE);
  }

  /** Number of slots, from the size. */
  method NumEntries(vol: Volume, dir: nat) returns (n: nat)
    requires vol.Valid() && dir in vol.vnodes && DirOk(vol.s, dir)
    ensures n == Slots(vol.s, dir) && n * ENTRYSIZE <= MAXSIZE
  {
    LoadedOk(vol.s, dir);
    hide FsInv, Shape;
    var size := vol.vnodes[dir].inode.size;
    assert size % ENTRYSIZE == 0;
    n := size / ENTRYSIZE;
  }

  /** Search for a name. It is found exactly when it is bound, at its only slot; the last free slot, if any, comes
      back too (-1 for none). */
  method FindName(vol: Volume, dir: nat, name: seq<nat>) returns (found: bool, ino: nat, slot: nat, emptyslot: int)
    requires vol.Valid() && dir in vol.vnodes && DirOk(vol.s, dir)
    modifies vol, vol.freemap
    ensures vol.Valid() && vol.s == old(vol.s)
    ensures found <==> name in DirMap(vol.s, dir)
    ensures found ==>
            && ino == DirMap(vol.s, dir)[name] && ino != NOINO && slot < Slots(vol.s, dir)
            && At(vol.s, dir, slot) == Entry(ino, name)
    ensures -1 <= emptyslot < Slots(vol.s, dir) && (emptyslot >= 0 ==> At(vol.s, dir, emptyslot).ino == NOINO)
    ensures forall i :: emptyslot < i < Slots(vol.s, dir) && 0 <= i ==> At(vol.s, dir, i).ino != NOINO
  {
    ghost var s := vol.s;
    SlotsBound(s, dir);
    hide FsInv, Shape, Cur, At, Names, Slots, DirOk, DirMap, Searched, Emptied;
    var nentries := NumEntries(vol, dir);
    found, ino, slot, emptyslot := false, 0, 0, -1;
    SearchStart(s, dir, name);
    var i := 0;
    while i < nentries
      invariant 0 <= i <= nentries && vol.Valid() && vol.s == s && dir in vol.vnodes
      invariant Searched(s, dir, name, i, found, ino, slot) && Emptied(s, dir, i, emptyslot)
    {
      var tsd := ReadSlot(vol, dir, i);
      SearchStep(s, dir, name, i, found, ino, slot, emptyslot);
      if tsd.ino == NOINO {
        emptyslot := i;
      } else if tsd.name == name {
        assert !found;
        found, slot, ino := true, i, tsd.ino;
      }
      i := i + 1;
    }
    SearchDone(s, dir, name, found, ino, slot, emptyslot);
  }

  /** What a search of the first `n` slots has found. */
  ghost predicate Searched(s: Fs, dir: nat, name: seq<nat>, n: nat, found: bool, ino: nat, slot: nat)
    requires Shape(s) && dir in s.inodes && ENTRYSIZE * n <= MAXSIZE
  {
    if found then slot < n && ino != NOINO && At(s, dir, slot) == Entry(ino, name)
    else forall j :: 0 <= j < n ==> At(s, dir, j).ino == NOINO || At(s, dir, j).name != name
  }

  /** `last` is the last free one of the first `n` slots. */
  ghost predicate Emptied(s: Fs, dir: nat, n: nat, last: int)
    requires Shape(s) && dir in s.inodes && ENTRYSIZE * n <= MAXSIZE
  {
    && -1 <= last < n && (last >= 0 ==> At(s, dir, last).ino == NOINO)
    && forall j :: 0 <= j < n && last < j ==> At(s, dir, j).ino != NOINO
  }

  lemma SearchStart(s: Fs, dir: nat, name: seq<nat>)
    requires DirOk(s, dir)
    ensures Searched(s, dir, name, 0, false, 0, 0) && Emptied(s, dir, 0, -1)
  {
  }

  /** The next slot: a name already found is not met again. */
  lemma SearchStep(s: Fs, dir: nat, name: seq<nat>, i: nat, found: bool, ino: nat, slot: nat, last: int)
    requires DirOk(s, dir) && i < Slots(s, dir) && Searched(s, dir, name, i, found, ino, slot)
    requires Emptied(s, dir, i, last)
    ensures ENTRYSIZE * (i + 1) <= MAXSIZE
    ensures var e := At(s, dir, i);
            if e.ino == NOINO then Searched(s, dir, name, i + 1, found, ino, slot) && Emptied(s, dir, i + 1, i)
            else
              && Emptied(s, dir, i + 1, last)
              && (if e.name == name then !found && Searched(s, dir, name, i + 1, true, e.ino, i)
                  else Searched(s, dir, name, i + 1, found, ino, slot))
  {
    hide Shape, At, Cur;
    if found { assert Distinct(At(s, dir, slot), At(s, dir, i)); }
  }

  lemma SearchDone(s: Fs, dir: nat, name: seq<nat>, found: bool, ino: nat, slot: nat, last: int)
    requires DirOk(s, dir) && ENTRYSIZE * Slots(s, dir) <= MAXSIZE
    requires Searched(s, dir, name, Slots(s, dir), found, ino, slot) && Emptied(s, dir, Slots(s, dir), last)
    ensures found <==> name in DirMap(s, dir)
    ensures found ==>
            ino == DirMap(s, dir)[name] && ino != NOINO && slot < Slots(s, dir) && At(s, dir, slot) == Entry(ino, name)
    ensures -1 <= last < Slots(s, dir) && (last >= 0 ==> At(s, dir, last).ino == NOINO)
    ensures forall i :: last < i < Slots(s, dir) && 0 <= i ==> At(s, dir, i).ino != NOINO
  {
    hide Shape, At, Cur, Names;
    NamesAre(s, dir, Slots(s, dir), name);
  }

  /** Store an entry in a slot, one past the last at most. */
  method WriteSlot(vol: Volume, dir: nat, slot: nat, e: Entry) returns (err: Error)
    requires vol.Valid() && dir in vol.vnodes && DirOk(vol.s, dir) && slot <= Slots(vol.s, dir)
    requires e.ino < WORD && IsName(e.name) && |e.name| < NAMELEN
    modifies vol, vol.freemap
    ensures vol.Valid() && dir in vol.vnodes && DirOk(old(vol.s), dir) && slot <= Slots(old(vol.s), dir)
    ensures err.Ok? ==> SlotSet(old(vol.s), vol.s, dir, slot, e,
            if slot < Slots(old(vol.s), dir) then Slots(old(vol.s), dir) else slot + 1)
    ensures err.Ok? ==> Wrote(old(vol.s), vol.s, dir, ENTRYSIZE * slot, Encoded(e))
    ensures !err.Ok? ==> DirOk(vol.s, dir) && DirMap(vol.s, dir) == DirMap(old(vol.s), dir)
    ensures err.TooBig? <==> ENTRYSIZE * (slot + 1) > MAXSIZE
    ensures err.NoSpace? ==> Full(vol) && (slot < Slots(old(vol.s), dir) ==> At(old(vol.s), dir, slot).ino == NOINO)
    ensures OnlyFile(old(vol.s), vol.s, dir)
  {
    hide FsInv, Shape, Cur, Slice, Names, Slots, Encoded, Decoded, Wrote, DirOk, SlotSet, Sized, AllBytes, DirMap,
         IsName, At, OnlyFile, MapOf;
    ghost var s := vol.s;
    SlotsBound(s, dir);
    DirSize(s, dir);
    if slot < Slots(s, dir) { HoleIsFree(s, dir, slot); }
    EntryRoundTrip(e);
    SlotInBlock(slot);
    err := MetaWrite(vol, dir, slot * ENTRYSIZE, Encoded(e));
    SizedIs(s, vol.s, dir, SizeAfter(Cur(s, dir).size, slot * ENTRYSIZE, if err.Ok? then ENTRYSIZE else 0, true));
    if err.Ok? {
      var n := if slot < Slots(s, dir) then Slots(s, dir) else slot + 1;
      NewSize(Slots(s, dir), slot, n);
      WroteDir(s, vol.s, dir, slot * ENTRYSIZE, Encoded(e));
      SlotWritten(s, vol.s, dir, slot, Encoded(e), n);
      WriteOnly(s, vol.s, dir, slot * ENTRYSIZE, Encoded(e), Cur(vol.s, dir).size);
    } else {
      WroteDir(s, vol.s, dir, slot * ENTRYSIZE, []);
      DirUnchanged(s, vol.s, dir, slot * ENTRYSIZE);
      WriteOnly(s, vol.s, dir, slot * ENTRYSIZE, [], Cur(vol.s, dir).size);
    }
    SlotFits(slot);
  }

  lemma SlotFits(slot: nat)
    ensures slot * ENTRYSIZE >= MAXSIZE <==> ENTRYSIZE * (slot + 1) > MAXSIZE
  {
  }

  /** A slot where nothing is mapped reads as zeros, and so is free. */
  lemma HoleIsFree(s: Fs, dir: nat, slot: nat)
    requires DirOk(s, dir) && slot < Slots(s, dir) && ENTRYSIZE * (slot + 1) <= MAXSIZE
    ensures slot * ENTRYSIZE / BLOCKSIZE < MAXBLOCKS
    ensures MapOf(s, dir, slot * ENTRYSIZE / BLOCKSIZE) == 0 ==> At(s, dir, slot).ino == NOINO
  {
    hide MapOf, Cur;
    var k := slot * ENTRYSIZE / BLOCKSIZE;
    if MapOf(s, dir, k) == 0 {
      var b := Slice(s, dir, ENTRYSIZE * slot, ENTRYSIZE);
      forall i | 0 <= i < 4 ensures b[i] == 0 { HoleByte(s, dir, slot, k, i); }
    }
  }

  lemma HoleByte(s: Fs, dir: nat, slot: nat, k: nat, i: nat)
    requires Shape(s) && dir in s.inodes && k == slot * ENTRYSIZE / BLOCKSIZE < MAXBLOCKS && MapOf(s, dir, k) == 0
    requires i < 4
    requires ENTRYSIZE * (slot + 1) <= MAXSIZE
    ensures Content(s, dir, ENTRYSIZE * slot + i) == 0
  {
    hide Shape, MapOf;
    SlotInBlock(slot);
    assert (ENTRYSIZE * slot + i) / BLOCKSIZE == k;
  }

  lemma WroteDir(s: Fs, s2: Fs, dir: nat, off: nat, data: seq<nat>)
    requires Wrote(s, s2, dir, off, data)
    ensures Shape(s) && Shape(s2) && dir in s.inodes && dir in s2.inodes
  {
  }

  lemma DirSize(s: Fs, dir: nat)
    requires DirOk(s, dir)
    ensures Shape(s) && dir in s.inodes && Cur(s, dir).size == ENTRYSIZE * Slots(s, dir) <= MAXSIZE
  {
    hide Shape, At;
  }

  lemma SizedIs(s: Fs, s2: Fs, dir: nat, size: nat)
    requires Shape(s) && Shape(s2) && Sized(s, s2, dir, size)
    ensures dir in s2.inodes && Cur(s2, dir).size == size
  {
  }

  lemma NewSize(slots: nat, slot: nat, n: nat)
    requires slot <= slots && n == (if slot < slots then slots else slot + 1) && slot * ENTRYSIZE < MAXSIZE
    ensures SizeAfter(ENTRYSIZE * slots, slot * ENTRYSIZE, ENTRYSIZE, true) == ENTRYSIZE * n
    ensures ENTRYSIZE * n <= if slot < slots then ENTRYSIZE * slots else MAXSIZE
  {
  }

  /** Bind a name: refused if it is bound or too long; otherwise exactly that binding is added. */
  method Link(vol: Volume, dir: nat, name: seq<nat>, ino: nat) returns (r: Outcome)
    requires vol.Valid() && dir in vol.vnodes && DirOk(vol.s, dir) && IsName(name) && NOINO < ino < WORD
    modifies vol, vol.freemap
    ensures vol.Valid() && DirOk(old(vol.s), dir) && DirOk(vol.s, dir)
    ensures r.Exists? <==> name in DirMap(old(vol.s), dir)
    ensures r.NameTooLong? <==> name !in DirMap(old(vol.s), dir) && |name| >= NAMELEN
    ensures r.Linked? ==> DirMap(vol.s, dir) == DirMap(old(vol.s), dir)[name := ino]
    ensures r.Linked? ==>
            |name| < NAMELEN && Wrote(old(vol.s), vol.s, dir, ENTRYSIZE * r.slot, Encoded(Entry(ino, name)))
    ensures r.Linked? ==> r.slot < Slots(vol.s, dir) && At(vol.s, dir, r.slot) == Entry(ino, name)
    ensures !r.Linked? ==> DirMap(vol.s, dir) == DirMap(old(vol.s), dir)
    ensures r.Linked? ==> SlotSet(old(vol.s), vol.s, dir, r.slot, Entry(ino, name), Slots(vol.s, dir))
    ensures r.Linked? ==> Slots(vol.s, dir) >= Slots(old(vol.s), dir)
    ensures r.Linked? && r.slot < Slots(old(vol.s), dir) ==> At(old(vol.s), dir, r.slot).ino == NOINO
    ensures r.Failed? ==> !r.err.Ok? && (r.err.NoSpace? ==> Full(vol))
    ensures r == Failed(TooBig) ==> ENTRYSIZE * (Slots(old(vol.s), dir) + 1) > MAXSIZE
    ensures r == Failed(TooBig) ==> ENTRYSIZE * |DirMap(old(vol.s), dir)| == MAXSIZE
    ensures OnlyFile(old(vol.s), vol.s, dir)
  {
    ghost var s := vol.s;
    OnlySelf(s, dir);
    SlotsBound(s, dir);
    hide OnlyFile, FsInv, Shape, Cur, At, Names, Slots, Encoded, Wrote, DirOk, DirMap, IsName, SlotSet;
    var found, ino0, slot0, emptyslot := FindName(vol, dir, name);
    if found {
      return Exists;
    }
    if |name| + 1 > NAMELEN {
      return NameTooLong;
    }
    if emptyslot < 0 {
      emptyslot := NumEntries(vol, dir);
    }
    var err := WriteSlot(vol, dir, emptyslot, Entry(ino, name));
    if !err.Ok? {
      if err.TooBig? { FullDirectory(s, dir, emptyslot); }
      return Failed(err);
    }
    LinkAdds(s, vol.s, dir, emptyslot, Entry(ino, name));
    SetAt(s, vol.s, dir, emptyslot, Entry(ino, name),
          if emptyslot < Slots(s, dir) then Slots(s, dir) else emptyslot + 1);
    r := Linked(emptyslot);
  }

  lemma OnlySelf(s: Fs, dir: nat)
    requires DirOk(s, dir)
    ensures OnlyFile(s, s, dir)
  {
    hide Content;
  }

  lemma BoundAt(s: Fs, dir: nat, slot: nat)
    requires DirOk(s, dir) && slot < Slots(s, dir) && ENTRYSIZE * (slot + 1) <= MAXSIZE && At(s, dir, slot).ino != NOINO
    ensures At(s, dir, slot).name in DirMap(s, dir)
  {
    hide Shape, At, Cur, Names;
    NamesAre(s, dir, Slots(s, dir), At(s, dir, slot).name);
  }

  lemma SetAt(s: Fs, s2: Fs, dir: nat, k: nat, e: Entry, n: nat)
    requires SlotSet(s, s2, dir, k, e, n)
    ensures Slots(s2, dir) == n && k < n && ENTRYSIZE * n <= MAXSIZE && At(s2, dir, k) == e
  {
    hide Shape, At;
  }

  /** Clearing a free slot changes no binding. */
  lemma ClearsNothing(s: Fs, s2: Fs, dir: nat, k: nat, e: Entry)
    requires DirOk(s, dir) && k < Slots(s, dir) && SlotSet(s, s2, dir, k, e, Slots(s, dir)) && e.ino == NOINO
    requires ENTRYSIZE * (k + 1) <= MAXSIZE && At(s, dir, k).ino == NOINO
    ensures DirOk(s2, dir) && DirMap(s2, dir) == DirMap(s, dir)
  {
    SlotsBound(s, dir);
    hide Shape, At, Cur;
    SetSlots(s, s2, dir, k, e, Slots(s, dir));
    NamesCleared(s, s2, dir, k, e, Slots(s, dir));
    forall i, j | 0 <= i < j < Slots(s, dir) ensures Distinct(At(s2, dir, i), At(s2, dir, j)) {
      assert Distinct(At(s, dir, i), At(s, dir, j));
    }
  }

  lemma {:induction false} NamesCleared(s: Fs, s2: Fs, dir: nat, k: nat, e: Entry, m: nat)
    requires DirOk(s, dir) && SlotSet(s, s2, dir, k, e, Slots(s, dir)) && m <= Slots(s, dir) && e.ino == NOINO
    requires At(s, dir, k).ino == NOINO
    ensures Names(s2, dir, m) == Names(s, dir, m)
  {
    hide Shape, At, Cur;
    if m > 0 { NamesCleared(s, s2, dir, k, e, m - 1); }
  }

  /** Clear a slot: exactly its binding goes, if it has one, and then the write cannot fail. */
  method Unlink(vol: Volume, dir: nat, slot: nat) returns (err: Error)
    requires vol.Valid() && dir in vol.vnodes && DirOk(vol.s, dir) && slot < Slots(vol.s, dir)
    modifies vol, vol.freemap
    ensures vol.Valid() && DirOk(old(vol.s), dir) && DirOk(vol.s, dir) && slot < Slots(old(vol.s), dir)
    ensures var e := At(old(vol.s), dir, slot);
            && (e.ino != NOINO ==> err.Ok? && e.name in DirMap(old(vol.s), dir))
            && DirMap(vol.s, dir) == if e.ino != NOINO then DirMap(old(vol.s), dir) - {e.name}
                 else DirMap(old(vol.s), dir)
    ensures err.Ok? ==> Wrote(old(vol.s), vol.s, dir, ENTRYSIZE * slot, Encoded(Entry(NOINO, [])))
    ensures err.Ok? ==> SlotSet(old(vol.s), vol.s, dir, slot, Entry(NOINO, []), Slots(old(vol.s), dir))
    ensures !err.TooBig? && (err.NoSpace? ==> Full(vol)) && OnlyFile(old(vol.s), vol.s, dir)
  {
    hide FsInv, Shape, Cur, At, Names, Slots, Encoded, Wrote, DirOk, DirMap, SlotSet, OnlyFile;
    ghost var s := vol.s;
    SlotsBound(s, dir);
    DirSize(s, dir);
    ghost var used := At(s, dir, slot).ino != NOINO;
    if used { BoundAt(s, dir, slot); }
    err := WriteSlot(vol, dir, slot, Entry(NOINO, []));
    if err.Ok? {
      if used {
        UnlinkRemoves(s, vol.s, dir, slot, Entry(NOINO, []));
      } else {
        ClearsNothing(s, vol.s, dir, slot, Entry(NOINO, []));
      }
    }
  }
}
