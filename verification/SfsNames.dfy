/** The volume's one directory and its files over whole runs: what creating, linking, removing, renaming, writing,
    truncating and reclaiming do to the map from names to files and to the link counts. */
module SfsNames {
  import opened SfsLayout
  import opened SfsState
  import opened SfsVolume
  import opened SfsFile
  import opened SfsDir
  import Chains
  import U = Uio

  type Name = seq<nat>

  /** What the names say: the root directory's map, and the link count of every other inode in use. */
  datatype Tree = Tree(names: map<Name, nat>, links: map<nat, nat>)

  ghost function Naming(t: Tree, i: nat): set<Name> { set n | n in t.names && t.names[n] == i }

  /** Every name is that of an inode in use, and every link count is the number of names. */
  ghost predicate Consistent(t: Tree)
  {
    && (forall n :: n in t.names ==> t.names[n] in t.links)
    && (forall i :: i in t.links ==> t.links[i] == |Naming(t, i)|)
  }

  // ---- Steps and runs ----

  datatype Op =
    | MakeFile(name: Name, ino: nat)    // a new file and its first name
    | MakeOrphan(ino: nat)              // a new file that could not be given its name
    | AddName(name: Name, ino: nat)
    | DropName(name: Name)
    | MoveName(from: Name, to: Name)
    | DropFile(ino: nat)                // a file without names is reclaimed
    | Nothing                           // names and counts stay: reading, writing, truncating, loading, errors

  predicate Enabled(t: Tree, op: Op)
  {
    match op
    case MakeFile(name, ino) => name !in t.names && ino !in t.links
    case MakeOrphan(ino) => ino !in t.links
    case AddName(name, ino) => name !in t.names && ino in t.links
    case DropName(name) => name in t.names && t.names[name] in t.links && t.links[t.names[name]] > 0
    case MoveName(from, to) => from in t.names && to !in t.names
    case DropFile(ino) => ino in t.links && t.links[ino] == 0
    case Nothing => true
  }

  function Next(t: Tree, op: Op): Tree
    requires Enabled(t, op)
  {
    match op
    case MakeFile(name, ino) => Tree(t.names[name := ino], t.links[ino := 1])
    case MakeOrphan(ino) => t.(links := t.links[ino := 0])
    case AddName(name, ino) => Tree(t.names[name := ino], t.links[ino := t.links[ino] + 1])
    case DropName(name) => Tree(t.names - {name}, t.links[t.names[name] := t.links[t.names[name]] - 1])
    case MoveName(from, to) => t.(names := t.names[to := t.names[from]] - {from})
    case DropFile(ino) => t.(links := t.links - {ino})
    case Nothing => t
  }

  /** A fresh name joins those of its file only. */
  lemma NamingAdd(t: Tree, t2: Tree, name: Name, ino: nat, i: nat)
    requires name !in t.names && t2.names == t.names[name := ino]
    ensures |Naming(t2, i)| == |Naming(t, i)| + if i == ino then 1 else 0
  {
    assert Naming(t2, i) == if i == ino then Naming(t, i) + {name} else Naming(t, i);
  }

  lemma NamingDrop(t: Tree, t2: Tree, name: Name, i: nat)
    requires name in t.names && t2.names == t.names - {name}
    ensures |Naming(t2, i)| == |Naming(t, i)| - if i == t.names[name] then 1 else 0
  {
    assert Naming(t2, i) == if i == t.names[name] then Naming(t, i) - {name} else Naming(t, i);
    assert i == t.names[name] ==> name in Naming(t, i);
  }

  /** A file without links has no name; one with a name has a link. */
  lemma NamedHasLinks(t: Tree, name: Name)
    requires Consistent(t) && name in t.names
    ensures t.names[name] in t.links && t.links[t.names[name]] > 0
  {
    assert name in Naming(t, t.names[name]);
  }

  lemma StepKeeps(t: Tree, op: Op)
    requires Consistent(t) && Enabled(t, op)
    ensures Consistent(Next(t, op))
  {
    var t2 := Next(t, op);
    hide Naming;
    match op
    case MakeFile(name, ino) =>
      NoName(t, ino);
      forall i | i in t2.links ensures t2.links[i] == |Naming(t2, i)| { NamingAdd(t, t2, name, ino, i); }
    case MakeOrphan(ino) =>
      NoName(t, ino);
      forall i ensures Naming(t2, i) == Naming(t, i) { SameNaming(t, t2, i); }
    case AddName(name, ino) =>
      forall i | i in t2.links ensures t2.links[i] == |Naming(t2, i)| { NamingAdd(t, t2, name, ino, i); }
    case DropName(name) =>
      forall i | i in t2.links ensures t2.links[i] == |Naming(t2, i)| { NamingDrop(t, t2, name, i); }
    case MoveName(from, to) =>
      var t1 := t.(names := t.names[to := t.names[from]]);
      forall i | i in t2.links ensures t2.links[i] == |Naming(t2, i)| {
        NamingAdd(t, t1, to, t.names[from], i);
        NamingDrop(t1, t2, from, i);
      }
    case DropFile(ino) =>
      forall n | n in t2.names ensures t2.names[n] in t2.links { NamedHasLinks(t, n); }
      forall i ensures Naming(t2, i) == Naming(t, i) { SameNaming(t, t2, i); }
    case Nothing =>
  }

  lemma NoName(t: Tree, ino: nat)
    requires Consistent(t) && ino !in t.links
    ensures Naming(t, ino) == {}
  {
  }

  lemma SameNaming(t: Tree, t2: Tree, i: nat)
    requires t2.names == t.names
    ensures Naming(t2, i) == Naming(t, i)
  {
  }

  ghost predicate Taken(run: seq<Tree>, ops: seq<Op>, k: nat)
    requires k < |ops| && |run| == |ops| + 1
  {
    Enabled(run[k], ops[k]) && run[k + 1] == Next(run[k], ops[k])
  }

  /** A run from a newly made volume. */
  ghost predicate Run(run: seq<Tree>, ops: seq<Op>)
  {
    |run| == |ops| + 1 && run[0] == Tree(map[], map[]) && forall k :: 0 <= k < |ops| ==> Taken(run, ops, k)
  }

  lemma {:induction false} RunInv(run: seq<Tree>, ops: seq<Op>, n: nat)
    requires Run(run, ops) && n < |run|
    ensures Consistent(run[n])
    decreases n
  {
    if n > 0 {
      RunInv(run, ops, n - 1);
      assert Taken(run, ops, n - 1);
      StepKeeps(run[n - 1], ops[n - 1]);
    }
  }

  /** In every run a name is that of a file in use with a positive link count, and a file that goes has no name. */
  lemma NamesLiveFiles(run: seq<Tree>, ops: seq<Op>, n: nat)
    requires Run(run, ops) && n < |run|
    ensures forall name :: name in run[n].names ==>
              run[n].names[name] in run[n].links && run[n].links[run[n].names[name]] > 0
    ensures n < |ops| && ops[n].DropFile? && Taken(run, ops, n) ==>
              forall name :: name in run[n].names ==> run[n].names[name] != ops[n].ino
  {
    RunInv(run, ops, n);
    forall name | name in run[n].names
      ensures run[n].names[name] in run[n].links && run[n].links[run[n].names[name]] > 0
    {
      NamedHasLinks(run[n], name);
    }
  }

  /** What an operation does to every name and to every link count. */
  ghost predicate Meant(t: Tree, op: Op, t2: Tree)
  {
    match op
    case MakeFile(name, ino) => NamesBut(t, t2, {name}) && Bound(t2, name, ino) && LinksBut(t, t2, ino) &&
        ino !in t.links && Counted(t2, ino, 1)
    case MakeOrphan(ino) => t2.names == t.names && LinksBut(t, t2, ino) && ino !in t.links && Counted(t2, ino, 0)
    case AddName(name, ino) => NamesBut(t, t2, {name}) && name !in t.names && Bound(t2, name, ino) &&
        LinksBut(t, t2, ino) && ino in t.links && Counted(t2, ino, t.links[ino] + 1)
    case DropName(name) => NamesBut(t, t2, {name}) && name in t.names && name !in t2.names &&
        LinksBut(t, t2, t.names[name]) && t.names[name] in t2.links &&
        Counted(t, t.names[name], t2.links[t.names[name]] + 1)
    case MoveName(from, to) => NamesBut(t, t2, {from, to}) && from in t.names && to !in t.names && from !in t2.names &&
        Bound(t2, to, t.names[from]) && t2.links == t.links
    case DropFile(ino) => t2.names == t.names && LinksBut(t, t2, ino) && ino in t.links && ino !in t2.links
    case Nothing => t2 == t
  }

  predicate Bound(t: Tree, name: Name, ino: nat) { name in t.names && t.names[name] == ino }

  predicate Counted(t: Tree, ino: nat, n: nat) { ino in t.links && t.links[ino] == n }

  /** Every name but those of `changed` is bound, or not, as before. */
  ghost predicate NamesBut(t: Tree, t2: Tree, changed: set<Name>)
  {
    forall n :: n !in changed ==> (n in t2.names <==> n in t.names) && (n in t.names ==> t2.names[n] == t.names[n])
  }

  ghost predicate LinksBut(t: Tree, t2: Tree, ino: nat)
  {
    forall i :: i != ino ==> (i in t2.links <==> i in t.links) && (i in t.links ==> t2.links[i] == t.links[i])
  }

  /** In every run each operation binds, unbinds and counts just what it says. */
  lemma OpsMean(run: seq<Tree>, ops: seq<Op>, k: nat)
    requires Run(run, ops) && k < |ops| && Taken(run, ops, k)
    ensures Meant(run[k], ops[k], run[k + 1])
  {
  }

  // ---- The volume as such a state ----

  /** The root is a directory in order, with a link of its own, and everything else is a file. */
  ghost predicate RootOk(s: Fs)
  {
    && DirOk(s, ROOTDIR_INO) && Cur(s, ROOTDIR_INO).kind == TYPE_DIR && Cur(s, ROOTDIR_INO).links > 0
    && forall i :: i in s.inodes && i != ROOTDIR_INO ==> Cur(s, i).kind == TYPE_FILE
  }

  ghost function Abs(s: Fs): Tree
    requires RootOk(s)
  {
    Tree(DirMap(s, ROOTDIR_INO), map i | i in s.inodes && i != ROOTDIR_INO :: Cur(s, i).links)
  }

  ghost predicate Good(vol: Volume)
    reads vol, vol.freemap
  {
    vol.Valid() && RootOk(vol.s) && Consistent(Abs(vol.s))
  }

  /** The volume went from `s` to what it is now by one step. */
  ghost predicate Steps(s: Fs, s2: Fs, op: Op)
  {
    RootOk(s) && RootOk(s2) && Enabled(Abs(s), op) && Abs(s2) == Next(Abs(s), op)
  }

  /** A newly made volume has no names and no files, and that is consistent. */
  lemma FormattedTree(image: seq<seq<nat>>)
    requires IsFormatted(image)
    ensures FsInv(Formatted(image)) && RootOk(Formatted(image)) && Abs(Formatted(image)) == Tree(map[], map[])
    ensures Consistent(Tree(map[], map[]))
  {
    FormattedInv(image);
    FormattedRootIsEmpty(image);
    hide FsInv, IsFormatted;
  }

  /** The directory's own file is the same and everything else is still a file: the names are the same. */
  lemma RootKeeps(s: Fs, s2: Fs)
    requires RootOk(s) && Shape(s) && Shape(s2) && ROOTDIR_INO in s.inodes && ROOTDIR_INO in s2.inodes
    requires SameFile(s, s2, ROOTDIR_INO)
    requires Cur(s2, ROOTDIR_INO).kind == Cur(s, ROOTDIR_INO).kind
    requires Cur(s2, ROOTDIR_INO).links == Cur(s, ROOTDIR_INO).links
    requires forall i :: i in s2.inodes && i != ROOTDIR_INO ==> Cur(s2, i).kind == TYPE_FILE
    ensures RootOk(s2) && DirMap(s2, ROOTDIR_INO) == DirMap(s, ROOTDIR_INO)
  {
    hide DirOk, DirMap, SameFile, Shape, Cur, Slots, At;
    DirFrame(s, s2, ROOTDIR_INO);
  }

  /** Nothing about names or counts changed: the directory's file, all types and all link counts are the same. */
  lemma Unchanged(s: Fs, s2: Fs)
    requires RootOk(s) && Shape(s2) && s2.inodes == s.inodes && SameFile(s, s2, ROOTDIR_INO)
    requires forall i :: i in s.inodes ==> Cur(s2, i).kind == Cur(s, i).kind && Cur(s2, i).links == Cur(s, i).links
    ensures Steps(s, s2, Nothing)
  {
    hide DirOk, DirMap, SameFile, Shape, Cur, Slots, At;
    RootThere(s);
    RootKeeps(s, s2);
    SameCounts(s, s2);
  }

  lemma SameCounts(s: Fs, s2: Fs)
    requires RootOk(s) && RootOk(s2) && s2.inodes == s.inodes && DirMap(s2, ROOTDIR_INO) == DirMap(s, ROOTDIR_INO)
    requires forall i :: i in s.inodes ==> Cur(s2, i).links == Cur(s, i).links
    ensures Abs(s2) == Abs(s)
  {
    hide DirOk, DirMap, Shape, Cur;
    assert Abs(s2).links == Abs(s).links;
  }

  /** Whatever is done to one file other than the root leaves names and counts alone. */
  lemma FileOp(s: Fs, s2: Fs, ino: nat)
    requires RootOk(s) && OnlyFile(s, s2, ino) && ino != ROOTDIR_INO
    ensures Steps(s, s2, Nothing)
  {
    hide DirOk, SameFile, Shape, Cur;
    RootThere(s);
    Unchanged(s, s2);
  }

  lemma RootThere(s: Fs)
    requires RootOk(s)
    ensures Shape(s) && ROOTDIR_INO in s.inodes
  {
    hide Shape, Cur;
  }

  /** Nor does anything that leaves all files alone. */
  lemma QuietOp(s: Fs, s2: Fs)
    requires RootOk(s) && Shape(s) && Shape(s2) && s2.inodes == s.inodes && SameData(s, s2) && SameMeta(s, s2)
    ensures Steps(s, s2, Nothing)
  {
    RootThere(s);
    hide DirOk, Shape, Cur, Data, SameFile;
    FileSame(s, s2, ROOTDIR_INO);
    Unchanged(s, s2);
  }

  lemma StaysGood(s: Fs, s2: Fs, op: Op)
    requires Steps(s, s2, op) && Consistent(Abs(s))
    ensures Consistent(Abs(s2))
  {
    hide RootOk, Abs, Consistent, Next, Enabled;
    StepKeeps(Abs(s), op);
  }

  // ---- The operations ----

  /** Read or write a file. */
  method FileIo(vol: Volume, ino: nat, u: U.Request) returns (err: Error, ghost bytes: seq<nat>)
    requires Good(vol) && ino in vol.vnodes && ino != ROOTDIR_INO
    requires u.Valid() && (u.writing ==> AllBytes(u.Memory())) && Low(vol.s, ino, u.offset, u.resid, u.writing)
    modifies vol, vol.freemap, u
    ensures Good(vol) && Steps(old(vol.s), vol.s, Nothing) && OnlyFile(old(vol.s), vol.s, ino)
    ensures Moved(u, old(u.Memory()), old(u.Done()), old(u.offset), old(u.resid), bytes)
    ensures Did(old(vol.s), vol.s, ino, old(u.offset), bytes, u.writing)
    ensures Shape(old(vol.s)) && Shape(vol.s) && ino in old(vol.s).inodes && ino in vol.s.inodes
    ensures Lengthened(Cur(old(vol.s), ino).size, Cur(vol.s, ino).size, old(u.offset), |bytes|, u.writing)
    ensures err.Ok? && u.writing ==> |bytes| == old(u.resid)
    ensures !u.writing ==> UpToEnd(Cur(old(vol.s), ino).size, old(u.offset), old(u.resid), |bytes|, err.Ok?)
    ensures err.TooBig? ==> PastEnd(old(u.offset), |bytes|)
    ensures err.NoSpace? ==> u.writing && Full(vol) && Unmapped(old(vol.s), ino, old(u.offset) + |bytes|)
  {
    hide FsInv, Shape, RootOk, Abs, Consistent, Did, Sized, Cur, OnlyFile, Low, AllBytes, U.Flat, U.Splice, Held, Steps,
         Lengthened, UpToEnd, PastEnd, Unmapped;
    ghost var s, off := vol.s, u.offset;
    err, bytes := Io(vol, ino, u);
    IoOnly(s, vol.s, ino, off, bytes, u.writing, SizeAfter(Cur(s, ino).size, off, |bytes|, u.writing));
    FileOp(s, vol.s, ino);
    After(s, vol.s, Nothing);
  }

  lemma After(s: Fs, s2: Fs, op: Op)
    requires Steps(s, s2, op) && Consistent(Abs(s))
    ensures RootOk(s2) && Consistent(Abs(s2))
  {
    hide RootOk, Abs, Consistent, Next, Enabled;
    StaysGood(s, s2, op);
  }

  /** Set a file's length. */
  method Truncate(vol: Volume, ino: nat, len: nat)
    requires Good(vol) && ino in vol.vnodes && ino != ROOTDIR_INO
    modifies vol, vol.freemap
    ensures Good(vol) && Steps(old(vol.s), vol.s, Nothing) && OnlyFile(old(vol.s), vol.s, ino)
    ensures Truncated(old(vol.s), vol.s, ino, BlockLength(len), len % WORD)
    ensures CutTo(old(vol.s), vol.s, ino, if len % OFFSETS <= OFFSETS - BLOCKSIZE then len % OFFSETS else 0)
  {
    hide FsInv, RootOk, Abs, Consistent, Truncated, CutTo, OnlyFile, Steps;
    ghost var s := vol.s;
    vol.Itrunc(ino, len);
    TruncOnly(s, vol.s, ino, BlockLength(len), len % WORD);
    FileOp(s, vol.s, ino);
    After(s, vol.s, Nothing);
  }

  /** Write a loaded inode back. */
  method Fsync(vol: Volume, ino: nat)
    requires Good(vol) && ino in vol.vnodes
    modifies vol, vol.freemap
    ensures Good(vol) && Steps(old(vol.s), vol.s, Nothing) && vol.vnodes.Keys == old(vol.vnodes).Keys
  {
    hide FsInv, RootOk, Abs, Consistent, Steps, Shape, SameData, SameMeta, Decode, IsBlock, MapOf;
    ghost var s := vol.s;
    RootThere(s);
    vol.SyncInode(ino);
    InvShape(vol.s);
    QuietOp(s, vol.s);
    After(s, vol.s, Nothing);
  }

  lemma InvShape(s: Fs)
    requires FsInv(s)
    ensures Shape(s)
  {
    hide Owned;
  }

  /** Make sure a named file's inode is loaded: it is in use and of a known type, so nothing stops the system. */
  method Load(vol: Volume, ino: nat)
    requires Good(vol) && ino in vol.s.inodes
    modifies vol, vol.freemap
    ensures Good(vol) && Steps(old(vol.s), vol.s, Nothing) && vol.vnodes.Keys == old(vol.vnodes).Keys + {ino}
    ensures vol.s.inodes == old(vol.s).inodes && Shape(old(vol.s)) && Shape(vol.s)
    ensures SameData(old(vol.s), vol.s) && SameMeta(old(vol.s), vol.s)
  {
    hide FsInv, RootOk, Abs, Consistent, Steps, Shape, SameData, SameMeta, Cur;
    ghost var s := vol.s;
    RootThere(s);
    KnownKind(s, ino);
    Same(s);
    if ino !in vol.vnodes {
      var ok := vol.LoadInode(ino);
      assert ok;
    }
    QuietOp(s, vol.s);
    After(s, vol.s, Nothing);
  }

  lemma KnownKind(s: Fs, i: nat)
    requires RootOk(s) && i in s.inodes
    ensures Cur(s, i).kind in {TYPE_FILE, TYPE_DIR}
  {
    hide DirOk, Cur;
  }

  lemma Same(s: Fs)
    requires Shape(s)
    ensures SameData(s, s) && SameMeta(s, s)
  {
  }

  /** Let go of a loaded inode: a file without names goes altogether, anything else stays as it is. */
  method Reclaim(vol: Volume, ino: nat) returns (ghost op: Op)
    requires Good(vol) && ino in vol.vnodes
    modifies vol, vol.freemap
    ensures Good(vol) && Steps(old(vol.s), vol.s, op) && vol.vnodes == old(vol.vnodes) - {ino}
    ensures op == if old(vol.vnodes)[ino].inode.links == 0 then DropFile(ino) else Nothing
  {
    ghost var s := vol.s;
    LoadedOk(s, ino);
    hide FsInv, RootOk, Abs, Consistent, Steps, Shape, SameMeta, Cur, SameBlock;
    var gone := vol.vnodes[ino].inode.links == 0;
    vol.Reclaim(ino);
    RootThere(s);
    if gone {
      op := DropFile(ino);
      Dropped(s, vol.s, ino);
    } else {
      op := Nothing;
      KeptWhole(s, vol.s);
    }
    After(s, vol.s, op);
  }

  lemma KeptWhole(s: Fs, s2: Fs)
    requires RootOk(s) && Shape(s) && Shape(s2) && s2.inodes == s.inodes && SameMeta(s, s2)
    requires forall i, k :: i in s2.inodes && 0 <= k < MAXBLOCKS ==> SameBlock(s, s2, i, k)
    ensures Steps(s, s2, Nothing)
  {
    hide RootOk, Shape, Cur, Data, MapOf, Steps, SameMeta;
    forall i, k | i in s.inodes && i in s2.inodes && 0 <= k < MAXBLOCKS ensures Data(s2, i, k) == Data(s, i, k) {
      assert SameBlock(s, s2, i, k);
    }
    QuietOp(s, s2);
  }

  lemma Dropped(s: Fs, s2: Fs, ino: nat)
    requires RootOk(s) && Shape(s) && Shape(s2) && s2.inodes == s.inodes - {ino} && SameMeta(s, s2)
    requires forall i, k :: i in s2.inodes && 0 <= k < MAXBLOCKS ==> SameBlock(s, s2, i, k)
    requires ino in s.inodes && Cur(s, ino).links == 0
    ensures Steps(s, s2, DropFile(ino))
  {
    hide Shape, Cur, Data, MapOf, SameFile, DirOk, DirMap, RootOk, Abs;
    RootFacts(s);
    LinksOf(s, ino);
    forall k | 0 <= k < MAXBLOCKS ensures Data(s2, ROOTDIR_INO, k) == Data(s, ROOTDIR_INO, k) {
      assert SameBlock(s, s2, ROOTDIR_INO, k);
    }
    FileSame(s, s2, ROOTDIR_INO);
    RootKeeps(s, s2);
    CountsBut(s, s2, ino);
    AbsNames(s);
    AbsNames(s2);
    assert Abs(s2) == Abs(s).(links := Abs(s).links - {ino});
  }

  lemma AbsNames(s: Fs)
    requires RootOk(s)
    ensures Abs(s).names == DirMap(s, ROOTDIR_INO)
  {
    hide DirOk, DirMap, Shape, Cur;
  }

  lemma RootFacts(s: Fs)
    requires RootOk(s)
    ensures Shape(s) && ROOTDIR_INO in s.inodes && Cur(s, ROOTDIR_INO).links > 0 && Cur(s, ROOTDIR_INO).kind == TYPE_DIR
    ensures forall i :: i in s.inodes && i != ROOTDIR_INO ==> Cur(s, i).kind == TYPE_FILE
  {
    hide Shape, Cur;
  }

  lemma LinksOf(s: Fs, i: nat)
    requires RootOk(s)
    ensures i in Abs(s).links <==> i in s.inodes && i != ROOTDIR_INO
    ensures i in Abs(s).links ==> Abs(s).links[i] == Cur(s, i).links
  {
    hide DirOk, DirMap, Cur;
  }

  lemma CountsBut(s: Fs, s2: Fs, ino: nat)
    requires RootOk(s) && RootOk(s2) && Shape(s) && Shape(s2) && SameMeta(s, s2) && s2.inodes == s.inodes - {ino}
    ensures Abs(s2).links == Abs(s).links - {ino}
  {
    hide DirOk, DirMap, Shape, Cur;
  }

  /** A new file, not yet named. */
  lemma MadeFile(s: Fs, s2: Fs, ino: nat)
    requires RootOk(s) && Shape(s) && Shape(s2) && ino !in s.inodes && s2.inodes == s.inodes + {ino}
    requires SameData(s, s2) && SameMeta(s, s2) && Cur(s2, ino).kind == TYPE_FILE && Cur(s2, ino).links == 0
    ensures Steps(s, s2, MakeOrphan(ino))
  {
    hide Shape, Cur, Data, SameFile, DirOk, DirMap, RootOk, Abs;
    RootFacts(s);
    LinksOf(s, ino);
    FileSame(s, s2, ROOTDIR_INO);
    RootKeeps(s, s2);
    CountsMore(s, s2, ino);
    AbsNames(s);
    AbsNames(s2);
    assert Abs(s2) == Abs(s).(links := Abs(s).links[ino := 0]);
  }

  lemma CountsMore(s: Fs, s2: Fs, ino: nat)
    requires RootOk(s) && RootOk(s2) && Shape(s) && Shape(s2) && SameMeta(s, s2) && ino != ROOTDIR_INO
    requires ino !in s.inodes && s2.inodes == s.inodes + {ino} && Cur(s2, ino).links == 0
    ensures Abs(s2).links == Abs(s).links[ino := 0]
  {
    hide DirOk, DirMap, Shape, Cur;
  }

  /** Writing the directory changes no link count. */
  lemma DirWritten(s: Fs, s2: Fs)
    requires RootOk(s) && OnlyFile(s, s2, ROOTDIR_INO) && DirOk(s2, ROOTDIR_INO)
    ensures RootOk(s2) && Abs(s2) == Tree(DirMap(s2, ROOTDIR_INO), Abs(s).links)
  {
    hide DirOk, DirMap, Shape, Cur, SameFile;
    RootFacts(s);
  }

  /** A loaded file's link count is set. */
  method SetLinks(vol: Volume, ino: nat, n: nat)
    requires vol.Valid() && RootOk(vol.s) && ino in vol.vnodes && ino != ROOTDIR_INO && n < HALF
    modifies vol`vnodes, vol`s
    ensures vol.Valid() && RootOk(vol.s) && vol.vnodes.Keys == old(vol.vnodes).Keys && vol.s.inodes == old(vol.s).inodes
    ensures Abs(vol.s) == Abs(old(vol.s)).(links := Abs(old(vol.s)).links[ino := n])
    ensures Shape(old(vol.s)) && Shape(vol.s) && DirOk(old(vol.s), ROOTDIR_INO) && ROOTDIR_INO in vol.s.inodes
    ensures SameFile(old(vol.s), vol.s, ROOTDIR_INO)
  {
    hide FsInv, RootOk, Abs, InodeOk, DirOk, SameFile, Shape;
    LoadedOk(vol.s, ino);
    ghost var s := vol.s;
    var n2 := vol.vnodes[ino].inode.(links := n);
    LinksSet(s, s.(vnodes := s.vnodes[ino := Vnode(n2, true)]), ino, n);
    vol.vnodes := vol.vnodes[ino := Vnode(n2, true)];
    vol.s := s.(vnodes := s.vnodes[ino := Vnode(n2, true)]);
  }

  lemma LinksSet(s: Fs, s2: Fs, ino: nat, n: nat)
    requires FsInv(s) && RootOk(s) && ino in s.vnodes && ino != ROOTDIR_INO && n < HALF
    requires s2 == s.(vnodes := s.vnodes[ino := Vnode(s.vnodes[ino].inode.(links := n), true)])
    ensures FsInv(s2) && RootOk(s2) && Abs(s2) == Abs(s).(links := Abs(s).links[ino := n])
    ensures Shape(s) && Shape(s2) && DirOk(s, ROOTDIR_INO) && ROOTDIR_INO in s2.inodes && SameFile(s, s2, ROOTDIR_INO)
  {
    hide Owned, RootOk, Abs, DirOk, DirMap, Data, MapOf, SameFile;
    LoadedOk(s, ino);
    RootFacts(s);
    SetMetaKeeps(s, s2, ino, s.vnodes[ino].inode.(links := n));
    assert forall i :: i in s.inodes && i != ino ==> Cur(s2, i) == Cur(s, i);
    assert Cur(s2, ino) == Cur(s, ino).(links := n);
    hide Shape, Cur;
    OthersRead(s, s2, ROOTDIR_INO);
    RootKeeps(s, s2);
    CountSet(s, s2, ino, n);
    AbsNames(s);
    AbsNames(s2);
    RootDir(s);
  }

  lemma RootDir(s: Fs)
    requires RootOk(s)
    ensures DirOk(s, ROOTDIR_INO)
  {
    hide DirOk, Cur;
  }

  lemma OthersRead(s: Fs, s2: Fs, i: nat)
    requires Shape(s) && Shape(s2) && i in s.inodes && i in s2.inodes && Cur(s2, i) == Cur(s, i) && SameData(s, s2)
    ensures SameFile(s, s2, i)
  {
    hide Shape, Cur, Data;
  }

  lemma CountSet(s: Fs, s2: Fs, ino: nat, n: nat)
    requires RootOk(s) && RootOk(s2) && Shape(s) && Shape(s2) && s2.inodes == s.inodes && ino in s.inodes
    requires ino != ROOTDIR_INO
    requires Cur(s2, ino).links == n && forall i :: i in s.inodes && i != ino ==> Cur(s2, i).links == Cur(s, i).links
    ensures Abs(s2).links == Abs(s).links[ino := n]
  {
    hide DirOk, DirMap, Shape, Cur;
  }

  // Link counts never outgrow their 16 bits: there are fewer slots than that.

  lemma {:induction false} NamesFit(s: Fs, dir: nat, n: nat)
    requires Shape(s) && dir in s.inodes && ENTRYSIZE * n <= MAXSIZE
    ensures |Names(s, dir, n)| <= n
  {
    hide Shape, At;
    if n > 0 {
      NamesFit(s, dir, n - 1);
      var e := At(s, dir, n - 1);
      Grown(Names(s, dir, n - 1), e.name, e.ino);
    }
  }

  lemma Grown(m: map<Name, nat>, name: Name, ino: nat)
    ensures |m[name := ino]| <= |m| + 1
  {
    assert m[name := ino].Keys == m.Keys + {name};
  }

  lemma LinksFit(s: Fs, i: nat)
    requires RootOk(s) && Consistent(Abs(s)) && i in Abs(s).links
    ensures Abs(s).links[i] + 1 < HALF
  {
    hide Shape, Cur, DirOk, DirMap, RootOk, Abs, Names;
    RootDir(s);
    AbsNames(s);
    DirMapFits(s);
    NamingFits(Abs(s), i);
  }

  lemma DirMapFits(s: Fs)
    requires DirOk(s, ROOTDIR_INO)
    ensures |DirMap(s, ROOTDIR_INO)| * ENTRYSIZE <= MAXSIZE
  {
    hide Shape, At, Names;
    DirSize(s, ROOTDIR_INO);
    NamesFit(s, ROOTDIR_INO, Slots(s, ROOTDIR_INO));
  }

  lemma NamingFits(t: Tree, i: nat)
    ensures |Naming(t, i)| <= |t.names|
  {
    assert Naming(t, i) <= t.names.Keys;
    Chains.SubsetSize(Naming(t, i), t.names.Keys);
  }

  /** Why a name could not be bound: it is already, or it is too long, or there is no block for the directory to grow
      by, or the directory is as large as a file can be and full of names. */
  predicate Refusal(names: map<Name, nat>, name: Name, why: Outcome, full: bool)
  {
    && !why.Linked? && (why.Exists? <==> name in names)
    && (why.NameTooLong? <==> name !in names && |name| >= NAMELEN)
    && (why.Failed? ==> (why.err.NoSpace? && full) || (why.err.TooBig? && ENTRYSIZE * |names| == MAXSIZE))
  }

  datatype Created = Opened(ino: nat) | Made(ino: nat) | NameTaken | Unnamed(ino: nat, why: Outcome) | NoFile

  /** Create a file, or open it if it exists and may. */
  method Create(vol: Volume, name: Name, excl: bool) returns (r: Created, ghost op: Op)
    requires Good(vol) && ROOTDIR_INO in vol.vnodes && IsName(name)
    modifies vol, vol.freemap
    ensures Good(vol) && ROOTDIR_INO in vol.vnodes && Steps(old(vol.s), vol.s, op)
    ensures r.NameTaken? <==> excl && name in Abs(old(vol.s)).names
    ensures r.Opened? <==> !excl && name in Abs(old(vol.s)).names
    ensures r.Opened? ==> r.ino == Abs(old(vol.s)).names[name]
    ensures r.Opened? || r.Made? || r.Unnamed? ==> r.ino in vol.vnodes
    ensures op == match r
                  case Made(ino) => MakeFile(name, ino)
                  case Unnamed(ino, _) => MakeOrphan(ino)
                  case _ => Nothing
    ensures r.NoFile? ==> Full(vol)
    ensures r.Unnamed? ==> Refusal(Abs(old(vol.s)).names, name, r.why, Full(vol))
  {
    hide FsInv, RootOk, Abs, Consistent, Steps, Shape, SameData, SameMeta, Cur, DirOk, DirMap, At, Slots, Names,
         IsName, SlotSet, OnlyFile, Data, Zeros, Wrote, Encoded, SameFile, Next, Enabled;
    ghost var s := vol.s;
    RootDir(s);
    AbsNames(s);
    var found, ino, slot, emptyslot := FindName(vol, ROOTDIR_INO, name);
    NoOp(s);
    if found && excl {
      return NameTaken, Nothing;
    }
    if found {
      NamedInUse(s, name);
      Load(vol, ino);
      return Opened(ino), Nothing;
    }
    var err;
    err, ino := vol.Makeobj(TYPE_FILE);
    if !err.Ok? {
      return NoFile, Nothing;
    }
    ghost var s1 := vol.s;
    RootFacts(s);
    InvShape(s1);
    LoadedOk(s1, ino);
    MadeFile(s, s1, ino);
    After(s, s1, MakeOrphan(ino));
    OrphanIs(s, s1, ino);
    RootDir(s1);
    AbsNames(s1);
    var linked := Link(vol, ROOTDIR_INO, name, ino);
    ghost var s2 := vol.s;
    DirWritten(s1, s2);
    StillLoaded(s1, s2);
    if !linked.Linked? {
      SameStep(s, s1, s2, MakeOrphan(ino));
      After(s, s2, MakeOrphan(ino));
      return Unnamed(ino, linked), MakeOrphan(ino);
    }
    SetLinks(vol, ino, 1);
    op := MakeFile(name, ino);
    MadeAndNamed(s, s1, s2, vol.s, name, ino);
    After(s, vol.s, op);
    r := Made(ino);
  }

  lemma NoOp(s: Fs)
    requires RootOk(s)
    ensures Steps(s, s, Nothing)
  {
    hide RootOk, Abs;
  }

  /** A bound name is that of an inode in use. */
  lemma NamedInUse(s: Fs, name: Name)
    requires RootOk(s) && Consistent(Abs(s)) && name in Abs(s).names
    ensures Abs(s).names[name] in s.inodes && Abs(s).names[name] != ROOTDIR_INO
    ensures Abs(s).names[name] in Abs(s).links && Abs(s).links[Abs(s).names[name]] > 0
  {
    hide RootOk, Abs, Naming;
    NamedHasLinks(Abs(s), name);
    LinksOf(s, Abs(s).names[name]);
  }

  lemma OrphanIs(s: Fs, s1: Fs, ino: nat)
    requires Steps(s, s1, MakeOrphan(ino))
    ensures RootOk(s) && RootOk(s1) && ino !in Abs(s).links && Abs(s1) == Abs(s).(links := Abs(s).links[ino := 0])
    ensures ino != ROOTDIR_INO
  {
    hide RootOk, Abs;
    LinksOf(s1, ino);
  }

  lemma StillLoaded(s: Fs, s2: Fs)
    requires OnlyFile(s, s2, ROOTDIR_INO)
    ensures s2.vnodes.Keys == s.vnodes.Keys && s2.inodes == s.inodes
  {
  }

  lemma SameStep(s: Fs, s1: Fs, s2: Fs, op: Op)
    requires Steps(s, s1, op) && RootOk(s2) && Abs(s2) == Abs(s1)
    ensures Steps(s, s2, op)
  {
    hide RootOk, Abs, Enabled, Next;
  }

  lemma MadeAndNamed(s: Fs, s1: Fs, s2: Fs, s3: Fs, name: Name, ino: nat)
    requires RootOk(s) && RootOk(s1) && RootOk(s2) && RootOk(s3) && name !in Abs(s).names && ino !in Abs(s).links
    requires Abs(s1) == Abs(s).(links := Abs(s).links[ino := 0])
    requires Abs(s2) == Tree(Abs(s1).names[name := ino], Abs(s1).links)
    requires Abs(s3) == Abs(s2).(links := Abs(s2).links[ino := 1])
    ensures Steps(s, s3, MakeFile(name, ino))
  {
    hide RootOk, Abs;
  }

  /** Look a name up and load its file. The file found is in use and has a link, so nothing stops the system. */
  method LookOnce(vol: Volume, name: Name) returns (found: bool, ino: nat, slot: nat)
    requires Good(vol) && ROOTDIR_INO in vol.vnodes
    modifies vol, vol.freemap
    ensures Good(vol) && RootOk(old(vol.s)) && Abs(vol.s) == Abs(old(vol.s)) && vol.s.inodes == old(vol.s).inodes
    ensures old(vol.vnodes).Keys <= vol.vnodes.Keys
    ensures found <==> name in Abs(vol.s).names
    ensures found ==>
            ino == Abs(vol.s).names[name] && ino in vol.vnodes && ino != ROOTDIR_INO && ino in Abs(vol.s).links
    ensures found ==> 0 < vol.vnodes[ino].inode.links == Abs(vol.s).links[ino]
    ensures found ==> DirOk(vol.s, ROOTDIR_INO) && slot < Slots(vol.s, ROOTDIR_INO)
                      && ENTRYSIZE * (slot + 1) <= MAXSIZE && At(vol.s, ROOTDIR_INO, slot) == Entry(ino, name)
  {
    hide FsInv, RootOk, Abs, Consistent, Steps, Shape, SameData, SameMeta, Cur, DirOk, DirMap, At, Slots, Names,
         SameFile;
    ghost var s := vol.s;
    RootDir(s);
    AbsNames(s);
    var emptyslot;
    found, ino, slot, emptyslot := FindName(vol, ROOTDIR_INO, name);
    if found {
      NamedInUse(s, name);
      DirSize(s, ROOTDIR_INO);
      Load(vol, ino);
      SameTree(s, vol.s);
      RootFacts(s);
      LoadedLinks(vol.s, ino);
      ReadsSame(s, vol.s, ROOTDIR_INO);
      DirFrame(s, vol.s, ROOTDIR_INO);
    }
  }

  lemma ReadsSame(s: Fs, s2: Fs, i: nat)
    requires Shape(s) && Shape(s2) && i in s.inodes && i in s2.inodes && SameMeta(s, s2) && SameData(s, s2)
    ensures SameFile(s, s2, i)
  {
    hide Shape, Cur, Data, SameFile;
    FileSame(s, s2, i);
  }

  lemma SameTree(s: Fs, s2: Fs)
    requires Steps(s, s2, Nothing)
    ensures RootOk(s) && RootOk(s2) && Abs(s2) == Abs(s)
  {
    hide RootOk, Abs;
  }

  lemma LoadedLinks(s: Fs, ino: nat)
    requires FsInv(s) && RootOk(s) && ino in s.vnodes && ino != ROOTDIR_INO
    ensures ino in s.inodes && ino in Abs(s).links && Abs(s).links[ino] == s.vnodes[ino].inode.links
  {
    hide Owned, RootOk, Abs;
    LoadedOk(s, ino);
    LinksOf(s, ino);
  }

  datatype LinkResult = Done | NotAllowed | Refused(why: Outcome)

  /** Give a file another name. */
  method LinkFile(vol: Volume, name: Name, ino: nat) returns (r: LinkResult, ghost op: Op)
    requires Good(vol) && ROOTDIR_INO in vol.vnodes && ino in vol.vnodes && IsName(name)
    modifies vol, vol.freemap
    ensures Good(vol) && vol.vnodes.Keys == old(vol.vnodes).Keys && Steps(old(vol.s), vol.s, op)
    ensures r.NotAllowed? <==> ino == ROOTDIR_INO
    ensures op == if r.Done? then AddName(name, ino) else Nothing
    ensures r.Refused? ==> Refusal(Abs(old(vol.s)).names, name, r.why, Full(vol))
  {
    hide FsInv, RootOk, Abs, Consistent, Steps, Shape, Cur, DirOk, DirMap, At, Slots, Names, IsName, SlotSet, OnlyFile,
         Wrote, Encoded, SameFile;
    ghost var s := vol.s;
    RootDir(s);
    AbsNames(s);
    NoOp(s);
    KindTells(s, ino);
    if vol.vnodes[ino].inode.kind == TYPE_DIR {
      return NotAllowed, Nothing;
    }
    LoadedLinks(s, ino);
    LinksFit(s, ino);
    InodeNumber(s, ino);
    var linked := Link(vol, ROOTDIR_INO, name, ino);
    ghost var s1 := vol.s;
    DirWritten(s, s1);
    StillLoaded(s, s1);
    if !linked.Linked? {
      SameStep(s, s, s1, Nothing);
      After(s, s1, Nothing);
      return Refused(linked), Nothing;
    }
    LoadedLinks(s1, ino);
    SetLinks(vol, ino, vol.vnodes[ino].inode.links + 1);
    op := AddName(name, ino);
    Added(s, s1, vol.s, name, ino);
    After(s, vol.s, op);
    r := Done;
  }

  lemma KindTells(s: Fs, ino: nat)
    requires FsInv(s) && RootOk(s) && ino in s.vnodes
    ensures s.vnodes[ino].inode.kind == TYPE_DIR <==> ino == ROOTDIR_INO
  {
    hide Owned, RootOk;
    LoadedOk(s, ino);
    RootFacts(s);
  }

  lemma InodeNumber(s: Fs, ino: nat)
    requires FsInv(s) && ino in s.vnodes
    ensures NOINO < ino < WORD
  {
    LoadedOk(s, ino);
    OneOwnerEach(s, Super, InodeBlock(ino));
  }

  lemma Added(s: Fs, s1: Fs, s2: Fs, name: Name, ino: nat)
    requires RootOk(s) && RootOk(s1) && RootOk(s2) && name !in Abs(s).names && ino in Abs(s).links
    requires Abs(s1) == Tree(Abs(s).names[name := ino], Abs(s).links)
    requires Abs(s2) == Abs(s1).(links := Abs(s1).links[ino := Abs(s).links[ino] + 1])
    ensures Steps(s, s2, AddName(name, ino))
  {
    hide RootOk, Abs;
  }

  /** Remove a name. Erasing its entry cannot fail, and its file has a link to lose. */
  method Remove(vol: Volume, name: Name) returns (found: bool, ghost op: Op)
    requires Good(vol) && ROOTDIR_INO in vol.vnodes
    modifies vol, vol.freemap
    ensures Good(vol) && old(vol.vnodes).Keys <= vol.vnodes.Keys && Steps(old(vol.s), vol.s, op)
    ensures found <==> name in Abs(old(vol.s)).names
    ensures op == if found then DropName(name) else Nothing
  {
    hide FsInv, RootOk, Abs, Consistent, Steps, Shape, Cur, DirOk, DirMap, At, Slots, Names, SlotSet, OnlyFile, Wrote,
         Encoded, SameFile;
    ghost var s0 := vol.s;
    var ino, slot;
    found, ino, slot := LookOnce(vol, name);
    ghost var s := vol.s;
    op := Nothing;
    if !found {
      NoOp(s0);
      SameStep(s0, s0, s, Nothing);
      return;
    }
    AbsNames(s);
    InodeNumber(s, ino);
    var err := Unlink(vol, ROOTDIR_INO, slot);
    assert err.Ok?;
    ghost var s1 := vol.s;
    DirWritten(s, s1);
    StillLoaded(s, s1);
    LoadedLinks(s1, ino);
    LinksFit(s, ino);
    assert vol.vnodes[ino].inode.links > 0;
    SetLinks(vol, ino, vol.vnodes[ino].inode.links - 1);
    op := DropName(name);
    Removed(s0, s1, vol.s, name);
    After(s0, vol.s, op);
  }

  lemma Removed(s: Fs, s1: Fs, s2: Fs, name: Name)
    requires RootOk(s) && RootOk(s1) && RootOk(s2) && name in Abs(s).names
    requires Abs(s).names[name] in Abs(s).links && Abs(s).links[Abs(s).names[name]] > 0
    requires Abs(s1) == Tree(Abs(s).names - {name}, Abs(s).links)
    requires Abs(s2) == Abs(s1).(links := Abs(s1).links[Abs(s).names[name] := Abs(s).links[Abs(s).names[name]] - 1])
    ensures Steps(s, s2, DropName(name))
  {
    hide RootOk, Abs;
  }

  datatype RenameResult = Renamed | NotFound | Kept(why: Outcome)

  /** Rename a file: link it under the new name, then unlink the old one, which cannot fail; so there is never anything
      to undo. */
  method Rename(vol: Volume, from: Name, to: Name) returns (r: RenameResult, ghost op: Op)
    requires Good(vol) && ROOTDIR_INO in vol.vnodes && IsName(to)
    modifies vol, vol.freemap
    ensures Good(vol) && old(vol.vnodes).Keys <= vol.vnodes.Keys && Steps(old(vol.s), vol.s, op)
    ensures r.NotFound? <==> from !in Abs(old(vol.s)).names
    ensures op == if r.Renamed? then MoveName(from, to) else Nothing
    ensures r.Kept? ==> Refusal(Abs(old(vol.s)).names, to, r.why, Full(vol))
  {
    hide FsInv, RootOk, Abs, Consistent, Steps, Shape, Cur, DirOk, DirMap, At, Slots, Names, IsName, SlotSet, OnlyFile,
         Wrote, Encoded, SameFile;
    ghost var s0 := vol.s;
    NoOp(s0);
    op := Nothing;
    var found, g1, slot1 := LookOnce(vol, from);
    ghost var s := vol.s;
    SameStep(s0, s0, s, Nothing);
    if !found {
      return NotFound, Nothing;
    }
    KindTells(s, g1);
    assert vol.vnodes[g1].inode.kind != TYPE_DIR;
    AbsNames(s);
    LinksFit(s, g1);
    InodeNumber(s, g1);
    SlotsBound(s, ROOTDIR_INO);
    var linked := Link(vol, ROOTDIR_INO, to, g1);
    ghost var s1 := vol.s;
    DirWritten(s, s1);
    StillLoaded(s, s1);
    if !linked.Linked? {
      SameStep(s0, s, s1, Nothing);
      After(s0, s1, Nothing);
      return Kept(linked), Nothing;
    }
    OldSlot(s, s1, slot1, linked.slot, g1, from, to);
    LoadedLinks(s1, g1);
    DropOldName(vol, g1, slot1, from);
    op := MoveName(from, to);
    MovedName(s0, s1, vol.s, from, to);
    After(s0, vol.s, op);
    r := Renamed;
  }

  /** With the new name linked: count it, unlink the old name, which cannot fail, and count that. */
  method DropOldName(vol: Volume, g1: nat, slot1: nat, from: Name)
    requires vol.Valid() && RootOk(vol.s) && ROOTDIR_INO in vol.vnodes
    requires g1 in vol.vnodes && g1 != ROOTDIR_INO && g1 != NOINO
    requires DirOk(vol.s, ROOTDIR_INO) && slot1 < Slots(vol.s, ROOTDIR_INO) && ENTRYSIZE * (slot1 + 1) <= MAXSIZE
    requires At(vol.s, ROOTDIR_INO, slot1) == Entry(g1, from) && vol.vnodes[g1].inode.links + 1 < HALF
    modifies vol, vol.freemap
    ensures vol.Valid() && RootOk(vol.s) && vol.vnodes.Keys == old(vol.vnodes).Keys
    ensures Abs(vol.s) == Abs(old(vol.s)).(names := Abs(old(vol.s)).names - {from})
  {
    hide FsInv, RootOk, Abs, Shape, Cur, DirOk, DirMap, At, Slots, Names, SlotSet, OnlyFile, Wrote, Encoded, SameFile;
    ghost var s1 := vol.s;
    LoadedLinks(s1, g1);
    SetLinks(vol, g1, vol.vnodes[g1].inode.links + 1);
    ghost var s2 := vol.s;
    DirFrame(s1, s2, ROOTDIR_INO);
    RootDir(s2);
    AbsNames(s2);
    DirSize(s2, ROOTDIR_INO);
    var err := Unlink(vol, ROOTDIR_INO, slot1);
    assert err.Ok?;
    ghost var s3 := vol.s;
    DirWritten(s2, s3);
    StillLoaded(s2, s3);
    LoadedLinks(s3, g1);
    assert vol.vnodes[g1].inode.links > 0;
    SetLinks(vol, g1, vol.vnodes[g1].inode.links - 1);
    assert Abs(vol.s).links == Abs(s1).links;
  }

  /** Linking the new name leaves the old one's slot alone. */
  lemma OldSlot(s: Fs, s1: Fs, slot: nat, slot2: nat, ino: nat, from: Name, to: Name)
    requires DirOk(s, ROOTDIR_INO) && DirOk(s1, ROOTDIR_INO) && slot < Slots(s, ROOTDIR_INO)
    requires ENTRYSIZE * (slot + 1) <= MAXSIZE
    requires At(s, ROOTDIR_INO, slot) == Entry(ino, from) && ino != NOINO && slot2 < Slots(s1, ROOTDIR_INO)
    requires SlotSet(s, s1, ROOTDIR_INO, slot2, Entry(ino, to), Slots(s1, ROOTDIR_INO))
    requires slot2 < Slots(s, ROOTDIR_INO) ==>
             ENTRYSIZE * (slot2 + 1) <= MAXSIZE && At(s, ROOTDIR_INO, slot2).ino == NOINO
    requires Slots(s1, ROOTDIR_INO) >= Slots(s, ROOTDIR_INO)
    ensures slot < Slots(s1, ROOTDIR_INO) && At(s1, ROOTDIR_INO, slot) == Entry(ino, from)
  {
    hide Shape, At, Cur, DirOk;
  }

  lemma MovedName(s: Fs, s1: Fs, s2: Fs, from: Name, to: Name)
    requires RootOk(s) && RootOk(s1) && RootOk(s2) && from in Abs(s).names && to !in Abs(s).names
    requires Abs(s1) == Tree(Abs(s).names[to := Abs(s).names[from]], Abs(s).links)
    requires Abs(s2) == Abs(s1).(names := Abs(s1).names - {from})
    ensures Steps(s, s2, MoveName(from, to))
  {
    hide RootOk, Abs;
  }
}
