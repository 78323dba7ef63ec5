/** Moving bytes between a kernel buffer and the buffers a request describes, however those are cut into pieces. */
module Uio {
  ghost function Flat(bufs: seq<seq<nat>>): seq<nat>
  {
    if bufs == [] then [] else bufs[0] + Flat(bufs[1..])
  }

  lemma {:induction false} FlatSplit(bufs: seq<seq<nat>>, k: nat)
    requires k <= |bufs|
    ensures Flat(bufs) == Flat(bufs[..k]) + Flat(bufs[k..])
    decreases k
  {
    if k == 0 {
      assert bufs[0..] == bufs && bufs[..0] == [];
    } else {
      var rest := bufs[1..];
      FlatSplit(rest, k - 1);
      assert rest[..k - 1] == bufs[..k][1..] && rest[k - 1..] == bufs[k..];
      assert bufs[..k][0] == bufs[0];
      assert Flat(bufs[..k]) == bufs[0] + Flat(rest[..k - 1]);
    }
  }

  /** Around piece `k`. */
  lemma FlatAround(bufs: seq<seq<nat>>, k: nat)
    requires k < |bufs|
    ensures Flat(bufs) == Flat(bufs[..k]) + bufs[k] + Flat(bufs[k + 1..])
    ensures Flat(bufs[..k + 1]) == Flat(bufs[..k]) + bufs[k]
  {
    hide Flat;
    FlatSplit(bufs, k);
    FlatHead(bufs[k..]);
    assert bufs[k..][0] == bufs[k] && bufs[k..][1..] == bufs[k + 1..];
    var head := bufs[..k + 1];
    FlatSplit(head, k);
    var last: seq<seq<nat>> := head[k..];
    FlatHead(last);
    FlatEmpty();
    var none: seq<seq<nat>> := [];
    assert head[..k] == bufs[..k] && last == [bufs[k]] && last[1..] == none;
  }

  lemma FlatHead(bufs: seq<seq<nat>>)
    requires bufs != []
    ensures Flat(bufs) == bufs[0] + Flat(bufs[1..])
  {
  }

  lemma FlatEmpty()
    ensures Flat([]) == []
  {
  }

  lemma FlatUpdate(bufs: seq<seq<nat>>, k: nat, b: seq<nat>)
    requires k < |bufs| && |b| == |bufs[k]|
    ensures Flat(bufs[k := b]) == Flat(bufs[..k]) + b + Flat(bufs[k + 1..])
    ensures bufs[k := b][..k] == bufs[..k]
  {
    FlatAround(bufs[k := b], k);
    assert bufs[k := b][..k] == bufs[..k] && bufs[k := b][k + 1..] == bufs[k + 1..];
  }

  /** `s` with `data` put in at `i`. */
  function Splice(s: seq<nat>, i: nat, data: seq<nat>): (r: seq<nat>)
    requires i + |data| <= |s|
    ensures |r| == |s|
  {
    s[..i] + data + s[i + |data|..]
  }

  lemma SpliceTwice(s: seq<nat>, i: nat, a: seq<nat>, b: seq<nat>)
    requires i + |a| + |b| <= |s|
    ensures Splice(Splice(s, i, a), i + |a|, b) == Splice(s, i, a + b)
  {
  }

  /** What is left of the request: the pieces, the current piece and how much of it is used up. */
  class Request {
    const writing: bool
    var bufs: seq<seq<nat>>
    var at: nat
    var pos: nat
    var offset: nat
    var resid: nat

    /** All the request's memory, end to end. */
    ghost function Memory(): seq<nat>
      reads this
    {
      Flat(bufs)
    }

    /** Bytes of it already used. */
    ghost function Done(): nat
      requires at <= |bufs|
      reads this
    {
      |Flat(bufs[..at])| + pos
    }

    /** The pieces hold at least `resid` more bytes. */
    ghost predicate Valid()
      reads this
    {
      && at < |bufs| && pos <= |bufs[at]| && Done() + resid <= |Memory()|
    }

    constructor (w: bool, pieces: seq<seq<nat>>, off: nat, n: nat)
      requires pieces != [] && n <= |Flat(pieces)|
      ensures Valid() && writing == w && bufs == pieces && offset == off && resid == n && Done() == 0
    {
      writing, bufs, at, pos, offset, resid := w, pieces, 0, 0, off, n;
    }

    /** Move `size` bytes of the current piece. */
    method MovePiece(buf: seq<nat>, i: nat, size: nat) returns (buf2: seq<nat>)
      requires Valid() && size <= resid && pos + size <= |bufs[at]| && i + size <= |buf|
      modifies this`bufs, this`pos, this`offset, this`resid
      ensures Valid() && offset == old(offset) + size && resid == old(resid) - size && Done() == old(Done()) + size
      ensures |bufs| == old(|bufs|) && old(Done()) + size <= |old(Memory())| == |Memory()|
      ensures if writing
              then buf2 == Splice(buf, i, old(Memory())[old(Done())..old(Done()) + size]) && Memory() == old(Memory())
              else buf2 == buf && Memory() == Splice(old(Memory()), old(Done()), buf[i..i + size])
    {
      hide Flat, Splice;
      if writing {
        PieceIs(bufs, at, pos, size);
        buf2 := Splice(buf, i, bufs[at][pos..pos + size]);
      } else {
        var data := buf[i..i + size];
        PieceSpliced(bufs, at, pos, data);
        bufs := bufs[at := Splice(bufs[at], pos, data)];
        buf2 := buf;
      }
      pos := pos + size;
      resid, offset := resid - size, offset + size;
    }

    /** Move up to `n` bytes between the request and `buf` from index `skip` on, following the request's direction. */
    method Move(buf: seq<nat>, skip: nat, n: nat) returns (buf2: seq<nat>)
      requires Valid() && skip + n <= |buf| && (n <= resid || Done() + resid == |Memory()|)
      modifies this`bufs, this`at, this`pos, this`offset, this`resid
      ensures Valid()
      ensures var m := if n <= old(resid) then n else old(resid);
              && offset == old(offset) + m && resid == old(resid) - m && Done() == old(Done()) + m
              && old(Done()) + m <= |old(Memory())|
              && (if writing
                  then buf2 == Splice(buf, skip, old(Memory())[old(Done())..old(Done()) + m])
                      && Memory() == old(Memory())
                  else buf2 == buf && Memory() == Splice(old(Memory()), old(Done()), buf[skip..skip + m]))
    {
      hide Flat, Splice;
      ghost var mem0, c0, r0 := Memory(), Done(), resid;
      ghost var m := if n <= resid then n else resid;
      buf2 := buf;
      var left, moved := n, 0;
      SpliceNothing(buf, skip);
      SpliceNothing(mem0, c0);
      while left > 0 && resid > 0
        invariant Valid() && left == n - moved && moved <= m && |buf2| == |buf| && c0 + m <= |mem0|
        invariant n <= r0 || Done() + resid == |Memory()|
        invariant offset == old(offset) + moved && resid == r0 - moved && Done() == c0 + moved && |Memory()| == |mem0|
        invariant if writing
                  then buf2 == Splice(buf, skip, mem0[c0..c0 + moved]) && Memory() == mem0
                  else buf2 == buf && Memory() == Splice(mem0, c0, buf[skip..skip + moved])
        decreases left, |bufs| - at
      {
        var size := if |bufs[at]| - pos > left then left else |bufs[at]| - pos;
        if size == 0 {
          NextPiece(bufs, at, pos, resid);
          at, pos := at + 1, 0;
          continue;
        }
        if n > r0 { PieceFits(bufs, at, pos, resid); }
        SpliceMore(buf, skip, mem0, c0, moved, size);
        SpliceMore(mem0, c0, buf, skip, moved, size);
        buf2 := MovePiece(buf2, skip + moved, size);
        moved := moved + size;
        left := left - size;
      }
    }

    /** Fill the next `n` bytes with zeros, sixteen at a time. */
    method MoveZeros(n: nat)
      requires Valid() && !writing && n <= resid
      modifies this`bufs, this`at, this`pos, this`offset, this`resid
      ensures Valid() && offset == old(offset) + n && resid == old(resid) - n && Done() == old(Done()) + n
      ensures old(Done()) + n <= |old(Memory())| && Memory() == Splice(old(Memory()), old(Done()), ZeroBytes(n))
    {
      hide Flat, Splice;
      ghost var mem0, c0 := Memory(), Done();
      var zeros := ZeroBytes(16);
      var left := n;
      SpliceNothing(mem0, c0);
      assert ZeroBytes(0) == mem0[c0..c0];
      while left > 0
        invariant 0 <= left <= n && Valid() && c0 + n <= |mem0|
        invariant offset == old(offset) + (n - left) && resid == old(resid) - (n - left) && Done() == c0 + (n - left)
        invariant Memory() == Splice(mem0, c0, ZeroBytes(n - left))
      {
        var amt := if 16 > left then left else 16;
        ghost var done := n - left;
        SpliceMore(mem0, c0, ZeroBytes(n), 0, done, amt);
        assert ZeroBytes(n)[0..done] == ZeroBytes(done) && ZeroBytes(n)[0..done + amt] == ZeroBytes(done + amt);
        assert ZeroBytes(n)[done..done + amt] == zeros[0..amt];
        var same := Move(zeros, 0, amt);
        left := left - amt;
      }
    }
  }

  lemma SpliceEmpty(s: seq<nat>, i: nat)
    requires i <= |s|
    ensures Splice(s, i, []) == s
  {
  }

  lemma SpliceAll(s: seq<nat>, t: seq<nat>)
    requires |t| == |s|
    ensures Splice(s, 0, t) == t
  {
  }

  function ZeroBytes(n: nat): seq<nat> { seq<nat>(n, _ => 0) }

  lemma SpliceNothing(s: seq<nat>, i: nat)
    requires i <= |s|
    ensures forall t: seq<nat>, j: nat :: j <= |t| ==> Splice(s, i, t[j..j]) == s
  {
  }

  /** Splicing in the next `size` bytes after the first `done`. */
  lemma SpliceMore(s: seq<nat>, i: nat, t: seq<nat>, j: nat, done: nat, size: nat)
    requires i + done + size <= |s| && j + done + size <= |t|
    ensures Splice(Splice(s, i, t[j..j + done]), i + done, t[j + done..j + done + size]) ==
            Splice(s, i, t[j..j + done + size])
  {
    var a, b := t[j..j + done], t[j + done..j + done + size];
    assert a + b == t[j..j + done + size];
    SpliceTwice(s, i, a, b);
  }

  /** With bytes still to move and the current piece used up there is a next piece. */
  lemma NextPiece(bufs: seq<seq<nat>>, at: nat, pos: nat, resid: nat)
    requires at < |bufs| && pos == |bufs[at]| && resid > 0 && |Flat(bufs[..at])| + pos + resid <= |Flat(bufs)|
    ensures at + 1 < |bufs| && |Flat(bufs[..at + 1])| == |Flat(bufs[..at])| + pos
  {
    FlatAround(bufs, at);
    assert bufs[at + 1..] != [];
  }

  /** The current piece cannot hold more than all the pieces do. */
  lemma PieceFits(bufs: seq<seq<nat>>, at: nat, pos: nat, resid: nat)
    requires at < |bufs| && pos <= |bufs[at]| && |Flat(bufs[..at])| + pos + resid == |Flat(bufs)|
    ensures |bufs[at]| - pos <= resid
  {
    FlatAround(bufs, at);
  }

  lemma PieceIs(bufs: seq<seq<nat>>, at: nat, pos: nat, size: nat)
    requires at < |bufs| && pos + size <= |bufs[at]|
    ensures var c := |Flat(bufs[..at])| + pos;
            c + size <= |Flat(bufs)| && Flat(bufs)[c..c + size] == bufs[at][pos..pos + size]
  {
    FlatAround(bufs, at);
  }

  lemma PieceSpliced(bufs: seq<seq<nat>>, at: nat, pos: nat, data: seq<nat>)
    requires at < |bufs| && pos + |data| <= |bufs[at]|
    ensures var c := |Flat(bufs[..at])| + pos;
            && c + |data| <= |Flat(bufs)|
            && Flat(bufs[at := Splice(bufs[at], pos, data)]) == Splice(Flat(bufs), c, data)
            && bufs[at := Splice(bufs[at], pos, data)][..at] == bufs[..at]
  {
    hide Flat, Splice;
    FlatAround(bufs, at);
    FlatUpdate(bufs, at, Splice(bufs[at], pos, data));
    SpliceMiddle(Flat(bufs[..at]), bufs[at], Flat(bufs[at + 1..]), pos, data);
  }

  lemma SpliceMiddle(a: seq<nat>, b: seq<nat>, c: seq<nat>, pos: nat, data: seq<nat>)
    requires pos + |data| <= |b|
    ensures Splice(a + b + c, |a| + pos, data) == a + Splice(b, pos, data) + c
  {
  }
}
