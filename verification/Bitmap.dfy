/** Fixed-size array of bits, kept in bytes: the free-block map. */
module Bitmap {
  import Bits

  const BITS_PER_WORD := 8

  predicate Full(word: seq<bool>) { forall k :: 0 <= k < |word| ==> word[k] }

  function Words(nbits: nat): nat { (nbits + BITS_PER_WORD - 1) / BITS_PER_WORD }

  predicate Shaped(nbits: nat, v: seq<seq<bool>>)
  {
    |v| == Words(nbits) && forall i :: 0 <= i < |v| ==> |v[i]| == BITS_PER_WORD
  }

  predicate Bit(v: seq<seq<bool>>, i: nat)
    requires i / BITS_PER_WORD < |v| && |v[i / BITS_PER_WORD]| == BITS_PER_WORD
  {
    v[i / BITS_PER_WORD][i % BITS_PER_WORD]
  }

  /** The bits beyond the last one are set, so that a search never finds them. */
  ghost predicate Padded(nbits: nat, v: seq<seq<bool>>)
  {
    Shaped(nbits, v) && forall i: nat :: nbits <= i < BITS_PER_WORD * |v| ==> Bit(v, i)
  }

  function WithBit(v: seq<seq<bool>>, i: nat, b: bool): seq<seq<bool>>
    requires i / BITS_PER_WORD < |v| && |v[i / BITS_PER_WORD]| == BITS_PER_WORD
  {
    v[i / BITS_PER_WORD := v[i / BITS_PER_WORD][i % BITS_PER_WORD := b]]
  }

  lemma WithBitAt(nbits: nat, v: seq<seq<bool>>, i: nat, b: bool)
    requires Shaped(nbits, v) && i < nbits
    ensures i / BITS_PER_WORD < |v| && Shaped(nbits, WithBit(v, i, b))
    ensures forall j: nat :: j < BITS_PER_WORD * |v| ==> Bit(WithBit(v, i, b), j) == if j == i then b else Bit(v, j)
    ensures Padded(nbits, v) ==> Padded(nbits, WithBit(v, i, b))
  {
  }

  /** The set bits. */
  ghost function SetOf(nbits: nat, v: seq<seq<bool>>): set<nat>
    requires Shaped(nbits, v)
  {
    set i: nat | i < nbits && Bit(v, i)
  }

  // ---- The bytes that hold the bits: bit k of a byte is worth 2^k ----

  function ByteOf(w: seq<bool>): nat { if w == [] then 0 else (if w[0] then 1 else 0) + 2 * ByteOf(w[1..]) }

  function BitsOf(b: nat, n: nat): (w: seq<bool>)
    ensures |w| == n
  {
    if n == 0 then [] else [b % 2 == 1] + BitsOf(b / 2, n - 1)
  }

  lemma {:induction false} ByteBound(w: seq<bool>)
    ensures ByteOf(w) < Bits.Pow2(|w|)
  {
    if w != [] { ByteBound(w[1..]); }
  }

  lemma {:induction false} BitsRoundTrip(w: seq<bool>)
    ensures BitsOf(ByteOf(w), |w|) == w
  {
    if w != [] { BitsRoundTrip(w[1..]); }
  }

  /** Bit k of a byte is worth 2^k. */
  lemma {:induction false} BitIsWorth(w: seq<bool>, k: nat)
    requires k < |w|
    ensures ByteOf(w) / Bits.Pow2(k) % 2 == 1 <==> w[k]
    decreases k
  {
    var low, rest := if w[0] then 1 else 0, ByteOf(w[1..]);
    assert ByteOf(w) == low + 2 * rest && ByteOf(w) / 2 == rest;
    if k > 0 {
      BitIsWorth(w[1..], k - 1);
      HalvedThen(ByteOf(w), Bits.Pow2(k - 1));
    } else {
      assert ByteOf(w) / 1 == ByteOf(w);
    }
  }

  lemma HalvedThen(x: nat, p: nat)
    requires p > 0
    ensures x / (2 * p) == x / 2 / p
  {
    var q, r := x / 2 / p, x / 2 % p;
    assert x / 2 == p * q + r;
    Bits.MulAssoc(2, p, q);
    assert x == (2 * p) * q + (2 * r + x % 2);
    Bits.DivModUnique(x, 2 * p, q, 2 * r + x % 2);
  }

  class Map {
    const nbits: nat
    var v: seq<seq<bool>>

    ghost predicate Valid()
      reads this
    {
      Padded(nbits, v)
    }

    /** The set bits. */
    ghost function Set(): set<nat>
      requires Valid()
      reads this
    {
      SetOf(nbits, v)
    }

    constructor (n: nat)
      ensures nbits == n && Valid() && Set() == {}
    {
      nbits := n;
      var words := Words(n);
      v := seq(words, _ => seq(BITS_PER_WORD, _ => false));
      new;
      if words > n / BITS_PER_WORD {
        var ix := words - 1;
        var overbits := n - ix * BITS_PER_WORD;
        var j := overbits;
        while j < BITS_PER_WORD
          invariant overbits <= j <= BITS_PER_WORD && Shaped(n, v)
          invariant forall i :: 0 <= i < |v| ==> forall k :: 0 <= k < BITS_PER_WORD ==>
                    v[i][k] == (i == ix && overbits <= k < j)
        {
          v := v[ix := v[ix][j := true]];
          j := j + 1;
        }
      }
    }

    /** The first clear bit is set and returned; there is none exactly when every bit is set. */
    method Alloc() returns (found: bool, index: nat)
      requires Valid()
      modifies this
      ensures Valid()
      ensures found <==> exists i: nat :: i < nbits && i !in old(Set())
      ensures !found ==> v == old(v)
      ensures found ==> index < nbits && index !in old(Set()) && Set() == old(Set()) + {index}
      ensures found ==> forall i: nat :: i < index ==> i in old(Set())
    {
      ghost var was := Set();
      var maxix := Words(nbits);
      var ix := 0;
      while ix < maxix
        invariant ix <= maxix && v == old(v)
        invariant forall i: nat :: i < BITS_PER_WORD * ix ==> Bit(v, i)
      {
        if !Full(v[ix]) {
          var offset := 0;
          while v[ix][offset]
            invariant offset < BITS_PER_WORD && forall k :: 0 <= k < offset ==> v[ix][k]
            decreases BITS_PER_WORD - offset
          {
            offset := offset + 1;
          }
          index := ix * BITS_PER_WORD + offset;
          assert !Bit(v, index);
          WithBitAt(nbits, v, index, true);
          v := WithBit(v, index, true);
          assert Set() == was + {index};
          return true, index;
        }
        ix := ix + 1;
      }
      return false, 0;
    }

    /** Set a clear bit. */
    method Mark(index: nat)
      requires Valid() && index < nbits && index !in Set()
      modifies this
      ensures Valid() && Set() == old(Set()) + {index}
    {
      WithBitAt(nbits, v, index, true);
      v := WithBit(v, index, true);
    }

    /** Clear a set bit. */
    method Unmark(index: nat)
      requires Valid() && index < nbits && index in Set()
      modifies this
      ensures Valid() && Set() == old(Set()) - {index}
    {
      WithBitAt(nbits, v, index, false);
      v := WithBit(v, index, false);
    }

    method IsSet(index: nat) returns (b: bool)
      requires Valid() && index < nbits
      ensures b <==> index in Set()
    {
      b := Bit(v, index);
    }
  }
}
