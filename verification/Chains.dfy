/** Singly linked lists threaded through a link field, NULL being 0. */
module Chains {
  predicate NoDup<T(==)>(s: seq<T>) { forall i, j :: 0 <= i < j < |s| ==> s[i] != s[j] }

  lemma {:induction false} NoDupSize<T>(s: seq<T>)
    requires NoDup(s)
    ensures |set x | x in s| == |s|
    decreases |s|
  {
    if s != [] {
      NoDupSize(s[1..]);
      assert s == [s[0]] + s[1..];
      assert (set x | x in s) == (set x | x in s[1..]) + {s[0]};
    }
  }

  ghost function Below(n: nat): (r: set<nat>)
    ensures |r| == n && forall s: nat :: s in r <==> s < n
  {
    if n == 0 then {} else Below(n - 1) + {n - 1}
  }

  lemma SubsetSize<T>(a: set<T>, b: set<T>)
    requires a <= b
    ensures |a| <= |b|
  {
    assert b == a + (b - a);
  }

  lemma SameSize<T>(a: set<T>, b: set<T>)
    requires a <= b
    ensures |a| <= |b| && (|a| == |b| <==> a == b)
  {
    SubsetSize(a, b);
    if x :| x in b && x !in a { SubsetSize(a, b - {x}); }
  }

  /** Two lists without repetition, the first within the second: they are as long exactly when they have the same
      members. */
  lemma Cover<T>(s: seq<T>, all: seq<T>)
    requires NoDup(s) && NoDup(all) && forall x :: x in s ==> x in all
    ensures |s| <= |all|
    ensures |s| == |all| <==> forall x :: x in all ==> x in s
  {
    NoDupSize(s);
    NoDupSize(all);
    var a, b := set x | x in s, set x | x in all;
    SameSize(a, b);
    if forall x :: x in all ==> x in s {
      assert forall x :: x in b ==> x in a;
    } else {
      var x :| x in all && x !in s;
      assert x in b && x !in a;
    }
  }

  function First(list: seq<nat>): nat { if list == [] then 0 else list[0] }

  function After(list: seq<nat>, i: nat): nat { if i + 1 < |list| then list[i + 1] else 0 }

  /** Following `next` from `head` gives exactly `list`. */
  ghost predicate Chain(next: map<nat, nat>, head: nat, list: seq<nat>)
  {
    && NoDup(list) && 0 !in list && head == First(list)
    && (forall i :: 0 <= i < |list| ==> list[i] in next)
    && (forall i {:trigger After(list, i)} :: 0 <= i < |list| ==> next[list[i]] == After(list, i))
  }

  lemma Prepend(next: map<nat, nat>, head: nat, list: seq<nat>, p: nat)
    requires Chain(next, head, list) && p != 0 && p !in list
    ensures Chain(next[p := head], p, [p] + list)
  {
    var list2, next2 := [p] + list, next[p := head];
    forall i | 0 <= i < |list2| ensures list2[i] in next2 && next2[list2[i]] == After(list2, i) {
      if i > 0 {
        assert list2[i] == list[i - 1];
        assert next[list[i - 1]] == After(list, i - 1);
      }
    }
  }

  /** Links of elements outside the list do not matter. */
  lemma Elsewhere(next: map<nat, nat>, head: nat, list: seq<nat>, p: nat, x: nat)
    requires Chain(next, head, list) && p !in list
    ensures Chain(next[p := x], head, list)
  {
  }

  lemma Agree(next: map<nat, nat>, next2: map<nat, nat>, head: nat, list: seq<nat>)
    requires Chain(next, head, list) && forall p :: p in list && p in next ==> p in next2 && next2[p] == next[p]
    ensures Chain(next2, head, list)
  {
    forall i | 0 <= i < |list| ensures list[i] in next2 && next2[list[i]] == After(list, i) {
      assert next[list[i]] == After(list, i);
    }
  }

  /** `list` with element `k` taken out. */
  function Drop(list: seq<nat>, k: nat): seq<nat>
    requires k < |list|
  {
    list[..k] + list[k + 1..]
  }

  lemma DropMembers(list: seq<nat>, k: nat)
    requires k < |list| && NoDup(list)
    ensures NoDup(Drop(list, k))
    ensures forall x :: x in Drop(list, k) <==> x in list && x != list[k]
  {
    var rest := Drop(list, k);
    forall x | x in list && x != list[k] ensures x in rest {
      var i :| 0 <= i < |list| && list[i] == x;
      assert i < k ==> rest[i] == x;
      assert i > k ==> rest[i - 1] == x;
    }
    forall x | x in rest ensures x in list && x != list[k] {
      var i :| 0 <= i < |rest| && rest[i] == x;
      assert rest[i] == if i < k then list[i] else list[i + 1];
    }
  }

  /** Storing the successor of element `k` in the link that leads to it takes `k` out. */
  lemma Bypass(next: map<nat, nat>, head: nat, list: seq<nat>, k: nat)
    requires Chain(next, head, list) && k < |list|
    ensures k == 0 ==> Chain(next, After(list, 0), Drop(list, 0))
    ensures k > 0 ==> Chain(next[list[k - 1] := After(list, k)], head, Drop(list, k))
  {
    var rest := Drop(list, k);
    DropMembers(list, k);
    var next2 := if k == 0 then next else next[list[k - 1] := After(list, k)];
    forall i | 0 <= i < |rest| ensures rest[i] in next2 && next2[rest[i]] == After(rest, i) {
      var j := if i < k then i else i + 1;
      assert rest[i] == list[j];
      assert next[list[j]] == After(list, j);
    }
  }

  /** Walk a pointer to the link leading to `p` and store p's successor there; an absent `p` changes nothing.
      `at` names the element whose link is being looked at, 0 for the head itself. */
  method Unlink(next: map<nat, nat>, head: nat, p: nat, ghost list: seq<nat>)
    returns (next2: map<nat, nat>, head2: nat, ghost list2: seq<nat>)
    requires Chain(next, head, list)
    ensures Chain(next2, head2, list2)
    ensures forall x :: x in list2 <==> x in list && x != p
    ensures next2.Keys == next.Keys && forall x :: x in next && x !in list ==> next2[x] == next[x]
  {
    var at, cur := 0, head;
    ghost var k := 0;
    while cur != 0 && cur != p
      invariant k <= |list|
      invariant cur == if k < |list| then list[k] else 0
      invariant at == if k == 0 then 0 else list[k - 1]
      invariant p !in list[..k]
      decreases |list| - k
    {
      assert list[..k + 1] == list[..k] + [list[k]];
      assert next[list[k]] == After(list, k);
      at, cur := cur, next[cur];
      k := k + 1;
    }
    if cur == 0 {
      assert list[..k] == list;
      return next, head, list;
    }
    Bypass(next, head, list, k);
    DropMembers(list, k);
    assert next[list[k]] == After(list, k);
    list2 := Drop(list, k);
    if at == 0 {
      next2, head2 := next, next[p];
    } else {
      next2, head2 := next[at := next[p]], head;
    }
  }
}
