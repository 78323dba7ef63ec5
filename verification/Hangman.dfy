/** The deadlock detector: who waits for what and who holds it, and a walk along the two before each wait. */
module Hangman {
  import Chains

  const NONE := -1

  datatype Outcome = Fine | Deadlock | Misuse

  /** `waiting[a]` is the lock actor a waits for, `holding[l]` the actor that holds lock l; NONE for neither. */
  datatype Graph = Graph(waiting: seq<int>, holding: seq<int>)

  predicate Shaped(g: Graph)
  {
    && (forall a :: 0 <= a < |g.waiting| ==> NONE <= g.waiting[a] < |g.holding|)
    && (forall l :: 0 <= l < |g.holding| ==> NONE <= g.holding[l] < |g.waiting|)
  }

  /** The actor that `a` waits on, if any. */
  function Blocker(g: Graph, a: nat): (b: int)
    requires Shaped(g) && a < |g.waiting|
    ensures NONE <= b < |g.waiting|
  {
    if g.waiting[a] == NONE then NONE else g.holding[g.waiting[a]]
  }

  /** `path` is a chain of actors each waiting on the next. */
  ghost predicate Path(g: Graph, path: seq<nat>)
    requires Shaped(g)
  {
    && |path| > 0 && (forall i :: 0 <= i < |path| ==> path[i] < |g.waiting|)
    && (forall i :: 0 <= i < |path| - 1 ==> Blocker(g, path[i]) == path[i + 1])
  }

  /** Some chain of waiting leads from `a` to `b`. */
  ghost predicate Reaches(g: Graph, a: nat, b: nat)
    requires Shaped(g)
  {
    exists path: seq<nat> :: Path(g, path) && path[0] == a && path[|path| - 1] == b
  }

  /** No actor waits, through any chain, on itself. */
  ghost predicate Acyclic(g: Graph)
    requires Shaped(g)
  {
    forall path: seq<nat> :: Path(g, path) && |path| > 1 ==> path[0] != path[|path| - 1]
  }

  lemma PathStep(g: Graph, path: seq<nat>, i: nat)
    requires Shaped(g) && Path(g, path) && i + 1 < |path|
    ensures Blocker(g, path[i]) == path[i + 1]
  {
  }

  lemma PathPart(g: Graph, path: seq<nat>, i: nat, j: nat)
    requires Shaped(g) && Path(g, path) && i < j <= |path|
    ensures Path(g, path[i..j])
  {
  }

  /** On an acyclic graph a chain visits no actor twice, so it is no longer than there are actors. */
  lemma PathNoRepeat(g: Graph, path: seq<nat>, i: nat, j: nat)
    requires Shaped(g) && Acyclic(g) && Path(g, path) && i < j < |path|
    ensures path[i] != path[j]
  {
    PathPart(g, path, i, j + 1);
    var part := path[i..j + 1];
    assert part[0] == path[i] && part[|part| - 1] == path[j];
  }

  lemma ChainFits(g: Graph, path: seq<nat>)
    requires Shaped(g) && Acyclic(g) && Path(g, path)
    ensures |path| <= |g.waiting|
  {
    forall i, j | 0 <= i < j < |path| ensures path[i] != path[j] { PathNoRepeat(g, path, i, j); }
    Pigeons(path, |g.waiting|);
  }

  lemma {:induction false} Pigeons(path: seq<nat>, n: nat)
    requires (forall i, j :: 0 <= i < j < |path| ==> path[i] != path[j]) && forall i :: 0 <= i < |path| ==> path[i] < n
    ensures |path| <= n
  {
    var members := set x | x in path;
    Chains.NoDupSize(path);
    Chains.SubsetSize(members, Chains.Below(n));
  }

  /** What is known of the walk so far determines where it goes: any chain from its start begins with it. */
  lemma {:induction false} SameChain(g: Graph, walk: seq<nat>, path: seq<nat>, k: nat)
    requires Shaped(g) && Path(g, walk) && Path(g, path) && walk[0] == path[0] && k < |walk| && k < |path|
    ensures walk[k] == path[k]
    decreases k
  {
    if k > 0 {
      SameChain(g, walk, path, k - 1);
      assert Blocker(g, walk[k - 1]) == walk[k] && Blocker(g, path[k - 1]) == path[k];
    }
  }

  /** A chain that has come to an actor waiting on no one cannot be continued. */
  lemma WalkEnds(g: Graph, walk: seq<nat>, target: nat)
    requires Shaped(g) && Acyclic(g) && Path(g, walk) && Blocker(g, walk[|walk| - 1]) == NONE && target !in walk
    ensures !Reaches(g, walk[0], target)
  {
    forall path: seq<nat> | Path(g, path) && path[0] == walk[0] ensures path[|path| - 1] != target {
      NoLonger(g, walk, path);
      SameChain(g, walk, path, |path| - 1);
      assert walk[|path| - 1] in walk;
    }
  }

  lemma NoLonger(g: Graph, walk: seq<nat>, path: seq<nat>)
    requires Shaped(g) && Path(g, walk) && Path(g, path) && path[0] == walk[0] && Blocker(g, walk[|walk| - 1]) == NONE
    ensures |path| <= |walk|
  {
    assert |path| > |walk| ==> Blocker(g, path[|walk| - 1]) == path[|walk|];
    if |path| > |walk| { SameChain(g, walk, path, |walk| - 1); }
  }

  lemma WalkStart(g: Graph, a: nat)
    requires Shaped(g) && a < |g.waiting|
    ensures Path(g, [a])
  {
  }

  lemma WalkMore(g: Graph, walk: seq<nat>, target: nat)
    requires Shaped(g) && Acyclic(g) && Path(g, walk) && Blocker(g, walk[|walk| - 1]) != NONE && target !in walk
    ensures var next := walk + [Blocker(g, walk[|walk| - 1])];
            Path(g, next) && |next| <= |g.waiting| && target !in next[..|next| - 1]
  {
    var next := walk + [Blocker(g, walk[|walk| - 1])];
    forall i | 0 <= i < |next| - 1 ensures Blocker(g, next[i]) == next[i + 1] {
      if i < |walk| - 1 { assert Blocker(g, walk[i]) == walk[i + 1]; }
    }
    assert next[..|next| - 1] == walk;
    ChainFits(g, next);
  }

  lemma WalkFinds(g: Graph, walk: seq<nat>, target: nat)
    requires Shaped(g) && Path(g, walk) && walk[|walk| - 1] == target
    ensures Reaches(g, walk[0], target)
  {
  }

  /** With nobody waiting there are no chains to speak of. */
  lemma NobodyWaits(g: Graph)
    requires Shaped(g) && forall a :: 0 <= a < |g.waiting| ==> g.waiting[a] == NONE
    ensures Acyclic(g)
  {
    forall path: seq<nat> | Path(g, path) ensures |path| == 1 {
      if |path| > 1 { PathStep(g, path, 0); }
    }
  }

  /** Adding the edge from `a` to lock `l`. */
  function Waits(g: Graph, a: nat, l: nat): Graph
    requires a < |g.waiting| && l < |g.holding|
  {
    g.(waiting := g.waiting[a := l])
  }

  /** A chain that meets `a` only at its end is the same with and without a's edge. */
  lemma SameEdges(g: Graph, a: nat, l: nat, path: seq<nat>)
    requires Shaped(g) && a < |g.waiting| && l < |g.holding| && |path| > 0 && forall i :: 0 <= i < |path| - 1 ==>
             path[i] != a
    ensures Shaped(Waits(g, a, l)) && (Path(g, path) <==> Path(Waits(g, a, l), path))
  {
    var g2 := Waits(g, a, l);
    forall i | 0 <= i < |path| - 1 && path[i] < |g.waiting| ensures Blocker(g2, path[i]) == Blocker(g, path[i]) {}
  }

  /** If l's holder already leads to `a`, the new edge closes a cycle. */
  lemma ClosesCycle(g: Graph, a: nat, l: nat)
    requires Shaped(g) && Acyclic(g) && a < |g.waiting| && l < |g.holding| && g.waiting[a] == NONE
    requires g.holding[l] != NONE && Reaches(g, g.holding[l], a)
    ensures Shaped(Waits(g, a, l)) && !Acyclic(Waits(g, a, l))
  {
    var path: seq<nat> :| Path(g, path) && path[0] == g.holding[l] && path[|path| - 1] == a;
    forall i | 0 <= i < |path| - 1 ensures path[i] != a { PathNoRepeat(g, path, i, |path| - 1); }
    SameEdges(g, a, l, path);
    var g2, cycle := Waits(g, a, l), path + [path[0]];
    assert Blocker(g2, a) == path[0];
    forall i | 0 <= i < |cycle| - 1 ensures Blocker(g2, cycle[i]) == cycle[i + 1] {
      if i < |path| - 1 { assert Blocker(g2, path[i]) == path[i + 1]; }
    }
    assert Path(g2, cycle) && |cycle| > 1 && cycle[0] == cycle[|cycle| - 1];
  }

  /** If it does not, the graph stays acyclic. */
  lemma StaysAcyclic(g: Graph, a: nat, l: nat)
    requires Shaped(g) && Acyclic(g) && a < |g.waiting| && l < |g.holding| && g.waiting[a] == NONE
    requires g.holding[l] == NONE || !Reaches(g, g.holding[l], a)
    ensures Shaped(Waits(g, a, l)) && Acyclic(Waits(g, a, l))
  {
    var g2 := Waits(g, a, l);
    forall cycle: seq<nat> | Path(g2, cycle) && |cycle| > 1 ensures cycle[0] != cycle[|cycle| - 1] {
      NoCycle(g, a, l, cycle);
    }
  }

  lemma NoCycle(g: Graph, a: nat, l: nat, cycle: seq<nat>)
    requires Shaped(g) && Acyclic(g) && a < |g.waiting| && l < |g.holding| && g.waiting[a] == NONE
    requires g.holding[l] == NONE || !Reaches(g, g.holding[l], a)
    requires Shaped(Waits(g, a, l)) && Path(Waits(g, a, l), cycle) && |cycle| > 1
    ensures cycle[0] != cycle[|cycle| - 1]
  {
    if i :| 0 <= i < |cycle| - 1 && cycle[i] == a {
      if cycle[0] == cycle[|cycle| - 1] { CycleThrough(g, a, l, cycle, i); }
    } else {
      SameEdges(g, a, l, cycle);
    }
  }

  /** A cycle that uses the new edge leads from l's holder to `a` without it. */
  lemma CycleThrough(g: Graph, a: nat, l: nat, cycle: seq<nat>, i: nat)
    requires Shaped(g) && a < |g.waiting| && l < |g.holding| && Shaped(Waits(g, a, l))
    requires Path(Waits(g, a, l), cycle) && |cycle| > 1 && cycle[0] == cycle[|cycle| - 1] && i < |cycle| - 1
    requires cycle[i] == a
    ensures g.holding[l] != NONE && Reaches(g, g.holding[l], a)
  {
    var g2 := Waits(g, a, l);
    PathStep(g2, cycle, i);
    Turned(g2, cycle, i);
    hide Path, Reaches;
    var turned := cycle[i + 1..] + cycle[1..i + 1];
    var k := FirstAt(turned, a);
    PathPart(g2, turned, 0, k + 1);
    var part := turned[0..k + 1];
    SameEdges(g, a, l, part);
    WalkFinds(g, part, a);
  }

  /** A cycle walked from the point after `i` round to `i`. */
  lemma Turned(g: Graph, cycle: seq<nat>, i: nat)
    requires Shaped(g) && Path(g, cycle) && |cycle| > 1 && cycle[0] == cycle[|cycle| - 1] && i < |cycle| - 1
    ensures var turned := cycle[i + 1..] + cycle[1..i + 1];
            Path(g, turned) && turned[0] == cycle[i + 1] && turned[|turned| - 1] == cycle[i]
  {
    var turned := cycle[i + 1..] + cycle[1..i + 1];
    var m := |cycle| - i - 1;
    forall j | 0 <= j < |turned| - 1 ensures Blocker(g, turned[j]) == turned[j + 1] {
      if j < m - 1 {
        assert turned[j] == cycle[i + 1 + j] && turned[j + 1] == cycle[i + 2 + j];
      } else if j == m - 1 {
        assert turned[j] == cycle[|cycle| - 1] == cycle[0] && turned[j + 1] == cycle[1];
      } else {
        assert turned[j] == cycle[1 + j - m] && turned[j + 1] == cycle[2 + j - m];
      }
    }
  }

  lemma {:induction false} FirstAt(path: seq<nat>, a: nat) returns (k: nat)
    requires a in path
    ensures k < |path| && path[k] == a && forall i :: 0 <= i < k ==> path[i] != a
  {
    k := 0;
    while path[k] != a
      invariant k < |path| && forall i :: 0 <= i < k ==> path[i] != a
      decreases |path| - k
    {
      if k + 1 == |path| { assert false; }
      k := k + 1;
    }
  }

  /** Edges that come to lead to an actor waiting on no one, or that go, make no cycle. */
  lemma HolderChange(g: Graph, g2: Graph, leaf: nat)
    requires Shaped(g) && Acyclic(g) && Shaped(g2) && |g2.waiting| == |g.waiting|
    requires leaf < |g.waiting| && Blocker(g2, leaf) == NONE
    requires forall b :: 0 <= b < |g.waiting| ==>
             Blocker(g2, b) == NONE || Blocker(g2, b) == leaf || Blocker(g2, b) == Blocker(g, b)
    ensures Acyclic(g2)
  {
    forall cycle: seq<nat> | Path(g2, cycle) && |cycle| > 1 ensures cycle[0] != cycle[|cycle| - 1] {
      if cycle[0] == cycle[|cycle| - 1] {
        forall i | 0 <= i < |cycle| - 1 ensures Blocker(g, cycle[i]) == cycle[i + 1] {
          assert Blocker(g2, cycle[i]) == cycle[i + 1];
          assert i + 1 < |cycle| - 1 ==> Blocker(g2, cycle[i + 1]) == cycle[i + 2];
          assert Blocker(g2, cycle[0]) == cycle[1];
        }
        assert Path(g, cycle);
      }
    }
  }

  class Detector {
    var waiting: seq<int>
    var holding: seq<int>
    /** The detector's own lock, which it does not watch. */
    const own: int

    function G(): Graph
      reads this
    {
      Graph(waiting, holding)
    }

    ghost predicate Valid()
      reads this
    {
      Shaped(G()) && Acyclic(G())
    }

    constructor (actors: nat, locks: nat, self: int)
      ensures Valid() && |waiting| == actors && |holding| == locks && own == self
      ensures (forall a :: 0 <= a < actors ==> waiting[a] == NONE) && forall l :: 0 <= l < locks ==> holding[l] == NONE
    {
      waiting, holding, own := seq(actors, _ => NONE), seq(locks, _ => NONE), self;
      new;
      NobodyWaits(G());
    }

    /** Walk from the holder of `start` along what each actor waits for. It always comes to an end, and finds `target`
        exactly when some chain leads there. */
    method Check(start: nat, target: nat) returns (found: bool)
      requires Valid() && start < |holding| && target < |waiting|
      ensures found <==> holding[start] != NONE && Reaches(G(), holding[start], target)
    {
      hide Acyclic, Path, Reaches;
      var cur := holding[start];
      if cur == NONE {
        return false;
      }
      ghost var g := G();
      ghost var walk: seq<nat> := [cur];
      WalkStart(g, cur);
      while true
        invariant |walk| > 0 && Path(g, walk) && walk[0] == holding[start] && cur == walk[|walk| - 1]
        invariant 0 <= cur < |waiting| && |walk| <= |waiting|
        invariant target !in walk[..|walk| - 1]
        decreases |waiting| - |walk|
      {
        if cur == target {
          WalkFinds(g, walk, target);
          return true;
        }
        assert walk == walk[..|walk| - 1] + [cur];
        if waiting[cur] == NONE || holding[waiting[cur]] == NONE {
          WalkEnds(g, walk, target);
          return false;
        }
        WalkMore(g, walk, target);
        cur := holding[waiting[cur]];
        walk := walk + [cur];
      }
    }

    /** Actor `a` is about to wait for lock `l`: reported as a deadlock exactly when that would close a cycle. */
    method Wait(a: nat, l: nat) returns (r: Outcome)
      requires Valid() && a < |waiting| && l < |holding|
      modifies this
      ensures Valid()
      ensures l == own ==> r.Fine? && G() == old(G())
      ensures l != own ==> (r.Misuse? <==> old(waiting)[a] != NONE)
      ensures l != own ==> (r.Deadlock? <==> old(waiting)[a] == NONE && !Acyclic(Waits(old(G()), a, l)))
      ensures G() == if l != own && r.Fine? then Waits(old(G()), a, l) else old(G())
    {
      if l == own {
        return Fine;
      }
      if waiting[a] != NONE {
        return Misuse;
      }
      var found := Check(l, a);
      if found {
        ClosesCycle(G(), a, l);
        return Deadlock;
      }
      StaysAcyclic(G(), a, l);
      waiting := waiting[a := l];
      r := Fine;
    }

    /** The wait is over: `a` now holds `l`. */
    method Acquire(a: nat, l: nat) returns (r: Outcome)
      requires Valid() && a < |waiting| && l < |holding|
      modifies this
      ensures Valid() && !r.Deadlock? && (l == own ==> r.Fine?)
      ensures l != own ==> (r.Misuse? <==> old(waiting)[a] != l || old(holding)[l] != NONE)
      ensures if l != own && r.Fine? then waiting == old(waiting)[a := NONE] && holding == old(holding)[l := a]
              else G() == old(G())
    {
      if l == own {
        return Fine;
      }
      if waiting[a] != l || holding[l] != NONE {
        return Misuse;
      }
      ghost var g := G();
      holding := holding[l := a];
      waiting := waiting[a := NONE];
      HolderChange(g, G(), a);
      r := Fine;
    }

    /** `a` lets go of `l`. */
    method Release(a: nat, l: nat) returns (r: Outcome)
      requires Valid() && a < |waiting| && l < |holding|
      modifies this
      ensures Valid() && !r.Deadlock? && (l == own ==> r.Fine?)
      ensures l != own ==> (r.Misuse? <==> old(waiting)[a] != NONE || old(holding)[l] != a)
      ensures if l != own && r.Fine? then waiting == old(waiting) && holding == old(holding)[l := NONE]
              else G() == old(G())
    {
      if l == own {
        return Fine;
      }
      if waiting[a] != NONE || holding[l] != a {
        return Misuse;
      }
      ghost var g := G();
      holding := holding[l := NONE];
      HolderChange(g, G(), a);
      r := Fine;
    }
  }
}
