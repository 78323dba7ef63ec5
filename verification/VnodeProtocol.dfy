/** References to vnodes and the race between letting the last one go and finding the vnode again in the table: a step
    machine over any number of threads. Each step is one stretch under the vnode's count lock or the big lock. */
module VnodeProtocol {
  /** Where a thread is: elsewhere; in decref, having kept the last reference to pass to reclaim; in reclaim past the
      check, holding the big lock. */
  datatype Pc = Elsewhere | Passing(v: nat) | Erasing(v: nat)

  /** `count` and `ino` are the fields of the vnodes that exist; `table` is the file system's list of them; `held` are
      the references in anybody's hands; `big` is the thread holding the big lock. */
  datatype State = State(count: map<nat, nat>, ino: map<nat, nat>, table: seq<nat>, held: multiset<nat>,
                         pc: seq<Pc>, big: int)

  datatype Step =
    | Incref(v: nat)
    | Decref(t: nat, v: nat)
    | ReclaimCheck(t: nat)
    | ReclaimFinish(t: nat)
    | Load(i: nat, fresh0: nat)

  const FREE := -1

  /** The first vnode in the table for inode `i`. */
  function Find(ino: map<nat, nat>, table: seq<nat>, i: nat): (k: int)
    ensures -1 <= k < |table|
    ensures k >= 0 ==> table[k] in ino && ino[table[k]] == i
    ensures k < 0 ==> forall j :: 0 <= j < |table| && table[j] in ino ==> ino[table[j]] != i
  {
    if table == [] then -1
    else if table[0] in ino && ino[table[0]] == i then 0
    else
      var k := Find(ino, table[1..], i);
      assert forall j :: 0 < j < |table| ==> table[j] == table[1..][j - 1];
      if k < 0 then -1 else k + 1
  }

  function Without(table: seq<nat>, v: nat): seq<nat>
  {
    if table == [] then [] else if table[0] == v then table[1..] else [table[0]] + Without(table[1..], v)
  }

  predicate Enabled(s: State, a: Step)
  {
    match a
    // A reference can be copied only by someone who has one.
    case Incref(v) => v in s.held && v in s.count
    case Decref(t, v) => t < |s.pc| && s.pc[t] == Elsewhere && v in s.held && v in s.count
    case ReclaimCheck(t) => t < |s.pc| && s.pc[t].Passing? && s.big == FREE && s.pc[t].v in s.count
    case ReclaimFinish(t) => t < |s.pc| && s.pc[t].Erasing? && s.big == t && s.pc[t].v in s.count
    case Load(i, v) => s.big == FREE && v !in s.count && forall k :: 0 <= k < |s.table| ==> s.table[k] in s.count
  }

  function Next(s: State, a: Step): State
    requires Enabled(s, a)
  {
    match a
    case Incref(v) => s.(count := s.count[v := s.count[v] + 1], held := s.held + multiset{v})
    case Decref(t, v) =>
      if s.count[v] > 1 then s.(count := s.count[v := s.count[v] - 1], held := s.held - multiset{v})
      else s.(held := s.held - multiset{v}, pc := s.pc[t := Passing(v)])
    case ReclaimCheck(t) =>
      var v := s.pc[t].v;
      if s.count[v] != 1 then s.(count := s.count[v := if s.count[v] > 0 then s.count[v] - 1 else 0],
          pc := s.pc[t := Elsewhere])
      else s.(pc := s.pc[t := Erasing(v)], big := t)
    case ReclaimFinish(t) =>
      var v := s.pc[t].v;
      s.(count := s.count - {v}, ino := s.ino - {v}, table := Without(s.table, v), pc := s.pc[t := Elsewhere],
          big := FREE)
    case Load(i, v) =>
      var k := Find(s.ino, s.table, i);
      if k >= 0 then s.(count := s.count[s.table[k] := s.count[s.table[k]] + 1], held := s.held + multiset{s.table[k]})
      else s.(count := s.count[v := 1], ino := s.ino[v := i], table := s.table + [v], held := s.held + multiset{v})
  }

  /** Threads carrying a reference to `v` into reclaim. */
  predicate Carries(p: Pc, v: nat) { !p.Elsewhere? && p.v == v }

  ghost function Pending(s: State, v: nat): set<nat>
  {
    set t: nat | t < |s.pc| && Carries(s.pc[t], v)
  }

  ghost predicate CountOk(s: State, v: nat)
  {
    if v in s.count then s.count[v] == s.held[v] + |Pending(s, v)| && s.count[v] >= 1 && |Pending(s, v)| <= 1
    else s.held[v] == 0 && Pending(s, v) == {}
  }

  ghost predicate TableOk(s: State)
  {
    && s.ino.Keys == s.count.Keys
    && (forall v :: v in s.table <==> v in s.count)
    && (forall i, j :: 0 <= i < j < |s.table| ==> s.table[i] != s.table[j])
    && (forall v, w :: v in s.ino && w in s.ino && s.ino[v] == s.ino[w] ==> v == w)
  }

  /** Who holds the big lock in reclaim has the only reference. */
  ghost predicate ErasingOk(s: State)
  {
    && (s.big == FREE || (0 <= s.big < |s.pc| && s.pc[s.big].Erasing?))
    && forall t :: 0 <= t < |s.pc| && s.pc[t].Erasing? ==> s.big == t && s.pc[t].v in s.count && s.count[s.pc[t].v] == 1
  }

  ghost predicate Inv(s: State) { (forall v :: CountOk(s, v)) && TableOk(s) && ErasingOk(s) }

  ghost predicate Start(s: State)
  {
    && s.count == map[] && s.ino == map[] && s.table == [] && s.held == multiset{} && s.big == FREE
    && forall t :: 0 <= t < |s.pc| ==> s.pc[t] == Elsewhere
  }

  lemma StartInv(s: State)
    requires Start(s)
    ensures Inv(s)
  {
    forall v ensures CountOk(s, v) { assert Pending(s, v) == {}; }
  }

  // ---- Each step keeps it ----

  lemma PendingMove(s: State, s2: State, t: nat, v: nat)
    requires t < |s.pc| == |s2.pc| && s2.pc == s.pc[t := s2.pc[t]]
    ensures Pending(s2, v) == if Carries(s2.pc[t], v) then Pending(s, v) + {t} else Pending(s, v) - {t}
  {
  }

  lemma IncrefKeeps(s: State, v: nat)
    requires Inv(s) && Enabled(s, Incref(v))
    ensures Inv(Next(s, Incref(v)))
  {
    var s2 := Next(s, Incref(v));
    assert CountOk(s, v);
    forall w ensures CountOk(s2, w) { assert CountOk(s, w) && Pending(s2, w) == Pending(s, w); }
    forall t | 0 <= t < |s.pc| && s.pc[t].Erasing? ensures s.pc[t].v != v {
      ErasingAlone(s, t);
    }
  }

  /** Past the check, nobody holds the vnode and nobody else is letting go of it. */
  lemma ErasingAlone(s: State, t: nat)
    requires Inv(s) && t < |s.pc| && s.pc[t].Erasing?
    ensures s.held[s.pc[t].v] == 0 && Pending(s, s.pc[t].v) == {t}
  {
    var v := s.pc[t].v;
    assert CountOk(s, v);
    assert t in Pending(s, v);
    assert Pending(s, v) == {t} + (Pending(s, v) - {t});
  }

  lemma DecrefKeeps(s: State, t: nat, v: nat)
    requires Inv(s) && Enabled(s, Decref(t, v))
    ensures Inv(Next(s, Decref(t, v)))
  {
    var s2 := Next(s, Decref(t, v));
    assert CountOk(s, v);
    forall w ensures CountOk(s2, w) {
      assert CountOk(s, w);
      if s.count[v] > 1 { assert Pending(s2, w) == Pending(s, w); } else { PendingMove(s, s2, t, w); }
      assert t !in Pending(s, w);
    }
    forall u | 0 <= u < |s.pc| && s.pc[u].Erasing? ensures s.pc[u].v != v && u != t { ErasingAlone(s, u); }
  }

  lemma ReclaimCheckKeeps(s: State, t: nat)
    requires Inv(s) && Enabled(s, ReclaimCheck(t))
    ensures Inv(Next(s, ReclaimCheck(t))) && s.count[s.pc[t].v] > 0
  {
    var s2 := Next(s, ReclaimCheck(t));
    var v := s.pc[t].v;
    assert CountOk(s, v);
    forall w ensures CountOk(s2, w) { ReclaimCheckCount(s, t, w); }
    hide CountOk;
  }

  lemma ReclaimCheckCount(s: State, t: nat, w: nat)
    requires Inv(s) && Enabled(s, ReclaimCheck(t))
    ensures CountOk(Next(s, ReclaimCheck(t)), w)
  {
    var s2 := Next(s, ReclaimCheck(t));
    var v := s.pc[t].v;
    assert CountOk(s, v) && CountOk(s, w) && t in Pending(s, v);
    assert Pending(s, v) == {t} + (Pending(s, v) - {t});
    PendingMove(s, s2, t, w);
    hide TableOk, ErasingOk;
    assert w != v ==> t !in Pending(s, w);
  }

  lemma {:induction false} WithoutIs(table: seq<nat>, v: nat)
    requires forall i, j :: 0 <= i < j < |table| ==> table[i] != table[j]
    ensures forall x :: x in Without(table, v) <==> x in table && x != v
    ensures forall i, j :: 0 <= i < j < |Without(table, v)| ==> Without(table, v)[i] != Without(table, v)[j]
    decreases |table|
  {
    if table != [] {
      var rest := table[1..];
      WithoutIs(rest, v);
      assert table == [table[0]] + rest;
      forall x | x in rest ensures x != table[0] {
        var j :| 0 <= j < |rest| && rest[j] == x;
        assert table[j + 1] == x;
      }
      var w := Without(rest, v);
      assert forall j :: 0 <= j < |w| ==> w[j] in w;
      if table[0] == v {
        assert Without(table, v) == rest;
        assert forall i, j :: 0 <= i < j < |rest| ==> rest[i] != rest[j];
      } else {
        assert Without(table, v) == [table[0]] + w;
      }
    }
  }

  lemma ReclaimFinishKeeps(s: State, t: nat)
    requires Inv(s) && Enabled(s, ReclaimFinish(t))
    ensures Inv(Next(s, ReclaimFinish(t)))
  {
    var s2 := Next(s, ReclaimFinish(t));
    var v := s.pc[t].v;
    ErasingAlone(s, t);
    WithoutIs(s.table, v);
    forall w ensures CountOk(s2, w) {
      assert CountOk(s, w);
      PendingMove(s, s2, t, w);
      assert w != v ==> t !in Pending(s, w);
    }
  }

  lemma LoadKeeps(s: State, i: nat, v: nat)
    requires Inv(s) && Enabled(s, Load(i, v))
    ensures Inv(Next(s, Load(i, v)))
  {
    var s2 := Next(s, Load(i, v));
    var k := Find(s.ino, s.table, i);
    assert CountOk(s, v);
    forall w ensures CountOk(s2, w) { assert CountOk(s, w) && Pending(s2, w) == Pending(s, w); }
    hide CountOk;
    LoadTable(s, i, v);
    LoadErasing(s, i, v);
  }

  lemma LoadTable(s: State, i: nat, v: nat)
    requires TableOk(s) && Enabled(s, Load(i, v))
    ensures TableOk(Next(s, Load(i, v)))
  {
    assert v !in s.table;
    if Find(s.ino, s.table, i) < 0 {
      forall w | w in s.ino ensures s.ino[w] != i {
        var j :| 0 <= j < |s.table| && s.table[j] == w;
      }
    }
  }

  lemma LoadErasing(s: State, i: nat, v: nat)
    requires ErasingOk(s) && Enabled(s, Load(i, v))
    ensures ErasingOk(Next(s, Load(i, v)))
  {
  }

  lemma StepKeeps(s: State, a: Step)
    requires Inv(s) && Enabled(s, a)
    ensures Inv(Next(s, a))
  {
    hide Inv, Next;
    match a
    case Incref(v) => IncrefKeeps(s, v);
    case Decref(t, v) => DecrefKeeps(s, t, v);
    case ReclaimCheck(t) => ReclaimCheckKeeps(s, t);
    case ReclaimFinish(t) => ReclaimFinishKeeps(s, t);
    case Load(i, v) => LoadKeeps(s, i, v);
  }

  ghost predicate Run(run: seq<State>, steps: seq<Step>)
  {
    |run| == |steps| + 1 && Start(run[0]) && forall n :: 0 <= n < |steps| ==> Taken(run, steps, n)
  }

  /** Step `n` of the run. */
  ghost predicate Taken(run: seq<State>, steps: seq<Step>, n: nat)
  {
    n < |steps| && |run| == |steps| + 1 && Enabled(run[n], steps[n]) && run[n + 1] == Next(run[n], steps[n])
  }

  lemma {:induction false} RunInv(run: seq<State>, steps: seq<Step>, n: nat)
    requires Run(run, steps) && n < |run|
    ensures Inv(run[n])
    decreases n
  {
    hide Inv, Next;
    if n == 0 {
      StartInv(run[0]);
    } else {
      RunInv(run, steps, n - 1);
      assert Taken(run, steps, n - 1);
      StepKeeps(run[n - 1], steps[n - 1]);
    }
  }

  /** In every reachable state the count of a vnode is the references in hand plus those on their way into reclaim, of
      which there is at most one; a vnode somebody holds exists; and no inode has two. */
  lemma ReferencesAccounted(run: seq<State>, steps: seq<Step>, n: nat, v: nat)
    requires Run(run, steps) && n < |run|
    ensures v in run[n].count ==> run[n].count[v] == run[n].held[v] + |Pending(run[n], v)|
    ensures |Pending(run[n], v)| <= 1
    ensures v in run[n].held || Pending(run[n], v) != {} ==> v in run[n].count && v in run[n].table
    ensures forall i, j :: 0 <= i < j < |run[n].table| ==>
              run[n].table[i] in run[n].ino && run[n].table[j] in run[n].ino
                  && run[n].ino[run[n].table[i]] != run[n].ino[run[n].table[j]]
  {
    RunInv(run, steps, n);
    assert CountOk(run[n], v);
  }

  /** When a vnode is destroyed, its count is one, nobody holds it, and no other thread is letting go of it. */
  lemma DestroyedIsUnheld(run: seq<State>, steps: seq<Step>, n: nat)
    requires Run(run, steps) && n < |steps| && steps[n].ReclaimFinish? && Taken(run, steps, n)
    ensures var v := run[n].pc[steps[n].t].v;
            && v in run[n].table && run[n].count[v] == 1 && run[n].held[v] == 0 && Pending(run[n], v) == {steps[n].t}
            && v !in run[n + 1].count && v !in run[n + 1].table && v !in run[n + 1].held
  {
    RunInv(run, steps, n);
    RunInv(run, steps, n + 1);
    assert Taken(run, steps, n);
    ErasingAlone(run[n], steps[n].t);
    assert CountOk(run[n + 1], run[n].pc[steps[n].t].v);
  }

  /** A reclaim that finds the vnode picked up again gives back exactly the reference it was passed. */
  lemma BusyReclaim(run: seq<State>, steps: seq<Step>, n: nat)
    requires Run(run, steps) && n < |steps| && steps[n].ReclaimCheck? && Taken(run, steps, n)
    requires run[n].count[run[n].pc[steps[n].t].v] != 1
    ensures var v := run[n].pc[steps[n].t].v;
            && run[n].count[v] > 1 && v in run[n + 1].count
            && run[n + 1].count[v] == run[n].count[v] - 1 == run[n + 1].held[v]
            && run[n + 1].held == run[n].held && Pending(run[n + 1], v) == {}
  {
    assert Taken(run, steps, n);
    var v, t := run[n].pc[steps[n].t].v, steps[n].t;
    RunInv(run, steps, n);
    RunInv(run, steps, n + 1);
    assert CountOk(run[n], v) && CountOk(run[n + 1], v) && t in Pending(run[n], v);
    PendingMove(run[n], run[n + 1], t, v);
    assert Pending(run[n], v) == {t} + (Pending(run[n], v) - {t});
  }

  /** Nothing about any vnode but `v` differs. */
  ghost predicate OthersSame(s: State, s2: State, v: nat)
  {
    && (forall w :: w != v ==> (w in s2.count <==> w in s.count) && (w in s2.ino <==> w in s.ino))
    && (forall w :: w != v && w in s.count && w in s2.count ==> s2.count[w] == s.count[w])
    && (forall w :: w != v && w in s.ino && w in s2.ino ==> s2.ino[w] == s.ino[w])
  }

  /** Loading inode `i` gives one reference more, to the vnode of that inode: the one in the table if there is one,
      otherwise a new one, which joins the table. */
  lemma LoadGives(run: seq<State>, steps: seq<Step>, n: nat) returns (v: nat)
    requires Run(run, steps) && n < |steps| && steps[n].Load? && Taken(run, steps, n)
    ensures var s, s2, i := run[n], run[n + 1], steps[n].i;
            && s2.held == s.held + multiset{v} && s2.pc == s.pc && s2.big == s.big && OthersSame(s, s2, v)
            && v in s2.count && v in s2.ino && s2.ino[v] == i && v in s2.table
            && (v in s.table <==> exists w :: w in s.ino && s.ino[w] == i)
            && (v in s.table ==> v in s.ino && s.ino[v] == i && s2.count[v] == s.count[v] + 1 && s2.table == s.table)
            && (v !in s.table ==>
                  v == steps[n].fresh0 && v !in s.count && s2.count[v] == 1 && s2.table == s.table + [v])
  {
    var s, i := run[n], steps[n].i;
    RunInv(run, steps, n);
    hide CountOk;
    var k := Find(s.ino, s.table, i);
    v := if k >= 0 then s.table[k] else steps[n].fresh0;
    if k < 0 {
      forall w | w in s.ino ensures s.ino[w] != i {
        var j :| 0 <= j < |s.table| && s.table[j] == w;
      }
    }
  }

  /** VOP_INCREF gives one reference more to the vnode it names, and does nothing else. */
  lemma IncrefGives(run: seq<State>, steps: seq<Step>, n: nat)
    requires Run(run, steps) && n < |steps| && steps[n].Incref? && Taken(run, steps, n)
    ensures var s, s2, v := run[n], run[n + 1], steps[n].v;
            && s2.held == s.held + multiset{v} && v in s.count && v in s2.count && s2.count[v] == s.count[v] + 1
            && OthersSame(s, s2, v) && s2.ino == s.ino && s2.table == s.table && s2.pc == s.pc && s2.big == s.big
  {
  }

  /** VOP_DECREF takes one reference to the vnode out of somebody's hands. Unless it was the last, the count falls with
      it; the last is kept in the count and passed on to reclaim. */
  lemma DecrefTakes(run: seq<State>, steps: seq<Step>, n: nat)
    requires Run(run, steps) && n < |steps| && steps[n].Decref? && Taken(run, steps, n)
    ensures var s, s2, v, t := run[n], run[n + 1], steps[n].v, steps[n].t;
            && s2.held + multiset{v} == s.held && v in s.count && v in s2.count && s.count[v] >= 1
            && OthersSame(s, s2, v) && s2.ino == s.ino && s2.table == s.table && s2.big == s.big
            && (s.held[v] + |Pending(s, v)| > 1 ==> s2.count[v] == s.count[v] - 1 && s2.pc == s.pc)
            && (s.held[v] + |Pending(s, v)| == 1 ==> s2.count[v] == 1 && Pending(s2, v) == {t})
            && (forall u :: 0 <= u < |s.pc| && u != t ==> |s2.pc| == |s.pc| && s2.pc[u] == s.pc[u])
  {
    var s, s2, v, t := run[n], run[n + 1], steps[n].v, steps[n].t;
    RunInv(run, steps, n);
    assert CountOk(s, v);
    if s.count[v] == 1 { PendingMove(s, s2, t, v); }
  }

  /** Reclaim goes ahead, with the big lock, exactly when its reference is the only one; else it is over. */
  lemma ReclaimGoesAhead(run: seq<State>, steps: seq<Step>, n: nat)
    requires Run(run, steps) && n < |steps| && steps[n].ReclaimCheck? && Taken(run, steps, n)
    ensures var s, s2, t, v := run[n], run[n + 1], steps[n].t, run[n].pc[steps[n].t].v;
            && |s2.pc| == |s.pc| && (s2.pc[t] == Erasing(v) || s2.pc[t] == Elsewhere)
            && (s2.pc[t] == Erasing(v) <==> v !in s.held)
            && (s2.pc[t] == Erasing(v) ==> s2 == s.(pc := s2.pc, big := t))
            && (s2.pc[t] == Elsewhere ==>
                  OthersSame(s, s2, v) && s2.ino == s.ino && s2.table == s.table && s2.big == FREE)
            && (forall u :: 0 <= u < |s.pc| && u != t ==> s2.pc[u] == s.pc[u])
  {
    var s, t := run[n], steps[n].t;
    var v := s.pc[t].v;
    RunInv(run, steps, n);
    assert CountOk(s, v) && t in Pending(s, v);
    assert Pending(s, v) == {t} + (Pending(s, v) - {t});
  }

  /** Finishing reclaim takes its vnode, and no other, out of existence and off the table, and frees the big lock. */
  lemma ReclaimEnds(run: seq<State>, steps: seq<Step>, n: nat)
    requires Run(run, steps) && n < |steps| && steps[n].ReclaimFinish? && Taken(run, steps, n)
    ensures var s, s2, t, v := run[n], run[n + 1], steps[n].t, run[n].pc[steps[n].t].v;
            && v !in s2.count && v !in s2.ino && OthersSame(s, s2, v) && s2.held == s.held && s2.big == FREE
            && (forall w :: w in s2.table <==> w in s.table && w != v)
            && s2.pc == s.pc[t := Elsewhere]
  {
    RunInv(run, steps, n);
    hide CountOk;
    WithoutIs(run[n].table, run[n].pc[steps[n].t].v);
  }
}
