/** Balancing run queues: the busiest sends threads to the others, taking one queue's lock at a time. What a queue holds
    when its lock is taken is given, since it may have changed meanwhile; only its own CPU takes threads off a queue. */
module Migration {
  import Digits

  /** Everything on a list of queues. */
  ghost function All(qs: seq<seq<nat>>): multiset<nat>
  {
    if qs == [] then multiset{} else multiset(qs[0]) + All(qs[1..])
  }

  function Sum(ns: seq<nat>): nat
  {
    if ns == [] then 0 else Sum(ns[..|ns| - 1]) + ns[|ns| - 1]
  }

  /** An equal share, rounded up. */
  function Share(total: nat, cpus: nat): nat
    requires cpus > 0
  {
    (total + cpus - 1) / cpus
  }

  /** `share` each is enough for all, and one less would not be. */
  predicate EvenShare(share: nat, total: nat, cpus: nat) { total <= cpus * share < total + cpus }

  lemma ShareIsEven(total: nat, cpus: nat)
    requires cpus > 0
    ensures EvenShare(Share(total, cpus), total, cpus)
  {
    var q, r := (total + cpus - 1) / cpus, (total + cpus - 1) % cpus;
    assert total + cpus - 1 == cpus * q + r;
  }

  /** There is one such share. */
  lemma OneEvenShare(a: nat, b: nat, total: nat, cpus: nat)
    requires EvenShare(a, total, cpus) && EvenShare(b, total, cpus)
    ensures a == b
  {
    if a < b { ShareGap(a, b, cpus); } else if b < a { ShareGap(b, a, cpus); }
  }

  lemma ShareGap(a: nat, b: nat, cpus: nat)
    requires a < b
    ensures cpus * b >= cpus * a + cpus
  {
    Digits.MulMono(a + 1, b, cpus);
    Digits.Distrib(a, 1, cpus);
  }

  lemma ShareCovers(total: nat, cpus: nat)
    requires cpus > 0
    ensures Times(cpus, Share(total, cpus)) >= total
  {
    hide Share;
    ShareIsEven(total, cpus);
  }

  /** The counts of the queues add up to the number of threads on them. */
  lemma {:induction false} SumIsAll(qs: seq<seq<nat>>)
    ensures Sum(Lengths(qs)) == |All(qs)|
    decreases |qs|
  {
    if qs != [] {
      var c := |qs| - 1;
      SumIsAll(qs[..c]);
      assert Lengths(qs)[..c] == Lengths(qs[..c]);
      AllLast(qs);
    }
  }

  lemma {:induction false} AllLast(qs: seq<seq<nat>>)
    requires qs != []
    ensures All(qs) == All(qs[..|qs| - 1]) + multiset(qs[|qs| - 1])
    decreases |qs|
  {
    var n := |qs| - 1;
    assert All(qs) == multiset(qs[0]) + All(qs[1..]);
    if n > 0 {
      var rest := qs[1..];
      AllLast(rest);
      assert qs[..n][1..] == rest[..n - 1] && rest[n - 1] == qs[n];
      assert All(qs[..n]) == multiset(qs[0]) + All(rest[..n - 1]);
      hide All;
      Joined(multiset(qs[0]), All(rest[..n - 1]), multiset(qs[n]));
    }
  }

  lemma {:induction false} AllSet(qs: seq<seq<nat>>, c: nat, q: seq<nat>)
    requires c < |qs|
    ensures All(qs[c := q]) + multiset(qs[c]) == All(qs) + multiset(q)
    decreases |qs|
  {
    var rs := qs[c := q];
    assert All(rs) == multiset(rs[0]) + All(rs[1..]) && All(qs) == multiset(qs[0]) + All(qs[1..]);
    if c == 0 {
      assert rs[1..] == qs[1..];
      Swapped(multiset(q), All(qs[1..]), multiset(qs[0]));
    } else {
      AllSet(qs[1..], c - 1, q);
      assert rs[1..] == qs[1..][c - 1 := q];
      Grouped(multiset(qs[0]), All(rs[1..]), multiset(qs[c]), All(qs[1..]), multiset(q));
    }
  }

  lemma Joined(a: multiset<nat>, b: multiset<nat>, c: multiset<nat>)
    ensures a + (b + c) == (a + b) + c
  {
  }

  lemma Swapped(a: multiset<nat>, b: multiset<nat>, c: multiset<nat>)
    ensures (a + b) + c == (c + b) + a
  {
  }

  lemma Grouped(h: multiset<nat>, a: multiset<nat>, b: multiset<nat>, c: multiset<nat>, d: multiset<nat>)
    requires a + b == c + d
    ensures (h + a) + b == (h + c) + d
  {
    assert (h + a) + b == h + (a + b) && (h + c) + d == h + (c + d);
  }

  /** Count the queues: each other CPU's room up to the share adds up to at least what is sent. */
  function Room(counts: seq<nat>, me: nat, share: nat): nat
  {
    if counts == [] then 0
    else
      var c := |counts| - 1;
      Room(counts[..c], me, share) + if c == me || counts[c] >= share then 0 else share - counts[c]
  }

  /** `n` shares, kept symbolic. */
  function Times(n: nat, share: nat): nat { n * share }

  lemma TimesStep(n: nat, share: nat)
    ensures Times(n + 1, share) == Times(n, share) + share
  {
  }

  lemma {:induction false} RoomAtLeast(counts: seq<nat>, me: nat, share: nat)
    ensures Room(counts, me, share) + Sum(counts)
         >= Times(if me < |counts| then |counts| - 1 else |counts|, share) + (if me < |counts| then counts[me] else 0)
    decreases |counts|
  {
    hide Times;
    if counts != [] {
      var c := |counts| - 1;
      RoomAtLeast(counts[..c], me, share);
      if me < c { TimesStep(c - 1, share); } else { TimesStep(c, share); }
    } else {
      NoTimes(share);
    }
  }

  lemma NoTimes(share: nat)
    ensures Times(0, share) == 0
  {
  }

  /** So nothing has to come back for want of room. */
  lemma RoomSuffices(counts: seq<nat>, me: nat)
    requires me < |counts| && counts[me] >= Share(Sum(counts), |counts|)
    ensures Room(counts, me, Share(Sum(counts), |counts|)) >= counts[me] - Share(Sum(counts), |counts|)
  {
    var share := Share(Sum(counts), |counts|);
    ShareCovers(Sum(counts), |counts|);
    hide Share, Times, Room, Sum;
    RoomAtLeast(counts, me, share);
    TimesStep(|counts| - 1, share);
  }

  predicate Once(s: seq<nat>, t: nat) { forall i, j :: 0 <= i < j < |s| && s[i] == t ==> s[j] != t }

  /** Threads still to place: as many as remain to be sent, or those and the running thread, skipped and moved last. */
  predicate Victims(victims: seq<nat>, toSend: nat, cur: nat)
  {
    && Once(victims, cur)
    && (|victims| == toSend || (|victims| == toSend + 1 && victims[toSend] == cur))
  }

  /** Fill one other queue up to the share. The list of victims never runs out and the running thread is not sent. */
  method Fill(q: seq<nat>, victims: seq<nat>, toSend: nat, share: nat, cur: nat)
    returns (q2: seq<nat>, victims2: seq<nat>, toSend2: nat, ghost moved: seq<nat>)
    requires Victims(victims, toSend, cur)
    ensures Victims(victims2, toSend2, cur) && q2 == q + moved && cur !in moved
    ensures multiset(q2) + multiset(victims2) == multiset(q) + multiset(victims)
    ensures |q2| <= if |q| > share then |q| else share
    ensures toSend2 <= toSend && (toSend2 > 0 ==> |q2| >= share && toSend - toSend2 >= share - |q|)
    ensures cur in victims2 <==> cur in victims
  {
    hide Victims;
    q2, victims2, toSend2, moved := q, victims, toSend, [];
    while |q2| < share && toSend2 > 0
      invariant Victims(victims2, toSend2, cur) && toSend2 <= toSend && q2 == q + moved && cur !in moved
      invariant multiset(q2) + multiset(victims2) == multiset(q) + multiset(victims)
      invariant |q2| <= |q| || |q2| <= share
      invariant toSend - toSend2 >= |moved| && (cur in victims2 <==> cur in victims)
      decreases toSend2
    {
      HeadGoes(victims2, toSend2, cur);
      var t := victims2[0];
      if t == cur {
        victims2, toSend2 := victims2[1..] + [t], toSend2 - 1;
      } else {
        MoveOne(q2, victims2);
        assert q2 + [t] == q + (moved + [t]);
        q2, moved := q2 + [t], moved + [t];
        victims2, toSend2 := victims2[1..], toSend2 - 1;
      }
    }
  }

  lemma MoveOne(q: seq<nat>, victims: seq<nat>)
    requires victims != []
    ensures multiset(q + [victims[0]]) + multiset(victims[1..]) == multiset(q) + multiset(victims)
  {
    assert victims == [victims[0]] + victims[1..];
  }

  lemma HeadGoes(victims: seq<nat>, toSend: nat, cur: nat)
    requires Victims(victims, toSend, cur) && toSend > 0
    ensures victims != []
    ensures victims[0] == cur ==> Victims(victims[1..] + [cur], toSend - 1, cur)
    ensures victims[0] != cur ==> Victims(victims[1..], toSend - 1, cur) && (cur in victims[1..] <==> cur in victims)
    ensures multiset(victims[1..] + [victims[0]]) == multiset(victims)
  {
    assert victims == [victims[0]] + victims[1..];
    if victims[0] == cur {
      assert |victims| == toSend;
      var v := victims[1..] + [cur];
      forall i | 0 <= i < |v| - 1 ensures v[i] != cur {
        assert v[i] == victims[i + 1];
      }
    }
  }

  function Lengths(qs: seq<seq<nat>>): (r: seq<nat>)
    ensures |r| == |qs|
  {
    seq(|qs|, i requires 0 <= i < |qs| => |qs[i]|)
  }

  lemma {:induction false} RoomSame(a: seq<nat>, b: seq<nat>, me: nat, share: nat)
    requires |a| == |b| && forall c :: 0 <= c < |a| && c != me ==> a[c] == b[c]
    ensures Room(a, me, share) == Room(b, me, share)
    decreases |a|
  {
    if a != [] { RoomSame(a[..|a| - 1], b[..|b| - 1], me, share); }
  }

  /** Go round the other CPUs until everything is sent. If something is left, every one of them was filled. */
  method Spread(me: nat, cur: nat, share: nat, seen: seq<seq<nat>>, victims: seq<nat>, toSend: nat)
    returns (out: seq<seq<nat>>, victims2: seq<nat>, toSend2: nat)
    requires me < |seen| && Victims(victims, toSend, cur)
    ensures |out| == |seen| && out[me] == seen[me] && Victims(victims2, toSend2, cur)
    ensures (cur in victims2 <==> cur in victims)
    ensures All(out) + multiset(victims2) == All(seen) + multiset(victims)
    ensures forall c :: 0 <= c < |out| ==> Extended(seen[c], out[c], share, cur)
    ensures toSend2 <= toSend && (toSend2 > 0 ==> toSend - toSend2 >= Room(Lengths(seen), me, share))
  {
    hide All, Victims, Room, Extended;
    out, victims2, toSend2 := seen, victims, toSend;
    ghost var lens := Lengths(seen);
    NoRoom(me, share);
    forall c | 0 <= c < |seen| ensures Extended(seen[c], out[c], share, cur) { Unextended(seen[c], share, cur); }
    var i := 0;
    while i < |seen| && toSend2 > 0
      invariant 0 <= i <= |seen| && |out| == |seen| && out[me] == seen[me]
      invariant Victims(victims2, toSend2, cur) && (cur in victims2 <==> cur in victims) && toSend2 <= toSend
      invariant All(out) + multiset(victims2) == All(seen) + multiset(victims)
      invariant forall c :: 0 <= c < |out| ==> Extended(seen[c], out[c], share, cur)
      invariant forall c :: i <= c < |out| ==> out[c] == seen[c]
      invariant toSend2 > 0 ==> toSend - toSend2 >= Room(lens[..i], me, share)
    {
      RoomStep(lens, i, me, share);
      if i != me {
        ghost var v0 := victims2;
        var q; ghost var moved;
        q, victims2, toSend2, moved := Fill(out[i], victims2, toSend2, share, cur);
        AllSet(out, i, q);
        Exchanged(All(out), All(out[i := q]), multiset(out[i]), multiset(q), multiset(v0), multiset(victims2));
        Extends(out[i], moved, share, cur);
        out := out[i := q];
      }
      i := i + 1;
    }
    assert i == |seen| ==> lens[..i] == lens;
  }

  lemma NoRoom(me: nat, share: nat)
    ensures Room([], me, share) == 0
  {
  }

  lemma RoomStep(lens: seq<nat>, i: nat, me: nat, share: nat)
    requires i < |lens|
    ensures Room(lens[..i + 1], me, share) == Room(lens[..i], me, share) + if i == me || lens[i] >= share then 0
            else share - lens[i]
  {
    assert lens[..i + 1][..i] == lens[..i];
  }

  lemma Unextended(q: seq<nat>, share: nat, cur: nat)
    ensures Extended(q, q, share, cur)
  {
  }

  lemma Extends(q: seq<nat>, moved: seq<nat>, share: nat, cur: nat)
    requires cur !in moved && |q + moved| <= if |q| > share then |q| else share
    ensures Extended(q, q + moved, share, cur)
  {
    assert (q + moved)[|q|..] == moved;
  }

  /** Queue `q` with threads other than `cur` added, none of them beyond the share. */
  predicate Extended(q: seq<nat>, q2: seq<nat>, share: nat, cur: nat)
  {
    q <= q2 && cur !in q2[|q|..] && (|q2| <= |q| || |q2| <= share)
  }

  lemma Exchanged(a: multiset<nat>, a2: multiset<nat>, q: multiset<nat>, q2: multiset<nat>, v: multiset<nat>,
                  v2: multiset<nat>)
    requires a2 + q == a + q2 && q2 + v2 == q + v
    ensures a2 + v2 == a + v
  {
    assert (a2 + v2) + q == (a2 + q) + v2 == (a + q2) + v2 == a + (q2 + v2) == a + (q + v) == (a + v) + q;
    assert a2 + v2 == (a2 + v2) + q - q && a + v == (a + v) + q - q;
  }

  lemma Conserved(o: multiset<nat>, s: multiset<nat>, own: seq<nat>, late: seq<nat>, left: seq<nat>, victims: seq<nat>,
                  mine: seq<nat>)
    requires o + multiset(left) == s + multiset(victims) && multiset(own) + multiset(victims) == multiset(mine)
    ensures o + multiset(own + late + left) == s + multiset(mine) + multiset(late)
  {
    assert multiset(own + late + left) == multiset(own) + multiset(late) + multiset(left);
    Rearranged(o, s, multiset(left), multiset(victims), multiset(own), multiset(late), multiset(mine));
  }

  lemma Rearranged(o: multiset<nat>, s: multiset<nat>, l: multiset<nat>, v: multiset<nat>, w: multiset<nat>,
                   t: multiset<nat>, m: multiset<nat>)
    requires o + l == s + v && w + v == m
    ensures o + (w + t + l) == s + m + t
  {
    calc {
      o + (w + t + l);
      { Regroup(o, l, w, t); }
      (o + l) + (w + t);
      (s + v) + (w + t);
      { Regroup2(s, v, w, t); }
      s + (w + v) + t;
    }
  }

  lemma Regroup(o: multiset<nat>, l: multiset<nat>, w: multiset<nat>, t: multiset<nat>)
    ensures o + (w + t + l) == (o + l) + (w + t)
  {
  }

  lemma Regroup2(s: multiset<nat>, v: multiset<nat>, w: multiset<nat>, t: multiset<nat>)
    ensures (s + v) + (w + t) == s + (w + v) + t
  {
  }

  /** The tail of a queue holds the running thread at most once. */
  lemma Surplus(mine: seq<nat>, k: nat, cur: nat)
    requires k <= |mine| && Once(mine, cur)
    ensures Victims(mine[|mine| - k..], k, cur)
  {
  }

  /** The running CPU `me`, on which `cur` is the current thread, sends its surplus over an equal share to the others.
      `counts` are the lengths first read; `mine` is the own queue when threads are taken off it and `late` what is
      added to it before leftovers go back; `seen[c]` is queue c when its lock is taken. A queue is added to at its end,
      never the running thread, and never so that it would hold more than an equal share. */
  method Migrate(me: nat, cur: nat, counts: seq<nat>, mine: seq<nat>, seen: seq<seq<nat>>, late: seq<nat>)
    returns (out: seq<seq<nat>>, mine2: seq<nat>)
    requires me < |counts| == |seen| && seen[me] == [] && counts[me] <= |mine| && Once(mine, cur)
    ensures |out| == |seen| && out[me] == []
    ensures All(out) + multiset(mine2) == All(seen) + multiset(mine) + multiset(late)
    ensures forall c :: 0 <= c < |out| ==> seen[c] <= out[c] && cur !in out[c][|seen[c]|..]
    ensures forall c :: 0 <= c < |out| && out[c] != seen[c] ==> |counts| * |out[c]| < Sum(counts) + |counts|
    ensures counts == Lengths(seen[me := mine]) && late == [] ==>
            Balanced(cur, |counts|, |All(seen[me := mine])|, mine, mine2)
  {
    hide Victims, All, Room, Share, Sum, Extended, EvenShare, Balanced, Once, Lengths;
    var share := Share(Sum(counts), |counts|);
    ShareIsEven(Sum(counts), |counts|);
    var myCount := counts[me];
    out := seen;
    if myCount < share {
      mine2 := mine + late;
      if counts == Lengths(seen[me := mine]) && late == [] { Unsent(me, cur, counts, mine, seen, share); }
      return;
    }
    var toSend := myCount - share;
    var own, victims := TakeTail(mine, toSend);
    Surplus(mine, toSend, cur);
    ghost var sent := victims;
    var rest;
    out, victims, rest := Spread(me, cur, share, seen, victims, toSend);
    ghost var left := victims;
    mine2 := PutBack(own + late, victims);
    Conserved(All(out), All(seen), own, late, left, sent, mine);
    forall c | 0 <= c < |out|
      ensures seen[c] <= out[c] && cur !in out[c][|seen[c]|..]
      ensures out[c] != seen[c] ==> |counts| * |out[c]| < Sum(counts) + |counts|
    {
      WithinShare(seen[c], out[c], share, cur, Sum(counts), |counts|);
    }
    if counts == Lengths(seen[me := mine]) && late == [] {
      RoomSuffices(counts, me);
      OthersCounted(me, counts, mine, seen);
      RoomSame(counts, Lengths(seen), me, share);
      NothingLeft(left, cur);
      Settled(me, cur, counts, mine, mine2, seen, share);
    }
  }

  lemma OthersCounted(me: nat, counts: seq<nat>, mine: seq<nat>, seen: seq<seq<nat>>)
    requires me < |counts| == |seen| && counts == Lengths(seen[me := mine])
    ensures counts[me] == |mine| && forall c :: 0 <= c < |counts| && c != me ==> counts[c] == Lengths(seen)[c]
  {
  }

  lemma Unsent(me: nat, cur: nat, counts: seq<nat>, mine: seq<nat>, seen: seq<seq<nat>>, share: nat)
    requires me < |counts| == |seen| && counts == Lengths(seen[me := mine]) && counts[me] < share
    requires EvenShare(share, Sum(counts), |counts|)
    ensures Balanced(cur, |counts|, |All(seen[me := mine])|, mine, mine + [])
  {
    SumIsAll(seen[me := mine]);
    hide All, Sum, EvenShare;
    assert mine + [] == mine;
  }

  lemma Settled(me: nat, cur: nat, counts: seq<nat>, mine: seq<nat>, mine2: seq<nat>, seen: seq<seq<nat>>, share: nat)
    requires me < |counts| == |seen| && counts == Lengths(seen[me := mine]) && share <= |mine|
    requires EvenShare(share, Sum(counts), |counts|) && |mine2| == share + if cur in mine[share..] then 1 else 0
    ensures Balanced(cur, |counts|, |All(seen[me := mine])|, mine, mine2)
  {
    SumIsAll(seen[me := mine]);
    hide All, Sum, EvenShare;
  }

  lemma WithinShare(q: seq<nat>, q2: seq<nat>, share: nat, cur: nat, total: nat, cpus: nat)
    requires Extended(q, q2, share, cur) && EvenShare(share, total, cpus)
    ensures q <= q2 && cur !in q2[|q|..] && (q2 != q ==> cpus * |q2| < total + cpus)
  {
    if |q2| <= |q| {
      assert q2 == q;
    } else {
      Digits.MulMono(|q2|, share, cpus);
    }
  }

  lemma NothingLeft(left: seq<nat>, cur: nat)
    ensures Victims(left, 0, cur) ==> |left| == if cur in left then 1 else 0
  {
  }

  /** Take the last `k` threads off a queue, keeping their order. */
  method TakeTail(q: seq<nat>, k: nat) returns (own: seq<nat>, victims: seq<nat>)
    requires k <= |q|
    ensures own == q[..|q| - k] && victims == q[|q| - k..] && multiset(own) + multiset(victims) == multiset(q)
  {
    own, victims := q, [];
    var i := 0;
    while i < k
      invariant i <= k && own == q[..|q| - i] && victims == q[|q| - i..]
    {
      var t := own[|own| - 1];
      own, victims := own[..|own| - 1], [t] + victims;
      i := i + 1;
    }
    assert own + victims == q;
  }

  /** Put leftovers back one by one. */
  method PutBack(q: seq<nat>, left: seq<nat>) returns (q2: seq<nat>)
    ensures q2 == q + left
  {
    q2 := q;
    var victims := left;
    while victims != []
      invariant q2 + victims == q + left
      decreases |victims|
    {
      assert q2 + victims == (q2 + [victims[0]]) + victims[1..];
      q2, victims := q2 + [victims[0]], victims[1..];
    }
  }

  /** With the queues unchanged meanwhile, the sender ends at an equal share, plus one exactly when the running thread
      was among those it would have sent; with less than its share it keeps what it has. */
  ghost predicate Balanced(cur: nat, cpus: nat, total: nat, mine: seq<nat>, mine2: seq<nat>)
  {
    exists share: nat :: EvenShare(share, total, cpus) &&
      if |mine| < share then mine2 == mine else |mine2| == share + if cur in mine[share..] then 1 else 0
  }
}
