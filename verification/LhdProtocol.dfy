/** The disk driver's two-semaphore protocol: `clear` admits one thread at a time to the card and its buffer, `done`
    carries one completion from the interrupt handler to it. A step machine over any number of callers; P and V are
    steps of their own. */
module LhdProtocol {
  /** One sector's transfer. */
  datatype Request = Request(sector: nat, write: bool, data: int)

  datatype Code = Success | InvalidSector | MediaError

  /** A thread in the I/O function: not in a sector's turn; past P(clear); with the buffer ready; waiting for the
      interrupt; past P(done). */
  datatype Pc = Outside | Cleared(q: Request) | Ready(q: Request) | Started(q: Request) | Answered(q: Request)

  datatype Device = Idle | Working(sector: nat, write: bool) | Finished(code: Code)

  /** `answers` logs what each turn returned: the thread, its request, the code and for a read the data. */
  datatype Answer = Answer(t: nat, q: Request, code: Code, data: int, faulted: bool)

  datatype State = State(clear: nat, done: nat, pc: seq<Pc>, dev: Device, sector: nat, buf: int, result: Code,
                         disk: map<nat, int>, answers: seq<Answer>)

  datatype Step =
    | Enter(t: nat, q: Request)     // P(lh_clear)
    | Fault(t: nat)                 // the copy into the buffer fails: V(lh_clear)
    | Fill(t: nat)                  // copy into the buffer, or nothing to copy
    | Go(t: nat)                    // sector and status registers
    | Complete(code: Code)          // the device finishes
    | Interrupt                     // the handler: save the result, V(lh_done)
    | Collect(t: nat)               // P(lh_done)
    | Leave(t: nat, faulted: bool)  // read the result, copy out, V(lh_clear)

  predicate Enabled(s: State, a: Step)
  {
    match a
    case Enter(t, q) => t < |s.pc| && s.pc[t] == Outside && s.clear > 0
    case Fault(t) => t < |s.pc| && s.pc[t].Cleared? && s.pc[t].q.write
    case Fill(t) => t < |s.pc| && s.pc[t].Cleared?
    case Go(t) => t < |s.pc| && s.pc[t].Ready?
    case Complete(code) => s.dev.Working? && (code == Success ==> s.dev.sector in s.disk)
    case Interrupt => true
    case Collect(t) => t < |s.pc| && s.pc[t].Started? && s.done > 0
    case Leave(t, faulted) => t < |s.pc| && s.pc[t].Answered?
  }

  function Next(s: State, a: Step): State
    requires Enabled(s, a)
  {
    match a
    case Enter(t, q) => s.(clear := s.clear - 1, pc := s.pc[t := Cleared(q)])
    case Fault(t) =>
      s.(clear := s.clear + 1, pc := s.pc[t := Outside],
         answers := s.answers + [Answer(t, s.pc[t].q, MediaError, 0, true)])
    case Fill(t) =>
      s.(buf := if s.pc[t].q.write then s.pc[t].q.data else s.buf, pc := s.pc[t := Ready(s.pc[t].q)])
    case Go(t) =>
      s.(sector := s.pc[t].q.sector, dev := Working(s.pc[t].q.sector, s.pc[t].q.write),
          pc := s.pc[t := Started(s.pc[t].q)])
    case Complete(code) =>
      var s2 := s.(dev := Finished(code));
      if code != Success then s2
      else if s.dev.write then s2.(disk := s.disk[s.dev.sector := s.buf])
      else s2.(buf := s.disk[s.dev.sector])
    case Interrupt =>
      if s.dev.Finished? then s.(dev := Idle, result := s.dev.code, done := s.done + 1) else s
    case Collect(t) => s.(done := s.done - 1, pc := s.pc[t := Answered(s.pc[t].q)])
    case Leave(t, faulted) =>
      s.(clear := s.clear + 1, pc := s.pc[t := Outside],
         answers := s.answers + [Answer(t, s.pc[t].q, s.result, s.buf, faulted)])
  }

  ghost function Inside(s: State): set<nat> { set t: nat | t < |s.pc| && s.pc[t] != Outside }

  /** Completions on their way: in the device, or posted and not collected. */
  function InFlight(s: State): nat { (if s.dev == Idle then 0 else 1) + s.done }

  /** After a successful transfer the buffer, the disk and the request agree. */
  predicate Transferred(s: State, q: Request)
  {
    q.sector in s.disk && s.disk[q.sector] == s.buf && (q.write ==> s.buf == q.data)
  }

  /** What the thread inside has of the card. */
  predicate Owner(s: State, p: Pc)
  {
    match p
    case Outside => false
    case Cleared(q) => InFlight(s) == 0
    case Ready(q) => InFlight(s) == 0 && (q.write ==> s.buf == q.data)
    case Started(q) =>
      && InFlight(s) == 1
      && (s.dev.Working? ==> s.dev == Working(q.sector, q.write) && (q.write ==> s.buf == q.data))
      && (s.dev == Finished(Success) ==> Transferred(s, q))
      && (s.done == 1 && s.result == Success ==> Transferred(s, q))
    case Answered(q) => InFlight(s) == 0 && (s.result == Success ==> Transferred(s, q))
  }

  ghost predicate Inv(s: State)
  {
    && s.clear + |Inside(s)| == 1
    && (forall t :: 0 <= t < |s.pc| && s.pc[t] != Outside ==> Owner(s, s.pc[t]))
    && (Inside(s) == {} ==> InFlight(s) == 0)
  }

  ghost predicate Start(s: State)
  {
    s.clear == 1 && s.done == 0 && s.dev == Idle && s.answers == [] && forall t :: 0 <= t < |s.pc| ==>
        s.pc[t] == Outside
  }

  lemma InsideMove(s: State, s2: State, t: nat)
    requires t < |s.pc| == |s2.pc| && s2.pc == s.pc[t := s2.pc[t]]
    ensures Inside(s2) == if s2.pc[t] == Outside then Inside(s) - {t} else Inside(s) + {t}
  {
  }

  /** Two threads are never inside together. */
  lemma Alone(s: State, t: nat, u: nat)
    requires Inv(s) && t < |s.pc| && u < |s.pc| && s.pc[t] != Outside && s.pc[u] != Outside
    ensures t == u && Inside(s) == {t} && s.clear == 0
  {
    assert t in Inside(s) && u in Inside(s);
    assert Inside(s) == {t} + (Inside(s) - {t});
    assert t != u ==> u in Inside(s) - {t};
  }

  lemma StepKeeps(s: State, a: Step)
    requires Inv(s) && Enabled(s, a)
    ensures Inv(Next(s, a))
  {
    match a
    case Complete(code) => DeviceKeeps(s, a);
    case Interrupt => DeviceKeeps(s, a);
    case Enter(t, q) => EnterKeeps(s, t, q);
    case Fault(t) => ThreadKeeps(s, a, t);
    case Fill(t) => ThreadKeeps(s, a, t);
    case Go(t) => ThreadKeeps(s, a, t);
    case Collect(t) => ThreadKeeps(s, a, t);
    case Leave(t, f) => ThreadKeeps(s, a, t);
  }

  lemma EnterKeeps(s: State, t: nat, q: Request)
    requires Inv(s) && Enabled(s, Enter(t, q))
    ensures Inv(Next(s, Enter(t, q)))
  {
    var s2 := Next(s, Enter(t, q));
    InsideMove(s, s2, t);
    assert Inside(s) == {};
    forall u | 0 <= u < |s2.pc| && s2.pc[u] != Outside ensures u == t { assert u in Inside(s2); }
  }

  /** A step of the thread inside. */
  lemma ThreadKeeps(s: State, a: Step, t: nat)
    requires Inv(s) && Enabled(s, a) && (a.Fault? || a.Fill? || a.Go? || a.Collect? || a.Leave?) && a.t == t
    ensures Inv(Next(s, a))
  {
    var s2 := Next(s, a);
    Alone(s, t, t);
    InsideMove(s, s2, t);
    forall u | 0 <= u < |s2.pc| && s2.pc[u] != Outside ensures u == t { assert u in Inside(s2); }
    assert Owner(s, s.pc[t]);
  }

  /** A step of the device or its interrupt handler concerns the one thread that has started it. */
  lemma DeviceKeeps(s: State, a: Step)
    requires Inv(s) && Enabled(s, a) && (a.Complete? || a.Interrupt?)
    ensures Inv(Next(s, a))
  {
    var s2 := Next(s, a);
    assert Inside(s2) == Inside(s);
    if s.dev == Idle {
      assert s2 == s;
    } else {
      var t :| t in Inside(s);
      Alone(s, t, t);
      assert Owner(s, s.pc[t]);
      assert Owner(s2, s2.pc[t]);
      forall u | 0 <= u < |s2.pc| && s2.pc[u] != Outside ensures u == t { assert u in Inside(s); }
    }
  }

  ghost predicate Run(run: seq<State>, steps: seq<Step>)
  {
    |run| == |steps| + 1 && Start(run[0]) && forall n :: 0 <= n < |steps| ==> Taken(run, steps, n)
  }

  /** Step `n` of the run. */
  ghost predicate Taken(run: seq<State>, steps: seq<Step>, n: nat)
  {
    n < |steps| && |run| == |steps| + 1 && Enabled(run[n], steps[n]) && run[n + 1] == Next(run[n], steps[n])
  }

  lemma {:induction false} RunInv(run: seq<State>, steps: seq<Step>, n: nat)
    requires Run(run, steps) && n < |run|
    ensures Inv(run[n])
    decreases n
  {
    if n == 0 {
      assert Inside(run[0]) == {};
    } else {
      RunInv(run, steps, n - 1);
      assert Taken(run, steps, n - 1);
      StepKeeps(run[n - 1], steps[n - 1]);
    }
  }

  /** At most one request is in flight, and at most one thread is in its turn; between turns the card is quiet and the
      `clear` token is back. */
  lemma OneInFlight(run: seq<State>, steps: seq<Step>, n: nat)
    requires Run(run, steps) && n < |run|
    ensures InFlight(run[n]) <= 1
    ensures run[n].clear + |Inside(run[n])| == 1
    ensures Inside(run[n]) == {} ==> run[n].clear == 1 && run[n].done == 0 && run[n].dev == Idle
  {
    RunInv(run, steps, n);
    if Inside(run[n]) != {} {
      var t :| t in Inside(run[n]);
      assert Owner(run[n], run[n].pc[t]);
    }
  }

  /** A turn that ends with success has moved its own sector: the disk holds what was written, or the data returned is
      what the disk holds, as the thread leaves. */
  lemma OwnSector(run: seq<State>, steps: seq<Step>, n: nat)
    requires Run(run, steps) && n < |steps| && steps[n].Leave? && Taken(run, steps, n)
    ensures var t := steps[n].t;
            var q := run[n].pc[t].q;
            var r := run[n + 1].answers[|run[n].answers|];
            && |run[n + 1].answers| == |run[n].answers| + 1 && r.t == t && r.q == q
            && (r.code == Success ==>
                 q.sector in run[n + 1].disk && r.data == run[n + 1].disk[q.sector] && (q.write ==> r.data == q.data))
            && run[n].clear == 0 && run[n + 1].clear == 1
  {
    RunInv(run, steps, n);
    var t := steps[n].t;
    Alone(run[n], t, t);
    assert Owner(run[n], run[n].pc[t]);
  }

  /** The completion a thread collects is for the request it started: nothing else was in the device since. */
  lemma OwnCompletion(run: seq<State>, steps: seq<Step>, n: nat)
    requires Run(run, steps) && n < |steps| && steps[n].Collect? && Taken(run, steps, n)
    ensures run[n].done == 1 && run[n].dev == Idle && run[n + 1].done == 0
    ensures forall u :: 0 <= u < |run[n].pc| && u != steps[n].t ==> run[n].pc[u] == Outside
  {
    RunInv(run, steps, n);
    var t := steps[n].t;
    assert Owner(run[n], run[n].pc[t]);
    forall u | 0 <= u < |run[n].pc| && u != t ensures run[n].pc[u] == Outside {
      if run[n].pc[u] != Outside { Alone(run[n], t, u); }
    }
  }

  /** When in the run a thread's turn took its steps: entering, starting the device, the device finishing, its
      interrupt, and collecting the completion; those not yet taken are 0. */
  datatype Turn = Turn(entered: nat, started: nat, finished: nat, posted: nat, collected: nat)

  /** The device has been started with request `q` at `h.started` and finished it with `code` at `h.finished`, after
      which the disk stayed as it is at step `n`. */
  ghost predicate DeviceDid(run: seq<State>, steps: seq<Step>, n: nat, t: nat, q: Request, h: Turn, code: Code)
  {
    && n < |run| == |steps| + 1 && h.entered < h.started < h.finished < n
    && steps[h.started] == Go(t) && steps[h.finished] == Complete(code)
    && run[h.finished].dev == Working(q.sector, q.write) && run[n].disk == run[h.finished + 1].disk
    && run[n].disk == if code == Success && q.write then run[h.finished].disk[q.sector := q.data]
       else run[h.finished].disk
  }

  /** The steps of thread t's turn up to step `n`, of which it is inside. */
  ghost predicate TurnSoFar(run: seq<State>, steps: seq<Step>, n: nat, t: nat, h: Turn)
  {
    && n < |run| == |steps| + 1 && t < |run[n].pc| && run[n].pc[t] != Outside
    && var s, q := run[n], run[n].pc[t].q;
       && h.entered < n && steps[h.entered] == Enter(t, q)
       && (s.pc[t].Started? ==>
             && h.entered < h.started < n && steps[h.started] == Go(t)
             && (s.dev.Finished? ==> DeviceDid(run, steps, n, t, q, h, s.dev.code))
             && (s.dev == Idle ==>
                   DeviceDid(run, steps, n, t, q, h, s.result) && h.finished < h.posted < n
                   && steps[h.posted] == Interrupt))
       && (s.pc[t].Answered? ==>
             && DeviceDid(run, steps, n, t, q, h, s.result) && h.finished < h.posted < h.collected < n
             && steps[h.posted] == Interrupt && steps[h.collected] == Collect(t))
  }

  /** A step of another thread needs it to be inside, or to enter while nobody is. */
  lemma OnlyItsSteps(s: State, a: Step, t: nat)
    requires Inv(s) && Enabled(s, a) && t < |s.pc| && s.pc[t] != Outside
    ensures a.Complete? || a.Interrupt? || (!a.Enter? && a.t == t)
  {
    Alone(s, t, t);
    if !a.Complete? && !a.Interrupt? && !a.Enter? { Alone(s, t, a.t); }
  }

  lemma Begins(run: seq<State>, steps: seq<Step>, n: nat, t: nat) returns (h: Turn)
    requires Taken(run, steps, n) && t < |run[n].pc| && run[n].pc[t] == Outside && run[n + 1].pc[t] != Outside
    ensures TurnSoFar(run, steps, n + 1, t, h)
  {
    h := Turn(n, 0, 0, 0, 0);
  }

  lemma DeviceGoesOn(run: seq<State>, steps: seq<Step>, n: nat, t: nat, h: Turn) returns (h2: Turn)
    requires Taken(run, steps, n) && TurnSoFar(run, steps, n, t, h) && Inv(run[n])
    requires steps[n].Complete? || steps[n].Interrupt?
    ensures TurnSoFar(run, steps, n + 1, t, h2)
  {
    assert Owner(run[n], run[n].pc[t]);
    h2 := if steps[n].Complete? then h.(finished := n) else if run[n].dev.Finished? then h.(posted := n) else h;
  }

  lemma ThreadGoesOn(run: seq<State>, steps: seq<Step>, n: nat, t: nat, h: Turn) returns (h2: Turn)
    requires Taken(run, steps, n) && TurnSoFar(run, steps, n, t, h) && Inv(run[n])
    requires steps[n] == Fill(t) || steps[n] == Go(t) || steps[n] == Collect(t)
    ensures TurnSoFar(run, steps, n + 1, t, h2)
  {
    assert Owner(run[n], run[n].pc[t]);
    h2 := if steps[n].Go? then h.(started := n) else if steps[n].Collect? then h.(collected := n) else h;
  }

  /** Whoever is inside got there by a turn of its own steps, with the device's and the handler's between them. */
  lemma {:induction false} TurnOf(run: seq<State>, steps: seq<Step>, n: nat, t: nat) returns (h: Turn)
    requires Run(run, steps) && n < |run| && t < |run[n].pc| && run[n].pc[t] != Outside
    ensures TurnSoFar(run, steps, n, t, h)
    decreases n
  {
    hide Inv, TurnSoFar, Next, Enabled;
    NotAtStart(run, steps, n, t);
    assert Taken(run, steps, n - 1);
    SamePcs(run, steps, n - 1);
    if run[n - 1].pc[t] == Outside {
      h := Begins(run, steps, n - 1, t);
    } else {
      var h0 := TurnOf(run, steps, n - 1, t);
      RunInv(run, steps, n - 1);
      OnlyItsSteps(run[n - 1], steps[n - 1], t);
      if steps[n - 1].Complete? || steps[n - 1].Interrupt? {
        h := DeviceGoesOn(run, steps, n - 1, t, h0);
      } else {
        StillInside(run, steps, n - 1, t);
        h := ThreadGoesOn(run, steps, n - 1, t, h0);
      }
    }
  }

  lemma NotAtStart(run: seq<State>, steps: seq<Step>, n: nat, t: nat)
    requires Run(run, steps) && n < |run| && t < |run[n].pc| && run[n].pc[t] != Outside
    ensures n > 0
  {
  }

  lemma SamePcs(run: seq<State>, steps: seq<Step>, n: nat)
    requires Taken(run, steps, n)
    ensures |run[n + 1].pc| == |run[n].pc|
  {
  }

  lemma StillInside(run: seq<State>, steps: seq<Step>, n: nat, t: nat)
    requires Taken(run, steps, n) && t < |run[n].pc| && run[n + 1].pc[t] != Outside && !steps[n].Enter?
    requires !steps[n].Complete? && !steps[n].Interrupt? && steps[n].t == t
    ensures steps[n] == Fill(t) || steps[n] == Go(t) || steps[n] == Collect(t)
  {
  }

  /** The answer a thread leaves with is the device's own to the request it entered with: the thread entered, started
      the device on that sector, the device finished with that code, its interrupt was taken, the thread collected it,
      in that order; and a read returns what the disk held as the device finished. */
  lemma AnswerIsTheDevices(run: seq<State>, steps: seq<Step>, n: nat) returns (h: Turn)
    requires Run(run, steps) && n < |steps| && steps[n].Leave? && Taken(run, steps, n)
    ensures |run[n + 1].answers| == |run[n].answers| + 1
    ensures var r := run[n + 1].answers[|run[n].answers|];
            && r.t == steps[n].t && r.faulted == steps[n].faulted
            && h.entered < h.started < h.finished < h.posted < h.collected < n
            && steps[h.entered] == Enter(r.t, r.q) && steps[h.started] == Go(r.t)
            && run[h.finished].dev == Working(r.q.sector, r.q.write) && steps[h.finished] == Complete(r.code)
            && steps[h.posted] == Interrupt && steps[h.collected] == Collect(r.t)
            && (r.code == Success && !r.q.write ==>
                  r.q.sector in run[h.finished].disk && r.data == run[h.finished].disk[r.q.sector])
            && run[n + 1].disk == if r.code == Success && r.q.write then run[h.finished].disk[r.q.sector := r.q.data]
               else run[h.finished].disk
  {
    OwnSector(run, steps, n);
    h := TurnOf(run, steps, n, steps[n].t);
  }

  /** The disk changes only as the device finishes, with success, the write of the thread that started it. */
  lemma DiskChangesByWrites(run: seq<State>, steps: seq<Step>, n: nat) returns (t: nat)
    requires Run(run, steps) && n < |steps| && Taken(run, steps, n) && run[n + 1].disk != run[n].disk
    ensures steps[n] == Complete(Success) && t < |run[n].pc| && run[n].pc[t].Started? && run[n].pc[t].q.write
    ensures run[n + 1].disk == run[n].disk[run[n].pc[t].q.sector := run[n].pc[t].q.data]
  {
    RunInv(run, steps, n);
    t :| t in Inside(run[n]);
    assert Owner(run[n], run[n].pc[t]);
  }

  /** A turn whose data cannot be copied in never reaches the device, and lets the next one in. */
  lemma FaultTouchesNothing(run: seq<State>, steps: seq<Step>, n: nat)
    requires Run(run, steps) && n < |steps| && steps[n].Fault? && Taken(run, steps, n)
    ensures run[n].dev == run[n + 1].dev == Idle && run[n + 1].done == 0 && run[n + 1].disk == run[n].disk
    ensures run[n + 1].clear == 1 && Inside(run[n + 1]) == {}
    ensures |run[n + 1].answers| == |run[n].answers| + 1 && run[n + 1].answers[|run[n].answers|].faulted
  {
    RunInv(run, steps, n);
    var t := steps[n].t;
    Alone(run[n], t, t);
    assert Owner(run[n], run[n].pc[t]);
    InsideMove(run[n], run[n + 1], t);
  }
}
