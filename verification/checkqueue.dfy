/** The verification queue of src/checkqueue.h: one master and any number of workers, one step per
    critical section and one per executed check, with spurious wake-ups. */
module CheckQueue {
  import opened Numbers

  /** A queued verification and what running it returns. */
  datatype Check = Check(id: nat, passes: bool)

  datatype Phase =
    | Out                                               // not inside Loop
    | Notifying(added: nat)                             // Add has left its critical section but not yet notified
    | Ready                                             // about to enter Loop's first critical section
    | Asleep(notified: bool)                            // waiting on its condition variable
    | Working(batch: seq<Check>, next: nat, fOk: bool)  // running its batch outside the lock

  /** Thread 0 is the master. `added` and `done` record the checks added and completed since Wait last returned. */
  datatype State = State(
    queue: seq<Check>,
    nTodo: int,
    nIdle: int,
    nTotal: int,
    fAllOk: bool,
    threads: seq<Phase>,
    added: multiset<Check>,
    done: multiset<Check>)

  const MASTER := 0

  datatype Step =
    | Add(checks: seq<Check>)
    | Notify(woken: set<nat>)
    | Wait
    | Enter(t: nat)
    | Wake(t: nat)
    | Execute(t: nat)
    | Finish(t: nat)

  function Init(workers: nat): State {
    State([], 0, 0, 0, true, [Out] + seq(workers, _ => Ready), multiset{}, multiset{})
  }

  /** How many checks a thread takes at once. */
  function BatchSize(nBatchSize: nat, queued: nat, nTotal: int, nIdle: int): (n: nat)
    requires queued > 0 && nTotal >= 0 && nIdle >= 0
    ensures 1 <= n <= queued
  {
    Max(1, Min(nBatchSize, queued / (nTotal + nIdle + 1)))
  }

  function Reverse(s: seq<Check>): (r: seq<Check>)
    ensures |r| == |s|
  {
    if s == [] then [] else Reverse(s[1..]) + [s[0]]
  }

  /** The rest of a critical section, from the loop's test on: sleep, return, or take a batch from the back. */
  function Inside(b: nat, s: State, t: nat): State
    requires t < |s.threads| && s.nTotal >= 0 && s.nIdle >= 0
  {
    if s.queue == [] then
      if t == MASTER && s.nTodo == 0
      then s.(nTotal := s.nTotal - 1, fAllOk := true, threads := s.threads[t := Out], added := multiset{}, done :=
          multiset{})
      else s.(nIdle := s.nIdle + 1, threads := s.threads[t := Asleep(false)])
    else
      var n := BatchSize(b, |s.queue|, s.nTotal, s.nIdle);
      var rest := |s.queue| - n;
      s.(queue := s.queue[..rest], threads := s.threads[t := Working(Reverse(s.queue[rest..]), 0, s.fAllOk)])
  }

  /** Wait returns in this critical section. */
  predicate Returns(s: State, t: nat) {
    t == MASTER && s.queue == [] && s.nTodo == 0
  }

  /** The cleanup of a finished batch. */
  function Cleanup(s: State, t: nat): State
    requires t < |s.threads| && s.threads[t].Working?
  {
    var p := s.threads[t];
    var left := s.nTodo - |p.batch|;
    var threads := if left == 0 && t != MASTER && s.threads[MASTER] == Asleep(false) then
        s.threads[MASTER := Asleep(true)] else s.threads;
    s.(fAllOk := s.fAllOk && p.fOk, nTodo := left, threads := threads[t := Ready], done := s.done + multiset(p.batch))
  }

  /** The workers a notification can reach. */
  function Sleepers(s: State): set<nat> {
    set t: nat | MASTER < t < |s.threads| && s.threads[t] == Asleep(false)
  }

  predicate Enabled(s: State, step: Step) {
    |s.threads| > 0 &&
    match step
    case Add(checks) => s.threads[MASTER] == Out
    case Notify(woken) =>
      && s.threads[MASTER].Notifying?
      && if s.threads[MASTER].added == 1 then woken <= Sleepers(s) && |woken| == Min(1, |Sleepers(s)|)
         else woken == Sleepers(s)
    case Wait => s.threads[MASTER] == Out
    case Enter(t) => t < |s.threads| && s.threads[t] == Ready
    case Wake(t) => t < |s.threads| && s.threads[t].Asleep?
    case Execute(t) => t < |s.threads| && s.threads[t].Working? && s.threads[t].next < |s.threads[t].batch|
    case Finish(t) => t < |s.threads| && s.threads[t].Working? && s.threads[t].next >= |s.threads[t].batch|
  }

  /** A thread inside the lock: it holds no batch and is neither asleep nor at work. */
  function Hold(s: State, t: nat): State
    requires t < |s.threads|
  {
    s.(threads := s.threads[t := Ready])
  }

  /** The sleepers in `woken` have a notification pending. */
  function Marked(ps: seq<Phase>, woken: set<nat>): seq<Phase> {
    seq(|ps|, t requires 0 <= t < |ps| => if t in woken then Asleep(true) else ps[t])
  }

  function Apply(b: nat, s: State, step: Step): State
    requires Enabled(s, step) && s.nTotal >= 0 && s.nIdle >= 0 && (step.Wake? ==> s.nIdle > 0)
  {
    match step
    case Add(checks) =>
      if checks == [] then s else
      s.(queue := s.queue + checks, nTodo := s.nTodo + |checks|, added := s.added + multiset(checks),
         threads := s.threads[MASTER := Notifying(|checks|)])
    case Notify(woken) =>
      s.(threads := Marked(s.threads, woken)[MASTER := Out])
    case Wait => s.(threads := s.threads[MASTER := Ready])
    case Enter(t) => Inside(b, s.(nTotal := s.nTotal + 1), t)
    case Wake(t) => Inside(b, Hold(s, t).(nIdle := s.nIdle - 1), t)
    case Execute(t) =>
      var p := s.threads[t];
      s.(threads := s.threads[t := Working(p.batch, p.next + 1, if p.fOk then p.batch[p.next].passes else p.fOk)])
    case Finish(t) => Inside(b, Cleanup(s, t), t)
  }

  // ---------------------------------------------------------------- the invariant

  /** What a thread contributes to the checks in flight, the idle threads and the threads in the loop. */
  datatype Kind = Load | Idle | Inner | Weight

  function Share(p: Phase, k: Kind): nat {
    match k
    case Load => if p.Working? then |p.batch| else 0
    case Idle => if p.Asleep? then 1 else 0
    case Inner => if p.Asleep? || p.Working? then 1 else 0
    case Weight =>
      match p
      case Out => 0
      case Notifying(_) => 0
      case Ready => 2
      case Asleep(notified) => if notified then 1 else 0
      case Working(batch, next, _) => 2 * (if next < |batch| then |batch| - next else 0) + 2
  }

  function Sum(ps: seq<Phase>, k: Kind): nat {
    if ps == [] then 0 else Sum(ps[..|ps| - 1], k) + Share(ps[|ps| - 1], k)
  }

  function Held(p: Phase): multiset<Check> {
    if p.Working? then multiset(p.batch) else multiset{}
  }

  function Flight(ps: seq<Phase>): multiset<Check> {
    if ps == [] then multiset{} else Flight(ps[..|ps| - 1]) + Held(ps[|ps| - 1])
  }

  ghost predicate HasBad(s: seq<Check>) {
    exists i :: 0 <= i < |s| && !s[i].passes
  }

  /** The thread knows of a failure or has one ahead of it. */
  ghost predicate Bad(p: Phase) {
    p.Working? && (!p.fOk || (p.next <= |p.batch| && HasBad(p.batch[p.next..])))
  }

  ghost predicate AnyBad(ps: seq<Phase>) {
    exists t :: 0 <= t < |ps| && Bad(ps[t])
  }

  ghost predicate AddedBad(added: multiset<Check>) {
    exists c :: c in added && !c.passes
  }

  /** The counters count. `extra` threads are in the loop but neither asleep nor at work: one inside the lock, none
      between steps. */
  ghost predicate Counted(queued: nat, nTodo: int, nIdle: int, nTotal: int, ps: seq<Phase>, extra: nat) {
    && nTodo == queued + Sum(ps, Load)
    && nIdle == Sum(ps, Idle)
    && nTotal == Sum(ps, Inner) + extra
  }

  /** Every check added is queued, in exactly one batch, or completed. */
  ghost predicate Conserved(added: multiset<Check>, queue: seq<Check>, ps: seq<Phase>, done: multiset<Check>) {
    added == multiset(queue) + Flight(ps) + done
  }

  /** A failing check was added exactly when its failure is recorded, on its way, or still ahead. */
  ghost predicate Verdict(added: multiset<Check>, fAllOk: bool, queue: seq<Check>, ps: seq<Phase>) {
    AddedBad(added) <==> !fAllOk || HasBad(queue) || AnyBad(ps)
  }

  ghost predicate PhaseOk(p: Phase, t: nat) {
    && (p.Working? ==> p.next <= |p.batch| && p.batch != [])
    && (t != MASTER ==> !p.Out? && !p.Notifying?)
  }

  ghost predicate Shaped(ps: seq<Phase>) {
    |ps| > 0 && forall t :: 0 <= t < |ps| ==> PhaseOk(ps[t], t)
  }

  /** The master sleeps without a pending notification only while others are still at work. */
  ghost predicate Awaited(queue: seq<Check>, nTodo: int, ps: seq<Phase>) {
    |ps| > 0 && (ps[MASTER] == Asleep(false) ==> queue == [] && nTodo > 0)
  }

  ghost predicate Inv(s: State, extra: nat) {
    && Shaped(s.threads)
    && Counted(|s.queue|, s.nTodo, s.nIdle, s.nTotal, s.threads, extra)
    && Conserved(s.added, s.queue, s.threads, s.done)
    && Verdict(s.added, s.fAllOk, s.queue, s.threads)
    && Awaited(s.queue, s.nTodo, s.threads)
  }

  lemma {:induction false} SumUpdate(ps: seq<Phase>, t: nat, p: Phase, k: Kind)
    requires t < |ps|
    ensures Sum(ps[t := p], k) + Share(ps[t], k) == Sum(ps, k) + Share(p, k)
  {
    var n := |ps| - 1;
    if t == n {
      assert ps[t := p][..n] == ps[..n];
    } else {
      assert ps[t := p][..n] == ps[..n][t := p];
      SumUpdate(ps[..n], t, p, k);
    }
  }

  lemma {:induction false} FlightUpdate(ps: seq<Phase>, t: nat, p: Phase)
    requires t < |ps|
    ensures Flight(ps[t := p]) + Held(ps[t]) == Flight(ps) + Held(p)
  {
    hide Held;
    var n := |ps| - 1;
    if t == n {
      assert ps[t := p][..n] == ps[..n];
      Swap(Flight(ps[..n]), Held(p), Held(ps[n]));
    } else {
      assert ps[t := p][..n] == ps[..n][t := p];
      FlightUpdate(ps[..n], t, p);
      Carry(Flight(ps[..n][t := p]), Held(ps[t]), Flight(ps[..n]), Held(p), Held(ps[n]));
    }
  }

  lemma Swap(a: multiset<Check>, b: multiset<Check>, c: multiset<Check>)
    ensures a + b + c == a + c + b
  {
  }

  lemma Carry(a: multiset<Check>, b: multiset<Check>, c: multiset<Check>, d: multiset<Check>, e: multiset<Check>)
    requires a + b == c + d
    ensures a + e + b == c + e + d
  {
    assert a + e + b == (a + b) + e;
  }

  lemma {:induction false} SumSome(ps: seq<Phase>, k: Kind) returns (t: nat)
    requires Sum(ps, k) > 0
    ensures t < |ps| && Share(ps[t], k) > 0
  {
    var n := |ps| - 1;
    if Share(ps[n], k) > 0 {
      t := n;
    } else {
      t := SumSome(ps[..n], k);
    }
  }

  lemma {:induction false} SumAtLeast(ps: seq<Phase>, k: Kind, t: nat)
    requires t < |ps|
    ensures Sum(ps, k) >= Share(ps[t], k)
  {
    if t < |ps| - 1 {
      SumAtLeast(ps[..|ps| - 1], k, t);
    }
  }

  lemma AnyBadUpdate(ps: seq<Phase>, t: nat, p: Phase)
    requires t < |ps|
    ensures AnyBad(ps[t := p]) || Bad(ps[t]) <==> AnyBad(ps) || Bad(p)
    ensures Bad(p) ==> AnyBad(ps[t := p])
    ensures Bad(ps[t]) ==> AnyBad(ps)
  {
    var qs := ps[t := p];
    if AnyBad(qs) {
      var u :| 0 <= u < |qs| && Bad(qs[u]);
      assert u != t ==> Bad(ps[u]);
    }
    if AnyBad(ps) {
      var u :| 0 <= u < |ps| && Bad(ps[u]);
      assert u != t ==> Bad(qs[u]);
    }
    assert qs[t] == p;
  }

  lemma {:induction false} ReverseElements(s: seq<Check>)
    ensures multiset(Reverse(s)) == multiset(s)
    ensures HasBad(Reverse(s)) <==> HasBad(s)
  {
    if s != [] {
      ReverseElements(s[1..]);
      assert s == [s[0]] + s[1..];
      BadConcat([s[0]], s[1..]);
      BadConcat(Reverse(s[1..]), [s[0]]);
    }
  }

  lemma BadConcat(s: seq<Check>, r: seq<Check>)
    ensures HasBad(s + r) <==> HasBad(s) || HasBad(r)
  {
    if HasBad(s) {
      var i :| 0 <= i < |s| && !s[i].passes;
      assert !(s + r)[i].passes;
    }
    if HasBad(r) {
      var i :| 0 <= i < |r| && !r[i].passes;
      assert !(s + r)[|s| + i].passes;
    }
  }

  lemma BadAdded(added: multiset<Check>, checks: seq<Check>)
    ensures AddedBad(added + multiset(checks)) <==> AddedBad(added) || HasBad(checks)
  {
    if AddedBad(added) {
      var c :| c in added && !c.passes;
      assert c in added + multiset(checks);
    }
    if HasBad(checks) {
      var i :| 0 <= i < |checks| && !checks[i].passes;
      assert checks[i] in checks;
      assert checks[i] in added + multiset(checks);
    }
    if AddedBad(added + multiset(checks)) {
      var c :| c in added + multiset(checks) && !c.passes;
      assert c in added || c in checks;
    }
  }

  lemma {:induction false} QuietThreads(ps: seq<Phase>)
    requires Shaped(ps) && Sum(ps, Load) == 0
    ensures Flight(ps) == multiset{} && !AnyBad(ps)
  {
    forall t | 0 <= t < |ps|
      ensures !ps[t].Working?
    {
      SumAtLeast(ps, Load, t);
      assert PhaseOk(ps[t], t);
    }
    Grounded(ps);
  }

  lemma {:induction false} Grounded(ps: seq<Phase>)
    requires forall t :: 0 <= t < |ps| ==> !ps[t].Working?
    ensures Flight(ps) == multiset{}
  {
    if ps != [] {
      Grounded(ps[..|ps| - 1]);
    }
  }

  // ---------------------------------------------------------------- every step keeps it

  lemma ShapedUpdate(ps: seq<Phase>, t: nat, p: Phase)
    requires Shaped(ps) && t < |ps| && PhaseOk(p, t)
    ensures Shaped(ps[t := p])
  {
    var qs := ps[t := p];
    forall u | 0 <= u < |qs|
      ensures PhaseOk(qs[u], u)
    {
      assert PhaseOk(ps[u], u);
    }
  }

  lemma Unit(a: multiset<Check>, b: multiset<Check>)
    requires a + multiset{} == b + multiset{}
    ensures a == b
  {
    assert a == a + multiset{};
    assert b == b + multiset{};
  }

  /** A phase that holds no checks replaced by another one: nothing is lost and no verdict changes. */
  lemma RephaseRest(added: multiset<Check>, fAllOk: bool, queue: seq<Check>, ps: seq<Phase>, done: multiset<Check>,
      t: nat, p: Phase)
    requires t < |ps| && !ps[t].Working? && PhaseOk(p, t) && !p.Working?
    requires Shaped(ps) && Conserved(added, queue, ps, done) && Verdict(added, fAllOk, queue, ps)
    ensures Shaped(ps[t := p]) && Conserved(added, queue, ps[t := p], done) && Verdict(added, fAllOk, queue, ps[t := p])
  {
    ShapedUpdate(ps, t, p);
    AnyBadUpdate(ps, t, p);
    FlightUpdate(ps, t, p);
    hide Sum, Flight, AnyBad, Shaped;
    Unit(Flight(ps[t := p]), Flight(ps));
  }

  /** The counters that match a thread's new phase. */
  lemma Recount(queued: nat, nTodo: int, nIdle: int, nTotal: int, ps: seq<Phase>, extra: nat, t: nat, p: Phase,
                queued': nat, nTodo': int, nIdle': int, nTotal': int, extra': nat)
    requires t < |ps| && Counted(queued, nTodo, nIdle, nTotal, ps, extra)
    requires nTodo' - queued' == nTodo - queued + Share(p, Load) - Share(ps[t], Load)
    requires nIdle' == nIdle + Share(p, Idle) - Share(ps[t], Idle)
    requires nTotal' - extra' == nTotal - extra + Share(p, Inner) - Share(ps[t], Inner)
    ensures Counted(queued', nTodo', nIdle', nTotal', ps[t := p], extra')
  {
    hide Sum, Share;
    SumUpdate(ps, t, p, Load);
    SumUpdate(ps, t, p, Idle);
    SumUpdate(ps, t, p, Inner);
  }

  /** What Wait returns: the conjunction of every check added, all of them completed. */
  lemma ReturnValue(s: State)
    requires Inv(s, 1) && s.queue == [] && s.nTodo == 0
    ensures s.fAllOk <==> !AddedBad(s.added)
    ensures s.done == s.added
  {
    QuietThreads(s.threads);
    hide Sum, Flight, AnyBad, Shaped;
    assert multiset(s.queue) + multiset{} + s.done == s.done;
  }

  lemma ResetConserved(ps: seq<Phase>)
    requires Shaped(ps) && Sum(ps, Load) == 0
    ensures Conserved(multiset{}, [], ps, multiset{}) && Verdict(multiset{}, true, [], ps)
  {
    QuietThreads(ps);
    hide Sum, Flight, AnyBad, Shaped;
    var none: multiset<Check> := multiset{};
    assert none + none + none == none;
  }

  lemma ReturnKeeps(b: nat, s: State)
    requires Inv(s, 1) && s.threads[MASTER] == Ready && Returns(s, MASTER) && s.nTotal >= 0 && s.nIdle >= 0
    ensures Inv(Inside(b, s, MASTER), 0)
  {
    var ps := s.threads[MASTER := Out];
    Recount(|s.queue|, s.nTodo, s.nIdle, s.nTotal, s.threads, 1, MASTER, Out, |s.queue|, s.nTodo, s.nIdle,
        s.nTotal - 1, 0);
    ShapedUpdate(s.threads, MASTER, Out);
    ResetConserved(ps);
    hide Counted, Conserved, Verdict, Shaped;
  }

  lemma SleepKeeps(b: nat, s: State, t: nat)
    requires Inv(s, 1) && t < |s.threads| && s.threads[t] == Ready && s.queue == [] && !Returns(s, t) && s.nTotal >= 0
    requires s.nIdle >= 0
    ensures Inv(Inside(b, s, t), 0)
  {
    var p := Asleep(false);
    assert s.nTodo >= 0;
    hide Counted, Conserved, Verdict, Shaped;
    Recount(|s.queue|, s.nTodo, s.nIdle, s.nTotal, s.threads, 1, t, p, |s.queue|, s.nTodo, s.nIdle + 1, s.nTotal, 0);
    RephaseRest(s.added, s.fAllOk, s.queue, s.threads, s.done, t, p);
  }

  lemma TakeConserved(added: multiset<Check>, queue: seq<Check>, ps: seq<Phase>, done: multiset<Check>, t: nat,
      rest: nat, p: Phase)
    requires Conserved(added, queue, ps, done) && t < |ps| && ps[t] == Ready && rest <= |queue|
    requires p.Working? && p.batch == Reverse(queue[rest..])
    ensures Conserved(added, queue[..rest], ps[t := p], done)
  {
    FlightUpdate(ps, t, p);
    ReverseElements(queue[rest..]);
    hide Flight, Reverse;
    assert queue == queue[..rest] + queue[rest..];
    Moved(multiset(queue[..rest]), multiset(p.batch), Flight(ps), Flight(ps[t := p]), done);
  }

  lemma Moved(q: multiset<Check>, m: multiset<Check>, f: multiset<Check>, g: multiset<Check>, done: multiset<Check>)
    requires g + multiset{} == f + m
    ensures q + m + f + done == q + g + done
  {
    assert g == f + m;
    assert q + m + f == q + (f + m);
  }

  lemma TakeVerdict(added: multiset<Check>, fAllOk: bool, queue: seq<Check>, ps: seq<Phase>, t: nat, rest: nat,
      p: Phase)
    requires Verdict(added, fAllOk, queue, ps) && t < |ps| && ps[t] == Ready && rest <= |queue|
    requires p == Working(Reverse(queue[rest..]), 0, fAllOk)
    ensures Verdict(added, fAllOk, queue[..rest], ps[t := p])
  {
    AnyBadUpdate(ps, t, p);
    ReverseElements(queue[rest..]);
    BadConcat(queue[..rest], queue[rest..]);
    assert queue == queue[..rest] + queue[rest..];
    assert p.batch[0..] == p.batch;
    hide AnyBad, Reverse, HasBad;
  }

  lemma TakeKeeps(b: nat, s: State, t: nat)
    requires Inv(s, 1) && t < |s.threads| && s.threads[t] == Ready && s.queue != [] && s.nTotal >= 0 && s.nIdle >= 0
    ensures Inv(Inside(b, s, t), 0)
  {
    hide Counted, Conserved, Verdict, Shaped, BatchSize, Reverse;
    var n := BatchSize(b, |s.queue|, s.nTotal, s.nIdle);
    var rest := |s.queue| - n;
    var p := Working(Reverse(s.queue[rest..]), 0, s.fAllOk);
    TakeConserved(s.added, s.queue, s.threads, s.done, t, rest, p);
    TakeVerdict(s.added, s.fAllOk, s.queue, s.threads, t, rest, p);
    Recount(|s.queue|, s.nTodo, s.nIdle, s.nTotal, s.threads, 1, t, p, rest, s.nTodo, s.nIdle, s.nTotal, 0);
    ShapedUpdate(s.threads, t, p);
  }

  lemma InsideKeeps(b: nat, s: State, t: nat)
    requires Inv(s, 1) && t < |s.threads| && s.threads[t] == Ready && s.nTotal >= 0 && s.nIdle >= 0
    ensures Inv(Inside(b, s, t), 0)
  {
    hide Inv, Inside;
    if s.queue != [] {
      TakeKeeps(b, s, t);
    } else if Returns(s, t) {
      ReturnKeeps(b, s);
    } else {
      SleepKeeps(b, s, t);
    }
  }

  lemma WakeHolds(s: State, t: nat)
    requires Inv(s, 0) && t < |s.threads| && s.threads[t].Asleep?
    ensures s.nIdle > 0
    ensures Inv(Hold(s, t).(nIdle := s.nIdle - 1), 1)
  {
    SumAtLeast(s.threads, Idle, t);
    assert s.nIdle > 0;
    hide Sum, Counted, Conserved, Verdict, Shaped;
    Recount(|s.queue|, s.nTodo, s.nIdle, s.nTotal, s.threads, 0, t, Ready, |s.queue|, s.nTodo, s.nIdle - 1, s.nTotal,
        1);
    RephaseRest(s.added, s.fAllOk, s.queue, s.threads, s.done, t, Ready);
  }

  lemma DoneConserved(added: multiset<Check>, queue: seq<Check>, ps: seq<Phase>, done: multiset<Check>, t: nat)
    requires Conserved(added, queue, ps, done) && t < |ps| && ps[t].Working?
    ensures Conserved(added, queue, ps[t := Ready], done + multiset(ps[t].batch))
  {
    FlightUpdate(ps, t, Ready);
    hide Flight;
    var m := multiset(ps[t].batch);
    var g := Flight(ps[t := Ready]);
    assert Flight(ps) == g + m by {
      assert Flight(ps) == Flight(ps) + multiset{};
    }
    Shift(multiset(queue), g, m, done);
  }

  lemma Shift(q: multiset<Check>, g: multiset<Check>, m: multiset<Check>, done: multiset<Check>)
    ensures q + (g + m) + done == q + g + (done + m)
  {
  }

  lemma DoneVerdict(added: multiset<Check>, fAllOk: bool, queue: seq<Check>, ps: seq<Phase>, t: nat)
    requires Verdict(added, fAllOk, queue, ps) && t < |ps| && ps[t].Working? && ps[t].next == |ps[t].batch|
    ensures Verdict(added, fAllOk && ps[t].fOk, queue, ps[t := Ready])
  {
    AnyBadUpdate(ps, t, Ready);
    hide AnyBad;
    assert ps[t].batch[ps[t].next..] == [];
  }

  /** A thread with nothing left of its batch, back inside the lock and before the master's notification. */
  lemma CompletedHolds(s: State, t: nat, ps: seq<Phase>, p: Phase)
    requires Inv(s, 0) && t < |s.threads| && p == s.threads[t] && p.Working? && p.next >= |p.batch|
    requires ps == s.threads[t := Ready]
    ensures Shaped(ps) && Counted(|s.queue|, s.nTodo - |p.batch|, s.nIdle, s.nTotal, ps, 1)
    ensures Conserved(s.added, s.queue, ps, s.done + multiset(p.batch))
    ensures Verdict(s.added, s.fAllOk && p.fOk, s.queue, ps)
    ensures s.nTodo - |p.batch| >= 0
  {
    assert PhaseOk(p, t);
    hide Sum, Counted, Conserved, Verdict, Shaped;
    DoneConserved(s.added, s.queue, s.threads, s.done, t);
    DoneVerdict(s.added, s.fAllOk, s.queue, s.threads, t);
    ShapedUpdate(s.threads, t, Ready);
    Recount(|s.queue|, s.nTodo, s.nIdle, s.nTotal, s.threads, 0, t, Ready, |s.queue|, s.nTodo - |p.batch|, s.nIdle,
        s.nTotal, 1);
    TodoNonnegative(|s.queue|, s.nTodo - |p.batch|, s.nIdle, s.nTotal, ps, 1);
  }

  lemma TodoNonnegative(queued: nat, nTodo: int, nIdle: int, nTotal: int, ps: seq<Phase>, extra: nat)
    requires Counted(queued, nTodo, nIdle, nTotal, ps, extra)
    ensures nTodo >= queued && nIdle >= 0 && nTotal >= extra
  {
  }

  lemma FinishHolds(s: State, t: nat)
    requires Inv(s, 0) && t < |s.threads| && s.threads[t].Working? && s.threads[t].next >= |s.threads[t].batch|
    ensures Inv(Cleanup(s, t), 1)
  {
    var p := s.threads[t];
    var ps := s.threads[t := Ready];
    CompletedHolds(s, t, ps, p);
    FinishAwaited(s, t);
    hide Sum, Counted, Conserved, Verdict, Shaped, Awaited;
    var c := Cleanup(s, t);
    if c.nTodo == 0 && t != MASTER && s.threads[MASTER] == Asleep(false) {
      assert c.threads == ps[MASTER := Asleep(true)];
      WokenHolds(|s.queue|, c.nTodo, s.nIdle, s.nTotal, ps);
      RephaseRest(s.added, c.fAllOk, s.queue, ps, c.done, MASTER, Asleep(true));
    } else {
      assert c.threads == ps;
    }
  }

  lemma FinishAwaited(s: State, t: nat)
    requires t < |s.threads| && s.threads[t].Working? && Awaited(s.queue, s.nTodo, s.threads)
    requires s.nTodo - |s.threads[t].batch| >= 0
    ensures Awaited(s.queue, Cleanup(s, t).nTodo, Cleanup(s, t).threads)
  {
  }

  lemma WokenHolds(queued: nat, nTodo: int, nIdle: int, nTotal: int, ps: seq<Phase>)
    requires |ps| > 0 && ps[MASTER] == Asleep(false) && Counted(queued, nTodo, nIdle, nTotal, ps, 1)
    ensures Counted(queued, nTodo, nIdle, nTotal, ps[MASTER := Asleep(true)], 1)
  {
    hide Sum, Counted;
    Recount(queued, nTodo, nIdle, nTotal, ps, 1, MASTER, Asleep(true), queued, nTodo, nIdle, nTotal, 1);
  }

  /** Two thread tables that differ only in which sleepers are marked as notified. */
  ghost predicate Alike(ps: seq<Phase>, qs: seq<Phase>) {
    |ps| == |qs| && forall t :: 0 <= t < |ps| ==> ps[t] == qs[t] || (ps[t].Asleep? && qs[t].Asleep?)
  }

  lemma {:induction false} AlikeSums(ps: seq<Phase>, qs: seq<Phase>)
    requires Alike(ps, qs)
    ensures Sum(ps, Load) == Sum(qs, Load) && Sum(ps, Idle) == Sum(qs, Idle) && Sum(ps, Inner) == Sum(qs, Inner)
    ensures Flight(ps) == Flight(qs)
  {
    if ps != [] {
      var n := |ps| - 1;
      AlikeSums(ps[..n], qs[..n]);
      assert ps[n] == qs[n] || (ps[n].Asleep? && qs[n].Asleep?);
    }
  }

  lemma AlikeBad(ps: seq<Phase>, qs: seq<Phase>)
    requires Alike(ps, qs) && Shaped(ps)
    ensures Shaped(qs) && (AnyBad(ps) <==> AnyBad(qs))
  {
    forall t | 0 <= t < |qs|
      ensures PhaseOk(qs[t], t) && (Bad(ps[t]) <==> Bad(qs[t]))
    {
      assert PhaseOk(ps[t], t);
    }
  }

  lemma AlikeKeeps(s: State, qs: seq<Phase>)
    requires Inv(s, 0) && Alike(s.threads, qs) && qs[MASTER] == s.threads[MASTER]
    ensures Inv(s.(threads := qs), 0)
  {
    AlikeSums(s.threads, qs);
    AlikeBad(s.threads, qs);
    hide Sum, Flight, AnyBad, Shaped, HasBad, AddedBad, Alike;
    assert Conserved(s.added, s.queue, qs, s.done);
    assert Verdict(s.added, s.fAllOk, s.queue, qs);
    assert Counted(|s.queue|, s.nTodo, s.nIdle, s.nTotal, qs, 0);
    hide Counted, Conserved, Verdict;
  }

  lemma OutsideKeeps(s: State, p: Phase)
    requires Inv(s, 0) && (s.threads[MASTER].Out? || s.threads[MASTER].Notifying?)
    requires (p.Out? || p.Notifying? || p.Ready?)
    ensures Inv(s.(threads := s.threads[MASTER := p]), 0)
  {
    hide Counted, Conserved, Verdict, Shaped;
    Recount(|s.queue|, s.nTodo, s.nIdle, s.nTotal, s.threads, 0, MASTER, p, |s.queue|, s.nTodo, s.nIdle, s.nTotal, 0);
    RephaseRest(s.added, s.fAllOk, s.queue, s.threads, s.done, MASTER, p);
  }

  lemma NotifyKeeps(b: nat, s: State, woken: set<nat>)
    requires Inv(s, 0) && Enabled(s, Notify(woken)) && s.nTotal >= 0 && s.nIdle >= 0
    ensures Inv(Apply(b, s, Notify(woken)), 0)
  {
    var qs := Marked(s.threads, woken);
    assert woken <= Sleepers(s);
    assert Alike(s.threads, qs);
    hide Inv, Alike;
    AlikeKeeps(s, qs);
    OutsideKeeps(s.(threads := qs), Out);
  }

  lemma AddConserved(added: multiset<Check>, fAllOk: bool, queue: seq<Check>, ps: seq<Phase>, done: multiset<Check>,
      checks: seq<Check>)
    requires Conserved(added, queue, ps, done) && Verdict(added, fAllOk, queue, ps)
    ensures Conserved(added + multiset(checks), queue + checks, ps, done)
    ensures Verdict(added + multiset(checks), fAllOk, queue + checks, ps)
  {
    BadConcat(queue, checks);
    BadAdded(added, checks);
    hide Flight, HasBad, AddedBad, AnyBad;
    assert multiset(queue + checks) == multiset(queue) + multiset(checks);
    Joined(multiset(queue), Flight(ps), done, multiset(checks));
  }

  lemma Joined(q: multiset<Check>, f: multiset<Check>, done: multiset<Check>, m: multiset<Check>)
    ensures q + f + done + m == q + m + f + done
  {
  }

  lemma AddKeeps(b: nat, s: State, checks: seq<Check>)
    requires Inv(s, 0) && Enabled(s, Add(checks)) && s.nTotal >= 0 && s.nIdle >= 0
    ensures Inv(Apply(b, s, Add(checks)), 0)
  {
    if checks != [] {
      var p := Notifying(|checks|);
      hide Counted, Conserved, Verdict, Shaped, Sleepers;
      Recount(|s.queue|, s.nTodo, s.nIdle, s.nTotal, s.threads, 0, MASTER, p, |s.queue| + |checks|,
          s.nTodo + |checks|, s.nIdle, s.nTotal, 0);
      RephaseRest(s.added, s.fAllOk, s.queue, s.threads, s.done, MASTER, p);
      AddConserved(s.added, s.fAllOk, s.queue, s.threads[MASTER := p], s.done, checks);
    }
  }

  lemma ExecuteBad(q: Phase, p: Phase)
    requires q.Working? && q.next < |q.batch| && p == Working(q.batch, q.next + 1, q.fOk && q.batch[q.next].passes)
    ensures Bad(q) <==> Bad(p)
  {
    assert q.batch[q.next..] == [q.batch[q.next]] + p.batch[p.next..];
    BadConcat([q.batch[q.next]], p.batch[p.next..]);
  }

  lemma ExecuteRest(added: multiset<Check>, fAllOk: bool, queue: seq<Check>, ps: seq<Phase>, done: multiset<Check>,
      t: nat, p: Phase)
    requires t < |ps| && ps[t].Working? && ps[t].next < |ps[t].batch|
    requires p == Working(ps[t].batch, ps[t].next + 1, ps[t].fOk && ps[t].batch[ps[t].next].passes)
    requires Shaped(ps) && Conserved(added, queue, ps, done) && Verdict(added, fAllOk, queue, ps)
    ensures Shaped(ps[t := p]) && Conserved(added, queue, ps[t := p], done) && Verdict(added, fAllOk, queue, ps[t := p])
  {
    assert PhaseOk(ps[t], t);
    ShapedUpdate(ps, t, p);
    AnyBadUpdate(ps, t, p);
    FlightUpdate(ps, t, p);
    ExecuteBad(ps[t], p);
    hide Sum, Flight, AnyBad, Shaped, Bad, HasBad, AddedBad;
    Cancel(Flight(ps[t := p]), Flight(ps), Held(p));
  }

  lemma Cancel(a: multiset<Check>, b: multiset<Check>, c: multiset<Check>)
    requires a + c == b + c
    ensures a == b
  {
    assert a == (a + c) - c;
    assert b == (b + c) - c;
  }

  lemma ExecuteKeeps(b: nat, s: State, t: nat)
    requires Inv(s, 0) && Enabled(s, Execute(t)) && s.nTotal >= 0 && s.nIdle >= 0
    ensures Inv(Apply(b, s, Execute(t)), 0)
  {
    var q := s.threads[t];
    var p := Working(q.batch, q.next + 1, if q.fOk then q.batch[q.next].passes else q.fOk);
    hide Counted, Conserved, Verdict, Shaped, Sleepers;
    Recount(|s.queue|, s.nTodo, s.nIdle, s.nTotal, s.threads, 0, t, p, |s.queue|, s.nTodo, s.nIdle, s.nTotal, 0);
    ExecuteRest(s.added, s.fAllOk, s.queue, s.threads, s.done, t, p);
  }

  /** What a step needs of the counters. */
  lemma Ticking(s: State, step: Step)
    requires Inv(s, 0) && Enabled(s, step)
    ensures s.nTotal >= 0 && s.nIdle >= 0 && (step.Wake? ==> s.nIdle > 0)
  {
    if step.Wake? {
      WakeHolds(s, step.t);
    }
  }

  lemma EnterHolds(s: State, t: nat)
    requires Inv(s, 0)
    ensures Inv(s.(nTotal := s.nTotal + 1), 1)
  {
  }

  lemma Locked(s: State)
    requires Inv(s, 1)
    ensures s.nTotal >= 0 && s.nIdle >= 0
  {
  }

  lemma EnterKeeps(b: nat, s: State, t: nat)
    requires Inv(s, 0) && Enabled(s, Enter(t)) && s.nTotal >= 0 && s.nIdle >= 0
    ensures Inv(Apply(b, s, Enter(t)), 0)
  {
    hide Inv, Inside;
    EnterHolds(s, t);
    InsideKeeps(b, s.(nTotal := s.nTotal + 1), t);
  }

  lemma WakeKeeps(b: nat, s: State, t: nat)
    requires Inv(s, 0) && Enabled(s, Wake(t)) && s.nTotal >= 0 && s.nIdle > 0
    ensures Inv(Apply(b, s, Wake(t)), 0)
  {
    hide Inv, Inside;
    WakeHolds(s, t);
    InsideKeeps(b, Hold(s, t).(nIdle := s.nIdle - 1), t);
  }

  lemma FinishKeeps(b: nat, s: State, t: nat)
    requires Inv(s, 0) && Enabled(s, Finish(t)) && s.nTotal >= 0 && s.nIdle >= 0
    ensures Inv(Apply(b, s, Finish(t)), 0)
  {
    hide Inv, Inside;
    FinishHolds(s, t);
    Locked(Cleanup(s, t));
    InsideKeeps(b, Cleanup(s, t), t);
  }

  /** Every step of every thread keeps the invariant. */
  lemma StepKeeps(b: nat, s: State, step: Step)
    requires Inv(s, 0) && Enabled(s, step)
    ensures s.nTotal >= 0 && s.nIdle >= 0 && (step.Wake? ==> s.nIdle > 0)
    ensures Inv(Apply(b, s, step), 0)
  {
    Ticking(s, step);
    match step
    case Add(checks) => hide Inv, Apply; AddKeeps(b, s, checks);
    case Notify(woken) => hide Inv, Apply; NotifyKeeps(b, s, woken);
    case Wait => hide Inv; OutsideKeeps(s, Ready);
    case Enter(t) => hide Inv, Apply; EnterKeeps(b, s, t);
    case Wake(t) => hide Inv, Apply; WakeKeeps(b, s, t);
    case Execute(t) => hide Inv, Apply; ExecuteKeeps(b, s, t);
    case Finish(t) => hide Inv, Apply; FinishKeeps(b, s, t);
  }

  // ---------------------------------------------------------------- runs

  predicate Runs(b: nat, s: State, steps: seq<Step>)
    decreases |steps|
  {
    steps == [] ||
    (&& Enabled(s, steps[0])
     && s.nTotal >= 0 && s.nIdle >= 0 && (steps[0].Wake? ==> s.nIdle > 0)
     && Runs(b, Apply(b, s, steps[0]), steps[1..]))
  }

  function After(b: nat, s: State, steps: seq<Step>): State
    requires Runs(b, s, steps)
    decreases |steps|
  {
    if steps == [] then s else After(b, Apply(b, s, steps[0]), steps[1..])
  }

  lemma {:induction false} RunKeeps(b: nat, s: State, steps: seq<Step>)
    requires Inv(s, 0) && Runs(b, s, steps)
    ensures Inv(After(b, s, steps), 0)
    decreases |steps|
  {
    if steps != [] {
      hide Inv;
      StepKeeps(b, s, steps[0]);
      RunKeeps(b, Apply(b, s, steps[0]), steps[1..]);
    }
  }

  lemma {:induction false} InitShares(workers: nat, k: Kind)
    requires k != Weight
    ensures Sum(Init(workers).threads, k) == 0 && Flight(Init(workers).threads) == multiset{}
  {
    var ps := Init(workers).threads;
    if workers > 0 {
      InitShares(workers - 1, k);
      assert ps[..workers] == Init(workers - 1).threads;
    } else {
      assert ps[..0] == [];
    }
  }

  lemma InitHolds(workers: nat)
    ensures Inv(Init(workers), 0)
  {
    InitShares(workers, Load);
    InitShares(workers, Idle);
    InitShares(workers, Inner);
    hide Sum, Flight;
    var none: multiset<Check> := multiset{};
    assert none + none + none == none;
  }

  /** In every reachable state the counters are exact, every check added is accounted for exactly once
      and a failing check is either recorded or still to be reported. */
  lemma Reachable(b: nat, workers: nat, steps: seq<Step>)
    requires Runs(b, Init(workers), steps)
    ensures Inv(After(b, Init(workers), steps), 0)
  {
    InitHolds(workers);
    RunKeeps(b, Init(workers), steps);
  }

  /** The state in which a thread that takes this step tests the queue. */
  function Entering(s: State, step: Step): State
    requires Enabled(s, step) && (step.Enter? || step.Wake? || step.Finish?)
  {
    match step
    case Enter(t) => s.(nTotal := s.nTotal + 1)
    case Wake(t) => Hold(s, t).(nIdle := s.nIdle - 1)
    case Finish(t) => Cleanup(s, t)
  }

  /** Wait returns during this step. */
  predicate Returning(s: State, step: Step)
    requires Enabled(s, step)
  {
    (step.Enter? || step.Wake? || step.Finish?) && Returns(Entering(s, step), step.t)
  }

  /** Whenever Wait returns, every check added since it last returned has been completed, none is queued
      or in flight, and its result says whether all of them pass. */
  lemma WaitAnswers(b: nat, workers: nat, steps: seq<Step>, step: Step)
    requires Runs(b, Init(workers), steps)
    requires Enabled(After(b, Init(workers), steps), step)
    requires Returning(After(b, Init(workers), steps), step)
    ensures
      var s := After(b, Init(workers), steps);
      var e := Entering(s, step);
      && (e.fAllOk <==> forall c :: c in s.added ==> c.passes)
      && e.done == s.added && e.queue == []
      && (forall t :: 0 <= t < |e.threads| ==> !e.threads[t].Working?)
  {
    Reachable(b, workers, steps);
    var s := After(b, Init(workers), steps);
    var e := Entering(s, step);
    hide Runs, After;
    match step {
      case Enter(t) => EnterHolds(s, t);
      case Wake(t) => WakeHolds(s, t);
      case Finish(t) => FinishHolds(s, t);
    }
    ReturnValue(e);
    forall t | 0 <= t < |e.threads|
      ensures !e.threads[t].Working?
    {
      SumAtLeast(e.threads, Load, t);
      assert PhaseOk(e.threads[t], t);
    }
  }

  // ---------------------------------------------------------------- sharing out the work

  lemma {:induction false} ReversedAt(s: seq<Check>, i: nat)
    requires i < |s|
    ensures Reverse(s)[i] == s[|s| - 1 - i]
  {
    if i < |s| - 1 {
      ReversedAt(s[1..], i);
    }
  }

  /** The batch is the largest within the limit of which the queue holds one for every thread in the loop, one more for
      every idle one and one besides; but it has at least one check. */
  lemma BatchMeans(nBatchSize: nat, queued: nat, nTotal: int, nIdle: int)
    requires queued > 0 && nTotal >= 0 && nIdle >= 0
    ensures
      var n, shares := BatchSize(nBatchSize, queued, nTotal, nIdle), nTotal + nIdle + 1;
      && (n == 1 || (n <= nBatchSize && n * shares <= queued))
      && (n + 1 > nBatchSize || (n + 1) * shares > queued)
  {
    var shares := nTotal + nIdle + 1;
    var q := queued / shares;
    assert queued == q * shares + queued % shares;
    var n := BatchSize(nBatchSize, queued, nTotal, nIdle);
    if n > 1 {
      MulMono(n, q, shares);
    }
    if n + 1 <= nBatchSize {
      MulMono(q + 1, n + 1, shares);
      Distribute(q, 1, shares);
    }
  }

  lemma InsideTakes(b: nat, e: State, t: nat)
    requires t < |e.threads| && e.nTotal >= 0 && e.nIdle >= 0 && e.queue != []
    ensures
      var after := Inside(b, e, t);
      && after.threads[t].Working?
      && var w := after.threads[t];
      && |w.batch| == BatchSize(b, |e.queue|, e.nTotal, e.nIdle) && w.next == 0 && w.fOk == e.fAllOk
      && after.queue == e.queue[..|e.queue| - |w.batch|]
      && (forall i :: 0 <= i < |w.batch| ==> w.batch[i] == e.queue[|e.queue| - 1 - i])
      && after.nTodo == e.nTodo && after.fAllOk == e.fAllOk
  {
    var n := BatchSize(b, |e.queue|, e.nTotal, e.nIdle);
    hide BatchSize, Reverse;
    var tail := e.queue[|e.queue| - n..];
    forall i | 0 <= i < n
      ensures Reverse(tail)[i] == e.queue[|e.queue| - 1 - i]
    {
      ReversedAt(tail, i);
    }
  }

  lemma ApplyIsInside(b: nat, s: State, step: Step)
    requires Enabled(s, step) && (step.Enter? || step.Wake? || step.Finish?)
    requires s.nTotal >= 0 && s.nIdle >= 0 && (step.Wake? ==> s.nIdle > 0)
    ensures
      var e := Entering(s, step);
      && step.t < |s.threads| == |e.threads| && e.nTotal >= 0 && e.nIdle >= 0
      && Apply(b, s, step) == Inside(b, e, step.t)
  {
    hide Inside, Sleepers;
  }

  /** A thread that finds checks takes its batch from the back of the queue, the last check first. */
  lemma TakesFromBack(b: nat, s: State, step: Step)
    requires Inv(s, 0) && Enabled(s, step) && (step.Enter? || step.Wake? || step.Finish?)
    requires Entering(s, step).queue != []
    ensures s.nTotal >= 0 && s.nIdle >= 0 && (step.Wake? ==> s.nIdle > 0) && step.t < |Apply(b, s, step).threads|
    ensures
      var e, after := Entering(s, step), Apply(b, s, step);
      && after.threads[step.t].Working?
      && var w := after.threads[step.t];
      && 1 <= |w.batch| <= |e.queue| && w.next == 0 && w.fOk == e.fAllOk
      && after.queue == e.queue[..|e.queue| - |w.batch|]
      && (forall i :: 0 <= i < |w.batch| ==> w.batch[i] == e.queue[|e.queue| - 1 - i])
      && after.nTodo == e.nTodo && after.fAllOk == e.fAllOk
  {
    Ticking(s, step);
    ApplyIsInside(b, s, step);
    InsideTakes(b, Entering(s, step), step.t);
    SameThreads(b, Entering(s, step), step.t, step.t);
    hide Inv, Apply, Inside, Entering, BatchSize;
  }

  lemma SameThreads(b: nat, e: State, t: nat, u: nat)
    requires t < |e.threads| && e.nTotal >= 0 && e.nIdle >= 0
    ensures |Inside(b, e, t).threads| == |e.threads|
    ensures u != t && u < |e.threads| ==> Inside(b, e, t).threads[u] == e.threads[u]
  {
    hide BatchSize, Reverse;
  }

  /** Add appends its checks in order and goes on to notify for that many. */
  lemma AddMeans(b: nat, s: State, checks: seq<Check>)
    requires Enabled(s, Add(checks)) && s.nTotal >= 0 && s.nIdle >= 0
    ensures
      var after := Apply(b, s, Add(checks));
      && after.queue == s.queue + checks && after.nTodo == s.nTodo + |checks|
      && after.threads == (if checks == [] then s.threads else s.threads[0 := Notifying(|checks|)])
      && after.nIdle == s.nIdle && after.nTotal == s.nTotal && after.fAllOk == s.fAllOk
  {
  }

  /** Add can always notify: for one check any one of the workers asleep, otherwise all of them. */
  lemma NotifyChoices(s: State, u: nat)
    requires |s.threads| > 0 && s.threads[MASTER].Notifying?
    ensures s.threads[MASTER].added != 1 ==> Enabled(s, Notify(Sleepers(s)))
    ensures s.threads[MASTER].added == 1 && u in Sleepers(s) ==> Enabled(s, Notify({u}))
    ensures s.threads[MASTER].added == 1 && Sleepers(s) == {} ==> Enabled(s, Notify({}))
  {
    if u in Sleepers(s) {
      Fewer(Sleepers(s), {u});
    }
  }

  /** Add's notification, one for one check and one for all otherwise: the workers without a pending notification
      that it reaches get one, and nobody and nothing else changes. */
  lemma NotifyReaches(b: nat, s: State, woken: set<nat>)
    requires Inv(s, 0) && Enabled(s, Notify(woken))
    ensures s.nTotal >= 0 && s.nIdle >= 0
    ensures
      var after := Apply(b, s, Notify(woken));
      && after == s.(threads := after.threads) && |after.threads| == |s.threads| && after.threads[MASTER] == Out
      && (forall u :: 0 < u < |s.threads| ==>
            after.threads[u] == s.threads[u] || (s.threads[u] == Asleep(false) && after.threads[u] == Asleep(true)))
      && (s.threads[MASTER].added != 1 ==> forall u :: 0 < u < |s.threads| ==> after.threads[u] != Asleep(false))
      && (s.threads[MASTER].added == 1 ==> |Sleepers(after)| == if Sleepers(s) == {} then 0 else |Sleepers(s)| - 1)
  {
    Ticking(s, Notify(woken));
    hide Inv;
    var after := Apply(b, s, Notify(woken));
    assert woken <= Sleepers(s);
    assert Sleepers(after) == Sleepers(s) - woken;
    if s.threads[MASTER].added == 1 {
      Fewer(Sleepers(s), woken);
    }
  }

  lemma Fewer(all: set<nat>, some: set<nat>)
    requires some <= all
    ensures |all - some| == |all| - |some| && (|all| == 0 <==> all == {})
  {
    assert all == (all - some) + some;
  }

  /** A pending notification is kept until its worker wakes. */
  lemma StaysNotified(b: nat, s: State, step: Step, u: nat)
    requires Inv(s, 0) && Enabled(s, step) && step != Wake(u)
    requires 0 < u < |s.threads| && s.threads[u] == Asleep(true)
    ensures s.nTotal >= 0 && s.nIdle >= 0 && (step.Wake? ==> s.nIdle > 0)
    ensures |Apply(b, s, step).threads| == |s.threads| && Apply(b, s, step).threads[u] == Asleep(true)
  {
    Ticking(s, step);
    if step.Enter? || step.Wake? || step.Finish? {
      ApplyIsInside(b, s, step);
      EnteringKeeps(s, step, u);
      SameThreads(b, Entering(s, step), step.t, u);
      hide Inv, Apply, Inside, Entering;
    } else {
      hide Inv;
    }
  }

  lemma EnteringKeeps(s: State, step: Step, u: nat)
    requires Enabled(s, step) && (step.Enter? || step.Wake? || step.Finish?) && step != Wake(u)
    requires 0 < u < |s.threads| && s.threads[u] == Asleep(true)
    ensures |Entering(s, step).threads| == |s.threads| && Entering(s, step).threads[u] == Asleep(true) && step.t != u
  {
  }

  /** However the threads are scheduled, a worker that was notified can take a step that does work until it has. */
  lemma {:induction false} NotifiedCanWork(b: nat, s: State, steps: seq<Step>, u: nat)
    requires Inv(s, 0) && Runs(b, s, steps) && Wake(u) !in steps
    requires 0 < u < |s.threads| && s.threads[u] == Asleep(true)
    ensures var after := After(b, s, steps); Enabled(after, Wake(u)) && Moves(after, Wake(u))
    decreases |steps|
  {
    if steps != [] {
      assert steps[0] in steps && forall x :: x in steps[1..] ==> x in steps;
      StepKeeps(b, s, steps[0]);
      StaysNotified(b, s, steps[0], u);
      hide Inv, Apply, Enabled;
      NotifiedCanWork(b, Apply(b, s, steps[0]), steps[1..], u);
    }
  }

  /** So once Add has notified, every worker that slept while two or more checks were added can take a step that does
      work, in whatever order the others move; and for one check, if any worker slept, one of them can. */
  lemma AddWakes(b: nat, s: State, woken: set<nat>, steps: seq<Step>) returns (reached: set<nat>)
    requires Inv(s, 0) && Enabled(s, Notify(woken)) && s.nTotal >= 0 && s.nIdle >= 0
    requires Runs(b, Apply(b, s, Notify(woken)), steps)
    ensures reached <= Sleepers(s) && (Sleepers(s) != {} ==> reached != {})
    ensures s.threads[MASTER].added != 1 ==> reached == Sleepers(s)
    ensures forall u :: u in reached && Wake(u) !in steps ==>
      var after := After(b, Apply(b, s, Notify(woken)), steps);
      Enabled(after, Wake(u)) && Moves(after, Wake(u))
  {
    reached := woken;
    NotifyReaches(b, s, woken);
    StepKeeps(b, s, Notify(woken));
    var next := Apply(b, s, Notify(woken));
    Fewer(Sleepers(s), woken);
    forall u | u in reached && Wake(u) !in steps
      ensures Enabled(After(b, next, steps), Wake(u)) && Moves(After(b, next, steps), Wake(u))
    {
      assert u in Sleepers(s) && next.threads[u] == Asleep(true);
      NotifiedCanWork(b, next, steps, u);
    }
  }

  // ---------------------------------------------------------------- progress

  /** A master asleep without a pending notification always has a worker at work that will notify it. */
  lemma NoLostWakeup(s: State) returns (t: nat)
    requires Inv(s, 0) && s.threads[MASTER] == Asleep(false)
    ensures 0 < t < |s.threads| && s.threads[t].Working?
  {
    t := SumSome(s.threads, Load);
  }

  function Potential(s: State): nat {
    5 * |s.queue| + Sum(s.threads, Weight)
  }

  /** A step of the loop other than a wake-up nobody asked for. */
  predicate Moves(s: State, step: Step)
    requires Enabled(s, step)
  {
    match step
    case Add(_) => false
    case Notify(_) => false
    case Wait => false
    case Wake(t) => s.threads[t].notified
    case _ => true
  }

  lemma InsideDescends(b: nat, s: State, t: nat)
    requires t < |s.threads| && s.threads[t] == Ready && s.nTotal >= 0 && s.nIdle >= 0
    ensures s.queue == [] ==> Potential(Inside(b, s, t)) + 2 == Potential(s)
    ensures s.queue != [] ==> Potential(Inside(b, s, t)) + 3 <= Potential(s)
  {
    hide Sum, BatchSize, Reverse;
    var e := Inside(b, s, t);
    SumUpdate(s.threads, t, e.threads[t], Weight);
    assert e.threads == s.threads[t := e.threads[t]];
  }

  lemma CleanupDescends(s: State, t: nat)
    requires t < |s.threads| && s.threads[t].Working? && s.threads[t].next >= |s.threads[t].batch|
    ensures Potential(Cleanup(s, t)) <= Potential(s) + 1
  {
    hide Sum;
    var e := Cleanup(s, t);
    SumUpdate(s.threads, t, Ready, Weight);
    var ps := s.threads[t := Ready];
    SumUpdate(ps, MASTER, Asleep(true), Weight);
    assert e.threads == ps || (s.threads[MASTER] == Asleep(false) && t != MASTER &&
      e.threads == ps[MASTER := Asleep(true)]);
  }

  lemma EnterDescends(b: nat, s: State, t: nat)
    requires Enabled(s, Enter(t)) && s.nTotal >= 0 && s.nIdle >= 0
    ensures Potential(Apply(b, s, Enter(t))) < Potential(s)
  {
    hide Sum, Inside, Sleepers;
    InsideDescends(b, s.(nTotal := s.nTotal + 1), t);
  }

  lemma WakeDescends(b: nat, s: State, t: nat)
    requires Enabled(s, Wake(t)) && s.nTotal >= 0 && s.nIdle > 0
    ensures Potential(Apply(b, s, Wake(t))) <= Potential(s)
    ensures s.threads[t].notified ==> Potential(Apply(b, s, Wake(t))) < Potential(s)
  {
    hide Sum, Inside, Sleepers;
    SumUpdate(s.threads, t, Ready, Weight);
    InsideDescends(b, Hold(s, t).(nIdle := s.nIdle - 1), t);
  }

  lemma FinishDescends(b: nat, s: State, t: nat)
    requires Enabled(s, Finish(t)) && s.nTotal >= 0 && s.nIdle >= 0
    ensures Potential(Apply(b, s, Finish(t))) < Potential(s)
  {
    CleanupDescends(s, t);
    hide Sum, Inside, Potential, Sleepers;
    InsideDescends(b, Cleanup(s, t), t);
  }

  lemma ExecuteDescends(b: nat, s: State, t: nat)
    requires Enabled(s, Execute(t)) && s.nTotal >= 0 && s.nIdle >= 0
    ensures Potential(Apply(b, s, Execute(t))) < Potential(s)
  {
    hide Sum, Sleepers;
    var p := s.threads[t];
    var q := Working(p.batch, p.next + 1, if p.fOk then p.batch[p.next].passes else p.fOk);
    SumUpdate(s.threads, t, q, Weight);
  }

  /** Every step of the loop lowers the potential, except a wake-up nobody asked for, which cannot raise it. */
  lemma StepDescends(b: nat, s: State, step: Step)
    requires Inv(s, 0) && Enabled(s, step) && (Moves(s, step) || step.Wake?)
    ensures s.nTotal >= 0 && s.nIdle >= 0 && (step.Wake? ==> s.nIdle > 0)
    ensures Potential(Apply(b, s, step)) <= Potential(s)
    ensures Moves(s, step) ==> Potential(Apply(b, s, step)) < Potential(s)
  {
    Ticking(s, step);
    match step {
      case Enter(t) => hide Inv, Potential, Apply; EnterDescends(b, s, t);
      case Wake(t) => hide Inv, Potential, Apply; WakeDescends(b, s, t);
      case Execute(t) => hide Inv, Potential, Apply; ExecuteDescends(b, s, t);
      case Finish(t) => hide Inv, Potential, Apply; FinishDescends(b, s, t);
    }
  }

  /** The master is inside Wait. */
  predicate Waiting(s: State) {
    |s.threads| > 0 && (s.threads[MASTER].Ready? || s.threads[MASTER].Asleep? || s.threads[MASTER].Working?)
  }

  /** While the master waits, some thread can always take a step that moves the work forward. */
  lemma NeverStuck(s: State) returns (step: Step)
    requires Inv(s, 0) && Waiting(s)
    ensures Enabled(s, step) && Moves(s, step)
  {
    var t := MASTER;
    if s.threads[MASTER] == Asleep(false) {
      t := NoLostWakeup(s);
    }
    match s.threads[t]
    case Ready => step := Enter(t);
    case Asleep(_) => step := Wake(t);
    case Working(batch, next, _) => step := if next < |batch| then Execute(t) else Finish(t);
  }

  /** Steps of the loop only, wake-ups nobody asked for among them. */
  predicate Looping(b: nat, s: State, steps: seq<Step>)
    requires Runs(b, s, steps)
    decreases |steps|
  {
    steps == [] || ((Moves(s, steps[0]) || steps[0].Wake?) && Looping(b, Apply(b, s, steps[0]), steps[1..]))
  }

  /** How many of them do work. */
  function Works(b: nat, s: State, steps: seq<Step>): nat
    requires Runs(b, s, steps)
    decreases |steps|
  {
    if steps == [] then 0
    else (if Moves(s, steps[0]) then 1 else 0) + Works(b, Apply(b, s, steps[0]), steps[1..])
  }

  /** However the threads are scheduled, only so many steps can do work. */
  lemma {:induction false} Bounded(b: nat, s: State, steps: seq<Step>)
    requires Inv(s, 0) && Runs(b, s, steps) && Looping(b, s, steps)
    ensures Works(b, s, steps) + Potential(After(b, s, steps)) <= Potential(s)
    decreases |steps|
  {
    if steps != [] {
      hide Inv, Potential, Enabled;
      StepKeeps(b, s, steps[0]);
      StepDescends(b, s, steps[0]);
      Bounded(b, Apply(b, s, steps[0]), steps[1..]);
    }
  }

  /** No step that does work is left. */
  ghost predicate Spent(s: State) {
    forall step :: Enabled(s, step) ==> !Moves(s, step)
  }

  /** However the threads are scheduled and whatever wakes them, once no working step is left Wait has returned, and
      that after no more working steps than the potential. */
  lemma WaitReturns(b: nat, s: State, steps: seq<Step>)
    requires Inv(s, 0) && Runs(b, s, steps) && Looping(b, s, steps)
    ensures Works(b, s, steps) <= Potential(s)
    ensures Spent(After(b, s, steps)) ==> !Waiting(After(b, s, steps))
  {
    Bounded(b, s, steps);
    RunKeeps(b, s, steps);
    var t := After(b, s, steps);
    hide Inv, Potential, Enabled, Runs, After, Works, Looping;
    if Waiting(t) {
      var step := NeverStuck(t);
    }
  }

  /** And there is such a run from every reachable state. */
  lemma {:induction false} RunToTheEnd(b: nat, s: State) returns (steps: seq<Step>)
    requires Inv(s, 0)
    ensures Runs(b, s, steps) && Looping(b, s, steps) && !Waiting(After(b, s, steps))
    decreases Potential(s)
  {
    steps := [];
    if Waiting(s) {
      var step := NeverStuck(s);
      StepKeeps(b, s, step);
      StepDescends(b, s, step);
      hide Inv, Potential, Enabled, Apply;
      var rest := RunToTheEnd(b, Apply(b, s, step));
      steps := [step] + rest;
      assert steps[1..] == rest;
    }
  }
}
