/**
 The auto-reset event on top of the counting semaphore.  `status` is 1 when the event is signalled,
 0 when it is reset, and -n when n waits have gone to the semaphore.  Inside m_sema.signal() and
 m_sema.wait() a thread runs the semaphore's own machine, under the same thread number.
 `sets` and `released` count the signals that changed the status and the waits that returned.
*/
module AutoResetEvent {
  import opened Finite
  import opened Sem = LightSemaphore

  // The next atomic action of a thread.
  datatype EventPc =
    | Out
    | SetLoad               // signal: load m_status
    | SetCas(seen: int)     // assert seen <= 1, m_status.CAS(seen, seen + 1)
    | InSignal              // inside m_sema.signal()
    | WaitSub               // wait: m_status.fetch_sub(1), assert on the old value
    | InWait                // inside m_sema.wait()

  datatype Event = Event(status: int, sem: Sem.State, threads: seq<EventPc>, start: int, sets: nat, released: nat)

  ghost predicate Start(e: Event) {
    && 0 <= e.start <= 1 && e.status == e.start
    && e.sets == e.released == 0
    && Sem.Init(e.sem) && e.sem.initial == 0
    && |e.threads| == |e.sem.threads|
    && forall t | 0 <= t < |e.threads| :: e.threads[t] == Out
  }

  function Enter(e: Event, t: Thread, pc: EventPc, inner: Sem.Pc): Event
    requires t < |e.threads| == |e.sem.threads|
  {
    e.(threads := e.threads[t := pc], sem := e.sem.(threads := e.sem.threads[t := inner]))
  }

  function Goto(e: Event, t: Thread, pc: EventPc): Event
    requires t < |e.threads|
  {
    e.(threads := e.threads[t := pc])
  }

  // An action of the semaphore; the call returns when the semaphore's machine is idle again.
  function Inside(e: Event, t: Thread, choice: bool): Event
    requires t < |e.threads| == |e.sem.threads|
  {
    var sem := Sem.Exec(e.sem, t, choice);
    if sem.threads[t] != Idle then e.(sem := sem)
    else Goto(e, t, Out).(sem := sem, released := e.released + if e.threads[t] == InWait then 1 else 0)
  }

  // One action; `choice` is a spurious failure of the weak CAS, or the semaphore's own choice.
  function Act(e: Event, t: Thread, choice: bool): Event
    requires t < |e.threads| == |e.sem.threads|
  {
    match e.threads[t]
    case Out => e
    case SetLoad => Goto(e, t, SetCas(e.status))
    case SetCas(seen) =>
      if seen == 1 then Goto(e, t, Out)
      else if e.status == seen && !choice then
        var e1 := e.(status := seen + 1, sets := e.sets + 1);
        if seen < 0 then Enter(e1, t, InSignal, SignalAdd(1)) else Goto(e1, t, Out)
      else Goto(e, t, SetCas(e.status))
    case WaitSub =>
      var e1 := e.(status := e.status - 1);
      if e.status < 1 then Enter(e1, t, InWait, TryLoad(1, true, 0)) else Goto(e1, t, Out).(released := e.released + 1)
    case InSignal => Inside(e, t, choice)
    case InWait => Inside(e, t, choice)
  }

  ghost predicate Next(e: Event, e': Event) {
    && |e.threads| == |e.sem.threads|
    && exists t: nat | t < |e.threads| ::
         || (e.threads[t] == Out && (e' == Goto(e, t, SetLoad) || e' == Goto(e, t, WaitSub)))
         || e' == Act(e, t, false)
         || e' == Act(e, t, true)
  }

  ghost predicate IsRun(run: seq<Event>) {
    && |run| > 0
    && Start(run[0])
    && forall i | 0 <= i < |run| - 1 :: Next(run[i], run[i + 1])
  }

  // ----- The invariant -----

  // A semaphore thread that waits, and one whose signal has not been added yet.
  function Waits(pc: Pc): nat { if pc.Idle? || pc.SignalAdd? || pc.SignalPost? then 0 else 1 }
  function Unsent(pc: Pc): nat { if pc.SignalAdd? then 1 else 0 }

  // The event uses the semaphore one token at a time.
  predicate WaitsForOne(inner: Pc) {
    match inner
    case TryLoad(limit, insists, got) => limit == 1 && insists && got == 0
    case TryCas(limit, insists, got, _) => limit == 1 && insists && got == 0
    case SpinLoad(limit) => limit == 1
    case SpinCas(limit, _) => limit == 1
    case Decrement(limit) => limit == 1
    case Blocked(limit) => limit == 1
    case _ => false
  }

  predicate PairOk(pc: EventPc, inner: Pc) {
    match pc
    case InSignal => (inner.SignalAdd? && inner.n == 1) || inner.SignalPost?
    case InWait => WaitsForOne(inner)
    case SetCas(seen) => seen <= 1 && inner.Idle?
    case _ => inner.Idle?
  }

  ghost predicate PairsOk(threads: seq<EventPc>, inners: seq<Pc>) {
    |threads| == |inners| && forall t | 0 <= t < |threads| :: PairOk(threads[t], inners[t])
  }

  // The waits inside the semaphore are those below zero, those a signal is on its way to, and those
  // whose token is in the semaphore already.
  ghost predicate Accounted(status: int, waits: nat, unsent: nat, signalled: nat, granted: nat) {
    waits + granted == Max0(-status) + unsent + signalled
  }

  ghost predicate Inv(e: Event) {
    && e.status <= 1 && 0 <= e.start
    && Sem.Inv(e.sem) && e.sem.initial == 0
    && |e.threads| == |e.sem.threads| && PairsOk(e.threads, e.sem.threads)
    && Accounted(e.status, Sum(e.sem.threads, Waits), Sum(e.sem.threads, Unsent), e.sem.signalled, Granted(e.sem.log))
    && e.released + Sum(e.sem.threads, Waits) + e.status == e.start + e.sets
  }

  // What an action of the semaphore means for the event.
  lemma InnerAction(pc: EventPc, inner: Pc, c: Cells, choice: bool)
    requires (pc == InSignal || pc == InWait) && PairOk(pc, inner) && PcOk(inner)
    ensures var (c', inner') := Action(inner, c, choice);
      && (inner' == Idle || PairOk(pc, inner'))
      && Waits(inner') + Granted(c'.log) - Unsent(inner') - c'.signalled ==
           Waits(inner) + Granted(c.log) - Unsent(inner) - c.signalled
      && (inner' == Idle ==> Waits(inner) == if pc == InWait then 1 else 0)
      && (inner' != Idle ==> Waits(inner) == Waits(inner'))
  {
    hide Granted;
    forall r: Return ensures Granted(c.log + [r]) == Granted(c.log) + r.got { GrantedAppend(c.log, r); }
  }

  lemma PairsStay(threads: seq<EventPc>, inners: seq<Pc>, t: nat, pc: EventPc, inner: Pc)
    requires PairsOk(threads, inners) && t < |threads| && PairOk(pc, inner)
    ensures PairsOk(threads[t := pc], inners[t := inner])
  {
  }

  lemma InsideKeepsInv(e: Event, t: Thread, choice: bool)
    requires Inv(e) && t < |e.threads| && (e.threads[t] == InSignal || e.threads[t] == InWait)
    ensures Inv(Inside(e, t, choice))
  {
    hide Action, PcOk, PcsOk, ReturnOk, Granted, Sum, PairsOk, Conserved, Covered;
    var e', pc, inner, c := Inside(e, t, choice), e.threads[t], e.sem.threads[t], CellsOf(e.sem);
    var inner' := Action(inner, c, choice).1;
    assert PcOk(inner) && PairOk(pc, inner) by { OneOk(e, t); }
    InnerAction(pc, inner, c, choice);
    ExecKeepsInv(e.sem, t, choice);
    SumUpdate(e.sem.threads, t, inner', Waits);
    SumUpdate(e.sem.threads, t, inner', Unsent);
    PairsStay(e.threads, e.sem.threads, t, e'.threads[t], inner');
    assert e.threads[t := pc] == e.threads;
  }

  lemma OneOk(e: Event, t: Thread)
    requires Inv(e) && t < |e.threads|
    ensures PcOk(e.sem.threads[t]) && PairOk(e.threads[t], e.sem.threads[t])
  {
  }

  lemma EnterKeepsInv(e: Event, t: Thread, pc: EventPc, inner: Pc)
    requires Inv(e) && t < |e.threads| && e.sem.threads[t] == Idle && Call(inner) && PairOk(pc, inner)
    ensures Sem.Inv(Enter(e, t, pc, inner).sem)
      && PairsOk(Enter(e, t, pc, inner).threads, Enter(e, t, pc, inner).sem.threads)
    ensures Sum(Enter(e, t, pc, inner).sem.threads, Waits) == Sum(e.sem.threads, Waits) + Waits(inner)
    ensures Sum(Enter(e, t, pc, inner).sem.threads, Unsent) == Sum(e.sem.threads, Unsent) + Unsent(inner)
  {
    hide Sum, PairsOk;
    CallKeepsInv(e.sem, t, inner);
    PairsStay(e.threads, e.sem.threads, t, pc, inner);
    SumUpdate(e.sem.threads, t, inner, Waits);
    SumUpdate(e.sem.threads, t, inner, Unsent);
  }

  lemma GotoKeepsPairs(e: Event, t: Thread, pc: EventPc)
    requires Inv(e) && t < |e.threads| && e.sem.threads[t] == Idle && PairOk(pc, Idle)
    ensures PairsOk(Goto(e, t, pc).threads, e.sem.threads)
  {
    hide Sem.Inv, Sum, PairsOk;
    PairsStay(e.threads, e.sem.threads, t, pc, Idle);
    assert e.sem.threads[t := Idle] == e.sem.threads;
  }

  lemma ActKeepsInv(e: Event, t: Thread, choice: bool)
    requires Inv(e) && t < |e.threads|
    ensures Inv(Act(e, t, choice)) && Act(e, t, choice).start == e.start
  {
    hide Sem.Inv, Sum, PairsOk, Granted, Action;
    OneOk(e, t);
    var pc, e' := e.threads[t], Act(e, t, choice);
    if pc == InSignal || pc == InWait {
      InsideKeepsInv(e, t, choice);
    } else if e'.threads[t] == InSignal {
      EnterKeepsInv(e, t, InSignal, SignalAdd(1));
    } else if e'.threads[t] == InWait {
      EnterKeepsInv(e, t, InWait, TryLoad(1, true, 0));
    } else if pc != Out {
      GotoKeepsPairs(e, t, e'.threads[t]);
    }
  }

  lemma NextKeepsInv(e: Event, e': Event)
    requires Inv(e) && Next(e, e')
    ensures Inv(e') && e'.start == e.start
  {
    hide Inv, Act;
    var t: nat :| t < |e.threads| && (
      || (e.threads[t] == Out && (e' == Goto(e, t, SetLoad) || e' == Goto(e, t, WaitSub)))
      || e' == Act(e, t, false) || e' == Act(e, t, true));
    if e' == Act(e, t, false) {
      ActKeepsInv(e, t, false);
    } else if e' == Act(e, t, true) {
      ActKeepsInv(e, t, true);
    } else {
      CallsKeepInv(e, t);
    }
  }

  lemma CallsKeepInv(e: Event, t: Thread)
    requires Inv(e) && t < |e.threads| && e.threads[t] == Out
    ensures Inv(Goto(e, t, SetLoad)) && Inv(Goto(e, t, WaitSub))
  {
    hide Sem.Inv, Sum, PairsOk, Granted;
    OneOk(e, t);
    GotoKeepsPairs(e, t, SetLoad);
    GotoKeepsPairs(e, t, WaitSub);
  }

  lemma StartInv(e: Event)
    requires Start(e)
    ensures Inv(e)
  {
    hide Sem.Inv;
    Sem.InitInv(e.sem);
    SumZero(e.sem.threads, Waits);
    SumZero(e.sem.threads, Unsent);
  }

  lemma {:induction false} RunInv(run: seq<Event>, k: nat)
    requires IsRun(run) && k < |run|
    ensures Inv(run[k]) && run[k].start == run[0].start
  {
    hide Inv, Next;
    if k == 0 {
      StartInv(run[0]);
    } else {
      RunInv(run, k - 1);
      NextKeepsInv(run[k - 1], run[k]);
    }
  }

  // ----- Safety of every run -----

  // The asserts on the status hold, and the waits never outnumber the signals that had an effect.
  lemma NeverReleasesTooMany(run: seq<Event>, k: nat, t: Thread)
    requires IsRun(run) && k < |run| && t < |run[k].threads|
    ensures run[k].status <= 1
    ensures run[k].threads[t].SetCas? ==> run[k].threads[t].seen <= 1
    ensures run[k].released <= run[0].start + run[k].sets
  {
    hide Next, Sem.Inv;
    RunInv(run, k);
    OneOk(run[k], t);
    WaitsBelowZero(run[k]);
  }

  lemma WaitsBelowZero(e: Event)
    requires Inv(e)
    ensures Sum(e.sem.threads, Waits) >= Max0(-e.status)
  {
    hide PairsOk;
  }

  // Every blocked wait is a wait, and no wait of the event has a token in hand.
  lemma {:induction false} BlockedAreWaits(threads: seq<EventPc>, inners: seq<Pc>)
    requires PairsOk(threads, inners)
    ensures Sum(inners, Waiting) <= Sum(inners, Waits)
    ensures Sum(inners, InHand) == 0
  {
    if inners != [] {
      assert PairOk(threads[0], inners[0]);
      BlockedAreWaits(threads[1..], inners[1..]);
    }
  }

  // Once no signal is in flight and the status is not negative, no wake-up is missing: every blocked
  // wait has its permit, and every wait that has not returned has a token in the count or a permit.
  lemma WaitersHaveTokens(run: seq<Event>, k: nat)
    requires IsRun(run) && k < |run| && run[k].status >= 0
    requires forall t | 0 <= t < |run[k].threads| :: run[k].threads[t] != InSignal
    ensures var sem := run[k].sem;
      && sem.count >= 0
      && Sum(sem.threads, Waiting) == sem.permits
      && Sum(sem.threads, Waits) == sem.count + sem.permits
  {
    hide Next;
    RunInv(run, k);
    var e := run[k];
    forall t | 0 <= t < |e.threads| ensures Unsent(e.sem.threads[t]) == 0 && Owed(e.sem.threads[t]) == 0 {
      OneOk(e, t);
    }
    SumZero(e.sem.threads, Unsent);
    SumZero(e.sem.threads, Owed);
    BlockedAreWaits(e.threads, e.sem.threads);
  }
  // ----- What the calls achieve -----

  // Thread t acts, and the event is one more step on its way up, or down.
  ghost predicate Raises(e: Event, e': Event, t: Thread) {
    t < |e.threads| == |e'.threads| && e'.threads[t] != e.threads[t] && e'.status == e.status + 1
      && e'.sets == e.sets + 1
  }

  ghost predicate Lowers(e: Event, e': Event, t: Thread) {
    t < |e.threads| == |e'.threads| && e'.threads[t] != e.threads[t] && e'.status == e.status - 1
  }

  ghost predicate Moves(e: Event, e': Event, t: Thread) {
    t < |e.threads| == |e'.threads| && e'.threads[t] != e.threads[t]
  }

  lemma OneStep(e: Event, e': Event, t: Thread)
    requires Next(e, e') && t < |e.threads|
    ensures |e'.threads| == |e.threads|
    ensures e.threads[t] == SetLoad && Moves(e, e', t) ==> e'.threads[t] == SetCas(e.status) && e'.status == e.status
    ensures e.threads[t].SetCas? && Moves(e, e', t) ==>
      e.threads[t] == SetCas(1) || Raises(e, e', t) || e'.threads[t] == SetCas(e.status)
    ensures e.threads[t] == WaitSub && Moves(e, e', t) ==> Lowers(e, e', t)
  {
    hide Act, Raises, Lowers;
    var u: nat :| u < |e.threads| && (
      || (e.threads[u] == Out && (e' == Goto(e, u, SetLoad) || e' == Goto(e, u, WaitSub)))
      || e' == Act(e, u, false) || e' == Act(e, u, true));
    OthersStay(e, u, false);
    OthersStay(e, u, true);
    if u == t && e.threads[t] != Out {
      OwnAct(e, t, e' == Act(e, t, true));
    }
  }

  lemma OthersStay(e: Event, u: Thread, choice: bool)
    requires u < |e.threads| == |e.sem.threads|
    ensures var e' := Act(e, u, choice);
      |e'.threads| == |e.threads| && forall t | 0 <= t < |e.threads| && t != u :: e'.threads[t] == e.threads[t]
  {
    hide Sem.Exec;
  }

  lemma OwnAct(e: Event, t: Thread, choice: bool)
    requires t < |e.threads| == |e.sem.threads|
    ensures var e' := Act(e, t, choice);
      && (e.threads[t] == SetLoad ==> e'.threads[t] == SetCas(e.status) && e'.status == e.status)
      && (e.threads[t].SetCas? && e.threads[t] != SetCas(1) ==> Raises(e, e', t) || e'.threads[t] == SetCas(e.status))
      && (e.threads[t] == WaitSub ==> Lowers(e, e', t))
  {
    hide Inside;
  }

  ghost predicate WasSet(run: seq<Event>, i: nat, j: nat) {
    exists k | i <= k <= j < |run| :: run[k].status == 1
  }

  ghost predicate Raised(run: seq<Event>, i: nat, j: nat, t: Thread) {
    exists k | i <= k < j < |run| :: Raises(run[k], run[k + 1], t)
  }

  // A signal comes back without effect only if the event was set at some moment of the call.
  lemma {:induction false} SignalIsNotLost(run: seq<Event>, i: nat, j: nat, t: Thread)
    requires IsRun(run) && i <= j < |run| && t < |run[i].threads| && run[i].threads[t] == SetLoad
    ensures |run[j].threads| == |run[i].threads|
    ensures || Raised(run, i, j, t)
            || run[j].threads[t] == SetLoad || run[j].threads[t].SetCas?
            || WasSet(run, i, j)
    ensures run[j].threads[t] == SetCas(1) ==> Raised(run, i, j, t) || WasSet(run, i, j)
    decreases j
  {
    hide Next, Raises, Lowers;
    if i < j {
      SignalIsNotLost(run, i, j - 1, t);
      assert Next(run[j - 1], run[j - 1 + 1]);
      OneStep(run[j - 1], run[j], t);
      Longer(run, i, j, t);
      if Raises(run[j - 1], run[j], t) { assert Raises(run[j - 1], run[j - 1 + 1], t); }
    }
  }

  lemma Longer(run: seq<Event>, i: nat, j: nat, t: Thread)
    requires i < j < |run|
    ensures WasSet(run, i, j - 1) || run[j].status == 1 || run[j - 1].status == 1 ==> WasSet(run, i, j)
    ensures Raised(run, i, j - 1, t) ==> Raised(run, i, j, t)
  {
    hide Raises;
  }

  // A signal on a reset event that nobody disturbs sets it, in two actions; on a set one it does nothing.
  lemma SignalAlone(e: Event, t: Thread)
    requires t < |e.threads| == |e.sem.threads| && e.threads[t] == Out && 0 <= e.status <= 1
    ensures Act(Act(Goto(e, t, SetLoad), t, false), t, false) ==
      if e.status == 0 then e.(status := 1, sets := e.sets + 1) else e
  {
    assert e.threads[t := Out] == e.threads;
  }

  // With waits below zero it goes on to the semaphore, to release one of them.
  lemma SignalReleases(e: Event, t: Thread)
    requires t < |e.threads| == |e.sem.threads| && e.threads[t] == Out && e.status < 0
    ensures Act(Act(Goto(e, t, SetLoad), t, false), t, false) ==
      Enter(e.(status := e.status + 1, sets := e.sets + 1), t, InSignal, SignalAdd(1))
  {
  }

  // A wait on a set event resets it and returns; another one goes below zero and on to the semaphore.
  lemma WaitActs(e: Event, t: Thread)
    requires t < |e.threads| == |e.sem.threads| && e.threads[t] == Out
    ensures Act(Goto(e, t, WaitSub), t, false) ==
      if e.status >= 1 then e.(status := e.status - 1, released := e.released + 1)
      else Enter(e.(status := e.status - 1), t, InWait, TryLoad(1, true, 0))
  {
    assert e.threads[t := Out] == e.threads;
  }

  // Every call of wait takes the event one down.
  lemma {:induction false} WaitLowers(run: seq<Event>, i: nat, j: nat, t: Thread)
    requires IsRun(run) && i <= j < |run| && t < |run[i].threads| && run[i].threads[t] == WaitSub
    ensures |run[j].threads| == |run[i].threads|
    ensures run[j].threads[t] == WaitSub || exists k | i <= k < j :: Lowers(run[k], run[k + 1], t)
    decreases j
  {
    hide Next, Lowers;
    if i < j {
      WaitLowers(run, i, j - 1, t);
      assert Next(run[j - 1], run[j - 1 + 1]);
      OneStep(run[j - 1], run[j], t);
      if Lowers(run[j - 1], run[j], t) { assert Lowers(run[j - 1], run[j - 1 + 1], t); }
    }
  }
}
