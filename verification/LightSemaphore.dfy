/**
 The counting semaphore that enters the kernel only when a thread has to block, one atomic action
 per step, for any number of threads.  `count` is the fast counter, `permits` the kernel semaphore.
 The log records what each finished wait returned, `signalled` what signal has added so far.
*/
module LightSemaphore {
  import opened Finite

  type Thread = nat

  // A finished wait: how many tokens it asked for, whether it insists on one, and what it got.
  datatype Return = Return(limit: nat, insists: bool, got: nat)

  // The next atomic action of a thread.  A wait carries its limit, whether it insists on a token, and
  // the token it has got from the kernel.
  datatype Pc =
    | Idle
    | TryLoad(limit: nat, insists: bool, got: nat)               // tryWaitMany: load m_count
    | TryCas(limit: nat, insists: bool, got: nat, seen: int)     // m_count.CAS(seen, rest)
    | SpinLoad(limit: nat)                                       // the spinning loop: load m_count
    | SpinCas(limit: nat, seen: int)                             // m_count.CAS(seen, rest)
    | Decrement(limit: nat)                                      // m_count.fetch_sub(1)
    | Blocked(limit: nat)                                        // m_sema.wait()
    | SignalAdd(n: nat)                                          // signal: m_count.fetch_add(n)
    | SignalPost(n: nat)                                         // m_sema.post(n)

  datatype State = State(
    count: int,
    permits: nat,
    threads: seq<Pc>,
    initial: nat,
    signalled: nat,
    log: seq<Return>)

  ghost predicate Init(s: State) {
    && s.count == s.initial
    && s.permits == 0 && s.signalled == 0 && s.log == []
    && forall t | 0 <= t < |s.threads| :: s.threads[t] == Idle
  }

  // ----- The machine -----

  // tryWait is tryWaitMany(1), wait is waitMany(1).
  ghost predicate Call(pc: Pc) {
    match pc
    case TryLoad(limit, insists, got) => got == 0
    case SignalAdd(n) => true
    case _ => false
  }

  // What is left of a positive count when a wait for at most `limit` takes its share.
  function Rest(seen: int, limit: nat): int {
    if seen > limit then seen - limit else 0
  }

  // The shared words and the log, as one action sees them.
  datatype Cells = Cells(count: int, permits: nat, signalled: nat, log: seq<Return>)

  function Finish(c: Cells, limit: nat, insists: bool, got: nat): (Cells, Pc) {
    (c.(log := c.log + [Return(limit, insists, got)]), Idle)
  }

  // The end of tryWaitMany: waitMany goes on when it has got nothing.
  function TryEnds(c: Cells, limit: nat, insists: bool, got: nat, taken: nat): (Cells, Pc) {
    if insists && got + taken == 0 && limit > 0 then (c, SpinLoad(limit)) else Finish(c, limit, insists, got + taken)
  }

  // The loop test of tryWaitMany; a wait that has one token already asks for one less.
  function TryLoop(c: Cells, limit: nat, insists: bool, got: nat): (Cells, Pc) {
    if c.count > 0 then (c, TryCas(limit, insists, got, c.count)) else TryEnds(c, limit, insists, got, 0)
  }

  // One token is there; a wait for more tries to take the others without blocking.
  function GotOne(c: Cells, limit: nat): (Cells, Pc) {
    if limit > 1 then (c, TryLoad(limit, true, 1)) else Finish(c, limit, true, 1)
  }

  // One atomic action.  `choice` is whether a weak CAS fails spuriously, and whether the spin count
  // is used up.
  function Action(pc: Pc, c: Cells, choice: bool): (Cells, Pc) {
    match pc
    case Idle => (c, Idle)
    case TryLoad(limit, insists, got) => TryLoop(c, limit, insists, got)
    case TryCas(limit, insists, got, seen) =>
      if c.count == seen && !choice then
        var rest := Rest(seen, if limit >= got then limit - got else 0);
        TryEnds(c.(count := rest), limit, insists, got, if seen >= rest then seen - rest else 0)
      else TryLoop(c, limit, insists, got)
    case SpinLoad(limit) =>
      (c, if choice then Decrement(limit) else if c.count > 0 then SpinCas(limit, c.count) else SpinLoad(limit))
    case SpinCas(limit, seen) =>
      if c.count == seen then
        var rest := Rest(seen, limit);
        Finish(c.(count := rest), limit, true, if seen >= rest then seen - rest else 0)
      else (c, SpinLoad(limit))
    case Decrement(limit) =>
      if c.count <= 0 then (c.(count := c.count - 1), Blocked(limit)) else GotOne(c.(count := c.count - 1), limit)
    case Blocked(limit) =>
      if c.permits > 0 then GotOne(c.(permits := c.permits - 1), limit) else (c, Blocked(limit))
    case SignalAdd(n) =>
      var toRelease := if -c.count < n then -c.count else n;
      (c.(count := c.count + n, signalled := c.signalled + n), if toRelease > 0 then SignalPost(toRelease) else Idle)
    case SignalPost(n) => (c.(permits := c.permits + n), Idle)
  }

  function Exec(s: State, t: Thread, choice: bool): State
    requires t < |s.threads|
  {
    var (c, pc) := Action(s.threads[t], Cells(s.count, s.permits, s.signalled, s.log), choice);
    State(c.count, c.permits, s.threads[t := pc], s.initial, c.signalled, c.log)
  }

  ghost predicate Step(s: State, s': State) {
    exists t: nat | t < |s.threads| ::
      || (s.threads[t] == Idle && exists pc :: Call(pc) && s' == s.(threads := s.threads[t := pc]))
      || s' == Exec(s, t, false)
      || s' == Exec(s, t, true)
  }

  ghost predicate IsRun(run: seq<State>) {
    && |run| > 0
    && Init(run[0])
    && forall i | 0 <= i < |run| - 1 :: Step(run[i], run[i + 1])
  }

  // ----- Sums over the threads and over the log -----

  // A token the thread has and has not returned, a wait that has no token, permits still to be posted.
  function InHand(pc: Pc): nat { if pc.TryLoad? || pc.TryCas? then pc.got else 0 }
  function Waiting(pc: Pc): nat { if pc.Blocked? then 1 else 0 }
  function Owed(pc: Pc): nat { if pc.SignalPost? then pc.n else 0 }

  function Granted(log: seq<Return>): nat {
    if log == [] then 0 else Granted(log[..|log| - 1]) + log[|log| - 1].got
  }

  lemma GrantedAppend(log: seq<Return>, r: Return)
    ensures Granted(log + [r]) == Granted(log) + r.got
  {
    assert (log + [r])[..|log|] == log;
  }

  // ----- The invariant -----

  function Max0(x: int): nat { if x > 0 then x else 0 }

  ghost predicate PcOk(pc: Pc) {
    match pc
    case TryLoad(limit, insists, got) => got <= 1 && (got == 1 ==> insists && limit > 1)
    case TryCas(limit, insists, got, seen) => got <= 1 && (got == 1 ==> insists && limit > 1) && seen > 0
    case SpinLoad(limit) => limit > 0
    case SpinCas(limit, seen) => limit > 0 && seen > 0
    case Decrement(limit) => limit > 0
    case Blocked(limit) => limit > 0
    case SignalPost(n) => n > 0
    case _ => true
  }

  ghost predicate PcsOk(threads: seq<Pc>) {
    forall t | 0 <= t < |threads| :: PcOk(threads[t])
  }

  predicate ReturnOk(r: Return) {
    r.got <= r.limit && (r.insists && r.limit > 0 ==> r.got >= 1)
  }

  // Every token that was ever there is in a log entry, in a thread's hand or in the count, from which
  // the waits that have been counted but not served are missing.
  ghost predicate Conserved(c: Cells, initial: nat, inHand: nat, waiting: nat) {
    Granted(c.log) + inHand + waiting + c.count == initial + c.signalled
  }

  // The waits without a permit, posted or about to be, are those that made the count negative.
  ghost predicate Covered(c: Cells, waiting: nat, owed: nat) {
    waiting == c.permits + owed + Max0(-c.count)
  }

  function CellsOf(s: State): Cells {
    Cells(s.count, s.permits, s.signalled, s.log)
  }

  ghost predicate Inv(s: State) {
    && Conserved(CellsOf(s), s.initial, Sum(s.threads, InHand), Sum(s.threads, Waiting))
    && Covered(CellsOf(s), Sum(s.threads, Waiting), Sum(s.threads, Owed))
    && PcsOk(s.threads)
    && (forall i | 0 <= i < |s.log| :: ReturnOk(s.log[i]))
  }

  // What one action does to the account.
  ghost predicate ActionKeeps(pc: Pc, c: Cells, choice: bool) {
    var (c', pc') := Action(pc, c, choice);
    && PcOk(pc')
    && Granted(c'.log) + InHand(pc') + Waiting(pc') + c'.count - c'.signalled
       == Granted(c.log) + InHand(pc) + Waiting(pc) + c.count - c.signalled
    && Waiting(pc') - c'.permits - Owed(pc') - Max0(-c'.count)
       == Waiting(pc) - c.permits - Owed(pc) - Max0(-c.count)
    && (c'.log == c.log || (|c'.log| == |c.log| + 1 && c'.log[..|c.log|] == c.log && ReturnOk(c'.log[|c.log|])))
  }

  lemma TryEndsOk(c: Cells, limit: nat, insists: bool, got: nat, taken: nat)
    requires got + taken <= limit
    ensures var (c', pc') := TryEnds(c, limit, insists, got, taken);
      && PcOk(pc') && Granted(c'.log) == Granted(c.log) + got + taken && c' == c.(log := c'.log)
      && InHand(pc') == Waiting(pc') == Owed(pc') == 0
      && (c'.log == c.log || (|c'.log| == |c.log| + 1 && c'.log[..|c.log|] == c.log && ReturnOk(c'.log[|c.log|])))
  {
    hide Granted;
    GrantedAppend(c.log, Return(limit, insists, got + taken));
  }

  lemma TryActionOk(pc: Pc, c: Cells, choice: bool)
    requires PcOk(pc) && (pc.TryLoad? || pc.TryCas?)
    ensures ActionKeeps(pc, c, choice)
  {
    hide Granted, TryEnds, ReturnOk;
    if pc.TryCas? && c.count == pc.seen && !choice {
      var rest := Rest(pc.seen, pc.limit - pc.got);
      TryEndsOk(c.(count := rest), pc.limit, pc.insists, pc.got, pc.seen - rest);
    } else if c.count <= 0 {
      TryEndsOk(c, pc.limit, pc.insists, pc.got, 0);
    }
  }

  lemma SpinActionOk(pc: Pc, c: Cells, choice: bool)
    requires PcOk(pc) && (pc.SpinLoad? || pc.SpinCas? || pc.Decrement? || pc.Blocked?)
    ensures ActionKeeps(pc, c, choice)
  {
    hide Granted;
    forall r: Return ensures Granted(c.log + [r]) == Granted(c.log) + r.got { GrantedAppend(c.log, r); }
  }

  lemma SignalActionOk(pc: Pc, c: Cells, choice: bool)
    requires PcOk(pc) && (pc.Idle? || pc.SignalAdd? || pc.SignalPost?)
    ensures ActionKeeps(pc, c, choice)
  {
    hide Granted;
  }

  lemma ActionOk(pc: Pc, c: Cells, choice: bool)
    requires PcOk(pc)
    ensures ActionKeeps(pc, c, choice)
  {
    hide ActionKeeps, PcOk;
    if pc.TryLoad? || pc.TryCas? {
      TryActionOk(pc, c, choice);
    } else if pc.Idle? || pc.SignalAdd? || pc.SignalPost? {
      SignalActionOk(pc, c, choice);
    } else {
      SpinActionOk(pc, c, choice);
    }
  }

  lemma ThreadsOk(threads: seq<Pc>, t: nat, pc: Pc)
    requires t < |threads| && PcOk(pc) && PcsOk(threads)
    ensures PcsOk(threads[t := pc])
  {
  }

  lemma ExecKeepsInv(s: State, t: Thread, choice: bool)
    requires Inv(s) && t < |s.threads|
    ensures Inv(Exec(s, t, choice))
    ensures Exec(s, t, choice).initial == s.initial
    ensures s.log <= Exec(s, t, choice).log
  {
    hide Action, PcOk, ReturnOk, Granted, Sum;
    var pc, s' := s.threads[t], Exec(s, t, choice);
    ActionOk(pc, CellsOf(s), choice);
    var pc' := Action(pc, CellsOf(s), choice).1;
    SumUpdate(s.threads, t, pc', InHand);
    SumUpdate(s.threads, t, pc', Waiting);
    SumUpdate(s.threads, t, pc', Owed);
    ThreadsOk(s.threads, t, pc');
    if s'.log != s.log {
      forall i | 0 <= i < |s'.log| ensures ReturnOk(s'.log[i]) {
        if i < |s.log| { assert s'.log[i] == s'.log[..|s.log|][i]; }
      }
    }
  }

  lemma CallKeepsInv(s: State, t: Thread, pc: Pc)
    requires Inv(s) && t < |s.threads| && s.threads[t] == Idle && Call(pc)
    ensures Inv(s.(threads := s.threads[t := pc]))
  {
    hide Granted, Sum;
    SumUpdate(s.threads, t, pc, InHand);
    SumUpdate(s.threads, t, pc, Waiting);
    SumUpdate(s.threads, t, pc, Owed);
    ThreadsOk(s.threads, t, pc);
  }

  lemma InitInv(s: State)
    requires Init(s)
    ensures Inv(s)
  {
    SumZero(s.threads, InHand);
    SumZero(s.threads, Waiting);
    SumZero(s.threads, Owed);
  }

  lemma StepKeepsInv(s: State, s': State)
    requires Inv(s) && Step(s, s')
    ensures Inv(s') && s'.initial == s.initial
  {
    hide Inv, Action, Call;
    var t: nat :| t < |s.threads| && (
      || (s.threads[t] == Idle && exists pc :: Call(pc) && s' == s.(threads := s.threads[t := pc]))
      || s' == Exec(s, t, false) || s' == Exec(s, t, true));
    if s' == Exec(s, t, false) {
      ExecKeepsInv(s, t, false);
    } else if s' == Exec(s, t, true) {
      ExecKeepsInv(s, t, true);
    } else {
      var pc :| Call(pc) && s' == s.(threads := s.threads[t := pc]);
      CallKeepsInv(s, t, pc);
    }
  }

  lemma {:induction false} RunInv(run: seq<State>, k: nat)
    requires IsRun(run) && k < |run|
    ensures Inv(run[k]) && run[k].initial == run[0].initial
  {
    hide Inv, Step;
    if k == 0 {
      InitInv(run[0]);
    } else {
      RunInv(run, k - 1);
      StepKeepsInv(run[k - 1], run[k]);
    }
  }

  // ----- Safety of every run -----

  // The waits never return more tokens than there were at first and have been signalled since, and
  // every single wait gets what it was promised.
  lemma NeverGrantsTooMuch(run: seq<State>, k: nat)
    requires IsRun(run) && k < |run|
    ensures Granted(run[k].log) <= run[0].initial + run[k].signalled
    ensures forall i | 0 <= i < |run[k].log| :: ReturnOk(run[k].log[i])
  {
    hide Step;
    RunInv(run, k);
  }

  // No wake-up is lost: the blocked waits that no posted or pending permit covers are exactly those
  // counted below zero.
  lemma UncoveredWaits(run: seq<State>, k: nat)
    requires IsRun(run) && k < |run|
    ensures var s := run[k];
      Sum(s.threads, Waiting) == s.permits + Sum(s.threads, Owed) + Max0(-s.count)
  {
    hide Step;
    RunInv(run, k);
  }

  // When no signal is in flight and the count is not negative, every blocked wait has its permit.
  lemma BlockedHaveTokens(run: seq<State>, k: nat)
    requires IsRun(run) && k < |run| && run[k].count >= 0
    requires forall t | 0 <= t < |run[k].threads| :: !run[k].threads[t].SignalPost?
    ensures Sum(run[k].threads, Waiting) == run[k].permits
  {
    hide Step;
    RunInv(run, k);
    SumZero(run[k].threads, Owed);
  }

  // When all calls have returned, what is left is what was put in minus what was handed out.
  lemma QuiescentCount(run: seq<State>, k: nat)
    requires IsRun(run) && k < |run|
    requires forall t | 0 <= t < |run[k].threads| :: run[k].threads[t] == Idle
    ensures run[k].count >= 0 && run[k].permits == 0
    ensures run[k].count == run[0].initial + run[k].signalled - Granted(run[k].log)
  {
    hide Step;
    RunInv(run, k);
    SumZero(run[k].threads, InHand);
    SumZero(run[k].threads, Waiting);
    SumZero(run[k].threads, Owed);
  }
  // ----- What the calls achieve -----

  function Min(a: nat, b: nat): nat { if a < b then a else b }

  // A wait that has `hand` tokens already takes what it can get of the rest, and nothing else.
  ghost predicate Takes(s: State, s': State, r: Return, hand: nat) {
    && hand <= 1 && hand <= r.got && r.got - hand == Min(if r.limit >= hand then r.limit - hand else 0, Max0(s.count))
    && s'.count == s.count - (r.got - hand)
  }

  ghost predicate Logs(s: State, s': State, r: Return) {
    s'.log == s.log + [r]
  }

  ghost predicate Took(s: State, s': State, hand: nat) {
    exists r: Return :: Logs(s, s', r) && Takes(s, s', r, hand) && (hand == 1 ==> r.insists)
  }

  ghost predicate TakesFair(s: State, s': State, r: Return) {
    exists hand: nat :: Takes(s, s', r, hand) && (hand == 1 ==> r.insists)
  }

  lemma TryEndsLogs(c: Cells, limit: nat, insists: bool, got: nat, taken: nat)
    ensures var (c', pc') := TryEnds(c, limit, insists, got, taken);
      && c' == c.(log := c'.log)
      && (c'.log == c.log || (pc' == Idle && c'.log == c.log + [Return(limit, insists, got + taken)]))
  {
  }

  // The token that a thread has, or gets from the kernel in this action.
  function HandAfter(pc: Pc): nat {
    if pc.Blocked? then 1 else InHand(pc)
  }

  lemma ActionTakes(s: State, t: Thread, choice: bool)
    requires t < |s.threads| && PcOk(s.threads[t])
    ensures var s' := Exec(s, t, choice);
      s'.log == s.log || Took(s, s', HandAfter(s.threads[t]))
  {
    hide TryEnds;
    var pc, s', c := s.threads[t], Exec(s, t, choice), CellsOf(s);
    if pc.TryLoad? {
      TryEndsLogs(c, pc.limit, pc.insists, pc.got, 0);
      if s'.log != s.log { assert Logs(s, s', Return(pc.limit, pc.insists, pc.got)); }
    } else if pc.TryCas? {
      TryCasTakes(s, t, choice);
    } else if pc.SpinCas? && s.count == pc.seen {
      assert Logs(s, s', Return(pc.limit, true, pc.seen - Rest(pc.seen, pc.limit)));
    } else if s'.log != s.log {
      assert Logs(s, s', Return(pc.limit, true, 1));
    }
  }

  lemma TryCasTakes(s: State, t: Thread, choice: bool)
    requires t < |s.threads| && s.threads[t].TryCas? && PcOk(s.threads[t])
    ensures var s' := Exec(s, t, choice);
      s'.log == s.log || Took(s, s', HandAfter(s.threads[t]))
  {
    hide TryEnds;
    var pc, s', c := s.threads[t], Exec(s, t, choice), CellsOf(s);
    if c.count == pc.seen && !choice {
      var rest := Rest(pc.seen, pc.limit - pc.got);
      var taken := pc.seen - rest;
      TryEndsLogs(c.(count := rest), pc.limit, pc.insists, pc.got, taken);
      if s'.log != s.log { assert Logs(s, s', Return(pc.limit, pc.insists, pc.got + taken)); }
    } else {
      TryEndsLogs(c, pc.limit, pc.insists, pc.got, 0);
      if s'.log != s.log { assert Logs(s, s', Return(pc.limit, pc.insists, pc.got)); }
    }
  }

  // A wait that does not insist takes min(limit, count) at the moment it returns, so it comes back with
  // nothing only while the count is not positive; one that insists has at most one token before that.
  lemma ReturnTakes(run: seq<State>, k: nat, r: Return)
    requires IsRun(run) && k + 1 < |run| && Logs(run[k], run[k + 1], r)
    ensures TakesFair(run[k], run[k + 1], r)
  {
    hide Inv, Exec, Takes;
    RunInv(run, k);
    var s, s' := run[k], run[k + 1];
    assert Step(s, s') && |s'.log| == |s.log| + 1;
    var t: nat :| t < |s.threads| && (
      || (s.threads[t] == Idle && exists pc :: Call(pc) && s' == s.(threads := s.threads[t := pc]))
      || s' == Exec(s, t, false) || s' == Exec(s, t, true));
    assert PcOk(s.threads[t]) by { PcIsOk(s, t); }
    var choice := s' == Exec(s, t, true);
    ActionTakes(s, t, choice);
    var hand := HandAfter(s.threads[t]);
    var q: Return :| Logs(s, s', q) && Takes(s, s', q, hand) && (hand == 1 ==> q.insists);
    assert q == s'.log[|s.log|] == r;
  }

  lemma PcIsOk(s: State, t: Thread)
    requires Inv(s) && t < |s.threads|
    ensures PcOk(s.threads[t])
  {
  }

  // A thread that is in a wait for at most `limit` tokens.
  predicate Waits(pc: Pc, limit: nat, insists: bool) {
    match pc
    case TryLoad(l, i, _) => l == limit && i == insists
    case TryCas(l, i, _, _) => l == limit && i == insists
    case SpinLoad(l) => l == limit && insists
    case SpinCas(l, _) => l == limit && insists
    case Decrement(l) => l == limit && insists
    case Blocked(l) => l == limit && insists
    case _ => false
  }

  ghost predicate Returned(s: State, s': State, limit: nat, insists: bool) {
    exists got: nat :: Logs(s, s', Return(limit, insists, got))
  }

  lemma WaitGoesOn(s: State, t: Thread, choice: bool, limit: nat, insists: bool)
    requires t < |s.threads| && Waits(s.threads[t], limit, insists)
    ensures Waits(Exec(s, t, choice).threads[t], limit, insists) || Returned(s, Exec(s, t, choice), limit, insists)
  {
    hide Logs, Rest;
    var s' := Exec(s, t, choice);
    if s'.threads[t] == Idle {
      WaitLogs(s, t, choice, limit, insists);
    }
  }

  lemma WaitLogs(s: State, t: Thread, choice: bool, limit: nat, insists: bool)
    requires t < |s.threads| && Waits(s.threads[t], limit, insists) && Exec(s, t, choice).threads[t] == Idle
    ensures Returned(s, Exec(s, t, choice), limit, insists)
  {
    var s' := Exec(s, t, choice);
    assert |s'.log| == |s.log| + 1 && s'.log == s.log + [s'.log[|s.log|]];
    var r := s'.log[|s.log|];
    assert Logs(s, s', Return(limit, insists, r.got));
  }

  // A wait that was called with a limit returns under that limit.
  lemma {:induction false} CallReturns(run: seq<State>, i: nat, j: nat, t: Thread, limit: nat, insists: bool)
    requires IsRun(run) && i <= j < |run| && t < |run[i].threads| && Waits(run[i].threads[t], limit, insists)
    ensures |run[j].threads| == |run[i].threads|
    ensures Waits(run[j].threads[t], limit, insists)
      || exists k | i <= k < j :: Returned(run[k], run[k + 1], limit, insists)
    decreases j
  {
    hide Returned, Exec, Waits, Call;
    if i < j {
      CallReturns(run, i, j - 1, t, limit, insists);
      assert Step(run[j - 1], run[j - 1 + 1]);
      StepOrReturn(run[j - 1], run[j], t, limit, insists);
      if Returned(run[j - 1], run[j], limit, insists) { assert Returned(run[j - 1], run[j - 1 + 1], limit, insists); }
    }
  }

  lemma StepOrReturn(s: State, s': State, t: Thread, limit: nat, insists: bool)
    requires Step(s, s') && t < |s.threads|
    ensures |s'.threads| == |s.threads|
    ensures Waits(s.threads[t], limit, insists) ==>
      Waits(s'.threads[t], limit, insists) || Returned(s, s', limit, insists)
  {
    hide Returned, Action, Call;
    var u: nat :| u < |s.threads| && (
      || (s.threads[u] == Idle && exists pc :: Call(pc) && s' == s.(threads := s.threads[u := pc]))
      || s' == Exec(s, u, false) || s' == Exec(s, u, true));
    if u == t && s.threads[t] != Idle && Waits(s.threads[t], limit, insists) {
      WaitGoesOn(s, t, s' == Exec(s, t, true), limit, insists);
    }
  }

  // A signal adds its tokens, in one action.
  lemma {:induction false} SignalCounts(run: seq<State>, i: nat, j: nat, t: Thread, n: nat)
    requires IsRun(run) && i <= j < |run| && t < |run[i].threads| && run[i].threads[t] == SignalAdd(n)
    ensures |run[j].threads| == |run[i].threads|
    ensures run[j].threads[t] == SignalAdd(n) || exists k | i <= k < j ::
      run[k + 1].signalled == run[k].signalled + n && run[k + 1].count == run[k].count + n
    decreases j
  {
    hide Action, Call;
    if i < j {
      SignalCounts(run, i, j - 1, t, n);
      assert Step(run[j - 1], run[j - 1 + 1]);
      SignalStep(run[j - 1], run[j], t, n);
      if run[j - 1].threads[t] == SignalAdd(n) && run[j].threads[t] != SignalAdd(n) {
        assert run[j - 1 + 1].signalled == run[j - 1].signalled + n;
      }
    }
  }

  lemma SignalStep(s: State, s': State, t: Thread, n: nat)
    requires Step(s, s') && t < |s.threads|
    ensures |s'.threads| == |s.threads|
    ensures s.threads[t] == SignalAdd(n) ==>
      s'.threads[t] == SignalAdd(n) || (s'.signalled == s.signalled + n && s'.count == s.count + n)
  {
    hide TryLoop, TryEnds, Finish, Rest;
  }

  // ----- A call that nobody disturbs -----

  function Enter(s: State, t: Thread, pc: Pc): State
    requires t < |s.threads|
  {
    s.(threads := s.threads[t := pc])
  }

  // tryWaitMany is done after two actions at most, and takes min(limit, count).
  lemma TryWaitAlone(s: State, t: Thread, limit: nat)
    requires t < |s.threads| && s.threads[t] == Idle
    ensures var got, s1 := Min(limit, Max0(s.count)), Exec(Enter(s, t, TryLoad(limit, false, 0)), t, false);
      var s2 := if s.count > 0 then Exec(s1, t, false) else s1;
      s2 == s.(count := s.count - got, log := s.log + [Return(limit, false, got)])
  {
    assert s.threads[t := Idle] == s.threads;
  }

  // So does waitMany while the count is positive; otherwise it counts itself below zero and blocks.
  lemma WaitAlone(s: State, t: Thread, limit: nat)
    requires t < |s.threads| && s.threads[t] == Idle && limit > 0
    ensures var got, s1 := Min(limit, Max0(s.count)), Exec(Enter(s, t, TryLoad(limit, true, 0)), t, true);
      if s.count > 0 then Exec(s1, t, false) == s.(count := s.count - got, log := s.log + [Return(limit, true, got)])
      else Exec(Exec(s1, t, true), t, false) == Enter(s.(count := s.count - 1), t, Blocked(limit))
  {
    assert s.threads[t := Idle] == s.threads;
  }

  // signal is done after two actions, and posts a permit for every wait it releases.
  lemma SignalAlone(s: State, t: Thread, n: nat)
    requires t < |s.threads| && s.threads[t] == Idle
    ensures var posted, s1 := Min(n, Max0(-s.count)), Exec(Enter(s, t, SignalAdd(n)), t, false);
      var s2 := if posted > 0 then Exec(s1, t, false) else s1;
      s2 == s.(count := s.count + n, signalled := s.signalled + n, permits := s.permits + posted)
  {
    assert s.threads[t := Idle] == s.threads;
  }
}
