/**
 User-level read-copy-update with two phases, one atomic action per step, for any number of threads.

 The shared words are the grace-period word, the reader words, the number of registered threads and
 the mutex.  A word holds a nesting count in its low 31 bits and the phase in bit 31.  `depth` is
 the client's view: how many read-side critical sections the thread is in.
*/
module UserRcu {
  import opened Finite

  type Thread = nat

  const BOTTOM_BIT: nat := 0x8000_0000
  const MAX_THREADS: nat := 512

  function Nest(word: nat): nat {
    word % BOTTOM_BIT
  }

  function Phase(word: nat): nat {
    word / BOTTOM_BIT
  }

  // word ^ RCU_GP_CTR_BOTTOM_BIT
  function FlipPhase(word: nat): nat {
    if Phase(word) % 2 == 0 then word + BOTTOM_BIT else word - BOTTOM_BIT
  }

  // The next atomic action of a thread.
  datatype Pc =
    | Idle
    | RegLock                                  // rcu_thread_register: lock the mutex
    | RegId                                    // id = rcu_thread_num
    | RegNum                                   // rcu_thread_num++
    | RegUnlock                                // unlock the mutex
    | LockLoad                                 // rcu_read_lock: tmp = own word
    | LockGp                                   // load rcu_gp_ctr
    | LockStore(g: nat)                        // own word = g
    | LockNest(tmp: nat)                       // own word = tmp + 1
    | UnlockLoad                               // rcu_read_unlock: load own word
    | UnlockStore(tmp: nat)                    // own word = tmp - 1
    | SyncLock                                 // synchronize_rcu: lock the mutex
    | FlipLoad(pass: nat)                      // load rcu_gp_ctr
    | FlipStore(pass: nat, g: nat)             // rcu_gp_ctr = g ^ RCU_GP_CTR_BOTTOM_BIT
    | WaitTest(pass: nat, i: nat)              // i < rcu_thread_num
    | WaitWord(pass: nat, i: nat)              // v = reader word i
    | WaitGp(pass: nat, i: nat, v: nat)        // compare the phase of v with rcu_gp_ctr
    | SyncUnlock                               // unlock the mutex

  datatype Option<T> = None | Some(value: T)

  // Thread-local words: the id, unset or the index of the thread's reader word, and the client's depth.
  datatype Local = Local(id: Option<nat>, depth: nat, pc: Pc)

  datatype State = State(gp: nat, words: seq<nat>, num: nat, lock: Option<Thread>, threads: map<Thread, Local>)

  // ----- The machine -----

  ghost predicate Init(s: State) {
    && s.gp == 1 && s.num == 0 && s.lock == None
    && |s.words| == MAX_THREADS && (forall i | 0 <= i < MAX_THREADS :: s.words[i] == 0)
    && (forall t <- s.threads :: s.threads[t] == Local(None, 0, Idle))
  }

  function Set(s: State, t: Thread, me: Local): State {
    s.(threads := s.threads[t := me])
  }

  // What a thread may call next: it nests less than 2^31 - 1 times and unlocks what it has locked.
  ghost predicate Call(s: State, t: Thread, s': State)
    requires t in s.threads
  {
    var me := s.threads[t];
    && me.pc == Idle
    && (|| (me.depth + 1 < BOTTOM_BIT && s' == Set(s, t, me.(pc := if me.id.None? then RegLock else LockLoad)))
        || (me.depth > 0 && s' == Set(s, t, me.(pc := UnlockLoad, depth := me.depth - 1)))
        || s' == Set(s, t, me.(pc := SyncLock)))
  }

  // The shared words an action can see: besides the three variables, the thread's own reader word
  // and the reader word a synchronizing thread looks at.
  datatype Cells = Cells(lock: Option<Thread>, gp: nat, num: nat, own: nat, seen: nat)

  // One action of thread t inside a call; a thread that finds the mutex taken stays where it is.
  function Action(t: Thread, me: Local, c: Cells): (Cells, Local) {
    match me.pc
    case Idle => (c, me)
    case RegLock => if c.lock.None? then (c.(lock := Some(t)), me.(pc := RegId)) else (c, me)
    case RegId => (c, me.(id := Some(c.num), pc := RegNum))
    case RegNum => (c.(num := c.num + 1), me.(pc := RegUnlock))
    case RegUnlock => (c.(lock := None), me.(pc := LockLoad))
    case LockLoad => (c, me.(pc := if Nest(c.own) == 0 then LockGp else LockNest(c.own)))
    case LockGp => (c, me.(pc := LockStore(c.gp)))
    case LockStore(g) => (c.(own := g), me.(pc := Idle, depth := me.depth + 1))
    case LockNest(tmp) => (c.(own := tmp + 1), me.(pc := Idle, depth := me.depth + 1))
    case UnlockLoad => (c, me.(pc := UnlockStore(c.own)))
    case UnlockStore(tmp) => (c.(own := if tmp > 0 then tmp - 1 else 0), me.(pc := Idle))
    case SyncLock => if c.lock.None? then (c.(lock := Some(t)), me.(pc := FlipLoad(1))) else (c, me)
    case FlipLoad(pass) => (c, me.(pc := FlipStore(pass, c.gp)))
    case FlipStore(pass, g) => (c.(gp := FlipPhase(g)), me.(pc := WaitTest(pass, 0)))
    case WaitTest(pass, i) =>
      (c, me.(pc := if i < c.num then WaitWord(pass, i) else if pass == 1 then FlipLoad(2) else SyncUnlock))
    case WaitWord(pass, i) =>
      (c, me.(pc := if Nest(c.seen) == 0 then WaitTest(pass, i + 1) else WaitGp(pass, i, c.seen)))
    case WaitGp(pass, i, v) =>
      (c, me.(pc := if Phase(v) != Phase(c.gp) then WaitWord(pass, i) else WaitTest(pass, i + 1)))
    case SyncUnlock => (c.(lock := None), me.(pc := Idle))
  }

  function WordAt(words: seq<nat>, i: nat): nat {
    if i < |words| then words[i] else 0
  }

  function CellsOf(s: State, me: Local): Cells {
    Cells(s.lock, s.gp, s.num,
          if me.id.Some? then WordAt(s.words, me.id.value) else 0,
          if me.pc.WaitWord? then WordAt(s.words, me.pc.i) else 0)
  }

  function Exec(s: State, t: Thread): State
    requires t in s.threads
  {
    var me := s.threads[t];
    var (c, me') := Action(t, me, CellsOf(s, me));
    var words := if me.id.Some? && me.id.value < |s.words| then s.words[me.id.value := c.own] else s.words;
    State(c.gp, words, c.num, c.lock, s.threads[t := me'])
  }

  ghost predicate Step(s: State, s': State) {
    exists t <- s.threads :: Call(s, t, s') || s' == Exec(s, t)
  }

  ghost predicate IsRun(run: seq<State>) {
    && |run| > 0
    && Init(run[0])
    && forall i | 0 <= i < |run| - 1 :: Step(run[i], run[i + 1])
  }

  // ----- The invariant -----

  predicate HoldsLock(pc: Pc) {
    match pc
    case RegId => true
    case RegNum => true
    case RegUnlock => true
    case FlipLoad(_) => true
    case FlipStore(_, _) => true
    case WaitTest(_, _) => true
    case WaitWord(_, _) => true
    case WaitGp(_, _, _) => true
    case SyncUnlock => true
    case _ => false
  }

  predicate IsGp(word: nat) {
    word == 1 || word == 1 + BOTTOM_BIT
  }

  // The thread's word counts its nesting, up to the call it is in.
  predicate WordOk(pc: Pc, word: nat, depth: nat) {
    match pc
    case RegNum => Nest(word) == depth == 0
    case RegUnlock => Nest(word) == depth == 0
    case LockLoad => Nest(word) == depth && depth + 1 < BOTTOM_BIT
    case LockGp => Nest(word) == depth == 0
    case LockStore(g) => Nest(word) == depth == 0 && IsGp(g)
    case LockNest(tmp) => Nest(word) == depth && word == tmp && depth + 1 < BOTTOM_BIT
    case UnlockLoad => Nest(word) == depth + 1
    case UnlockStore(tmp) => Nest(word) == depth + 1 && tmp == word
    case _ => Nest(word) == depth
  }

  // The pcs of a thread that has no id yet.
  predicate BeforeId(pc: Pc) {
    pc.Idle? || pc.RegLock? || pc.RegId? || InSync(pc)
  }

  predicate InSync(pc: Pc) {
    match pc
    case SyncLock => true
    case FlipLoad(_) => true
    case FlipStore(_, _) => true
    case WaitTest(_, _) => true
    case WaitWord(_, _) => true
    case WaitGp(_, _, _) => true
    case SyncUnlock => true
    case _ => false
  }

  predicate LocalOk(me: Local, word: nat, num: nat) {
    && WordOk(me.pc, word, me.depth)
    && match me.id
       case None => me.depth == 0 && word == 0 && BeforeId(me.pc)
       case Some(i) => !me.pc.RegLock? && !me.pc.RegId? && (if me.pc.RegNum? then i == num else i < num)
  }

  // A wait never looks past the registered threads.
  predicate SyncOk(pc: Pc, num: nat) {
    match pc
    case WaitWord(_, i) => i < num
    case WaitGp(_, i, v) => i < num && Nest(v) > 0
    case FlipStore(_, g) => IsGp(g)
    case _ => true
  }

  ghost function Registered(s: State): set<Thread> {
    set t <- s.threads | s.threads[t].id.Some?
  }

  // Has the mutex holder taken an id without counting it yet?
  ghost predicate Uncounted(s: State) {
    s.lock.Some? && s.lock.value in s.threads && s.threads[s.lock.value].pc.RegNum?
  }

  ghost predicate IdsDiffer(threads: map<Thread, Local>) {
    forall t <- threads, u <- threads | t != u && threads[t].id.Some? :: threads[t].id != threads[u].id
  }

  function OwnWord(s: State, t: Thread): nat
    requires t in s.threads
  {
    CellsOf(s, s.threads[t]).own
  }

  ghost predicate ThreadOk(s: State, t: Thread)
    requires t in s.threads
  {
    && LocalOk(s.threads[t], OwnWord(s, t), s.num)
    && (HoldsLock(s.threads[t].pc) <==> s.lock == Some(t))
    && SyncOk(s.threads[t].pc, s.num)
  }

  ghost predicate Inv(s: State) {
    && |s.words| == MAX_THREADS && IsGp(s.gp)
    && |s.threads| <= MAX_THREADS
    && |Registered(s)| == s.num + Indicator(Uncounted(s))
    && (forall i | s.num <= i < MAX_THREADS :: s.words[i] == 0)
    && IdsDiffer(s.threads)
    && (s.lock.Some? ==> s.lock.value in s.threads)
    && (forall t <- s.threads :: ThreadOk(s, t))
  }

  // ----- Every step keeps the invariant -----

  lemma FlipIsGp(g: nat)
    requires IsGp(g)
    ensures IsGp(FlipPhase(g)) && Phase(FlipPhase(g)) != Phase(g)
  {
  }

  // Counting within one phase.
  lemma NestStep(word: nat)
    ensures Nest(word) + 1 < BOTTOM_BIT ==> Nest(word + 1) == Nest(word) + 1 && Phase(word + 1) == Phase(word)
    ensures Nest(word) > 0 ==> word > 0 && Nest(word - 1) == Nest(word) - 1 && Phase(word - 1) == Phase(word)
  {
  }

  lemma GpNest(g: nat)
    ensures Nest(0) == 0
    ensures IsGp(g) ==> Nest(g) == 1
  {
  }

  // What an action does to its own thread.
  lemma ActionLocal(t: Thread, me: Local, c: Cells)
    requires LocalOk(me, c.own, c.num) && IsGp(c.gp)
    requires me.pc.RegId? ==> me.id.None?
    ensures var (c', me') := Action(t, me, c);
      && LocalOk(me', c'.own, c'.num)
      && c.num <= c'.num
  {
    hide Nest, Phase, FlipPhase;
    NestStep(c.own);
    GpNest(if me.pc.LockStore? then me.pc.g else 0);
  }

  lemma ActionLock(t: Thread, me: Local, c: Cells)
    requires HoldsLock(me.pc) <==> c.lock == Some(t)
    ensures var (c', me') := Action(t, me, c);
      && (HoldsLock(me'.pc) <==> c'.lock == Some(t))
      && (c'.lock == c.lock || (c.lock == Some(t) && c'.lock == None) || (c.lock == None && c'.lock == Some(t)))
      && (c.lock != Some(t) ==> c'.num == c.num && c'.gp == c.gp)
      && (me'.id != me.id ==> me.pc.RegId? && me'.id == Some(c.num) && c.lock == Some(t) && c' == c)
      && (c'.own != c.own ==> me.pc.LockStore? || me.pc.LockNest? || me.pc.UnlockStore?)
      && (c'.num != c.num ==> me.pc.RegNum? && c'.num == c.num + 1)
      && (me'.pc.RegNum? ==> me.pc.RegId?)
  {
  }

  lemma ActionGp(t: Thread, me: Local, c: Cells)
    requires IsGp(c.gp) && (me.pc.FlipStore? ==> IsGp(me.pc.g))
    ensures IsGp(Action(t, me, c).0.gp)
  {
    hide Nest, Phase;
    if me.pc.FlipStore? { FlipIsGp(me.pc.g); }
  }

  lemma RoomForId(s: State, t: Thread)
    requires Inv(s) && t in s.threads && s.threads[t].pc.RegId?
    ensures s.num < MAX_THREADS && s.threads[t].id.None?
  {
    hide Nest, Phase;
    assert ThreadOk(s, t);
    assert t !in Registered(s);
    SubsetSize(Registered(s) + {t}, s.threads.Keys);
  }

  lemma ActionSync(t: Thread, me: Local, c: Cells)
    requires IsGp(c.gp) && SyncOk(me.pc, c.num)
    ensures SyncOk(Action(t, me, c).1.pc, Action(t, me, c).0.num)
  {
    hide Nest, Phase, FlipPhase, IsGp;
  }

  lemma ExecOwn(s: State, t: Thread)
    requires Inv(s) && t in s.threads
    ensures ThreadOk(Exec(s, t), t) && IsGp(Exec(s, t).gp)
  {
    hide Nest, Phase, FlipPhase, IsGp, Registered, Uncounted, Action, LocalOk, SyncOk, HoldsLock;
    var me, s' := s.threads[t], Exec(s, t);
    var c := CellsOf(s, me);
    assert ThreadOk(s, t);
    IdInRange(s, t);
    ActionLocal(t, me, c);
    ActionLock(t, me, c);
    ActionSync(t, me, c);
    ActionGp(t, me, c);
    assert OwnWord(s', t) == Action(t, me, c).0.own;
  }

  lemma NumInRange(s: State)
    requires Inv(s)
    ensures s.num + Indicator(Uncounted(s)) <= MAX_THREADS
  {
    hide ThreadOk, IdsDiffer, Uncounted, IsGp;
    SubsetSize(Registered(s), s.threads.Keys);
  }

  // No reader word is out of range, and a thread about to take an id takes one with a zero word.
  lemma IdInRange(s: State, t: Thread)
    requires Inv(s) && t in s.threads
    ensures var me := s.threads[t];
      && (me.id.Some? ==> me.id.value < MAX_THREADS)
      && (me.id.None? ==> OwnWord(s, t) == 0 && OwnWord(Exec(s, t), t) == 0 && Action(t, me, CellsOf(s, me)).0.own == 0)
      && (me.pc.RegId? ==> s.num < MAX_THREADS && me.id.None? && s.words[s.num] == 0)
      && (me.pc.FlipStore? ==> IsGp(me.pc.g))
      && (me.pc.WaitWord? ==> me.pc.i < MAX_THREADS)
  {
    hide Nest, Phase, FlipPhase, IsGp, Registered, IdsDiffer;
    NumInRange(s);
    assert ThreadOk(s, t);
    if s.threads[t].pc.RegId? { RoomForId(s, t); }
    if s.threads[t].id.None? { NewIdHasZeroWord(s, t); }
  }

  lemma NewIdHasZeroWord(s: State, t: Thread)
    requires t in s.threads && |s.words| == MAX_THREADS && ThreadOk(s, t) && s.threads[t].id.None?
    requires s.num < MAX_THREADS ==> s.words[s.num] == 0
    ensures OwnWord(s, t) == 0 && OwnWord(Exec(s, t), t) == 0
      && Action(t, s.threads[t], CellsOf(s, s.threads[t])).0.own == 0
  {
    hide Nest, Phase, FlipPhase, IsGp;
  }

  lemma ExecOther(s: State, t: Thread, u: Thread)
    requires Inv(s) && t in s.threads && u in s.threads && u != t
    ensures ThreadOk(Exec(s, t), u) && OwnWord(Exec(s, t), u) == OwnWord(s, u)
  {
    hide Nest, Phase, FlipPhase, IsGp, Registered, Uncounted, Action;
    var me := s.threads[t];
    assert ThreadOk(s, t) && ThreadOk(s, u);
    IdInRange(s, t);
    ActionLock(t, me, CellsOf(s, me));
  }

  lemma ExecIds(s: State, t: Thread)
    requires Inv(s) && t in s.threads
    ensures IdsDiffer(Exec(s, t).threads)
  {
    hide Nest, Phase, FlipPhase, IsGp, Registered, Uncounted, Action;
    var me, s' := s.threads[t], Exec(s, t);
    assert ThreadOk(s, t);
    ActionLock(t, me, CellsOf(s, me));
    forall u <- s.threads | u != t
      ensures s'.threads[u].id == s.threads[u].id && s'.threads[t].id.Some? ==> s'.threads[t].id != s.threads[u].id {
      assert ThreadOk(s, u);
    }
  }

  lemma ExecRegistered(s: State, t: Thread)
    requires Inv(s) && t in s.threads
    ensures var s' := Exec(s, t); |Registered(s')| == s'.num + Indicator(Uncounted(s'))
  {
    hide Nest, Phase, FlipPhase, IsGp, Action, LocalOk, SyncOk, IdsDiffer;
    var me, s' := s.threads[t], Exec(s, t);
    assert ThreadOk(s, t);
    IdInRange(s, t);
    ActionLock(t, me, CellsOf(s, me));
    SizeWithout(Registered(s), Registered(s'), t);
    ActionCounts(t, me, CellsOf(s, me));
  }

  lemma ActionCounts(t: Thread, me: Local, c: Cells)
    ensures var (c', me') := Action(t, me, c);
      && (me.pc.RegId? ==> me'.id.Some? && me'.pc.RegNum? && c' == c)
      && (!me.pc.RegId? ==> me'.id == me.id && !me'.pc.RegNum?)
      && (if me.pc.RegNum? then c' == c.(num := c.num + 1) else c'.num == c.num)
  {
  }

  lemma ExecZeros(s: State, t: Thread)
    requires Inv(s) && t in s.threads
    ensures |Exec(s, t).words| == MAX_THREADS
    ensures forall i | Exec(s, t).num <= i < MAX_THREADS :: Exec(s, t).words[i] == 0
  {
    hide Nest, Phase, FlipPhase, IsGp, Action, Registered, Uncounted, IdsDiffer;
    var me := s.threads[t];
    assert ThreadOk(s, t);
    ActionLock(t, me, CellsOf(s, me));
  }

  lemma ExecKeepsInv(s: State, t: Thread)
    requires Inv(s) && t in s.threads
    ensures Inv(Exec(s, t))
  {
    hide Action, Registered, Uncounted, IdsDiffer, ThreadOk, IsGp;
    var me, s' := s.threads[t], Exec(s, t);
    ExecOwn(s, t);
    forall u <- s'.threads ensures ThreadOk(s', u) {
      if u != t { ExecOther(s, t, u); }
    }
    ExecIds(s, t);
    ExecRegistered(s, t);
    ExecZeros(s, t);
    assert s'.threads.Keys == s.threads.Keys;
    assert s'.lock == s.lock || s'.lock == None || s'.lock == Some(t) by { LockMoves(t, me, CellsOf(s, me)); }
  }

  lemma LockMoves(t: Thread, me: Local, c: Cells)
    ensures var lock := Action(t, me, c).0.lock; lock == c.lock || lock == None || lock == Some(t)
  {
  }

  // A call changes the caller's depth and where it is, nothing else.
  lemma CallIs(s: State, t: Thread, s': State)
    requires t in s.threads && Call(s, t, s')
    ensures t in s'.threads && s' == Set(s, t, s'.threads[t])
    ensures var me, me' := s.threads[t], s'.threads[t];
      me.pc == Idle && me' == me.(pc := me'.pc, depth := me'.depth) && me'.depth <= me.depth && !me'.pc.RegNum?
  {
  }

  lemma CallerOk(s: State, t: Thread, s': State)
    requires t in s.threads && Call(s, t, s') && ThreadOk(s, t)
    ensures ThreadOk(s', t)
  {
    hide Nest;
  }

  lemma CallThread(s: State, t: Thread, s': State, u: Thread)
    requires Inv(s) && t in s.threads && Call(s, t, s') && u in s.threads
    ensures ThreadOk(s', u) && s'.threads[u].depth <= s.threads[u].depth
    ensures OwnWord(s', u) == OwnWord(s, u) && s'.threads[u].id == s.threads[u].id
  {
    hide IsGp, Registered, IdsDiffer, Uncounted, Call, LocalOk, SyncOk, HoldsLock;
    CallIs(s, t, s');
    assert ThreadOk(s, u);
    if u == t { CallerOk(s, t, s'); }
  }

  lemma IdsStay(threads: map<Thread, Local>, t: Thread, me: Local)
    requires IdsDiffer(threads) && t in threads && me.id == threads[t].id
    ensures IdsDiffer(threads[t := me])
  {
  }

  lemma CallKeepsInv(s: State, t: Thread, s': State)
    requires Inv(s) && t in s.threads && Call(s, t, s')
    ensures Inv(s')
  {
    hide ThreadOk, IsGp, Call, IdsDiffer;
    CallIs(s, t, s');
    IdsStay(s.threads, t, s'.threads[t]);
    assert Registered(s') == Registered(s);
    assert s'.threads.Keys == s.threads.Keys;
    forall u <- s'.threads ensures ThreadOk(s', u) {
      CallThread(s, t, s', u);
    }
  }

  lemma InitInv(s: State)
    requires Init(s) && |s.threads| <= MAX_THREADS
    ensures Inv(s)
  {
    assert Registered(s) == {};
  }

  lemma StepKeepsInv(s: State, s': State)
    requires Inv(s) && Step(s, s')
    ensures Inv(s') && s'.threads.Keys == s.threads.Keys
  {
    hide Inv, Action;
    var t :| t in s.threads && (Call(s, t, s') || s' == Exec(s, t));
    if Call(s, t, s') { CallKeepsInv(s, t, s'); } else { ExecKeepsInv(s, t); }
  }

  lemma {:induction false} RunInv(run: seq<State>, k: nat)
    requires IsRun(run) && |run[0].threads| <= MAX_THREADS && k < |run|
    ensures Inv(run[k]) && run[k].threads.Keys == run[0].threads.Keys
  {
    hide Inv, Step;
    if k == 0 {
      InitInv(run[0]);
    } else {
      RunInv(run, k - 1);
      StepKeepsInv(run[k - 1], run[k]);
    }
  }

  // ----- Grace periods -----

  // The threads still in the critical section they were in at state i of the run.
  ghost function Still(run: seq<State>, i: nat, k: nat): set<Thread>
    requires i <= k < |run|
  {
    var inside := set t <- run[k].threads | run[k].threads[t].depth > 0;
    if k == i then inside else Still(run, i, k - 1) * inside
  }

  ghost predicate PhasesAre(s: State, live: set<Thread>, current: bool) {
    forall r <- live :: r in s.threads && (Phase(OwnWord(s, r)) == Phase(s.gp) <==> current)
  }

  ghost predicate PassedAre(s: State, live: set<Thread>, i: nat) {
    forall r <- live :: r in s.threads
      && (s.threads[r].id.Some? && s.threads[r].id.value < i ==> Phase(OwnWord(s, r)) == Phase(s.gp))
  }

  ghost predicate NonePassed(s: State, live: set<Thread>, i: nat) {
    forall r <- live :: r in s.threads && s.threads[r].id.Some? && s.threads[r].id.value >= i
  }

  ghost predicate SeenIs(s: State, live: set<Thread>, i: nat, v: nat) {
    forall r <- live :: r in s.threads && (s.threads[r].id == Some(i) ==> Phase(v) == Phase(OwnWord(s, r)))
  }

  // What a synchronizing thread knows about the readers it has to outlast.  The first pass leaves
  // only readers of the new phase; the second flip makes these the old ones, and outlasts them.
  ghost predicate Outlasts(s: State, pc: Pc, live: set<Thread>) {
    match pc
    case SyncLock => true
    case FlipLoad(pass) => pass == 1 || (pass == 2 && PhasesAre(s, live, true))
    case FlipStore(pass, g) => g == s.gp && (pass == 1 || (pass == 2 && PhasesAre(s, live, true)))
    case WaitTest(pass, i) =>
      (pass == 1 && PassedAre(s, live, i)) || (pass == 2 && PhasesAre(s, live, false) && NonePassed(s, live, i))
    case WaitWord(pass, i) =>
      (pass == 1 && PassedAre(s, live, i)) || (pass == 2 && PhasesAre(s, live, false) && NonePassed(s, live, i))
    case WaitGp(pass, i, v) =>
      SeenIs(s, live, i, v) &&
      ((pass == 1 && PassedAre(s, live, i)) || (pass == 2 && PhasesAre(s, live, false) && NonePassed(s, live, i)))
    case _ => live == {}
  }

  // A reader that stays in its critical section keeps its phase.
  lemma ReaderKeepsPhase(s: State, t: Thread, r: Thread)
    requires Inv(s) && t in s.threads && r in s.threads
    requires s.threads[r].depth > 0 && Exec(s, t).threads[r].depth > 0
    ensures var s' := Exec(s, t);
      Phase(OwnWord(s', r)) == Phase(OwnWord(s, r)) && s'.threads[r].id == s.threads[r].id
  {
    hide Nest, Phase, FlipPhase, IsGp, Registered, Uncounted, IdsDiffer;
    if r == t {
      assert ThreadOk(s, t);
      IdInRange(s, t);
      NestStep(OwnWord(s, t));
    } else {
      ExecOther(s, t, r);
    }
  }

  lemma ReaderIsRegistered(s: State, r: Thread)
    requires Inv(s) && r in s.threads && s.threads[r].depth > 0
    ensures s.threads[r].id.Some? && s.threads[r].id.value < s.num && Nest(OwnWord(s, r)) > 0
    ensures s.threads[r].id.value < |s.words| && OwnWord(s, r) == s.words[s.threads[r].id.value]
  {
    hide Nest, IsGp, Registered, Uncounted, IdsDiffer;
    assert ThreadOk(s, r);
    NumInRange(s);
  }

  // Readers that are gone drop out; the others look the same to the synchronizing thread.
  ghost predicate SameReaders(s: State, s': State, live: set<Thread>) {
    forall r <- live :: r in s.threads && r in s'.threads
      && s'.threads[r].id == s.threads[r].id && Phase(OwnWord(s', r)) == Phase(OwnWord(s, r))
  }

  lemma OutlastsFewer(s: State, s': State, pc: Pc, live: set<Thread>, live': set<Thread>)
    requires Outlasts(s, pc, live) && live' <= live && SameReaders(s, s', live')
    requires Phase(s'.gp) == Phase(s.gp) && (s'.gp == s.gp || !pc.FlipStore?)
    ensures Outlasts(s', pc, live')
  {
    hide Phase, OwnWord;
  }

  // What the synchronizing thread's own action can rely on.
  ghost predicate OwnStep(s: State, w: Thread, live: set<Thread>) {
    && w in s.threads && Outlasts(s, s.threads[w].pc, live)
    && IsGp(s.gp)
    && (forall r <- live :: r in s.threads && s.threads[r].id.Some? && s.threads[r].id.value < s.num
          && Nest(OwnWord(s, r)) > 0
          && s.threads[r].id.value < |s.words| && OwnWord(s, r) == s.words[s.threads[r].id.value])
    && SameReaders(s, Exec(s, w), live)
  }

  lemma FlipOutlasts(s: State, w: Thread, live: set<Thread>)
    requires OwnStep(s, w, live)
    requires s.threads[w].pc.SyncLock? || s.threads[w].pc.FlipLoad? || s.threads[w].pc.FlipStore?
      || s.threads[w].pc.SyncUnlock?
    ensures Outlasts(Exec(s, w), Exec(s, w).threads[w].pc, live)
  {
    hide Nest, Phase, OwnWord;
    if s.threads[w].pc.FlipStore? { FlipIsGp(s.gp); }
  }

  lemma TestOutlasts(s: State, w: Thread, live: set<Thread>)
    requires OwnStep(s, w, live) && s.threads[w].pc.WaitTest?
    ensures Outlasts(Exec(s, w), Exec(s, w).threads[w].pc, live)
  {
    hide Nest, Phase, OwnWord, FlipPhase;
  }

  lemma WordOutlasts(s: State, w: Thread, live: set<Thread>)
    requires OwnStep(s, w, live) && s.threads[w].pc.WaitWord?
    ensures Outlasts(Exec(s, w), Exec(s, w).threads[w].pc, live)
  {
    hide Nest, Phase, OwnWord, FlipPhase;
  }

  lemma CompareOutlasts(s: State, w: Thread, live: set<Thread>)
    requires OwnStep(s, w, live) && s.threads[w].pc.WaitGp?
    ensures Outlasts(Exec(s, w), Exec(s, w).threads[w].pc, live)
  {
    hide Nest, Phase, OwnWord, FlipPhase;
  }

  // The synchronizing thread's own action.
  lemma OwnStepOutlasts(s: State, w: Thread, live: set<Thread>)
    requires Inv(s) && w in s.threads && Outlasts(s, s.threads[w].pc, live)
    requires InSync(s.threads[w].pc)
    requires forall r <- live :: r in s.threads && s.threads[r].depth > 0
    requires SameReaders(s, Exec(s, w), live)
    ensures Outlasts(Exec(s, w), Exec(s, w).threads[w].pc, live)
  {
    hide Nest, Phase, OwnWord, Inv, Outlasts, SameReaders, Action;
    forall r <- live ensures s.threads[r].id.Some? && s.threads[r].id.value < s.num && Nest(OwnWord(s, r)) > 0
      && s.threads[r].id.value < |s.words| && OwnWord(s, r) == s.words[s.threads[r].id.value]
    {
      ReaderIsRegistered(s, r);
    }
    GpIsGp(s);
    if s.threads[w].pc.WaitTest? {
      TestOutlasts(s, w, live);
    } else if s.threads[w].pc.WaitWord? {
      WordOutlasts(s, w, live);
    } else if s.threads[w].pc.WaitGp? {
      CompareOutlasts(s, w, live);
    } else {
      FlipOutlasts(s, w, live);
    }
  }

  lemma GpIsGp(s: State)
    requires Inv(s)
    ensures IsGp(s.gp)
  {
    hide ThreadOk;
  }

  // While a thread holds the mutex, no other thread changes the grace-period word.
  lemma OthersKeepGp(s: State, w: Thread, t: Thread)
    requires Inv(s) && w in s.threads && t in s.threads && t != w
    requires HoldsLock(s.threads[w].pc)
    ensures Exec(s, t).gp == s.gp
  {
    hide Nest, Phase, FlipPhase, IsGp, Action, LocalOk, SyncOk;
    assert ThreadOk(s, w) && ThreadOk(s, t);
    ActionLock(t, s.threads[t], CellsOf(s, s.threads[t]));
  }

  lemma ExecOutlasts(s: State, w: Thread, t: Thread, live: set<Thread>, live': set<Thread>)
    requires Inv(s) && w in s.threads && t in s.threads && Outlasts(s, s.threads[w].pc, live)
    requires forall r <- live :: r in s.threads && s.threads[r].depth > 0
    requires live' == set r <- live | Exec(s, t).threads[r].depth > 0
    ensures live' == {} || Outlasts(Exec(s, t), Exec(s, t).threads[w].pc, live')
  {
    hide Nest, Phase, FlipPhase, Inv, Action, OwnWord;
    var s' := Exec(s, t);
    forall r <- live' ensures s'.threads[r].id == s.threads[r].id && Phase(OwnWord(s', r)) == Phase(OwnWord(s, r)) {
      ReaderKeepsPhase(s, t, r);
    }
    if live' != {} {
      assert InSync(s.threads[w].pc);
      if t == w {
        OutlastsFewer(s, s, s.threads[w].pc, live, live');
        OwnStepOutlasts(s, w, live');
      } else if s.threads[w].pc.SyncLock? {
      } else {
        OthersKeepGp(s, w, t);
        OutlastsFewer(s, s', s.threads[w].pc, live, live');
      }
    }
  }

  lemma CallOutlasts(s: State, w: Thread, t: Thread, s': State, live: set<Thread>, live': set<Thread>)
    requires Inv(s) && w in s.threads && t in s.threads && Call(s, t, s') && Outlasts(s, s.threads[w].pc, live)
    requires live' <= live && forall r <- live :: r in s.threads
    ensures live' == {} || Outlasts(s', s'.threads[w].pc, live')
  {
    hide Nest, Phase, FlipPhase, Inv, Action, OwnWord, Call;
    CallIs(s, t, s');
    forall r <- live' ensures s'.threads[r].id == s.threads[r].id && Phase(OwnWord(s', r)) == Phase(OwnWord(s, r)) {
      CallThread(s, t, s', r);
    }
    if live' != {} {
      OutlastsFewer(s, s', s.threads[w].pc, live, live');
    }
  }

  lemma {:induction false} SyncOutlasts(run: seq<State>, w: Thread, i: nat, k: nat)
    requires IsRun(run) && |run[0].threads| <= MAX_THREADS
    requires i <= k < |run| && w in run[i].threads && run[i].threads[w].pc == SyncLock
    ensures Inv(run[k]) && run[k].threads.Keys == run[i].threads.Keys
    ensures forall r <- Still(run, i, k) :: r in run[k].threads && run[k].threads[r].depth > 0
    ensures Still(run, i, k) == {} || Outlasts(run[k], run[k].threads[w].pc, Still(run, i, k))
    decreases k - i
  {
    hide Inv, Outlasts, Step, Init;
    RunInv(run, i);
    RunInv(run, k);
    if k > i {
      SyncOutlasts(run, w, i, k - 1);
      if Still(run, i, k) != {} {
        assert Step(run[k - 1], run[k]);
        StepOutlasts(run[k - 1], run[k], w, Still(run, i, k - 1), Still(run, i, k));
      }
    } else {
      StartOutlasts(run[i], Still(run, i, i));
    }
  }

  lemma StartOutlasts(s: State, live: set<Thread>)
    ensures Outlasts(s, SyncLock, live)
  {
  }

  lemma StepOutlasts(s: State, s': State, w: Thread, live: set<Thread>, live': set<Thread>)
    requires Inv(s) && Step(s, s') && w in s.threads && s'.threads.Keys == s.threads.Keys
    requires Outlasts(s, s.threads[w].pc, live)
    requires forall r <- live :: r in s.threads && s.threads[r].depth > 0
    requires live' == live * set t <- s'.threads | s'.threads[t].depth > 0
    ensures live' == {} || Outlasts(s', s'.threads[w].pc, live')
  {
    hide Inv, Outlasts, Call, Action;
    var t :| t in s.threads && (Call(s, t, s') || s' == Exec(s, t));
    if Call(s, t, s') {
      CallOutlasts(s, w, t, s', live, live');
    } else {
      assert live' == set r <- live | Exec(s, t).threads[r].depth > 0;
      ExecOutlasts(s, w, t, live, live');
    }
  }

  // The grace period: a thread that is in a critical section when synchronize_rcu is called by w
  // has been outside every critical section at some moment before that call returns.
  lemma GracePeriod(run: seq<State>, w: Thread, i: nat, j: nat, r: Thread)
    requires IsRun(run) && |run[0].threads| <= MAX_THREADS
    requires i < j < |run| && w in run[i].threads && r in run[i].threads
    requires run[i].threads[w].pc == SyncLock && w in run[j].threads && run[j].threads[w].pc == Idle
    requires run[i].threads[r].depth > 0
    ensures exists k :: i < k <= j && r in run[k].threads && run[k].threads[r].depth == 0
  {
    hide Inv, Step, Init;
    SyncOutlasts(run, w, i, j);
    LeavesBetween(run, i, j, r);
  }

  lemma {:induction false} LeavesBetween(run: seq<State>, i: nat, j: nat, r: Thread)
    requires IsRun(run) && |run[0].threads| <= MAX_THREADS
    requires i <= j < |run| && r in run[i].threads && run[i].threads[r].depth > 0
    requires r !in Still(run, i, j)
    ensures exists k :: i < k <= j && r in run[k].threads && run[k].threads[r].depth == 0
    decreases j
  {
    hide Step, Init, Inv;
    RunInv(run, i);
    RunInv(run, j);
    if i < j && r in Still(run, i, j - 1) {
      assert run[j].threads[r].depth == 0;
    } else if i < j {
      LeavesBetween(run, i, j - 1, r);
    }
  }

  // In every run the assert in rcu_thread_register holds, every reader word that is touched exists,
  // at most one thread is inside the mutex, and an idle thread's word counts its nesting exactly.
  lemma RunSafe(run: seq<State>, k: nat, t: Thread)
    requires IsRun(run) && |run[0].threads| <= MAX_THREADS && k < |run| && t in run[k].threads
    ensures var s, me := run[k], run[k].threads[t];
      && (me.pc.RegId? ==> s.num < MAX_THREADS)
      && (me.id.Some? ==> me.id.value < |s.words|)
      && (me.pc.WaitWord? ==> me.pc.i < |s.words|)
      && (HoldsLock(me.pc) <==> s.lock == Some(t))
      && (me.pc == Idle ==> Nest(OwnWord(s, t)) == me.depth)
      && (me.pc.LockStore? || me.pc.LockNest? || me.pc.UnlockLoad? || me.pc.UnlockStore? ==> me.id.Some?)
  {
    hide Step, Init, IdsDiffer, Registered, Nest;
    RunInv(run, k);
    IdInRange(run[k], t);
    assert ThreadOk(run[k], t);
  }

  // ----- A call that nobody disturbs -----

  // Thread t alone acts.
  ghost predicate Acts(run: seq<State>, t: Thread) {
    forall i | 0 <= i < |run| - 1 :: t in run[i].threads && run[i + 1] == Exec(run[i], t)
  }

  lemma ActsOne(s: State, t: Thread)
    requires t in s.threads
    ensures Acts([s, Exec(s, t)], t)
  {
    hide Exec;
  }

  lemma ActsOn(a: seq<State>, b: seq<State>, t: Thread)
    requires a != [] && b != [] && a[|a| - 1] == b[0] && Acts(a, t) && Acts(b, t)
    ensures Acts(a + b[1..], t)
  {
    hide Exec;
  }

  function At(s: State, t: Thread, pc: Pc): State
    requires t in s.threads
  {
    Set(s, t, s.threads[t].(pc := pc))
  }

  // An action that leaves the shared words alone.
  lemma ActsQuietly(s: State, t: Thread, pc: Pc)
    requires t in s.threads
    requires Action(t, s.threads[t], CellsOf(s, s.threads[t])) == (CellsOf(s, s.threads[t]), s.threads[t].(pc := pc))
    ensures Exec(s, t) == At(s, t, pc)
  {
    hide Action;
    var me := s.threads[t];
    if me.id.Some? && me.id.value < |s.words| {
      assert s.words[me.id.value := s.words[me.id.value]] == s.words;
    }
  }

  ghost predicate NoReaders(s: State) {
    s.num <= |s.words| && forall j | 0 <= j < s.num :: Nest(s.words[j]) == 0
  }

  // One pass over the reader words.
  lemma {:induction false} PassAlone(s: State, w: Thread, pass: nat, i: nat) returns (run: seq<State>)
    requires w in s.threads && s.threads[w].pc == WaitTest(pass, i) && i <= s.num && NoReaders(s)
    ensures run != [] && Acts(run, w) && run[0] == s
    ensures run[|run| - 1] == At(s, w, if pass == 1 then FlipLoad(2) else SyncUnlock)
    decreases s.num - i
  {
    hide Exec, Acts, Nest;
    ActsOne(s, w);
    if i == s.num {
      ActsQuietly(s, w, if pass == 1 then FlipLoad(2) else SyncUnlock);
      run := [s, Exec(s, w)];
    } else {
      ActsQuietly(s, w, WaitWord(pass, i));
      var s1 := Exec(s, w);
      ActsQuietly(s1, w, WaitTest(pass, i + 1));
      var s2 := Exec(s1, w);
      ActsOne(s1, w);
      ActsOn([s, s1], [s1, s2], w);
      var more := PassAlone(s2, w, pass, i + 1);
      ActsOn([s, s1] + [s1, s2][1..], more, w);
      run := [s, s1] + [s1, s2][1..] + more[1..];
    }
  }

  // Flipping the phase, and the pass after it.
  lemma FlipAlone(s: State, w: Thread, pass: nat) returns (run: seq<State>)
    requires w in s.threads && s.threads[w].pc == FlipLoad(pass) && NoReaders(s)
    ensures run != [] && Acts(run, w) && run[0] == s
    ensures run[|run| - 1] ==
      At(s, w, if pass == 1 then FlipLoad(2) else SyncUnlock).(gp := FlipPhase(s.gp))
  {
    hide Exec, Acts, Nest, FlipPhase;
    ActsQuietly(s, w, FlipStore(pass, s.gp));
    var s1 := Exec(s, w);
    var s2 := Exec(s1, w);
    FlipActs(s1, w, pass);
    ActsOne(s, w);
    ActsOne(s1, w);
    ActsOn([s, s1], [s1, s2], w);
    var more := PassAlone(s2, w, pass, 0);
    ActsOn([s, s1] + [s1, s2][1..], more, w);
    run := [s, s1] + [s1, s2][1..] + more[1..];
  }

  lemma FlipActs(s: State, w: Thread, pass: nat)
    requires w in s.threads && s.threads[w].pc == FlipStore(pass, s.gp)
    ensures Exec(s, w) == At(s, w, WaitTest(pass, 0)).(gp := FlipPhase(s.gp))
  {
    hide FlipPhase;
    var me := s.threads[w];
    if me.id.Some? && me.id.value < |s.words| {
      assert s.words[me.id.value := s.words[me.id.value]] == s.words;
    }
  }

  // synchronize_rcu comes back when nobody else acts and no reader is in a critical section: it flips
  // the phase twice, which leaves the words as they were.
  lemma SyncAlone(s: State, w: Thread) returns (run: seq<State>)
    requires w in s.threads && s.threads[w].pc == Idle && s.lock == None && NoReaders(s) && IsGp(s.gp)
    ensures run != [] && Acts(run, w) && run[0] == At(s, w, SyncLock) && run[|run| - 1] == s
  {
    hide Acts, Nest, FlipPhase, Action, Exec;
    var s0 := At(s, w, SyncLock);
    LockActs(s0, w);
    var s1 := Exec(s0, w);
    var first := FlipAlone(s1, w, 1);
    var s2 := first[|first| - 1];
    var second := FlipAlone(s2, w, 2);
    var s3 := second[|second| - 1];
    FlipTwice(s.gp);
    UnlockActs(s3, w);
    ActsOne(s0, w);
    ActsOne(s3, w);
    ActsOn([s0, s1], first, w);
    ActsOn([s0, s1] + first[1..], second, w);
    run := [s0, s1] + first[1..] + second[1..];
    ActsOn(run, [s3, Exec(s3, w)], w);
    run := run + [s3, Exec(s3, w)][1..];
    assert s.threads[w := s.threads[w]] == s.threads;
  }

  lemma FlipTwice(g: nat)
    requires IsGp(g)
    ensures FlipPhase(FlipPhase(g)) == g
  {
  }

  lemma LockActs(s: State, w: Thread)
    requires w in s.threads && s.threads[w].pc == SyncLock && s.lock == None
    ensures Exec(s, w) == At(s, w, FlipLoad(1)).(lock := Some(w))
  {
    var me := s.threads[w];
    if me.id.Some? && me.id.value < |s.words| {
      assert s.words[me.id.value := s.words[me.id.value]] == s.words;
    }
  }

  lemma UnlockActs(s: State, w: Thread)
    requires w in s.threads && s.threads[w].pc == SyncUnlock
    ensures Exec(s, w) == At(s, w, Idle).(lock := None)
  {
    var me := s.threads[w];
    if me.id.Some? && me.id.value < |s.words| {
      assert s.words[me.id.value := s.words[me.id.value]] == s.words;
    }
  }

  // rcu_read_lock takes the grace-period word for the outermost section, and counts up for a nested
  // one; rcu_read_unlock counts down.
  lemma LockAlone(s: State, t: Thread) returns (run: seq<State>)
    requires t in s.threads && s.threads[t].pc == Idle && s.threads[t].id.Some? && s.threads[t].id.value < |s.words|
    ensures 0 < |run| <= 4 && Acts(run, t) && run[0] == At(s, t, LockLoad)
    ensures var me, word := s.threads[t], s.words[s.threads[t].id.value];
      run[|run| - 1] == Set(s, t, me.(depth := me.depth + 1)).(
        words := s.words[me.id.value := if Nest(word) == 0 then s.gp else word + 1])
  {
    hide Nest;
    var me, word := s.threads[t], s.words[s.threads[t].id.value];
    assert s.words[me.id.value := word] == s.words;
    var s0 := At(s, t, LockLoad);
    var s1 := Exec(s0, t);
    var s2 := Exec(s1, t);
    run := [s0, s1, s2];
    if Nest(word) == 0 { run := [s0, s1, s2, Exec(s2, t)]; }
  }

  lemma UnlockAlone(s: State, t: Thread) returns (run: seq<State>)
    requires t in s.threads && s.threads[t].pc == Idle && s.threads[t].id.Some? && s.threads[t].id.value < |s.words|
    requires s.threads[t].depth > 0 && s.words[s.threads[t].id.value] > 0
    ensures |run| == 3 && Acts(run, t) && run[0].words == s.words && Call(s, t, run[0])
    ensures var me, word := s.threads[t], s.words[s.threads[t].id.value];
      run[2] == Set(s, t, me.(depth := me.depth - 1)).(words := s.words[me.id.value := word - 1])
  {
    hide Nest;
    var me := s.threads[t];
    assert s.words[me.id.value := s.words[me.id.value]] == s.words;
    var s0 := Set(s, t, me.(pc := UnlockLoad, depth := me.depth - 1));
    var s1 := Exec(s0, t);
    run := [s0, s1, Exec(s1, t)];
  }

  // In a run this is so when every thread is between its calls and outside every critical section.
  lemma QuietIsReady(run: seq<State>, k: nat)
    requires IsRun(run) && |run[0].threads| <= MAX_THREADS && k < |run|
    requires forall t <- run[k].threads :: run[k].threads[t].pc == Idle && run[k].threads[t].depth == 0
    ensures run[k].lock == None && IsGp(run[k].gp) && NoReaders(run[k])
  {
    hide IsRun;
    RunInv(run, k);
    GpIsGp(run[k]);
    NumInRange(run[k]);
    QuietLock(run[k]);
    forall j | 0 <= j < run[k].num ensures Nest(run[k].words[j]) == 0 { QuietWord(run[k], j); }
  }

  function IdsOf(threads: map<Thread, Local>, some: set<Thread>): set<nat>
    requires forall t <- some :: t in threads && threads[t].id.Some?
  {
    set t <- some :: threads[t].id.value
  }

  // Different threads have different ids, so there are as many ids as threads.
  lemma {:induction false} AsManyIds(threads: map<Thread, Local>, some: set<Thread>)
    requires IdsDiffer(threads) && forall t <- some :: t in threads && threads[t].id.Some?
    ensures |IdsOf(threads, some)| == |some|
    decreases |some|
  {
    if some != {} {
      var t :| t in some;
      AsManyIds(threads, some - {t});
      assert IdsOf(threads, some) == IdsOf(threads, some - {t}) + {threads[t].id.value};
      assert threads[t].id.value !in IdsOf(threads, some - {t});
    }
  }

  // Every reader word in use belongs to a thread, which is outside every critical section.
  lemma QuietWord(s: State, j: nat)
    requires Inv(s) && s.lock == None && j < s.num <= |s.words|
    requires forall t <- s.threads :: s.threads[t].pc == Idle && s.threads[t].depth == 0
    ensures Nest(s.words[j]) == 0
  {
    hide Nest, IsGp;
    var some := Registered(s);
    forall t <- some ensures s.threads[t].id.value < s.num { assert ThreadOk(s, t); }
    AsManyIds(s.threads, some);
    FullSubset(IdsOf(s.threads, some), Range(s.num));
    assert j in Range(s.num);
    var t :| t in some && s.threads[t].id.value == j;
    assert ThreadOk(s, t);
  }

  lemma QuietLock(s: State)
    requires Inv(s) && forall t <- s.threads :: s.threads[t].pc == Idle
    ensures s.lock == None
  {
    hide Registered, Uncounted, IdsDiffer, Nest;
    forall t <- s.threads ensures s.lock != Some(t) { assert ThreadOk(s, t); }
  }
  // ----- More threads than reader words -----

  ghost predicate Connected(run: seq<State>) {
    |run| > 0 && forall i | 0 <= i < |run| - 1 :: Step(run[i], run[i + 1])
  }

  // The threads that have called nothing yet.
  ghost function Fresh(s: State): set<Thread> {
    set t | t in s.threads && s.threads[t] == Local(None, 0, Idle)
  }

  // A thread calls rcu_read_lock for the first time and gets to the assert.
  lemma ReachAssert(s: State, t: Thread) returns (run: seq<State>)
    requires s.lock == None && t in s.threads && s.threads[t] == Local(None, 0, Idle)
    ensures Connected(run) && run[0] == s
    ensures run[|run| - 1] == s.(lock := Some(t), threads := s.threads[t := Local(None, 0, RegId)])
  {
    var s1 := Set(s, t, Local(None, 0, RegLock));
    var s2 := Exec(s1, t);
    run := [s, s1, s2];
    assert Call(s, t, s1);
    assert s2.threads == s.threads[t := Local(None, 0, RegId)];
  }

  // It registers, and stays where it is.
  lemma Register(s: State, t: Thread) returns (run: seq<State>)
    requires s.lock == None && t in s.threads && s.threads[t] == Local(None, 0, Idle)
    ensures Connected(run) && run[0] == s
    ensures var z := run[|run| - 1];
      z.lock == None && z.num == s.num + 1 && z.threads == s.threads[t := Local(Some(s.num), 0, LockLoad)]
  {
    hide Step;
    var first := ReachAssert(s, t);
    var s2 := first[|first| - 1];
    var s3 := Exec(s2, t);
    var s4 := Exec(s3, t);
    var s5 := Exec(s4, t);
    run := first + [s2, s3, s4, s5][1..];
    ExecIsStep(s2, t);
    ExecIsStep(s3, t);
    ExecIsStep(s4, t);
    Continues(first, [s2, s3, s4, s5]);
    assert s5.threads == s.threads[t := Local(Some(s.num), 0, LockLoad)];
  }

  lemma ExecIsStep(s: State, t: Thread)
    requires t in s.threads
    ensures Step(s, Exec(s, t))
  {
    hide Exec;
  }

  lemma Continues(a: seq<State>, b: seq<State>)
    requires Connected(a) && Connected(b) && a[|a| - 1] == b[0]
    ensures Connected(a + b[1..])
  {
    hide Step;
  }

  lemma {:induction false} RegisterMany(s: State, n: nat) returns (run: seq<State>)
    requires Init(s) && n <= |s.threads|
    ensures Connected(run) && run[0] == s
    ensures var z := run[|run| - 1]; z.lock == None && z.num == n && |Fresh(z)| == |s.threads| - n
  {
    hide Step;
    if n == 0 {
      run := [s];
      assert Fresh(s) == s.threads.Keys;
    } else {
      var first := RegisterMany(s, n - 1);
      var z := first[|first| - 1];
      var t :| t in Fresh(z);
      var more := Register(z, t);
      Continues(first, more);
      run := first + more[1..];
      assert run[|run| - 1] == more[|more| - 1];
      assert Fresh(run[|run| - 1]) == Fresh(z) - {t};
    }
  }

  lemma TooManyThreads(s: State) returns (run: seq<State>, t: Thread)
    requires Init(s) && |s.threads| > MAX_THREADS
    ensures |run| > 0 && IsRun(run) && run[0] == s
    ensures var z := run[|run| - 1]; t in z.threads && z.threads[t].pc == RegId && z.num == MAX_THREADS
  {
    hide Step, Init;
    var first := RegisterMany(s, MAX_THREADS);
    var z := first[|first| - 1];
    t :| t in Fresh(z);
    var more := ReachAssert(z, t);
    Continues(first, more);
    run := first + more[1..];
    assert run[|run| - 1] == more[|more| - 1];
  }

  // The assert in rcu_thread_register, for a thread that is about to evaluate it.
  ghost predicate AssertHolds(s: State, t: Thread) {
    t in s.threads && s.threads[t].pc == RegId ==> s.num < MAX_THREADS
  }

  ghost predicate NeverFails(s: State) {
    forall run: seq<State>, k: nat, t: Thread | k < |run| && IsRun(run) && run[0] == s :: AssertHolds(run[k], t)
  }

  // It holds in every run exactly when there are at most 512 threads.
  lemma AssertHoldsIff(s: State)
    requires Init(s)
    ensures NeverFails(s) <==> |s.threads| <= MAX_THREADS
  {
    hide IsRun, Init;
    if |s.threads| <= MAX_THREADS {
      forall run: seq<State>, k: nat, t: Thread | k < |run| && IsRun(run) && run[0] == s
        ensures AssertHolds(run[k], t)
      {
        if t in run[k].threads { RunSafe(run, k, t); }
      }
    } else {
      var run, t := TooManyThreads(s);
      var k: nat := |run| - 1;
      assert !AssertHolds(run[k], t);
    }
  }
}
