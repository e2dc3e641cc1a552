/**
 The reader-writer spin lock with an upgrade state: one word `bits`, one atomic action per step, for
 any number of threads.  A thread's mode says which lock it holds and which action it still owes.
 The spinning methods repeat their try_ form, so the try_ forms are the steps.
*/
module RWSpinLock {
  import opened Finite

  type Thread = nat

  const READER: int := 4
  const UPGRADED: int := 2
  const WRITER: int := 1

  datatype Mode =
    | Idle
    | Reading
    | Writing
    | Upgrading
    | BackingOff       // try_lock_shared has failed and owes fetch_add(-READER)
    | Downgrading      // unlock_and_lock_shared has added READER and owes unlock()
    | WriteToUpgrade   // unlock_and_lock_upgrade has set UPGRADED and owes fetch_add(-WRITER)

  datatype Op =
    | TryLock | Unlock
    | TryLockShared | UnlockShared
    | UnlockAndLockShared
    | TryLockUpgrade | UnlockUpgrade
    | TryUnlockUpgradeAndLock
    | UnlockUpgradeAndLockShared
    | UnlockAndLockUpgrade
    | Continue         // the owed second action

  datatype State = State(bits: int, threads: map<Thread, Mode>)

  // bits & (WRITER | UPGRADED)
  function Low(bits: int): int {
    bits % 4
  }

  // bits & ~(WRITER | UPGRADED)
  function ClearLow(bits: int): int {
    bits - Low(bits)
  }

  // bits | UPGRADED
  function OrUpgraded(bits: int): int {
    if Low(bits) < UPGRADED then bits + UPGRADED else bits
  }

  // Which operation the holder of which lock may call.
  predicate Allowed(mode: Mode, op: Op) {
    match op
    case TryLock => mode == Idle
    case Unlock => mode == Writing
    case TryLockShared => mode == Idle
    case UnlockShared => mode == Reading
    case UnlockAndLockShared => mode == Writing
    case TryLockUpgrade => mode == Idle
    case UnlockUpgrade => mode == Upgrading
    case TryUnlockUpgradeAndLock => mode == Upgrading
    case UnlockUpgradeAndLockShared => mode == Upgrading
    case UnlockAndLockUpgrade => mode == Writing
    case Continue => mode == BackingOff || mode == Downgrading || mode == WriteToUpgrade
  }

  // One atomic action: the new word and the new mode of the thread.
  function Action(op: Op, mode: Mode, bits: int): (int, Mode)
    requires Allowed(mode, op)
  {
    match op
    case TryLock => if bits == 0 then (WRITER, Writing) else (bits, Idle)
    case Unlock => (ClearLow(bits), Idle)
    case TryLockShared => (bits + READER, if Low(bits) != 0 then BackingOff else Reading)
    case UnlockShared => (bits - READER, Idle)
    case UnlockAndLockShared => (bits + READER, Downgrading)
    case TryLockUpgrade => (OrUpgraded(bits), if Low(bits) == 0 then Upgrading else Idle)
    case UnlockUpgrade => (bits - UPGRADED, Idle)
    case TryUnlockUpgradeAndLock => if bits == UPGRADED then (WRITER, Writing) else (bits, Upgrading)
    case UnlockUpgradeAndLockShared => (bits + READER - UPGRADED, Reading)
    case UnlockAndLockUpgrade => (OrUpgraded(bits), WriteToUpgrade)
    case Continue =>
      if mode == BackingOff then (bits - READER, Idle)
      else if mode == Downgrading then (ClearLow(bits), Reading)
      else (bits - WRITER, Upgrading)
  }

  ghost predicate Init(s: State) {
    s.bits == 0 && forall t <- s.threads :: s.threads[t] == Idle
  }

  ghost predicate Step(s: State, s': State) {
    exists t <- s.threads, op | Allowed(s.threads[t], op) :: s' == Exec(s, t, op)
  }

  function Exec(s: State, t: Thread, op: Op): State
    requires t in s.threads && Allowed(s.threads[t], op)
  {
    var (bits, mode) := Action(op, s.threads[t], s.bits);
    State(bits, s.threads[t := mode])
  }

  ghost predicate IsRun(run: seq<State>) {
    && |run| > 0
    && Init(run[0])
    && forall i | 0 <= i < |run| - 1 :: Step(run[i], run[i + 1])
  }

  // ----- The invariant -----

  datatype Owner = Nobody | By(thread: Thread)

  // Modes that own the WRITER bit, and modes that exclude each other.
  predicate IsWriter(mode: Mode) {
    mode == Writing || mode == Downgrading || mode == WriteToUpgrade
  }

  predicate Exclusive(mode: Mode) {
    IsWriter(mode) || mode == Upgrading
  }

  // Modes that have READER added to the word: readers and reader attempts in flight.
  predicate Counted(mode: Mode) {
    mode == Reading || mode == BackingOff || mode == Downgrading
  }

  ghost function Readers(threads: map<Thread, Mode>): set<Thread> {
    set t <- threads | Counted(threads[t])
  }

  // What the owner's mode says about the two low bits.
  predicate LowOk(mode: Mode, low: int) {
    match mode
    case Writing => low == WRITER || low == WRITER + UPGRADED
    case Downgrading => low == WRITER || low == WRITER + UPGRADED
    case WriteToUpgrade => low == WRITER + UPGRADED
    case Upgrading => low == UPGRADED
    case _ => low == 0
  }

  ghost predicate OwnerOk(s: State, owner: Owner) {
    match owner
    case Nobody => Low(s.bits) == 0
    case By(t) => t in s.threads && LowOk(s.threads[t], Low(s.bits))
  }

  ghost predicate ThreadOk(s: State, owner: Owner, t: Thread)
    requires t in s.threads
  {
    && (Exclusive(s.threads[t]) <==> owner == By(t))
    && (s.threads[t] == Reading && owner.By? && owner.thread in s.threads ==> s.threads[owner.thread] == Upgrading)
  }

  ghost predicate InvWith(s: State, owner: Owner) {
    && s.bits == READER * |Readers(s.threads)| + Low(s.bits)
    && OwnerOk(s, owner)
    && forall t <- s.threads :: ThreadOk(s, owner, t)
  }

  ghost predicate Inv(s: State) {
    exists owner :: InvWith(s, owner)
  }

  // ----- Every step keeps the invariant -----

  // The owner after an action of t.
  ghost function NewOwner(owner: Owner, t: Thread, mode: Mode): Owner {
    if Exclusive(mode) then By(t) else if owner == By(t) then Nobody else owner
  }

  lemma WordAfter(op: Op, mode: Mode, bits: int, readers: nat, ownerMode: Mode, own: bool)
    requires Allowed(mode, op) && bits == READER * readers + Low(bits)
    requires LowOk(ownerMode, Low(bits))
    requires Exclusive(mode) <==> own
    requires own ==> ownerMode == mode
    requires !own ==> Exclusive(ownerMode) || ownerMode == Idle
    ensures var (bits', mode') := Action(op, mode, bits);
      && bits' == READER * (readers - Indicator(Counted(mode)) + Indicator(Counted(mode'))) + Low(bits')
      && LowOk(if own || Exclusive(mode') then mode' else ownerMode, Low(bits'))
      && (Exclusive(mode') && !own ==> ownerMode == Idle)
      && (mode' == Writing && mode != Writing ==> readers == 0)
      && (mode' == Reading && !own ==> ownerMode == Idle || mode == Reading)
  {
  }

  ghost function OwnerMode(s: State, owner: Owner): Mode {
    if owner.By? && owner.thread in s.threads then s.threads[owner.thread] else Idle
  }

  lemma NoReaders(threads: map<Thread, Mode>, t: Thread)
    requires |Readers(threads)| == 0 && t in threads
    ensures threads[t] != Reading
  {
    assert t in Readers(threads) <==> Counted(threads[t]);
  }

  lemma ExecKeepsInv(s: State, t: Thread, op: Op, owner: Owner)
    requires InvWith(s, owner) && t in s.threads && Allowed(s.threads[t], op)
    ensures InvWith(Exec(s, t, op), NewOwner(owner, t, Exec(s, t, op).threads[t]))
  {
    hide Action, LowOk;
    var s', mode := Exec(s, t, op), s.threads[t];
    var mode', owner' := s'.threads[t], NewOwner(owner, t, s'.threads[t]);
    assert ThreadOk(s, owner, t);
    assert LowOk(OwnerMode(s, owner), Low(s.bits)) by { IdleLow(s, owner); }
    WordAfter(op, mode, s.bits, |Readers(s.threads)|, OwnerMode(s, owner), owner == By(t));
    SizeWithout(Readers(s.threads), Readers(s'.threads), t);
    assert OwnerOk(s', owner') by { IdleLow(s', owner'); }
    forall u <- s'.threads ensures ThreadOk(s', owner', u) {
      assert ThreadOk(s, owner, u);
      if mode' == Writing && |Readers(s.threads)| == 0 { NoReaders(s.threads, u); }
      ModeMoves(op, mode, s.bits);
    }
  }

  lemma IdleLow(s: State, owner: Owner)
    requires owner.By? ==> owner.thread in s.threads
    ensures OwnerOk(s, owner) <==> LowOk(OwnerMode(s, owner), Low(s.bits))
  {
  }

  // How modes follow each other.
  lemma ModeMoves(op: Op, mode: Mode, bits: int)
    requires Allowed(mode, op)
    ensures var mode' := Action(op, mode, bits).1;
      && (mode' == Downgrading || mode' == WriteToUpgrade ==> mode == Writing)
      && (mode' == Reading && Exclusive(mode) ==> mode == Downgrading || mode == Upgrading)
      && (IsWriter(mode') ==> IsWriter(mode) || mode' == Writing)
  {
  }

  lemma StepKeepsInv(s: State, s': State)
    requires Inv(s) && Step(s, s')
    ensures Inv(s') && s'.threads.Keys == s.threads.Keys
  {
    hide InvWith, Action;
    var owner :| InvWith(s, owner);
    var t, op :| t in s.threads && Allowed(s.threads[t], op) && s' == Exec(s, t, op);
    ExecKeepsInv(s, t, op, owner);
  }

  lemma {:induction false} RunInv(run: seq<State>, k: nat)
    requires IsRun(run) && k < |run|
    ensures Inv(run[k]) && run[k].threads.Keys == run[0].threads.Keys
  {
    hide Inv, Step;
    if k == 0 {
      InitInv(run[0]);
    } else {
      RunInv(run, k - 1);
      StepKeepsInv(run[k - 1], run[k]);
    }
  }

  lemma InitInv(s: State)
    requires Init(s)
    ensures Inv(s)
  {
    assert Readers(s.threads) == {};
    assert InvWith(s, Nobody);
  }

  // ----- Safety of every run -----

  // A writer excludes every other holder, and there is at most one upgrader.
  lemma MutualExclusion(run: seq<State>, k: nat, t: Thread, u: Thread)
    requires IsRun(run) && k < |run| && t in run[k].threads && u in run[k].threads && t != u
    ensures Exclusive(run[k].threads[t]) ==> !Exclusive(run[k].threads[u])
    ensures IsWriter(run[k].threads[t]) ==> run[k].threads[u] == Idle || run[k].threads[u] == BackingOff
  {
    hide Step;
    RunInv(run, k);
    var owner :| InvWith(run[k], owner);
    assert ThreadOk(run[k], owner, t) && ThreadOk(run[k], owner, u);
  }

  ghost predicate SomeThread(s: State, modes: set<Mode>) {
    exists t <- s.threads :: s.threads[t] in modes
  }

  // The word is the exact account of the holders: the WRITER bit is there for a writer only, and the
  // UPGRADED bit for an upgrader or, left by a failed try_lock_upgrade, as long as there is a writer.
  lemma WordIsExact(run: seq<State>, k: nat)
    requires IsRun(run) && k < |run|
    ensures var s, low := run[k], Low(run[k].bits);
      && s.bits == READER * |Readers(s.threads)| + low
      && (low % 2 == WRITER <==> SomeThread(s, {Writing, Downgrading, WriteToUpgrade}))
      && (SomeThread(s, {Upgrading, WriteToUpgrade}) ==> low >= UPGRADED)
      && (low >= UPGRADED ==> SomeThread(s, {Upgrading, Writing, Downgrading, WriteToUpgrade}))
      && (low == UPGRADED <==> SomeThread(s, {Upgrading}))
  {
    hide Step;
    RunInv(run, k);
    var s := run[k];
    var owner :| InvWith(s, owner);
    forall t <- s.threads ensures ThreadOk(s, owner, t) { }
  }

  // When everybody has let go the word is zero again, so the next try_lock succeeds.
  lemma IdleIsZero(run: seq<State>, k: nat, t: Thread)
    requires IsRun(run) && k < |run| && t in run[k].threads
    requires forall u <- run[k].threads :: run[k].threads[u] == Idle
    ensures run[k].bits == 0 && Exec(run[k], t, TryLock).threads[t] == Writing
  {
    hide Step;
    WordIsExact(run, k);
    assert Readers(run[k].threads) == {};
  }

  // With fewer than 2^29 threads the word stays a non-negative 32-bit integer.
  lemma WordFits(run: seq<State>, k: nat)
    requires IsRun(run) && k < |run| && |run[0].threads| < 0x2000_0000
    ensures 0 <= run[k].bits < 0x8000_0000
  {
    hide Step;
    RunInv(run, k);
    WordIsExact(run, k);
    SubsetSize(Readers(run[k].threads), run[k].threads.Keys);
  }
  // ----- What the calls achieve -----

  // The mode a call leaves its thread in, the owed second action included.
  function Outcome(s: State, t: Thread, op: Op): Mode
    requires t in s.threads && Allowed(s.threads[t], op)
  {
    var s1 := Exec(s, t, op);
    if Allowed(s1.threads[t], Continue) then Exec(s1, t, Continue).threads[t] else s1.threads[t]
  }

  ghost predicate NoneExclusive(s: State) {
    forall u <- s.threads :: !Exclusive(s.threads[u])
  }

  ghost predicate NoneCounted(s: State) {
    forall u <- s.threads :: !Counted(s.threads[u])
  }

  // The word tells exactly whether there is an owner, and whether there are readers.
  lemma WordTells(run: seq<State>, k: nat)
    requires IsRun(run) && k < |run|
    ensures Low(run[k].bits) == 0 <==> NoneExclusive(run[k])
    ensures ClearLow(run[k].bits) == 0 <==> NoneCounted(run[k])
  {
    hide Step;
    RunInv(run, k);
    var s := run[k];
    var owner :| InvWith(s, owner);
    forall t <- s.threads ensures ThreadOk(s, owner, t) { }
    if NoneCounted(s) {
      assert Readers(s.threads) == {};
    } else {
      var t :| t in s.threads && Counted(s.threads[t]);
      assert t in Readers(s.threads);
    }
  }

  lemma TriesByWord(s: State, t: Thread)
    requires t in s.threads
    ensures s.threads[t] == Idle ==>
      && Outcome(s, t, TryLock) == (if s.bits == 0 then Writing else Idle)
      && Outcome(s, t, TryLockShared) == (if Low(s.bits) == 0 then Reading else Idle)
      && Outcome(s, t, TryLockUpgrade) == (if Low(s.bits) == 0 then Upgrading else Idle)
    ensures s.threads[t] == Upgrading ==>
      Outcome(s, t, TryUnlockUpgradeAndLock) == if s.bits == UPGRADED then Writing else Upgrading
  {
    hide Low, ClearLow, OrUpgraded;
  }

  // A try_ form succeeds exactly when no other thread stands in its way: for a writer nobody at all,
  // for a reader or an upgrader no writer and no upgrader, for an upgrader that wants to write no
  // reader and no reader's attempt.
  lemma TriesAreExact(run: seq<State>, k: nat, t: Thread)
    requires IsRun(run) && k < |run| && t in run[k].threads
    ensures var s := run[k];
      && (s.threads[t] == Idle ==>
            && Outcome(s, t, TryLock) == (if NoneExclusive(s) && NoneCounted(s) then Writing else Idle)
            && Outcome(s, t, TryLockShared) == (if NoneExclusive(s) then Reading else Idle)
            && Outcome(s, t, TryLockUpgrade) == (if NoneExclusive(s) then Upgrading else Idle))
      && (s.threads[t] == Upgrading ==>
            Outcome(s, t, TryUnlockUpgradeAndLock) == if NoneCounted(s) then Writing else Upgrading)
  {
    hide IsRun, NoneExclusive, NoneCounted, Outcome, Exec;
    WordTells(run, k);
    TriesByWord(run[k], t);
    if run[k].threads[t] == Upgrading { UpgraderIsSeen(run, k, t); }
  }

  lemma UpgraderIsSeen(run: seq<State>, k: nat, t: Thread)
    requires IsRun(run) && k < |run| && t in run[k].threads && run[k].threads[t] == Upgrading
    ensures Low(run[k].bits) == UPGRADED
  {
    hide IsRun;
    WordIsExact(run, k);
    assert SomeThread(run[k], {Upgrading});
  }

  // The other calls let go of what is held and leave the thread with what their names say.
  lemma Conversions(s: State, t: Thread)
    requires t in s.threads
    ensures s.threads[t] == Writing ==>
      && Outcome(s, t, Unlock) == Idle && Outcome(s, t, UnlockAndLockShared) == Reading
      && Outcome(s, t, UnlockAndLockUpgrade) == Upgrading
    ensures s.threads[t] == Reading ==> Outcome(s, t, UnlockShared) == Idle
    ensures s.threads[t] == Upgrading ==>
      Outcome(s, t, UnlockUpgrade) == Idle && Outcome(s, t, UnlockUpgradeAndLockShared) == Reading
  {
  }
}
