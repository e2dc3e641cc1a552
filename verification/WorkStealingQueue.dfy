/**
 The work-stealing queue: one owner thread pushes and pops at the bottom, any number of thieves
 steal from the top.  One atomic action per step.

 The shared words are `top`, `bottom` and the buffer.  Two logs record history: `pushed` gets an item
 when push stores the new bottom, `returned` when pop or steal hands an item to its caller.
*/
module WorkStealingQueue {
  import opened Bits

  type Thread = nat

  // The next atomic action of the owner.
  datatype Owner<T> =
    | Ready
    | PushBottom(x: T)                      // b = _bottom.load()
    | PushTop(x: T, b: nat)                 // t = _top.load(), full check
    | PushWrite(x: T, b: nat)               // _buffer[b & (_capacity - 1)] = x
    | PushStore(x: T, b: nat)               // _bottom.store(b + 1)
    | PopBottom                             // b = _bottom.load()
    | PopTop(b: nat)                        // t = _top.load(), fast check
    | PopStore(newb: nat)                   // _bottom.store(newb), where newb = b - 1
    | PopTopAgain(newb: nat)                // t = _top.load()
    | PopRead(newb: nat, t: nat)            // *val = _buffer[newb & (_capacity - 1)]
    | PopCas(newb: nat, t: nat, val: T)     // _top.CAS(t, t + 1)
    | PopRestore(newb: nat, popped: bool, val: T)  // _bottom.store(b), return popped
    | PopEmpty(newb: nat)                   // _bottom.store(b), return false

  // The next atomic action of a thief.
  datatype Thief<T> =
    | Away
    | StealTop                              // t = _top.load()
    | StealBottom(t: nat)                   // b = _bottom.load()
    | StealCheck(t: nat)                    // loop: b = _bottom.load()
    | StealRead(t: nat)                     // *val = _buffer[t & (_capacity - 1)]
    | StealCas(t: nat, val: T)              // _top.CAS(t, t + 1)

  datatype State<T> = State(
    top: nat,
    bottom: nat,
    buffer: seq<T>,
    owner: Owner<T>,
    thieves: map<Thread, Thief<T>>,
    pushed: multiset<T>,
    returned: multiset<T>)

  function At<T>(buffer: seq<T>, i: nat): T
    requires |buffer| > 0
  {
    buffer[Slot(i, |buffer|)]
  }

  ghost predicate Init<T>(s: State<T>) {
    && s.top == s.bottom == 1
    && IsPow2(|s.buffer|)
    && s.owner == Ready
    && (forall u <- s.thieves :: s.thieves[u] == Away)
    && s.pushed == s.returned == multiset{}
  }

  // One action of the owner inside push or pop.
  function OwnerExec<T>(s: State<T>): State<T>
    requires |s.buffer| > 0
  {
    match s.owner
    case Ready => s
    case PushBottom(x) => s.(owner := PushTop(x, s.bottom))
    case PushTop(x, b) => s.(owner := if b >= s.top + |s.buffer| then Ready else PushWrite(x, b))
    case PushWrite(x, b) =>
      s.(buffer := s.buffer[Slot(b, |s.buffer|) := x], owner := PushStore(x, b))
    case PushStore(x, b) => s.(bottom := b + 1, owner := Ready, pushed := s.pushed + multiset{x})
    case PopBottom => s.(owner := PopTop(s.bottom))
    case PopTop(b) => s.(owner := if s.top >= b then Ready else PopStore(b - 1))
    case PopStore(newb) => s.(bottom := newb, owner := PopTopAgain(newb))
    case PopTopAgain(newb) => s.(owner := if s.top > newb then PopEmpty(newb) else PopRead(newb, s.top))
    case PopRead(newb, t) =>
      var val := At(s.buffer, newb);
      if t != newb then s.(owner := Ready, returned := s.returned + multiset{val})
      else s.(owner := PopCas(newb, t, val))
    case PopCas(newb, t, val) =>
      if s.top == t then s.(top := t + 1, owner := PopRestore(newb, true, val))
      else s.(owner := PopRestore(newb, false, val))
    case PopRestore(newb, popped, val) =>
      s.(bottom := newb + 1, owner := Ready, returned := if popped then s.returned + multiset{val} else s.returned)
    case PopEmpty(newb) => s.(bottom := newb + 1, owner := Ready)
  }

  // One action of a thief inside steal; the successful CAS returns the item.
  function ThiefExec<T>(s: State<T>, u: Thread): State<T>
    requires |s.buffer| > 0 && u in s.thieves
  {
    match s.thieves[u]
    case Away => s
    case StealTop => s.(thieves := s.thieves[u := StealBottom(s.top)])
    case StealBottom(t) => s.(thieves := s.thieves[u := if t >= s.bottom then Away else StealCheck(t)])
    case StealCheck(t) => s.(thieves := s.thieves[u := if t >= s.bottom then Away else StealRead(t)])
    case StealRead(t) => s.(thieves := s.thieves[u := StealCas(t, At(s.buffer, t))])
    case StealCas(t, val) =>
      if s.top == t then
        s.(top := t + 1, thieves := s.thieves[u := Away], returned := s.returned + multiset{val})
      else
        s.(thieves := s.thieves[u := StealCheck(s.top)])
  }

  ghost predicate Step<T(!new)>(s: State<T>, s': State<T>) {
    && |s.buffer| > 0
    && (|| (s.owner == Ready && exists x :: s' == s.(owner := PushBottom(x)))
        || (s.owner == Ready && s' == s.(owner := PopBottom))
        || s' == OwnerExec(s)
        || (exists u <- s.thieves ::
              || (s.thieves[u] == Away && s' == s.(thieves := s.thieves[u := StealTop]))
              || s' == ThiefExec(s, u)))
  }

  ghost predicate IsRun<T(!new)>(run: seq<State<T>>) {
    && |run| > 0
    && Init(run[0])
    && forall i | 0 <= i < |run| - 1 :: Step(run[i], run[i + 1])
  }

  // ----- The window of live items -----

  ghost function Window<T>(buffer: seq<T>, t: nat, e: nat): (w: seq<T>)
    requires |buffer| > 0
    ensures |w| == if t <= e then e - t else 0
    decreases e - t
  {
    if t >= e then [] else Window(buffer, t, e - 1) + [At(buffer, e - 1)]
  }

  lemma {:induction false} WindowFirst<T>(buffer: seq<T>, t: nat, e: nat)
    requires |buffer| > 0 && t < e
    ensures Window(buffer, t, e) == [At(buffer, t)] + Window(buffer, t + 1, e)
    decreases e - t
  {
    hide At;
    if t + 1 < e {
      WindowFirst(buffer, t, e - 1);
    }
  }

  lemma WindowLast<T>(buffer: seq<T>, t: nat, e: nat)
    requires |buffer| > 0 && t <= e
    ensures Window(buffer, t, e + 1) == Window(buffer, t, e) + [At(buffer, e)]
  {
  }

  lemma SlotsApart(i: nat, j: nat, capacity: nat)
    requires IsPow2(capacity) && i < j < i + capacity
    ensures Slot(i, capacity) != Slot(j, capacity)
  {
    SlotMod(i, capacity);
    SlotMod(j, capacity);
    SlotsDiffer(i, j, capacity);
  }

  lemma AtOther<T>(buffer: seq<T>, i: nat, b: nat, x: T)
    requires IsPow2(|buffer|) && |buffer| > 0 && i < b < i + |buffer|
    ensures At(buffer[Slot(b, |buffer|) := x], i) == At(buffer, i)
  {
    hide Slot, IsPow2;
    SlotsApart(i, b, |buffer|);
  }

  // Writing the slot of index b, less than a lap past the window, leaves the window alone.
  lemma {:induction false} WindowFrame<T>(buffer: seq<T>, t: nat, e: nat, b: nat, x: T)
    requires IsPow2(|buffer|) && |buffer| > 0
    requires e <= b < t + |buffer|
    ensures Window(buffer[Slot(b, |buffer|) := x], t, e) == Window(buffer, t, e)
    decreases e - t
  {
    hide Slot, IsPow2;
    if t < e {
      WindowFrame(buffer, t, e - 1, b, x);
      AtOther(buffer, e - 1, b, x);
    }
  }

  // ----- The invariant -----

  // One past the last item that has not been claimed.
  ghost function End<T>(s: State<T>): nat {
    match s.owner
    case PopTopAgain(newb) => newb + 1
    case PopRead(newb, t) => if t == newb then newb + 1 else newb
    case PopCas(newb, _, _) => newb + 1
    case PopRestore(newb, _, _) => newb + 1
    case PopEmpty(newb) => newb + 1
    case _ => s.bottom
  }

  // An item the owner has claimed but not returned yet.
  ghost function Claimed<T>(s: State<T>): multiset<T>
    requires |s.buffer| > 0
  {
    match s.owner
    case PopRead(newb, t) => if t == newb then multiset{} else multiset{At(s.buffer, newb)}
    case PopRestore(_, popped, val) => if popped then multiset{val} else multiset{}
    case _ => multiset{}
  }

  ghost predicate OwnerOk<T>(s: State<T>)
    requires |s.buffer| > 0
  {
    match s.owner
    case Ready => true
    case PushBottom(x) => true
    case PushTop(x, b) => b == s.bottom
    case PushWrite(x, b) => b == s.bottom && b < s.top + |s.buffer|
    case PushStore(x, b) => b == s.bottom && b < s.top + |s.buffer| && At(s.buffer, b) == x
    case PopBottom => true
    case PopTop(b) => b == s.bottom
    case PopStore(newb) => newb + 1 == s.bottom
    case PopTopAgain(newb) => newb == s.bottom
    case PopRead(newb, t) => newb == s.bottom && t <= s.top && t <= newb
    case PopCas(newb, t, val) => newb == s.bottom && t == newb && t <= s.top && val == At(s.buffer, newb)
    case PopRestore(newb, popped, val) => newb == s.bottom && s.top == newb + 1
    case PopEmpty(newb) => newb == s.bottom && s.top == newb + 1
  }

  // A thief that still sees the current top knows the item there is live and has read it.
  ghost predicate ThiefOk<T>(s: State<T>, thief: Thief<T>)
    requires |s.buffer| > 0
  {
    match thief
    case Away => true
    case StealTop => true
    case StealBottom(t) => t <= s.top
    case StealCheck(t) => t <= s.top
    case StealRead(t) => t <= s.top && (t == s.top ==> t < End(s))
    case StealCas(t, val) => t <= s.top && (t == s.top ==> t < End(s) && val == At(s.buffer, t))
  }

  // The ledger: every push is accounted for by a return, the owner's claim, or a live slot.
  ghost predicate Balanced<T>(pushed: multiset<T>, returned: multiset<T>, claimed: multiset<T>, window: seq<T>) {
    pushed == returned + claimed + multiset(window)
  }

  lemma BalanceMoves<T>(p: multiset<T>, r: multiset<T>, x: T, w: seq<T>)
    ensures Balanced(p, r, multiset{}, w) ==> Balanced(p + multiset{x}, r, multiset{}, w + [x])
    ensures Balanced(p, r, multiset{}, [x] + w) ==> Balanced(p, r, multiset{x}, w)
    ensures Balanced(p, r, multiset{}, w + [x]) ==> Balanced(p, r, multiset{x}, w)
    ensures Balanced(p, r, multiset{x}, w) ==> Balanced(p, r + multiset{x}, multiset{}, w)
  {
    assert multiset(w + [x]) == multiset(w) + multiset{x};
    assert multiset([x] + w) == multiset{x} + multiset(w);
  }

  lemma BalanceReturnFirst<T>(p: multiset<T>, r: multiset<T>, c: multiset<T>, x: T, w: seq<T>)
    requires Balanced(p, r, c, [x] + w)
    ensures Balanced(p, r + multiset{x}, c, w)
  {
    assert multiset([x] + w) == multiset{x} + multiset(w);
  }

  ghost predicate Ledger<T>(s: State<T>)
    requires |s.buffer| > 0
  {
    Balanced(s.pushed, s.returned, Claimed(s), Window(s.buffer, s.top, End(s)))
  }

  ghost predicate Inv<T>(s: State<T>) {
    && IsPow2(|s.buffer|) && |s.buffer| > 0
    && s.top <= End(s) <= s.top + |s.buffer|
    && OwnerOk(s)
    && (forall u <- s.thieves :: ThiefOk(s, s.thieves[u]))
    && Ledger(s)
  }

  lemma PushWriteKeepsInv<T>(s: State<T>)
    requires Inv(s) && s.owner.PushWrite?
    ensures Inv(OwnerExec(s))
  {
    hide Slot, IsPow2, Window, Balanced;
    var b, x, s' := s.owner.b, s.owner.x, OwnerExec(s);
    WindowFrame(s.buffer, s.top, End(s), b, x);
    forall u <- s.thieves ensures ThiefOk(s', s'.thieves[u]) {
      assert ThiefOk(s, s.thieves[u]);
      if s.thieves[u].StealCas? && s.thieves[u].t == s.top {
        AtOther(s.buffer, s.top, b, x);
      }
    }
  }

  // The other actions of the owner leave the buffer alone.
  ghost predicate OwnerStays<T>(s: State<T>)
    requires |s.buffer| > 0
  {
    var s' := OwnerExec(s);
    s'.buffer == s.buffer && s'.thieves == s.thieves && OwnerOk(s')
  }

  predicate Pushing<T>(owner: Owner<T>) {
    owner.Ready? || owner.PushBottom? || owner.PushTop? || owner.PushWrite? || owner.PushStore?
  }

  lemma PushOkAfter<T>(s: State<T>)
    requires |s.buffer| > 0 && OwnerOk(s) && s.top <= End(s) && Pushing(s.owner) && !s.owner.PushWrite?
    ensures OwnerStays(s)
  {
    hide At;
  }

  lemma PopOkAfter<T>(s: State<T>)
    requires |s.buffer| > 0 && OwnerOk(s) && s.top <= End(s) && !Pushing(s.owner)
    ensures OwnerStays(s)
  {
    hide At;
  }

  lemma EndAfter<T>(s: State<T>)
    requires |s.buffer| > 0 && OwnerOk(s) && s.top <= End(s) <= s.top + |s.buffer|
    ensures var s' := OwnerExec(s); s'.top <= End(s') <= s'.top + |s.buffer|
  {
    hide At;
  }

  lemma ThiefAfterOwner<T>(s: State<T>, thief: Thief<T>)
    requires |s.buffer| > 0 && OwnerOk(s) && s.top <= End(s) && !s.owner.PushWrite? && ThiefOk(s, thief)
    ensures ThiefOk(OwnerExec(s), thief)
  {
    hide At;
  }

  lemma OwnerKeepsInv<T>(s: State<T>)
    requires Inv(s)
    ensures Inv(OwnerExec(s))
  {
    hide Slot, Ledger, IsPow2, OwnerExec, OwnerOk, ThiefOk, End;
    var s' := OwnerExec(s);
    if s.owner.PushWrite? {
      PushWriteKeepsInv(s);
    } else {
      if Pushing(s.owner) { PushOkAfter(s); } else { PopOkAfter(s); }
      EndAfter(s);
      forall u <- s.thieves ensures ThiefOk(s', s'.thieves[u]) {
        ThiefAfterOwner(s, s.thieves[u]);
      }
      OwnerKeepsLedger(s);
    }
  }

  lemma PushLedger<T>(s: State<T>)
    requires Inv(s) && s.owner.PushStore?
    ensures Ledger(OwnerExec(s))
  {
    hide Slot, Balanced, IsPow2, Window;
    var x, b := s.owner.x, s.owner.b;
    WindowLast(s.buffer, s.top, b);
    BalanceMoves(s.pushed, s.returned, x, Window(s.buffer, s.top, b));
  }

  // The owner claims the last item without a CAS: no thief can be after it.
  lemma PopClaimLedger<T>(s: State<T>)
    requires Inv(s) && s.owner.PopTopAgain?
    ensures Ledger(OwnerExec(s))
  {
    hide Slot, Balanced, IsPow2, Window;
    var newb := s.owner.newb;
    if s.top < newb {
      WindowLast(s.buffer, s.top, newb);
      BalanceMoves(s.pushed, s.returned, At(s.buffer, newb), Window(s.buffer, s.top, newb));
    }
  }

  lemma PopReadLedger<T>(s: State<T>)
    requires Inv(s) && s.owner.PopRead?
    ensures Ledger(OwnerExec(s))
  {
    hide Slot, Balanced, IsPow2, Window;
    if s.owner.t != s.owner.newb {
      BalanceMoves(s.pushed, s.returned, At(s.buffer, s.owner.newb), Window(s.buffer, s.top, End(s)));
    }
  }

  // The race for the single last item: whoever wins the CAS on top gets it.
  lemma PopCasLedger<T>(s: State<T>)
    requires Inv(s) && s.owner.PopCas?
    ensures Ledger(OwnerExec(s))
  {
    hide Slot, Balanced, IsPow2, Window;
    if s.top == s.owner.t {
      WindowFirst(s.buffer, s.top, s.top + 1);
      BalanceMoves(s.pushed, s.returned, s.owner.val, Window(s.buffer, s.top + 1, s.top + 1));
    }
  }

  lemma PopRestoreLedger<T>(s: State<T>)
    requires Inv(s) && s.owner.PopRestore?
    ensures Ledger(OwnerExec(s))
  {
    hide Slot, Balanced, IsPow2, Window;
    if s.owner.popped {
      BalanceMoves(s.pushed, s.returned, s.owner.val, Window(s.buffer, s.top, End(s)));
    }
  }

  lemma OwnerKeepsLedger<T>(s: State<T>)
    requires Inv(s) && !s.owner.PushWrite?
    ensures Ledger(OwnerExec(s))
  {
    hide Slot, Balanced, IsPow2, Window;
    if s.owner.PushStore? { PushLedger(s); }
    else if s.owner.PopTopAgain? { PopClaimLedger(s); }
    else if s.owner.PopRead? { PopReadLedger(s); }
    else if s.owner.PopCas? { PopCasLedger(s); }
    else if s.owner.PopRestore? { PopRestoreLedger(s); }
  }

  lemma ThievesAfterThief<T>(s: State<T>, u: Thread, v: Thread)
    requires |s.buffer| > 0 && u in s.thieves && v in s.thieves && OwnerOk(s)
    requires ThiefOk(s, s.thieves[u]) && ThiefOk(s, s.thieves[v])
    ensures ThiefOk(ThiefExec(s, u), ThiefExec(s, u).thieves[v])
  {
    hide At;
    assert End(ThiefExec(s, u)) == End(s);
  }

  lemma ThiefKeepsLedger<T>(s: State<T>, u: Thread)
    requires Inv(s) && u in s.thieves
    ensures var s' := ThiefExec(s, u);
      s'.buffer == s.buffer && s'.owner == s.owner && End(s') == End(s) && s.top <= s'.top <= End(s) && Ledger(s')
  {
    hide Slot, Balanced, IsPow2, Window;
    var s' := ThiefExec(s, u);
    assert ThiefOk(s, s.thieves[u]);
    if s.thieves[u].StealCas? && s.thieves[u].t == s.top {
      var val := s.thieves[u].val;
      WindowFirst(s.buffer, s.top, End(s));
      BalanceReturnFirst(s.pushed, s.returned, Claimed(s), val, Window(s.buffer, s.top + 1, End(s)));
      assert s' == s.(top := s.top + 1, thieves := s'.thieves, returned := s.returned + multiset{val});
    } else {
      assert s' == s.(thieves := s'.thieves);
    }
  }

  lemma ThiefKeepsInv<T>(s: State<T>, u: Thread)
    requires Inv(s) && u in s.thieves
    ensures Inv(ThiefExec(s, u))
  {
    hide Slot, Ledger, IsPow2;
    var s' := ThiefExec(s, u);
    forall v <- s'.thieves ensures ThiefOk(s', s'.thieves[v]) {
      ThievesAfterThief(s, u, v);
    }
    ThiefKeepsLedger(s, u);
    assert OwnerOk(s');
  }

  // A new call changes nothing but the program counter.
  lemma CallKeepsInv<T>(s: State<T>, s': State<T>)
    requires Inv(s)
    requires s' == s.(owner := s'.owner, thieves := s'.thieves)
    requires s'.owner == s.owner || (s.owner == Ready && (s'.owner.PushBottom? || s'.owner.PopBottom?))
    requires forall v <- s'.thieves :: s'.thieves[v].StealTop? || (v in s.thieves && s'.thieves[v] == s.thieves[v])
    ensures Inv(s')
  {
    hide Slot, IsPow2, Balanced;
    assert forall v <- s.thieves :: ThiefOk(s, s.thieves[v]);
    assert End(s') == End(s) && Claimed(s') == Claimed(s);
  }

  lemma StepKeepsInv<T(!new)>(s: State<T>, s': State<T>)
    requires Inv(s) && Step(s, s')
    ensures Inv(s')
  {
    hide Inv;
    if s' == OwnerExec(s) {
      OwnerKeepsInv(s);
    } else if u :| u in s.thieves && s' == ThiefExec(s, u) {
      ThiefKeepsInv(s, u);
    } else {
      CallKeepsInv(s, s');
    }
  }

  lemma {:induction false} RunInv<T(!new)>(run: seq<State<T>>, i: nat)
    requires IsRun(run) && i < |run|
    ensures Inv(run[i])
  {
    if i == 0 {
      MaskIsMod(0, |run[0].buffer|);
    } else {
      RunInv(run, i - 1);
      StepKeepsInv(run[i - 1], run[i]);
    }
  }

  // ----- What holds in every run -----

  // Whatever has been returned has been pushed, and no more often than it was pushed.
  lemma ReturnedOnce<T(!new)>(run: seq<State<T>>, i: nat)
    requires IsRun(run) && i < |run|
    ensures run[i].returned <= run[i].pushed
  {
    RunInv(run, i);
  }

  // When no operation is in progress, what was pushed is what was returned plus what the buffer
  // holds between top and bottom: nothing is lost.
  lemma QuiescentConservation<T(!new)>(run: seq<State<T>>, i: nat)
    requires IsRun(run) && i < |run| && run[i].owner == Ready
    ensures |run[i].buffer| > 0 && run[i].top <= run[i].bottom <= run[i].top + |run[i].buffer|
    ensures run[i].pushed == run[i].returned + multiset(Window(run[i].buffer, run[i].top, run[i].bottom))
  {
    RunInv(run, i);
  }
  // ----- When a call comes back with nothing -----

  predicate Popping<T>(owner: Owner<T>) {
    !Pushing(owner)
  }

  // The bottom that the current pop started with.
  ghost function StartOf<T>(s: State<T>): nat {
    match s.owner
    case PopTop(b) => b
    case PopStore(newb) => newb + 1
    case PopTopAgain(newb) => newb + 1
    case PopRead(newb, _) => newb + 1
    case PopCas(newb, _, _) => newb + 1
    case PopRestore(newb, _, _) => newb + 1
    case PopEmpty(newb) => newb + 1
    case _ => s.bottom
  }

  // While the owner is in its call of pop, from state i to state j.
  ghost predicate InPop<T>(run: seq<State<T>>, i: nat, j: nat) {
    i <= j < |run| && run[i].owner == PopBottom && forall k | i <= k <= j :: Popping(run[k].owner)
  }

  lemma StartStays<T(!new)>(s: State<T>, s': State<T>)
    requires Step(s, s') && Popping(s.owner) && Popping(s'.owner)
    ensures StartOf(s') == StartOf(s)
  {
    hide OwnerExec, ThiefExec;
    if s' == OwnerExec(s) {
      OwnerKeepsStart(s);
    } else {
      var v :| v in s.thieves && (
        || (s.thieves[v] == Away && s' == s.(thieves := s.thieves[v := StealTop]))
        || s' == ThiefExec(s, v));
      ThiefActsAlone(s, v);
    }
  }

  lemma OwnerKeepsStart<T>(s: State<T>)
    requires |s.buffer| > 0 && Popping(s.owner) && Popping(OwnerExec(s).owner)
    ensures StartOf(OwnerExec(s)) == StartOf(s)
  {
    hide At;
  }

  lemma {:induction false} StartIs<T(!new)>(run: seq<State<T>>, i: nat, j: nat)
    requires IsRun(run) && InPop(run, i, j)
    ensures StartOf(run[j]) == run[i].bottom
    decreases j
  {
    hide Step;
    if i < j {
      StartIs(run, i, j - 1);
      assert Step(run[j - 1], run[j - 1 + 1]);
      StartStays(run[j - 1], run[j]);
    }
  }

  // The owner's pop comes back without an item only if the top had reached the bottom it started with:
  // the window was empty, or a thief has won the last item.
  lemma PopFails<T(!new)>(run: seq<State<T>>, i: nat, j: nat)
    requires IsRun(run) && InPop(run, i, j) && j + 1 < |run|
    requires run[j + 1].owner == Ready && run[j + 1].returned == run[j].returned
    ensures exists k | i <= k <= j :: run[k].top >= run[i].bottom
  {
    hide Step, Inv, StartOf;
    RunInv(run, j);
    StartIs(run, i, j);
    assert Step(run[j], run[j + 1]);
    PopEnds(run[j], run[j + 1]);
  }

  lemma PopEnds<T(!new)>(s: State<T>, s': State<T>)
    requires Inv(s) && Step(s, s') && Popping(s.owner) && s'.owner == Ready && s'.returned == s.returned
    ensures s.top >= StartOf(s)
  {
    hide At, Ledger, IsPow2, ThiefOk;
    assert s' == OwnerExec(s);
    OneMore(s.returned);
  }

  lemma OneMore<T>(m: multiset<T>)
    ensures forall x: T :: m + multiset{x} != m
  {
    forall x: T ensures m + multiset{x} != m { assert |m + multiset{x}| == |m| + 1; }
  }

  // A steal comes back without an item only while the top has reached the bottom.
  lemma StealFails<T(!new)>(run: seq<State<T>>, j: nat, u: Thread)
    requires IsRun(run) && j + 1 < |run| && u in run[j].thieves && run[j].thieves[u] != Away
    requires u in run[j + 1].thieves && run[j + 1].thieves[u] == Away && run[j + 1].returned == run[j].returned
    ensures run[j].top >= run[j].bottom
  {
    hide Step, Inv;
    RunInv(run, j);
    assert Step(run[j], run[j + 1]);
    StealEnds(run[j], run[j + 1], u);
  }

  lemma StealEnds<T(!new)>(s: State<T>, s': State<T>, u: Thread)
    requires Inv(s) && Step(s, s') && u in s.thieves && s.thieves[u] != Away
    requires u in s'.thieves && s'.thieves[u] == Away && s'.returned == s.returned
    ensures s.top >= s.bottom
  {
    hide Ledger, IsPow2, OwnerOk, ThiefExec, ThiefOk, OwnerExec;
    OwnerActsAlone(s);
    var v :| v in s.thieves && (
      || (s.thieves[v] == Away && s' == s.(thieves := s.thieves[v := StealTop]))
      || s' == ThiefExec(s, v));
    ThiefActsAlone(s, v);
    ThiefLeaves(s, u);
  }

  lemma OwnerActsAlone<T>(s: State<T>)
    requires |s.buffer| > 0
    ensures OwnerExec(s).thieves == s.thieves
  {
  }

  lemma ThiefActsAlone<T>(s: State<T>, v: Thread)
    requires |s.buffer| > 0 && v in s.thieves
    ensures var s' := ThiefExec(s, v);
      && s'.owner == s.owner && s'.bottom == s.bottom
      && s'.thieves.Keys == s.thieves.Keys && forall u <- s.thieves | u != v :: s'.thieves[u] == s.thieves[u]
  {
    hide At;
  }

  lemma ThiefLeaves<T>(s: State<T>, u: Thread)
    requires |s.buffer| > 0 && u in s.thieves && ThiefOk(s, s.thieves[u]) && s.thieves[u] != Away
    ensures var s' := ThiefExec(s, u); s'.thieves[u] == Away && s'.returned == s.returned ==> s.top >= s.bottom
  {
    hide At, End;
    OneMore(s.returned);
  }

  // A push comes back without pushing only while the window is as large as the buffer.
  lemma PushFails<T(!new)>(run: seq<State<T>>, j: nat)
    requires IsRun(run) && j + 1 < |run| && run[j].owner != Ready && Pushing(run[j].owner)
    requires run[j + 1].owner == Ready && run[j + 1].pushed == run[j].pushed
    ensures |run[j].buffer| > 0 && |Window(run[j].buffer, run[j].top, run[j].bottom)| == |run[j].buffer|
  {
    hide Step, Inv;
    RunInv(run, j);
    assert Step(run[j], run[j + 1]);
    PushEnds(run[j], run[j + 1]);
  }

  lemma PushEnds<T(!new)>(s: State<T>, s': State<T>)
    requires Inv(s) && Step(s, s') && s.owner != Ready && Pushing(s.owner)
    requires s'.owner == Ready && s'.pushed == s.pushed
    ensures |s.buffer| > 0 && s.bottom == s.top + |s.buffer|
  {
    hide At, Ledger, IsPow2, ThiefOk;
    assert s' == OwnerExec(s);
    OneMore(s.pushed);
  }

  // ----- A call that nobody disturbs -----

  // The owner alone acts, and thief u alone acts.
  ghost predicate OwnerActs<T>(run: seq<State<T>>) {
    forall i | 0 <= i < |run| - 1 :: |run[i].buffer| > 0 && run[i + 1] == OwnerExec(run[i])
  }

  ghost predicate ThiefActs<T>(run: seq<State<T>>, u: Thread) {
    forall i | 0 <= i < |run| - 1 :: |run[i].buffer| > 0 && u in run[i].thieves && run[i + 1] == ThiefExec(run[i], u)
  }

  lemma PushIsStep<T(!new)>(s: State<T>, x: T)
    requires |s.buffer| > 0 && s.owner == Ready
    ensures Step(s, s.(owner := PushBottom(x)))
  {
  }

  lemma PopIsStep<T(!new)>(s: State<T>)
    requires |s.buffer| > 0 && s.owner == Ready
    ensures Step(s, s.(owner := PopBottom))
  {
  }

  lemma StealIsStep<T(!new)>(s: State<T>, u: Thread)
    requires |s.buffer| > 0 && u in s.thieves && s.thieves[u] == Away
    ensures Step(s, s.(thieves := s.thieves[u := StealTop]))
  {
    hide OwnerExec, ThiefExec;
  }

  ghost function Items<T>(s: State<T>): seq<T>
    requires |s.buffer| > 0
  {
    Window(s.buffer, s.top, s.bottom)
  }

  ghost predicate Added<T>(s: State<T>, z: State<T>, x: T)
    requires |s.buffer| > 0
  {
    && |z.buffer| == |s.buffer| && Items(z) == Items(s) + [x]
    && z == s.(buffer := z.buffer, bottom := s.bottom + 1, pushed := s.pushed + multiset{x})
  }

  // push adds its item at the bottom end, unless the buffer is full.
  lemma PushAlone<T(!new)>(s: State<T>, x: T) returns (run: seq<State<T>>)
    requires Inv(s) && s.owner == Ready
    ensures 0 < |run| <= 5 && OwnerActs(run) && run[0] == s.(owner := PushBottom(x)) && Step(s, run[0])
    ensures |s.buffer| > 0
    ensures if |Items(s)| == |s.buffer| then run[|run| - 1] == s else Added(s, run[|run| - 1], x)
  {
    hide Step, IsPow2, Slot, Ledger, Window, ThiefOk, Added;
    PushIsStep(s, x);
    var s0 := s.(owner := PushBottom(x));
    var s1 := OwnerExec(s0);
    if |Items(s)| == |s.buffer| {
      run := [s0, s1, OwnerExec(s1)];
    } else {
      run := PushOneAlone(s, x);
    }
  }

  lemma PushOneAlone<T>(s: State<T>, x: T) returns (run: seq<State<T>>)
    requires Inv(s) && s.owner == Ready && s.bottom < s.top + |s.buffer|
    ensures |run| == 5 && OwnerActs(run) && run[0] == s.(owner := PushBottom(x)) && Added(s, run[4], x)
  {
    hide IsPow2, Slot, Ledger, Window, ThiefOk;
    var s0 := s.(owner := PushBottom(x));
    var s1 := OwnerExec(s0);
    var s2 := OwnerExec(s1);
    var s3 := OwnerExec(s2);
    var s4 := OwnerExec(s3);
    run := [s0, s1, s2, s3, s4];
    WindowFrame(s.buffer, s.top, s.bottom, s.bottom, x);
    WindowLast(s4.buffer, s.top, s.bottom);
  }

  ghost predicate Popped<T>(s: State<T>, z: State<T>)
    requires |s.buffer| > 0
  {
    var n := |Items(s)| - 1;
    && z.buffer == s.buffer && z.owner == Ready && z.pushed == s.pushed && z.thieves == s.thieves
    && (n < 0 ==> z == s)
    && (n >= 0 ==> Items(z) == Items(s)[..n] && z.returned == s.returned + multiset{Items(s)[n]})
  }

  // pop takes the item at the bottom end, unless there is none.
  lemma PopAlone<T(!new)>(s: State<T>) returns (run: seq<State<T>>)
    requires Inv(s) && s.owner == Ready
    ensures 0 < |run| <= 8 && OwnerActs(run) && run[0] == s.(owner := PopBottom) && Step(s, run[0])
    ensures |s.buffer| > 0 && Popped(s, run[|run| - 1])
  {
    hide Step, IsPow2, Slot, Ledger, ThiefOk, At, OwnerActs, Popped;
    PopIsStep(s);
    if s.top < s.bottom {
      run := PopOneAlone(s);
    } else {
      run := PopNoneAlone(s);
    }
  }

  lemma PopNoneAlone<T>(s: State<T>) returns (run: seq<State<T>>)
    requires |s.buffer| > 0 && s.owner == Ready && s.top >= s.bottom
    ensures |run| == 3 && OwnerActs(run) && run[0] == s.(owner := PopBottom) && Popped(s, run[2])
  {
    hide Slot, At;
    var s0 := s.(owner := PopBottom);
    var s1 := OwnerExec(s0);
    run := [s0, s1, OwnerExec(s1)];
  }

  lemma PopOneAlone<T>(s: State<T>) returns (run: seq<State<T>>)
    requires |s.buffer| > 0 && s.owner == Ready && s.top < s.bottom
    ensures 6 <= |run| <= 8 && OwnerActs(run) && run[0] == s.(owner := PopBottom) && Popped(s, run[|run| - 1])
  {
    hide Slot, At, Window;
    WindowLast(s.buffer, s.top, s.bottom - 1);
    run := PopToRead(s);
    var s4 := run[4];
    if s.top == s.bottom - 1 {
      var more := PopLastAlone(s4);
      run := run[..4] + more;
    } else {
      run := run + [OwnerExec(s4)];
    }
  }

  lemma PopToRead<T>(s: State<T>) returns (run: seq<State<T>>)
    requires |s.buffer| > 0 && s.owner == Ready && s.top < s.bottom
    ensures |run| == 5 && OwnerActs(run) && run[0] == s.(owner := PopBottom)
    ensures run[4] == s.(bottom := s.bottom - 1, owner := PopRead(s.bottom - 1, s.top))
  {
    hide Slot, At;
    var s0 := s.(owner := PopBottom);
    var s1 := OwnerExec(s0);
    var s2 := OwnerExec(s1);
    var s3 := OwnerExec(s2);
    run := [s0, s1, s2, s3, OwnerExec(s3)];
  }

  // The last item: the CAS on top, and bottom is restored.
  lemma PopLastAlone<T>(s: State<T>) returns (run: seq<State<T>>)
    requires |s.buffer| > 0 && s.owner == PopRead(s.bottom, s.top) && s.bottom == s.top
    ensures |run| == 4 && OwnerActs(run) && run[0] == s
    ensures run[3] == s.(top := s.top + 1, bottom := s.bottom + 1, owner := Ready,
                         returned := s.returned + multiset{At(s.buffer, s.bottom)})
    ensures Window(s.buffer, s.top + 1, s.bottom + 1) == []
  {
    hide Slot, At;
    var s1 := OwnerExec(s);
    var s2 := OwnerExec(s1);
    run := [s, s1, s2, OwnerExec(s2)];
  }

  // steal takes the item at the top end, unless there is none.
  lemma StealAlone<T(!new)>(s: State<T>, u: Thread) returns (run: seq<State<T>>)
    requires Inv(s) && s.owner == Ready && u in s.thieves && s.thieves[u] == Away
    ensures 0 < |run| <= 6 && ThiefActs(run, u) && run[0] == s.(thieves := s.thieves[u := StealTop]) && Step(s, run[0])
    ensures |s.buffer| > 0
    ensures if Items(s) == [] then run[|run| - 1] == s
      else run[|run| - 1] == s.(top := s.top + 1, returned := s.returned + multiset{Items(s)[0]})
           && Items(run[|run| - 1]) == Items(s)[1..]
  {
    hide Step, IsPow2, Slot, Ledger, ThiefOk, At, Window;
    StealIsStep(s, u);
    var s0 := s.(thieves := s.thieves[u := StealTop]);
    var s1 := ThiefExec(s0, u);
    var s2 := ThiefExec(s1, u);
    assert s.thieves[u := Away] == s.thieves;
    run := [s0, s1, s2];
    if s.top < s.bottom {
      WindowFirst(s.buffer, s.top, s.bottom);
      assert s2 == s.(thieves := s.thieves[u := StealCheck(s.top)]);
      var more := StealOneAlone(s, u);
      run := [s0, s1] + more;
    }
  }

  lemma StealOneAlone<T>(s: State<T>, u: Thread) returns (run: seq<State<T>>)
    requires |s.buffer| > 0 && u in s.thieves && s.thieves[u] == Away && s.top < s.bottom
    ensures |run| == 4 && ThiefActs(run, u) && run[0] == s.(thieves := s.thieves[u := StealCheck(s.top)])
    ensures run[3] == s.(top := s.top + 1, returned := s.returned + multiset{At(s.buffer, s.top)})
  {
    hide Slot, At;
    var s2 := s.(thieves := s.thieves[u := StealCheck(s.top)]);
    var s3 := ThiefExec(s2, u);
    var s4 := ThiefExec(s3, u);
    assert s.thieves[u := Away] == s.thieves;
    run := [s2, s3, s4, ThiefExec(s4, u)];
  }
}
