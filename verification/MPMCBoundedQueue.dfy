/**
 The bounded queue for many producers and many consumers, one atomic action per step.

 Tickets are the values that `head` and `tail` take.  Slot i belongs to the tickets congruent to i;
 its sequence word `next` is k while it is free for ticket k, and k + 1 while it holds the value of
 ticket k.  Two logs record history: `written[k]` is the value brought by the producer that claimed
 head ticket k, `returned[k]` the value handed to the consumer of tail ticket k.
*/
module MPMCBoundedQueue {
  import opened Bits

  type Thread = nat

  // The next atomic action of a thread.
  datatype Pc<T> =
    | Idle
    | PutHead(x: T)                 // headSequence = head.load()
    | PutSeq(x: T, h: nat)          // nodeSequence = node->next.load(), compare
    | PutCas(x: T, h: nat)          // head.CAS(headSequence, headSequence + 1)
    | PutData(x: T, h: nat)         // node->data = input
    | PutStore(x: T, h: nat)        // node->next.store(headSequence + 1)
    | GetTail                       // tailSequence = tail.load()
    | GetSeq(t: nat)                // nodeSequence = node->next.load(), compare
    | GetCas(t: nat)                // tail.CAS(tailSequence, tailSequence + 1)
    | GetData(t: nat)               // output = node->data
    | GetStore(t: nat, val: T)      // node->next.store(tailSequence + mask + 1)

  datatype State<T> = State(
    head: nat,
    tail: nat,
    next: seq<nat>,
    data: seq<T>,
    threads: map<Thread, Pc<T>>,
    written: seq<T>,
    returned: map<nat, T>)

  // The constructor asserts that the size is a power of two; what the queue needs is two slots.
  ghost predicate Shape<T>(s: State<T>) {
    IsPow2(|s.next|) && |s.data| == |s.next|
  }

  ghost predicate Init<T>(s: State<T>) {
    && Shape(s)
    && s.head == s.tail == 0
    && (forall i | 0 <= i < |s.next| :: s.next[i] == i)
    && (forall t <- s.threads :: s.threads[t] == Idle)
    && s.written == [] && s.returned == map[]
  }

  function Goto<T>(s: State<T>, u: Thread, pc: Pc<T>): State<T> {
    s.(threads := s.threads[u := pc])
  }

  // One action of thread u.  A weak compare-exchange may fail although the values agree.
  function Exec<T>(s: State<T>, u: Thread, spurious: bool): State<T>
    requires u in s.threads && |s.data| == |s.next| > 0
  {
    var size := |s.next|;
    match s.threads[u]
    case Idle => s
    case PutHead(x) => Goto(s, u, PutSeq(x, s.head))
    case PutSeq(x, h) =>
      var n := s.next[Slot(h, size)];
      Goto(s, u, if n == h then PutCas(x, h) else if n < h then Idle else PutHead(x))
    case PutCas(x, h) =>
      if s.head == h && !spurious then
        Goto(s.(head := h + 1, written := s.written + [x]), u, PutData(x, h))
      else Goto(s, u, PutSeq(x, s.head))
    case PutData(x, h) => Goto(s.(data := s.data[Slot(h, size) := x]), u, PutStore(x, h))
    case PutStore(x, h) => Goto(s.(next := s.next[Slot(h, size) := h + 1]), u, Idle)
    case GetTail => Goto(s, u, GetSeq(s.tail))
    case GetSeq(t) =>
      var n := s.next[Slot(t, size)];
      Goto(s, u, if n == t + 1 then GetCas(t) else if n < t + 1 then Idle else GetTail)
    case GetCas(t) =>
      if s.tail == t && !spurious then Goto(s.(tail := t + 1), u, GetData(t))
      else Goto(s, u, GetSeq(s.tail))
    case GetData(t) => Goto(s, u, GetStore(t, s.data[Slot(t, size)]))
    case GetStore(t, val) =>
      Goto(s.(next := s.next[Slot(t, size) := t + (size - 1) + 1], returned := s.returned[t := val]), u, Idle)
  }

  ghost predicate Step<T(!new)>(s: State<T>, s': State<T>) {
    && |s.data| == |s.next| > 0
    && exists u <- s.threads ::
         || (s.threads[u] == Idle && exists x :: s' == Goto(s, u, PutHead(x)))
         || (s.threads[u] == Idle && s' == Goto(s, u, GetTail))
         || s' == Exec(s, u, false)
         || s' == Exec(s, u, true)
  }

  ghost predicate IsRun<T(!new)>(run: seq<State<T>>) {
    && |run| > 0
    && Init(run[0])
    && forall i | 0 <= i < |run| - 1 :: Step(run[i], run[i + 1])
  }

  // ----- The invariant -----

  predicate Producing<T>(pc: Pc<T>, k: nat) {
    (pc.PutData? || pc.PutStore?) && pc.h == k
  }

  predicate Consuming<T>(pc: Pc<T>, k: nat) {
    (pc.GetData? || pc.GetStore?) && pc.t == k
  }

  ghost predicate SomeProducer<T>(threads: map<Thread, Pc<T>>, k: nat) {
    exists u <- threads :: Producing(threads[u], k)
  }

  ghost predicate SomeConsumer<T>(threads: map<Thread, Pc<T>>, k: nat) {
    exists u <- threads :: Consuming(threads[u], k)
  }

  predicate Free<T>(s: State<T>, i: nat)
    requires i < |s.next|
  {
    s.next[i] % |s.next| == i
  }

  // The ticket whose turn it is at slot i.
  ghost function Turn<T>(s: State<T>, i: nat): int
    requires i < |s.next|
  {
    var n: int := s.next[i];
    if Free(s, i) then n else n - 1
  }

  ghost predicate SlotOk<T>(s: State<T>, i: nat)
    requires i < |s.next| == |s.data| && |s.written| == s.head
  {
    var k := Turn(s, i);
    && k >= 0 && k % |s.next| == i
    && k < s.tail + |s.next| && s.head <= k + |s.next|
    && (if Free(s, i) then
          && s.tail <= k
          && (k < s.head ==> SomeProducer(s.threads, k))
        else
          && k < s.head && s.data[i] == s.written[k]
          && (k < s.tail ==> SomeConsumer(s.threads, k)))
  }

  ghost predicate PcOk<T>(s: State<T>, pc: Pc<T>)
    requires |s.data| == |s.next| > 0 && |s.written| == s.head
  {
    var size := |s.next|;
    match pc
    case Idle => true
    case PutHead(x) => true
    case PutSeq(x, h) => h <= s.head
    case PutCas(x, h) => h <= s.head && (h == s.head ==> s.next[h % size] == h)
    case PutData(x, h) => h < s.head && s.written[h] == x && s.next[h % size] == h
    case PutStore(x, h) => h < s.head && s.written[h] == x && s.next[h % size] == h && s.data[h % size] == x
    case GetTail => true
    case GetSeq(t) => t <= s.tail
    case GetCas(t) => t <= s.tail && (t == s.tail ==> s.next[t % size] == t + 1)
    case GetData(t) => t < s.tail && s.next[t % size] == t + 1
    case GetStore(t, val) => t < s.tail <= s.head && s.next[t % size] == t + 1 && val == s.written[t]
  }

  // A value has been returned for exactly the tickets whose turn is over, and it is the value
  // written under the same ticket.
  ghost predicate ReturnedOk<T>(s: State<T>)
    requires |s.next| > 0 && |s.written| == s.head
  {
    forall k: nat ::
      && (k in s.returned <==> k < Turn(s, k % |s.next|))
      && (k in s.returned ==> k < s.tail && k < s.head && s.returned[k] == s.written[k])
  }

  // No two threads hold the same ticket.
  ghost predicate Unique<T>(threads: map<Thread, Pc<T>>) {
    forall u <- threads, v <- threads, k: nat | u != v ::
      && !(Producing(threads[u], k) && Producing(threads[v], k))
      && !(Consuming(threads[u], k) && Consuming(threads[v], k))
  }

  ghost predicate Inv<T>(s: State<T>) {
    && Shape(s) && |s.next| >= 2
    && |s.written| == s.head
    && s.tail <= s.head <= s.tail + |s.next|
    && (forall i: nat | i < |s.next| :: SlotOk(s, i))
    && (forall u <- s.threads :: PcOk(s, s.threads[u]))
    && Unique(s.threads)
    && ReturnedOk(s)
  }

  // ----- Every step keeps the invariant -----

  lemma ReturnedStays<T>(s: State<T>, s': State<T>)
    requires |s'.next| == |s.next| > 0 && |s.written| == s.head && |s'.written| == s'.head
    requires s.written <= s'.written && s.tail <= s'.tail && s'.returned == s.returned
    requires forall i: nat | i < |s.next| :: Turn(s', i) == Turn(s, i)
    requires ReturnedOk(s)
    ensures ReturnedOk(s')
  {
    hide Turn;
    forall k: nat ensures Turn(s', k % |s.next|) == Turn(s, k % |s.next|) { assert k % |s.next| < |s.next|; }
  }

  // Tickets stay held when another thread moves on.
  lemma HoldersStay<T>(threads: map<Thread, Pc<T>>, u: Thread, pc: Pc<T>, k: nat)
    requires u in threads
    ensures SomeProducer(threads, k) && !Producing(threads[u], k) ==> SomeProducer(threads[u := pc], k)
    ensures SomeConsumer(threads, k) && !Consuming(threads[u], k) ==> SomeConsumer(threads[u := pc], k)
    ensures Producing(pc, k) ==> SomeProducer(threads[u := pc], k)
    ensures Consuming(pc, k) ==> SomeConsumer(threads[u := pc], k)
  {
    var threads' := threads[u := pc];
    assert threads'[u] == pc;
    if v :| v in threads && v != u && Producing(threads[v], k) { assert Producing(threads'[v], k); }
    if v :| v in threads && v != u && Consuming(threads[v], k) { assert Consuming(threads'[v], k); }
  }

  // A thread that takes no new ticket.
  lemma UniqueStays<T>(threads: map<Thread, Pc<T>>, u: Thread, pc: Pc<T>)
    requires Unique(threads) && u in threads
    requires forall k: nat :: Producing(pc, k) ==> Producing(threads[u], k)
    requires forall k: nat :: Consuming(pc, k) ==> Consuming(threads[u], k)
    ensures Unique(threads[u := pc])
  {
  }

  // A step that changes nothing but one program counter, and no ticket changes hands.
  lemma QuietSlot<T>(s: State<T>, u: Thread, pc: Pc<T>, i: nat)
    requires Inv(s) && u in s.threads && i < |s.next|
    requires forall k: nat :: Producing(pc, k) == Producing(s.threads[u], k)
    requires forall k: nat :: Consuming(pc, k) == Consuming(s.threads[u], k)
    ensures SlotOk(Goto(s, u, pc), i)
  {
    hide IsPow2;
    assert SlotOk(s, i);
    assert Turn(Goto(s, u, pc), i) == Turn(s, i);
    HoldersStay(s.threads, u, pc, Turn(s, i));
  }

  lemma QuietOther<T>(s: State<T>, u: Thread, pc: Pc<T>, other: Pc<T>)
    requires |s.data| == |s.next| > 0 && |s.written| == s.head && PcOk(s, other)
    ensures PcOk(Goto(s, u, pc), other)
  {
  }

  lemma QuietKeepsInv<T>(s: State<T>, u: Thread, pc: Pc<T>)
    requires Inv(s) && u in s.threads && PcOk(s, pc)
    requires forall k: nat :: Producing(pc, k) == Producing(s.threads[u], k)
    requires forall k: nat :: Consuming(pc, k) == Consuming(s.threads[u], k)
    ensures Inv(Goto(s, u, pc))
  {
    hide IsPow2, ReturnedOk, SlotOk, PcOk, Unique;
    var s' := Goto(s, u, pc);
    forall i: nat | i < |s'.next| ensures SlotOk(s', i) {
      QuietSlot(s, u, pc, i);
    }
    forall v <- s'.threads ensures PcOk(s', s'.threads[v]) {
      QuietOther(s, u, pc, if v == u then pc else s.threads[v]);
    }
    ReturnedStays(s, s');
    UniqueStays(s.threads, u, pc);
  }

  // A producer claims the next head ticket.
  lemma ClaimHeadKeepsInv<T>(s: State<T>, u: Thread)
    requires Inv(s) && u in s.threads && s.threads[u].PutCas? && s.threads[u].h == s.head
    ensures Inv(Exec(s, u, false))
  {
    hide IsPow2, Slot, PcOk, SlotOk, ReturnedOk;
    var s', h, n := Exec(s, u, false), s.head, |s.next|;
    forall i: nat | i < n ensures SlotOk(s', i) {
      ClaimHeadSlot(s, u, i);
    }
    forall v <- s'.threads ensures PcOk(s', s'.threads[v]) && !Producing(s.threads[v], h) {
      ClaimHeadPc(s, u, v);
    }
    ClaimHeadRoom(s, u);
    ReturnedStays(s, s');
  }

  // There is room: the slot of the claimed ticket has been emptied.
  lemma ClaimHeadRoom<T>(s: State<T>, u: Thread)
    requires Inv(s) && u in s.threads && s.threads[u].PutCas? && s.threads[u].h == s.head
    ensures s.head < s.tail + |s.next|
  {
    hide IsPow2;
    assert PcOk(s, s.threads[u]) && SlotOk(s, s.head % |s.next|);
  }

  lemma ClaimHeadPc<T>(s: State<T>, u: Thread, v: Thread)
    requires Inv(s) && u in s.threads && s.threads[u].PutCas? && s.threads[u].h == s.head && v in s.threads
    ensures PcOk(Exec(s, u, false), Exec(s, u, false).threads[v])
    ensures !Producing(s.threads[v], s.head)
  {
    hide IsPow2, Slot, SlotOk;
    assert PcOk(s, s.threads[u]) && PcOk(s, s.threads[v]);
  }

  lemma ClaimHeadSlot<T>(s: State<T>, u: Thread, i: nat)
    requires Inv(s) && u in s.threads && s.threads[u].PutCas? && s.threads[u].h == s.head && i < |s.next|
    ensures SlotOk(Exec(s, u, false), i)
  {
    hide IsPow2, Slot;
    var s', h, n := Exec(s, u, false), s.head, |s.next|;
    assert PcOk(s, s.threads[u]) && SlotOk(s, i);
    var k := Turn(s, i);
    assert Turn(s', i) == k;
    HoldersStay(s.threads, u, s'.threads[u], k);
    if i != h % n && h == k + n { NextLap(k, n); }
  }

  // A consumer claims the next tail ticket.
  lemma ClaimTailPcs<T>(s: State<T>, u: Thread, v: Thread)
    requires Inv(s) && u in s.threads && s.threads[u].GetCas? && s.threads[u].t == s.tail && v in s.threads
    ensures PcOk(Exec(s, u, false), Exec(s, u, false).threads[v])
    ensures !Consuming(s.threads[v], s.tail)
  {
    hide IsPow2, Slot, SlotOk, ReturnedOk;
    ClaimTailTicket(s, u);
    TicketSlot(s, s.tail);
    assert PcOk(s, s.threads[u]) && PcOk(s, s.threads[v]);
  }

  lemma ClaimTailKeepsInv<T>(s: State<T>, u: Thread)
    requires Inv(s) && u in s.threads && s.threads[u].GetCas? && s.threads[u].t == s.tail
    ensures Inv(Exec(s, u, false))
  {
    hide IsPow2, Slot, SlotOk, PcOk, ReturnedOk;
    var s' := Exec(s, u, false);
    assert s.next[s.tail % |s.next|] == s.tail + 1 by { ClaimTailTicket(s, u); }
    TicketSlot(s, s.tail);
    forall i: nat | i < |s.next| ensures SlotOk(s', i) {
      ClaimTailSlot(s, u, i);
    }
    forall v <- s'.threads ensures PcOk(s', s'.threads[v]) && !Consuming(s.threads[v], s.tail) {
      ClaimTailPcs(s, u, v);
    }
    ReturnedStays(s, s');
  }

  lemma ClaimTailTicket<T>(s: State<T>, u: Thread)
    requires Inv(s) && u in s.threads && s.threads[u].GetCas? && s.threads[u].t == s.tail
    ensures s.next[s.tail % |s.next|] == s.tail + 1
  {
    hide IsPow2;
    assert PcOk(s, s.threads[u]);
  }

  // A slot whose sequence word is t + 1 holds the value of ticket t.
  lemma TicketSlot<T>(s: State<T>, t: nat)
    requires Inv(s) && s.next[t % |s.next|] == t + 1
    ensures var i := t % |s.next|; !Free(s, i) && Turn(s, i) == t && t < s.head
  {
    hide IsPow2;
    assert SlotOk(s, t % |s.next|);
    SlotsDiffer(t, t + 1, |s.next|);
  }

  lemma ClaimTailSlot<T>(s: State<T>, u: Thread, i: nat)
    requires Inv(s) && u in s.threads && s.threads[u].GetCas? && s.threads[u].t == s.tail && i < |s.next|
    ensures SlotOk(Exec(s, u, false), i)
  {
    hide IsPow2, Slot;
    var s', t, n := Exec(s, u, false), s.tail, |s.next|;
    assert PcOk(s, s.threads[u]) && SlotOk(s, i);
    TicketSlot(s, t);
    var k := Turn(s, i);
    assert Turn(s', i) == k;
    HoldersStay(s.threads, u, s'.threads[u], k);
  }

  // The producer of ticket h writes the slot, then publishes it.
  lemma ProducerSlot<T>(s: State<T>, u: Thread)
    requires Inv(s) && u in s.threads && (s.threads[u].PutData? || s.threads[u].PutStore?)
    ensures var h, i := s.threads[u].h, s.threads[u].h % |s.next|;
      && Slot(h, |s.next|) == i && i < |s.next|
      && s.next[i] == h && Free(s, i) && Turn(s, i) == h && s.tail <= h < s.head
      && (h + 1) % |s.next| != i
  {
    var h := s.threads[u].h;
    SlotMod(h, |s.next|);
    assert PcOk(s, s.threads[u]) && SlotOk(s, h % |s.next|);
    SlotsDiffer(h, h + 1, |s.next|);
  }

  lemma WriteDataSlots<T>(s: State<T>, u: Thread, i: nat)
    requires Inv(s) && u in s.threads && s.threads[u].PutData? && i < |s.next|
    ensures SlotOk(Exec(s, u, false), i)
  {
    hide IsPow2, Slot, ReturnedOk, Unique;
    ProducerSlot(s, u);
    assert PcOk(s, s.threads[u]) && SlotOk(s, i);
    HoldersStay(s.threads, u, Exec(s, u, false).threads[u], Turn(s, i));
  }

  // Writing the slot of ticket h does not concern threads with other tickets.
  lemma OtherPcAfterWrite<T>(s: State<T>, s': State<T>, h: nat, x: T, pc: Pc<T>)
    requires |s.data| == |s.next| > 0 && |s.written| == s.head && PcOk(s, pc)
    requires s.next[h % |s.next|] == h && !Producing(pc, h)
    requires s' == s.(data := s.data[h % |s.next| := x], threads := s'.threads)
    ensures PcOk(s', pc)
  {
  }

  lemma WriteDataPcs<T>(s: State<T>, u: Thread, v: Thread)
    requires Inv(s) && u in s.threads && s.threads[u].PutData? && v in s.threads
    ensures PcOk(Exec(s, u, false), Exec(s, u, false).threads[v])
  {
    hide IsPow2, Slot, SlotOk, ReturnedOk;
    ProducerSlot(s, u);
    var h, x := s.threads[u].h, s.threads[u].x;
    assert PcOk(s, s.threads[u]);
    if v != u {
      assert PcOk(s, s.threads[v]);
      assert !(Producing(s.threads[u], h) && Producing(s.threads[v], h));
      OtherPcAfterWrite(s, Exec(s, u, false), h, x, s.threads[v]);
    }
  }

  lemma WriteDataKeepsInv<T>(s: State<T>, u: Thread)
    requires Inv(s) && u in s.threads && s.threads[u].PutData?
    ensures Inv(Exec(s, u, false))
  {
    hide IsPow2, Slot, SlotOk, PcOk, ReturnedOk, Unique;
    var s', n := Exec(s, u, false), |s.next|;
    ProducerSlot(s, u);
    forall i: nat | i < n ensures SlotOk(s', i) {
      WriteDataSlots(s, u, i);
    }
    forall v <- s'.threads ensures PcOk(s', s'.threads[v]) {
      WriteDataPcs(s, u, v);
    }
    ReturnedStays(s, s');
    UniqueStays(s.threads, u, s'.threads[u]);
  }

  lemma StoreSlots<T>(s: State<T>, u: Thread, i: nat)
    requires Inv(s) && u in s.threads && s.threads[u].PutStore? && i < |s.next|
    ensures SlotOk(Exec(s, u, false), i) && Turn(Exec(s, u, false), i) == Turn(s, i)
  {
    hide IsPow2, Slot, ReturnedOk, Unique;
    ProducerSlot(s, u);
    assert PcOk(s, s.threads[u]) && SlotOk(s, i);
    HoldersStay(s.threads, u, Exec(s, u, false).threads[u], Turn(s, i));
  }

  lemma StorePcs<T>(s: State<T>, u: Thread, v: Thread)
    requires Inv(s) && u in s.threads && s.threads[u].PutStore? && v in s.threads && v != u
    ensures PcOk(Exec(s, u, false), s.threads[v])
  {
    hide IsPow2, Slot, SlotOk, ReturnedOk;
    var h := s.threads[u].h;
    ProducerSlot(s, u);
    assert PcOk(s, s.threads[u]) && PcOk(s, s.threads[v]);
    assert !(Producing(s.threads[u], h) && Producing(s.threads[v], h));
    if s.threads[v].GetCas? || s.threads[v].GetData? || s.threads[v].GetStore? {
      var t := s.threads[v].t;
      SlotsDiffer(t, t + 1, |s.next|);
    }
  }

  lemma StoreKeepsInv<T>(s: State<T>, u: Thread)
    requires Inv(s) && u in s.threads && s.threads[u].PutStore?
    ensures Inv(Exec(s, u, false))
  {
    hide IsPow2, Slot, SlotOk, PcOk, ReturnedOk, Unique;
    var s', n := Exec(s, u, false), |s.next|;
    forall i: nat | i < n ensures SlotOk(s', i) && Turn(s', i) == Turn(s, i) {
      StoreSlots(s, u, i);
    }
    forall v <- s'.threads ensures PcOk(s', s'.threads[v]) {
      if v != u { StorePcs(s, u, v); } else { IdlePc(s'); }
    }
    ReturnedStays(s, s');
    UniqueStays(s.threads, u, s'.threads[u]);
  }

  lemma IdlePc<T>(s: State<T>)
    requires |s.data| == |s.next| > 0 && |s.written| == s.head
    ensures PcOk(s, Idle)
  {
  }

  // The consumer of ticket t has read the slot and frees it for the next lap.
  lemma ConsumerSlot<T>(s: State<T>, u: Thread)
    requires Inv(s) && u in s.threads && s.threads[u].GetStore?
    ensures var t, n := s.threads[u].t, |s.next|; var i := t % n;
      && Slot(t, n) == i && i < n
      && s.next[i] == t + 1 && !Free(s, i) && Turn(s, i) == t && t < s.tail && s.head <= t + n
      && (t + n) % n == i
  {
    var t := s.threads[u].t;
    SlotMod(t, |s.next|);
    assert PcOk(s, s.threads[u]) && SlotOk(s, t % |s.next|);
    TicketSlot(s, t);
    NextLap(t, |s.next|);
  }

  lemma FreeSlots<T>(s: State<T>, u: Thread, i: nat)
    requires Inv(s) && u in s.threads && s.threads[u].GetStore? && i < |s.next|
    ensures SlotOk(Exec(s, u, false), i)
    ensures i != s.threads[u].t % |s.next| ==> Turn(Exec(s, u, false), i) == Turn(s, i)
    ensures i == s.threads[u].t % |s.next| ==> Turn(Exec(s, u, false), i) == s.threads[u].t + |s.next|
  {
    hide IsPow2, Slot, ReturnedOk, Unique;
    ConsumerSlot(s, u);
    assert PcOk(s, s.threads[u]) && SlotOk(s, i);
    HoldersStay(s.threads, u, Exec(s, u, false).threads[u], Turn(s, i));
  }

  lemma FreePcs<T>(s: State<T>, u: Thread, v: Thread)
    requires Inv(s) && u in s.threads && s.threads[u].GetStore? && v in s.threads && v != u
    ensures PcOk(Exec(s, u, false), s.threads[v])
  {
    hide IsPow2, Slot, SlotOk, ReturnedOk;
    var t := s.threads[u].t;
    ConsumerSlot(s, u);
    assert PcOk(s, s.threads[u]) && PcOk(s, s.threads[v]);
    assert !(Consuming(s.threads[u], t) && Consuming(s.threads[v], t));
    if s.threads[v].PutCas? || s.threads[v].PutData? || s.threads[v].PutStore? {
      SlotsDiffer(t, t + 1, |s.next|);
    }
  }

  lemma FreeReturned<T>(s: State<T>, u: Thread)
    requires Inv(s) && u in s.threads && s.threads[u].GetStore?
    ensures ReturnedOk(Exec(s, u, false))
  {
    hide IsPow2, Slot, SlotOk;
    var s', t, n := Exec(s, u, false), s.threads[u].t, |s.next|;
    ConsumerSlot(s, u);
    assert PcOk(s, s.threads[u]);
    forall k: nat
      ensures k in s'.returned <==> k < Turn(s', k % n)
      ensures k in s'.returned ==> k < s'.tail && k < s'.head && s'.returned[k] == s'.written[k]
    {
      FreeSlots(s, u, k % n);
      if k % n == t % n && t < k < t + n { SlotsDiffer(t, k, n); }
    }
  }

  lemma FreeKeepsInv<T>(s: State<T>, u: Thread)
    requires Inv(s) && u in s.threads && s.threads[u].GetStore?
    ensures Inv(Exec(s, u, false))
  {
    hide IsPow2, Slot, SlotOk, PcOk, ReturnedOk, Unique;
    var s', n := Exec(s, u, false), |s.next|;
    forall i: nat | i < n ensures SlotOk(s', i) {
      FreeSlots(s, u, i);
    }
    forall v <- s'.threads ensures PcOk(s', s'.threads[v]) {
      if v != u { FreePcs(s, u, v); } else { IdlePc(s'); }
    }
    FreeReturned(s, u);
    UniqueStays(s.threads, u, s'.threads[u]);
  }

  // The remaining actions only read.
  lemma QuietActions<T>(s: State<T>, u: Thread, spurious: bool)
    requires Inv(s) && u in s.threads
    requires var pc := s.threads[u];
      && !pc.PutData? && !pc.PutStore? && !pc.GetStore?
      && !(pc.PutCas? && pc.h == s.head && !spurious)
      && !(pc.GetCas? && pc.t == s.tail && !spurious)
    ensures Inv(Exec(s, u, spurious))
  {
    hide IsPow2, Slot, SlotOk, PcOk;
    var s' := Exec(s, u, spurious);
    var pc' := s'.threads[u];
    assert s' == Goto(s, u, pc') by {
      assert s.threads[u := s.threads[u]] == s.threads;
    }
    QuietPc(s, u, spurious);
    QuietKeepsInv(s, u, pc');
  }

  lemma QuietPc<T>(s: State<T>, u: Thread, spurious: bool)
    requires Inv(s) && u in s.threads
    requires var pc := s.threads[u];
      && !pc.PutData? && !pc.PutStore? && !pc.GetStore?
      && !(pc.PutCas? && pc.h == s.head && !spurious)
      && !(pc.GetCas? && pc.t == s.tail && !spurious)
    ensures var pc' := Exec(s, u, spurious).threads[u];
      && PcOk(s, pc')
      && forall k: nat ::
           Producing(pc', k) == Producing(s.threads[u], k) && Consuming(pc', k) == Consuming(s.threads[u], k)
  {
    hide IsPow2, SlotOk, Slot;
    var n := |s.next|;
    assert PcOk(s, s.threads[u]);
    match s.threads[u]
    case PutSeq(x, h) => SlotMod(h, n);
    case GetSeq(t) => SlotMod(t, n);
    case GetData(t) =>
      SlotMod(t, n);
      TicketSlot(s, t);
      SlotOfTicket(s, t);
    case _ =>
  }

  lemma SlotOfTicket<T>(s: State<T>, t: nat)
    requires Inv(s) && s.next[t % |s.next|] == t + 1
    ensures t < s.head && s.data[t % |s.next|] == s.written[t]
  {
    hide IsPow2;
    TicketSlot(s, t);
    assert SlotOk(s, t % |s.next|);
  }

  lemma StepKeepsInv<T(!new)>(s: State<T>, s': State<T>)
    requires Inv(s) && Step(s, s')
    ensures Inv(s')
  {
    hide Inv, Slot, PcOk, Exec;
    var u :| u in s.threads &&
      (|| (s.threads[u] == Idle && exists x :: s' == Goto(s, u, PutHead(x)))
       || (s.threads[u] == Idle && s' == Goto(s, u, GetTail))
       || s' == Exec(s, u, false)
       || s' == Exec(s, u, true));
    if s' == Exec(s, u, false) {
      ExecKeepsInv(s, u, false);
    } else if s' == Exec(s, u, true) {
      ExecKeepsInv(s, u, true);
    } else {
      CallPc(s, s'.threads[u]);
      QuietKeepsInv(s, u, s'.threads[u]);
    }
  }

  lemma CallPc<T>(s: State<T>, pc: Pc<T>)
    requires Inv(s) && (pc.PutHead? || pc.GetTail?)
    ensures |s.data| == |s.next| > 0 && |s.written| == s.head && PcOk(s, pc)
  {
  }

  lemma ExecKeepsInv<T>(s: State<T>, u: Thread, spurious: bool)
    requires Inv(s) && u in s.threads
    ensures Inv(Exec(s, u, spurious))
  {
    hide Inv, Slot;
    var pc := s.threads[u];
    if pc.PutCas? && pc.h == s.head && !spurious { ClaimHeadKeepsInv(s, u); }
    else if pc.GetCas? && pc.t == s.tail && !spurious { ClaimTailKeepsInv(s, u); }
    else if pc.PutData? { WriteDataKeepsInv(s, u); }
    else if pc.PutStore? { StoreKeepsInv(s, u); }
    else if pc.GetStore? { FreeKeepsInv(s, u); }
    else { QuietActions(s, u, spurious); }
  }

  lemma InitSlot<T>(s: State<T>, i: nat)
    requires Init(s) && |s.next| >= 2 && i < |s.next|
    ensures SlotOk(s, i) && Turn(s, i) == i
  {
    SmallMod(i, |s.next|);
    assert s.next[i] == i;
  }

  lemma InitInv<T>(s: State<T>)
    requires Init(s) && |s.next| >= 2
    ensures Inv(s)
  {
    hide IsPow2, SlotOk, Turn;
    var n := |s.next|;
    forall i: nat | i < n ensures SlotOk(s, i) {
      InitSlot(s, i);
    }
    forall k: nat ensures !(k < Turn(s, k % n)) {
      InitSlot(s, k % n);
    }
  }

  lemma StepKeepsSize<T(!new)>(s: State<T>, s': State<T>)
    requires Step(s, s')
    ensures |s'.next| == |s.next|
  {
    hide Slot;
  }

  lemma {:induction false} RunInv<T(!new)>(run: seq<State<T>>, i: nat)
    requires IsRun(run) && |run[0].next| >= 2 && i < |run|
    ensures Inv(run[i]) && |run[i].next| == |run[0].next|
  {
    hide Inv, Init, Step;
    if i == 0 {
      InitInv(run[0]);
    } else {
      RunInv(run, i - 1);
      StepKeepsInv(run[i - 1], run[i]);
      StepKeepsSize(run[i - 1], run[i]);
    }
  }

  // ----- What holds in every run -----

  lemma RunBounds<T(!new)>(run: seq<State<T>>, i: nat)
    requires IsRun(run) && |run[0].next| >= 2 && i < |run|
    ensures run[i].tail <= run[i].head == |run[i].written| <= run[i].tail + |run[i].next|
  {
    RunInv(run, i);
  }

  // The consumer of tail ticket k gets the value that the producer of head ticket k brought.
  lemma ReturnedIsWritten<T(!new)>(run: seq<State<T>>, i: nat, k: nat)
    requires IsRun(run) && |run[0].next| >= 2 && i < |run| && k in run[i].returned
    ensures k < run[i].tail && k < |run[i].written| && run[i].returned[k] == run[i].written[k]
  {
    RunInv(run, i);
  }

  // A consumer about to return has the value of its ticket, no other consumer has that ticket, and no
  // value has been returned under it before.
  lemma NeverReturnedTwice<T(!new)>(run: seq<State<T>>, i: nat, u: Thread)
    requires IsRun(run) && |run[0].next| >= 2 && i < |run| && u in run[i].threads && run[i].threads[u].GetStore?
    ensures var s, t, val := run[i], run[i].threads[u].t, run[i].threads[u].val;
      && t !in s.returned && t < |s.written| && val == s.written[t]
      && forall v <- s.threads | v != u :: !Consuming(s.threads[v], t)
  {
    hide Step;
    RunInv(run, i);
    ConsumerSlot(run[i], u);
    assert PcOk(run[i], run[i].threads[u]);
  }

  // A producer writes its slot only after every earlier ticket of that slot has been returned.
  lemma NothingUnreadIsOverwritten<T(!new)>(run: seq<State<T>>, i: nat, u: Thread, k: nat)
    requires IsRun(run) && |run[0].next| >= 2 && i < |run| && u in run[i].threads && run[i].threads[u].PutData?
    requires |run[i].next| > 0 && k < run[i].threads[u].h && k % |run[i].next| == run[i].threads[u].h % |run[i].next|
    ensures k in run[i].returned
  {
    RunInv(run, i);
    ProducerSlot(run[i], u);
  }

  // mp_produce gives up only while the previous lap's value of its slot has not been returned.
  lemma FullIsFull<T(!new)>(run: seq<State<T>>, i: nat, u: Thread)
    requires IsRun(run) && |run[0].next| >= 2 && i < |run| && u in run[i].threads && run[i].threads[u].PutSeq?
    requires |run[i].data| == |run[i].next| > 0 && Exec(run[i], u, false).threads[u] == Idle
    ensures var k := run[i].threads[u].h - |run[i].next|; 0 <= k && k !in run[i].returned
  {
    RunInv(run, i);
    var s, h, n := run[i], run[i].threads[u].h, |run[i].next|;
    SlotMod(h, n);
    assert PcOk(s, s.threads[u]) && SlotOk(s, h % n);
    var k := Turn(s, h % n);
    if h < k + n { SlotsDiffer(k, h, n); }
    NextLap(h - n, n);
  }

  // consume gives up only when its ticket has no value yet: none was claimed, or its producer is
  // still on the way.
  lemma EmptyIsEmpty<T(!new)>(run: seq<State<T>>, i: nat, u: Thread)
    requires IsRun(run) && |run[0].next| >= 2 && i < |run| && u in run[i].threads && run[i].threads[u].GetSeq?
    requires |run[i].data| == |run[i].next| > 0 && Exec(run[i], u, false).threads[u] == Idle
    ensures var t := run[i].threads[u].t; run[i].head <= t || SomeProducer(run[i].threads, t)
  {
    RunInv(run, i);
    var s, t, n := run[i], run[i].threads[u].t, |run[i].next|;
    SlotMod(t, n);
    assert PcOk(s, s.threads[u]) && SlotOk(s, t % n);
    var k := Turn(s, t % n);
    if k < t < k + n { SlotsDiffer(k, t, n); }
  }

  // Whatever else happens, mp_produce comes back without a ticket only while a value a full lap behind
  // the head has not been returned, and consume only while a ticket up to the tail has no value.
  lemma FailsOnlyWhenFullOrEmpty<T(!new)>(run: seq<State<T>>, i: nat, u: Thread)
    requires IsRun(run) && |run[0].next| >= 2 && i + 1 < |run|
    requires u in run[i].threads && run[i].threads[u] != Idle
    requires u in run[i + 1].threads && run[i + 1].threads[u] == Idle
    ensures run[i].threads[u].PutHead? || run[i].threads[u].PutSeq? || run[i].threads[u].PutCas? ==>
      exists k: nat :: k !in run[i].returned && k + |run[i].next| <= run[i].head
    ensures run[i].threads[u].GetTail? || run[i].threads[u].GetSeq? || run[i].threads[u].GetCas? ==>
      exists t: nat :: t <= run[i].tail && NoValueYet(run[i], t)
  {
    hide Step, Inv, NoValueYet;
    RunInv(run, i);
    assert Step(run[i], run[i + 1]);
    SizesAgree(run[i]);
    ComesBack(run[i], run[i + 1], u);
    var s, pc := run[i], run[i].threads[u];
    if pc.PutSeq? {
      FullIsFull(run, i, u);
      LastLap(s, u);
      var k: nat := pc.h - |s.next|;
      assert k !in s.returned;
    } else if pc.GetSeq? {
      EmptyIsEmpty(run, i, u);
      LastLap(s, u);
      assert NoValueYet(s, pc.t) by { NoValue(s, pc.t); }
    }
  }

  ghost predicate NoValueYet<T>(s: State<T>, t: nat) {
    s.head <= t || SomeProducer(s.threads, t)
  }

  lemma NoValue<T>(s: State<T>, t: nat)
    requires s.head <= t || SomeProducer(s.threads, t)
    ensures NoValueYet(s, t)
  {
  }

  lemma LastLap<T>(s: State<T>, u: Thread)
    requires Inv(s) && u in s.threads
    ensures s.threads[u].PutSeq? ==> s.threads[u].h <= s.head
    ensures s.threads[u].GetSeq? ==> s.threads[u].t <= s.tail
  {
    hide IsPow2, SlotOk, ReturnedOk, Unique;
    assert PcOk(s, s.threads[u]);
  }

  lemma ComesBack<T(!new)>(s: State<T>, s': State<T>, u: Thread)
    requires Step(s, s') && u in s.threads && s.threads[u] != Idle && u in s'.threads && s'.threads[u] == Idle
    ensures |s.data| == |s.next| > 0
    ensures !s.threads[u].PutHead? && !s.threads[u].PutCas? && !s.threads[u].GetTail? && !s.threads[u].GetCas?
    ensures s.threads[u].PutSeq? || s.threads[u].GetSeq? ==> Exec(s, u, false).threads[u] == Idle
  {
    hide Exec, Step;
    ActsItself(s, s', u);
    WhoStops(s, u, false);
    WhoStops(s, u, true);
  }

  lemma ActsItself<T(!new)>(s: State<T>, s': State<T>, u: Thread)
    requires Step(s, s') && u in s.threads && s.threads[u] != Idle && u in s'.threads && s'.threads[u] == Idle
    ensures |s.data| == |s.next| > 0 && (s' == Exec(s, u, false) || s' == Exec(s, u, true))
  {
    hide Exec;
    var v :| v in s.threads &&
      (|| (s.threads[v] == Idle && exists x :: s' == Goto(s, v, PutHead(x)))
       || (s.threads[v] == Idle && s' == Goto(s, v, GetTail))
       || s' == Exec(s, v, false)
       || s' == Exec(s, v, true));
    if s' == Exec(s, v, false) {
      OthersStay(s, v, false);
    } else if s' == Exec(s, v, true) {
      OthersStay(s, v, true);
    } else {
      CallsStart(s, s', v, u);
    }
  }

  lemma CallsStart<T(!new)>(s: State<T>, s': State<T>, v: Thread, u: Thread)
    requires v in s.threads && u in s.threads && s.threads[u] != Idle
    requires s.threads[v] == Idle && (s' == Goto(s, v, GetTail) || exists x :: s' == Goto(s, v, PutHead(x)))
    ensures s'.threads[u] == s.threads[u]
  {
  }

  lemma OthersStay<T>(s: State<T>, v: Thread, spurious: bool)
    requires v in s.threads && |s.data| == |s.next| > 0
    ensures var s' := Exec(s, v, spurious);
      s'.threads.Keys == s.threads.Keys && forall u <- s.threads | u != v :: s'.threads[u] == s.threads[u]
  {
    hide Slot;
  }

  lemma WhoStops<T>(s: State<T>, u: Thread, spurious: bool)
    requires u in s.threads && |s.data| == |s.next| > 0
    ensures u in Exec(s, u, spurious).threads
    ensures Exec(s, u, spurious).threads[u] == Idle ==>
      !s.threads[u].PutHead? && !s.threads[u].PutCas? && !s.threads[u].GetTail? && !s.threads[u].GetCas?
    ensures s.threads[u].PutSeq? || s.threads[u].GetSeq? ==> Exec(s, u, spurious) == Exec(s, u, false)
  {
    hide Slot;
  }

  // When no operation is in progress, exactly the tickets below tail have been returned, and the
  // tickets from tail to head are in their slots.
  lemma QuiescentContents<T(!new)>(run: seq<State<T>>, i: nat, k: nat)
    requires IsRun(run) && |run[0].next| >= 2 && i < |run|
    requires forall u <- run[i].threads :: run[i].threads[u] == Idle
    requires |run[i].data| == |run[i].next| > 0
    ensures k in run[i].returned <==> k < run[i].tail
    ensures run[i].tail <= k < run[i].head ==>
      k < |run[i].written| && run[i].data[k % |run[i].next|] == run[i].written[k]
        && run[i].next[k % |run[i].next|] == k + 1
  {
    RunInv(run, i);
    var s, n := run[i], |run[i].next|;
    assert SlotOk(s, k % n);
    var j := Turn(s, k % n);
    if j < k < j + n { SlotsDiffer(j, k, n); }
    if k < j < k + n { SlotsDiffer(k, j, n); }
  }

  // ----- A call that nobody disturbs -----

  // Thread u alone acts.
  ghost predicate Acts<T>(run: seq<State<T>>, u: Thread) {
    forall i | 0 <= i < |run| - 1 ::
      u in run[i].threads && |run[i].data| == |run[i].next| > 0 && run[i + 1] == Exec(run[i], u, false)
  }

  ghost predicate Quiet<T>(s: State<T>) {
    Inv(s) && forall u <- s.threads :: s.threads[u] == Idle
  }

  // What the sequence words say when no call is in progress.
  lemma QuietSlots<T>(s: State<T>, k: nat)
    requires Quiet(s) && s.tail <= k <= s.head
    ensures k < s.tail + |s.next| ==> s.next[k % |s.next|] == if k < s.head then k + 1 else k
    ensures k == s.head == s.tail + |s.next| ==> s.next[k % |s.next|] < k
    ensures k < s.head ==> s.data[k % |s.next|] == s.written[k]
  {
    hide IsPow2, ReturnedOk, Unique;
    var n := |s.next|;
    assert SlotOk(s, k % n);
    var j := Turn(s, k % n);
    assert !SomeProducer(s.threads, j) && !SomeConsumer(s.threads, j);
    if j < k < j + n { SlotsDiffer(j, k, n); }
    if k < j < k + n { SlotsDiffer(k, j, n); }
    NextLap(k, n);
  }

  // Quiet states are well-shaped, and the slot of a ticket is its remainder.
  lemma SizesAgree<T>(s: State<T>)
    requires Inv(s)
    ensures |s.data| == |s.next| > 0 && |s.written| == s.head && s.tail <= s.head <= s.tail + |s.next|
    ensures Slot(s.head, |s.next|) == s.head % |s.next| && Slot(s.tail, |s.next|) == s.tail % |s.next|
  {
    hide IsPow2, Slot;
    SlotMod(s.head, |s.next|);
    SlotMod(s.tail, |s.next|);
  }

  lemma ActsOn<T>(a: seq<State<T>>, b: seq<State<T>>, u: Thread)
    requires a != [] && b != [] && a[|a| - 1] == b[0] && Acts(a, u) && Acts(b, u)
    ensures Acts(a + b[1..], u)
  {
    hide Exec;
  }

  lemma SameThreads<T>(threads: map<Thread, Pc<T>>, u: Thread)
    requires u in threads && threads[u] == Idle
    ensures threads[u := Idle] == threads
  {
  }

  // The state after an undisturbed mp_produce.
  ghost predicate Produced<T>(s: State<T>, z: State<T>, x: T) {
    z == s.(head := s.head + 1, written := s.written + [x], data := z.data, next := z.next)
  }

  // mp_produce takes the next ticket and leaves its value, and comes back with false when the queue
  // is full.
  lemma ProduceAlone<T(!new)>(s: State<T>, u: Thread, x: T) returns (run: seq<State<T>>)
    requires Quiet(s) && u in s.threads
    ensures 0 < |run| <= 6 && Acts(run, u) && run[0] == Goto(s, u, PutHead(x)) && Step(s, run[0])
    ensures if s.head == s.tail + |s.next| then run[|run| - 1] == s else Produced(s, run[|run| - 1], x)
  {
    hide Step, Inv, Exec, Acts, Slot, Produced;
    SizesAgree(s);
    CallIsStep(s, u, x);
    QuietSlots(s, s.head);
    if s.head == s.tail + |s.next| {
      run := FullAlone(s, u, x);
    } else {
      var first := ClaimAlone(s, u, x);
      var second := WriteAlone(s, first[3], u, x);
      ActsOn(first, second, u);
      run := first + second[1..];
    }
  }

  lemma FullAlone<T>(s: State<T>, u: Thread, x: T) returns (run: seq<State<T>>)
    requires u in s.threads && s.threads[u] == Idle && |s.data| == |s.next| > 0
    requires s.next[Slot(s.head, |s.next|)] < s.head
    ensures |run| == 3 && Acts(run, u) && run[0] == Goto(s, u, PutHead(x)) && run[2] == s
  {
    hide Slot;
    SameThreads(s.threads, u);
    var s0 := Goto(s, u, PutHead(x));
    var s1 := Exec(s0, u, false);
    run := [s0, s1, Exec(s1, u, false)];
  }

  lemma ClaimAlone<T>(s: State<T>, u: Thread, x: T) returns (run: seq<State<T>>)
    requires u in s.threads && s.threads[u] == Idle && |s.data| == |s.next| > 0
    requires s.next[Slot(s.head, |s.next|)] == s.head
    ensures |run| == 4 && Acts(run, u) && run[0] == Goto(s, u, PutHead(x))
    ensures run[3] == Goto(s.(head := s.head + 1, written := s.written + [x]), u, PutData(x, s.head))
  {
    hide Slot;
    var s0 := Goto(s, u, PutHead(x));
    var s1 := Exec(s0, u, false);
    var s2 := Exec(s1, u, false);
    run := [s0, s1, s2, Exec(s2, u, false)];
  }

  lemma WriteAlone<T>(s: State<T>, c: State<T>, u: Thread, x: T) returns (run: seq<State<T>>)
    requires u in s.threads && s.threads[u] == Idle && |s.data| == |s.next| > 0
    requires c == Goto(s.(head := s.head + 1, written := s.written + [x]), u, PutData(x, s.head))
    ensures |run| == 3 && Acts(run, u) && run[0] == c && Produced(s, run[2], x)
  {
    hide Slot;
    SameThreads(s.threads, u);
    var s4 := Exec(c, u, false);
    run := [c, s4, Exec(s4, u, false)];
  }

  // The state after an undisturbed consume: the value of the oldest ticket is returned.
  ghost predicate Consumed<T>(s: State<T>, z: State<T>)
    requires s.tail < |s.written|
  {
    z == s.(tail := s.tail + 1, returned := s.returned[s.tail := s.written[s.tail]], next := z.next)
  }

  // consume returns the oldest value, and comes back with false when the queue is empty.
  lemma ConsumeAlone<T(!new)>(s: State<T>, u: Thread) returns (run: seq<State<T>>)
    requires Quiet(s) && u in s.threads
    ensures 0 < |run| <= 6 && Acts(run, u) && run[0] == Goto(s, u, GetTail) && Step(s, run[0])
    ensures |s.written| == s.head && s.tail <= s.head
    ensures if s.head == s.tail then run[|run| - 1] == s else Consumed(s, run[|run| - 1])
  {
    hide Step, Inv, Exec, Acts, Slot, Consumed;
    SizesAgree(s);
    ConsumeIsStep(s, u);
    QuietSlots(s, s.tail);
    if s.head == s.tail {
      run := EmptyAlone(s, u);
    } else {
      var first := TakeAlone(s, u);
      var second := FreeAlone(s, first[3], u);
      ActsOn(first, second, u);
      run := first + second[1..];
    }
  }

  lemma ConsumeIsStep<T(!new)>(s: State<T>, u: Thread)
    requires u in s.threads && s.threads[u] == Idle && |s.next| == |s.data| && |s.next| > 0
    ensures Step(s, Goto(s, u, GetTail))
  {
    hide Exec;
  }

  lemma EmptyAlone<T>(s: State<T>, u: Thread) returns (run: seq<State<T>>)
    requires u in s.threads && s.threads[u] == Idle && |s.data| == |s.next| > 0
    requires s.next[Slot(s.tail, |s.next|)] == s.tail
    ensures |run| == 3 && Acts(run, u) && run[0] == Goto(s, u, GetTail) && run[2] == s
  {
    hide Slot;
    SameThreads(s.threads, u);
    var s0 := Goto(s, u, GetTail);
    var s1 := Exec(s0, u, false);
    run := [s0, s1, Exec(s1, u, false)];
  }

  lemma TakeAlone<T>(s: State<T>, u: Thread) returns (run: seq<State<T>>)
    requires u in s.threads && s.threads[u] == Idle && |s.data| == |s.next| > 0
    requires s.next[Slot(s.tail, |s.next|)] == s.tail + 1
    ensures |run| == 4 && Acts(run, u) && run[0] == Goto(s, u, GetTail)
    ensures run[3] == Goto(s.(tail := s.tail + 1), u, GetData(s.tail))
  {
    hide Slot;
    var s0 := Goto(s, u, GetTail);
    var s1 := Exec(s0, u, false);
    var s2 := Exec(s1, u, false);
    run := [s0, s1, s2, Exec(s2, u, false)];
  }

  lemma FreeAlone<T>(s: State<T>, c: State<T>, u: Thread) returns (run: seq<State<T>>)
    requires u in s.threads && s.threads[u] == Idle && |s.data| == |s.next| > 0
    requires c == Goto(s.(tail := s.tail + 1), u, GetData(s.tail))
    requires s.tail < |s.written| && s.data[Slot(s.tail, |s.next|)] == s.written[s.tail]
    ensures |run| == 3 && Acts(run, u) && run[0] == c && Consumed(s, run[2])
  {
    hide Slot;
    SameThreads(s.threads, u);
    var s4 := Exec(c, u, false);
    run := [c, s4, Exec(s4, u, false)];
  }

  // ----- One slot is not enough -----

  // A producer about to write its slot: no value of an earlier lap is lost.
  ghost predicate ReadBefore<T>(s: State<T>, u: Thread, k: nat) {
    && u in s.threads && s.threads[u].PutData? && |s.next| > 0
    && k < s.threads[u].h && k % |s.next| == s.threads[u].h % |s.next|
    ==> k in s.returned
  }

  // In no run of a queue of that size is a value overwritten that has not been returned.
  ghost predicate NothingLost<T(!new)>(size: nat) {
    forall run: seq<State<T>>, i: nat, u: Thread, k: nat | i < |run| && IsRun(run) && |run[0].next| == size ::
      ReadBefore(run[i], u, k)
  }

  // Of the sizes that the constructor admits, the queue is right for exactly those from two on.
  lemma SafeFromTwo<T(!new, 0)>(size: nat)
    requires IsPow2(size)
    ensures NothingLost<T>(size) <==> size >= 2
  {
    hide IsRun;
    if size >= 2 {
      forall run: seq<State<T>>, i: nat, u: Thread, k: nat | i < |run| && IsRun(run) && |run[0].next| == size
        ensures ReadBefore(run[i], u, k)
      {
        if !ReadBefore(run[i], u, k) { NothingUnreadIsOverwritten(run, i, u, k); }
      }
    } else {
      var x: T := *;
      var run := OneSlotLosesAValue(x, x);
      OneSlotRun(run);
      assert !ReadBefore(run[10], 0, 0);
    }
  }

  lemma OneSlotRun<T(!new)>(run: seq<State<T>>)
    requires |run| == 13 && |run[0].data| == 1 && run[0] == State(0, 0, [0], run[0].data, map[0 := Idle], [], map[])
    requires forall i | 0 <= i < 12 :: Step(run[i], run[i + 1])
    ensures IsRun(run)
  {
    hide Step;
    assert 1 == Pow2(0);
  }

  // Size 1 passes the constructor's assert, but there the mark "holds ticket 0" is the mark "free
  // for ticket 1": a second produce overwrites the first value although nothing was consumed.
  lemma OneSlotLosesAValue<T(!new)>(a: T, b: T) returns (run: seq<State<T>>)
    ensures |run| == 13 && |run[0].data| == 1 && IsPow2(|run[0].next|)
    ensures run[0] == State(0, 0, [0], run[0].data, map[0 := Idle], [], map[])
    ensures forall i | 0 <= i < 12 :: Step(run[i], run[i + 1])
    ensures run[10].threads == map[0 := PutData(b, 1)] && |run[10].next| == 1 && run[10].returned == map[]
    ensures run[12].threads == map[0 := Idle] && run[12].tail == 0 && run[12].returned == map[]
    ensures run[12].written == [a, b] && run[12].data == [b]
  {
    hide Step;
    assert 1 == Pow2(0);
    var s0 := State(0, 0, [0], [a], map[0 := Idle], [], map[]);
    var first := OneSlotPut(s0, a);
    var second := OneSlotPut(first[6], b);
    run := first + second[1..];
    forall i | 0 <= i < 12 ensures Step(run[i], run[i + 1]) {
      if i >= 6 { assert Step(second[i - 6], second[i - 5]); }
    }
  }

  lemma ExecIsStep<T(!new)>(s: State<T>, u: Thread)
    requires u in s.threads && |s.next| == |s.data| && |s.next| > 0
    ensures Step(s, Exec(s, u, false))
  {
    hide Exec;
  }

  lemma CallIsStep<T(!new)>(s: State<T>, u: Thread, x: T)
    requires u in s.threads && s.threads[u] == Idle && |s.next| == |s.data| && |s.next| > 0
    ensures Step(s, Goto(s, u, PutHead(x)))
  {
  }

  lemma OneSlotClaim<T(!new)>(s: State<T>, x: T) returns (run: seq<State<T>>)
    requires s.threads == map[0 := Idle] && s.next == [s.head] && |s.data| == 1
    ensures |run| == 5 && run[0] == s
    ensures forall i | 0 <= i < 4 :: Step(run[i], run[i + 1])
    ensures run[4] == s.(head := s.head + 1, written := s.written + [x], threads := map[0 := PutData(x, s.head)])
  {
    hide Slot, Step;
    var s1 := Goto(s, 0, PutHead(x));
    var s2 := Exec(s1, 0, false);
    var s3 := Exec(s2, 0, false);
    var s4 := Exec(s3, 0, false);
    run := [s, s1, s2, s3, s4];
    CallIsStep(s, 0, x);
    ExecIsStep(s1, 0);
    ExecIsStep(s2, 0);
    ExecIsStep(s3, 0);
  }

  lemma OneSlotPut<T(!new)>(s: State<T>, x: T) returns (run: seq<State<T>>)
    requires s.threads == map[0 := Idle] && s.next == [s.head] && |s.data| == 1
    ensures |run| == 7 && run[0] == s
    ensures forall i | 0 <= i < 6 :: Step(run[i], run[i + 1])
    ensures run[4].threads == map[0 := PutData(x, s.head)] && |run[4].next| == 1 && run[4].returned == s.returned
    ensures run[6] == s.(head := s.head + 1, next := [s.head + 1], data := [x], written := s.written + [x])
  {
    hide Slot, Step;
    var first := OneSlotClaim(s, x);
    var s4 := first[4];
    var s5 := Exec(s4, 0, false);
    var s6 := Exec(s5, 0, false);
    run := first + [s5, s6];
    ExecIsStep(s4, 0);
    ExecIsStep(s5, 0);
    forall i | 0 <= i < 6 ensures Step(run[i], run[i + 1]) {
      if i < 4 { assert Step(first[i], first[i + 1]); }
    }
  }
}
