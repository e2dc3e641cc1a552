/**
 The reference-counted lock-free free list, one atomic action per step, for any number of threads.

 A node is named by a number.  `freeListRefs` is a 32-bit word: its top bit says that the node
 should be put on the list, the other 31 bits count the references.  The machine holds exactly the
 shared words of the program and one program counter per thread.  `held` is the set of nodes that
 client code owns; it only guards who may call `add`, as the source asks of its callers.
*/
module LockFreeList {
  import opened Finite

  type Thread = nat
  type Node = nat
  datatype Ptr = Null | At(node: Node)

  const SHOULD_BE_ON_FREELIST: nat := 0x8000_0000
  const WORD: nat := 0x1_0000_0000

  // fetch_add on a 32-bit unsigned word
  function Add32(word: nat, delta: int): nat {
    (word + delta) % WORD
  }

  function Masked(word: nat): nat {
    word % SHOULD_BE_ON_FREELIST
  }

  // Where add_knowing_refcount_is_zero returns to: `add`, or the loop of `try_get` with its `head`.
  datatype Return = ToAdd | ToGet(head: Ptr)

  // The next atomic action of a thread.
  datatype Pc =
    | Idle
    | AddFlag(node: Node)                                  // add: fetch_add(SHOULD_BE_ON_FREELIST)
    | LinkLoad(node: Node, ret: Return)                    // head = freeListHead.load()
    | LinkNext(node: Node, head: Ptr, ret: Return)         // node->freeListNext.store(head)
    | LinkRefs(node: Node, head: Ptr, ret: Return)         // node->freeListRefs.store(1)
    | LinkCas(node: Node, head: Ptr, ret: Return)          // freeListHead.CAS(head, node)
    | LinkUndo(node: Node, head: Ptr, ret: Return)         // fetch_add(SHOULD_BE_ON_FREELIST - 1)
    | GetHead                                              // try_get: head = freeListHead.load()
    | GetRefs(node: Node)                                  // refs = head->freeListRefs.load()
    | GetRef(node: Node, refs: nat)                        // head->freeListRefs.CAS(refs, refs + 1)
    | GetNext(node: Node)                                  // next = head->freeListNext.load()
    | GetCas(node: Node, next: Ptr)                        // freeListHead.CAS(head, next)
    | GetCheck(node: Node)                                 // the load inside the assert
    | GetDone(node: Node)                                  // fetch_add(-2), return head
    | GetUnref(node: Node, head: Ptr)                      // prevHead: fetch_add(-1)

  datatype State = State(
    head: Ptr,
    refs: map<Node, nat>,
    next: map<Node, Ptr>,
    held: set<Node>,
    threads: map<Thread, Pc>)

  // ----- The machine -----

  ghost predicate Init(s: State) {
    && s.head == Null
    && s.refs.Keys == s.next.Keys == s.held
    && (forall n <- s.held :: s.refs[n] == 0 && s.next[n] == Null)
    && (forall t <- s.threads :: s.threads[t] == Idle)
    // a 31-bit reference count has room for one reference per thread and the list's own
    && |s.threads| + 1 < SHOULD_BE_ON_FREELIST
  }

  function Goto(s: State, t: Thread, pc: Pc): State {
    s.(threads := s.threads[t := pc])
  }

  // The loop test of try_get: stop with nullptr, or look at the node.
  function GetLoop(head: Ptr): Pc {
    if head.Null? then Idle else GetRefs(head.node)
  }

  function Resume(ret: Return): Pc {
    match ret
    case ToAdd => Idle
    case ToGet(head) => GetLoop(head)
  }

  // The shared words an action can see: the head of the list and the two words of its node.
  datatype Cells = Cells(head: Ptr, refs: nat, next: Ptr)

  // One atomic action inside add or try_get: the words after it, and what the thread does next.
  function Action(pc: Pc, c: Cells): (Cells, Pc) {
    match pc
    case Idle => (c, Idle)
    case AddFlag(n) =>
      (c.(refs := Add32(c.refs, SHOULD_BE_ON_FREELIST)), if c.refs == 0 then LinkLoad(n, ToAdd) else Idle)
    case LinkLoad(n, ret) => (c, LinkNext(n, c.head, ret))
    case LinkNext(n, h, ret) => (c.(next := h), LinkRefs(n, h, ret))
    case LinkRefs(n, h, ret) => (c.(refs := 1), LinkCas(n, h, ret))
    case LinkCas(n, h, ret) =>
      if c.head == h then (c.(head := At(n)), Resume(ret)) else (c, LinkUndo(n, c.head, ret))
    case LinkUndo(n, h, ret) =>
      (c.(refs := Add32(c.refs, SHOULD_BE_ON_FREELIST - 1)), if c.refs == 1 then LinkNext(n, h, ret) else Resume(ret))
    case GetHead => (c, GetLoop(c.head))
    case GetRefs(n) => (c, if Masked(c.refs) == 0 then GetHead else GetRef(n, c.refs))
    case GetRef(n, r) =>
      if c.refs == r then (c.(refs := Add32(r, 1)), GetNext(n)) else (c, GetHead)
    case GetNext(n) => (c, GetCas(n, c.next))
    case GetCas(n, nx) =>
      if c.head == At(n) then (c.(head := nx), GetCheck(n)) else (c, GetUnref(n, c.head))
    case GetCheck(n) => (c, GetDone(n))
    case GetDone(n) => (c.(refs := Add32(c.refs, -2)), Idle)
    case GetUnref(n, h) =>
      (c.(refs := Add32(c.refs, -1)), if c.refs == SHOULD_BE_ON_FREELIST + 1 then LinkLoad(n, ToGet(h)) else GetLoop(h))
  }

  predicate HasNode(pc: Pc) {
    !pc.Idle? && !pc.GetHead?
  }

  predicate CanAct(s: State, t: Thread) {
    && t in s.threads
    && s.threads[t] != Idle
    && s.refs.Keys == s.next.Keys
    && (HasNode(s.threads[t]) ==> s.threads[t].node in s.refs)
  }

  function CellsOf(s: State, t: Thread): Cells
    requires CanAct(s, t)
  {
    var pc := s.threads[t];
    if HasNode(pc) then Cells(s.head, s.refs[pc.node], s.next[pc.node]) else Cells(s.head, 0, Null)
  }

  // Thread t performs its next action; the last action of a successful try_get hands the node out.
  function Exec(s: State, t: Thread): State
    requires CanAct(s, t)
  {
    var pc := s.threads[t];
    var (c, pc') := Action(pc, CellsOf(s, t));
    var threads' := s.threads[t := pc'];
    if HasNode(pc) then
      State(c.head, s.refs[pc.node := c.refs], s.next[pc.node := c.next],
            if pc.GetDone? then s.held + {pc.node} else s.held, threads')
    else
      s.(head := c.head, threads := threads')
  }

  // An idle thread calls try_get, or calls add on a node its client owns.
  ghost predicate Call(s: State, t: Thread, s': State)
    requires t in s.threads
  {
    && s.threads[t] == Idle
    && (|| s' == Goto(s, t, GetHead)
        || exists n <- s.held :: s' == Goto(s.(held := s.held - {n}), t, AddFlag(n)))
  }

  ghost predicate StepOf(s: State, t: Thread, s': State) {
    && t in s.threads
    && (|| Call(s, t, s')
        || (CanAct(s, t) && s' == Exec(s, t)))
  }

  ghost predicate Step(s: State, s': State) {
    exists t :: StepOf(s, t, s')
  }

  ghost predicate IsRun(run: seq<State>) {
    && |run| > 0
    && Init(run[0])
    && forall i | 0 <= i < |run| - 1 :: Step(run[i], run[i + 1])
  }

  // ----- References taken by try_get -----

  // Between its successful CAS on the count and giving the reference back, a thread holds one.
  predicate Holds(pc: Pc, n: Node) {
    && (pc.GetNext? || pc.GetCas? || pc.GetCheck? || pc.GetDone? || pc.GetUnref?)
    && pc.node == n
  }

  function Holders(threads: map<Thread, Pc>, n: Node): set<Thread> {
    set t | t in threads && Holds(threads[t], n)
  }

  lemma HoldersAfter(threads: map<Thread, Pc>, t: Thread, pc: Pc, n: Node)
    requires t in threads
    ensures |Holders(threads[t := pc], n)|
         == |Holders(threads, n)| - Indicator(Holds(threads[t], n)) + Indicator(Holds(pc, n))
  {
    SizeWithout(Holders(threads, n), Holders(threads[t := pc], n), t);
  }

  lemma HoldersBounds(threads: map<Thread, Pc>, t: Thread, n: Node)
    requires t in threads
    ensures Indicator(Holds(threads[t], n)) <= |Holders(threads, n)| <= |threads|
  {
    SubsetSize(Holders(threads, n), threads.Keys);
    if Holds(threads[t], n) {
      SubsetSize({t}, Holders(threads, n));
    }
  }

  // ----- The invariant -----

  // What is going on with a node; at most one thread works on it.
  datatype Role =
    | Client                 // owned by client code
    | Flagging(t: Thread)    // in add, before the first fetch_add
    | Linking(t: Thread)     // refcount is zero and t prepares to link it
    | Publishing(t: Thread)  // refcount was set to 1 and t tries to link it
    | Deferred               // flagged: the last holder will link it
    | Listed                 // on the list
    | Taken(t: Thread)       // unlinked by t, about to be returned

  // The only value the reference word can have in a role, with c references held by try_get.
  ghost predicate RefsOk(role: Role, c: nat, refs: nat) {
    match role
    case Client => refs == c
    case Flagging(_) => refs == c
    case Linking(_) => c == 0 && refs == SHOULD_BE_ON_FREELIST
    case Publishing(_) => refs == c + 1
    case Deferred => c > 0 && refs == SHOULD_BE_ON_FREELIST + c
    case Listed => refs == c + 1
    case Taken(_) => refs == c + 1
  }

  ghost predicate InNodes(p: Ptr, nodes: set<Node>) {
    p.At? ==> p.node in nodes
  }

  ghost predicate ReturnOk(ret: Return, nodes: set<Node>) {
    ret.ToGet? ==> InNodes(ret.head, nodes)
  }

  // What a thread knows about its node: its role, its next pointer; and where its pointers lead.
  ghost predicate PcOk(t: Thread, pc: Pc, role: Role, next: Ptr, nodes: set<Node>) {
    match pc
    case Idle => true
    case AddFlag(n) => role == Flagging(t)
    case LinkLoad(n, ret) => role == Linking(t) && ReturnOk(ret, nodes)
    case LinkNext(n, h, ret) => role == Linking(t) && ReturnOk(ret, nodes) && InNodes(h, nodes)
    case LinkRefs(n, h, ret) => role == Linking(t) && ReturnOk(ret, nodes) && next == h
    case LinkCas(n, h, ret) => role == Publishing(t) && ReturnOk(ret, nodes) && next == h
    case LinkUndo(n, h, ret) => role == Publishing(t) && ReturnOk(ret, nodes) && InNodes(h, nodes)
    case GetHead => true
    case GetRefs(n) => true
    case GetRef(n, r) => Masked(r) != 0
    case GetNext(n) => true
    // no ABA: the next pointer cannot change while a reference is held
    case GetCas(n, nx) => next == nx
    case GetCheck(n) => role == Taken(t)
    case GetDone(n) => role == Taken(t)
    case GetUnref(n, h) => InNodes(h, nodes)
  }

  // The thread that works on a node, if its role names one, is at a matching point of the code.
  ghost predicate WorksOn(pc: Pc, role: Role) {
    match role
    case Flagging(_) => pc.AddFlag?
    case Linking(_) => pc.LinkLoad? || pc.LinkNext? || pc.LinkRefs?
    case Publishing(_) => pc.LinkCas? || pc.LinkUndo?
    case Taken(_) => pc.GetCheck? || pc.GetDone?
    case _ => false
  }

  ghost predicate HasWorker(role: Role) {
    role.Flagging? || role.Linking? || role.Publishing? || role.Taken?
  }

  ghost predicate RoleOk(threads: map<Thread, Pc>, n: Node, role: Role) {
    HasWorker(role) ==>
      role.t in threads && WorksOn(threads[role.t], role) && threads[role.t].node == n
  }

  // Following next from p visits exactly the nodes of list, in order, and stops at nullptr.
  ghost predicate Chain(p: Ptr, next: map<Node, Ptr>, list: seq<Node>)
    decreases |list|
  {
    if list == [] then p == Null
    else p == At(list[0]) && list[0] in next && Chain(next[list[0]], next, list[1..])
  }

  // The words exist for the same nodes, and pointers lead to nodes.
  ghost predicate Shape(s: State, roles: map<Node, Role>) {
    && s.refs.Keys == s.next.Keys == roles.Keys
    && |s.threads| + 1 < SHOULD_BE_ON_FREELIST
    && InNodes(s.head, roles.Keys)
    && (forall n <- roles :: InNodes(s.next[n], roles.Keys))
  }

  // The list holds exactly the nodes of role Listed, clients exactly those of role Client.
  ghost predicate Members(s: State, list: seq<Node>, roles: map<Node, Role>) {
    && NoDup(list)
    && (forall n :: n in list <==> n in roles && roles[n] == Listed)
    && (forall n :: n in s.held <==> n in roles && roles[n] == Client)
  }

  ghost predicate InvWith(s: State, list: seq<Node>, roles: map<Node, Role>) {
    && Shape(s, roles)
    && Members(s, list, roles)
    && Chain(s.head, s.next, list)
    && (forall n <- roles :: NodeOk(s, roles, n))
    && (forall t <- s.threads :: ThreadOk(s, roles, t))
  }

  ghost predicate Inv(s: State) {
    exists list, roles :: InvWith(s, list, roles)
  }

  ghost predicate NodeOk(s: State, roles: map<Node, Role>, n: Node)
    requires n in roles && n in s.refs
  {
    && RefsOk(roles[n], |Holders(s.threads, n)|, s.refs[n])
    && RoleOk(s.threads, n, roles[n])
  }

  ghost predicate ThreadOk(s: State, roles: map<Node, Role>, t: Thread)
    requires t in s.threads && s.next.Keys == roles.Keys
  {
    var pc := s.threads[t];
    if HasNode(pc) then pc.node in roles && PcOk(t, pc, roles[pc.node], s.next[pc.node], roles.Keys)
    else true
  }

  lemma {:induction false} ChainFrame(p: Ptr, next: map<Node, Ptr>, list: seq<Node>, n: Node, q: Ptr)
    requires Chain(p, next, list) && n !in list
    ensures Chain(p, next[n := q], list)
    decreases |list|
  {
    if list != [] {
      ChainFrame(next[list[0]], next, list[1..], n, q);
    }
  }

  // ----- Every step keeps the invariant -----

  ghost function RoleAfter(t: Thread, pc: Pc, c: Cells, role: Role): Role {
    match pc
    case AddFlag(n) => if c.refs == 0 then Linking(t) else Deferred
    case LinkRefs(n, h, ret) => Publishing(t)
    case LinkCas(n, h, ret) => if c.head == h then Listed else role
    case LinkUndo(n, h, ret) => if c.refs == 1 then Linking(t) else Deferred
    case GetCas(n, nx) => if c.head == At(n) then Taken(t) else role
    case GetDone(n) => Client
    case GetUnref(n, h) => if c.refs == SHOULD_BE_ON_FREELIST + 1 then Linking(t) else role
    case _ => role
  }

  // The reference count of a node is never large enough to reach the flag.
  lemma AddFacts(c: nat)
    requires c + 1 < SHOULD_BE_ON_FREELIST
    ensures Add32(c, SHOULD_BE_ON_FREELIST) == SHOULD_BE_ON_FREELIST + c
    ensures Add32(c + 1, SHOULD_BE_ON_FREELIST - 1) == SHOULD_BE_ON_FREELIST + c
    ensures Add32(c, 1) == c + 1 && Add32(c + 1, 1) == c + 2
    ensures Add32(SHOULD_BE_ON_FREELIST + c, 1) == SHOULD_BE_ON_FREELIST + c + 1
    ensures c > 0 ==> Add32(c, -1) == c - 1 && Add32(c + 1, -2) == c - 1
    ensures Add32(c + 1, -1) == c
    ensures c > 0 ==> Add32(SHOULD_BE_ON_FREELIST + c, -1) == SHOULD_BE_ON_FREELIST + c - 1
    ensures Masked(c) == c && Masked(c + 1) == c + 1 && Masked(SHOULD_BE_ON_FREELIST + c) == c
  {
  }

  // What an action can rely on, on the words of its node, of which k references are held ...
  ghost predicate ActionReady(t: Thread, pc: Pc, c: Cells, role: Role, nodes: set<Node>, k: nat) {
    && HasNode(pc) && PcOk(t, pc, role, c.next, nodes) && pc.node in nodes
    && RefsOk(role, k, c.refs)
    && (HasWorker(role) && role.t == t ==> WorksOn(pc, role))
    && Indicator(Holds(pc, pc.node)) <= k && k + 1 < SHOULD_BE_ON_FREELIST
    && (pc.GetCas? && c.head == At(pc.node) ==> role == Listed)
    && InNodes(c.head, nodes) && InNodes(c.next, nodes)
  }

  // ... and what it keeps.
  ghost predicate ActionKeeps(t: Thread, pc: Pc, c: Cells, role: Role, nodes: set<Node>, k: nat)
    requires HasNode(pc) && Indicator(Holds(pc, pc.node)) <= k
  {
    var (c', pc') := Action(pc, c);
    var role' := RoleAfter(t, pc, c, role);
    && RefsOk(role', k - Indicator(Holds(pc, pc.node)) + Indicator(Holds(pc', pc.node)), c'.refs)
    && (HasNode(pc') && pc'.node == pc.node ==> PcOk(t, pc', role', c'.next, nodes))
    && (HasNode(pc') && pc'.node != pc.node ==> pc'.GetRefs? && pc'.node in nodes)
    && (HasWorker(role') && role'.t == t ==> WorksOn(pc', role') && pc'.node == pc.node)
    && (HasWorker(role') && role'.t != t ==> role' == role)
    && (role != role' ==> HasWorker(role) ==> role.t == t)
    && InNodes(c'.head, nodes) && InNodes(c'.next, nodes)
    && (c'.next != c.next ==> k == 0 && role == Linking(t))
  }

  predicate Putting(pc: Pc) {
    pc.AddFlag? || pc.LinkLoad? || pc.LinkNext? || pc.LinkRefs? || pc.LinkCas? || pc.LinkUndo?
  }

  lemma PutActionOk(t: Thread, pc: Pc, c: Cells, role: Role, nodes: set<Node>, k: nat)
    requires ActionReady(t, pc, c, role, nodes, k) && Putting(pc)
    ensures ActionKeeps(t, pc, c, role, nodes, k)
  {
    hide Add32, Masked;
    AddFacts(k);
  }

  lemma GetActionOk(t: Thread, pc: Pc, c: Cells, role: Role, nodes: set<Node>, k: nat)
    requires ActionReady(t, pc, c, role, nodes, k) && !Putting(pc)
    ensures ActionKeeps(t, pc, c, role, nodes, k)
  {
    hide Add32, Masked;
    AddFacts(k);
  }

  // The heart of the protocol.
  lemma ActionOk(t: Thread, pc: Pc, c: Cells, role: Role, nodes: set<Node>, k: nat)
    requires ActionReady(t, pc, c, role, nodes, k)
    ensures ActionKeeps(t, pc, c, role, nodes, k)
  {
    hide Action, PcOk, RefsOk, RoleAfter;
    if Putting(pc) {
      PutActionOk(t, pc, c, role, nodes, k);
    } else {
      GetActionOk(t, pc, c, role, nodes, k);
    }
  }

  ghost function RolesAfter(s: State, t: Thread, roles: map<Node, Role>): map<Node, Role>
    requires CanAct(s, t) && s.refs.Keys == roles.Keys
  {
    var pc := s.threads[t];
    if HasNode(pc) then roles[pc.node := RoleAfter(t, pc, CellsOf(s, t), roles[pc.node])] else roles
  }

  ghost function ListAfter(s: State, t: Thread, list: seq<Node>): seq<Node>
    requires t in s.threads
  {
    var pc := s.threads[t];
    if pc.LinkCas? && s.head == pc.head then [pc.node] + list
    else if pc.GetCas? && s.head == At(pc.node) && |list| > 0 then list[1..]
    else list
  }

  // The acting thread and its node after the action.
  ghost predicate OwnKept(s: State, t: Thread, roles: map<Node, Role>)
    requires CanAct(s, t) && HasNode(s.threads[t]) && s.refs.Keys == roles.Keys
  {
    var pc, c, s' := s.threads[t], CellsOf(s, t), Exec(s, t);
    var k, roles', c' := |Holders(s.threads, pc.node)|, RolesAfter(s, t, roles), Action(pc, c).0;
    && NodeOk(s', roles', pc.node)
    && ThreadOk(s', roles', t)
    && (roles'[pc.node] != roles[pc.node] ==> HasWorker(roles[pc.node]) ==> roles[pc.node].t == t)
    && InNodes(c'.head, roles.Keys) && InNodes(c'.next, roles.Keys)
    && (c'.next != c.next ==> k == 0 && roles[pc.node] == Linking(t))
  }

  lemma HeadIsListed(s: State, list: seq<Node>, roles: map<Node, Role>)
    requires Members(s, list, roles) && Chain(s.head, s.next, list)
    ensures s.head.At? ==> s.head.node in roles && roles[s.head.node] == Listed
  {
  }

  lemma OwnReady(s: State, t: Thread, list: seq<Node>, roles: map<Node, Role>)
    requires InvWith(s, list, roles)
    requires t in s.threads && HasNode(s.threads[t])
    ensures CanAct(s, t)
    ensures var pc := s.threads[t];
      pc.node in roles && ActionReady(t, pc, CellsOf(s, t), roles[pc.node], roles.Keys, |Holders(s.threads, pc.node)|)
  {
    hide Chain, Members, RefsOk, PcOk, WorksOn, Holders;
    assert ThreadOk(s, roles, t);
    assert NodeOk(s, roles, s.threads[t].node);
    HoldersBounds(s.threads, t, s.threads[t].node);
    HeadIsListed(s, list, roles);
  }

  lemma OwnNode(s: State, t: Thread, roles: map<Node, Role>)
    requires CanAct(s, t) && HasNode(s.threads[t]) && s.refs.Keys == roles.Keys
    requires var pc := s.threads[t]; var k := |Holders(s.threads, pc.node)|;
      && NodeOk(s, roles, pc.node) && Indicator(Holds(pc, pc.node)) <= k
      && ActionKeeps(t, pc, CellsOf(s, t), roles[pc.node], roles.Keys, k)
    ensures NodeOk(Exec(s, t), RolesAfter(s, t, roles), s.threads[t].node)
  {
    hide Action, RoleAfter, RefsOk, WorksOn, PcOk, Holders;
    HoldersAfter(s.threads, t, Exec(s, t).threads[t], s.threads[t].node);
  }

  lemma OwnThread(s: State, t: Thread, roles: map<Node, Role>)
    requires CanAct(s, t) && HasNode(s.threads[t]) && s.refs.Keys == roles.Keys
    requires var pc := s.threads[t]; var k := |Holders(s.threads, pc.node)|;
      && Indicator(Holds(pc, pc.node)) <= k
      && ActionKeeps(t, pc, CellsOf(s, t), roles[pc.node], roles.Keys, k)
    ensures ThreadOk(Exec(s, t), RolesAfter(s, t, roles), t)
  {
    hide Action, RoleAfter, RefsOk, WorksOn, Holders;
  }

  // ActionOk for the acting thread and its node in a state with the invariant.
  lemma OwnAfter(s: State, t: Thread, list: seq<Node>, roles: map<Node, Role>)
    requires InvWith(s, list, roles)
    requires t in s.threads && HasNode(s.threads[t])
    ensures CanAct(s, t) && s.refs.Keys == roles.Keys && OwnKept(s, t, roles)
  {
    hide Action, RoleAfter, RefsOk, WorksOn, Chain, Members, Holders, PcOk, NodeOk, ThreadOk;
    var pc := s.threads[t];
    OwnReady(s, t, list, roles);
    ActionOk(t, pc, CellsOf(s, t), roles[pc.node], roles.Keys, |Holders(s.threads, pc.node)|);
    OwnNode(s, t, roles);
    OwnThread(s, t, roles);
  }

  lemma ActionHolds(pc: Pc, c: Cells, n: Node)
    requires pc.GetHead? || (HasNode(pc) && pc.node != n)
    ensures !Holds(pc, n) && !Holds(Action(pc, c).1, n)
  {
  }

  lemma OtherNodeAfter(s: State, t: Thread, list: seq<Node>, roles: map<Node, Role>, n: Node)
    requires InvWith(s, list, roles)
    requires CanAct(s, t) && n in roles
    requires s.threads[t].GetHead? || s.threads[t].node != n
    ensures NodeOk(Exec(s, t), RolesAfter(s, t, roles), n)
  {
    hide Action, RoleAfter, RefsOk, Chain, Members, NoDup, PcOk, Holders;
    assert NodeOk(s, roles, n);
    ActionHolds(s.threads[t], CellsOf(s, t), n);
    HoldersAfter(s.threads, t, Exec(s, t).threads[t], n);
  }

  lemma OtherThreadAfter(s: State, t: Thread, list: seq<Node>, roles: map<Node, Role>, u: Thread)
    requires InvWith(s, list, roles)
    requires CanAct(s, t) && u in s.threads && u != t
    ensures ThreadOk(Exec(s, t), RolesAfter(s, t, roles), u)
  {
    hide Action, RoleAfter, Chain, Members, NoDup, Holders, RefsOk, WorksOn, NodeOk;
    assert ThreadOk(s, roles, u);
    var pc := s.threads[u];
    if HasNode(s.threads[t]) && HasNode(pc) && pc.node == s.threads[t].node {
      OwnAfter(s, t, list, roles);
      HoldersBounds(s.threads, u, pc.node);
    }
  }

  lemma RoleMoves(t: Thread, pc: Pc, c: Cells, role: Role, next: Ptr, nodes: set<Node>, k: nat)
    requires HasNode(pc) && PcOk(t, pc, role, next, nodes) && RefsOk(role, k, c.refs)
    requires k + 1 < SHOULD_BE_ON_FREELIST && (pc.GetCas? && c.head == At(pc.node) ==> role == Listed)
    ensures var role' := RoleAfter(t, pc, c, role);
      && (role' == Listed <==>
           (if role == Listed then !(pc.GetCas? && c.head == At(pc.node)) else pc.LinkCas? && c.head == pc.head))
      && (role' == Client <==> role == Client || pc.GetDone?)
      && (pc.LinkCas? ==> role != Listed)
  {
  }

  lemma ListOk(s: State, t: Thread, list: seq<Node>, roles: map<Node, Role>)
    requires InvWith(s, list, roles) && CanAct(s, t)
    ensures var s', list' := Exec(s, t), ListAfter(s, t, list);
      Chain(s'.head, s'.next, list')
  {
    hide NodeOk, NoDup, RoleAfter, Add32, Masked;
    var pc := s.threads[t];
    assert ThreadOk(s, roles, t);
    if pc.LinkNext? {
      ChainFrame(s.head, s.next, list, pc.node, pc.head);
    } else if HasNode(pc) {
      assert s.next[pc.node := s.next[pc.node]] == s.next;
      if pc.LinkCas? && s.head == pc.head {
        assert ([pc.node] + list)[1..] == list;
      }
    }
  }

  lemma MembersOk(s: State, t: Thread, list: seq<Node>, roles: map<Node, Role>)
    requires InvWith(s, list, roles) && CanAct(s, t)
    ensures Members(Exec(s, t), ListAfter(s, t, list), RolesAfter(s, t, roles))
  {
    var pc := s.threads[t];
    if HasNode(pc) {
      var n, role' := pc.node, RolesAfter(s, t, roles)[pc.node];
      assert ThreadOk(s, roles, t) && NodeOk(s, roles, n);
      HoldersBounds(s.threads, t, n);
      RoleMoves(t, pc, CellsOf(s, t), roles[n], s.next[n], roles.Keys, |Holders(s.threads, n)|);
      MembersMove(s, list, roles, n, role', Exec(s, t), ListAfter(s, t, list));
    }
  }

  // One node changes its role, and the list and the clients' set follow.
  lemma MembersMove(s: State, list: seq<Node>, roles: map<Node, Role>, n: Node, role: Role, s': State, list': seq<Node>)
    requires Members(s, list, roles) && n in roles
    requires list' == list || list' == [n] + list || (|list| > 0 && n == list[0] && list' == list[1..])
    requires list' == list <==> (role == Listed <==> roles[n] == Listed)
    requires list' == [n] + list ==> roles[n] != Listed
    requires s'.held == s.held || s'.held == s.held + {n}
    requires n in s'.held <==> role == Client
    ensures Members(s', list', roles[n := role])
  {
    if list' == [n] + list {
    } else if list' != list {
      assert list == [n] + list';
    }
  }

  lemma ShapeOk(s: State, t: Thread, list: seq<Node>, roles: map<Node, Role>)
    requires InvWith(s, list, roles) && CanAct(s, t)
    ensures Shape(Exec(s, t), RolesAfter(s, t, roles))
  {
    hide Action, RoleAfter, NodeOk, ThreadOk, Members, Chain, Holders;
    var pc, s' := s.threads[t], Exec(s, t);
    SameSize(s.threads, s'.threads);
    if pc.GetHead? {
      LoadsHead(pc, CellsOf(s, t));
    } else {
      OwnAfter(s, t, list, roles);
      ShapeMove(s, roles, pc.node, RolesAfter(s, t, roles)[pc.node], s');
    }
  }

  lemma LoadsHead(pc: Pc, c: Cells)
    requires pc.GetHead?
    ensures Action(pc, c).0 == c
  {
  }

  lemma ShapeMove(s: State, roles: map<Node, Role>, n: Node, role: Role, s': State)
    requires Shape(s, roles) && n in roles
    requires |s'.threads| == |s.threads| && InNodes(s'.head, roles.Keys)
    requires s'.refs.Keys == s.refs.Keys && n in s'.next && s'.next == s.next[n := s'.next[n]]
    requires InNodes(s'.next[n], roles.Keys)
    ensures Shape(s', roles[n := role])
  {
  }

  lemma SameSize<A, B>(a: map<A, B>, b: map<A, B>)
    requires a.Keys == b.Keys
    ensures |a| == |b|
  {
    assert |a| == |a.Keys| == |b.Keys| == |b|;
  }

  lemma ExecKeepsInv(s: State, t: Thread, list: seq<Node>, roles: map<Node, Role>)
    requires InvWith(s, list, roles) && CanAct(s, t)
    ensures InvWith(Exec(s, t), ListAfter(s, t, list), RolesAfter(s, t, roles))
  {
    var s', roles' := Exec(s, t), RolesAfter(s, t, roles);
    var pc := s.threads[t];
    ShapeOk(s, t, list, roles);
    forall n <- roles' ensures NodeOk(s', roles', n) {
      if pc.GetHead? || pc.node != n { OtherNodeAfter(s, t, list, roles, n); } else { OwnAfter(s, t, list, roles); }
    }
    forall u <- s'.threads ensures ThreadOk(s', roles', u) {
      if u != t { OtherThreadAfter(s, t, list, roles, u); }
      else if HasNode(pc) { OwnAfter(s, t, list, roles); }
    }
    ListOk(s, t, list, roles);
    MembersOk(s, t, list, roles);
  }

  ghost function CallRoles(s: State, t: Thread, s': State, roles: map<Node, Role>): map<Node, Role> {
    map n | n in roles :: if n in s.held && n !in s'.held then Flagging(t) else roles[n]
  }

  lemma CallNode(s: State, t: Thread, s': State, roles: map<Node, Role>, n: Node)
    requires n in roles && n in s.refs && NodeOk(s, roles, n) && t in s.threads && Call(s, t, s')
    requires roles[n] == Client <==> n in s.held
    ensures n in s'.refs && NodeOk(s', CallRoles(s, t, s', roles), n)
  {
    HoldersAfter(s.threads, t, s'.threads[t], n);
  }

  lemma CallThread(s: State, t: Thread, s': State, roles: map<Node, Role>, u: Thread)
    requires s.refs.Keys == s.next.Keys == roles.Keys
    requires t in s.threads && u in s.threads && ThreadOk(s, roles, u) && Call(s, t, s')
    requires forall n :: n in s.held <==> n in roles && roles[n] == Client
    requires forall n <- roles :: NodeOk(s, roles, n)
    ensures u in s'.threads && s'.next.Keys == roles.Keys
    ensures ThreadOk(s', CallRoles(s, t, s', roles), u)
  {
  }

  // A call changes neither the shared words nor the list.
  lemma CallShape(s: State, t: Thread, s': State, list: seq<Node>, roles: map<Node, Role>)
    requires Shape(s, roles) && Members(s, list, roles) && t in s.threads && Call(s, t, s')
    ensures var roles' := CallRoles(s, t, s', roles);
      && Shape(s', roles') && Members(s', list, roles') && roles'.Keys == roles.Keys
      && s'.head == s.head && s'.next == s.next && s'.threads.Keys == s.threads.Keys
      && s.refs.Keys == s.next.Keys == roles.Keys && s'.refs == s.refs
      && (forall n :: n in s.held <==> n in roles && roles[n] == Client)
  {
    hide NoDup, Chain, Shape, Members, CallRoles;
    CallWords(s, t, s', roles);
    CallMembers(s, t, s', list, roles);
  }

  lemma CallMembers(s: State, t: Thread, s': State, list: seq<Node>, roles: map<Node, Role>)
    requires Members(s, list, roles) && t in s.threads && Call(s, t, s')
    ensures Members(s', list, CallRoles(s, t, s', roles))
    ensures CallRoles(s, t, s', roles).Keys == roles.Keys
    ensures forall n :: n in s.held <==> n in roles && roles[n] == Client
  {
    hide NoDup, Chain;
  }

  lemma CallWords(s: State, t: Thread, s': State, roles: map<Node, Role>)
    requires Shape(s, roles) && t in s.threads && Call(s, t, s')
    ensures Shape(s', CallRoles(s, t, s', roles)) && s.refs.Keys == s.next.Keys == roles.Keys
  {
    SameSize(s.threads, s'.threads);
  }

  lemma CallKeepsInv(s: State, t: Thread, s': State, list: seq<Node>, roles: map<Node, Role>)
    requires InvWith(s, list, roles) && t in s.threads && Call(s, t, s')
    ensures Inv(s')
  {
    hide NodeOk, ThreadOk, NoDup, CallRoles, Members, Shape, Chain, Call;
    var roles' := CallRoles(s, t, s', roles);
    CallShape(s, t, s', list, roles);
    forall n <- roles' ensures NodeOk(s', roles', n) {
      CallNode(s, t, s', roles, n);
    }
    forall u <- s'.threads ensures ThreadOk(s', roles', u) {
      CallThread(s, t, s', roles, u);
    }
    assert InvWith(s', list, roles');
  }

  lemma StepKeepsInv(s: State, s': State)
    requires Inv(s) && Step(s, s')
    ensures Inv(s')
  {
    var list, roles :| InvWith(s, list, roles);
    var t :| StepOf(s, t, s');
    if Call(s, t, s') {
      CallKeepsInv(s, t, s', list, roles);
    } else {
      ExecKeepsInv(s, t, list, roles);
    }
  }

  lemma InitInv(s: State)
    requires Init(s)
    ensures Inv(s)
  {
    var roles := map n | n in s.held :: Client;
    forall n ensures Holders(s.threads, n) == {} { }
    forall n <- roles ensures NodeOk(s, roles, n) {
      assert Holders(s.threads, n) == {};
    }
    forall t <- s.threads ensures ThreadOk(s, roles, t) {
      assert s.threads[t] == Idle;
    }
    assert InvWith(s, [], roles);
  }

  lemma {:induction false} RunInv(run: seq<State>, i: nat)
    requires IsRun(run) && i < |run|
    ensures Inv(run[i])
  {
    if i == 0 {
      InitInv(run[0]);
    } else {
      RunInv(run, i - 1);
      StepKeepsInv(run[i - 1], run[i]);
    }
  }

  // ----- What holds in every run -----

  predicate Taking(pc: Pc) {
    pc.GetCheck? || pc.GetDone?
  }

  // A node that try_get is about to return has its flag clear (the assert), is in no client's
  // hands, is not being added, and is not about to be returned by any other thread.
  ghost predicate Safe(s: State) {
    forall t <- s.threads | Taking(s.threads[t]) ::
      var n := s.threads[t].node;
      && n in s.refs && s.refs[n] < SHOULD_BE_ON_FREELIST
      && n !in s.held
      && (forall u <- s.threads | u != t && Taking(s.threads[u]) :: s.threads[u].node != n)
      && (forall u <- s.threads | s.threads[u].AddFlag? :: s.threads[u].node != n)
  }

  lemma TakingRole(s: State, roles: map<Node, Role>, t: Thread)
    requires Shape(s, roles) && t in s.threads && ThreadOk(s, roles, t)
    requires forall n <- roles :: NodeOk(s, roles, n)
    ensures Taking(s.threads[t]) ==>
      var n := s.threads[t].node; n in roles && roles[n] == Taken(t) && s.refs[n] < SHOULD_BE_ON_FREELIST
    ensures s.threads[t].AddFlag? ==> var n := s.threads[t].node; n in roles && roles[n] == Flagging(t)
  {
    if Taking(s.threads[t]) {
      var n := s.threads[t].node;
      assert NodeOk(s, roles, n);
      HoldersBounds(s.threads, t, n);
    }
  }

  lemma RunSafe(run: seq<State>, i: nat)
    requires IsRun(run) && i < |run|
    ensures Safe(run[i])
  {
    RunInv(run, i);
    InvSafe(run[i]);
  }

  lemma InvSafe(s: State)
    requires Inv(s)
    ensures Safe(s)
  {
    var list, roles :| InvWith(s, list, roles);
    forall t <- s.threads | Taking(s.threads[t])
      ensures var n := s.threads[t].node;
        && n in s.refs && s.refs[n] < SHOULD_BE_ON_FREELIST && n !in s.held
        && (forall u <- s.threads | u != t && Taking(s.threads[u]) :: s.threads[u].node != n)
        && (forall u <- s.threads | s.threads[u].AddFlag? :: s.threads[u].node != n)
    {
      TakingRole(s, roles, t);
      forall u <- s.threads | u != t && (Taking(s.threads[u]) || s.threads[u].AddFlag?)
        ensures s.threads[u].node != s.threads[t].node
      {
        TakingRole(s, roles, u);
      }
    }
  }

  lemma {:induction false} NodesFixed(run: seq<State>, i: nat)
    requires IsRun(run) && i < |run|
    ensures run[i].refs.Keys == run[i].next.Keys == run[0].held
  {
    if i > 0 {
      NodesFixed(run, i - 1);
      var t :| StepOf(run[i - 1], t, run[i]);
    }
  }

  // When no operation is in progress, the list reachable from the head holds every node that no
  // client owns, each exactly once and with reference count 1; client-owned nodes have count 0.
  lemma QuiescentList(run: seq<State>, i: nat) returns (list: seq<Node>)
    requires IsRun(run) && i < |run|
    requires forall t <- run[i].threads :: run[i].threads[t] == Idle
    ensures Chain(run[i].head, run[i].next, list) && NoDup(list)
    ensures forall n :: n in list <==> n in run[0].held && n !in run[i].held
    ensures run[i].held <= run[0].held
    ensures forall n <- run[0].held :: n in run[i].refs && run[i].refs[n] == if n in list then 1 else 0
  {
    RunInv(run, i);
    NodesFixed(run, i);
    var l, roles :| InvWith(run[i], l, roles);
    list := l;
    forall n <- roles
      ensures roles[n] in {Client, Listed} && run[i].refs[n] == if roles[n] == Listed then 1 else 0
    {
      IdleNode(run[i], roles, n);
    }
  }

  lemma IdleNode(s: State, roles: map<Node, Role>, n: Node)
    requires n in roles && n in s.refs && NodeOk(s, roles, n)
    requires forall t <- s.threads :: s.threads[t] == Idle
    ensures roles[n] in {Client, Listed} && s.refs[n] == if roles[n] == Listed then 1 else 0
  {
    assert Holders(s.threads, n) == {};
  }

  ghost predicate HandsOut(s: State, s': State, n: Node) {
    exists t :: t in s.threads && s.threads[t] == GetDone(n) && StepOf(s, t, s')
  }

  ghost predicate CallsAdd(s: State, s': State, n: Node) {
    exists t :: t in s.threads && t in s'.threads && s.threads[t] == Idle && s'.threads[t] == AddFlag(n)
  }

  // Between two hand-outs of one node, its owner has called add on it.
  lemma NoDoubleHandOut(run: seq<State>, i: nat, j: nat, n: Node)
    requires IsRun(run) && i < j < |run| - 1
    requires HandsOut(run[i], run[i + 1], n) && HandsOut(run[j], run[j + 1], n)
    ensures exists k :: i < k < j && CallsAdd(run[k], run[k + 1], n)
  {
    if !exists k :: i < k < j && CallsAdd(run[k], run[k + 1], n) {
      StaysHeld(run, i + 1, j, n);
      RunSafe(run, j);
      assert false;
    }
  }

  // A client keeps its node until it calls add.
  lemma {:induction false} StaysHeld(run: seq<State>, i: nat, j: nat, n: Node)
    requires IsRun(run) && i <= j < |run|
    requires n in run[i].held
    requires forall k | i <= k < j :: !CallsAdd(run[k], run[k + 1], n)
    ensures n in run[j].held
  {
    hide Action, Init, CellsOf;
    if i < j {
      StaysHeld(run, i, j - 1, n);
      var s, s' := run[j - 1], run[j];
      var t :| StepOf(s, t, s');
      assert n in s'.held by {
        assert !CallsAdd(run[j - 1], run[j - 1 + 1], n);
        assert !(s.threads[t] == Idle && s'.threads[t] == AddFlag(n));
      }
    }
  }
  // ----- When try_get comes back with nothing -----

  // Inside a call of try_get; linking a node whose last reference was given back belongs to it.
  predicate Getting(pc: Pc) {
    match pc
    case Idle => false
    case AddFlag(_) => false
    case LinkLoad(_, ret) => ret.ToGet?
    case LinkNext(_, _, ret) => ret.ToGet?
    case LinkRefs(_, _, ret) => ret.ToGet?
    case LinkCas(_, _, ret) => ret.ToGet?
    case LinkUndo(_, _, ret) => ret.ToGet?
    case _ => true
  }

  // The head that a failed attempt has seen, as null.
  predicate SawNull(pc: Pc) {
    match pc
    case LinkLoad(_, ret) => ret == ToGet(Null)
    case LinkNext(_, _, ret) => ret == ToGet(Null)
    case LinkRefs(_, _, ret) => ret == ToGet(Null)
    case LinkCas(_, _, ret) => ret == ToGet(Null)
    case LinkUndo(_, _, ret) => ret == ToGet(Null)
    case GetUnref(_, h) => h == Null
    case _ => false
  }

  lemma GetActs(pc: Pc, c: Cells)
    requires Getting(pc)
    ensures var pc' := Action(pc, c).1;
      && (pc' == Idle ==> c.head == Null || SawNull(pc) || pc.GetDone?)
      && (pc' != Idle ==> Getting(pc') && (SawNull(pc') ==> c.head == Null || SawNull(pc)))
  {
    hide Add32, Masked;
  }

  lemma GetStep(s: State, s': State, t: Thread)
    requires Step(s, s') && t in s.threads && Getting(s.threads[t])
    ensures t in s'.threads
    ensures s'.threads[t] == Idle ==>
      s.head == Null || SawNull(s.threads[t]) || (s.threads[t].GetDone? && s'.held == s.held + {s.threads[t].node})
    ensures s'.threads[t] != Idle ==>
      Getting(s'.threads[t]) && (SawNull(s'.threads[t]) ==> s.head == Null || SawNull(s.threads[t]))
  {
    hide Action, Getting, SawNull;
    IdleIsOut();
    var u :| StepOf(s, u, s');
    if u == t {
      NotCalling(s, t, s');
      GetActs(s.threads[t], CellsOf(s, t));
    }
  }

  lemma IdleIsOut()
    ensures !Getting(Idle)
  {
  }

  lemma NotCalling(s: State, t: Thread, s': State)
    requires StepOf(s, t, s') && Getting(s.threads[t])
    ensures CanAct(s, t) && s' == Exec(s, t)
  {
  }

  ghost predicate HeadWasNull(run: seq<State>, i: nat, j: nat) {
    exists k | i <= k <= j < |run| :: run[k].head == Null
  }

  // From the call of try_get at state i to state j the thread has been in it.
  ghost predicate InGet(run: seq<State>, i: nat, j: nat, t: Thread) {
    && i <= j < |run| && t in run[i].threads && run[i].threads[t] == GetHead
    && forall k | i <= k <= j :: t in run[k].threads && run[k].threads[t] != Idle
  }

  lemma {:induction false} StaysInGet(run: seq<State>, i: nat, j: nat, t: Thread)
    requires IsRun(run) && InGet(run, i, j, t)
    ensures Getting(run[j].threads[t])
    ensures SawNull(run[j].threads[t]) ==> HeadWasNull(run, i, j)
    decreases j
  {
    hide Step, Getting, SawNull;
    if i == j {
      AtHead();
    } else {
      StaysInGet(run, i, j - 1, t);
      assert Step(run[j - 1], run[j - 1 + 1]);
      GetStep(run[j - 1], run[j], t);
      NullBefore(run, i, j);
    }
  }

  lemma AtHead()
    ensures Getting(GetHead) && !SawNull(GetHead)
  {
  }

  lemma NullBefore(run: seq<State>, i: nat, j: nat)
    requires i < j < |run|
    ensures HeadWasNull(run, i, j - 1) || run[j - 1].head == Null ==> HeadWasNull(run, i, j)
  {
  }

  // try_get comes back without a node only if the list was empty at some moment of the call.
  lemma NullMeansEmpty(run: seq<State>, i: nat, j: nat, t: Thread)
    requires IsRun(run) && InGet(run, i, j, t) && j + 1 < |run|
    requires t in run[j + 1].threads && run[j + 1].threads[t] == Idle && run[j + 1].held == run[j].held
    ensures HeadWasNull(run, i, j)
  {
    hide Step, SawNull, Getting, Safe;
    StaysInGet(run, i, j, t);
    assert Step(run[j], run[j + 1]);
    GetStep(run[j], run[j + 1], t);
    RunSafe(run, j);
    if run[j].threads[t].GetDone? { NotHeldYet(run[j], t); }
  }

  lemma NotHeldYet(s: State, t: Thread)
    requires Safe(s) && t in s.threads && s.threads[t].GetDone?
    ensures s.threads[t].node !in s.held
  {
  }

  // ----- A call that nobody disturbs -----

  // Thread t alone acts.
  ghost predicate Acts(run: seq<State>, t: Thread) {
    forall i | 0 <= i < |run| - 1 :: CanAct(run[i], t) && run[i + 1] == Exec(run[i], t)
  }

  ghost predicate AllIdle(s: State) {
    forall t <- s.threads :: s.threads[t] == Idle
  }

  // What an action does to the whole state.
  lemma Does(s: State, t: Thread, c: Cells, pc: Pc)
    requires CanAct(s, t) && HasNode(s.threads[t]) && Action(s.threads[t], CellsOf(s, t)) == (c, pc)
    ensures var n := s.threads[t].node;
      Exec(s, t) == State(c.head, s.refs[n := c.refs], s.next[n := c.next],
                          if s.threads[t].GetDone? then s.held + {n} else s.held, s.threads[t := pc])
  {
    hide Action;
  }

  lemma SameEntry<K, V>(m: map<K, V>, k: K)
    requires k in m
    ensures m[k := m[k]] == m
  {
  }

  lemma ActsOne(s: State, t: Thread)
    requires CanAct(s, t)
    ensures Acts([s, Exec(s, t)], t)
  {
    hide CanAct, Exec;
  }

  lemma ActsOn(a: seq<State>, b: seq<State>, t: Thread)
    requires a != [] && b != [] && a[|a| - 1] == b[0] && Acts(a, t) && Acts(b, t)
    ensures Acts(a + b[1..], t)
  {
    hide CanAct, Exec;
  }

  // add puts a node of the client at the head of the list.
  lemma AddAlone(s: State, t: Thread, n: Node) returns (run: seq<State>)
    requires s.refs.Keys == s.next.Keys && t in s.threads && s.threads[t] == Idle
    requires n in s.held && n in s.refs && s.refs[n] == 0
    ensures |run| == 6 && Acts(run, t) && run[0] == Goto(s.(held := s.held - {n}), t, AddFlag(n)) && Step(s, run[0])
    ensures run[5] == s.(head := At(n), refs := s.refs[n := 1], next := s.next[n := s.head], held := s.held - {n})
  {
    hide Acts, Exec;
    var s0 := Goto(s.(held := s.held - {n}), t, AddFlag(n));
    assert StepOf(s, t, s0);
    Does(s0, t, Cells(s.head, SHOULD_BE_ON_FREELIST, s.next[n]), LinkLoad(n, ToAdd));
    SameEntry(s.next, n);
    SameEntry(s.threads, t);
    var s1 := Exec(s0, t);
    assert s1 == s0.(refs := s.refs[n := SHOULD_BE_ON_FREELIST], threads := s.threads[t := LinkLoad(n, ToAdd)]);
    var more := LinkAlone(s1, t, n);
    ActsOne(s0, t);
    ActsOn([s0, s1], more, t);
    run := [s0, s1] + more[1..];
  }

  lemma LinkAlone(s: State, t: Thread, n: Node) returns (run: seq<State>)
    requires s.refs.Keys == s.next.Keys && t in s.threads && s.threads[t] == LinkLoad(n, ToAdd) && n in s.refs
    ensures |run| == 5 && Acts(run, t) && run[0] == s
    ensures run[4] == s.(head := At(n), refs := s.refs[n := 1], next := s.next[n := s.head],
                         threads := s.threads[t := Idle])
  {
    hide Exec, Acts;
    SameEntry(s.next, n);
    SameEntry(s.refs, n);
    Does(s, t, CellsOf(s, t), LinkNext(n, s.head, ToAdd));
    var s1 := Goto(s, t, LinkNext(n, s.head, ToAdd));
    Does(s1, t, Cells(s.head, s.refs[n], s.head), LinkRefs(n, s.head, ToAdd));
    assert Exec(s, t) == s1;
    ActsOne(s, t);
    ActsOne(s1, t);
    var s2 := s.(next := s.next[n := s.head], threads := s.threads[t := LinkRefs(n, s.head, ToAdd)]);
    assert Exec(s1, t) == s2;
    var more := PublishAlone(s2, t, n);
    ActsOn([s, s1], [s1, s2], t);
    ActsOn([s, s1] + [s1, s2][1..], more, t);
    run := [s, s1] + [s1, s2][1..] + more[1..];
  }

  lemma PublishAlone(s: State, t: Thread, n: Node) returns (run: seq<State>)
    requires s.refs.Keys == s.next.Keys && t in s.threads && n in s.refs && s.next[n] == s.head
    requires s.threads[t] == LinkRefs(n, s.head, ToAdd)
    ensures |run| == 3 && Acts(run, t) && run[0] == s
    ensures run[2] == s.(head := At(n), refs := s.refs[n := 1], threads := s.threads[t := Idle])
  {
    hide Exec;
    SameEntry(s.next, n);
    Does(s, t, Cells(s.head, 1, s.head), LinkCas(n, s.head, ToAdd));
    var s1 := s.(refs := s.refs[n := 1], threads := s.threads[t := LinkCas(n, s.head, ToAdd)]);
    Does(s1, t, Cells(At(n), 1, s.head), Idle);
    run := [s, s1, Exec(s1, t)];
  }

  // try_get takes the node at the head of the list, and comes back with nothing when there is none.
  lemma GetAlone(s: State, t: Thread) returns (run: seq<State>)
    requires s.refs.Keys == s.next.Keys && t in s.threads && s.threads[t] == Idle
    requires s.head.At? ==> s.head.node in s.refs && s.refs[s.head.node] == 1
    ensures 0 < |run| <= 8 && Acts(run, t) && run[0] == Goto(s, t, GetHead) && Step(s, run[0])
    ensures if s.head == Null then run[|run| - 1] == s
      else var n := s.head.node;
        run[|run| - 1] == s.(head := s.next[n], refs := s.refs[n := 0], held := s.held + {n})
  {
    hide Acts;
    var s0 := Goto(s, t, GetHead);
    assert StepOf(s, t, s0);
    SameEntry(s.threads, t);
    ActsOne(s0, t);
    run := [s0, Exec(s0, t)];
    if s.head.At? {
      var first := RefAlone(run[1], t, s.head.node);
      var second := UnlinkAlone(first[3], t, s.head.node);
      ActsOn(run, first, t);
      ActsOn(run + first[1..], second, t);
      run := run + first[1..] + second[1..];
    }
  }

  // Taking a reference on the node at the head.
  lemma RefAlone(s: State, t: Thread, n: Node) returns (run: seq<State>)
    requires s.refs.Keys == s.next.Keys && t in s.threads && s.threads[t] == GetRefs(n)
    requires n in s.refs && s.refs[n] == 1
    ensures |run| == 4 && Acts(run, t) && run[0] == s
    ensures run[3] == s.(refs := s.refs[n := 2], threads := s.threads[t := GetCas(n, s.next[n])])
  {
    hide Exec;
    SameEntry(s.next, n);
    SameEntry(s.refs, n);
    Does(s, t, CellsOf(s, t), GetRef(n, 1));
    var s1 := Goto(s, t, GetRef(n, 1));
    Does(s1, t, Cells(s.head, 2, s.next[n]), GetNext(n));
    var s2 := s.(refs := s.refs[n := 2], threads := s.threads[t := GetNext(n)]);
    Does(s2, t, CellsOf(s2, t), GetCas(n, s.next[n]));
    run := [s, s1, s2, Exec(s2, t)];
  }

  // Unlinking it, and handing it out.
  lemma UnlinkAlone(s: State, t: Thread, n: Node) returns (run: seq<State>)
    requires s.refs.Keys == s.next.Keys && t in s.threads && n in s.refs && s.refs[n] == 2 && s.head == At(n)
    requires s.threads[t] == GetCas(n, s.next[n])
    ensures |run| == 4 && Acts(run, t) && run[0] == s
    ensures run[3] == s.(head := s.next[n], refs := s.refs[n := 0], held := s.held + {n},
                         threads := s.threads[t := Idle])
  {
    hide Exec;
    SameEntry(s.next, n);
    SameEntry(s.refs, n);
    Does(s, t, Cells(s.next[n], 2, s.next[n]), GetCheck(n));
    var s1 := s.(head := s.next[n], threads := s.threads[t := GetCheck(n)]);
    Does(s1, t, CellsOf(s1, t), GetDone(n));
    var s2 := s1.(threads := s.threads[t := GetDone(n)]);
    Does(s2, t, Cells(s.next[n], 0, s.next[n]), Idle);
    run := [s, s1, s2, Exec(s2, t)];
  }

  // With no call in progress in a run, what the two lemmas above ask for holds.
  lemma QuietIsReady(run: seq<State>, i: nat)
    requires IsRun(run) && i < |run| && AllIdle(run[i])
    ensures var s := run[i];
      && s.refs.Keys == s.next.Keys
      && (forall n <- s.held :: n in s.refs && s.refs[n] == 0)
      && (s.head.At? ==> s.head.node in s.refs && s.refs[s.head.node] == 1)
  {
    hide IsRun;
    var list := QuiescentList(run, i);
    NodesFixed(run, i);
    assert run[i].held <= run[0].held;
  }
}
