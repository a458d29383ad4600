/** 30_Thread_Synchronhization/ts_btree.h: bt_add_ts and bt_lookup_ts by any number of
    concurrent calls, as interleaved steps on a shared heap of nodes with mutexes.

    A step is one lock, one unlock, one comparison, one link, one initialisation or one
    read.  Two places of the source lose a lock or the process; `Variant` keeps both the
    code as written and the repair, so that each claim says which of them it is about. */
module ConcurrentTree {
  import opened Collections
  import opened Keys
  import opened SearchTree

  datatype Variant =
    | AsWritten  // a duplicate add keeps its node locked; a missed lookup reads through NULL
    | Repaired   // a duplicate add unlocks; a missed lookup returns -1

  type Value = nat  // a `void *`

  /** A node is linked into the tree before its fields are written (bt_create_node_ts);
      Raw stands for all the half-built stages. */
  datatype Cell = Raw | Built(key: Key, value: Value, left: Option<nat>, right: Option<nat>)

  datatype Mutex = TreeMtx | NodeMtx(id: nat)

  /** The place of a node pointer: `&tree->root`, `&node->left` or `&node->right`. */
  datatype Slot = RootSlot | LeftOf(owner: nat) | RightOf(owner: nat)

  datatype Op = Add(key: Key, value: Value) | Lookup(key: Key)

  datatype Result = Added | Duplicate | Found(value: Value) | Missing

  datatype Pc =
    | Start
    | AtSlot(slot: Slot)               // holds the slot's mutex; about to test the pointer for NULL
    | Waiting(slot: Slot, node: nat)   // holds the slot's mutex; about to lock the node's
    | Coupled(slot: Slot, node: nat)   // holds both; about to unlock the slot's
    | AtNode(slot: Slot, node: nat)    // holds the node's mutex; about to compare keys
    | Hit(slot: Slot, node: nat)       // holds the node's mutex; about to read *slot's value
    | Filling(slot: Slot, node: nat)   // holds the slot's mutex; has linked a raw node
    | Leaving(mutex: Mutex, result: Result)  // about to unlock and return
    | Doomed                           // about to read through a NULL NodeMutex
    | Done(result: Result, kept: set<Mutex>)

  /** A call takes effect: `call` is its index, `result` what it will return. */
  datatype Event = Event(call: nat, result: Result)

  /** The shared memory.  `ranges` is an auxiliary variable that no step reads: the open
      interval of key ranks that the tree above reserves for a node and all below it. */
  datatype Memory = Memory(heap: seq<Cell>, root: Option<nat>, ranges: seq<(real, real)>)

  /** `log` is an auxiliary variable as well: the order in which the calls took effect. */
  datatype State = State(mem: Memory, owner: map<Mutex, nat>, pcs: seq<Pc>, dead: bool, log: seq<Event>)

  // ---------- memory ----------

  predicate ValidSlot(m: Memory, slot: Slot) {
    slot.RootSlot? || (slot.owner < |m.heap| && m.heap[slot.owner].Built?)
  }

  function Link(m: Memory, slot: Slot): Option<nat>
    requires ValidSlot(m, slot)
  {
    match slot
    case RootSlot => m.root
    case LeftOf(n) => m.heap[n].left
    case RightOf(n) => m.heap[n].right
  }

  function SlotMutex(slot: Slot): Mutex {
    if slot.RootSlot? then TreeMtx else NodeMtx(slot.owner)
  }

  ghost function SlotRange(m: Memory, slot: Slot): (real, real)
    requires ValidSlot(m, slot) && |m.ranges| == |m.heap|
  {
    match slot
    case RootSlot => (-1.0, 1.0)
    case LeftOf(n) => (m.ranges[n].0, Rank(m.heap[n].key))
    case RightOf(n) => (Rank(m.heap[n].key), m.ranges[n].1)
  }

  ghost predicate InRange(key: Key, r: (real, real)) {
    r.0 < Rank(key) < r.1
  }

  /** *slot = malloc(sizeof(BTNode_ts)): the new node is the next address. */
  ghost function LinkRaw(m: Memory, slot: Slot): Memory
    requires ValidSlot(m, slot) && |m.ranges| == |m.heap|
  {
    var n := |m.heap|;
    var heap := match slot
      case RootSlot => m.heap
      case LeftOf(o) => m.heap[o := m.heap[o].(left := Some(n))]
      case RightOf(o) => m.heap[o := m.heap[o].(right := Some(n))];
    Memory(heap + [Raw], if slot.RootSlot? then Some(n) else m.root, m.ranges + [SlotRange(m, slot)])
  }

  ghost function Fill(m: Memory, n: nat, key: Key, value: Value): Memory
    requires n < |m.heap|
  {
    m.(heap := m.heap[n := Built(key, value, None, None)])
  }

  // ---------- the sequential map, and a log of calls against it ----------

  function Effect(b: map<Key, Value>, op: Op): (r: (map<Key, Value>, Result)) {
    match op
    case Add(k, v) => if k in b then (b, Duplicate) else (b[k := v], Added)
    case Lookup(k) => if k in b then (b, Found(b[k])) else (b, Missing)
  }

  function Replay(ops: seq<Op>, log: seq<Event>): (b: map<Key, Value>) {
    if log == [] then map[]
    else
      var e := log[|log| - 1];
      var b := Replay(ops, log[..|log| - 1]);
      if e.call < |ops| then Effect(b, ops[e.call]).0 else b
  }

  /** Every result in the log is what the sequential map answers at that place. */
  ghost predicate Legal(ops: seq<Op>, log: seq<Event>) {
    forall i :: 0 <= i < |log| ==>
      log[i].call < |ops| && log[i].result == Effect(Replay(ops, log[..i]), ops[log[i].call]).1
  }

  // ---------- steps ----------

  ghost function Goto(s: State, t: nat, pc: Pc): State
    requires t < |s.pcs|
  {
    s.(pcs := s.pcs[t := pc])
  }

  ghost function Lock(s: State, t: nat, m: Mutex, pc: Pc): Option<State>
    requires t < |s.pcs|
  {
    if m in s.owner then None else Some(Goto(s.(owner := s.owner[m := t]), t, pc))
  }

  ghost function Unlock(s: State, t: nat, m: Mutex, pc: Pc): State
    requires t < |s.pcs|
  {
    Goto(s.(owner := s.owner - {m}), t, pc)
  }

  ghost function Commit(s: State, t: nat, r: Result, pc: Pc): State
    requires t < |s.pcs|
  {
    Goto(s.(log := s.log + [Event(t, r)]), t, pc)
  }

  /** The next step of call t; None while it is blocked, has returned, or would read a
      field of a node that is not built. */
  ghost function Step(v: Variant, op: Op, s: State, t: nat): (r: Option<State>)
    requires t < |s.pcs| && |s.mem.ranges| == |s.mem.heap|
    ensures r.Some? ==> |r.value.pcs| == |s.pcs| && |r.value.mem.ranges| == |r.value.mem.heap|
  {
    if s.dead then None else
    match s.pcs[t]
    case Start => Lock(s, t, TreeMtx, AtSlot(RootSlot))
    case AtSlot(slot) =>
      if !ValidSlot(s.mem, slot) then None
      else (match Link(s.mem, slot)
        case Some(n) => Some(Goto(s, t, Waiting(slot, n)))
        case None =>
          if op.Add? then Some(Goto(s.(mem := LinkRaw(s.mem, slot)), t, Filling(slot, |s.mem.heap|)))
          else Some(Commit(s, t, Missing, Leaving(SlotMutex(slot), Missing))))
    case Waiting(slot, n) => Lock(s, t, NodeMtx(n), Coupled(slot, n))
    case Coupled(slot, n) => Some(Unlock(s, t, SlotMutex(slot), AtNode(slot, n)))
    case AtNode(slot, n) =>
      if n >= |s.mem.heap| || s.mem.heap[n].Raw? then None
      else
        var c := Strcmp(op.key, s.mem.heap[n].key);
        if c < 0 then Some(Goto(s, t, AtSlot(LeftOf(n))))
        else if c > 0 then Some(Goto(s, t, AtSlot(RightOf(n))))
        else if op.Lookup? then Some(Goto(s, t, Hit(slot, n)))
        else
          var m := NodeMtx(n);
          Some(Commit(s, t, Duplicate, if v.Repaired? then Leaving(m, Duplicate) else Done(Duplicate, {m})))
    case Hit(slot, _) =>
      // bt_find_node_ts returned the slot, not the node: it is read again, without the slot's mutex
      if !ValidSlot(s.mem, slot) || Link(s.mem, slot).None? then None
      else
        var n := Link(s.mem, slot).value;
        if n >= |s.mem.heap| || s.mem.heap[n].Raw? then None
        else Some(Commit(s, t, Found(s.mem.heap[n].value), Leaving(NodeMtx(n), Found(s.mem.heap[n].value))))
    case Filling(slot, n) =>
      if op.Lookup? || n >= |s.mem.heap| then None
      else Some(Commit(s.(mem := Fill(s.mem, n, op.key, op.value)), t, Added, Leaving(SlotMutex(slot), Added)))
    case Leaving(m, r) =>
      Some(Unlock(s, t, m, if v.AsWritten? && r.Missing? && m != TreeMtx then Doomed else Done(r, {})))
    case Doomed => Some(s.(dead := true))
    case Done(_, _) => None
  }

  ghost function Initial(ops: seq<Op>): State {
    State(Memory([], None, []), map[], seq(|ops|, _ => Start), false, [])
  }

  ghost function Run(v: Variant, ops: seq<Op>, schedule: seq<nat>): Option<State>
    ensures Run(v, ops, schedule).Some? ==>
      var s := Run(v, ops, schedule).value; |s.pcs| == |ops| && |s.mem.ranges| == |s.mem.heap|
  {
    if schedule == [] then Some(Initial(ops))
    else
      var t := schedule[|schedule| - 1];
      match Run(v, ops, schedule[..|schedule| - 1])
      case None => None
      case Some(s) => if t < |ops| then Step(v, ops[t], s, t) else None
  }

  // ---------- the invariant ----------

  /** A slot below which a key can still be added: empty, or linked to a raw node. */
  ghost predicate Open(m: Memory, slot: Slot) {
    && ValidSlot(m, slot)
    && (Link(m, slot).None? || (Link(m, slot).value < |m.heap| && m.heap[Link(m, slot).value].Raw?))
  }

  ghost predicate Disjoint(a: (real, real), b: (real, real)) {
    a.1 <= b.0 || b.1 <= a.0
  }

  /** Links lead to younger nodes, which inherit the slot's range. */
  ghost predicate LinksOk(m: Memory) {
    && |m.ranges| == |m.heap|
    && (forall slot :: ValidSlot(m, slot) && Link(m, slot).Some? ==>
          var n := Link(m, slot).value;
          n < |m.heap| && m.ranges[n] == SlotRange(m, slot) && (slot.RootSlot? || slot.owner < n))
    && (forall n :: 0 <= n < |m.heap| && m.heap[n].Built? ==> InRange(m.heap[n].key, m.ranges[n]))
  }

  /** The open slots share no range, and no key of the tree lies in one. */
  ghost predicate OpenOk(m: Memory)
    requires |m.ranges| == |m.heap|
  {
    && (forall slot, n :: Open(m, slot) && 0 <= n < |m.heap| && m.heap[n].Built? ==>
          !InRange(m.heap[n].key, SlotRange(m, slot)))
    && (forall slot, slot' :: Open(m, slot) && Open(m, slot') && slot != slot' ==>
          Disjoint(SlotRange(m, slot), SlotRange(m, slot')))
  }

  /** The built nodes hold exactly the bindings of b. */
  ghost predicate Holding(m: Memory, b: map<Key, Value>) {
    && (forall n :: 0 <= n < |m.heap| && m.heap[n].Built? ==> m.heap[n].key in b && b[m.heap[n].key] == m.heap[n].value)
    && (forall k :: k in b ==> exists n :: 0 <= n < |m.heap| && m.heap[n].Built? && m.heap[n].key == k)
  }

  ghost predicate TreeOk(m: Memory, b: map<Key, Value>) {
    LinksOk(m) && OpenOk(m) && Holding(m, b)
  }

  ghost function Holds(pc: Pc): set<Mutex> {
    match pc
    case AtSlot(slot) => {SlotMutex(slot)}
    case Waiting(slot, _) => {SlotMutex(slot)}
    case Coupled(slot, n) => {SlotMutex(slot), NodeMtx(n)}
    case AtNode(_, n) => {NodeMtx(n)}
    case Hit(_, n) => {NodeMtx(n)}
    case Filling(slot, _) => {SlotMutex(slot)}
    case Leaving(m, _) => {m}
    case Done(_, kept) => kept
    case _ => {}
  }

  ghost predicate LocksOk(owner: map<Mutex, nat>, pcs: seq<Pc>) {
    && (forall m :: m in owner ==> owner[m] < |pcs| && m in Holds(pcs[owner[m]]))
    && (forall t, m :: 0 <= t < |pcs| && m in Holds(pcs[t]) ==> m in owner && owner[m] == t)
  }

  /** A raw node is reached only through a slot whose mutex its creator holds. */
  ghost predicate RawOk(m: Memory, owner: map<Mutex, nat>, pcs: seq<Pc>) {
    forall slot ::
      && ValidSlot(m, slot) && Link(m, slot).Some?
      && Link(m, slot).value < |m.heap| && m.heap[Link(m, slot).value].Raw? ==>
      && SlotMutex(slot) in owner && owner[SlotMutex(slot)] < |pcs|
      && pcs[owner[SlotMutex(slot)]] == Filling(slot, Link(m, slot).value)
  }

  /** The slot is where the search for key leads, and it leads on to node n. */
  ghost predicate Leads(m: Memory, slot: Slot, n: nat, key: Key)
    requires |m.ranges| == |m.heap|
  {
    && ValidSlot(m, slot) && InRange(key, SlotRange(m, slot))
    && Link(m, slot) == Some(n) && n < |m.heap| && m.heap[n].Built?
  }

  ghost predicate PcOk(v: Variant, op: Op, m: Memory, pc: Pc)
    requires |m.ranges| == |m.heap|
  {
    match pc
    case Start => true
    case AtSlot(slot) => ValidSlot(m, slot) && InRange(op.key, SlotRange(m, slot))
    case Waiting(slot, n) => Leads(m, slot, n, op.key)
    case Coupled(slot, n) => Leads(m, slot, n, op.key)
    case AtNode(slot, n) => Leads(m, slot, n, op.key)
    case Hit(slot, n) => op.Lookup? && Leads(m, slot, n, op.key) && m.heap[n].key == op.key
    case Filling(slot, n) =>
      && op.Add? && ValidSlot(m, slot) && InRange(op.key, SlotRange(m, slot))
      && Link(m, slot) == Some(n) && n < |m.heap| && m.heap[n].Raw?
    case Leaving(mtx, r) =>
      && (r.Duplicate? ==> v.Repaired?)
      && (mtx.NodeMtx? ==> mtx.id < |m.heap| && m.heap[mtx.id].Built?)
    case Doomed => v.AsWritten?
    case Done(r, kept) =>
      && (kept != {} <==> v.AsWritten? && r.Duplicate?)
      && (forall x, y :: x in kept && y in kept ==> x == y)
  }

  ghost function Outcome(pc: Pc): Option<Result> {
    match pc
    case Leaving(_, r) => Some(r)
    case Done(r, _) => Some(r)
    case Doomed => Some(Missing)
    case _ => None
  }

  ghost predicate Faithful(log: seq<Event>, pcs: seq<Pc>) {
    forall i :: 0 <= i < |log| ==> log[i].call < |pcs| && Outcome(pcs[log[i].call]) == Some(log[i].result)
  }

  ghost predicate OnceEach(log: seq<Event>) {
    forall i, j :: 0 <= i < j < |log| ==> log[i].call != log[j].call
  }

  ghost predicate Logged(log: seq<Event>, u: nat) {
    exists i :: 0 <= i < |log| && log[i].call == u
  }

  /** The calls that took effect are the ones in the log, once each, with their results. */
  ghost predicate LogOk(ops: seq<Op>, log: seq<Event>, pcs: seq<Pc>) {
    && Legal(ops, log) && Faithful(log, pcs) && OnceEach(log)
    && forall t :: 0 <= t < |pcs| && Outcome(pcs[t]).Some? ==> Logged(log, t)
  }

  ghost predicate Inv(v: Variant, ops: seq<Op>, s: State) {
    && |s.pcs| == |ops|
    && TreeOk(s.mem, Replay(ops, s.log))
    && LocksOk(s.owner, s.pcs)
    && RawOk(s.mem, s.owner, s.pcs)
    && (forall t :: 0 <= t < |ops| ==> PcOk(v, ops[t], s.mem, s.pcs[t]))
    && LogOk(ops, s.log, s.pcs)
    && (s.dead ==> v.AsWritten?)
  }

  // ---------- the two steps that change the tree ----------

  lemma LinkRawSlots(m: Memory, slot: Slot, slot': Slot)
    requires LinksOk(m) && ValidSlot(m, slot) && Link(m, slot).None?
    ensures var m' := LinkRaw(m, slot);
      && |m'.ranges| == |m'.heap|
      && (ValidSlot(m', slot') <==> ValidSlot(m, slot'))
      && (ValidSlot(m, slot') ==>
          && Link(m', slot') == (if slot' == slot then Some(|m.heap|) else Link(m, slot'))
          && SlotRange(m', slot') == SlotRange(m, slot')
          && (Open(m', slot') <==> Open(m, slot')))
  {
  }

  ghost predicate SlotsKept(m: Memory, slot: Slot, slot': Slot)
    requires |m.ranges| == |m.heap| && ValidSlot(m, slot)
  {
    var m' := LinkRaw(m, slot);
    && (ValidSlot(m', slot') <==> ValidSlot(m, slot'))
    && (ValidSlot(m, slot') ==>
          && Link(m', slot') == (if slot' == slot then Some(|m.heap|) else Link(m, slot'))
          && SlotRange(m', slot') == SlotRange(m, slot')
          && (Open(m', slot') <==> Open(m, slot')))
  }

  lemma LinkRawKeepsLinks(m: Memory, slot: Slot)
    requires LinksOk(m) && ValidSlot(m, slot) && Link(m, slot).None? && forall x :: SlotsKept(m, slot, x)
    ensures LinksOk(LinkRaw(m, slot))
  {
    var m' := LinkRaw(m, slot);
    forall x | ValidSlot(m', x) && Link(m', x).Some?
      ensures Link(m', x).value < |m'.heap| && m'.ranges[Link(m', x).value] == SlotRange(m', x)
      ensures x.RootSlot? || x.owner < Link(m', x).value
    {
      assert SlotsKept(m, slot, x);
    }
    hide Open;
  }

  lemma LinkRawKeepsOpen(m: Memory, slot: Slot)
    requires LinksOk(m) && OpenOk(m) && ValidSlot(m, slot) && Link(m, slot).None? && forall x :: SlotsKept(m, slot, x)
    ensures OpenOk(LinkRaw(m, slot))
  {
    var m' := LinkRaw(m, slot);
    forall x, n | Open(m', x) && 0 <= n < |m'.heap| && m'.heap[n].Built?
      ensures !InRange(m'.heap[n].key, SlotRange(m', x))
    {
      assert SlotsKept(m, slot, x) && m.heap[n].Built? && m'.heap[n].key == m.heap[n].key;
    }
    forall x, y | Open(m', x) && Open(m', y) && x != y ensures Disjoint(SlotRange(m', x), SlotRange(m', y)) {
      assert SlotsKept(m, slot, x) && SlotsKept(m, slot, y);
    }
  }

  lemma LinkRawKeepsHolding(m: Memory, slot: Slot, b: map<Key, Value>)
    requires |m.ranges| == |m.heap| && Holding(m, b) && ValidSlot(m, slot)
    ensures Holding(LinkRaw(m, slot), b)
  {
    var m' := LinkRaw(m, slot);
    forall k | k in b ensures exists n :: 0 <= n < |m'.heap| && m'.heap[n].Built? && m'.heap[n].key == k {
      var n :| 0 <= n < |m.heap| && m.heap[n].Built? && m.heap[n].key == k;
      assert m'.heap[n].Built? && m'.heap[n].key == k;
    }
  }

  lemma LinkRawKeepsTree(m: Memory, slot: Slot, b: map<Key, Value>)
    requires TreeOk(m, b) && ValidSlot(m, slot) && Link(m, slot).None?
    ensures TreeOk(LinkRaw(m, slot), b)
  {
    forall x ensures SlotsKept(m, slot, x) {
      LinkRawSlots(m, slot, x);
    }
    hide SlotsKept, LinkRaw, OpenOk, Holding, ValidSlot, Link;
    LinkRawKeepsLinks(m, slot);
    LinkRawKeepsOpen(m, slot);
    LinkRawKeepsHolding(m, slot, b);
  }

  lemma FillSlots(m: Memory, slot: Slot, n: nat, key: Key, value: Value, slot': Slot)
    requires LinksOk(m) && n < |m.heap| && m.heap[n].Raw?
    requires ValidSlot(m, slot) && Link(m, slot) == Some(n)
    ensures var m' := Fill(m, n, key, value);
      && |m'.ranges| == |m'.heap|
      && (ValidSlot(m', slot') <==> ValidSlot(m, slot') || slot' == LeftOf(n) || slot' == RightOf(n))
      && (ValidSlot(m, slot') ==> Link(m', slot') == Link(m, slot') && SlotRange(m', slot') == SlotRange(m, slot'))
      && (slot' == LeftOf(n) || slot' == RightOf(n) ==> Link(m', slot').None?)
      && (Open(m', slot') ==> slot' != slot)
      && (Open(m', slot') ==> Open(m, slot') || slot' == LeftOf(n) || slot' == RightOf(n))
      && SlotRange(m', LeftOf(n)) == (SlotRange(m, slot).0, Rank(key))
      && SlotRange(m', RightOf(n)) == (Rank(key), SlotRange(m, slot).1)
  {
  }

  /** The search for a key ends in an open slot only if the map does not have the key. */
  lemma OpenSlotMisses(m: Memory, slot: Slot, b: map<Key, Value>, key: Key)
    requires TreeOk(m, b) && Open(m, slot) && InRange(key, SlotRange(m, slot))
    ensures key !in b
  {
  }

  lemma FillKeepsTree(m: Memory, slot: Slot, n: nat, key: Key, value: Value, b: map<Key, Value>)
    requires TreeOk(m, b) && n < |m.heap| && m.heap[n].Raw?
    requires ValidSlot(m, slot) && Link(m, slot) == Some(n) && InRange(key, SlotRange(m, slot))
    ensures TreeOk(Fill(m, n, key, value), b[key := value])
  {
    var m', b' := Fill(m, n, key, value), b[key := value];
    OpenSlotMisses(m, slot, b, key);
    FillLinks(m, slot, n, key, value);
    FillOpen(m, slot, n, key, value);
    forall k | k in b' ensures exists i :: 0 <= i < |m'.heap| && m'.heap[i].Built? && m'.heap[i].key == k {
      if k == key {
        assert m'.heap[n].key == k;
      } else {
        var i :| 0 <= i < |m.heap| && m.heap[i].Built? && m.heap[i].key == k;
        assert m'.heap[i].Built? && m'.heap[i].key == k;
      }
    }
  }

  lemma FillLinks(m: Memory, slot: Slot, n: nat, key: Key, value: Value)
    requires LinksOk(m) && n < |m.heap| && m.heap[n].Raw?
    requires ValidSlot(m, slot) && Link(m, slot) == Some(n) && InRange(key, SlotRange(m, slot))
    ensures LinksOk(Fill(m, n, key, value))
  {
    var m' := Fill(m, n, key, value);
    forall slot' | ValidSlot(m', slot') && Link(m', slot').Some?
      ensures var c := Link(m', slot').value;
        c < |m'.heap| && m'.ranges[c] == SlotRange(m', slot') && (slot'.RootSlot? || slot'.owner < c)
    {
      FillSlots(m, slot, n, key, value, slot');
    }
  }

  lemma FillOpen(m: Memory, slot: Slot, n: nat, key: Key, value: Value)
    requires LinksOk(m) && OpenOk(m) && n < |m.heap| && m.heap[n].Raw?
    requires ValidSlot(m, slot) && Link(m, slot) == Some(n) && InRange(key, SlotRange(m, slot))
    ensures OpenOk(Fill(m, n, key, value))
  {
    var m' := Fill(m, n, key, value);
    forall a, i | Open(m', a) && 0 <= i < |m'.heap| && m'.heap[i].Built?
      ensures !InRange(m'.heap[i].key, SlotRange(m', a))
    {
      FillSlots(m, slot, n, key, value, a);
      assert Open(m, slot);
      if i == n && Open(m, a) {
        assert Disjoint(SlotRange(m, a), SlotRange(m, slot));
      }
    }
    forall a, a' | Open(m', a) && Open(m', a') && a != a'
      ensures Disjoint(SlotRange(m', a), SlotRange(m', a'))
    {
      FillSlots(m, slot, n, key, value, a);
      FillSlots(m, slot, n, key, value, a');
      assert Open(m, slot);
    }
  }

  // ---------- locks, raw nodes and the log under a step of call t ----------

  lemma LocksAcquired(owner: map<Mutex, nat>, pcs: seq<Pc>, t: nat, m: Mutex, pc: Pc)
    requires LocksOk(owner, pcs) && t < |pcs| && m !in owner && Holds(pc) == Holds(pcs[t]) + {m}
    ensures LocksOk(owner[m := t], pcs[t := pc])
  {
  }

  lemma LocksReleased(owner: map<Mutex, nat>, pcs: seq<Pc>, t: nat, m: Mutex, pc: Pc)
    requires LocksOk(owner, pcs) && t < |pcs| && m in Holds(pcs[t]) && Holds(pc) == Holds(pcs[t]) - {m}
    ensures LocksOk(owner - {m}, pcs[t := pc])
  {
    var pcs' := pcs[t := pc];
    forall u, x | 0 <= u < |pcs'| && x in Holds(pcs'[u]) ensures x in owner - {m} && (owner - {m})[x] == u {
      assert x in Holds(pcs[u]) && owner[x] == u;
      assert owner[m] == t && x != m;
    }
  }

  lemma LocksKept(owner: map<Mutex, nat>, pcs: seq<Pc>, t: nat, pc: Pc)
    requires LocksOk(owner, pcs) && t < |pcs| && Holds(pc) == Holds(pcs[t])
    ensures LocksOk(owner, pcs[t := pc])
  {
  }

  /** Whatever t locks or unlocks, the creators of raw nodes keep their mutexes. */
  lemma RawKept(m: Memory, owner: map<Mutex, nat>, pcs: seq<Pc>, t: nat, owner': map<Mutex, nat>, pc: Pc)
    requires RawOk(m, owner, pcs) && t < |pcs| && !pcs[t].Filling?
    requires forall x :: x in owner && owner[x] != t ==> x in owner' && owner'[x] == owner[x]
    ensures RawOk(m, owner', pcs[t := pc])
  {
  }

  lemma LogKept(ops: seq<Op>, log: seq<Event>, pcs: seq<Pc>, t: nat, pc: Pc)
    requires LogOk(ops, log, pcs) && t < |pcs| && Outcome(pc) == Outcome(pcs[t])
    ensures LogOk(ops, log, pcs[t := pc])
  {
    hide Legal, Outcome, OnceEach, Logged;
    var pcs' := pcs[t := pc];
    forall u | 0 <= u < |pcs'| ensures Outcome(pcs'[u]) == Outcome(pcs[u]) {
    }
  }

  lemma LegalGrows(ops: seq<Op>, log: seq<Event>, t: nat, r: Result)
    requires Legal(ops, log) && t < |ops| && r == Effect(Replay(ops, log), ops[t]).1
    ensures Legal(ops, log + [Event(t, r)])
    ensures Replay(ops, log + [Event(t, r)]) == Effect(Replay(ops, log), ops[t]).0
  {
    var log' := log + [Event(t, r)];
    assert log'[..|log|] == log;
    forall i | 0 <= i < |log'|
      ensures log'[i].call < |ops| && log'[i].result == Effect(Replay(ops, log'[..i]), ops[log'[i].call]).1
    {
      assert log'[..i] == log[..i];
      assert log[..|log|] == log;
    }
  }

  lemma CommittedIsLogged(log: seq<Event>, t: nat, r: Result, u: nat)
    requires u == t || Logged(log, u)
    ensures Logged(log + [Event(t, r)], u)
  {
    var log' := log + [Event(t, r)];
    if u == t {
      assert log'[|log|].call == u;
    } else {
      var i :| 0 <= i < |log| && log[i].call == u;
      assert log'[i].call == u;
    }
  }

  lemma CommittedIsFaithful(log: seq<Event>, pcs: seq<Pc>, t: nat, r: Result, pc: Pc)
    requires Faithful(log, pcs) && OnceEach(log) && t < |pcs|
    requires Outcome(pcs[t]).None? && Outcome(pc) == Some(r)
    ensures Faithful(log + [Event(t, r)], pcs[t := pc]) && OnceEach(log + [Event(t, r)])
  {
    var log', pcs' := log + [Event(t, r)], pcs[t := pc];
    hide Outcome;
    forall i | 0 <= i < |log| ensures log'[i] == log[i] && log[i].call != t && pcs'[log[i].call] == pcs[log[i].call] {
      assert Outcome(pcs[log[i].call]) == Some(log[i].result);
    }
  }

  lemma LogCommitted(ops: seq<Op>, log: seq<Event>, pcs: seq<Pc>, t: nat, r: Result, pc: Pc)
    requires LogOk(ops, log, pcs) && t < |pcs| == |ops|
    requires Outcome(pcs[t]).None? && Outcome(pc) == Some(r)
    requires r == Effect(Replay(ops, log), ops[t]).1
    ensures LogOk(ops, log + [Event(t, r)], pcs[t := pc])
    ensures Replay(ops, log + [Event(t, r)]) == Effect(Replay(ops, log), ops[t]).0
  {
    hide Legal, Replay, Effect, Outcome, Faithful, OnceEach, Logged;
    LegalGrows(ops, log, t, r);
    CommittedIsFaithful(log, pcs, t, r, pc);
    forall u | 0 <= u < |pcs| && Outcome(pcs[t := pc][u]).Some? ensures Logged(log + [Event(t, r)], u) {
      assert u != t ==> Outcome(pcs[u]).Some?;
      CommittedIsLogged(log, t, r, u);
    }
  }

  // ---------- every step keeps the invariant ----------

  lemma InvAt(v: Variant, ops: seq<Op>, s: State, t: nat)
    requires Inv(v, ops, s) && t < |ops|
    ensures |s.pcs| == |ops| && LinksOk(s.mem) && |s.mem.ranges| == |s.mem.heap|
    ensures PcOk(v, ops[t], s.mem, s.pcs[t]) && LocksOk(s.owner, s.pcs) && RawOk(s.mem, s.owner, s.pcs)
  {
  }

  lemma InvParts(v: Variant, ops: seq<Op>, s: State)
    requires Inv(v, ops, s)
    ensures |s.pcs| == |ops| && |s.mem.ranges| == |s.mem.heap|
    ensures TreeOk(s.mem, Replay(ops, s.log)) && LogOk(ops, s.log, s.pcs) && (s.dead ==> v.AsWritten?)
    ensures LocksOk(s.owner, s.pcs) && RawOk(s.mem, s.owner, s.pcs)
    ensures forall t :: 0 <= t < |ops| ==> PcOk(v, ops[t], s.mem, s.pcs[t])
  {
    assert |s.mem.ranges| == |s.mem.heap|;
    hide TreeOk, LinksOk, LocksOk, RawOk, LogOk, PcOk, Replay;
  }

  lemma InvFrom(v: Variant, ops: seq<Op>, s: State)
    requires |s.pcs| == |ops| && |s.mem.ranges| == |s.mem.heap|
    requires TreeOk(s.mem, Replay(ops, s.log)) && LogOk(ops, s.log, s.pcs) && (s.dead ==> v.AsWritten?)
    requires LocksOk(s.owner, s.pcs) && RawOk(s.mem, s.owner, s.pcs)
    requires forall t :: 0 <= t < |ops| ==> PcOk(v, ops[t], s.mem, s.pcs[t])
    ensures Inv(v, ops, s)
  {
    hide TreeOk, LinksOk, LocksOk, RawOk, LogOk, PcOk, Replay;
  }

  lemma HolderOwns(owner: map<Mutex, nat>, pcs: seq<Pc>, t: nat, m: Mutex)
    requires LocksOk(owner, pcs) && t < |pcs| && m in Holds(pcs[t])
    ensures m in owner && owner[m] == t
  {
  }

  lemma OwnerHolds(owner: map<Mutex, nat>, pcs: seq<Pc>, m: Mutex)
    requires LocksOk(owner, pcs) && m in owner
    ensures owner[m] < |pcs| && m in Holds(pcs[owner[m]])
  {
  }

  /** A step that changes neither the tree nor the log. */
  lemma QuietStep(v: Variant, ops: seq<Op>, s: State, t: nat, owner: map<Mutex, nat>, pc: Pc)
    requires Inv(v, ops, s) && t < |ops| && |s.mem.ranges| == |s.mem.heap|
    requires LocksOk(owner, s.pcs[t := pc]) && RawOk(s.mem, owner, s.pcs[t := pc])
    requires Outcome(pc) == Outcome(s.pcs[t]) && PcOk(v, ops[t], s.mem, pc)
    ensures Inv(v, ops, Goto(s.(owner := owner), t, pc))
  {
    hide Inv, LinksOk, TreeOk, RawOk, LogOk, Replay, PcOk, LocksOk, Outcome;
    InvParts(v, ops, s);
    LogKept(ops, s.log, s.pcs, t, pc);
    InvFrom(v, ops, Goto(s.(owner := owner), t, pc));
  }

  /** Where a lock leaves a call. */
  ghost predicate Locks(before: Pc, m: Mutex, pc: Pc) {
    || (before.Start? && pc == AtSlot(RootSlot) && m == TreeMtx)
    || (before.Waiting? && pc == Coupled(before.slot, before.node) && m == NodeMtx(before.node))
  }

  lemma LockFacts(v: Variant, op: Op, mem: Memory, before: Pc, m: Mutex, pc: Pc)
    requires LinksOk(mem) && PcOk(v, op, mem, before) && Locks(before, m, pc)
    ensures Holds(pc) == Holds(before) + {m} && PcOk(v, op, mem, pc)
    ensures Outcome(pc) == Outcome(before) && !before.Filling?
  {
    assert 0.0 <= Rank(op.key) < 1.0;
  }

  lemma LockStep(v: Variant, ops: seq<Op>, s: State, t: nat, m: Mutex, pc: Pc)
    requires Inv(v, ops, s) && t < |ops| && m !in s.owner && Locks(s.pcs[t], m, pc)
    ensures Inv(v, ops, Goto(s.(owner := s.owner[m := t]), t, pc))
  {
    hide Inv, LinksOk, RawOk, PcOk, LocksOk, Holds, Outcome, Locks;
    InvAt(v, ops, s, t);
    LockFacts(v, ops[t], s.mem, s.pcs[t], m, pc);
    LocksAcquired(s.owner, s.pcs, t, m, pc);
    RawKept(s.mem, s.owner, s.pcs, t, s.owner[m := t], pc);
    QuietStep(v, ops, s, t, s.owner[m := t], pc);
  }

  /** Where an unlock leaves a call. */
  ghost predicate Unlocks(v: Variant, before: Pc, m: Mutex, pc: Pc) {
    match before
    case Coupled(slot, n) => m == SlotMutex(slot) && pc == AtNode(slot, n)
    case Leaving(x, r) => m == x && pc == if v.AsWritten? && r.Missing? && m != TreeMtx then Doomed else Done(r, {})
    case _ => false
  }

  lemma UnlockFacts(v: Variant, op: Op, mem: Memory, before: Pc, m: Mutex, pc: Pc)
    requires LinksOk(mem) && PcOk(v, op, mem, before) && Unlocks(v, before, m, pc)
    ensures m in Holds(before) && Holds(pc) == Holds(before) - {m} && PcOk(v, op, mem, pc)
    ensures Outcome(pc) == Outcome(before) && !before.Filling?
  {
  }

  lemma UnlockStep(v: Variant, ops: seq<Op>, s: State, t: nat, m: Mutex, pc: Pc)
    requires Inv(v, ops, s) && t < |ops| && Unlocks(v, s.pcs[t], m, pc)
    ensures Inv(v, ops, Unlock(s, t, m, pc))
  {
    hide Inv, LinksOk, RawOk, PcOk, LocksOk, Holds, Outcome, Unlocks;
    InvAt(v, ops, s, t);
    UnlockFacts(v, ops[t], s.mem, s.pcs[t], m, pc);
    HolderOwns(s.owner, s.pcs, t, m);
    LocksReleased(s.owner, s.pcs, t, m, pc);
    RawKept(s.mem, s.owner, s.pcs, t, s.owner - {m}, pc);
    QuietStep(v, ops, s, t, s.owner - {m}, pc);
  }

  lemma MoveStep(v: Variant, ops: seq<Op>, s: State, t: nat, pc: Pc)
    requires Inv(v, ops, s) && t < |ops|
    requires Holds(pc) == Holds(s.pcs[t]) && Outcome(pc) == Outcome(s.pcs[t]) && !s.pcs[t].Filling?
    requires PcOk(v, ops[t], s.mem, pc)
    ensures Inv(v, ops, Goto(s, t, pc))
  {
    hide Inv, LinksOk, RawOk, PcOk, LocksOk, Holds, Outcome;
    InvAt(v, ops, s, t);
    LocksKept(s.owner, s.pcs, t, pc);
    RawKept(s.mem, s.owner, s.pcs, t, s.owner, pc);
    QuietStep(v, ops, s, t, s.owner, pc);
  }

  /** A call that takes effect without changing the tree. */
  lemma CommitStep(v: Variant, ops: seq<Op>, s: State, t: nat, r: Result, pc: Pc)
    requires Inv(v, ops, s) && t < |ops|
    requires Holds(pc) == Holds(s.pcs[t]) && Outcome(s.pcs[t]).None? && Outcome(pc) == Some(r) && !s.pcs[t].Filling?
    requires PcOk(v, ops[t], s.mem, pc)
    requires Effect(Replay(ops, s.log), ops[t]) == (Replay(ops, s.log), r)
    ensures Inv(v, ops, Commit(s, t, r, pc))
  {
    hide Inv, LinksOk, TreeOk, RawOk, LogOk, Replay, Legal, Effect, PcOk, LocksOk, Holds, Outcome;
    InvParts(v, ops, s);
    LocksKept(s.owner, s.pcs, t, pc);
    RawKept(s.mem, s.owner, s.pcs, t, s.owner, pc);
    LogCommitted(ops, s.log, s.pcs, t, r, pc);
    InvFrom(v, ops, Commit(s, t, r, pc));
  }

  /** Under its mutex a slot never shows another call's raw node. */
  lemma LockedSlotIsBuilt(v: Variant, ops: seq<Op>, s: State, t: nat)
    requires Inv(v, ops, s) && t < |ops| && s.pcs[t].AtSlot?
    requires Link(s.mem, s.pcs[t].slot).Some?
    ensures Leads(s.mem, s.pcs[t].slot, Link(s.mem, s.pcs[t].slot).value, ops[t].key)
  {
    assert SlotMutex(s.pcs[t].slot) in Holds(s.pcs[t]);
  }

  lemma PcsKeptByLinkRaw(v: Variant, op: Op, m: Memory, slot: Slot, pc: Pc)
    requires LinksOk(m) && ValidSlot(m, slot) && Link(m, slot).None? && PcOk(v, op, m, pc)
    ensures PcOk(v, op, LinkRaw(m, slot), pc)
  {
    LinkRawNodes(m, slot);
    if pc.AtSlot? || pc.Waiting? || pc.Coupled? || pc.AtNode? || pc.Hit? || pc.Filling? {
      LinkRawSlots(m, slot, pc.slot);
    }
    hide LinkRaw, Link, SlotRange, LinksOk;
  }

  lemma LinkRawNodes(m: Memory, slot: Slot)
    requires |m.ranges| == |m.heap| && ValidSlot(m, slot)
    ensures var m' := LinkRaw(m, slot);
            |m'.ranges| == |m'.heap| == |m.heap| + 1
            && forall n :: 0 <= n < |m.heap| ==>
                 m'.heap[n].Built? == m.heap[n].Built? && (m.heap[n].Built? ==> m'.heap[n].key == m.heap[n].key)
  {
  }

  /** The new raw node is reached through the slot at hand only, whose mutex the call holds. */
  lemma LinkKeepsRaw(m: Memory, owner: map<Mutex, nat>, pcs: seq<Pc>, t: nat, slot: Slot)
    requires LinksOk(m) && RawOk(m, owner, pcs) && t < |pcs| && pcs[t] == AtSlot(slot)
    requires ValidSlot(m, slot) && Link(m, slot).None? && SlotMutex(slot) in owner && owner[SlotMutex(slot)] == t
    ensures RawOk(LinkRaw(m, slot), owner, pcs[t := Filling(slot, |m.heap|)])
  {
    var m' := LinkRaw(m, slot);
    forall x | ValidSlot(m', x) && Link(m', x).Some? && Link(m', x).value < |m'.heap| && m'.heap[Link(m', x).value].Raw?
      ensures SlotMutex(x) in owner && owner[SlotMutex(x)] < |pcs|
      ensures pcs[t := Filling(slot, |m.heap|)][owner[SlotMutex(x)]] == Filling(x, Link(m', x).value)
    {
      LinkRawSlots(m, slot, x);
    }
  }

  lemma LinkKeepsPcs(v: Variant, ops: seq<Op>, s: State, t: nat, slot: Slot, u: nat)
    requires Inv(v, ops, s) && t < |ops| && u < |ops| && ops[t].Add?
    requires s.pcs[t] == AtSlot(slot) && Link(s.mem, slot).None?
    ensures |LinkRaw(s.mem, slot).ranges| == |LinkRaw(s.mem, slot).heap|
    ensures PcOk(v, ops[u], LinkRaw(s.mem, slot), s.pcs[t := Filling(slot, |s.mem.heap|)][u])
  {
    InvAt(v, ops, s, t);
    InvAt(v, ops, s, u);
    hide Inv, TreeOk, LocksOk, RawOk, LinksOk;
    if u != t {
      PcsKeptByLinkRaw(v, ops[u], s.mem, slot, s.pcs[u]);
    } else {
      LinkRawSlots(s.mem, slot, slot);
    }
  }

  lemma AtSlotFacts(v: Variant, ops: seq<Op>, s: State, t: nat)
    requires Inv(v, ops, s) && t < |ops| && s.pcs[t].AtSlot?
    ensures ValidSlot(s.mem, s.pcs[t].slot) && LinksOk(s.mem)
    ensures SlotMutex(s.pcs[t].slot) in s.owner && s.owner[SlotMutex(s.pcs[t].slot)] == t
  {
    InvAt(v, ops, s, t);
    hide Inv, RawOk, LinksOk;
    HolderOwns(s.owner, s.pcs, t, SlotMutex(s.pcs[t].slot));
  }

  lemma FillingHolds(slot: Slot, n: nat)
    ensures Holds(Filling(slot, n)) == Holds(AtSlot(slot)) && Outcome(Filling(slot, n)) == Outcome(AtSlot(slot))
  {
  }

  lemma LinkKeepsRest(v: Variant, ops: seq<Op>, s: State, t: nat, slot: Slot)
    requires Inv(v, ops, s) && t < |ops| && s.pcs[t] == AtSlot(slot)
    requires LinksOk(s.mem) && ValidSlot(s.mem, slot) && Link(s.mem, slot).None?
    ensures var pcs' := s.pcs[t := Filling(slot, |s.mem.heap|)]; var m' := LinkRaw(s.mem, slot);
            && TreeOk(m', Replay(ops, s.log)) && LocksOk(s.owner, pcs') && LogOk(ops, s.log, pcs')
            && RawOk(m', s.owner, pcs')
  {
    hide Inv, TreeOk, LinksOk, LocksOk, RawOk, LogOk, Replay, PcOk, ValidSlot, Link, LinkRaw, Holds, Outcome;
    var pc := Filling(slot, |s.mem.heap|);
    FillingHolds(slot, |s.mem.heap|);
    InvParts(v, ops, s);
    AtSlotFacts(v, ops, s, t);
    LinkRawKeepsTree(s.mem, slot, Replay(ops, s.log));
    LocksKept(s.owner, s.pcs, t, pc);
    LogKept(ops, s.log, s.pcs, t, pc);
    LinkKeepsRaw(s.mem, s.owner, s.pcs, t, slot);
  }

  lemma LinkStep(v: Variant, ops: seq<Op>, s: State, t: nat, slot: Slot)
    requires Inv(v, ops, s) && t < |ops| && ops[t].Add?
    requires s.pcs[t] == AtSlot(slot) && Link(s.mem, slot).None?
    ensures Inv(v, ops, Goto(s.(mem := LinkRaw(s.mem, slot)), t, Filling(slot, |s.mem.heap|)))
  {
    hide Inv, TreeOk, LinksOk, LocksOk, RawOk, LogOk, Replay, PcOk, ValidSlot, Link, LinkRaw, Holds, Outcome;
    InvParts(v, ops, s);
    AtSlotFacts(v, ops, s, t);
    var m', pc := LinkRaw(s.mem, slot), Filling(slot, |s.mem.heap|);
    forall u | 0 <= u < |ops| ensures |m'.ranges| == |m'.heap| && PcOk(v, ops[u], m', s.pcs[t := pc][u]) {
      LinkKeepsPcs(v, ops, s, t, slot, u);
    }
    LinkKeepsRest(v, ops, s, t, slot);
    InvFrom(v, ops, Goto(s.(mem := m'), t, pc));
  }

  /** Two open slots do not lead to the same raw node. */
  lemma OpenSlotsApart(m: Memory, a: Slot, b: Slot, key: Key)
    requires LinksOk(m) && OpenOk(m) && ValidSlot(m, a) && ValidSlot(m, b) && a != b
    requires Open(m, a) && Open(m, b) && Link(m, a).Some? && InRange(key, SlotRange(m, a))
    ensures Link(m, a) != Link(m, b)
  {
    assert Disjoint(SlotRange(m, a), SlotRange(m, b));
  }

  /** No two calls fill the same node, and no two open slots lead to it. */
  lemma OneFiller(v: Variant, ops: seq<Op>, s: State, t: nat, u: nat)
    requires Inv(v, ops, s) && t < |ops| && u < |ops| && t != u
    requires s.pcs[t].Filling? && s.pcs[u].Filling?
    ensures s.pcs[t].node != s.pcs[u].node && s.pcs[t].slot != s.pcs[u].slot
  {
    var a, b := s.pcs[t].slot, s.pcs[u].slot;
    InvParts(v, ops, s);
    InvAt(v, ops, s, t);
    InvAt(v, ops, s, u);
    assert OpenOk(s.mem);
    hide Inv, LinksOk, OpenOk, LocksOk, RawOk, LogOk, Replay;
    HolderOwns(s.owner, s.pcs, t, SlotMutex(a));
    HolderOwns(s.owner, s.pcs, u, SlotMutex(b));
    OpenSlotsApart(s.mem, a, b, ops[t].key);
  }

  lemma AllPcsKeptByFill(v: Variant, ops: seq<Op>, s: State, t: nat, slot: Slot, n: nat)
    requires Inv(v, ops, s) && t < |ops| && s.pcs[t] == Filling(slot, n)
    ensures LinksOk(Fill(s.mem, n, ops[t].key, ops[t].value))
    ensures forall u :: 0 <= u < |ops| && u != t ==> PcOk(v, ops[u], Fill(s.mem, n, ops[t].key, ops[t].value), s.pcs[u])
  {
    FillLinks(s.mem, slot, n, ops[t].key, ops[t].value);
    forall u | 0 <= u < |ops| && u != t ensures PcOk(v, ops[u], Fill(s.mem, n, ops[t].key, ops[t].value), s.pcs[u]) {
      if s.pcs[u].Filling? {
        OneFiller(v, ops, s, t, u);
      }
      PcsKeptByFill(v, ops[u], s.mem, slot, n, ops[t].key, ops[t].value, s.pcs[u]);
    }
  }

  /** Filling the node binds the key, which was absent. */
  lemma FillBinds(v: Variant, ops: seq<Op>, s: State, t: nat, slot: Slot, n: nat)
    requires Inv(v, ops, s) && t < |ops| && s.pcs[t] == Filling(slot, n)
    ensures ops[t].Add? && n < |s.mem.heap|
    ensures var b := Replay(ops, s.log);
            && Effect(b, ops[t]) == (b[ops[t].key := ops[t].value], Added)
            && TreeOk(Fill(s.mem, n, ops[t].key, ops[t].value), b[ops[t].key := ops[t].value])
  {
    InvParts(v, ops, s);
    InvAt(v, ops, s, t);
    hide Inv, OpenOk, LinksOk, Holding, LocksOk, RawOk, LogOk, Replay;
    var b := Replay(ops, s.log);
    OpenSlotMisses(s.mem, slot, b, ops[t].key);
    FillKeepsTree(s.mem, slot, n, ops[t].key, ops[t].value, b);
  }

  lemma LeavingOk(v: Variant, op: Op, m: Memory, slot: Slot, n: nat)
    requires |m.ranges| == |m.heap| && op.Add? && PcOk(v, op, m, Filling(slot, n))
    ensures PcOk(v, op, Fill(m, n, op.key, op.value), Leaving(SlotMutex(slot), Added))
  {
  }

  lemma FilledPcs(v: Variant, ops: seq<Op>, s: State, t: nat, slot: Slot, n: nat)
    requires Inv(v, ops, s) && t < |ops| && s.pcs[t] == Filling(slot, n) && ops[t].Add? && n < |s.mem.heap|
    ensures var m' := Fill(s.mem, n, ops[t].key, ops[t].value);
            && |m'.ranges| == |m'.heap|
            && forall u :: 0 <= u < |ops| ==> PcOk(v, ops[u], m', s.pcs[t := Leaving(SlotMutex(slot), Added)][u])
  {
    var m', pc := Fill(s.mem, n, ops[t].key, ops[t].value), Leaving(SlotMutex(slot), Added);
    AllPcsKeptByFill(v, ops, s, t, slot, n);
    InvAt(v, ops, s, t);
    hide Inv, PcOk;
    LeavingOk(v, ops[t], s.mem, slot, n);
  }

  lemma FillStep(v: Variant, ops: seq<Op>, s: State, t: nat, slot: Slot, n: nat)
    requires Inv(v, ops, s) && t < |ops| && s.pcs[t] == Filling(slot, n)
    ensures ops[t].Add? && n < |s.mem.heap|
    ensures var m' := Fill(s.mem, n, ops[t].key, ops[t].value);
            Inv(v, ops, Commit(s.(mem := m'), t, Added, Leaving(SlotMutex(slot), Added)))
  {
    hide Inv, TreeOk, LinksOk, LocksOk, RawOk, LogOk, Legal, Replay, PcOk, Effect, Holds, Fill;
    InvParts(v, ops, s);
    FillBinds(v, ops, s, t, slot, n);
    var m', pc := Fill(s.mem, n, ops[t].key, ops[t].value), Leaving(SlotMutex(slot), Added);
    LogCommitted(ops, s.log, s.pcs, t, Added, pc);
    FilledPcs(v, ops, s, t, slot, n);
    LocksKeptByFill(v, ops, s, t, slot, n, pc);
    InvFrom(v, ops, Commit(s.(mem := m'), t, Added, pc));
  }

  lemma PcsKeptByFill(v: Variant, op: Op, m: Memory, slot: Slot, n: nat, key: Key, value: Value, pc: Pc)
    requires LinksOk(m) && n < |m.heap| && m.heap[n].Raw? && ValidSlot(m, slot) && Link(m, slot) == Some(n)
    requires PcOk(v, op, m, pc) && (pc.Filling? ==> pc.node != n)
    ensures PcOk(v, op, Fill(m, n, key, value), pc)
  {
    match pc
    case AtSlot(x) => FillSlots(m, slot, n, key, value, x);
    case Waiting(x, _) => FillSlots(m, slot, n, key, value, x);
    case Coupled(x, _) => FillSlots(m, slot, n, key, value, x);
    case AtNode(x, _) => FillSlots(m, slot, n, key, value, x);
    case Hit(x, _) => FillSlots(m, slot, n, key, value, x);
    case Filling(x, _) => FillSlots(m, slot, n, key, value, x);
    case _ =>
  }

  lemma LocksKeptByFill(v: Variant, ops: seq<Op>, s: State, t: nat, slot: Slot, n: nat, pc: Pc)
    requires Inv(v, ops, s) && t < |ops| && s.pcs[t] == Filling(slot, n) && pc == Leaving(SlotMutex(slot), Added)
    ensures LocksOk(s.owner, s.pcs[t := pc])
    ensures RawOk(Fill(s.mem, n, ops[t].key, ops[t].value), s.owner, s.pcs[t := pc])
  {
    LocksKept(s.owner, s.pcs, t, pc);
    var m := s.mem;
    var m' := Fill(m, n, ops[t].key, ops[t].value);
    forall x | ValidSlot(m', x) && Link(m', x).Some? && Link(m', x).value < |m'.heap| && m'.heap[Link(m', x).value].Raw?
      ensures SlotMutex(x) in s.owner && s.owner[SlotMutex(x)] < |s.pcs|
      ensures s.pcs[t := pc][s.owner[SlotMutex(x)]] == Filling(x, Link(m', x).value)
    {
      FillSlots(m, slot, n, ops[t].key, ops[t].value, x);
    }
  }

  /** The comparison sends the call where its key belongs, or finds the binding. */
  lemma CompareFacts(m: Memory, b: map<Key, Value>, slot: Slot, n: nat, key: Key)
    requires TreeOk(m, b) && Leads(m, slot, n, key)
    ensures var c := Strcmp(key, m.heap[n].key);
      && (c < 0 ==> InRange(key, SlotRange(m, LeftOf(n))))
      && (c > 0 ==> InRange(key, SlotRange(m, RightOf(n))))
      && (c == 0 ==> key == m.heap[n].key && key in b && b[key] == m.heap[n].value)
  {
    StrcmpIsRankOrder(key, m.heap[n].key);
  }

  lemma DescendStep(v: Variant, ops: seq<Op>, s: State, t: nat, slot: Slot, n: nat)
    requires Inv(v, ops, s) && t < |ops| && s.pcs[t] == AtNode(slot, n)
    ensures Leads(s.mem, slot, n, ops[t].key)
    ensures Strcmp(ops[t].key, s.mem.heap[n].key) < 0 ==> Inv(v, ops, Goto(s, t, AtSlot(LeftOf(n))))
    ensures Strcmp(ops[t].key, s.mem.heap[n].key) > 0 ==> Inv(v, ops, Goto(s, t, AtSlot(RightOf(n))))
  {
    CompareFacts(s.mem, Replay(ops, s.log), slot, n, ops[t].key);
    var c := Strcmp(ops[t].key, s.mem.heap[n].key);
    if c < 0 {
      MoveStep(v, ops, s, t, AtSlot(LeftOf(n)));
    } else if c > 0 {
      MoveStep(v, ops, s, t, AtSlot(RightOf(n)));
    }
  }

  lemma EqualLookupStep(v: Variant, ops: seq<Op>, s: State, t: nat, slot: Slot, n: nat)
    requires Inv(v, ops, s) && t < |ops| && s.pcs[t] == AtNode(slot, n) && ops[t].Lookup?
    requires Leads(s.mem, slot, n, ops[t].key) && Strcmp(ops[t].key, s.mem.heap[n].key) == 0
    ensures Inv(v, ops, Goto(s, t, Hit(slot, n)))
  {
    InvParts(v, ops, s);
    CompareFacts(s.mem, Replay(ops, s.log), slot, n, ops[t].key);
    hide Inv, Replay, Strcmp;
    MoveStep(v, ops, s, t, Hit(slot, n));
  }

  lemma DuplicateFacts(v: Variant, op: Op, m: Memory, b: map<Key, Value>, slot: Slot, n: nat, pc: Pc)
    requires |m.ranges| == |m.heap| && op.Add? && op.key in b && Leads(m, slot, n, op.key)
    requires pc == if v.Repaired? then Leaving(NodeMtx(n), Duplicate) else Done(Duplicate, {NodeMtx(n)})
    ensures Holds(pc) == Holds(AtNode(slot, n)) && Outcome(AtNode(slot, n)).None? && Outcome(pc) == Some(Duplicate)
    ensures PcOk(v, op, m, pc) && Effect(b, op) == (b, Duplicate)
  {
  }

  lemma EqualAddStep(v: Variant, ops: seq<Op>, s: State, t: nat, slot: Slot, n: nat, pc: Pc)
    requires Inv(v, ops, s) && t < |ops| && s.pcs[t] == AtNode(slot, n) && ops[t].Add?
    requires Leads(s.mem, slot, n, ops[t].key) && Strcmp(ops[t].key, s.mem.heap[n].key) == 0
    requires pc == if v.Repaired? then Leaving(NodeMtx(n), Duplicate) else Done(Duplicate, {NodeMtx(n)})
    ensures Inv(v, ops, Commit(s, t, Duplicate, pc))
  {
    hide Inv, Replay, Strcmp, Holds, Outcome, PcOk, Effect, TreeOk, LocksOk, RawOk, LogOk, Leads;
    InvParts(v, ops, s);
    CompareFacts(s.mem, Replay(ops, s.log), slot, n, ops[t].key);
    DuplicateFacts(v, ops[t], s.mem, Replay(ops, s.log), slot, n, pc);
    CommitStep(v, ops, s, t, Duplicate, pc);
  }

  lemma CompareStep(v: Variant, ops: seq<Op>, s: State, t: nat, slot: Slot, n: nat)
    requires Inv(v, ops, s) && t < |ops| && s.pcs[t] == AtNode(slot, n) && !s.dead
    ensures Step(v, ops[t], s, t).Some? && Inv(v, ops, Step(v, ops[t], s, t).value)
  {
    hide TreeOk, LocksOk, RawOk, LogOk, PcOk, Holds, Outcome, Replay, Effect;
    DescendStep(v, ops, s, t, slot, n);
    if Strcmp(ops[t].key, s.mem.heap[n].key) == 0 {
      if ops[t].Lookup? {
        EqualLookupStep(v, ops, s, t, slot, n);
      } else {
        var pc := if v.Repaired? then Leaving(NodeMtx(n), Duplicate) else Done(Duplicate, {NodeMtx(n)});
        EqualAddStep(v, ops, s, t, slot, n, pc);
      }
    }
  }

  lemma HitFacts(v: Variant, op: Op, m: Memory, b: map<Key, Value>, slot: Slot, n: nat)
    requires TreeOk(m, b) && PcOk(v, op, m, Hit(slot, n))
    ensures Leads(m, slot, n, op.key)
    ensures var x := m.heap[n].value; var pc := Leaving(NodeMtx(n), Found(x));
      && Holds(pc) == Holds(Hit(slot, n)) && Outcome(Hit(slot, n)).None? && Outcome(pc) == Some(Found(x))
      && PcOk(v, op, m, pc) && Effect(b, op) == (b, Found(x))
  {
  }

  lemma HitStep(v: Variant, ops: seq<Op>, s: State, t: nat, slot: Slot, n: nat)
    requires Inv(v, ops, s) && t < |ops| && s.pcs[t] == Hit(slot, n)
    ensures Leads(s.mem, slot, n, ops[t].key)
    ensures var x := s.mem.heap[n].value; Inv(v, ops, Commit(s, t, Found(x), Leaving(NodeMtx(n), Found(x))))
  {
    hide Inv, LinksOk, LocksOk, RawOk, LogOk, TreeOk, Replay, Holds, Outcome, PcOk, Effect;
    InvParts(v, ops, s);
    HitFacts(v, ops[t], s.mem, Replay(ops, s.log), slot, n);
    var x := s.mem.heap[n].value;
    CommitStep(v, ops, s, t, Found(x), Leaving(NodeMtx(n), Found(x)));
  }

  lemma MissStep(v: Variant, ops: seq<Op>, s: State, t: nat, slot: Slot)
    requires Inv(v, ops, s) && t < |ops| && s.pcs[t] == AtSlot(slot) && ops[t].Lookup?
    requires ValidSlot(s.mem, slot) && Link(s.mem, slot).None?
    ensures Inv(v, ops, Commit(s, t, Missing, Leaving(SlotMutex(slot), Missing)))
  {
    hide Inv, TreeOk, LinksOk, LocksOk, RawOk, LogOk, Replay;
    InvParts(v, ops, s);
    InvAt(v, ops, s, t);
    OpenSlotMisses(s.mem, slot, Replay(ops, s.log), ops[t].key);
    CommitStep(v, ops, s, t, Missing, Leaving(SlotMutex(slot), Missing));
  }

  lemma SlotStep(v: Variant, ops: seq<Op>, s: State, t: nat, slot: Slot)
    requires Inv(v, ops, s) && t < |ops| && s.pcs[t] == AtSlot(slot)
    ensures ValidSlot(s.mem, slot)
    ensures Link(s.mem, slot).Some? ==> Inv(v, ops, Goto(s, t, Waiting(slot, Link(s.mem, slot).value)))
    ensures Link(s.mem, slot).None? && ops[t].Lookup? ==>
      Inv(v, ops, Commit(s, t, Missing, Leaving(SlotMutex(slot), Missing)))
    ensures Link(s.mem, slot).None? && ops[t].Add? ==>
      Inv(v, ops, Goto(s.(mem := LinkRaw(s.mem, slot)), t, Filling(slot, |s.mem.heap|)))
  {
    hide Inv, LinksOk, LocksOk, RawOk, LinkRaw, ValidSlot, Link;
    InvAt(v, ops, s, t);
    if Link(s.mem, slot).Some? {
      LockedSlotIsBuilt(v, ops, s, t);
      MoveStep(v, ops, s, t, Waiting(slot, Link(s.mem, slot).value));
    } else if ops[t].Add? {
      LinkStep(v, ops, s, t, slot);
    } else {
      MissStep(v, ops, s, t, slot);
    }
  }

  lemma LockingStepKeepsInv(v: Variant, ops: seq<Op>, s: State, t: nat)
    requires Inv(v, ops, s) && t < |ops| && Step(v, ops[t], s, t).Some?
    requires s.pcs[t].Start? || s.pcs[t].Waiting? || s.pcs[t].Coupled? || s.pcs[t].Leaving? || s.pcs[t].Doomed?
    ensures Inv(v, ops, Step(v, ops[t], s, t).value)
  {
    match s.pcs[t]
    case Start => LockStep(v, ops, s, t, TreeMtx, AtSlot(RootSlot));
    case Waiting(slot, n) => LockStep(v, ops, s, t, NodeMtx(n), Coupled(slot, n));
    case Coupled(slot, n) => UnlockStep(v, ops, s, t, SlotMutex(slot), AtNode(slot, n));
    case Leaving(m, r) =>
      UnlockStep(v, ops, s, t, m, if v.AsWritten? && r.Missing? && m != TreeMtx then Doomed else Done(r, {}));
    case Doomed =>
  }

  /** Every step of every call keeps the invariant, in both variants. */
  lemma StepKeepsInv(v: Variant, ops: seq<Op>, s: State, t: nat)
    requires Inv(v, ops, s) && t < |ops| && Step(v, ops[t], s, t).Some?
    ensures Inv(v, ops, Step(v, ops[t], s, t).value)
  {
    hide TreeOk, LocksOk, RawOk, LogOk, PcOk, Holds, Outcome, Replay, Effect;
    match s.pcs[t]
    case AtSlot(slot) => SlotStep(v, ops, s, t, slot);
    case AtNode(slot, n) => CompareStep(v, ops, s, t, slot, n);
    case Hit(slot, n) => HitStep(v, ops, s, t, slot, n);
    case Filling(slot, n) => FillStep(v, ops, s, t, slot, n);
    case Done(_, _) =>
    case _ => LockingStepKeepsInv(v, ops, s, t);
  }

  // ---------- main results: safety of every run ----------

  lemma InitialInv(v: Variant, ops: seq<Op>)
    ensures Inv(v, ops, Initial(ops))
  {
  }

  lemma {:induction false} RunKeepsInv(v: Variant, ops: seq<Op>, schedule: seq<nat>)
    requires Run(v, ops, schedule).Some?
    ensures Inv(v, ops, Run(v, ops, schedule).value)
  {
    if schedule == [] {
      InitialInv(v, ops);
    } else {
      RunKeepsInv(v, ops, schedule[..|schedule| - 1]);
      StepKeepsInv(v, ops, Run(v, ops, schedule[..|schedule| - 1]).value, schedule[|schedule| - 1]);
    }
  }

  /** The tree that hangs below a link; a raw node counts as not yet there. */
  ghost function Unfold(m: Memory, link: Option<nat>): Tree<Value>
    requires LinksOk(m)
    decreases if link.Some? && link.value < |m.heap| then |m.heap| - link.value else 0
  {
    if link.None? || link.value >= |m.heap| || m.heap[link.value].Raw? then Leaf
    else
      var n := link.value;
      var c := m.heap[n];
      assert ValidSlot(m, LeftOf(n)) && ValidSlot(m, RightOf(n));
      assert c.left == Link(m, LeftOf(n)) && c.right == Link(m, RightOf(n));
      Node(Unfold(m, c.left), c.key, c.value, Unfold(m, c.right))
  }

  lemma {:induction false} UnfoldWithin(m: Memory, slot: Slot)
    requires LinksOk(m) && ValidSlot(m, slot)
    ensures Within(Unfold(m, Link(m, slot)), SlotRange(m, slot).0, SlotRange(m, slot).1)
    decreases |m.heap| - (if slot.RootSlot? then -1 else slot.owner)
  {
    var link := Link(m, slot);
    if link.Some? && m.heap[link.value].Built? {
      UnfoldWithin(m, LeftOf(link.value));
      UnfoldWithin(m, RightOf(link.value));
    }
  }

  lemma {:induction false} UnfoldFinds(m: Memory, b: map<Key, Value>, slot: Slot, key: Key)
    requires TreeOk(m, b) && ValidSlot(m, slot) && InRange(key, SlotRange(m, slot))
    ensures Find(Unfold(m, Link(m, slot)), key) == if key in b then Some(b[key]) else None
    decreases |m.heap| - (if slot.RootSlot? then -1 else slot.owner)
  {
    var link := Link(m, slot);
    if Open(m, slot) {
      OpenSlotMisses(m, slot, b, key);
    } else {
      var n := link.value;
      CompareFacts(m, b, slot, n, key);
      var c := Strcmp(key, m.heap[n].key);
      if c < 0 {
        UnfoldFinds(m, b, LeftOf(n), key);
      } else if c > 0 {
        UnfoldFinds(m, b, RightOf(n), key);
      }
    }
  }

  /** In every reachable state the built nodes form a search tree with distinct keys, whose
      bindings are those of a sequential map that executed the logged calls. */
  lemma ReachableTreeIsTheSequentialMap(v: Variant, ops: seq<Op>, schedule: seq<nat>)
    requires Run(v, ops, schedule).Some?
    ensures var s := Run(v, ops, schedule).value;
      && LinksOk(s.mem)
      && Bst(Unfold(s.mem, s.mem.root))
      && ToMap(Unfold(s.mem, s.mem.root)) == Replay(ops, s.log)
  {
    RunKeepsInv(v, ops, schedule);
    var s := Run(v, ops, schedule).value;
    var t, b := Unfold(s.mem, s.mem.root), Replay(ops, s.log);
    UnfoldWithin(s.mem, RootSlot);
    forall k: Key ensures k in ToMap(t) <==> k in b
      ensures k in b ==> ToMap(t)[k] == b[k]
    {
      assert 0.0 <= Rank(k) < 1.0;
      UnfoldFinds(s.mem, b, RootSlot, k);
      FindIsMapLookup(t, k, -1.0, 1.0);
    }
  }

  /** The nodes whose fields the next step of a call reads, or may read: a lookup reads its slot
      again before each use of the node.  Where a step would read through a pointer that is not
      there, an address that no node has. */
  ghost function Reads(m: Memory, pc: Pc): set<nat> {
    match pc
    case AtSlot(slot) => Owner(slot)
    case Waiting(slot, n) => LedTo(m, slot) + {n}
    case AtNode(slot, n) => LedTo(m, slot) + {n}
    case Hit(slot, _) => LedTo(m, slot)
    case Leaving(mtx, _) => if mtx.NodeMtx? then {mtx.id} else {}
    case _ => {}
  }

  ghost function Owner(slot: Slot): set<nat> { if slot.RootSlot? then {} else {slot.owner} }

  /** The slot's owner and the node that the slot leads to. */
  ghost function LedTo(m: Memory, slot: Slot): set<nat> {
    Owner(slot) + {if ValidSlot(m, slot) && Link(m, slot).Some? then Link(m, slot).value else |m.heap|}
  }

  /** No call ever reads a half-built node or through a pointer that is not there. */
  lemma NoHalfBuiltRead(v: Variant, ops: seq<Op>, schedule: seq<nat>, t: nat)
    requires Run(v, ops, schedule).Some? && t < |ops|
    ensures var s := Run(v, ops, schedule).value;
            forall n :: n in Reads(s.mem, s.pcs[t]) ==> n < |s.mem.heap| && s.mem.heap[n].Built?
  {
    RunKeepsInv(v, ops, schedule);
    assert PcOk(v, ops[t], Run(v, ops, schedule).value.mem, Run(v, ops, schedule).value.pcs[t]);
  }

  /** A built node stays built, with its key and value: what a call has read once it may read again. */
  lemma BuiltStays(v: Variant, ops: seq<Op>, schedule: seq<nat>, t: nat, n: nat)
    requires Run(v, ops, schedule).Some? && t < |ops|
    requires Step(v, ops[t], Run(v, ops, schedule).value, t).Some?
    requires var m := Run(v, ops, schedule).value.mem; n < |m.heap| && m.heap[n].Built?
    ensures var m := Run(v, ops, schedule).value.mem;
            var m' := Step(v, ops[t], Run(v, ops, schedule).value, t).value.mem;
            n < |m'.heap| && m'.heap[n].Built? && m'.heap[n].key == m.heap[n].key && m'.heap[n].value == m.heap[n].value
  {
    RunKeepsInv(v, ops, schedule);
    var s := Run(v, ops, schedule).value;
    InvAt(v, ops, s, t);
    hide Run, Inv;
    StepKeepsBuilt(v, ops[t], s, t, n);
  }

  lemma StepKeepsBuilt(v: Variant, op: Op, s: State, t: nat, n: nat)
    requires t < |s.pcs| && LinksOk(s.mem) && PcOk(v, op, s.mem, s.pcs[t]) && Step(v, op, s, t).Some?
    requires n < |s.mem.heap| && s.mem.heap[n].Built?
    ensures var m' := Step(v, op, s, t).value.mem; var m := s.mem;
            n < |m'.heap| && m'.heap[n].Built? && m'.heap[n].key == m.heap[n].key && m'.heap[n].value == m.heap[n].value
  {
    hide LinksOk, Strcmp;
  }

  /** Linearizability, first half: the log is a legal sequential execution that contains
      each call that has returned, once, with the result it returned. */
  lemma Linearizable(v: Variant, ops: seq<Op>, schedule: seq<nat>)
    requires Run(v, ops, schedule).Some?
    ensures var s := Run(v, ops, schedule).value;
      && Legal(ops, s.log)
      && (forall i, j :: 0 <= i < j < |s.log| ==> s.log[i].call != s.log[j].call)
      && (forall t :: 0 <= t < |ops| && s.pcs[t].Done? ==> Event(t, s.pcs[t].result) in s.log)
      && (forall t, e :: 0 <= t < |ops| && s.pcs[t].Start? && e in s.log ==> e.call != t)
  {
    RunKeepsInv(v, ops, schedule);
    var s := Run(v, ops, schedule).value;
    forall t | 0 <= t < |ops| && s.pcs[t].Done? ensures Event(t, s.pcs[t].result) in s.log {
      assert Outcome(s.pcs[t]).Some?;
      var i :| 0 <= i < |s.log| && s.log[i].call == t;
      assert s.log[i] == Event(t, s.pcs[t].result);
    }
  }

  lemma StepGrowsLog(v: Variant, op: Op, s: State, t: nat)
    requires t < |s.pcs| && |s.mem.ranges| == |s.mem.heap| && Step(v, op, s, t).Some?
    ensures s.log <= Step(v, op, s, t).value.log
  {
    hide LinkRaw, Fill, Strcmp;
  }

  lemma {:induction false} LogOnlyGrows(v: Variant, ops: seq<Op>, early: seq<nat>, more: seq<nat>)
    requires Run(v, ops, early + more).Some?
    ensures Run(v, ops, early).Some?
    ensures Run(v, ops, early).value.log <= Run(v, ops, early + more).value.log
  {
    hide Step;
    if more == [] {
      assert early + more == early;
    } else {
      var last, all := |more| - 1, early + more;
      assert all[..|all| - 1] == early + more[..last];
      LogOnlyGrows(v, ops, early, more[..last]);
      var t := all[|all| - 1];
      StepGrowsLog(v, ops[t], Run(v, ops, early + more[..last]).value, t);
    }
  }

  /** Linearizability, second half: a call that returned before another one started
      took effect before it. */
  lemma RealTimeOrder(v: Variant, ops: seq<Op>, early: seq<nat>, more: seq<nat>, a: nat, b: nat, j: nat)
    requires Run(v, ops, early + more).Some? && a < |ops| && b < |ops|
    requires Run(v, ops, early).Some?
    requires Run(v, ops, early).value.pcs[a].Done? && Run(v, ops, early).value.pcs[b].Start?
    requires j < |Run(v, ops, early + more).value.log| && Run(v, ops, early + more).value.log[j].call == b
    ensures exists i :: 0 <= i < j && Run(v, ops, early + more).value.log[i].call == a
  {
    LogOnlyGrows(v, ops, early, more);
    Linearizable(v, ops, early);
    var s, s' := Run(v, ops, early).value, Run(v, ops, early + more).value;
    var i :| 0 <= i < |s.log| && s.log[i] == Event(a, s.pcs[a].result);
    assert s'.log[i] == s.log[i];
    forall x | 0 <= x < |s.log| ensures s'.log[x].call != b {
      assert s.log[x] in s.log;
    }
  }

  /** A call changes a link only while it holds the mutex of the link's owner. */
  lemma LinksChangeUnderMutex(v: Variant, ops: seq<Op>, schedule: seq<nat>, t: nat, slot: Slot)
    requires Run(v, ops, schedule).Some? && t < |ops|
    requires Step(v, ops[t], Run(v, ops, schedule).value, t).Some?
    requires ValidSlot(Run(v, ops, schedule).value.mem, slot)
    ensures var s := Run(v, ops, schedule).value; var s' := Step(v, ops[t], s, t).value;
      && ValidSlot(s'.mem, slot)
      && (Link(s'.mem, slot) == Link(s.mem, slot)
          || (Link(s.mem, slot).None? && SlotMutex(slot) in s.owner && s.owner[SlotMutex(slot)] == t))
  {
    hide Run, Inv, Step, Link, ValidSlot;
    RunKeepsInv(v, ops, schedule);
    StepChangesLink(v, ops, Run(v, ops, schedule).value, t, slot);
  }

  lemma StepChangesLink(v: Variant, ops: seq<Op>, s: State, t: nat, slot: Slot)
    requires Inv(v, ops, s) && t < |ops| && |s.mem.ranges| == |s.mem.heap|
    requires Step(v, ops[t], s, t).Some? && ValidSlot(s.mem, slot)
    ensures var s' := Step(v, ops[t], s, t).value;
      && ValidSlot(s'.mem, slot)
      && (Link(s'.mem, slot) == Link(s.mem, slot)
          || (Link(s.mem, slot).None? && SlotMutex(slot) in s.owner && s.owner[SlotMutex(slot)] == t))
  {
    InvAt(v, ops, s, t);
    hide Inv, LocksOk, RawOk;
    if s.pcs[t].AtSlot? {
      AtSlotFacts(v, ops, s, t);
      hide LinksOk, PcOk, LinkRaw, ValidSlot, Link;
      if Link(s.mem, s.pcs[t].slot).None? {
        LinkRawSlots(s.mem, s.pcs[t].slot, slot);
      }
    } else if s.pcs[t].Filling? {
      FillChangesNoLink(v, ops[t], s, t, slot);
    }
    hide LinksOk, PcOk, LinkRaw, Fill, ValidSlot, Link, Strcmp;
  }

  lemma FillChangesNoLink(v: Variant, op: Op, s: State, t: nat, slot: Slot)
    requires LinksOk(s.mem) && t < |s.pcs| && s.pcs[t].Filling? && PcOk(v, op, s.mem, s.pcs[t])
    requires Step(v, op, s, t).Some? && ValidSlot(s.mem, slot)
    ensures var s' := Step(v, op, s, t).value; ValidSlot(s'.mem, slot) && Link(s'.mem, slot) == Link(s.mem, slot)
  {
    FillSlots(s.mem, s.pcs[t].slot, s.pcs[t].node, op.key, op.value, slot);
    hide LinksOk, Fill, ValidSlot, Link;
  }

  /** A call holds at most two mutexes, and two only for a slot and the node in it. */
  lemma AtMostParentAndChild(v: Variant, ops: seq<Op>, schedule: seq<nat>, t: nat, m: Mutex, m': Mutex)
    requires Run(v, ops, schedule).Some? && t < |ops| && m != m'
    requires var s := Run(v, ops, schedule).value;
      m in s.owner && s.owner[m] == t && m' in s.owner && s.owner[m'] == t
    ensures var s := Run(v, ops, schedule).value;
      && s.pcs[t].Coupled? && ValidSlot(s.mem, s.pcs[t].slot)
      && {m, m'} == {SlotMutex(s.pcs[t].slot), NodeMtx(s.pcs[t].node)}
      && Link(s.mem, s.pcs[t].slot) == Some(s.pcs[t].node)
  {
    hide Run, Inv, LocksOk, RawOk, LinksOk;
    RunKeepsInv(v, ops, schedule);
    var s := Run(v, ops, schedule).value;
    InvAt(v, ops, s, t);
    OwnerHolds(s.owner, s.pcs, m);
    OwnerHolds(s.owner, s.pcs, m');
  }

  /** A call that waits for a mutex waits for the tree's, holding nothing, or for that of the child
      which the link under the mutex it holds leads to. */
  lemma WaitsOnlyForChild(v: Variant, ops: seq<Op>, schedule: seq<nat>, t: nat)
    requires Run(v, ops, schedule).Some? && t < |ops|
    ensures var s := Run(v, ops, schedule).value; var pc := s.pcs[t];
      && (pc.Waiting? ==>
            && ValidSlot(s.mem, pc.slot) && Link(s.mem, pc.slot) == Some(pc.node)
            && SlotMutex(pc.slot) in s.owner && s.owner[SlotMutex(pc.slot)] == t)
      && (!pc.Waiting? && Step(v, ops[t], s, t).None? && !s.dead && !pc.Done? ==>
            pc.Start? && forall m :: m in s.owner ==> s.owner[m] != t)
  {
    hide Run, Inv, LinksOk, LocksOk, RawOk;
    RunKeepsInv(v, ops, schedule);
    var s := Run(v, ops, schedule).value;
    InvAt(v, ops, s, t);
    if s.pcs[t].Waiting? {
      HolderOwns(s.owner, s.pcs, t, SlotMutex(s.pcs[t].slot));
    } else if Step(v, ops[t], s, t).None? && !s.dead && !s.pcs[t].Done? {
      BlockedAtStart(v, ops, s, t);
    }
  }

  lemma BlockedAtStart(v: Variant, ops: seq<Op>, s: State, t: nat)
    requires Inv(v, ops, s) && t < |ops| && !s.dead && !s.pcs[t].Done? && !s.pcs[t].Waiting?
    requires |s.mem.ranges| == |s.mem.heap| && Step(v, ops[t], s, t).None?
    ensures s.pcs[t].Start? && forall m :: m in s.owner ==> s.owner[m] != t
  {
    InvParts(v, ops, s);
    hide Inv, Step;
    if !s.pcs[t].Start? {
      OnlyLocksBlock(v, ops, s, t);
    }
    forall m | m in s.owner ensures s.owner[m] != t {
      OwnerHolds(s.owner, s.pcs, m);
    }
  }

  // ---------- main results: progress and termination ----------

  ghost predicate CanStep(v: Variant, ops: seq<Op>, s: State, t: nat)
    requires |s.pcs| == |ops| && |s.mem.ranges| == |s.mem.heap|
  {
    t < |ops| && Step(v, ops[t], s, t).Some?
  }

  /** Only a call that waits for a mutex can be blocked. */
  lemma OnlyLocksBlock(v: Variant, ops: seq<Op>, s: State, t: nat)
    requires Inv(v, ops, s) && t < |ops| && !s.dead && !s.pcs[t].Done?
    requires s.pcs[t].Start? ==> TreeMtx !in s.owner
    requires s.pcs[t].Waiting? ==> NodeMtx(s.pcs[t].node) !in s.owner
    ensures CanStep(v, ops, s, t)
  {
    assert PcOk(v, ops[t], s.mem, s.pcs[t]);
  }

  ghost predicate NoneKept(s: State) {
    forall t :: 0 <= t < |s.pcs| && s.pcs[t].Done? ==> s.pcs[t].kept == {}
  }

  lemma WaitsForYounger(v: Variant, op: Op, m: Memory, pc: Pc, n: nat)
    requires LinksOk(m) && PcOk(v, op, m, pc) && pc.Waiting? && NodeMtx(n) in Holds(pc)
    ensures n < pc.node < |m.heap|
  {
  }

  lemma HolderIsActive(s: State, t: nat)
    requires NoneKept(s) && t < |s.pcs| && Holds(s.pcs[t]) != {}
    ensures !s.pcs[t].Start? && !s.pcs[t].Done?
  {
  }

  /** The owner of a mutex waits, if at all, for a younger node's: following the
      waiting calls downwards ends at one that can step. */
  lemma {:induction false} OwnerLeadsToStep(v: Variant, ops: seq<Op>, s: State, t: nat) returns (u: nat)
    requires Inv(v, ops, s) && !s.dead && NoneKept(s)
    requires t < |ops| && Holds(s.pcs[t]) != {}
    ensures CanStep(v, ops, s, u)
    decreases if s.pcs[t].Waiting? then |s.mem.heap| - s.pcs[t].node else |s.mem.heap| + 1
  {
    hide Inv, LinksOk, RawOk, PcOk, LocksOk, Holds, NoneKept, CanStep;
    InvAt(v, ops, s, t);
    HolderIsActive(s, t);
    if s.pcs[t].Waiting? && NodeMtx(s.pcs[t].node) in s.owner {
      var n := s.pcs[t].node;
      var w := s.owner[NodeMtx(n)];
      OwnerHolds(s.owner, s.pcs, NodeMtx(n));
      InvAt(v, ops, s, w);
      HolderIsActive(s, w);
      if s.pcs[w].Waiting? {
        WaitsForYounger(v, ops[w], s.mem, s.pcs[w], n);
        u := OwnerLeadsToStep(v, ops, s, w);
      } else {
        OnlyLocksBlock(v, ops, s, w);
        u := w;
      }
    } else {
      OnlyLocksBlock(v, ops, s, t);
      u := t;
    }
  }

  /** No deadlock: unless a returned call kept a mutex, an unfinished call means a step. */
  lemma SomeCallCanStep(v: Variant, ops: seq<Op>, s: State, t: nat) returns (u: nat)
    requires Inv(v, ops, s) && !s.dead && NoneKept(s)
    requires t < |ops| && !s.pcs[t].Done?
    ensures CanStep(v, ops, s, u)
  {
    if s.pcs[t].Start? && TreeMtx in s.owner {
      u := OwnerLeadsToStep(v, ops, s, s.owner[TreeMtx]);
    } else if Holds(s.pcs[t]) != {} {
      u := OwnerLeadsToStep(v, ops, s, t);
    } else {
      OnlyLocksBlock(v, ops, s, t);
      u := t;
    }
  }

  lemma RepairedKeepsNothing(ops: seq<Op>, s: State)
    requires Inv(Repaired, ops, s)
    ensures !s.dead && NoneKept(s) && LocksOk(s.owner, s.pcs) && |s.pcs| == |ops|
  {
    forall t | 0 <= t < |ops| ensures PcOk(Repaired, ops[t], s.mem, s.pcs[t]) {}
  }

  /** With the duplicate path unlocking, no reachable state is stuck before all calls have
      returned, and then every mutex is free. */
  lemma RepairedNeverDeadlocks(ops: seq<Op>, schedule: seq<nat>)
    requires Run(Repaired, ops, schedule).Some?
    ensures var s := Run(Repaired, ops, schedule).value;
      if forall t :: 0 <= t < |ops| ==> s.pcs[t].Done? then s.owner == map[]
      else exists u :: CanStep(Repaired, ops, s, u)
  {
    hide Inv, Run, NoneKept, LocksOk, CanStep;
    RunKeepsInv(Repaired, ops, schedule);
    var s := Run(Repaired, ops, schedule).value;
    RepairedKeepsNothing(ops, s);
    if t :| 0 <= t < |ops| && !s.pcs[t].Done? {
      var u := SomeCallCanStep(Repaired, ops, s, t);
    } else {
      NothingHeld(s);
    }
  }

  lemma NothingHeld(s: State)
    requires LocksOk(s.owner, s.pcs) && NoneKept(s)
    requires forall t :: 0 <= t < |s.pcs| ==> s.pcs[t].Done?
    ensures s.owner == map[]
  {
    assert forall t :: 0 <= t < |s.pcs| ==> Holds(s.pcs[t]) == {};
    assert s.owner.Keys == {};
  }

  /** How many steps a call can still make in a tree of at most N nodes. */
  ghost function StepsLeft(N: nat, pc: Pc): int {
    match pc
    case Start => 4 * N + 5
    case AtSlot(slot) => if slot.RootSlot? then 4 * N + 4 else 4 * (N - slot.owner)
    case Waiting(_, n) => 4 * (N - n) + 3
    case Coupled(_, n) => 4 * (N - n) + 2
    case AtNode(_, n) => 4 * (N - n) + 1
    case Hit(_, _) => 3
    case Filling(_, _) => 3
    case Leaving(_, _) => 2
    case Doomed => 1
    case Done(_, _) => 0
  }

  ghost function TotalLeft(N: nat, pcs: seq<Pc>): int {
    if pcs == [] then 0 else StepsLeft(N, pcs[0]) + TotalLeft(N, pcs[1..])
  }

  lemma {:induction false} TotalLeftUpdate(N: nat, pcs: seq<Pc>, t: nat, pc: Pc)
    requires t < |pcs|
    ensures TotalLeft(N, pcs[t := pc]) == TotalLeft(N, pcs) - StepsLeft(N, pcs[t]) + StepsLeft(N, pc)
  {
    if t == 0 {
      assert pcs[t := pc][1..] == pcs[1..];
    } else {
      assert pcs[t := pc][1..] == pcs[1..][t - 1 := pc];
      TotalLeftUpdate(N, pcs[1..], t - 1, pc);
    }
  }

  /** Each call adds at most one node. */
  ghost function Creators(pcs: seq<Pc>): int {
    if pcs == [] then 0
    else (if pcs[0].Filling? || Outcome(pcs[0]) == Some(Added) then 1 else 0) + Creators(pcs[1..])
  }

  lemma {:induction false} CreatorsUpdate(pcs: seq<Pc>, t: nat, pc: Pc)
    requires t < |pcs|
    ensures 0 <= Creators(pcs) <= |pcs|
    ensures Creators(pcs[t := pc]) == Creators(pcs)
      - (if pcs[t].Filling? || Outcome(pcs[t]) == Some(Added) then 1 else 0)
      + (if pc.Filling? || Outcome(pc) == Some(Added) then 1 else 0)
  {
    CreatorsBound(pcs);
    if t == 0 {
      assert pcs[t := pc][1..] == pcs[1..];
    } else {
      assert pcs[t := pc][1..] == pcs[1..][t - 1 := pc];
      CreatorsUpdate(pcs[1..], t - 1, pc);
    }
  }

  lemma {:induction false} CreatorsBound(pcs: seq<Pc>)
    ensures 0 <= Creators(pcs) <= |pcs|
  {
    if pcs != [] {
      CreatorsBound(pcs[1..]);
    }
  }

  /** The heap never has more nodes than calls. */
  lemma {:induction false} HeapIsBounded(v: Variant, ops: seq<Op>, schedule: seq<nat>)
    requires Run(v, ops, schedule).Some?
    ensures var s := Run(v, ops, schedule).value;
      |s.mem.heap| == Creators(s.pcs) <= |ops|
  {
    if schedule == [] {
      NoCreators(seq(|ops|, _ => Start));
    } else {
      HeapIsBounded(v, ops, schedule[..|schedule| - 1]);
      RunKeepsInv(v, ops, schedule[..|schedule| - 1]);
      var s, t := Run(v, ops, schedule[..|schedule| - 1]).value, schedule[|schedule| - 1];
      StepCreates(v, ops[t], s, t);
    }
    CreatorsBound(Run(v, ops, schedule).value.pcs);
  }

  lemma {:induction false} NoCreators(pcs: seq<Pc>)
    requires forall i :: 0 <= i < |pcs| ==> pcs[i] == Start
    ensures Creators(pcs) == 0
  {
    if pcs != [] {
      NoCreators(pcs[1..]);
    }
  }

  /** Where a step takes a call from pc. */
  ghost predicate Follows(m: Memory, pc: Pc, pc': Pc) {
    match pc
    case Start => pc' == AtSlot(RootSlot)
    case AtSlot(slot) =>
      && (slot.RootSlot? || slot.owner < |m.heap|)
      && ((pc'.Waiting? && pc'.node < |m.heap| && (slot.RootSlot? || slot.owner < pc'.node))
          || pc'.Filling? || (pc'.Leaving? && pc'.result.Missing?))
    case Waiting(_, n) => n < |m.heap| && pc'.Coupled? && pc'.node == n
    case Coupled(_, n) => n < |m.heap| && pc'.AtNode? && pc'.node == n
    case AtNode(_, n) =>
      && n < |m.heap|
      && ((pc'.AtSlot? && !pc'.slot.RootSlot? && pc'.slot.owner == n) || pc'.Hit?
          || ((pc'.Leaving? || pc'.Done?) && pc'.result.Duplicate?))
    case Hit(_, _) => pc'.Leaving? && pc'.result.Found?
    case Filling(_, _) => pc'.Leaving? && pc'.result.Added?
    case Leaving(_, r) => (pc'.Done? && pc'.result == r) || (pc'.Doomed? && r.Missing?)
    case Doomed => pc' == Doomed
    case Done(_, _) => false
  }

  lemma StepFollows(v: Variant, op: Op, s: State, t: nat)
    requires t < |s.pcs| && LinksOk(s.mem) && PcOk(v, op, s.mem, s.pcs[t]) && Step(v, op, s, t).Some?
    ensures var s' := Step(v, op, s, t).value;
      && |s'.pcs| == |s.pcs| && s'.pcs == s.pcs[t := s'.pcs[t]]
      && Follows(s.mem, s.pcs[t], s'.pcs[t])
      && |s'.mem.heap| == |s.mem.heap| + (if s'.pcs[t].Filling? then 1 else 0)
  {
  }

  lemma StepCreates(v: Variant, op: Op, s: State, t: nat)
    requires t < |s.pcs| && LinksOk(s.mem) && PcOk(v, op, s.mem, s.pcs[t]) && Step(v, op, s, t).Some?
    ensures var s' := Step(v, op, s, t).value;
      |s'.pcs| == |s.pcs| && |s'.mem.heap| - |s.mem.heap| == Creators(s'.pcs) - Creators(s.pcs)
  {
    StepFollows(v, op, s, t);
    hide Step, PcOk, LinksOk;
    CreatorsUpdate(s.pcs, t, Step(v, op, s, t).value.pcs[t]);
  }

  /** Every step but the fatal one uses up at least one of the steps left. */
  lemma StepUsesUp(v: Variant, op: Op, s: State, t: nat, N: nat)
    requires t < |s.pcs| && LinksOk(s.mem) && PcOk(v, op, s.mem, s.pcs[t]) && Step(v, op, s, t).Some?
    requires s.pcs[t] != Doomed && |s.mem.heap| <= N
    ensures TotalLeft(N, Step(v, op, s, t).value.pcs) < TotalLeft(N, s.pcs)
  {
    StepFollows(v, op, s, t);
    hide Step, PcOk, LinksOk;
    TotalLeftUpdate(N, s.pcs, t, Step(v, op, s, t).value.pcs[t]);
  }

  lemma {:induction false} TotalLeftBounds(N: nat, pcs: seq<Pc>, most: nat)
    requires forall i :: 0 <= i < |pcs| ==> 0 <= StepsLeft(N, pcs[i]) <= most
    ensures 0 <= TotalLeft(N, pcs) <= |pcs| * most
  {
    if pcs != [] {
      hide StepsLeft;
      TotalLeftBounds(N, pcs[1..], most);
      assert |pcs| * most == most + |pcs[1..]| * most;
    }
  }

  lemma {:induction false} StepsAreCounted(v: Variant, ops: seq<Op>, schedule: seq<nat>)
    requires Run(v, ops, schedule).Some?
    ensures var s := Run(v, ops, schedule).value;
            |schedule| + TotalLeft(|ops|, s.pcs) <= |ops| * (4 * |ops| + 5) + if s.dead then 1 else 0
  {
    if schedule == [] {
      TotalLeftBounds(|ops|, seq(|ops|, _ => Start), 4 * |ops| + 5);
    } else {
      var before, t := schedule[..|schedule| - 1], schedule[|schedule| - 1];
      StepsAreCounted(v, ops, before);
      RunKeepsInv(v, ops, before);
      HeapIsBounded(v, ops, before);
      var s := Run(v, ops, before).value;
      InvAt(v, ops, s, t);
      StepCounts(v, ops[t], s, t, |ops|);
      hide Inv, Step, PcOk, LinksOk, TotalLeft;
    }
  }

  /** The fatal step comes once, and last. */
  lemma StepCounts(v: Variant, op: Op, s: State, t: nat, N: nat)
    requires t < |s.pcs| && LinksOk(s.mem) && PcOk(v, op, s.mem, s.pcs[t]) && Step(v, op, s, t).Some?
    requires |s.mem.heap| <= N
    ensures var s' := Step(v, op, s, t).value;
            !s.dead && TotalLeft(N, s'.pcs) + 1 <= TotalLeft(N, s.pcs) + if s'.dead then 1 else 0
  {
    if s.pcs[t].Doomed? {
      hide TotalLeft, LinksOk;
    } else {
      StepUsesUp(v, op, s, t, N);
      hide TotalLeft, LinksOk;
    }
  }

  /** Every run ends, whatever the scheduler does: n calls make at most n(4n + 5) steps, and the
      code as written one more, which kills the process. */
  lemma RunsEnd(v: Variant, ops: seq<Op>, schedule: seq<nat>)
    requires Run(v, ops, schedule).Some?
    ensures |schedule| <= |ops| * (4 * |ops| + 5) + if v.AsWritten? then 1 else 0
  {
    StepsAreCounted(v, ops, schedule);
    StepsLeftNonNegative(v, ops, schedule);
    RunKeepsInv(v, ops, schedule);
    hide Run, TotalLeft;
  }

  lemma StepsLeftNonNegative(v: Variant, ops: seq<Op>, schedule: seq<nat>)
    requires Run(v, ops, schedule).Some?
    ensures 0 <= TotalLeft(|ops|, Run(v, ops, schedule).value.pcs)
  {
    RunKeepsInv(v, ops, schedule);
    HeapIsBounded(v, ops, schedule);
    var s := Run(v, ops, schedule).value;
    forall t | 0 <= t < |s.pcs| ensures 0 <= StepsLeft(|ops|, s.pcs[t]) <= 4 * |ops| + 5 {
      PcStepsLeft(v, ops[t], s.mem, s.pcs[t], |ops|);
    }
    TotalLeftBounds(|ops|, s.pcs, 4 * |ops| + 5);
  }

  lemma PcStepsLeft(v: Variant, op: Op, m: Memory, pc: Pc, N: nat)
    requires |m.ranges| == |m.heap| <= N && PcOk(v, op, m, pc)
    ensures 0 <= StepsLeft(N, pc) <= 4 * N + 5
  {
  }

  // ---------- main results: what the code as written does ----------

  /** What a call that missed can be doing, given whether the map was empty when it did. */
  ghost predicate MissPc(v: Variant, pc: Pc, empty: bool) {
    match pc
    case Leaving(m, _) => m == TreeMtx <==> empty
    case Doomed => !empty
    case Done(_, _) => v.AsWritten? ==> empty
    case _ => true
  }

  ghost predicate MissOk(v: Variant, ops: seq<Op>, s: State) {
    && (s.dead ==> exists t :: 0 <= t < |s.pcs| && s.pcs[t].Doomed?)
    && (forall i :: 0 <= i < |s.log| && s.log[i].result.Missing? && s.log[i].call < |s.pcs| ==>
          MissPc(v, s.pcs[s.log[i].call], Replay(ops, s.log[..i]) == map[]))
  }

  /** The root link is NULL exactly when the map is empty. */
  lemma EmptyLinkAtRoot(m: Memory, b: map<Key, Value>, slot: Slot)
    requires TreeOk(m, b) && ValidSlot(m, slot) && Link(m, slot).None?
    ensures slot.RootSlot? <==> b == map[]
  {
    if slot.RootSlot? {
      assert Open(m, slot);
      assert forall k: Key :: InRange(k, SlotRange(m, slot));
      assert b.Keys == {};
    } else {
      assert m.heap[slot.owner].key in b;
    }
  }

  lemma StepLogs(v: Variant, op: Op, s: State, t: nat)
    requires t < |s.pcs| && LinksOk(s.mem) && PcOk(v, op, s.mem, s.pcs[t]) && Step(v, op, s, t).Some?
    ensures var s' := Step(v, op, s, t).value; var pc := s.pcs[t];
      && |s'.pcs| == |s.pcs| && s'.pcs == s.pcs[t := s'.pcs[t]]
      && s'.log == (if Outcome(pc).None? && Outcome(s'.pcs[t]).Some? then s.log + [Event(t, Outcome(s'.pcs[t]).value)]
                    else s.log)
      && (Outcome(pc).None? && Outcome(s'.pcs[t]) == Some(Missing) ==>
          && pc.AtSlot? && ValidSlot(s.mem, pc.slot) && Link(s.mem, pc.slot).None?
          && s'.pcs[t] == Leaving(SlotMutex(pc.slot), Missing))
      && (pc.Leaving? ==>
            s'.pcs[t] == if v.AsWritten? && pc.result.Missing? && pc.mutex != TreeMtx then Doomed
                         else Done(pc.result, {}))
      && (Outcome(pc).Some? && !pc.Leaving? ==> s'.pcs[t] == pc)
      && (s'.dead ==> s'.pcs[t].Doomed?)
  {
  }

  lemma OldMissKept(v: Variant, ops: seq<Op>, s: State, t: nat, i: nat)
    requires Inv(v, ops, s) && MissOk(v, ops, s) && t < |ops| && Step(v, ops[t], s, t).Some?
    requires i < |s.log| && s.log[i].result.Missing?
    ensures var s' := Step(v, ops[t], s, t).value;
            s.log[i].call < |s'.pcs| && MissPc(v, s'.pcs[s.log[i].call], Replay(ops, s.log[..i]) == map[])
  {
    assert LinksOk(s.mem) && PcOk(v, ops[t], s.mem, s.pcs[t]);
    assert Outcome(s.pcs[s.log[i].call]) == Some(s.log[i].result);
    hide Step, PcOk, RawOk, LocksOk, TreeOk, LinksOk, LogOk, Replay;
    StepLogs(v, ops[t], s, t);
  }

  lemma NewMissIsRight(v: Variant, ops: seq<Op>, s: State, t: nat)
    requires Inv(v, ops, s) && t < |ops| && Step(v, ops[t], s, t).Some?
    ensures var s' := Step(v, ops[t], s, t).value;
            s'.log == s.log || (|s'.log| == |s.log| + 1 && s'.log[..|s.log|] == s.log && s'.log[|s.log|].call == t
              && (s'.log[|s.log|].result.Missing? ==> MissPc(v, s'.pcs[t], Replay(ops, s.log) == map[])))
  {
    assert LinksOk(s.mem) && PcOk(v, ops[t], s.mem, s.pcs[t]);
    hide Step, PcOk, RawOk, LocksOk, TreeOk, LinksOk, LogOk, Replay;
    StepLogs(v, ops[t], s, t);
    var s' := Step(v, ops[t], s, t).value;
    if s'.log != s.log && s'.log[|s.log|].result.Missing? {
      EmptyLinkAtRoot(s.mem, Replay(ops, s.log), s.pcs[t].slot);
    }
  }

  lemma StepKeepsMissOk(v: Variant, ops: seq<Op>, s: State, t: nat)
    requires Inv(v, ops, s) && MissOk(v, ops, s) && t < |ops| && Step(v, ops[t], s, t).Some?
    ensures MissOk(v, ops, Step(v, ops[t], s, t).value)
  {
    hide Inv, Step, PcOk, LinksOk, LocksOk, RawOk, MissPc, Replay, Outcome;
    InvAt(v, ops, s, t);
    DeadMeansDoomed(v, ops[t], s, t);
    NewMissIsRight(v, ops, s, t);
    var s' := Step(v, ops[t], s, t).value;
    forall i | 0 <= i < |s'.log| && s'.log[i].result.Missing? && s'.log[i].call < |s'.pcs|
      ensures MissPc(v, s'.pcs[s'.log[i].call], Replay(ops, s'.log[..i]) == map[])
    {
      if i < |s.log| {
        assert s'.log[..i] == s.log[..i] && s'.log[i] == s.log[i];
        OldMissKept(v, ops, s, t, i);
      }
    }
  }

  lemma DeadMeansDoomed(v: Variant, op: Op, s: State, t: nat)
    requires t < |s.pcs| && LinksOk(s.mem) && PcOk(v, op, s.mem, s.pcs[t]) && Step(v, op, s, t).Some?
    ensures var s' := Step(v, op, s, t).value; |s'.pcs| == |s.pcs| && (s'.dead ==> s'.pcs[t].Doomed?)
  {
    StepLogs(v, op, s, t);
    hide Step, LinksOk, PcOk;
  }

  lemma {:induction false} RunKeepsMissOk(v: Variant, ops: seq<Op>, schedule: seq<nat>)
    requires Run(v, ops, schedule).Some?
    ensures MissOk(v, ops, Run(v, ops, schedule).value)
  {
    if schedule != [] {
      var before := schedule[..|schedule| - 1];
      RunKeepsMissOk(v, ops, before);
      RunKeepsInv(v, ops, before);
      StepKeepsMissOk(v, ops, Run(v, ops, before).value, schedule[|schedule| - 1]);
    }
  }

  /** The calls that the code as written serves: an add of an absent key, and a lookup that
      finds its key or meets an empty tree. */
  predicate Served(b: map<Key, Value>, op: Op) {
    match op
    case Add(k, _) => k !in b
    case Lookup(k) => k in b || b == map[]
  }

  ghost predicate AllServed(ops: seq<Op>, log: seq<Event>) {
    forall i :: 0 <= i < |log| && log[i].call < |ops| ==> Served(Replay(ops, log[..i]), ops[log[i].call])
  }

  /** A call that took effect under the guard neither crashes nor keeps a mutex. */
  lemma ServedCallIsClean(b: map<Key, Value>, op: Op, r: Result, m: Memory, pc: Pc)
    requires |m.ranges| == |m.heap| && PcOk(AsWritten, op, m, pc)
    requires Outcome(pc) == Some(r) && r == Effect(b, op).1 && Served(b, op)
    requires r.Missing? ==> MissPc(AsWritten, pc, b == map[])
    ensures !pc.Doomed? && (pc.Done? ==> pc.kept == {})
  {
  }

  lemma ServedRunsStayClean(ops: seq<Op>, s: State)
    requires Inv(AsWritten, ops, s) && MissOk(AsWritten, ops, s) && AllServed(ops, s.log)
    ensures !s.dead && NoneKept(s)
  {
    assert LinksOk(s.mem);
    hide TreeOk, LocksOk, RawOk, LinksOk, Replay, Effect, PcOk, Served, MissPc;
    forall t | 0 <= t < |ops| ensures !s.pcs[t].Doomed?
      ensures s.pcs[t].Done? ==> s.pcs[t].kept == {}
    {
      if Outcome(s.pcs[t]).Some? {
        var i :| 0 <= i < |s.log| && s.log[i].call == t;
        ServedCallIsClean(Replay(ops, s.log[..i]), ops[t], s.log[i].result, s.mem, s.pcs[t]);
      }
    }
  }

  /** A call that returned without keeping a mutex took effect under the guard. */
  lemma CleanCallWasServed(b: map<Key, Value>, op: Op, r: Result, m: Memory, pc: Pc)
    requires |m.ranges| == |m.heap| && PcOk(AsWritten, op, m, pc)
    requires pc == Done(r, {}) && r == Effect(b, op).1
    requires r.Missing? ==> MissPc(AsWritten, pc, b == map[])
    ensures Served(b, op)
  {
  }

  lemma ReturnedHoldsKept(s: State, t: nat)
    requires LocksOk(s.owner, s.pcs) && s.owner == map[] && t < |s.pcs| && s.pcs[t].Done?
    ensures s.pcs[t].kept == {}
  {
    assert forall m :: m in s.pcs[t].kept ==> m in Holds(s.pcs[t]) && m in s.owner;
  }

  lemma CleanRunsWereServed(ops: seq<Op>, s: State)
    requires Inv(AsWritten, ops, s) && MissOk(AsWritten, ops, s)
    requires s.owner == map[] && forall t :: 0 <= t < |ops| ==> s.pcs[t].Done?
    ensures AllServed(ops, s.log)
  {
    assert |s.mem.ranges| == |s.mem.heap|;
    hide TreeOk, RawOk, PcOk, Replay, Effect, LinksOk, LocksOk, Holds, MissPc;
    forall t | 0 <= t < |ops| ensures s.pcs[t].kept == {} && PcOk(AsWritten, ops[t], s.mem, s.pcs[t]) {
      InvAt(AsWritten, ops, s, t);
      ReturnedHoldsKept(s, t);
    }
    forall i | 0 <= i < |s.log| ensures Served(Replay(ops, s.log[..i]), ops[s.log[i].call]) {
      var t := s.log[i].call;
      CleanCallWasServed(Replay(ops, s.log[..i]), ops[t], s.log[i].result, s.mem, s.pcs[t]);
    }
  }

  ghost predicate AtRest(ops: seq<Op>, schedule: seq<nat>) {
    && Run(AsWritten, ops, schedule).Some?
    && forall t :: 0 <= t < |ops| ==> !CanStep(AsWritten, ops, Run(AsWritten, ops, schedule).value, t)
  }

  /** Every call has returned and every mutex is free. */
  ghost predicate EndedWell(s: State) {
    s.owner == map[] && forall t :: 0 <= t < |s.pcs| ==> s.pcs[t].Done?
  }

  /** As written, a run that has come to rest has ended well if and only if each call met the
      guard `Served` in the map it took effect on. */
  lemma AsWrittenEndsWellExactly(ops: seq<Op>, schedule: seq<nat>)
    requires AtRest(ops, schedule)
    ensures var s := Run(AsWritten, ops, schedule).value;
            Legal(ops, s.log) && (EndedWell(s) <==> AllServed(ops, s.log))
  {
    RunKeepsInv(AsWritten, ops, schedule);
    RunKeepsMissOk(AsWritten, ops, schedule);
    var s := Run(AsWritten, ops, schedule).value;
    if AllServed(ops, s.log) {
      ServedRunsStayClean(ops, s);
      forall t | 0 <= t < |ops| ensures s.pcs[t].Done? {
        if !s.pcs[t].Done? {
          var u := SomeCallCanStep(AsWritten, ops, s, t);
          assert false;
        }
      }
      NothingHeld(s);
    } else if EndedWell(s) {
      CleanRunsWereServed(ops, s);
      assert false;
    }
  }

  // ---------- which calls the code as written serves in every order ----------

  /** No key is added twice, and a key that is looked up is the only one that is added. */
  predicate Compatible(ops: seq<Op>) {
    && (forall i, j :: 0 <= i < j < |ops| && ops[i].Add? && ops[j].Add? ==> ops[i].key != ops[j].key)
    && (forall i, j :: 0 <= i < |ops| && 0 <= j < |ops| && ops[i].Lookup? && ops[j].Add? ==> ops[i].key == ops[j].key)
  }

  /** Where in the log the key was added. */
  lemma {:induction false} AddOf(ops: seq<Op>, log: seq<Event>, k: Key) returns (i: nat)
    requires k in Replay(ops, log)
    ensures i < |log| && log[i].call < |ops| && ops[log[i].call].Add? && ops[log[i].call].key == k
  {
    var before := log[..|log| - 1];
    if k in Replay(ops, before) {
      i := AddOf(ops, before, k);
    } else {
      i := |log| - 1;
    }
  }

  lemma {:induction false} AddedStays(ops: seq<Op>, log: seq<Event>, i: nat)
    requires i < |log| && log[i].call < |ops| && ops[log[i].call].Add?
    ensures ops[log[i].call].key in Replay(ops, log)
  {
    if i < |log| - 1 {
      AddedStays(ops, log[..|log| - 1], i);
    }
  }

  lemma CompatibleIsServed(ops: seq<Op>, log: seq<Event>)
    requires Compatible(ops) && OnceEach(log)
    ensures AllServed(ops, log)
  {
    hide Replay;
    forall i | 0 <= i < |log| && log[i].call < |ops| ensures Served(Replay(ops, log[..i]), ops[log[i].call]) {
      var b, op := Replay(ops, log[..i]), ops[log[i].call];
      if op.Add? && op.key in b {
        var j := AddOf(ops, log[..i], op.key);
        assert false;
      } else if op.Lookup? && b != map[] {
        assert b.Keys != {};
        var k :| k in b;
        var j := AddOf(ops, log[..i], k);
      }
    }
  }

  /** A run can be continued until it comes to rest. */
  lemma {:induction false} ComeToRest(ops: seq<Op>, schedule: seq<nat>) returns (more: seq<nat>)
    requires Run(AsWritten, ops, schedule).Some?
    ensures AtRest(ops, schedule + more)
    decreases |ops| * (4 * |ops| + 5) + 1 - |schedule|
  {
    hide Run, Step;
    RunsEnd(AsWritten, ops, schedule);
    if t :| 0 <= t < |ops| && CanStep(AsWritten, ops, Run(AsWritten, ops, schedule).value, t) {
      Extend(AsWritten, ops, schedule, t);
      RunsEnd(AsWritten, ops, schedule + [t]);
      more := ComeToRest(ops, schedule + [t]);
      assert schedule + ([t] + more) == schedule + [t] + more;
      more := [t] + more;
    } else {
      more := [];
      assert schedule + more == schedule;
    }
  }

  /** Of two adds of one key, the one that takes effect later is not served. */
  lemma SecondAddIsNotServed(ops: seq<Op>, s: State, i: nat, j: nat)
    requires Inv(AsWritten, ops, s) && EndedWell(s)
    requires i < j < |ops| && ops[i].Add? && ops[j].Add? && ops[i].key == ops[j].key
    ensures !AllServed(ops, s.log)
  {
    assert Logged(s.log, i) && Logged(s.log, j) && |s.pcs| == |ops|;
    hide Inv, Replay, Outcome, EndedWell;
    var a: nat, b: nat :| a < |s.log| && b < |s.log| && s.log[a].call == i && s.log[b].call == j;
    var x, y := if a < b then a else b, if a < b then b else a;
    LaterAddIsNotServed(ops, s.log, x, y);
  }

  lemma LaterAddIsNotServed(ops: seq<Op>, log: seq<Event>, x: nat, y: nat)
    requires x < y < |log| && log[x].call < |ops| && log[y].call < |ops|
    requires ops[log[x].call].Add? && ops[log[y].call].Add? && ops[log[x].call].key == ops[log[y].call].key
    ensures !AllServed(ops, log)
  {
    hide Replay;
    AddedStays(ops, log[..y], x);
    assert !Served(Replay(ops, log[..y]), ops[log[y].call]);
  }

  /** A lookup alone in the tree that an add of another key has left. */
  lemma LookupAfterAdd(ops: seq<Op>, i: nat, j: nat) returns (schedule: seq<nat>)
    requires i < |ops| && j < |ops| && ops[i].Lookup? && ops[j].Add? && ops[i].key != ops[j].key
    ensures Run(AsWritten, ops, schedule).Some?
    ensures Run(AsWritten, ops, schedule).value.log == [Event(j, Added), Event(i, Missing)]
  {
    hide Run, Strcmp;
    var s: State;
    schedule, s := OneAdd(ops, j);
    schedule, s := ReachRoot(ops, schedule, s, i);
    StrcmpIsRankOrder(ops[i].key, ops[j].key);
    schedule, s := Next(ops, schedule, s, i);
    schedule, s := Next(ops, schedule, s, i);
  }

  lemma MissIsNotServed(ops: seq<Op>, log: seq<Event>, i: nat, j: nat)
    requires i < |ops| && j < |ops| && ops[i].Lookup? && ops[j].Add? && ops[i].key != ops[j].key
    requires [Event(j, Added), Event(i, Missing)] <= log
    ensures !AllServed(ops, log)
  {
    assert log[..1] == [Event(j, Added)] && log[1] == Event(i, Missing);
    assert log[..1][..0] == [];
    assert Replay(ops, log[..1]) == map[ops[j].key := ops[j].value];
    assert !Served(Replay(ops, log[..1]), ops[log[1].call]);
  }

  /** As written, these calls end well in every order and interleaving if and only if no key is
      added twice and no key is looked up while another one is added. */
  lemma AlwaysEndsWellExactly(ops: seq<Op>)
    ensures (forall schedule :: AtRest(ops, schedule) ==> EndedWell(Run(AsWritten, ops, schedule).value)) <==>
            Compatible(ops)
  {
    hide Run, Inv, EndedWell, AllServed;
    if Compatible(ops) {
      forall schedule | AtRest(ops, schedule) ensures EndedWell(Run(AsWritten, ops, schedule).value) {
        RunKeepsOnce(ops, schedule);
        CompatibleIsServed(ops, Run(AsWritten, ops, schedule).value.log);
        AsWrittenEndsWellExactly(ops, schedule);
      }
    } else {
      var schedule := IncompatibleRun(ops);
    }
  }

  lemma RunKeepsOnce(ops: seq<Op>, schedule: seq<nat>)
    requires Run(AsWritten, ops, schedule).Some?
    ensures OnceEach(Run(AsWritten, ops, schedule).value.log)
  {
    hide Run;
    RunKeepsInv(AsWritten, ops, schedule);
  }

  lemma IncompatibleRun(ops: seq<Op>) returns (schedule: seq<nat>)
    requires !Compatible(ops)
    ensures AtRest(ops, schedule) && !EndedWell(Run(AsWritten, ops, schedule).value)
  {
    hide Run, Inv, EndedWell, AllServed;
    if i, j :| 0 <= i < |ops| && 0 <= j < |ops| && ops[i].Lookup? && ops[j].Add? && ops[i].key != ops[j].key {
      var early := LookupAfterAdd(ops, i, j);
      var more := ComeToRest(ops, early);
      schedule := early + more;
      LogOnlyGrows(AsWritten, ops, early, more);
      MissIsNotServed(ops, Run(AsWritten, ops, schedule).value.log, i, j);
    } else {
      var i, j :| 0 <= i < j < |ops| && ops[i].Add? && ops[j].Add? && ops[i].key == ops[j].key;
      NoSteps(ops);
      schedule := ComeToRest(ops, []);
      assert [] + schedule == schedule;
      RunKeepsInv(AsWritten, ops, schedule);
      if EndedWell(Run(AsWritten, ops, schedule).value) {
        SecondAddIsNotServed(ops, Run(AsWritten, ops, schedule).value, i, j);
      }
    }
    AsWrittenEndsWellExactly(ops, schedule);
  }

  lemma NoSteps(ops: seq<Op>)
    ensures Run(AsWritten, ops, []).Some?
  {
  }

  // Two runs of the code as written that do not end well.

  lemma Extend(v: Variant, ops: seq<Op>, schedule: seq<nat>, t: nat)
    requires Run(v, ops, schedule).Some? && t < |ops|
    ensures Run(v, ops, schedule + [t]) == Step(v, ops[t], Run(v, ops, schedule).value, t)
  {
    assert (schedule + [t])[..|schedule|] == schedule;
  }

  /** A call alone adds its key to the empty tree. */
  lemma OneAdd(ops: seq<Op>, t: nat) returns (schedule: seq<nat>, s: State)
    requires t < |ops| && ops[t].Add?
    ensures Run(AsWritten, ops, schedule) == Some(s) && !s.dead && s.owner == map[] && s.log == [Event(t, Added)]
    ensures s.mem == Memory([Built(ops[t].key, ops[t].value, None, None)], Some(0), [(-1.0, 1.0)])
    ensures s.pcs == seq(|ops|, _ => Start)[t := Done(Added, {})]
  {
    schedule, s := [], Initial(ops);
    schedule, s := Next(ops, schedule, s, t);
    schedule, s := Next(ops, schedule, s, t);
    schedule, s := Next(ops, schedule, s, t);
    schedule, s := Next(ops, schedule, s, t);
  }

  lemma Next(ops: seq<Op>, schedule: seq<nat>, s: State, t: nat) returns (schedule': seq<nat>, s': State)
    requires Run(AsWritten, ops, schedule) == Some(s) && t < |ops|
    requires Step(AsWritten, ops[t], s, t).Some?
    ensures Some(s') == Step(AsWritten, ops[t], s, t) && Run(AsWritten, ops, schedule') == Some(s')
  {
    Extend(AsWritten, ops, schedule, t);
    schedule', s' := schedule + [t], Step(AsWritten, ops[t], s, t).value;
  }

  /** A call locks its way to the root node of a tree that nobody uses. */
  lemma ReachRoot(ops: seq<Op>, schedule: seq<nat>, s: State, t: nat) returns (schedule': seq<nat>, s': State)
    requires Run(AsWritten, ops, schedule) == Some(s) && t < |ops| && s.pcs[t] == Start && !s.dead
    requires s.mem.root == Some(0) && |s.mem.heap| == |s.mem.ranges| > 0 && s.owner == map[]
    ensures Run(AsWritten, ops, schedule') == Some(s')
    ensures s' == s.(owner := map[NodeMtx(0) := t], pcs := s.pcs[t := AtNode(RootSlot, 0)])
  {
    schedule', s' := Next(ops, schedule, s, t);
    schedule', s' := Next(ops, schedule', s', t);
    assert s'.pcs[t] == Waiting(RootSlot, 0);
    schedule', s' := Next(ops, schedule', s', t);
    schedule', s' := Next(ops, schedule', s', t);
    assert map[TreeMtx := t, NodeMtx(0) := t] - {TreeMtx} == map[NodeMtx(0) := t];
  }

  lemma AddTwice(ops: seq<Op>) returns (schedule: seq<nat>, s: State)
    requires ops == [Add([], 1), Add([], 2), Lookup([])]
    ensures Run(AsWritten, ops, schedule) == Some(s) && !s.dead && s.owner == map[NodeMtx(0) := 1]
    ensures s.mem == Memory([Built([], 1, None, None)], Some(0), [(-1.0, 1.0)])
    ensures s.pcs == [Done(Added, {}), Done(Duplicate, {NodeMtx(0)}), Start]
  {
    hide Run;
    schedule, s := OneAdd(ops, 0);
    schedule, s := ReachRoot(ops, schedule, s, 1);
    schedule, s := Next(ops, schedule, s, 1);
  }

  /** Adding a key twice and then looking it up: the lookup waits for ever. */
  lemma DuplicateAddBlocksALookup() returns (ops: seq<Op>, schedule: seq<nat>)
    ensures ops == [Add([], 1), Add([], 2), Lookup([])]
    ensures Run(AsWritten, ops, schedule).Some?
    ensures var s := Run(AsWritten, ops, schedule).value;
      && s.pcs[1] == Done(Duplicate, {NodeMtx(0)}) && s.pcs[2] == Waiting(RootSlot, 0)
      && (forall t :: 0 <= t < 3 ==> !CanStep(AsWritten, ops, s, t))
  {
    ops := [Add([], 1), Add([], 2), Lookup([])];
    var s: State;
    schedule, s := AddTwice(ops);
    schedule, s := LookupWaits(ops, schedule, s);
    hide Run, Step;
    forall t | 0 <= t < 3 ensures !CanStep(AsWritten, ops, s, t) {
      StuckThere(ops[t], s, t);
    }
  }

  lemma LookupWaits(ops: seq<Op>, schedule: seq<nat>, s: State) returns (schedule': seq<nat>, s': State)
    requires |ops| == |s.pcs| == 3 && Run(AsWritten, ops, schedule) == Some(s) && !s.dead && s.pcs[2] == Start
    requires s.owner == map[NodeMtx(0) := 1] && s.mem.root == Some(0) && |s.mem.ranges| == |s.mem.heap|
    ensures Run(AsWritten, ops, schedule') == Some(s') && |s'.mem.ranges| == |s'.mem.heap|
    ensures s'.pcs == s.pcs[2 := Waiting(RootSlot, 0)] && NodeMtx(0) in s'.owner
  {
    hide Run;
    schedule', s' := Next(ops, schedule, s, 2);
    schedule', s' := Next(ops, schedule', s', 2);
  }

  lemma StuckThere(op: Op, s: State, t: nat)
    requires t < |s.pcs| && |s.mem.ranges| == |s.mem.heap|
    requires s.pcs[t].Done? || (s.pcs[t].Waiting? && NodeMtx(s.pcs[t].node) in s.owner)
    ensures Step(AsWritten, op, s, t).None?
  {
  }

  /** The lookup finds the root's right link empty, with the root's mutex in its hands. */
  lemma LookupMisses(ops: seq<Op>) returns (schedule: seq<nat>, s: State)
    requires ops == [Add([], 1), Lookup([7])]
    ensures Run(AsWritten, ops, schedule) == Some(s) && !s.dead && s.owner == map[NodeMtx(0) := 1]
    ensures s.pcs == [Done(Added, {}), Leaving(NodeMtx(0), Missing)] && |s.mem.ranges| == |s.mem.heap|
  {
    hide Run;
    schedule, s := OneAdd(ops, 0);
    schedule, s := ReachRoot(ops, schedule, s, 1);
    schedule, s := Next(ops, schedule, s, 1);
    schedule, s := Next(ops, schedule, s, 1);
  }

  /** Looking up a key that a non-empty tree does not have kills the process. */
  lemma MissedLookupCrashes() returns (ops: seq<Op>, schedule: seq<nat>)
    ensures ops == [Add([], 1), Lookup([7])]
    ensures Run(AsWritten, ops, schedule).Some? && Run(AsWritten, ops, schedule).value.dead
  {
    ops := [Add([], 1), Lookup([7])];
    var s: State;
    hide Run;
    schedule, s := LookupMisses(ops);
    schedule, s := Next(ops, schedule, s, 1);
    schedule, s := Next(ops, schedule, s, 1);
  }
}
