/**
  The concurrent hash map as a system of threads that take one atomic step at a time.

  Every shared load, store, lock operation and committed transaction of find, insert,
  erase, defragment and the on-demand rehash is one step of one thread, described by the
  thread's program counter. A crash may happen between any two steps.
 */
module MapState {
  import opened Wrappers
  import opened HashPath
  import opened ChainSplit

  type Value = int

  /** How an operation wants the item it finds: not at all, shared or exclusively. */
  datatype Item = NoItem | ReadItem | WriteItem

  datatype Op =
    | Find(key: nat, item: Item)
    | Insert(key: nat, val: Value, item: Item)
    | Erase(key: nat)
    // defragment, and the loop of rehash: acquires buckets hi, hi - 1, .., lo and keeps or drops each
    | Visit(lo: nat, hi: nat)

  datatype Pc =
    | Idle
    | LoadMask                      // about to load my_mask
    // bucket_accessor::acquire and rehash_bucket, for bucket i
    | ReadFlag(i: nat)              // about to load the rehashed flag
    | TryLock(i: nat)               // about to try the write lock
    | Recheck(i: nat)               // has the write lock, about to load the flag again
    | Block(i: nat)                 // in the blocking acquire
    | CheckChain(i: nat)            // about to test whether a crash left the new chain filled
    | Split(i: nat)                 // has i and its parent, about to run the transaction
    | SetFlag(i: nat, split: bool)  // about to store the flag; split: the parent is locked too
    | Persist(i: nat, split: bool)  // about to make the flag durable
    | DropParent(i: nat)            // about to unlock the parent
    // the operation, with bucket `base` locked
    | Search
    | LoadMaskAgain                 // check_mask_race
    | ReadNextFlag(j: nat)          // check_rehashing_collision
    | InsertTx
    | TryItem
    | DropItem                      // erase: about to unlock the item again
    | EraseTx
    | BumpSize                      // about to update my_size
    | UnlockAgain                   // about to unlock, then retry with the mask just loaded
    | UnlockReload                  // about to unlock, then reload the mask and retry
    | UnlockDone                    // about to unlock, then finish
    | Visited                       // bucket acquired by a visit
    | VisitDone                     // about to unlock everything the visit kept
    // check_growth
    | TrySegment | CheckMask | EnableTx | StoreMask | UnlockSegment
    | Return

  /** Inside bucket_accessor::acquire. */
  predicate Acquiring(pc: Pc)
  {
    pc.ReadFlag? || pc.TryLock? || pc.Recheck? || pc.Block? || pc.CheckChain? ||
    pc.Split? || pc.SetFlag? || pc.Persist? || pc.DropParent?
  }

  /** The operation has its bucket locked. */
  predicate HasBase(pc: Pc)
  {
    pc.Search? || pc.LoadMaskAgain? || pc.ReadNextFlag? || pc.InsertTx? || pc.TryItem? || pc.DropItem? ||
    pc.EraseTx? || pc.BumpSize? || pc.UnlockAgain? || pc.UnlockReload? || pc.UnlockDone? || pc.Visited?
  }

  predicate Growing(pc: Pc)
  {
    pc.CheckMask? || pc.EnableTx? || pc.StoreMask? || pc.UnlockSegment?
  }

  datatype Thread = Thread(
    pc: Pc,
    op: Op,
    hash: nat,             // hash of the key of op
    level: nat,            // number of bits of the mask the thread works with
    base: nat,             // the bucket the operation acquires
    stack: seq<nat>,       // buckets waiting for their parent, in the order of the recursion
    held: map<nat, bool>,  // bucket locks held; true: exclusively
    accs: map<nat, bool>,  // items locked through accessors, by address; true: exclusively
    found: nat,            // address of the node found or inserted
    inserted: bool,
    newSize: nat,
    result: bool)

  /** What the threads share about the table itself. */
  datatype Table = Table(
    hash: nat -> nat,
    level: nat,            // number of bits of my_mask
    enabled: nat,          // number of bits of the mask the allocated segments allow
    recovered: nat,        // level at the last restart
    flags: set<nat>,       // buckets with the rehashed flag set
    durable: set<nat>,     // ... and persisted
    chains: map<nat, seq<Node>>)

  datatype State = State(
    tab: Table,
    vals: map<nat, Value>, // value of each linked node
    segLock: Option<nat>,  // owner of my_segment_enable_mutex
    diffs: seq<int>,       // per-thread size_diff
    onInit: nat,           // on_init_size
    size: nat,             // my_size
    threads: seq<Thread>)

  datatype Action =
    | Invoke(t: nat, op: Op)
    | Run(t: nat)                   // the next step of thread t
    | Alloc(t: nat, id: nat)        // insert transaction, with the address allocated
    | GiveUp(t: nat)                // the item stayed locked during all attempts
    | Drop(t: nat)                  // a visit drops the bucket it has just acquired
    | Respond(t: nat)
    | Release(t: nat, id: nat)      // accessor::release
    | Load(t: nat, id: nat)         // read through an accessor
    | Assign(t: nat, id: nat, val: Value)  // assignment through an accessor
    | Clear
    | Crash(flags: set<nat>)        // and restart; flags: the stored flags that survive

  function Chain(tab: Table, i: nat): seq<Node>
  {
    if i in tab.chains then tab.chains[i] else []
  }

  function PutChain(tab: Table, i: nat, chain: seq<Node>): Table
  {
    tab.(chains := tab.chains[i := chain])
  }

  function IdleThread(): Thread
  {
    Thread(Idle, Visit(0, 0), 0, 0, 0, [], map[], map[], 0, false, 0, false)
  }

  function Word(x: int): nat
  {
    x % WORD
  }

  // ---------- locks ----------

  ghost predicate WriteFree(s: State, i: nat)
  {
    forall u :: 0 <= u < |s.threads| ==> i !in s.threads[u].held
  }

  ghost predicate ReadFree(s: State, i: nat)
  {
    forall u :: 0 <= u < |s.threads| && i in s.threads[u].held ==> !s.threads[u].held[i]
  }

  /** Whether the item lock can be taken: nobody, the thread itself included, is in the way. */
  ghost predicate ItemFree(s: State, id: nat, write: bool)
  {
    forall u :: 0 <= u < |s.threads| && id in s.threads[u].accs ==> !write && !s.threads[u].accs[id]
  }

  /** Buckets are locked exclusively, except by find once the bucket is rehashed. */
  predicate WantsWrite(th: Thread)
  {
    th.stack != [] || !th.op.Find?
  }

  predicate WantsItem(op: Op)
  {
    op.Erase? || ((op.Find? || op.Insert?) && !op.item.NoItem?)
  }

  predicate ItemWrite(op: Op)
  {
    op.Erase? || ((op.Find? || op.Insert?) && op.item.WriteItem?)
  }

  // ---------- the steps of one thread: its own record ----------

  /** acquire(i) returns: to the rehash of the child waiting for i, or to the operation. */
  function Resume(th: Thread): Thread
  {
    if th.stack == [] then th.(pc := if th.op.Visit? then Visited else Search)
    else th.(pc := Split(th.stack[|th.stack| - 1]), stack := th.stack[..|th.stack| - 1])
  }

  function Enter(th: Thread, b: nat): Thread
  {
    th.(pc := ReadFlag(b), base := b, stack := [])
  }

  function NextVisit(th: Thread): Thread
  {
    if th.op.Visit? && th.op.lo < th.base then Enter(th, th.base - 1) else th.(pc := VisitDone)
  }

  function Missed(th: Thread): Thread
  {
    if th.op.Insert? then th.(pc := InsertTx) else th.(pc := UnlockDone, result := false)
  }

  function Searched(th: Thread, hit: Option<nat>): Thread
  {
    match hit
    case None => th.(pc := LoadMaskAgain)
    case Some(id) =>
      if WantsItem(th.op) then th.(pc := TryItem, found := id)
      else th.(pc := UnlockDone, found := id, result := !th.op.Insert?)
  }

  function Reloaded(th: Thread, now: nat): Thread
    requires th.level <= now
  {
    if now == th.level then Missed(th)
    else if Masked(th.hash, th.level) == Masked(th.hash, now) then Missed(th.(level := now))
    else th.(pc := ReadNextFlag(Masked(th.hash, NextLevel(th.hash, th.level, now))), level := now)
  }

  function Unlocked(th: Thread): Thread
  {
    th.(held := th.held - {th.base})
  }

  function Grown(th: Thread): Pc
  {
    if th.op.Insert? && th.newSize >= Pow2(th.level) - 1 then TrySegment else Return
  }

  // ---------- the steps of one thread: whole state ----------

  function Put(s: State, t: nat, th: Thread): State
    requires t < |s.threads|
  {
    s.(threads := s.threads[t := th])
  }

  function Doing(s: State, t: nat, pc: Pc): State
    requires t < |s.threads|
  {
    Put(s, t, s.threads[t].(pc := pc))
  }

  ghost predicate RunEnabled(s: State, t: nat)
    requires t < |s.threads|
  {
    var th := s.threads[t];
    match th.pc
    case Block(i) => if WantsWrite(th) then WriteFree(s, i) else ReadFree(s, i)
    case TryItem => ItemFree(s, th.found, ItemWrite(th.op))
    case Idle => false
    case InsertTx => false
    case Return => false
    case Recheck(i) => i in s.tab.flags || i >= 2
    case CheckChain(i) => i >= 2
    case Split(i) => i >= 2
    case DropParent(i) => i >= 2
    case LoadMaskAgain => th.level <= s.tab.level
    case EraseTx => t < |s.diffs|
    case _ => true
  }

  ghost function RunThread(s: State, t: nat): State
    requires t < |s.threads| && RunEnabled(s, t)
  {
    if Acquiring(s.threads[t].pc) then RunAcquire(s, t)
    else if HasBase(s.threads[t].pc) then RunOperation(s, t)
    else RunOutside(s, t)
  }

  /** bucket_accessor::acquire and rehash_bucket. */
  ghost function RunAcquire(s: State, t: nat): State
    requires t < |s.threads| && RunEnabled(s, t) && Acquiring(s.threads[t].pc)
  {
    var th := s.threads[t];
    var tab := s.tab;
    match th.pc
    case ReadFlag(i) => Doing(s, t, if i in tab.flags then Block(i) else TryLock(i))
    case TryLock(i) =>
      if WriteFree(s, i) then Put(s, t, th.(pc := Recheck(i), held := th.held[i := true]))
      else Doing(s, t, Block(i))
    case Recheck(i) => Put(s, t, if i in tab.flags then Resume(th) else th.(pc := CheckChain(i)))
    case Block(i) => Put(s, t, Resume(th.(held := th.held[i := WantsWrite(th)])))
    case CheckChain(i) =>
      if Chain(tab, i) != [] then Doing(s, t, SetFlag(i, false))
      else Put(s, t, th.(pc := ReadFlag(Parent(i)), stack := th.stack + [i]))
    case Split(i) => Doing(s.(tab := SplitTable(tab, i)), t, SetFlag(i, true))
    case SetFlag(i, split) => Doing(s.(tab := tab.(flags := tab.flags + {i})), t, Persist(i, split))
    case Persist(i, split) =>
      Put(s.(tab := tab.(durable := tab.durable + {i})), t,
          if split then th.(pc := DropParent(i)) else Resume(th))
    case DropParent(i) => Put(s, t, Resume(th.(held := th.held - {Parent(i)})))
  }

  /** The body of internal_find, internal_insert and internal_erase, and of a visit. */
  ghost function RunOperation(s: State, t: nat): State
    requires t < |s.threads| && RunEnabled(s, t) && HasBase(s.threads[t].pc)
  {
    var th := s.threads[t];
    var tab := s.tab;
    match th.pc
    case Search =>
      Put(s, t, Searched(th, Lookup(Chain(tab, th.base), OpKey(th.op))))
    case LoadMaskAgain => Put(s, t, Reloaded(th, tab.level))
    case ReadNextFlag(j) => Put(s, t, if j in tab.flags then th.(pc := UnlockAgain) else Missed(th))
    case TryItem =>
      var locked := th.(accs := th.accs[th.found := ItemWrite(th.op)]);
      Put(s, t, if th.op.Erase? then locked.(pc := DropItem)
                else locked.(pc := UnlockDone, result := th.op.Find? || th.inserted))
    case DropItem => Put(s, t, th.(pc := EraseTx, accs := th.accs - {th.found}))
    case EraseTx =>
      Put(s.(tab := PutChain(tab, th.base, Without(Chain(tab, th.base), th.found)),
             vals := s.vals - {th.found},
             diffs := s.diffs[t := s.diffs[t] - 1]),
          t, th.(pc := BumpSize, result := true))
    case BumpSize =>
      var size := Word(if th.op.Insert? then s.size + 1 else s.size - 1);
      Put(s.(size := size), t,
          th.(pc := if th.op.Insert? && WantsItem(th.op) then TryItem else UnlockDone, newSize := size))
    case UnlockAgain => Put(s, t, Enter(Unlocked(th), Masked(th.hash, th.level)))
    case UnlockReload => Put(s, t, Unlocked(th).(pc := LoadMask))
    case UnlockDone => Put(s, t, Unlocked(th).(pc := Grown(th)))
    case Visited => Put(s, t, NextVisit(th))
    case _ => s
  }

  /** The start of an operation, the end of a visit, and check_growth. */
  ghost function RunOutside(s: State, t: nat): State
    requires t < |s.threads| && RunEnabled(s, t)
  {
    var th := s.threads[t];
    var tab := s.tab;
    match th.pc
    case LoadMask => Put(s, t, Enter(th.(level := tab.level), Masked(th.hash, tab.level)))
    case VisitDone => Put(s, t, th.(pc := Return, held := map[], result := true))
    case TrySegment =>
      if s.segLock.None? then Doing(s.(segLock := Some(t)), t, CheckMask) else Doing(s, t, Return)
    case CheckMask => Doing(s, t, if tab.level == th.level then EnableTx else UnlockSegment)
    case EnableTx => Doing(s.(tab := tab.(enabled := NextTable(th.level))), t, StoreMask)
    case StoreMask => Doing(s.(tab := tab.(level := NextTable(th.level))), t, UnlockSegment)
    case UnlockSegment => Doing(s.(segLock := None), t, Return)
    case _ => s
  }

  /** The transaction of rehash_bucket. */
  function SplitTable(tab: Table, i: nat): Table
    requires i >= 2
  {
    var p := Parent(i);
    PutChain(PutChain(tab, i, Moving(Chain(tab, p), i, tab.hash)), p, Staying(Chain(tab, p), i, tab.hash))
  }

  function OpKey(op: Op): nat
  {
    if op.Visit? then 0 else op.key
  }

  // ---------- the whole system ----------

  /** No node is linked at this address. */
  ghost predicate Unlinked(tab: Table, id: nat)
  {
    forall i: nat, n :: n in Chain(tab, i) ==> n.id != id
  }

  /** A thread must not call find, insert or erase for a key it holds an accessor to. */
  ghost predicate NoAccessorTo(tab: Table, th: Thread, key: nat)
  {
    forall i: nat, n :: n in Chain(tab, i) && n.id in th.accs ==> n.key != key
  }

  ghost predicate Quiescent(s: State)
  {
    forall u :: 0 <= u < |s.threads| ==> s.threads[u].pc == Idle && s.threads[u].accs == map[]
  }

  ghost predicate Enabled(s: State, a: Action)
  {
    match a
    case Invoke(t, op) =>
      t < |s.threads| && s.threads[t].pc == Idle &&
      (if op.Visit? then op.lo <= op.hi < Pow2(s.tab.level)
       else NoAccessorTo(s.tab, s.threads[t], op.key))
    case Run(t) => t < |s.threads| && RunEnabled(s, t)
    case Alloc(t, id) =>
      t < |s.threads| && t < |s.diffs| && s.threads[t].pc == InsertTx && s.threads[t].op.Insert? &&
      Unlinked(s.tab, id)
    case GiveUp(t) =>
      t < |s.threads| && s.threads[t].pc == TryItem &&
      !ItemFree(s, s.threads[t].found, ItemWrite(s.threads[t].op))
    case Drop(t) => t < |s.threads| && s.threads[t].pc == Visited
    case Respond(t) => t < |s.threads| && s.threads[t].pc == Return
    case Release(t, id) =>
      t < |s.threads| && s.threads[t].pc == Idle && id in s.threads[t].accs
    case Load(t, id) =>
      t < |s.threads| && s.threads[t].pc == Idle && id in s.threads[t].accs
    case Assign(t, id, _) =>
      t < |s.threads| && s.threads[t].pc == Idle && id in s.threads[t].accs && s.threads[t].accs[id]
    case Clear => Quiescent(s)
    case Crash(flags) => s.tab.durable <= flags <= s.tab.flags
  }

  function Start(tab: Table, th: Thread, op: Op): Thread
  {
    var begun := th.(op := op, inserted := false, newSize := 0);
    if op.Visit? then Enter(begun.(level := tab.level), op.hi)
    else begun.(pc := LoadMask, hash := tab.hash(op.key))
  }

  function Stopped(n: nat): (ths: seq<Thread>)
    ensures |ths| == n
    ensures forall u :: 0 <= u < n ==> ths[u] == IdleThread()
  {
    seq(n, _ => IdleThread())
  }

  function Zeros(n: nat): (zs: seq<int>)
    ensures |zs| == n
    ensures forall u :: 0 <= u < n ==> zs[u] == 0
  {
    seq(n, _ => 0)
  }

  function Sum(xs: seq<int>): int
  {
    if xs == [] then 0 else xs[0] + Sum(xs[1..])
  }

  ghost function Apply(s: State, a: Action): State
    requires Enabled(s, a)
  {
    match a
    case Invoke(t, op) => Put(s, t, Start(s.tab, s.threads[t], op))
    case Run(t) => RunThread(s, t)
    case Alloc(t, id) =>
      var th := s.threads[t];
      Put(s.(tab := PutChain(s.tab, th.base, [Node(id, th.op.key)] + Chain(s.tab, th.base)),
             vals := s.vals[id := th.op.val],
             diffs := s.diffs[t := s.diffs[t] + 1]),
          t, th.(pc := BumpSize, found := id, inserted := true, result := true))
    case GiveUp(t) => Doing(s, t, UnlockReload)
    case Drop(t) => Put(s, t, NextVisit(Unlocked(s.threads[t])))
    case Respond(t) => Doing(s, t, Idle)
    case Release(t, id) => Put(s, t, s.threads[t].(accs := s.threads[t].accs - {id}))
    case Load(_, _) => s
    case Assign(t, id, val) => s.(vals := s.vals[id := val])
    case Clear =>
      s.(tab := s.tab.(level := 1, enabled := 1, recovered := 1, flags := {0, 1}, durable := {0, 1}, chains := map[]),
         vals := map[], diffs := Zeros(|s.diffs|), onInit := 0, size := 0)
    case Crash(flags) =>
      // calculate_mask and tls_restore
      var total := Word(s.onInit + Sum(s.diffs));
      s.(tab := s.tab.(level := s.tab.enabled, recovered := s.tab.enabled, flags := flags, durable := flags),
         segLock := None, diffs := Zeros(|s.diffs|), onInit := total, size := total,
         threads := Stopped(|s.threads|))
  }

  /** A freshly constructed map used by n threads. */
  function Initial(hash: nat -> nat, n: nat): State
  {
    State(Table(hash, 1, 1, 1, {0, 1}, {0, 1}, map[]), map[], None, Zeros(n), 0, 0, Stopped(n))
  }

  /** acts can be performed one after the other from s. */
  ghost predicate CanRun(s: State, acts: seq<Action>)
    decreases |acts|
  {
    acts == [] || (Enabled(s, acts[0]) && CanRun(Apply(s, acts[0]), acts[1..]))
  }

  /** The state after performing them. */
  ghost function After(s: State, acts: seq<Action>): State
    requires CanRun(s, acts)
    decreases |acts|
  {
    if acts == [] then s else After(Apply(s, acts[0]), acts[1..])
  }
}
