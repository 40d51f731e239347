/**
  What holds in every reachable state of the concurrent hash map, stated in pieces:
  the table alone, one thread alone, one thread against the table, threads against
  each other.
 */
module MapInvariant {
  import opened Wrappers
  import opened HashPath
  import opened ChainSplit
  import opened MapState

  // ---------- the table ----------

  /** No thread has ever used bucket j since the last clear: unflagged and empty. */
  ghost predicate Dead(tab: Table, j: nat)
  {
    j !in tab.flags && Chain(tab, j) == []
  }

  ghost predicate LevelsOk(tab: Table)
  {
    1 <= tab.recovered <= tab.level <= tab.enabled
  }

  ghost predicate FlagsOk(tab: Table)
  {
    && 0 in tab.durable && 1 in tab.durable && tab.durable <= tab.flags
    && (forall j: nat :: j in tab.flags && j >= 2 ==> Parent(j) in tab.durable)
    && (forall j: nat :: j >= 2 && Chain(tab, j) != [] ==> Parent(j) in tab.durable)
    && (forall j: nat :: !Dead(tab, j) ==> j < Pow2(tab.level))
  }

  /** Every node lies on the path of its hash, and nothing deeper on that path is in use. */
  ghost predicate PathsOk(tab: Table)
  {
    && (forall i: nat, n :: n in Chain(tab, i) ==> OnPath(i, tab.hash(n.key)))
    && (forall i: nat, n, j: nat :: n in Chain(tab, i) && i < j && OnPath(j, tab.hash(n.key)) ==> Dead(tab, j))
  }

  ghost predicate ChainsOk(tab: Table)
  {
    && (forall i: nat :: Distinct(Chain(tab, i)))
    && (forall i: nat, j: nat, n, m :: n in Chain(tab, i) && m in Chain(tab, j) && i != j ==> n.id != m.id)
  }

  ghost predicate TableOk(tab: Table)
  {
    LevelsOk(tab) && FlagsOk(tab) && PathsOk(tab) && ChainsOk(tab)
  }

  ghost predicate Absent(tab: Table, b: nat, key: nat)
  {
    forall n :: n in Chain(tab, b) ==> n.key != key
  }

  /** Nothing deeper than b on the path of hash is in use. */
  ghost predicate ClearBelow(tab: Table, b: nat, hash: nat)
  {
    forall j: nat :: b < j && OnPath(j, hash) ==> Dead(tab, j)
  }

  // ---------- one thread ----------

  /** The bucket locks the program counter implies. A visit may keep others besides. */
  predicate Owns(th: Thread, k: nat)
  {
    if HasBase(th.pc) then k == th.base
    else if !Acquiring(th.pc) then false
    else k in th.stack ||
         match th.pc
         case Recheck(i) => k == i
         case CheckChain(i) => k == i
         case Split(i) => k == i || (i >= 2 && k == Parent(i))
         case SetFlag(i, split) => k == i || (split && i >= 2 && k == Parent(i))
         case Persist(i, split) => k == i || (split && i >= 2 && k == Parent(i))
         case DropParent(i) => k == i || (i >= 2 && k == Parent(i))
         case _ => false
  }

  /** The recursion of rehash_bucket: each bucket waits for its parent. */
  ghost predicate StackOk(th: Thread)
  {
    var st := th.stack;
    && (forall k :: 0 <= k < |st| ==> st[k] >= 2)
    && (forall k, l :: 0 <= k < l < |st| ==> st[k] > st[l])
    && (st != [] ==> Acquiring(th.pc) && st[0] == th.base)
    && (Acquiring(th.pc) ==>
         && th.pc.i <= th.base
         && (if st == [] then th.pc.i == th.base else th.pc.i == Parent(st[|st| - 1])))
    && (forall k :: 0 <= k < |st| - 1 ==> st[k + 1] == Parent(st[k]))
  }

  ghost predicate HeldOk(th: Thread)
  {
    && (forall k :: Owns(th, k) ==> k in th.held)
    && (forall k :: k in th.held && !Owns(th, k) ==>
          th.op.Visit? && th.held[k] &&
          (((Acquiring(th.pc) || th.pc.Visited?) && th.base < k) || th.pc.VisitDone?))
    && (forall k :: k in th.held ==> th.held[k] || (th.op.Find? && HasBase(th.pc) && k == th.base))
  }

  predicate OpOk(th: Thread)
  {
    match th.pc
    case Idle => true
    case LoadMask => !th.op.Visit?
    case Search => !th.op.Visit?
    case LoadMaskAgain => !th.op.Visit?
    case ReadNextFlag(_) => !th.op.Visit?
    case InsertTx => th.op.Insert? && !th.inserted
    case TryItem => WantsItem(th.op) && (th.op.Insert? && th.inserted ==> th.result)
    case DropItem => th.op.Erase?
    case EraseTx => th.op.Erase?
    case BumpSize => (th.op.Erase? || (th.op.Insert? && th.inserted)) && th.result
    case UnlockAgain => !th.op.Visit? && (th.op.Insert? ==> !th.inserted)
    case UnlockReload => !th.op.Visit? && (th.op.Insert? ==> !th.inserted)
    case UnlockDone => !th.op.Visit?
    case Visited => th.op.Visit?
    case VisitDone => th.op.Visit?
    case TrySegment => th.op.Insert?
    case CheckMask => th.op.Insert?
    case EnableTx => th.op.Insert?
    case StoreMask => th.op.Insert?
    case UnlockSegment => th.op.Insert?
    case Split(i) => i >= 2
    case SetFlag(i, split) => i >= 2
    case Persist(i, split) => i >= 2
    case DropParent(i) => i >= 2
    case CheckChain(i) => i >= 2
    case _ => true
  }

  /** An insert that retries has not inserted. */
  predicate RetryOk(th: Thread)
  {
    th.op.Insert? && (Acquiring(th.pc) || th.pc.LoadMask? || th.pc.Search? || th.pc.LoadMaskAgain? || th.pc.ReadNextFlag?) ==>
      !th.inserted
  }

  ghost predicate Shape(th: Thread)
  {
    StackOk(th) && HeldOk(th) && OpOk(th) && RetryOk(th)
  }

  // ---------- one thread against the table ----------

  predicate Busy(pc: Pc)
  {
    !pc.Idle? && !pc.LoadMask?
  }

  ghost predicate BaseFact(tab: Table, th: Thread)
  {
    && (Busy(th.pc) ==> tab.recovered <= th.level <= tab.level)
    && ((Acquiring(th.pc) || HasBase(th.pc)) ==> th.base < Pow2(tab.level))
    && (!th.pc.Idle? && !th.op.Visit? ==> th.hash == tab.hash(th.op.key))
    && ((Acquiring(th.pc) || th.pc.Search?) && !th.op.Visit? ==> th.base == Masked(th.hash, th.level))
    && (HasBase(th.pc) ==> th.base in tab.durable)
    && (forall k :: k in th.held && !Owns(th, k) ==> k in tab.durable)
  }

  ghost predicate StackFact(tab: Table, th: Thread)
  {
    forall k :: k in th.stack ==> Dead(tab, k)
  }

  ghost predicate NotPassing(tab: Table, p: nat, i: nat)
  {
    forall n :: n in Chain(tab, p) ==> !OnPath(i, tab.hash(n.key))
  }

  ghost predicate PcFact(tab: Table, th: Thread)
    requires OpOk(th)
  {
    match th.pc
    case Recheck(i) => i in tab.flags ==> i in tab.durable
    case CheckChain(i) => i !in tab.flags
    case Split(i) => Dead(tab, i) && Parent(i) in tab.durable
    case SetFlag(i, split) =>
      && i !in tab.flags
      && (if split then Parent(i) in tab.durable && NotPassing(tab, Parent(i), i) else Chain(tab, i) != [])
    case Persist(i, split) => i in tab.flags && (split ==> Parent(i) in tab.durable)
    case DropParent(i) => i in tab.durable && Parent(i) in tab.durable
    case LoadMaskAgain => Absent(tab, th.base, OpKey(th.op)) && th.base == Masked(th.hash, th.level)
    case ReadNextFlag(j) =>
      && Absent(tab, th.base, OpKey(th.op)) && OnPath(th.base, th.hash) && OnPath(j, th.hash)
      && j >= 2 && Parent(j) == th.base && j >= Pow2(tab.recovered)
    case InsertTx => Absent(tab, th.base, th.op.key) && OnPath(th.base, th.hash) && ClearBelow(tab, th.base, th.hash)
    case TryItem => Node(th.found, OpKey(th.op)) in Chain(tab, th.base)
    case DropItem => Node(th.found, OpKey(th.op)) in Chain(tab, th.base)
    case EraseTx => Node(th.found, OpKey(th.op)) in Chain(tab, th.base)
    case BumpSize => th.op.Insert? ==> Node(th.found, OpKey(th.op)) in Chain(tab, th.base)
    case _ => true
  }

  ghost predicate ThreadOk(tab: Table, th: Thread)
  {
    var holds := Shape(th) && BaseFact(tab, th) && StackFact(tab, th) && PcFact(tab, th);
    holds
  }

  // ---------- threads against each other ----------

  ghost predicate Compatible(a: Thread, b: Thread)
  {
    forall k :: k in a.held && k in b.held ==> !a.held[k] && !b.held[k]
  }

  predicate Persisting(th: Thread, j: nat)
  {
    th.pc.Persist? && th.pc.i == j
  }

  predicate Flagging(th: Thread, j: nat)
  {
    th.pc.SetFlag? && th.pc.split && th.pc.i == j
  }

  predicate Writes(th: Thread, j: nat)
  {
    j in th.held && th.held[j]
  }

  ghost predicate SomePersisting(ths: seq<Thread>, j: nat)
  {
    exists u :: 0 <= u < |ths| && Persisting(ths[u], j)
  }

  ghost predicate SomeFlagging(ths: seq<Thread>, j: nat)
  {
    exists u :: 0 <= u < |ths| && Flagging(ths[u], j)
  }

  ghost predicate SomeWrites(ths: seq<Thread>, j: nat)
  {
    exists u :: 0 <= u < |ths| && Writes(ths[u], j)
  }

  /** A flag that is not durable yet, and a filled bucket without its flag, have a thread at work on them. */
  ghost predicate WorkersOk(tab: Table, ths: seq<Thread>)
  {
    && (forall j: nat :: j in tab.flags && j !in tab.durable ==> SomePersisting(ths, j))
    && (forall j: nat :: j >= Pow2(tab.recovered) && j !in tab.flags && Chain(tab, j) != [] ==> SomeFlagging(ths, j))
    && (forall u :: 0 <= u < |ths| && ths[u].pc.Block? ==>
          ths[u].pc.i in tab.flags || SomeWrites(ths, ths[u].pc.i))
  }

  ghost predicate ItemsCompatible(a: Thread, b: Thread)
  {
    forall id :: id in a.accs && id in b.accs ==> !a.accs[id] && !b.accs[id]
  }

  ghost predicate LocksOk(ths: seq<Thread>)
  {
    forall u, v :: 0 <= u < |ths| && 0 <= v < |ths| && u != v ==> Compatible(ths[u], ths[v])
  }

  ghost predicate SegmentOk(s: State)
  {
    && (forall u :: 0 <= u < |s.threads| && Growing(s.threads[u].pc) ==> s.segLock == Some(u))
    && (s.segLock.Some? ==> s.segLock.value < |s.threads| && Growing(s.threads[s.segLock.value].pc))
    && (forall u :: 0 <= u < |s.threads| && s.threads[u].pc.EnableTx? ==>
          s.threads[u].level == s.tab.level == s.tab.enabled)
    && (forall u :: 0 <= u < |s.threads| && s.threads[u].pc.StoreMask? ==>
          s.threads[u].level == s.tab.level && s.tab.enabled == NextTable(s.tab.level))
    && (s.tab.enabled != s.tab.level ==> s.segLock.Some? && s.threads[s.segLock.value].pc.StoreMask?)
  }

  ghost predicate Linked(tab: Table, id: nat)
  {
    exists i: nat, n :: n in Chain(tab, i) && n.id == id
  }

  /** The values stored are those of the linked nodes. */
  ghost predicate ValsOk(s: State)
  {
    forall id :: id in s.vals <==> Linked(s.tab, id)
  }

  /** Every locked item is linked. */
  ghost predicate AccsLinked(s: State)
  {
    forall u, id :: 0 <= u < |s.threads| && id in s.threads[u].accs ==> id in s.vals
  }

  ghost predicate AccsOk(ths: seq<Thread>)
  {
    forall u, v :: 0 <= u < |ths| && 0 <= v < |ths| && u != v ==> ItemsCompatible(ths[u], ths[v])
  }

  /** Nobody has locked a node that was just inserted or is about to be freed. */
  ghost predicate PrivateOk(s: State)
  {
    forall u, v :: 0 <= u < |s.threads| && 0 <= v < |s.threads| && Private(s.threads[u]) ==>
      s.threads[u].found !in s.threads[v].accs
  }

  /** An erase about to unlock its item has it locked exclusively. */
  predicate DroppingOk(th: Thread)
  {
    th.pc.DropItem? ==> th.found in th.accs && th.accs[th.found]
  }

  ghost predicate ItemsOk(s: State)
  {
    ValsOk(s) && AccsLinked(s) && AccsOk(s.threads) && PrivateOk(s) &&
    forall u :: 0 <= u < |s.threads| ==> DroppingOk(s.threads[u])
  }

  /** The thread has a node that no accessor can reach: just inserted, or about to be unlinked. */
  predicate Private(th: Thread)
  {
    th.pc.EraseTx? || ((th.pc.BumpSize? || th.pc.TryItem?) && th.op.Insert? && th.inserted)
  }

  /** How far my_size lags behind the committed insert or erase of a thread. */
  function Lag(th: Thread): int
  {
    if !th.pc.BumpSize? then 0 else if th.op.Insert? then 1 else -1
  }

  function Lags(ths: seq<Thread>): (lags: seq<int>)
    ensures |lags| == |ths|
    ensures forall u :: 0 <= u < |ths| ==> lags[u] == Lag(ths[u])
  {
    seq(|ths|, u requires 0 <= u < |ths| => Lag(ths[u]))
  }

  /** The size kept in the pool, and my_size once every thread has caught up, count the linked nodes. */
  ghost predicate SizeOk(s: State)
  {
    var holds :=
      && |s.diffs| == |s.threads|
      && Word(s.onInit + Sum(s.diffs)) == Word(|s.vals|)
      && Word(s.size + Sum(Lags(s.threads))) == Word(|s.vals|);
    holds
  }

  ghost predicate ThreadsOk(s: State)
  {
    forall u :: 0 <= u < |s.threads| ==> ThreadOk(s.tab, s.threads[u])
  }

  /** What the steps of one thread need to know of the others. */
  ghost predicate Base(s: State)
  {
    var holds := TableOk(s.tab) && ThreadsOk(s) && LocksOk(s.threads) && WorkersOk(s.tab, s.threads);
    holds
  }

  ghost predicate Inv(s: State)
  {
    var holds := Base(s) && SegmentOk(s) && ItemsOk(s) && SizeOk(s);
    holds
  }
}
