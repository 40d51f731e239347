/**
  Nested flat and basic transactions: what the blocks of transaction_base do with the stage
  machine of libpmemobj, and what that means for the outermost block.

  The machine is the contract of libpmemobj: a nested begin, an abort in an inner
  transaction that aborts the outer ones in turn, and the rollback when it reaches the
  outermost one.
 */
module Transactions {

  datatype Stage = NoTx | Work | OnCommit | OnAbort | Finally

  datatype Exn =
    | User(e: nat)
    | TxError       // pmem::transaction_error
    | ScopeError    // pmem::transaction_scope_error
    | ManualAbort   // pmem::manual_tx_abort

  datatype Outcome = Normal | Thrown(exn: Exn)

  datatype Callback = Callback(stage: Stage, id: nat)

  /** What happened inside an outermost block, in order. */
  datatype Event =
    | Stored(addr: nat, val: int)
    | Registered(cb: Callback)
    | AbortRan        // an abort was executed
    | BasicLeft       // an exception left a nested basic block
    | CallFailed      // a libpmemobj call failed while failures abort

  datatype Tx = Tx(
    stage: Stage,
    modes: seq<bool>,         // one per open block, innermost last; true: failures are returned
    failed: bool,             // the error that the ends of the blocks carry outwards
    mem: map<nat, int>,       // the pool
    log: map<nat, int>,       // the snapshots
    callbacks: seq<Callback>, // tx_data
    fired: seq<Callback>,     // callbacks called so far
    trace: seq<Event>)

  datatype Stmt =
    | Skip
    | Store(addr: nat, val: int)          // snapshot, then store
    | Throw(e: nat)
    | Abort                               // transaction::abort
    | Register(stage: Stage, id: nat)     // transaction::register_callback
    | Then(first: Stmt, second: Stmt)
    | IfZero(addr: nat, thn: Stmt, els: Stmt)
    | Try(body: Stmt, caught: set<Exn>, handler: Stmt)
    | Run(flat: bool, body: Stmt)         // flat_transaction::run or basic_transaction::run

  // ---------- libpmemobj ----------

  /** The callbacks registered for a stage, in order of registration. */
  function For(cbs: seq<Callback>, stage: Stage): seq<Callback>
  {
    if cbs == [] then []
    else if cbs[0].stage == stage then [cbs[0]] + For(cbs[1..], stage)
    else For(cbs[1..], stage)
  }

  /** The pool as it was when its parts were logged. */
  function Restored(t: Tx): map<nat, int>
  {
    t.mem + t.log
  }

  /** pmemobj_tx_begin, in stage Work or NoTx. */
  function Begin(t: Tx): Tx
  {
    if t.stage == Work && t.modes != [] then t.(modes := t.modes + [t.modes[|t.modes| - 1]])
    else t.(stage := Work, modes := [false], failed := false)
  }

  /** pmemobj_tx_commit, in stage Work: only the outermost one commits. */
  function Commit(t: Tx): Tx
  {
    if |t.modes| == 1 then
      t.(stage := OnCommit, log := map[], fired := t.fired + For(t.callbacks, OnCommit))
    else t.(stage := OnCommit)
  }

  /** pmemobj_tx_abort, in stage Work: only the outermost one rolls back. */
  function AbortTx(t: Tx): Tx
  {
    if |t.modes| == 1 then
      t.(stage := OnAbort, failed := true, mem := Restored(t), log := map[], fired := t.fired + For(t.callbacks, OnAbort))
    else t.(stage := OnAbort, failed := true)
  }

  /** pmemobj_tx_end, in another stage than Work: the error of an inner block aborts the outer one. */
  function End(t: Tx): Tx
    requires t.modes != []
  {
    var outer := t.modes[..|t.modes| - 1];
    if outer == [] then
      t.(stage := NoTx, modes := [], failed := false, callbacks := [], fired := t.fired + For(t.callbacks, Finally))
    else
      var resumed := t.(stage := Work, modes := outer);
      if t.failed then AbortTx(resumed) else resumed
  }

  /** pmemobj_tx_add_range_direct: fails for an address outside the pool. */
  function AddRange(t: Tx, a: nat): (Tx, bool)
    requires t.stage == Work && t.modes != []
  {
    if a in t.mem then (if a in t.log then t else t.(log := t.log[a := t.mem[a]]), true)
    else if t.modes[|t.modes| - 1] then (t, false)
    else (AbortTx(t.(trace := t.trace + [CallFailed])), false)
  }

  // ---------- transaction_base ----------

  function Snapshot(t: Tx, a: nat): (Tx, Outcome)
  {
    if t.stage != Work || t.modes == [] then (t, Thrown(TxError))
    else
      var (t', ok) := AddRange(t, a);
      (t', if ok then Normal else Thrown(TxError))
  }

  /** The constructor of manual, after begin. */
  function SetMode(t: Tx, flat: bool): Tx
  {
    if flat && t.modes != [] then t.(modes := t.modes[|t.modes| - 1 := true]) else t
  }

  /** The end of run, before the destructor of manual. */
  function Leave(t: Tx, o: Outcome): (Tx, Outcome)
  {
    if o.Thrown? then (t, o)
    else if t.stage == Work then (Commit(t), Normal)
    else if t.stage == OnAbort || t.stage == NoTx then (t, Thrown(TxError))
    else (t, Normal)
  }

  /** The destructor of manual. */
  function Destroy(t: Tx, flat: bool, nested: bool): Tx
    requires t.modes != []
  {
    End(if t.stage != Work then t else if flat && nested then Commit(t) else AbortTx(t))
  }

  function Note(t: Tx, e: Event): Tx
  {
    t.(trace := t.trace + [e])
  }

  /** What follows the body of run. */
  function Close(t: Tx, o: Outcome, flat: bool, nested: bool): (r: (Tx, Outcome))
    requires t.modes != []
    ensures r.0.modes == t.modes[..|t.modes| - 1]
  {
    var left := if nested && !flat && o.Thrown? then Note(t, BasicLeft) else t;
    var (done, o') := Leave(left, o);
    (Destroy(done, flat, nested), o')
  }

  /** What a statement does. */
  function Exec(s: Stmt, t: Tx): (r: (Tx, Outcome))
    ensures r.0.modes == t.modes
    decreases s, 0
  {
    match s
    case Skip => (t, Normal)
    case Store(a, v) =>
      var (t', o) := Snapshot(t, a);
      if o.Thrown? then (t', o) else (Note(t'.(mem := t'.mem[a := v]), Stored(a, v)), Normal)
    case Throw(e) => (t, Thrown(User(e)))
    case Abort =>
      if t.stage != Work || t.modes == [] then (t, Thrown(TxError))
      else (AbortTx(Note(t, AbortRan)), Thrown(ManualAbort))
    case Register(stage, id) =>
      if t.stage != Work || t.modes == [] then (t, Thrown(ScopeError))
      else (Note(t.(callbacks := t.callbacks + [Callback(stage, id)]), Registered(Callback(stage, id))), Normal)
    case Then(first, second) =>
      var (t', o) := Exec(first, t);
      if o.Thrown? then (t', o) else Exec(second, t')
    case IfZero(a, thn, els) =>
      if a in t.mem && t.mem[a] == 0 then Exec(thn, t) else Exec(els, t)
    case Try(body, caught, handler) =>
      var (t', o) := Exec(body, t);
      if o.Thrown? && o.exn in caught then Exec(handler, t') else (t', o)
    case Run(flat, body) =>
      if (t.stage == Work && t.modes != []) || (t.stage == NoTx && t.modes == []) then ExecRun(flat, body, t)
      else (t, Thrown(ScopeError))
  }

  /** run: constructor, body, commit, destructor. */
  function ExecRun(flat: bool, body: Stmt, t: Tx): (r: (Tx, Outcome))
    requires (t.stage == Work && t.modes != []) || (t.stage == NoTx && t.modes == [])
    ensures r.0.modes == t.modes
    decreases body, 1
  {
    var nested := t.stage == Work;
    var (t1, o) := Exec(body, SetMode(Begin(t), flat));
    Close(t1, o, flat, nested)
  }

  // ---------- what the outermost block amounts to ----------

  predicate Bad(e: Event)
  {
    e.AbortRan? || e.BasicLeft? || e.CallFailed?
  }

  predicate Clean(trace: seq<Event>)
  {
    forall k :: 0 <= k < |trace| ==> !Bad(trace[k])
  }

  /** The pool after the stores of a trace. */
  function Replay(mem: map<nat, int>, trace: seq<Event>): map<nat, int>
    decreases |trace|
  {
    if trace == [] then mem
    else
      var last := trace[|trace| - 1];
      var before := Replay(mem, trace[..|trace| - 1]);
      if last.Stored? then before[last.addr := last.val] else before
  }

  /** The callbacks registered in a trace. */
  function Callbacks(trace: seq<Event>): seq<Callback>
    decreases |trace|
  {
    if trace == [] then []
    else
      var last := trace[|trace| - 1];
      var before := Callbacks(trace[..|trace| - 1]);
      if last.Registered? then before + [last.cb] else before
  }

  lemma {:induction false} ReplayAppend(mem: map<nat, int>, a: seq<Event>, b: seq<Event>)
    ensures Replay(mem, a + b) == Replay(Replay(mem, a), b)
    decreases |b|
  {
    if b == [] {
      assert a + b == a;
    } else {
      var c := b[..|b| - 1];
      ReplayAppend(mem, a, c);
      assert (a + b)[..|a + b| - 1] == a + c;
    }
  }

  lemma {:induction false} CallbacksAppend(a: seq<Event>, b: seq<Event>)
    ensures Callbacks(a + b) == Callbacks(a) + Callbacks(b)
    decreases |b|
  {
    if b == [] {
      assert a + b == a;
    } else {
      var c := b[..|b| - 1];
      CallbacksAppend(a, c);
      assert (a + b)[..|a + b| - 1] == a + c;
    }
  }

  ghost predicate Active(t: Tx)
  {
    t.modes != [] && (t.stage == Work || (t.stage == OnAbort && t.failed)) && t.log.Keys <= t.mem.Keys &&
    (t.stage == Work ==> !t.failed)
  }

  /**
    How the state of an open block moves from t to u while `done` happens: the pool to roll
    back to stays the same, and either nothing bad happened and the stores and callbacks of
    `done` are there, or the block is aborted for good.
   */
  ghost predicate Moves(t: Tx, u: Tx, done: seq<Event>)
  {
    && Active(u) && u.modes == t.modes && u.mem.Keys == t.mem.Keys
    && u.trace == t.trace + done
    && Restored(u) == Restored(t)
    && u.callbacks == t.callbacks + Callbacks(done)
    && (t.stage == OnAbort ==> u == t && done == [])
    && (u.stage == Work <==> t.stage == Work && Clean(done))
    && (u.stage == Work ==> u.mem == Replay(t.mem, done) && u.fired == t.fired)
    && (u.stage == OnAbort && t.stage == Work ==>
          if |t.modes| == 1 then u.log == map[] && u.fired == t.fired + For(u.callbacks, OnAbort)
          else u.fired == t.fired)
  }

  lemma MovesRefl(t: Tx)
    requires Active(t)
    ensures Moves(t, t, [])
  {
    assert t.callbacks + [] == t.callbacks && t.trace + [] == t.trace;
  }

  lemma MovesTrans(t: Tx, u: Tx, v: Tx, a: seq<Event>, b: seq<Event>)
    requires Moves(t, u, a) && Moves(u, v, b)
    ensures Moves(t, v, a + b)
  {
    CallbacksAppend(a, b);
    ReplayAppend(t.mem, a, b);
    assert t.trace + (a + b) == (t.trace + a) + b;
    assert t.callbacks + (Callbacks(a) + Callbacks(b)) == (t.callbacks + Callbacks(a)) + Callbacks(b);
    if Clean(a + b) {
      assert forall k :: 0 <= k < |a| ==> a[k] == (a + b)[k];
      assert forall k :: 0 <= k < |b| ==> b[k] == (a + b)[|a| + k];
    }
    if u.stage == OnAbort {
      assert a + b == a;
    }
  }

  /** A statement of an open block moves its state. */
  lemma {:induction false} ExecMoves(s: Stmt, t: Tx) returns (done: seq<Event>)
    requires Active(t)
    ensures Moves(t, Exec(s, t).0, done)
    decreases s, 0
  {
    match s
    case Skip => MovesRefl(t); done := [];
    case Throw(_) => MovesRefl(t); done := [];
    case Store(a, v) => done := StoreMoves(a, v, t);
    case Abort => done := AbortMoves(t);
    case Register(stage, id) => done := RegisterMoves(stage, id, t);
    case Then(first, second) =>
      var (u, o) := Exec(first, t);
      done := ExecMoves(first, t);
      if o.Normal? {
        var more := ExecMoves(second, u);
        MovesTrans(t, u, Exec(second, u).0, done, more);
        done := done + more;
      }
    case IfZero(a, thn, els) =>
      if a in t.mem && t.mem[a] == 0 {
        done := ExecMoves(thn, t);
      } else {
        done := ExecMoves(els, t);
      }
    case Try(body, caught, handler) =>
      var (u, o) := Exec(body, t);
      done := ExecMoves(body, t);
      if o.Thrown? && o.exn in caught {
        var more := ExecMoves(handler, u);
        MovesTrans(t, u, Exec(handler, u).0, done, more);
        done := done + more;
      }
    case Run(flat, body) =>
      if t.stage == Work {
        done := ExecMoves(body, SetMode(Begin(t), flat));
        done := NestedMoves(flat, body, t, done);
      } else {
        MovesRefl(t);
        done := [];
      }
  }

  lemma StoreMoves(a: nat, v: int, t: Tx) returns (done: seq<Event>)
    requires Active(t)
    ensures Moves(t, Exec(Store(a, v), t).0, done)
  {
    if t.stage != Work || (a !in t.mem && t.modes[|t.modes| - 1]) {
      MovesRefl(t);
      done := [];
    } else if a !in t.mem {
      done := [CallFailed];
      assert Callbacks(done) == [] by { assert done[..0] == []; }
      assert t.callbacks + [] == t.callbacks;
      assert Bad(done[0]);
    } else {
      done := [Stored(a, v)];
      assert done[..0] == [];
      assert t.callbacks + [] == t.callbacks;
      assert Restored(Exec(Store(a, v), t).0) == Restored(t);
    }
  }

  lemma AbortMoves(t: Tx) returns (done: seq<Event>)
    requires Active(t)
    ensures Moves(t, Exec(Abort, t).0, done)
  {
    if t.stage != Work {
      MovesRefl(t);
      done := [];
    } else {
      done := [AbortRan];
      assert Callbacks(done) == [] by { assert done[..0] == []; }
      assert t.callbacks + [] == t.callbacks;
      assert Bad(done[0]);
    }
  }

  lemma RegisterMoves(stage: Stage, id: nat, t: Tx) returns (done: seq<Event>)
    requires Active(t)
    ensures Moves(t, Exec(Register(stage, id), t).0, done)
  {
    if t.stage != Work {
      MovesRefl(t);
      done := [];
    } else {
      done := [Registered(Callback(stage, id))];
      assert done[..0] == [];
      assert Callbacks(done) == [Callback(stage, id)];
    }
  }

  /** A nested block moves the state of the enclosing block: by what its body did, or into an abort. */
  lemma NestedMoves(flat: bool, body: Stmt, t: Tx, done: seq<Event>) returns (all: seq<Event>)
    requires Active(t) && t.stage == Work
    requires Moves(SetMode(Begin(t), flat), Exec(body, SetMode(Begin(t), flat)).0, done)
    ensures Moves(t, ExecRun(flat, body, t).0, all)
  {
    var t0 := SetMode(Begin(t), flat);
    var (t1, o) := Exec(body, t0);
    assert t0 == t.(modes := t0.modes);
    assert t0.modes[..|t.modes|] == t.modes;
    assert ExecRun(flat, body, t) == Close(t1, o, flat, true);
    if !flat && o.Thrown? {
      AbandonedMoves(t, t0, t1, o, done);
      all := done + [BasicLeft];
    } else {
      ClosedMoves(t, t0, t1, o, flat, done);
      all := done;
    }
  }

  lemma ClosedMoves(t: Tx, t0: Tx, t1: Tx, o: Outcome, flat: bool, done: seq<Event>)
    requires Active(t) && t.stage == Work
    requires |t0.modes| == |t.modes| + 1 && t0.modes[..|t.modes|] == t.modes && t0 == t.(modes := t0.modes)
    requires Moves(t0, t1, done)
    requires flat || o.Normal?
    ensures Moves(t, Close(t1, o, flat, true).0, done)
  {
    if t1.stage == Work {
      assert Close(t1, o, flat, true).0 == t1.(modes := t.modes);
    } else {
      assert Close(t1, o, flat, true).0 == AbortTx(t1.(stage := Work, modes := t.modes));
    }
  }

  lemma AbandonedMoves(t: Tx, t0: Tx, t1: Tx, o: Outcome, done: seq<Event>)
    requires Active(t) && t.stage == Work
    requires |t0.modes| == |t.modes| + 1 && t0.modes[..|t.modes|] == t.modes && t0 == t.(modes := t0.modes)
    requires Moves(t0, t1, done)
    requires o.Thrown?
    ensures Moves(t, Close(t1, o, false, true).0, done + [BasicLeft])
  {
    var all := done + [BasicLeft];
    assert Bad(all[|done|]);
    CallbacksAppend(done, [BasicLeft]);
    assert [BasicLeft][..0] == [];
    assert Callbacks(all) == Callbacks(done);
    assert t.trace + all == t.trace + done + [BasicLeft];
    var t2 := Note(t1, BasicLeft);
    assert Close(t1, o, false, true).0 == AbortTx(t2.(stage := Work, failed := true, modes := t.modes));
  }

  // ---------- the outermost block ----------

  predicate Idle(t: Tx)
  {
    t.stage == NoTx && t.modes == [] && !t.failed && t.log == map[] && t.callbacks == []
  }

  /**
    The outermost block. Let `done` be what happened inside it. It returns normally exactly when
    the body did, no abort ran, no basic block was left by an exception, and no call failed with
    failures aborting; then all stores are in the pool and the commit callbacks have been called.
    Otherwise the pool is as it was and the abort callbacks have been called. Either way each
    callback is called once for each registration, those of the Finally stage come last, and the
    machine is idle again.
   */
  lemma OutermostBlock(flat: bool, body: Stmt, t: Tx) returns (done: seq<Event>)
    requires Idle(t)
    ensures var (inside, b) := Exec(body, SetMode(Begin(t), flat));
            var (u, o) := Exec(Run(flat, body), t);
            && inside.trace == t.trace + done && u.trace == inside.trace
            && Idle(u)
            && (o.Normal? <==> b.Normal? && Clean(done))
            && (b.Thrown? ==> o == b)
            && (b.Normal? && !Clean(done) ==> o == Thrown(TxError))
            && u.mem == (if o.Normal? then Replay(t.mem, done) else t.mem)
            && u.fired == t.fired + For(Callbacks(done), if o.Normal? then OnCommit else OnAbort)
                                  + For(Callbacks(done), Finally)
  {
    var t0 := SetMode(Begin(t), flat);
    done := ExecMoves(body, t0);
    var (t1, b) := Exec(body, t0);
    assert Exec(Run(flat, body), t) == Close(t1, b, flat, false);
    OutermostClosed(t, t0, t1, b, flat, done);
  }

  lemma OutermostClosed(t: Tx, t0: Tx, t1: Tx, b: Outcome, flat: bool, done: seq<Event>)
    requires Idle(t) && t0 == t.(stage := Work, modes := t0.modes) && |t0.modes| == 1 && Moves(t0, t1, done)
    ensures var (u, o) := Close(t1, b, flat, false);
            && t1.trace == t.trace + done && u.trace == t1.trace
            && Idle(u)
            && (o.Normal? <==> b.Normal? && Clean(done))
            && (b.Thrown? ==> o == b)
            && (b.Normal? && !Clean(done) ==> o == Thrown(TxError))
            && u.mem == (if o.Normal? then Replay(t.mem, done) else t.mem)
            && u.fired == t.fired + For(Callbacks(done), if o.Normal? then OnCommit else OnAbort)
                                  + For(Callbacks(done), Finally)
  {
    assert t1.callbacks == Callbacks(done) by { assert t.callbacks + Callbacks(done) == Callbacks(done); }
    assert Restored(t0) == t.mem;
    if t1.stage == Work {
      CloseWorking(t0, t1, b, flat, done);
    } else {
      CloseAborted(t0, t1, b, flat, done);
    }
  }

  lemma CloseWorking(t0: Tx, t1: Tx, b: Outcome, flat: bool, done: seq<Event>)
    requires |t0.modes| == 1 && t0.stage == Work && Moves(t0, t1, done) && t1.stage == Work
    ensures var (u, o) := Close(t1, b, flat, false);
            && u.trace == t1.trace && u.stage == NoTx && u.modes == [] && !u.failed && u.log == map[] && u.callbacks == []
            && o == b
            && u.mem == (if b.Normal? then Replay(t0.mem, done) else Restored(t0))
            && u.fired == t0.fired + For(t1.callbacks, if b.Normal? then OnCommit else OnAbort) + For(t1.callbacks, Finally)
  {
    if b.Normal? {
      assert Close(t1, b, flat, false) == (End(Commit(t1)), Normal);
    } else {
      assert Close(t1, b, flat, false) == (End(AbortTx(t1)), b);
    }
  }

  lemma CloseAborted(t0: Tx, t1: Tx, b: Outcome, flat: bool, done: seq<Event>)
    requires |t0.modes| == 1 && t0.stage == Work && Moves(t0, t1, done) && t1.stage == OnAbort
    ensures var (u, o) := Close(t1, b, flat, false);
            && u.trace == t1.trace && u.stage == NoTx && u.modes == [] && !u.failed && u.log == map[] && u.callbacks == []
            && o == (if b.Thrown? then b else Thrown(TxError))
            && u.mem == Restored(t0)
            && u.fired == t0.fired + For(t1.callbacks, OnAbort) + For(t1.callbacks, Finally)
  {
    assert Close(t1, b, flat, false).0 == End(t1);
    assert Restored(t1) == t1.mem;
  }
}
