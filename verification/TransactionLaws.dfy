/**
  What a programmer writes as the body of an outermost block, and what becomes of it: laws about the
  machine of module Transactions that do not mention how it executes a statement.
 */
module TransactionLaws {
  import opened Transactions

  // ---------- stores ----------

  /** Stores, one after the other. */
  function Stores(ws: seq<(nat, int)>): Stmt
  {
    if ws == [] then Skip else Then(Store(ws[0].0, ws[0].1), Stores(ws[1..]))
  }

  predicate Inside(mem: map<nat, int>, ws: seq<(nat, int)>)
  {
    forall k :: 0 <= k < |ws| ==> ws[k].0 in mem
  }

  /** The last value written to a cell, or the value it had. */
  function LastValue(was: int, a: nat, ws: seq<(nat, int)>): int
    decreases |ws|
  {
    if ws == [] then was
    else if ws[|ws| - 1].0 == a then ws[|ws| - 1].1
    else LastValue(was, a, ws[..|ws| - 1])
  }

  /** An open block in which nothing went wrong. */
  predicate Open(t: Tx)
  {
    t.stage == Work && t.modes != []
  }

  lemma {:induction false} StoresRun(ws: seq<(nat, int)>, t: Tx)
    requires Open(t)
    ensures var (u, o) := Exec(Stores(ws), t);
      && (o.Normal? <==> Inside(t.mem, ws)) && (o.Thrown? ==> o == Thrown(TxError))
      && (o.Normal? ==> u.stage == Work && u.mem.Keys == t.mem.Keys && forall a :: a in t.mem ==> u.mem[a] == LastValue(t.mem[a], a, ws))
  {
    if ws != [] {
      var (t1, o1) := Exec(Store(ws[0].0, ws[0].1), t);
      if o1.Normal? {
        StoresRun(ws[1..], t1);
        forall a | a in t.mem ensures LastValue(t1.mem[a], a, ws[1..]) == LastValue(t.mem[a], a, ws) {
          LastOfRest(t.mem[a], a, ws);
        }
        assert Inside(t.mem, ws) <==> Inside(t1.mem, ws[1..]) by {
          assert forall k :: 0 < k < |ws| ==> ws[k] == ws[1..][k - 1];
          assert forall k :: 0 <= k < |ws[1..]| ==> ws[1..][k] == ws[k + 1];
        }
      }
    }
  }

  lemma {:induction false} LastOfRest(v: int, a: nat, ws: seq<(nat, int)>)
    requires ws != []
    ensures LastValue(if ws[0].0 == a then ws[0].1 else v, a, ws[1..]) == LastValue(v, a, ws)
    decreases |ws|
  {
    if |ws| > 1 {
      var init := ws[..|ws| - 1];
      assert init[1..] == ws[1..][..|ws| - 2];
      LastOfRest(v, a, init);
    }
  }

  /**
    An outermost block that only stores keeps all of its stores if all cells are in the pool, each
    cell with the last value stored in it, and otherwise none of them.
   */
  lemma StoresKept(flat: bool, ws: seq<(nat, int)>, t: Tx)
    requires Idle(t)
    ensures var (u, o) := Exec(Run(flat, Stores(ws)), t);
      && Idle(u) && (o.Normal? <==> Inside(t.mem, ws)) && (o.Thrown? ==> o == Thrown(TxError) && u.mem == t.mem)
      && (o.Normal? ==> u.mem.Keys == t.mem.Keys && forall a :: a in t.mem ==> u.mem[a] == LastValue(t.mem[a], a, ws))
  {
    var t0 := SetMode(Begin(t), flat);
    StoresRun(ws, t0);
    var done := OutermostBlock(flat, Stores(ws), t);
    StillWorking(flat, Stores(ws), t);
  }

  /** A body that ends with the transaction in progress and no exception is committed as it is. */
  lemma StillWorking(flat: bool, body: Stmt, t: Tx)
    requires Idle(t)
    ensures var (inside, b) := Exec(body, SetMode(Begin(t), flat));
      var (u, o) := Exec(Run(flat, body), t);
      b.Normal? && inside.stage == Work ==> o.Normal? && u.mem == inside.mem
  {
    var t0 := SetMode(Begin(t), flat);
    var done := ExecMoves(body, t0);
  }

  // ---------- single statements ----------

  function Noted(t: Tx, a: nat, v: int): Tx
    requires a in t.mem
  {
    t.(mem := t.mem[a := v], log := if a in t.log then t.log else t.log[a := t.mem[a]], trace := t.trace + [Stored(a, v)])
  }

  lemma StoreRuns(a: nat, v: int, t: Tx)
    requires Open(t) && a in t.mem
    ensures Exec(Store(a, v), t) == (Noted(t, a, v), Normal)
  {
  }

  lemma ThenRuns(first: Stmt, second: Stmt, t: Tx)
    ensures var (u, o) := Exec(first, t);
      Exec(Then(first, second), t) == if o.Thrown? then (u, o) else Exec(second, u)
  {
  }

  lemma StoreThenRuns(a: nat, v: int, rest: Stmt, t: Tx)
    requires Open(t) && a in t.mem
    ensures Exec(Then(Store(a, v), rest), t) == Exec(rest, Noted(t, a, v))
  {
    StoreRuns(a, v, t);
  }

  lemma AbortRuns(t: Tx)
    requires Open(t)
    ensures Exec(Abort, t).1 == Thrown(ManualAbort) && Exec(Abort, t).0.trace == t.trace + [AbortRan]
  {
  }

  lemma RegisterRuns(st: Stage, id: nat, t: Tx)
    requires Open(t)
    ensures var (u, o) := Exec(Register(st, id), t);
      o == Normal && u == t.(callbacks := t.callbacks + [Callback(st, id)], trace := t.trace + [Registered(Callback(st, id))])
  {
  }

  lemma TryRuns(body: Stmt, caught: set<Exn>, handler: Stmt, t: Tx)
    ensures Exec(Try(body, caught, handler), t) ==
      var (u, o) := Exec(body, t); if o.Thrown? && o.exn in caught then Exec(handler, u) else (u, o)
  {
  }

  /** From what happened inside an outermost block follows what becomes of it. */
  lemma Settles(flat: bool, body: Stmt, t: Tx, done: seq<Event>)
    requires Idle(t) && Exec(body, SetMode(Begin(t), flat)).0.trace == t.trace + done
    ensures var b := Exec(body, SetMode(Begin(t), flat)).1;
      var (u, o) := Exec(Run(flat, body), t);
      && Idle(u) && u.trace == t.trace + done
      && o == (if b.Thrown? then b else if Clean(done) then Normal else Thrown(TxError))
      && u.mem == (if o.Normal? then Replay(t.mem, done) else t.mem)
      && u.fired == t.fired + For(Callbacks(done), if o.Normal? then OnCommit else OnAbort) + For(Callbacks(done), Finally)
  {
    var all := OutermostBlock(flat, body, t);
    assert (t.trace + all)[|t.trace|..] == all && (t.trace + done)[|t.trace|..] == done;
  }

  lemma OneEvent(e: Event)
    ensures forall mem: map<nat, int> :: Replay(mem, [e]) == if e.Stored? then mem[e.addr := e.val] else mem
    ensures Callbacks([e]) == if e.Registered? then [e.cb] else []
    ensures Clean([e]) <==> !Bad(e)
  {
    assert [e][..0] == [];
    assert [e][0] == e;
  }

  lemma TwoEvents(d: Event, e: Event)
    ensures forall mem: map<nat, int> :: Replay(mem, [d, e]) == Replay(Replay(mem, [d]), [e])
    ensures Callbacks([d, e]) == Callbacks([d]) + Callbacks([e])
    ensures Clean([d, e]) <==> !Bad(d) && !Bad(e)
  {
    assert [d, e][..1] == [d] && [e][..0] == [];
    OneEvent(e);
    assert Clean([d, e]) ==> !Bad([d, e][0]) && !Bad([d, e][1]);
  }

  /** The state in which the body starts. */
  lemma Starts(flat: bool, t: Tx)
    requires Idle(t)
    ensures var t0 := SetMode(Begin(t), flat); Open(t0) && t0.mem == t.mem && t0.trace == t.trace && t0.log == map[]
  {
  }

  // ---------- callbacks ----------

  /** A callback registered for a stage is called when the block gets there, and at no other time. */
  lemma CallbackFires(flat: bool, st: Stage, id: nat, t: Tx)
    requires Idle(t)
    ensures var (u, o) := Exec(Run(flat, Register(st, id)), t);
      && o == Normal && Idle(u) && u.mem == t.mem
      && u.fired == t.fired + (if st == OnCommit || st == Finally then [Callback(st, id)] else [])
  {
    Starts(flat, t);
    RegisterRuns(st, id, SetMode(Begin(t), flat));
    OneEvent(Registered(Callback(st, id)));
    Settles(flat, Register(st, id), t, [Registered(Callback(st, id))]);
    OneCallback(Callback(st, id));
  }

  lemma OneCallback(cb: Callback)
    ensures forall st: Stage :: For([cb], st) == if cb.stage == st then [cb] else []
  {
    assert [cb][1..] == [];
  }

  /** ... of a block that is aborted, the callbacks for that. */
  lemma AbortCallbackFires(flat: bool, st: Stage, id: nat, t: Tx)
    requires Idle(t)
    ensures var (u, o) := Exec(Run(flat, Then(Register(st, id), Abort)), t);
      && o == Thrown(ManualAbort) && Idle(u) && u.mem == t.mem
      && u.fired == t.fired + (if st == OnAbort || st == Finally then [Callback(st, id)] else [])
  {
    var t0, e := SetMode(Begin(t), flat), Registered(Callback(st, id));
    Starts(flat, t);
    ThenRuns(Register(st, id), Abort, t0);
    RegisterRuns(st, id, t0);
    AbortRuns(Exec(Register(st, id), t0).0);
    assert t.trace + [e] + [AbortRan] == t.trace + [e, AbortRan];
    OneEvent(e);
    OneEvent(AbortRan);
    TwoEvents(e, AbortRan);
    Settles(flat, Then(Register(st, id), Abort), t, [e, AbortRan]);
    OneCallback(Callback(st, id));
  }

  /** Callbacks of one stage are called in the order in which they were registered. */
  lemma CallbacksInOrder(flat: bool, st: Stage, id: nat, later: nat, t: Tx)
    requires Idle(t) && (st == OnCommit || st == Finally)
    ensures var (u, o) := Exec(Run(flat, Then(Register(st, id), Register(st, later))), t);
      o == Normal && Idle(u) && u.fired == t.fired + [Callback(st, id), Callback(st, later)]
  {
    var d, e := Registered(Callback(st, id)), Registered(Callback(st, later));
    Starts(flat, t);
    RegisterTwice(st, id, later, SetMode(Begin(t), flat));
    Settles(flat, Then(Register(st, id), Register(st, later)), t, [d, e]);
    RegisteredTwice(d, e);
    TwoCallbacks(Callback(st, id), Callback(st, later));
  }

  lemma RegisterTwice(st: Stage, id: nat, later: nat, t: Tx)
    requires Open(t)
    ensures var (u, o) := Exec(Then(Register(st, id), Register(st, later)), t);
      o == Normal && u.trace == t.trace + [Registered(Callback(st, id)), Registered(Callback(st, later))]
  {
    var d, e := Registered(Callback(st, id)), Registered(Callback(st, later));
    ThenRuns(Register(st, id), Register(st, later), t);
    RegisterRuns(st, id, t);
    RegisterRuns(st, later, Exec(Register(st, id), t).0);
    assert t.trace + [d] + [e] == t.trace + [d, e];
  }

  lemma RegisteredTwice(d: Event, e: Event)
    requires d.Registered? && e.Registered?
    ensures Callbacks([d, e]) == [d.cb, e.cb] && Clean([d, e])
  {
    OneEvent(d);
    OneEvent(e);
    TwoEvents(d, e);
  }

  lemma TwoCallbacks(cb: Callback, later: Callback)
    ensures forall st: Stage :: For([cb, later], st) == For([cb], st) + For([later], st)
    ensures forall st: Stage :: For([cb], st) == if cb.stage == st then [cb] else []
    ensures forall st: Stage :: For([later], st) == if later.stage == st then [later] else []
  {
    OneCallback(cb);
    OneCallback(later);
    assert [cb, later][1..] == [later];
  }

  // ---------- aborts and exceptions ----------

  /** What follows an abort is not executed, and what came before it is undone. */
  lemma AbortStops(flat: bool, a: nat, v: int, rest: Stmt, t: Tx)
    requires Idle(t) && a in t.mem
    ensures var (u, o) := Exec(Run(flat, Then(Store(a, v), Then(Abort, rest))), t);
      o == Thrown(ManualAbort) && Idle(u) && u.mem == t.mem && u.trace == t.trace + [Stored(a, v), AbortRan]
  {
    var t0 := SetMode(Begin(t), flat);
    Starts(flat, t);
    StoreThenRuns(a, v, Then(Abort, rest), t0);
    ThenRuns(Abort, rest, Noted(t0, a, v));
    AbortRuns(Noted(t0, a, v));
    assert t.trace + [Stored(a, v)] + [AbortRan] == t.trace + [Stored(a, v), AbortRan];
    Settles(flat, Then(Store(a, v), Then(Abort, rest)), t, [Stored(a, v), AbortRan]);
  }

  /** The same of an exception that the block lets go. */
  lemma ThrowStops(flat: bool, a: nat, v: int, e: nat, rest: Stmt, t: Tx)
    requires Idle(t) && a in t.mem
    ensures var (u, o) := Exec(Run(flat, Then(Store(a, v), Then(Throw(e), rest))), t);
      o == Thrown(User(e)) && Idle(u) && u.mem == t.mem && u.trace == t.trace + [Stored(a, v)]
  {
    var t0 := SetMode(Begin(t), flat);
    Starts(flat, t);
    StoreThenRuns(a, v, Then(Throw(e), rest), t0);
    ThenRuns(Throw(e), rest, Noted(t0, a, v));
    Settles(flat, Then(Store(a, v), Then(Throw(e), rest)), t, [Stored(a, v)]);
  }

  /** An exception caught inside the block harms nothing: the store before it and the one of the handler are kept. */
  lemma CaughtInside(flat: bool, a: nat, v: int, e: nat, b: nat, w: int, t: Tx)
    requires Idle(t) && a in t.mem && b in t.mem
    ensures var (u, o) := Exec(Run(flat, Try(Then(Store(a, v), Throw(e)), {User(e)}, Store(b, w))), t);
      o == Normal && Idle(u) && u.mem == t.mem[a := v][b := w]
  {
    var t0 := SetMode(Begin(t), flat);
    Starts(flat, t);
    TryRuns(Then(Store(a, v), Throw(e)), {User(e)}, Store(b, w), t0);
    StoreThenRuns(a, v, Throw(e), t0);
    StoreRuns(b, w, Noted(t0, a, v));
    assert t.trace + [Stored(a, v)] + [Stored(b, w)] == t.trace + [Stored(a, v), Stored(b, w)];
    OneEvent(Stored(a, v));
    OneEvent(Stored(b, w));
    TwoEvents(Stored(a, v), Stored(b, w));
    Settles(flat, Try(Then(Store(a, v), Throw(e)), {User(e)}, Store(b, w)), t, [Stored(a, v), Stored(b, w)]);
  }

  /** One that is not caught there leaves the handler out. */
  lemma NotCaught(flat: bool, a: nat, v: int, e: nat, caught: set<Exn>, handler: Stmt, t: Tx)
    requires Idle(t) && a in t.mem && User(e) !in caught
    ensures var (u, o) := Exec(Run(flat, Try(Then(Store(a, v), Throw(e)), caught, handler)), t);
      o == Thrown(User(e)) && Idle(u) && u.mem == t.mem && u.trace == t.trace + [Stored(a, v)]
  {
    var t0 := SetMode(Begin(t), flat);
    Starts(flat, t);
    TryRuns(Then(Store(a, v), Throw(e)), caught, handler, t0);
    StoreThenRuns(a, v, Throw(e), t0);
    Settles(flat, Try(Then(Store(a, v), Throw(e)), caught, handler), t, [Stored(a, v)]);
  }

  /** A condition on a cell selects what is stored. */
  lemma BranchTaken(flat: bool, c: nat, a: nat, v: int, w: int, t: Tx)
    requires Idle(t) && a in t.mem && c in t.mem
    ensures var (u, o) := Exec(Run(flat, IfZero(c, Store(a, v), Store(a, w))), t);
      o == Normal && Idle(u) && u.mem == t.mem[a := if t.mem[c] == 0 then v else w]
  {
    var x := if t.mem[c] == 0 then v else w;
    Starts(flat, t);
    StoreRuns(a, x, SetMode(Begin(t), flat));
    OneEvent(Stored(a, x));
    Settles(flat, IfZero(c, Store(a, v), Store(a, w)), t, [Stored(a, x)]);
  }

  // ---------- nested blocks ----------

  /** A nested block that throws after a store: out of a flat one the transaction goes on, out of a basic one it is aborted. */
  lemma NestedThrow(inner: bool, a: nat, v: int, e: nat, t: Tx)
    requires Open(t) && !t.failed && a in t.mem
    ensures var (u, o) := Exec(Run(inner, Then(Store(a, v), Throw(e))), t);
      && o == Thrown(User(e))
      && (inner ==> u == Noted(t, a, v))
      && (!inner ==> u.stage == OnAbort && u.trace == t.trace + [Stored(a, v), BasicLeft])
  {
    var t0 := SetMode(Begin(t), inner);
    StoreThenRuns(a, v, Throw(e), t0);
    ThrowRuns(e, Noted(t0, a, v));
    NestedRuns(inner, Then(Store(a, v), Throw(e)), t);
    ThrownOut(inner, a, v, e, t);
  }

  lemma ThrowRuns(e: nat, t: Tx)
    ensures Exec(Throw(e), t) == (t, Thrown(User(e)))
  {
  }

  lemma NestedRuns(flat: bool, body: Stmt, t: Tx)
    requires Open(t)
    ensures var (u, o) := Exec(body, SetMode(Begin(t), flat));
      u.modes != [] && Exec(Run(flat, body), t) == Close(u, o, flat, true)
  {
  }

  lemma ThrownOut(inner: bool, a: nat, v: int, e: nat, t: Tx)
    requires Open(t) && !t.failed && a in t.mem
    ensures var (u, o) := Close(Noted(SetMode(Begin(t), inner), a, v), Thrown(User(e)), inner, true);
      && o == Thrown(User(e))
      && (inner ==> u == Noted(t, a, v))
      && (!inner ==> u.stage == OnAbort && u.trace == t.trace + [Stored(a, v), BasicLeft])
  {
    assert SetMode(Begin(t), inner).modes[..|t.modes|] == t.modes;
    assert t.trace + [Stored(a, v)] + [BasicLeft] == t.trace + [Stored(a, v), BasicLeft];
  }

  /**
    The difference between the two kinds of block. An exception that leaves a nested flat block and
    is caught in the outer one aborts nothing: the store of the nested block is kept.
   */
  lemma FlatSurvives(outer: bool, a: nat, v: int, e: nat, t: Tx)
    requires Idle(t) && a in t.mem
    ensures var (u, o) := Exec(Run(outer, Try(Run(true, Then(Store(a, v), Throw(e))), {User(e)}, Skip)), t);
      o == Normal && Idle(u) && u.mem == t.mem[a := v]
  {
    var t0 := SetMode(Begin(t), outer);
    Starts(outer, t);
    TryRuns(Run(true, Then(Store(a, v), Throw(e))), {User(e)}, Skip, t0);
    NestedThrow(true, a, v, e, t0);
    OneEvent(Stored(a, v));
    Settles(outer, Try(Run(true, Then(Store(a, v), Throw(e))), {User(e)}, Skip), t, [Stored(a, v)]);
  }

  /** Out of a nested basic block it has aborted the outer one, caught or not. */
  lemma BasicAborts(outer: bool, a: nat, v: int, e: nat, t: Tx)
    requires Idle(t) && a in t.mem
    ensures var (u, o) := Exec(Run(outer, Try(Run(false, Then(Store(a, v), Throw(e))), {User(e)}, Skip)), t);
      o == Thrown(TxError) && Idle(u) && u.mem == t.mem
  {
    var t0 := SetMode(Begin(t), outer);
    Starts(outer, t);
    TryRuns(Run(false, Then(Store(a, v), Throw(e))), {User(e)}, Skip, t0);
    NestedThrow(false, a, v, e, t0);
    TwoEvents(Stored(a, v), BasicLeft);
    Settles(outer, Try(Run(false, Then(Store(a, v), Throw(e))), {User(e)}, Skip), t, [Stored(a, v), BasicLeft]);
  }

  lemma NestedStore(inner: bool, a: nat, v: int, t: Tx)
    requires Open(t) && !t.failed && a in t.mem
    ensures Exec(Run(inner, Store(a, v)), t) == (Noted(t, a, v), Normal)
  {
    var t0 := SetMode(Begin(t), inner);
    StoreRuns(a, v, t0);
    assert t0.modes[..|t.modes|] == t.modes;
    NestedRuns(inner, Store(a, v), t);
  }

  /** A nested block that is left normally belongs to the outer one: its store is kept, or undone by a later abort. */
  lemma NestedBelongs(outer: bool, inner: bool, a: nat, v: int, t: Tx)
    requires Idle(t) && a in t.mem
    ensures var (u, o) := Exec(Run(outer, Run(inner, Store(a, v))), t); o == Normal && Idle(u) && u.mem == t.mem[a := v]
    ensures var (u, o) := Exec(Run(outer, Then(Run(inner, Store(a, v)), Abort)), t);
      o == Thrown(ManualAbort) && Idle(u) && u.mem == t.mem
  {
    var t0 := SetMode(Begin(t), outer);
    Starts(outer, t);
    NestedStore(inner, a, v, t0);
    OneEvent(Stored(a, v));
    Settles(outer, Run(inner, Store(a, v)), t, [Stored(a, v)]);
    ThenRuns(Run(inner, Store(a, v)), Abort, t0);
    AbortRuns(Noted(t0, a, v));
    assert t.trace + [Stored(a, v)] + [AbortRan] == t.trace + [Stored(a, v), AbortRan];
    Settles(outer, Then(Run(inner, Store(a, v)), Abort), t, [Stored(a, v), AbortRan]);
  }

  /**
    A failed snapshot that is caught aborts nothing in a flat block, and the block goes on; a basic
    block is aborted by it.
   */
  lemma FailureCaught(flat: bool, bad: nat, x: int, a: nat, v: int, t: Tx)
    requires Idle(t) && bad !in t.mem && a in t.mem
    ensures var (u, o) := Exec(Run(flat, Try(Store(bad, x), {TxError}, Store(a, v))), t);
      && Idle(u) && o == (if flat then Normal else Thrown(TxError))
      && u.mem == (if flat then t.mem[a := v] else t.mem)
  {
    var t0 := SetMode(Begin(t), flat);
    Starts(flat, t);
    TryRuns(Store(bad, x), {TxError}, Store(a, v), t0);
    StoreFails(flat, bad, x, t);
    if flat {
      StoreRuns(a, v, t0);
      OneEvent(Stored(a, v));
      Settles(flat, Try(Store(bad, x), {TxError}, Store(a, v)), t, [Stored(a, v)]);
    } else {
      AbortedStore(a, v, Exec(Store(bad, x), t0).0);
      OneEvent(CallFailed);
      Settles(flat, Try(Store(bad, x), {TxError}, Store(a, v)), t, [CallFailed]);
    }
  }

  lemma StoreFails(flat: bool, bad: nat, x: int, t: Tx)
    requires Idle(t) && bad !in t.mem
    ensures var t0 := SetMode(Begin(t), flat);
      var (u, o) := Exec(Store(bad, x), t0);
      o == Thrown(TxError) && (flat ==> u == t0) && (!flat ==> u.stage == OnAbort && u.trace == t.trace + [CallFailed])
  {
  }

  lemma AbortedStore(a: nat, v: int, t: Tx)
    requires t.stage == OnAbort
    ensures Exec(Store(a, v), t) == (t, Thrown(TxError))
  {
  }
}
