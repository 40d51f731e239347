/**
  The methods of transaction_base and of its class manual, as they update the state of a thread.
  Their specification is the machine of module Transactions.
 */
module TransactionRun {
  import opened Transactions

  datatype TxData = NoData | Lists(lists: map<Stage, seq<Callback>>)

  /** The lists hold the callbacks by stage. */
  ghost predicate Keeps(lists: map<Stage, seq<Callback>>, cbs: seq<Callback>)
  {
    forall st: Stage :: st in lists && lists[st] == For(cbs, st)
  }

  /** What a thread sees of libpmemobj: the stage machine, the undo log and the user data. */
  class Machine {
    var stage: Stage
    var modes: seq<bool>
    var failed: bool
    var mem: map<nat, int>
    var log: map<nat, int>
    var data: TxData
    var fired: seq<Callback>
    ghost var registered: seq<Callback>
    ghost var trace: seq<Event>

    /** The lists of tx_data hold what was registered; there is no tx_data before the first registration. */
    ghost predicate Valid()
      reads this
    {
      && (data == NoData ==> registered == [])
      && (data.Lists? ==> Keeps(data.lists, registered))
    }

    ghost function State(): Tx
      reads this
    {
      Tx(stage, modes, failed, mem, log, registered, fired, trace)
    }

    /** transaction_base::c_callback, called by the machine for the outermost block. */
    method CCallback(st: Stage)
      requires Valid() && st != NoTx
      modifies this
      ensures Valid()
      ensures State() == old(State()).(fired := old(fired) + For(old(registered), st),
                                       callbacks := if st == Finally then [] else old(registered))
    {
      if data == NoData {
        return;
      }
      var list := data.lists[st];
      for i := 0 to |list|
        invariant Valid() && data.Lists? && data == old(data)
        invariant State() == old(State()).(fired := old(fired) + list[..i])
      {
        fired := fired + [list[i]];
        assert list[..i + 1] == list[..i] + [list[i]];
      }
      assert list[..|list|] == list;
      if st == Finally {
        data := NoData;
        registered := [];
      }
    }

    method TxBegin()
      requires Valid()
      modifies this
      ensures Valid() && State() == Begin(old(State()))
    {
      if stage == Work && modes != [] {
        modes := modes + [modes[|modes| - 1]];
      } else {
        stage := Work;
        modes := [false];
        failed := false;
      }
    }

    method TxCommit()
      requires Valid()
      modifies this
      ensures Valid() && State() == Commit(old(State()))
    {
      stage := OnCommit;
      if |modes| == 1 {
        log := map[];
        CCallback(OnCommit);
      }
    }

    method TxAbort()
      requires Valid()
      modifies this
      ensures Valid() && State() == AbortTx(old(State()))
    {
      stage := OnAbort;
      failed := true;
      if |modes| == 1 {
        mem := mem + log;
        log := map[];
        CCallback(OnAbort);
      }
    }

    method TxEnd()
      requires Valid() && modes != [] && stage != Work
      modifies this
      ensures Valid() && State() == End(old(State()))
    {
      if |modes| == 1 {
        CCallback(Finally);
        stage := NoTx;
        modes := [];
        failed := false;
      } else {
        modes := modes[..|modes| - 1];
        stage := Work;
        if failed {
          TxAbort();
        }
      }
    }

    method TxAddRange(a: nat) returns (ok: bool)
      requires Valid() && stage == Work && modes != []
      modifies this
      ensures Valid() && (State(), ok) == AddRange(old(State()), a)
    {
      ok := a in mem;
      if ok && a !in log {
        log := log[a := mem[a]];
      } else if !ok && !modes[|modes| - 1] {
        trace := trace + [CallFailed];
        TxAbort();
      }
    }

    // ---------- transaction_base ----------

    method AbortRun() returns (o: Outcome)
      requires Valid()
      modifies this
      ensures Valid() && (State(), o) == Exec(Abort, old(State()))
      ensures old(stage == Work && modes != []) ==> o == Thrown(ManualAbort) && stage == OnAbort && failed
      ensures old(stage == Work && modes != []) ==> trace == old(trace) + [AbortRan] && registered == old(registered)
      ensures old(stage == Work && |modes| == 1) ==> mem == old(mem + log) && fired == old(fired) + For(old(registered), OnAbort)
      ensures old(stage == Work && |modes| > 1) ==> mem == old(mem) && log == old(log) && fired == old(fired)
      ensures !old(stage == Work && modes != []) ==> o == Thrown(TxError) && State() == old(State())
    {
      if stage != Work || modes == [] {
        return Thrown(TxError);
      }
      trace := trace + [AbortRan];
      TxAbort();
      return Thrown(ManualAbort);
    }

    method TakeSnapshot(a: nat) returns (o: Outcome)
      requires Valid()
      modifies this
      ensures Valid() && (State(), o) == Snapshot(old(State()), a)
      ensures o.Normal? <==> old(stage == Work && modes != [] && a in mem)
      ensures o.Normal? ==> log == (if a in old(log) then old(log) else old(log)[a := old(mem)[a]])
      ensures o.Normal? ==> State() == old(State()).(log := log)
      ensures !o.Normal? ==> o == Thrown(TxError)
    {
      if stage != Work || modes == [] {
        return Thrown(TxError);
      }
      var ok := TxAddRange(a);
      return if ok then Normal else Thrown(TxError);
    }

    method RegisterCallback(st: Stage, id: nat) returns (o: Outcome)
      requires Valid()
      modifies this
      ensures Valid() && (State(), o) == Exec(Register(st, id), old(State()))
      ensures old(stage == Work && modes != []) ==> o == Normal
      ensures o.Normal? ==> State() == old(State()).(callbacks := old(registered) + [Callback(st, id)],
                                                     trace := old(trace) + [Registered(Callback(st, id))])
      ensures !old(stage == Work && modes != []) ==> o == Thrown(ScopeError) && State() == old(State())
    {
      if stage != Work || modes == [] {
        return Thrown(ScopeError);
      }
      var cb := Callback(st, id);
      if data == NoData {
        data := Lists(map[Work := [], OnCommit := [], OnAbort := [], Finally := [], NoTx := []]);
        EmptyLists(data.lists);
      }
      ListsLast(data.lists, registered, cb);
      data := Lists(data.lists[st := data.lists[st] + [cb]]);
      registered := registered + [cb];
      trace := trace + [Registered(cb)];
      return Normal;
    }

    /** The constructor of manual; returns its field nested. */
    method StartManual(flat: bool) returns (nested: bool)
      requires Valid()
      requires (stage == Work && modes != []) || (stage == NoTx && modes == [])
      modifies this
      ensures Valid() && State() == SetMode(Begin(old(State())), flat) && nested == (old(stage) == Work)
    {
      nested := stage == Work;
      TxBegin();
      if flat {
        modes := modes[|modes| - 1 := true];
      }
    }

    /** The destructor of manual. */
    method DestroyManual(flat: bool, nested: bool)
      requires Valid() && modes != []
      modifies this
      ensures Valid() && State() == Destroy(old(State()), flat, nested)
    {
      if stage == Work {
        if flat && nested {
          TxCommit();
        } else {
          TxAbort();
        }
      }
      TxEnd();
    }

    /** The end of run: what follows the call of the body. */
    method LeaveRun() returns (o: Outcome)
      requires Valid()
      modifies this
      ensures Valid() && (State(), o) == Leave(old(State()), Normal) && modes == old(modes)
    {
      o := Normal;
      if stage == Work {
        TxCommit();
      } else if stage == OnAbort || stage == NoTx {
        o := Thrown(TxError);
      }
    }

    /** A snapshot and a store. */
    method StoreCell(a: nat, v: int) returns (o: Outcome)
      requires Valid()
      modifies this
      ensures Valid() && (State(), o) == Exec(Store(a, v), old(State()))
      ensures o.Normal? <==> old(stage == Work && modes != [] && a in mem)
      ensures o.Normal? ==> State() == old(State()).(
        mem := old(mem)[a := v],
        log := if a in old(log) then old(log) else old(log)[a := old(mem)[a]],
        trace := old(trace) + [Stored(a, v)])
      ensures !o.Normal? ==> o == Thrown(TxError)
    {
      o := TakeSnapshot(a);
      if o.Normal? {
        mem := mem[a := v];
        trace := trace + [Stored(a, v)];
      }
    }

    /** A body of a block. */
    method Perform(s: Stmt) returns (o: Outcome)
      requires Valid()
      modifies this
      ensures Valid() && (State(), o) == Exec(s, old(State()))
      ensures s.Throw? ==> o == Thrown(User(s.e)) && State() == old(State())
      ensures s.Then? ==> var (t, first) := Exec(s.first, old(State()));
        if first.Thrown? then State() == t && o == first else (State(), o) == Exec(s.second, t)
      decreases s, 0
    {
      match s
      case Skip => o := Normal;
      case Throw(e) => o := Thrown(User(e));
      case Abort => o := AbortRun();
      case Register(st, id) => o := RegisterCallback(st, id);
      case Store(a, v) => o := StoreCell(a, v);
      case Then(first, second) =>
        o := Perform(first);
        if o.Normal? {
          o := Perform(second);
        }
      case IfZero(a, thn, els) =>
        if a in mem && mem[a] == 0 {
          o := Perform(thn);
        } else {
          o := Perform(els);
        }
      case Try(body, caught, handler) =>
        o := Perform(body);
        if o.Thrown? && o.exn in caught {
          o := Perform(handler);
        }
      case Run(flat, body) => o := RunBlock(flat, body);
    }

    /** transaction_base<flat>::run. */
    method RunBlock(flat: bool, body: Stmt) returns (o: Outcome)
      requires Valid()
      modifies this
      ensures Valid() && (State(), o) == Exec(Run(flat, body), old(State()))
      decreases body, 1
    {
      if !((stage == Work && modes != []) || (stage == NoTx && modes == [])) {
        return Thrown(ScopeError);
      }
      var nested := StartManual(flat);
      o := Perform(body);
      o := CloseRun(o, flat, nested);
    }

    /**
      run on an idle machine. It returns normally exactly when its body did, no abort ran, no
      basic block was left by an exception and no call failed with failures aborting: then the
      stores of `done` are in the pool, otherwise the pool is as it was.
     */
    method RunOutermost(flat: bool, body: Stmt) returns (o: Outcome, ghost done: seq<Event>)
      requires Valid() && Idle(State())
      modifies this
      ensures Valid() && Idle(State()) && trace == old(trace) + done
      ensures var b := Exec(body, SetMode(Begin(old(State())), flat)).1;
        && (o.Normal? <==> b.Normal? && Clean(done))
        && (b.Thrown? ==> o == b)
        && (b.Normal? && !Clean(done) ==> o == Thrown(TxError))
      ensures mem == if o.Normal? then Replay(old(mem), done) else old(mem)
      ensures fired == old(fired) + For(Callbacks(done), if o.Normal? then OnCommit else OnAbort)
                                  + For(Callbacks(done), Finally)
    {
      done := OutermostBlock(flat, body, State());
      o := RunBlock(flat, body);
    }

    /** What follows the body in run, and the destructor of manual. */
    method CloseRun(b: Outcome, flat: bool, nested: bool) returns (o: Outcome)
      requires Valid() && modes != []
      modifies this
      ensures Valid() && (State(), o) == Close(old(State()), b, flat, nested)
    {
      o := b;
      if b.Normal? {
        o := LeaveRun();
      } else if nested && !flat {
        trace := trace + [BasicLeft];
      }
      DestroyManual(flat, nested);
    }
  }

  lemma EmptyLists(lists: map<Stage, seq<Callback>>)
    requires lists == map[Work := [], OnCommit := [], OnAbort := [], Finally := [], NoTx := []]
    ensures Keeps(lists, [])
  {
    forall st: Stage ensures st in lists && lists[st] == For([], st) {
      assert st.Work? || st.OnCommit? || st.OnAbort? || st.Finally? || st.NoTx?;
    }
  }

  lemma ListsLast(lists: map<Stage, seq<Callback>>, cbs: seq<Callback>, cb: Callback)
    requires Keeps(lists, cbs)
    ensures Keeps(lists[cb.stage := lists[cb.stage] + [cb]], cbs + [cb])
  {
    forall st: Stage ensures For(cbs + [cb], st) == For(cbs, st) + (if cb.stage == st then [cb] else []) {
      ForLast(cbs, cb, st);
    }
  }

  lemma {:induction false} ForLast(cbs: seq<Callback>, cb: Callback, st: Stage)
    ensures For(cbs + [cb], st) == For(cbs, st) + (if cb.stage == st then [cb] else [])
  {
    if cbs != [] {
      ForLast(cbs[1..], cb, st);
      assert (cbs + [cb])[1..] == cbs[1..] + [cb];
    }
  }
}
