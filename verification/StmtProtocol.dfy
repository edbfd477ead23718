// When a pool-level prepared statement is finally closed (prepared_statement.go: QueryContext,
// Close, finalClose; rows.go: close; conn_pool_prepare.go: prepareDC) as a state machine. Any
// number of goroutines query and close any number of statements and close the rows they gave.
module StmtProtocol {
  import opened Deps

  datatype Option<T> = None | Some(value: T)

  datatype Stmt = Stmt(
    closed: bool,
    readers: set<nat>,               // closemu, held for reading
    writer: Option<nat>,             // closemu, held for writing
    selfDep: bool,                   // history: its own dependency is not removed yet
    finalBy: Option<nat>,            // history: who was handed finalClose
    finals: nat)                     // history: calls of finalClose

  datatype Rows = Rows(
    stmt: nat,
    closed: bool,
    holder: Option<nat>,             // closemu, held for writing
    dep: bool,                       // history: the dependency of the statement on it is there
    releases: nat)                   // history: calls of releaseConn on the connection

  datatype Pc =
    // QueryContext
    | QueryLock(s: nat) | QueryCheck(s: nat) | QueryAdd(s: nat) | QueryUnlock(s: nat)
    // Stmt.Close
    | CloseLock(s: nat) | CloseCheck(s: nat) | CloseRemove(s: nat) | CloseFinal(s: nat) | CloseUnlock(s: nat)
    // Rows.close
    | RowsLock(r: nat) | RowsCheck(r: nat) | RowsRelease(r: nat) | RowsRemove(r: nat)
    | RowsFinal(r: nat, s: nat) | RowsUnlock(r: nat)
    | Over

  datatype World = World(
    dep: Table,
    stmts: map<nat, Stmt>,
    rows: map<nat, Rows>,
    pcs: map<nat, Pc>)

  function Begin(): World
  {
    World(map[], map[], map[], map[])
  }

  datatype Task = Query(s: nat) | CloseStmt(s: nat) | CloseRows(r: nat)

  datatype Action =
    | Prepare(s: nat)
    | Spawn(t: nat, task: Task)
    | Move(t: nat, r: Option<nat>)   // a query that succeeds makes the rows r

  predicate CanMove(w: World, t: nat, pc: Pc, r: Option<nat>)
  {
    match pc
    case QueryLock(s) => s in w.stmts && w.stmts[s].writer.None?
    case QueryAdd(s) => r.Some? ==> r.value !in w.rows
    case CloseLock(s) => s in w.stmts && w.stmts[s].writer.None? && w.stmts[s].readers == {}
    case RowsLock(q) => q in w.rows && w.rows[q].holder.None?
    case Over => false
    case _ => true
  }

  predicate Enabled(w: World, a: Action)
  {
    match a
    case Prepare(s) => s !in w.stmts
    case Spawn(t, task) =>
      t !in w.pcs && (match task
                      case Query(s) => s in w.stmts
                      case CloseStmt(s) => s in w.stmts
                      case CloseRows(r) => r in w.rows)
    case Move(t, r) => t in w.pcs && Known(w, w.pcs[t]) && CanMove(w, t, w.pcs[t], r)
  }

  /** The statement or the rows a goroutine works on exist. */
  predicate Known(w: World, pc: Pc)
  {
    match pc
    case QueryLock(s) => s in w.stmts
    case QueryCheck(s) => s in w.stmts
    case QueryAdd(s) => s in w.stmts
    case QueryUnlock(s) => s in w.stmts
    case CloseLock(s) => s in w.stmts
    case CloseCheck(s) => s in w.stmts
    case CloseRemove(s) => s in w.stmts
    case CloseFinal(s) => s in w.stmts
    case CloseUnlock(s) => s in w.stmts
    case Over => true
    case _ => pc.r in w.rows && w.rows[pc.r].stmt in w.stmts && (pc.RowsFinal? ==> pc.s == w.rows[pc.r].stmt)
  }

  function At(w: World, t: nat, pc: Pc): World
  {
    w.(pcs := w.pcs[t := pc])
  }

  function SetStmt(w: World, s: nat, x: Stmt): World
  {
    w.(stmts := w.stmts[s := x])
  }

  function SetRows(w: World, r: nat, x: Rows): World
  {
    w.(rows := w.rows[r := x])
  }

  /** One step of QueryContext: the goroutine's next place, and the statement. */
  function QueryPc(pc: Pc, s: nat, x: Stmt): Pc
  {
    match pc
    case QueryLock(_) => QueryCheck(s)
    case QueryCheck(_) => if x.closed then QueryUnlock(s) else QueryAdd(s)
    case QueryAdd(_) => QueryUnlock(s)
    case _ => Over
  }

  function QueryStmt(pc: Pc, t: nat, x: Stmt): Stmt
  {
    match pc
    case QueryLock(_) => x.(readers := x.readers + {t})
    case QueryUnlock(_) => x.(readers := x.readers - {t})
    case _ => x
  }

  function MoveQuery(w: World, t: nat, s: nat, r: Option<nat>): World
    requires t in w.pcs && s in w.stmts
  {
    var pc, x := w.pcs[t], w.stmts[s];
    var u := SetStmt(At(w, t, QueryPc(pc, s, x)), s, QueryStmt(pc, t, x));
    if pc.QueryAdd? && r.Some? then
      SetRows(u, r.value, Rows(s, false, None, true, 0)).(dep := Add(w.dep, StmtObj(s), RowsObj(r.value)))
    else u
  }

  /** One step of Stmt.Close; last says that its removeDep took the last dependency. */
  function ClosePc(pc: Pc, s: nat, x: Stmt, last: bool): Pc
  {
    match pc
    case CloseLock(_) => CloseCheck(s)
    case CloseCheck(_) => if x.closed then CloseUnlock(s) else CloseRemove(s)
    case CloseRemove(_) => if last then CloseFinal(s) else CloseUnlock(s)
    case CloseFinal(_) => CloseUnlock(s)
    case _ => Over
  }

  function ClosedStmt(pc: Pc, t: nat, x: Stmt, last: bool): Stmt
  {
    match pc
    case CloseLock(_) => x.(writer := Some(t))
    case CloseCheck(_) => x.(closed := true)
    case CloseRemove(_) => x.(selfDep := false, finalBy := if last then Some(t) else x.finalBy)
    case CloseFinal(_) => x.(finals := x.finals + 1)
    case _ => x.(writer := None)
  }

  function MoveClose(w: World, t: nat, s: nat): World
    requires t in w.pcs && s in w.stmts
  {
    var pc, x := w.pcs[t], w.stmts[s];
    var removal := if pc.CloseRemove? then Remove(w.dep, StmtObj(s), StmtObj(s)) else Remaining(w.dep);
    if removal.Unpaired? then w                              // a panic
    else
      SetStmt(At(w, t, ClosePc(pc, s, x, removal.CallFinalClose?)), s,
        ClosedStmt(pc, t, x, removal.CallFinalClose?)).(dep := removal.dep)
  }

  /** One step of Rows.close. */
  function RowsPc(pc: Pc, r: nat, x: Rows, last: bool): Pc
  {
    match pc
    case RowsLock(_) => RowsCheck(r)
    case RowsCheck(_) => if x.closed then RowsUnlock(r) else RowsRelease(r)
    case RowsRelease(_) => RowsRemove(r)
    case RowsRemove(_) => if last then RowsFinal(r, x.stmt) else RowsUnlock(r)
    case RowsFinal(_, _) => RowsUnlock(r)
    case _ => Over
  }

  function ClosedRows(pc: Pc, t: nat, x: Rows): Rows
  {
    match pc
    case RowsLock(_) => x.(holder := Some(t))
    case RowsCheck(_) => x.(closed := true)
    case RowsRelease(_) => x.(releases := x.releases + 1)
    case RowsRemove(_) => x.(dep := false)
    case RowsFinal(_, _) => x
    case _ => x.(holder := None)
  }

  function FinalStmt(pc: Pc, t: nat, y: Stmt, last: bool): Stmt
  {
    if pc.RowsRemove? && last then y.(finalBy := Some(t))
    else if pc.RowsFinal? then y.(finals := y.finals + 1)
    else y
  }

  function MoveRows(w: World, t: nat, r: nat): World
    requires t in w.pcs && r in w.rows && w.rows[r].stmt in w.stmts
  {
    var pc, x := w.pcs[t], w.rows[r];
    var removal := if pc.RowsRemove? then Remove(w.dep, StmtObj(x.stmt), RowsObj(r)) else Remaining(w.dep);
    if removal.Unpaired? then w                              // a panic
    else
      var u := SetRows(At(w, t, RowsPc(pc, r, x, removal.CallFinalClose?)), r,
        ClosedRows(pc, t, x)).(dep := removal.dep);
      SetStmt(u, x.stmt, FinalStmt(pc, t, w.stmts[x.stmt], removal.CallFinalClose?))
  }

  function First(task: Task): Pc
  {
    match task
    case Query(s) => QueryLock(s)
    case CloseStmt(s) => CloseLock(s)
    case CloseRows(r) => RowsLock(r)
  }

  function Do(w: World, a: Action): World
    requires Enabled(w, a)
  {
    match a
    case Prepare(s) =>
      SetStmt(w, s, Stmt(false, {}, None, true, None, 0)).(dep := Add(w.dep, StmtObj(s), StmtObj(s)))
    case Spawn(t, task) => At(w, t, First(task))
    case Move(t, r) =>
      match w.pcs[t]
      case QueryLock(s) => MoveQuery(w, t, s, r)
      case QueryCheck(s) => MoveQuery(w, t, s, r)
      case QueryAdd(s) => MoveQuery(w, t, s, r)
      case QueryUnlock(s) => MoveQuery(w, t, s, r)
      case CloseLock(s) => MoveClose(w, t, s)
      case CloseCheck(s) => MoveClose(w, t, s)
      case CloseRemove(s) => MoveClose(w, t, s)
      case CloseFinal(s) => MoveClose(w, t, s)
      case CloseUnlock(s) => MoveClose(w, t, s)
      case Over => w
      case pc => MoveRows(w, t, pc.r)
  }

  predicate Reads(pc: Pc, s: nat)
  {
    pc == QueryCheck(s) || pc == QueryAdd(s) || pc == QueryUnlock(s)
  }

  predicate Writes(pc: Pc, s: nat)
  {
    pc == CloseCheck(s) || pc == CloseRemove(s) || pc == CloseFinal(s) || pc == CloseUnlock(s)
  }

  predicate Closes(pc: Pc, r: nat)
  {
    (pc.RowsCheck? || pc.RowsRelease? || pc.RowsRemove? || pc.RowsFinal? || pc.RowsUnlock?) && pc.r == r
  }

  predicate Finalizes(pc: Pc, s: nat)
  {
    (pc.CloseFinal? || pc.RowsFinal?) && pc.s == s
  }

  /** The dependencies statement s should have. */
  predicate DependsOn(w: World, s: nat, o: Obj)
  {
    match o
    case StmtObj(k) => k == s && s in w.stmts && w.stmts[s].selfDep
    case RowsObj(r) => r in w.rows && w.rows[r].stmt == s && w.rows[r].dep
  }

  ghost predicate TableOk(w: World)
  {
    && (forall x | x in w.dep :: x.StmtObj? && x.s in w.stmts && w.dep[x] != {})
    && (forall s: nat, o: Obj :: DependsOn(w, s, o) <==> StmtObj(s) in w.dep && o in w.dep[StmtObj(s)])
  }

  /** One statement and the goroutines that hold its lock. */
  ghost predicate StmtOk(w: World, s: nat)
    requires s in w.stmts
  {
    var x := w.stmts[s];
    && (forall t: nat :: t in x.readers <==> t in w.pcs && Reads(w.pcs[t], s))
    && (forall t: nat :: x.writer == Some(t) <==> t in w.pcs && Writes(w.pcs[t], s))
    && (x.writer.Some? ==> x.readers == {})
    && (forall t: nat | t in w.pcs && w.pcs[t] == QueryAdd(s) :: !x.closed)
    && (forall t: nat | t in w.pcs && w.pcs[t] == CloseRemove(s) :: x.closed && x.selfDep)
    && (!x.selfDep ==> x.closed)
    && (x.closed && x.selfDep ==> x.writer.Some? && x.writer.value in w.pcs && w.pcs[x.writer.value] == CloseRemove(s))
    // finalClose
    && (x.finalBy.Some? <==> StmtObj(s) !in w.dep)
    && x.finals <= 1 && (x.finals == 1 ==> x.finalBy.Some?)
    && (x.finalBy.Some? && x.finals == 0 ==> x.finalBy.value in w.pcs && Finalizes(w.pcs[x.finalBy.value], s))
    && (forall t: nat | t in w.pcs && Finalizes(w.pcs[t], s) :: x.finalBy == Some(t) && x.finals == 0)
  }

  ghost predicate RowsOk(w: World, r: nat)
    requires r in w.rows
  {
    var x := w.rows[r];
    && x.stmt in w.stmts
    && (forall t: nat :: x.holder == Some(t) <==> t in w.pcs && Closes(w.pcs[t], r))
    && (!x.dep ==> x.closed && x.releases == 1)
    && x.releases <= 1 && (!x.closed ==> x.releases == 0)
    && (x.closed && x.dep ==> x.holder.Some? && x.holder.value in w.pcs)
    && (x.closed && x.dep && x.releases == 0 ==> w.pcs[x.holder.value] == RowsRelease(r))
    && (x.closed && x.dep && x.releases == 1 ==> w.pcs[x.holder.value] == RowsRemove(r))
    && (forall t: nat | t in w.pcs && (w.pcs[t] == RowsRelease(r) || w.pcs[t] == RowsRemove(r)) :: x.closed && x.dep)
    && (forall t: nat | t in w.pcs && w.pcs[t] == RowsRelease(r) :: x.releases == 0)
    && (forall t: nat | t in w.pcs && w.pcs[t] == RowsRemove(r) :: x.releases == 1)
  }

  ghost predicate Inv(w: World)
  {
    && TableOk(w)
    && (forall s | s in w.stmts :: StmtOk(w, s))
    && (forall r | r in w.rows :: RowsOk(w, r))
    && (forall t | t in w.pcs :: Known(w, w.pcs[t]))
  }

  // ---------------------------------------------------------------------------------------
  // What one step touches: a goroutine t, a statement s, rows r, and the table

  predicate Involves(pc: Pc, s: nat)
  {
    Reads(pc, s) || Writes(pc, s) || Finalizes(pc, s)
  }

  predicate SameThread(w: World, u: World, t: nat)
  {
    (t in u.pcs <==> t in w.pcs) && (t in u.pcs && t in w.pcs ==> u.pcs[t] == w.pcs[t])
  }

  lemma {:induction false} StmtFrame(w: World, u: World, t: nat, s: nat)
    requires s in w.stmts && StmtOk(w, s) && s in u.stmts && u.stmts[s] == w.stmts[s]
    requires forall t': nat | t' != t :: SameThread(w, u, t')
    requires t in w.pcs ==> !Involves(w.pcs[t], s)
    requires t in u.pcs ==> !Involves(u.pcs[t], s)
    requires StmtObj(s) in u.dep <==> StmtObj(s) in w.dep
    ensures StmtOk(u, s)
  {
    assert forall t': nat | t' in u.pcs && Involves(u.pcs[t'], s) :: SameThread(w, u, t');
    assert forall t': nat | t' in w.pcs && Involves(w.pcs[t'], s) :: SameThread(w, u, t');
  }

  lemma {:induction false} RowsFrame(w: World, u: World, t: nat, r: nat)
    requires r in w.rows && RowsOk(w, r) && r in u.rows && u.rows[r] == w.rows[r] && u.rows[r].stmt in u.stmts
    requires forall t': nat | t' != t :: SameThread(w, u, t')
    requires t in w.pcs ==> !Closes(w.pcs[t], r)
    requires t in u.pcs ==> !Closes(u.pcs[t], r)
    ensures RowsOk(u, r)
  {
    assert forall t': nat | t' in u.pcs && Closes(u.pcs[t'], r) :: SameThread(w, u, t');
    assert forall t': nat | t' in w.pcs && Closes(w.pcs[t'], r) :: SameThread(w, u, t');
  }

  ghost predicate Framed(w: World, u: World, t: nat, s: nat, r: Option<nat>)
  {
    && (forall t': nat | t' != t :: SameThread(w, u, t'))
    && (forall s': nat | s' in w.stmts :: s' in u.stmts)
    && (forall s': nat | s' in u.stmts && s' != s :: s' in w.stmts && u.stmts[s'] == w.stmts[s'])
    && (forall r': nat | r' in w.rows :: r' in u.rows)
    && (forall r': nat | r' in u.rows && Some(r') != r :: r' in w.rows && u.rows[r'] == w.rows[r'])
    && (forall s': nat | s' != s :: StmtObj(s') in u.dep <==> StmtObj(s') in w.dep)
    && (t in w.pcs ==> OnlyOn(w.pcs[t], s, r))
    && (t in u.pcs ==> OnlyOn(u.pcs[t], s, r))
  }

  ghost predicate OnlyOn(pc: Pc, s: nat, r: Option<nat>)
  {
    && (forall s': nat | s' != s :: !Involves(pc, s'))
    && (forall r': nat | Some(r') != r :: !Closes(pc, r'))
  }

  lemma {:induction false} Assemble(w: World, u: World, t: nat, s: nat, r: Option<nat>)
    requires Inv(w) && Framed(w, u, t, s, r) && TableOk(u)
    requires s in u.stmts ==> StmtOk(u, s)
    requires r.Some? && r.value in u.rows ==>
               RowsOk(u, r.value) && (r.value in w.rows ==> u.rows[r.value].stmt == w.rows[r.value].stmt)
    requires t in u.pcs ==> Known(u, u.pcs[t])
    ensures Inv(u)
  {
    hide TableOk, StmtOk, RowsOk, DependsOn;
    forall s': nat | s' in u.stmts && s' != s
      ensures StmtOk(u, s')
    {
      StmtFrame(w, u, t, s');
    }
    forall r': nat | r' in u.rows && Some(r') != r
      ensures RowsOk(u, r')
    {
      RowsOfStmt(w, r');
      RowsFrame(w, u, t, r');
    }
    forall t': nat | t' in u.pcs
      ensures Known(u, u.pcs[t'])
    {
      if t' != t {
        assert SameThread(w, u, t') && Known(w, w.pcs[t']);
      }
    }
  }

  lemma {:induction false} RowsOfStmt(w: World, r: nat)
    requires r in w.rows && RowsOk(w, r)
    ensures w.rows[r].stmt in w.stmts
  {}

  lemma {:induction false} TableSame(w: World, u: World)
    requires TableOk(w) && u.dep == w.dep && (forall s: nat | s in w.stmts :: s in u.stmts)
    requires forall s: nat, o: Obj :: DependsOn(u, s, o) <==> DependsOn(w, s, o)
    ensures TableOk(u)
  {}

  lemma {:induction false} TableAdded(w: World, u: World, s: nat, d: Obj)
    requires TableOk(w) && u.dep == Add(w.dep, StmtObj(s), d) && s in u.stmts
             && (forall s': nat | s' in w.stmts :: s' in u.stmts)
    requires forall s': nat, o: Obj :: DependsOn(u, s', o) <==> DependsOn(w, s', o) || (s' == s && o == d)
    ensures TableOk(u)
  {
    assert d in u.dep[StmtObj(s)];
  }

  lemma {:induction false} TableRemoved(w: World, u: World, s: nat, d: Obj)
    requires TableOk(w) && DependsOn(w, s, d) && (forall s': nat | s' in w.stmts :: s' in u.stmts)
    requires match Remove(w.dep, StmtObj(s), d)
             case Unpaired => true
             case Remaining(dep) => u.dep == dep
             case CallFinalClose(dep) => u.dep == dep
    requires forall s': nat, o: Obj :: DependsOn(u, s', o) <==> DependsOn(w, s', o) && !(s' == s && o == d)
    ensures !Remove(w.dep, StmtObj(s), d).Unpaired? && TableOk(u)
    ensures Remove(w.dep, StmtObj(s), d).CallFinalClose? <==> StmtObj(s) !in u.dep
    ensures StmtObj(s) in w.dep
    ensures forall s': nat | s' != s :: StmtObj(s') in u.dep <==> StmtObj(s') in w.dep
  {
    var deps := w.dep[StmtObj(s)];
    if deps != {d} {
      assert deps == deps - {d} + {d};
    }
  }

  /** Goroutine t moves on, and statement s may change with it. */
  predicate StmtMove(w: World, u: World, t: nat, s: nat)
    requires t in w.pcs && t in u.pcs && s in w.stmts && s in u.stmts
  {
    var pc, pc', x, y := w.pcs[t], u.pcs[t], w.stmts[s], u.stmts[s];
    // closemu
    && y.readers == (if Reads(pc', s) then x.readers + {t} else x.readers - {t})
    && y.writer == (if Writes(pc', s) then Some(t) else if x.writer == Some(t) then None else x.writer)
    && (Writes(pc', s) && !Writes(pc, s) ==> x.writer.None? && x.readers == {})
    && (Reads(pc', s) && !Reads(pc, s) ==> x.writer.None?)
    // closed, and the dependency on itself
    && (pc' == QueryAdd(s) ==> !y.closed)
    && (y.closed != x.closed ==> y.closed && pc' == CloseRemove(s))
    && (pc' == CloseRemove(s) ==> y.closed && y.selfDep && pc != CloseRemove(s))
    && (y.selfDep != x.selfDep ==> pc == CloseRemove(s))
    && (pc == CloseRemove(s) ==> !y.selfDep)
    // finalClose
    && (y.finalBy.Some? <==> StmtObj(s) !in u.dep)
    && if Finalizes(pc, s) then !Finalizes(pc', s) && y.finals == x.finals + 1 && y.finalBy == x.finalBy
       else if Finalizes(pc', s) then y.finals == x.finals && x.finalBy.None? && y.finalBy == Some(t)
       else y.finals == x.finals && y.finalBy == x.finalBy
  }

  lemma {:induction false} StmtUpdate(w: World, u: World, t: nat, s: nat)
    requires t in w.pcs && t in u.pcs && s in w.stmts && s in u.stmts
    requires StmtOk(w, s) && u.pcs == w.pcs[t := u.pcs[t]] && StmtMove(w, u, t, s)
    ensures StmtOk(u, s)
  {
    assert forall t': nat | t' != t :: SameThread(w, u, t');
  }

  predicate RowsMove(w: World, u: World, t: nat, r: nat)
    requires t in w.pcs && t in u.pcs && r in w.rows && r in u.rows
  {
    var pc, pc', x, y := w.pcs[t], u.pcs[t], w.rows[r], u.rows[r];
    && y.stmt == x.stmt && y.stmt in u.stmts
    && y.holder == (if Closes(pc', r) then Some(t) else if x.holder == Some(t) then None else x.holder)
    && (Closes(pc', r) && !Closes(pc, r) ==> x.holder.None?)
    && (pc' == RowsRelease(r) ==> pc == RowsCheck(r) && !x.closed && y == x.(closed := true))
    && (pc' == RowsRemove(r) ==> pc == RowsRelease(r) && y == x.(releases := x.releases + 1))
    && (pc' != RowsRelease(r) && pc' != RowsRemove(r) ==>
          pc != RowsRelease(r) && y.closed == x.closed && y.releases == x.releases
            && y.dep == (x.dep && pc != RowsRemove(r)))
  }

  lemma {:induction false} RowsUpdate(w: World, u: World, t: nat, r: nat)
    requires t in w.pcs && t in u.pcs && r in w.rows && r in u.rows
    requires RowsOk(w, r) && u.pcs == w.pcs[t := u.pcs[t]] && RowsMove(w, u, t, r)
    ensures RowsOk(u, r)
  {
    assert forall t': nat | t' != t :: SameThread(w, u, t');
  }

  lemma {:induction false} QueryTable(w: World, t: nat, s: nat, r: Option<nat>)
    requires TableOk(w) && t in w.pcs && s in w.stmts && CanMove(w, t, w.pcs[t], r)
    ensures TableOk(MoveQuery(w, t, s, r))
  {
    hide TableOk;
    var u := MoveQuery(w, t, s, r);
    if w.pcs[t].QueryAdd? && r.Some? {
      TableAdded(w, u, s, RowsObj(r.value));
    } else {
      TableSame(w, u);
    }
  }

  /** A query that is about to add its rows finds the statement open and in the table. */
  lemma {:induction false} AddingSeesTable(w: World, t: nat, s: nat)
    requires s in w.stmts && StmtOk(w, s) && TableOk(w)
    ensures t in w.pcs && w.pcs[t] == QueryAdd(s) ==> !w.stmts[s].closed && StmtObj(s) in w.dep
    ensures t in w.pcs ==>
              && (t in w.stmts[s].readers <==> Reads(w.pcs[t], s))
              && (w.stmts[s].writer == Some(t) <==> Writes(w.pcs[t], s))
    ensures w.stmts[s].finalBy.Some? <==> StmtObj(s) !in w.dep
  {
    assert DependsOn(w, s, StmtObj(s)) <==> w.stmts[s].selfDep;
  }

  lemma {:induction false} QueryMoves(w: World, t: nat, s: nat, r: Option<nat>)
    requires t in w.pcs && s in w.stmts && CanMove(w, t, w.pcs[t], r)
             && (w.pcs[t] == QueryLock(s) || Reads(w.pcs[t], s))
    requires StmtOk(w, s) && TableOk(w)
    ensures StmtMove(w, MoveQuery(w, t, s, r), t, s)
  {
    AddingSeesTable(w, t, s);
    assert w.stmts[s].writer.None?;
    hide StmtOk, TableOk;
    Querying(w, t, s, r);
  }

  lemma {:induction false} Querying(w: World, t: nat, s: nat, r: Option<nat>)
    requires t in w.pcs && s in w.stmts && (w.pcs[t] == QueryLock(s) || Reads(w.pcs[t], s))
    requires w.stmts[s].writer.None? && (t in w.stmts[s].readers <==> Reads(w.pcs[t], s))
    requires w.stmts[s].finalBy.Some? <==> StmtObj(s) !in w.dep
    requires w.pcs[t] == QueryAdd(s) ==> !w.stmts[s].closed && StmtObj(s) in w.dep
    ensures StmtMove(w, MoveQuery(w, t, s, r), t, s)
  {}

  lemma {:induction false} NewRows(w: World, t: nat, s: nat, r: nat)
    requires t in w.pcs && s in w.stmts && w.pcs[t] == QueryAdd(s) && r !in w.rows
    requires forall t: nat | t in w.pcs :: Known(w, w.pcs[t])
    ensures RowsOk(MoveQuery(w, t, s, Some(r)), r)
  {
    var u := MoveQuery(w, t, s, Some(r));
    forall t': nat | t' in u.pcs
      ensures !Closes(u.pcs[t'], r)
    {
      if t' != t {
        assert Known(w, w.pcs[t']);
      }
    }
  }

  /** What the moves have in common. */
  lemma {:induction false} MoveFramed(w: World, u: World, t: nat, s: nat, r: Option<nat>)
    requires t in w.pcs && t in u.pcs && u.pcs == w.pcs[t := u.pcs[t]]
    requires s in u.stmts && u.stmts == w.stmts[s := u.stmts[s]]
    requires u.rows == w.rows || (r.Some? && r.value in u.rows && u.rows == w.rows[r.value := u.rows[r.value]])
    requires forall s': nat | s' != s :: StmtObj(s') in u.dep <==> StmtObj(s') in w.dep
    requires OnlyOn(w.pcs[t], s, r) && OnlyOn(u.pcs[t], s, r)
    ensures Framed(w, u, t, s, r)
  {
    hide OnlyOn;
  }

  lemma {:induction false} OnlyQueries(pc: Pc, s: nat, x: Stmt, r: Option<nat>)
    requires pc == QueryLock(s) || Reads(pc, s)
    ensures OnlyOn(pc, s, r) && OnlyOn(QueryPc(pc, s, x), s, r)
  {}

  lemma {:induction false} OnlyCloses(pc: Pc, s: nat, x: Stmt, last: bool)
    requires pc == CloseLock(s) || Writes(pc, s)
    ensures OnlyOn(pc, s, None) && OnlyOn(ClosePc(pc, s, x, last), s, None)
  {}

  lemma {:induction false} QueryFramed(w: World, t: nat, s: nat, r: Option<nat>)
    requires t in w.pcs && s in w.stmts && (w.pcs[t] == QueryLock(s) || Reads(w.pcs[t], s))
    requires w.pcs[t].QueryAdd? ==> StmtObj(s) in w.dep
    ensures var u := MoveQuery(w, t, s, r);
            Framed(w, u, t, s, if w.pcs[t].QueryAdd? then r else None) && t in u.pcs && Known(u, u.pcs[t])
  {
    hide Framed, OnlyOn;
    var q := if w.pcs[t].QueryAdd? then r else None;
    OnlyQueries(w.pcs[t], s, w.stmts[s], q);
    MoveFramed(w, MoveQuery(w, t, s, r), t, s, q);
  }

  lemma {:induction false} QueryStmtOk(w: World, t: nat, s: nat, r: Option<nat>)
    requires t in w.pcs && s in w.stmts && CanMove(w, t, w.pcs[t], r)
             && (w.pcs[t] == QueryLock(s) || Reads(w.pcs[t], s))
    requires StmtOk(w, s) && TableOk(w)
    ensures StmtOk(MoveQuery(w, t, s, r), s)
  {
    QueryMoves(w, t, s, r);
    hide StmtOk, TableOk, StmtMove, CanMove, Reads;
    StmtUpdate(w, MoveQuery(w, t, s, r), t, s);
  }

  lemma {:induction false} QueryStep(w: World, t: nat, s: nat, r: Option<nat>)
    requires Inv(w) && t in w.pcs && s in w.stmts && CanMove(w, t, w.pcs[t], r)
    requires w.pcs[t] == QueryLock(s) || Reads(w.pcs[t], s)
    ensures Inv(MoveQuery(w, t, s, r))
  {
    var u := MoveQuery(w, t, s, r);
    var q := if w.pcs[t].QueryAdd? then r else None;
    assert StmtOk(w, s);
    AddingSeesTable(w, t, s);
    hide TableOk, StmtOk, RowsOk, Framed;
    QueryStmtOk(w, t, s, r);
    QueryTable(w, t, s, r);
    QueryFramed(w, t, s, r);
    if q.Some? {
      NewRows(w, t, s, q.value);
    }
    Assemble(w, u, t, s, q);
  }

  lemma {:induction false} PairedRemoval(w: World, s: nat, d: Obj)
    requires TableOk(w) && DependsOn(w, s, d)
    ensures !Remove(w.dep, StmtObj(s), d).Unpaired? && StmtObj(s) in w.dep
    ensures Remove(w.dep, StmtObj(s), d).CallFinalClose? <==> StmtObj(s) !in Remove(w.dep, StmtObj(s), d).dep
    ensures forall s': nat | s' != s :: StmtObj(s') in Remove(w.dep, StmtObj(s), d).dep <==> StmtObj(s') in w.dep
  {}

  lemma {:induction false} CloseTable(w: World, t: nat, s: nat)
    requires TableOk(w) && t in w.pcs && s in w.stmts && (w.pcs[t].CloseRemove? ==> w.stmts[s].selfDep)
    ensures TableOk(MoveClose(w, t, s))
  {
    hide TableOk;
    var u := MoveClose(w, t, s);
    if w.pcs[t].CloseRemove? {
      assert DependsOn(w, s, StmtObj(s));
      PairedRemoval(w, s, StmtObj(s));
      hide Remove;
      TableRemoved(w, u, s, StmtObj(s));
    } else {
      TableSame(w, u);
    }
  }

  lemma {:induction false} CloseMoves(w: World, t: nat, s: nat)
    requires t in w.pcs && s in w.stmts && CanMove(w, t, w.pcs[t], None)
             && (w.pcs[t] == CloseLock(s) || Writes(w.pcs[t], s))
    requires StmtOk(w, s) && TableOk(w)
    ensures var u := MoveClose(w, t, s);
            t in u.pcs && u.pcs == w.pcs[t := u.pcs[t]] && s in u.stmts && StmtMove(w, u, t, s)
  {
    AddingSeesTable(w, t, s);
    if w.pcs[t].CloseRemove? {
      assert w.stmts[s].closed && w.stmts[s].selfDep;
      hide StmtOk;
      RemovalMoves(w, t, s);
    } else {
      hide StmtOk, TableOk, Remove, MoveClose;
      OtherClosing(w, t, s);
    }
  }

  /** The step of Stmt.Close that gives up the statement's dependency on itself. */
  lemma {:induction false} RemovalMoves(w: World, t: nat, s: nat)
    requires t in w.pcs && s in w.stmts && w.pcs[t] == CloseRemove(s) && TableOk(w)
    requires w.stmts[s].closed && w.stmts[s].selfDep && s in w.stmts && w.stmts[s].writer == Some(t)
    requires t !in w.stmts[s].readers && (w.stmts[s].finalBy.Some? <==> StmtObj(s) !in w.dep)
    ensures var u := MoveClose(w, t, s);
            t in u.pcs && u.pcs == w.pcs[t := u.pcs[t]] && s in u.stmts && StmtMove(w, u, t, s)
  {
    assert DependsOn(w, s, StmtObj(s));
    PairedRemoval(w, s, StmtObj(s));
    hide TableOk, DependsOn, Remove;
    var u, last := MoveClose(w, t, s), Remove(w.dep, StmtObj(s), StmtObj(s)).CallFinalClose?;
    assert u.pcs[t] == if last then CloseFinal(s) else CloseUnlock(s);
    assert u.stmts[s] == w.stmts[s].(selfDep := false, finalBy := if last then Some(t) else w.stmts[s].finalBy);
  }

  /** Its other steps. */
  lemma {:induction false} OtherClosing(w: World, t: nat, s: nat)
    requires t in w.pcs && s in w.stmts && CanMove(w, t, w.pcs[t], None)
    requires w.pcs[t] == CloseLock(s) || (Writes(w.pcs[t], s) && !w.pcs[t].CloseRemove?)
    requires w.stmts[s].readers == {} && (w.stmts[s].writer == Some(t) <==> Writes(w.pcs[t], s))
    requires w.stmts[s].finalBy.Some? <==> StmtObj(s) !in w.dep
    requires !w.stmts[s].closed ==> w.stmts[s].selfDep
    ensures var u := MoveClose(w, t, s);
            t in u.pcs && u.pcs == w.pcs[t := u.pcs[t]] && s in u.stmts && StmtMove(w, u, t, s)
  {
    hide Remove;
  }

  lemma {:induction false} CloseFramed(w: World, t: nat, s: nat)
    requires t in w.pcs && s in w.stmts && (w.pcs[t] == CloseLock(s) || Writes(w.pcs[t], s))
    requires w.pcs[t].CloseRemove? ==> w.stmts[s].selfDep
    requires TableOk(w)
    ensures var u := MoveClose(w, t, s);
            Framed(w, u, t, s, None) && t in u.pcs && Known(u, u.pcs[t])
  {
    if w.pcs[t].CloseRemove? {
      assert DependsOn(w, s, StmtObj(s));
      PairedRemoval(w, s, StmtObj(s));
    }
    hide TableOk, Remove, Framed, OnlyOn;
    OnlyCloses(w.pcs[t], s, w.stmts[s], true);
    OnlyCloses(w.pcs[t], s, w.stmts[s], false);
    MoveFramed(w, MoveClose(w, t, s), t, s, None);
  }

  lemma {:induction false} CloseStmtOk(w: World, t: nat, s: nat)
    requires t in w.pcs && s in w.stmts && CanMove(w, t, w.pcs[t], None)
             && (w.pcs[t] == CloseLock(s) || Writes(w.pcs[t], s))
    requires StmtOk(w, s) && TableOk(w)
    ensures StmtOk(MoveClose(w, t, s), s) && (w.pcs[t].CloseRemove? ==> w.stmts[s].selfDep)
  {
    CloseMoves(w, t, s);
    assert w.pcs[t].CloseRemove? ==> w.stmts[s].selfDep;
    hide StmtOk, TableOk, StmtMove, CanMove, Writes, MoveClose;
    StmtUpdate(w, MoveClose(w, t, s), t, s);
  }

  lemma {:induction false} CloseStep(w: World, t: nat, s: nat)
    requires Inv(w) && t in w.pcs && s in w.stmts && CanMove(w, t, w.pcs[t], None)
    requires w.pcs[t] == CloseLock(s) || Writes(w.pcs[t], s)
    ensures Inv(MoveClose(w, t, s))
  {
    assert StmtOk(w, s);
    hide TableOk, StmtOk, RowsOk, Framed, MoveClose;
    CloseStmtOk(w, t, s);
    CloseTable(w, t, s);
    CloseFramed(w, t, s);
    Assemble(w, MoveClose(w, t, s), t, s, None);
  }

  lemma {:induction false} OnlyRows(pc: Pc, r: nat, x: Rows, last: bool)
    requires pc == RowsLock(r) || Closes(pc, r)
    requires pc.RowsFinal? ==> pc.s == x.stmt
    ensures OnlyOn(pc, x.stmt, Some(r)) && OnlyOn(RowsPc(pc, r, x, last), x.stmt, Some(r))
  {}

  lemma {:induction false} RowsTable(w: World, t: nat, r: nat)
    requires TableOk(w) && t in w.pcs && r in w.rows && w.rows[r].stmt in w.stmts
             && (w.pcs[t].RowsRemove? ==> w.rows[r].dep)
    ensures TableOk(MoveRows(w, t, r))
  {
    hide TableOk;
    var u := MoveRows(w, t, r);
    var s := w.rows[r].stmt;
    if w.pcs[t].RowsRemove? {
      assert DependsOn(w, s, RowsObj(r));
      PairedRemoval(w, s, RowsObj(r));
      hide Remove;
      TableRemoved(w, u, s, RowsObj(r));
    } else {
      TableSame(w, u);
    }
  }

  lemma {:induction false} RowsMaps(w: World, t: nat, r: nat, removal: Removal)
    requires t in w.pcs && r in w.rows && w.rows[r].stmt in w.stmts && !removal.Unpaired?
    requires removal == if w.pcs[t].RowsRemove? then Remove(w.dep, StmtObj(w.rows[r].stmt), RowsObj(r))
             else Remaining(w.dep)
    ensures var u, s := MoveRows(w, t, r), w.rows[r].stmt;
            && u.dep == removal.dep && u.pcs == w.pcs[t := RowsPc(w.pcs[t], r, w.rows[r], removal.CallFinalClose?)]
            && r in u.rows && u.rows == w.rows[r := u.rows[r]] && u.rows[r].stmt == s
            && s in u.stmts && u.stmts == w.stmts[s := u.stmts[s]]
  {
    hide Remove, RowsPc, FinalStmt;
  }

  lemma {:induction false} KnownRows(u: World, r: nat, pc: Pc, x: Rows, last: bool)
    requires r in u.rows && u.rows[r].stmt == x.stmt && x.stmt in u.stmts
    ensures Known(u, RowsPc(pc, r, x, last))
  {}

  lemma {:induction false} RowsFramed(w: World, t: nat, r: nat)
    requires t in w.pcs && r in w.rows && w.rows[r].stmt in w.stmts && (w.pcs[t] == RowsLock(r) || Closes(w.pcs[t], r))
    requires w.pcs[t].RowsRemove? ==> w.rows[r].dep
    requires w.pcs[t].RowsFinal? ==> w.pcs[t].s == w.rows[r].stmt
    requires TableOk(w)
    ensures var u := MoveRows(w, t, r);
            Framed(w, u, t, w.rows[r].stmt, Some(r)) && t in u.pcs && Known(u, u.pcs[t])
  {
    var s, pc := w.rows[r].stmt, w.pcs[t];
    var removal := if pc.RowsRemove? then Remove(w.dep, StmtObj(s), RowsObj(r)) else Remaining(w.dep);
    if pc.RowsRemove? {
      assert DependsOn(w, s, RowsObj(r));
      PairedRemoval(w, s, RowsObj(r));
    }
    OnlyRows(pc, r, w.rows[r], removal.CallFinalClose?);
    hide TableOk, Remove, Framed, OnlyOn, Closes, MoveRows, Known, RowsPc;
    RowsMaps(w, t, r, removal);
    KnownRows(MoveRows(w, t, r), r, pc, w.rows[r], removal.CallFinalClose?);
    MoveFramed(w, MoveRows(w, t, r), t, s, Some(r));
  }

  lemma {:induction false} RowsSeen(w: World, t: nat, r: nat)
    requires r in w.rows && RowsOk(w, r) && t in w.pcs
    ensures w.rows[r].stmt in w.stmts
    ensures w.pcs[t] == RowsRemove(r) ==> w.rows[r].dep
    ensures w.rows[r].holder == Some(t) <==> Closes(w.pcs[t], r)
    ensures w.pcs[t] == RowsCheck(r) && !w.rows[r].closed ==> w.rows[r].releases == 0 && w.rows[r].dep
  {}

  lemma {:induction false} RowsRowsOk(w: World, t: nat, r: nat)
    requires t in w.pcs && r in w.rows && w.rows[r].stmt in w.stmts && (w.pcs[t] == RowsLock(r) || Closes(w.pcs[t], r))
    requires CanMove(w, t, w.pcs[t], None) && RowsOk(w, r) && TableOk(w)
    ensures var u := MoveRows(w, t, r);
            r in u.rows && RowsOk(u, r) && u.rows[r].stmt == w.rows[r].stmt
  {
    var u := MoveRows(w, t, r);
    RowsSeen(w, t, r);
    if w.pcs[t].RowsRemove? {
      assert DependsOn(w, w.rows[r].stmt, RowsObj(r));
      PairedRemoval(w, w.rows[r].stmt, RowsObj(r));
    }
    hide RowsOk, TableOk, Remove;
    RowsUpdate(w, u, t, r);
  }

  lemma {:induction false} RowsRemoveMove(w: World, t: nat, r: nat)
    requires t in w.pcs && r in w.rows && w.rows[r].stmt in w.stmts && w.pcs[t] == RowsRemove(r)
    requires RowsOk(w, r) && StmtOk(w, w.rows[r].stmt) && TableOk(w)
    ensures var u, s := MoveRows(w, t, r), w.rows[r].stmt;
            t in u.pcs && u.pcs == w.pcs[t := u.pcs[t]] && s in u.stmts && StmtMove(w, u, t, s)
  {
    var s := w.rows[r].stmt;
    AddingSeesTable(w, t, s);
    RowsSeen(w, t, r);
    assert DependsOn(w, s, RowsObj(r));
    PairedRemoval(w, s, RowsObj(r));
    hide StmtOk, TableOk, RowsOk, Remove;
  }

  lemma {:induction false} RowsFinalMove(w: World, t: nat, r: nat)
    requires t in w.pcs && r in w.rows && w.rows[r].stmt in w.stmts && w.pcs[t] == RowsFinal(r, w.rows[r].stmt)
    requires StmtOk(w, w.rows[r].stmt) && TableOk(w)
    ensures var u, s := MoveRows(w, t, r), w.rows[r].stmt;
            t in u.pcs && u.pcs == w.pcs[t := u.pcs[t]] && s in u.stmts && StmtMove(w, u, t, s)
  {
    AddingSeesTable(w, t, w.rows[r].stmt);
    hide StmtOk, TableOk, RowsOk, Remove;
  }

  lemma {:induction false} RowsStmtOk(w: World, t: nat, r: nat)
    requires t in w.pcs && r in w.rows && w.rows[r].stmt in w.stmts && (w.pcs[t] == RowsLock(r) || Closes(w.pcs[t], r))
    requires RowsOk(w, r) && StmtOk(w, w.rows[r].stmt) && TableOk(w)
    requires w.pcs[t].RowsFinal? ==> w.pcs[t].s == w.rows[r].stmt
    ensures var u := MoveRows(w, t, r);
            w.rows[r].stmt in u.stmts && StmtOk(u, w.rows[r].stmt)
  {
    var u, s := MoveRows(w, t, r), w.rows[r].stmt;
    if w.pcs[t].RowsRemove? {
      RowsRemoveMove(w, t, r);
      hide StmtOk, TableOk, RowsOk, Remove, MoveRows, StmtMove;
      StmtUpdate(w, u, t, s);
    } else if w.pcs[t].RowsFinal? {
      RowsFinalMove(w, t, r);
      hide StmtOk, TableOk, RowsOk, Remove, MoveRows, StmtMove;
      StmtUpdate(w, u, t, s);
    } else {
      hide StmtOk, TableOk, RowsOk, Remove;
      StmtFrame(w, u, t, s);
    }
  }

  lemma {:induction false} RowsStep(w: World, t: nat, r: nat)
    requires Inv(w) && t in w.pcs && r in w.rows && CanMove(w, t, w.pcs[t], None)
    requires w.pcs[t] == RowsLock(r) || Closes(w.pcs[t], r)
    requires w.pcs[t].RowsFinal? ==> w.pcs[t].s == w.rows[r].stmt
    ensures w.rows[r].stmt in w.stmts && Inv(MoveRows(w, t, r))
  {
    assert RowsOk(w, r);
    var s := w.rows[r].stmt;
    RowsSeen(w, t, r);
    assert StmtOk(w, s);
    hide TableOk, StmtOk, RowsOk, Framed, StmtMove, MoveRows, CanMove;
    RowsTable(w, t, r);
    RowsFramed(w, t, r);
    RowsRowsOk(w, t, r);
    RowsStmtOk(w, t, r);
    Assemble(w, MoveRows(w, t, r), t, s, Some(r));
  }

  lemma {:induction false} NobodyYet(w: World, s: nat)
    requires s !in w.stmts && forall t | t in w.pcs :: Known(w, w.pcs[t])
    ensures forall t: nat | t in w.pcs :: !Involves(w.pcs[t], s)
  {
    forall t: nat | t in w.pcs
      ensures !Involves(w.pcs[t], s)
    {
      assert Known(w, w.pcs[t]);
    }
  }

  lemma {:induction false} StmtKept(w: World, u: World, s: nat)
    requires s in w.stmts && s in u.stmts && u.stmts[s] == w.stmts[s] && u.pcs == w.pcs && StmtOk(w, s)
    requires StmtObj(s) in u.dep <==> StmtObj(s) in w.dep
    ensures StmtOk(u, s)
  {}

  lemma {:induction false} NewStmt(u: World, s: nat)
    requires s in u.stmts && u.stmts[s] == Stmt(false, {}, None, true, None, 0) && StmtObj(s) in u.dep
    requires forall t: nat | t in u.pcs :: !Involves(u.pcs[t], s)
    ensures StmtOk(u, s)
  {}

  lemma {:induction false} PrepareTable(w: World, s: nat)
    requires TableOk(w) && s !in w.stmts
    ensures TableOk(Do(w, Prepare(s)))
  {
    hide TableOk;
    TableAdded(w, Do(w, Prepare(s)), s, StmtObj(s));
  }

  lemma {:induction false} PrepareRows(w: World, s: nat, r: nat)
    requires s !in w.stmts && r in w.rows && RowsOk(w, r)
    ensures RowsOk(Do(w, Prepare(s)), r)
  {}

  lemma {:induction false} PrepareKnown(w: World, s: nat, pc: Pc)
    requires s !in w.stmts && Known(w, pc)
    ensures Known(Do(w, Prepare(s)), pc)
  {}

  lemma {:induction false} PrepareStmts(w: World, s: nat)
    requires s !in w.stmts && TableOk(w) && (forall s | s in w.stmts :: StmtOk(w, s))
             && (forall t | t in w.pcs :: Known(w, w.pcs[t]))
    ensures forall s': nat | s' in Do(w, Prepare(s)).stmts :: StmtOk(Do(w, Prepare(s)), s')
  {
    var u := Do(w, Prepare(s));
    NobodyYet(w, s);
    hide TableOk, StmtOk, Known, Involves;
    NewStmt(u, s);
    forall s': nat | s' in u.stmts && s' != s
      ensures StmtOk(u, s')
    {
      StmtKept(w, u, s');
    }
  }

  lemma {:induction false} PrepareStep(w: World, s: nat)
    requires Inv(w) && s !in w.stmts
    ensures Inv(Do(w, Prepare(s)))
  {
    hide TableOk, StmtOk, RowsOk, Known;
    var u := Do(w, Prepare(s));
    PrepareTable(w, s);
    PrepareStmts(w, s);
    forall r: nat | r in u.rows
      ensures RowsOk(u, r)
    {
      PrepareRows(w, s, r);
    }
    forall t: nat | t in u.pcs
      ensures Known(u, u.pcs[t])
    {
      PrepareKnown(w, s, w.pcs[t]);
    }
  }

  lemma {:induction false} SpawnFramed(w: World, t: nat, task: Task, s: nat)
    requires t !in w.pcs
    ensures Framed(w, At(w, t, First(task)), t, s, None)
  {}

  lemma {:induction false} SpawnStmt(w: World, t: nat, task: Task, s: nat)
    requires t !in w.pcs && s in w.stmts && StmtOk(w, s)
    ensures StmtOk(At(w, t, First(task)), s)
  {
    hide StmtOk;
    StmtFrame(w, At(w, t, First(task)), t, s);
  }

  lemma {:induction false} SpawnTable(w: World, t: nat, task: Task)
    requires TableOk(w)
    ensures TableOk(At(w, t, First(task)))
  {
    hide TableOk;
    TableSame(w, At(w, t, First(task)));
  }

  /** The statement that a goroutine is going to use. */
  lemma {:induction false} SpawnedFor(w: World, t: nat, task: Task) returns (s: nat)
    requires Inv(w) && Enabled(w, Spawn(t, task))
    ensures t !in w.pcs && s in w.stmts && StmtOk(w, s) && TableOk(w)
    ensures match task
            case Query(k) => s == k
            case CloseStmt(k) => s == k
            case CloseRows(r) => r in w.rows && s == w.rows[r].stmt
  {
    hide TableOk, StmtOk, DependsOn;
    match task
    case Query(k) => s := k;
    case CloseStmt(k) => s := k;
    case CloseRows(r) =>
      assert RowsOk(w, r);
      RowsOfStmt(w, r);
      s := w.rows[r].stmt;
  }

  lemma {:induction false} SpawnStep(w: World, t: nat, task: Task)
    requires Inv(w) && Enabled(w, Spawn(t, task))
    ensures Inv(Do(w, Spawn(t, task)))
  {
    hide Inv, TableOk, StmtOk, RowsOk, DependsOn, Framed;
    var s := SpawnedFor(w, t, task);
    SpawnStmt(w, t, task, s);
    SpawnTable(w, t, task);
    SpawnFramed(w, t, task, s);
    Assemble(w, At(w, t, First(task)), t, s, None);
  }

  lemma {:induction false} MoveStep(w: World, t: nat, r: Option<nat>)
    requires Inv(w) && Enabled(w, Move(t, r))
    ensures Inv(Do(w, Move(t, r)))
  {
    hide Inv, MoveQuery, MoveClose, MoveRows;
    match w.pcs[t]
    case QueryLock(s) => QueryStep(w, t, s, r);
    case QueryCheck(s) => QueryStep(w, t, s, r);
    case QueryAdd(s) => QueryStep(w, t, s, r);
    case QueryUnlock(s) => QueryStep(w, t, s, r);
    case CloseLock(s) => CloseStep(w, t, s);
    case CloseCheck(s) => CloseStep(w, t, s);
    case CloseRemove(s) => CloseStep(w, t, s);
    case CloseFinal(s) => CloseStep(w, t, s);
    case CloseUnlock(s) => CloseStep(w, t, s);
    case Over =>
    case pc => RowsStep(w, t, pc.r);
  }

  lemma {:induction false} InvStep(w: World, a: Action)
    requires Inv(w) && Enabled(w, a)
    ensures Inv(Do(w, a))
  {
    hide Inv, Do;
    match a
    case Prepare(s) => PrepareStep(w, s);
    case Spawn(t, task) => SpawnStep(w, t, task);
    case Move(t, r) => MoveStep(w, t, r);
  }

  /** The state after a run of actions, None if one of them is not possible when it is its turn. */
  function Exec(w: World, acts: seq<Action>): Option<World>
    decreases |acts|
  {
    if acts == [] then Some(w)
    else if !Enabled(w, acts[0]) then None
    else Exec(Do(w, acts[0]), acts[1..])
  }

  lemma {:induction false} InvExec(w: World, acts: seq<Action>)
    requires Inv(w)
    ensures match Exec(w, acts) case Some(u) => Inv(u) case None => true
    decreases |acts|
  {
    hide Inv, Enabled, Do;
    if acts != [] && Enabled(w, acts[0]) {
      InvStep(w, acts[0]);
      InvExec(Do(w, acts[0]), acts[1..]);
    }
  }

  lemma {:induction false} BeginInv()
    ensures Inv(Begin())
  {}

  /** Nobody is inside a Close. */
  predicate Quiet(w: World)
  {
    forall t | t in w.pcs :: !w.pcs[t].CloseRemove? && !w.pcs[t].CloseFinal? && !w.pcs[t].RowsRelease?
                             && !w.pcs[t].RowsRemove? && !w.pcs[t].RowsFinal?
  }

  lemma {:induction false} SomeDependency(w: World, s: nat)
    requires TableOk(w)
    ensures StmtObj(s) in w.dep ==> exists o :: DependsOn(w, s, o)
  {
    if StmtObj(s) in w.dep {
      var o :| o in w.dep[StmtObj(s)];
      assert DependsOn(w, s, o);
    }
  }

  /** In every state of every run: a removeDep that is about to run is paired; finalClose of a statement has
      run at most once, and only after Stmt.Close and after the close of every rows object the
      statement gave, whatever the order; when the closes have finished it has run exactly once. */
  lemma {:induction false} FinalCloseOnce(acts: seq<Action>, w: World, s: nat)
    requires Exec(Begin(), acts) == Some(w) && s in w.stmts
    ensures forall t | t in w.pcs && w.pcs[t] == CloseRemove(s) :: !Remove(w.dep, StmtObj(s), StmtObj(s)).Unpaired?
    ensures forall t, r | t in w.pcs && w.pcs[t] == RowsRemove(r) ::
              r in w.rows && !Remove(w.dep, StmtObj(w.rows[r].stmt), RowsObj(r)).Unpaired?
    ensures w.stmts[s].finals <= 1
    ensures w.stmts[s].finals == 1 ==>
              && w.stmts[s].closed
              && forall r | r in w.rows && w.rows[r].stmt == s :: w.rows[r].closed && w.rows[r].releases == 1
    ensures Quiet(w) && w.stmts[s].closed && (forall r | r in w.rows && w.rows[r].stmt == s :: w.rows[r].closed) ==>
              w.stmts[s].finals == 1
  {
    hide Exec, Enabled, Do, Inv, Quiet;
    BeginInv();
    InvExec(Begin(), acts);
    StmtFacts(w, s);
    RemovalsPaired(w, s);
    forall r | r in w.rows && w.rows[r].stmt == s
      ensures w.rows[r].dep ==> StmtObj(s) in w.dep
      ensures !w.rows[r].dep ==> w.rows[r].closed && w.rows[r].releases == 1
      ensures Quiet(w) && w.rows[r].closed ==> !w.rows[r].dep
    {
      RowsFacts(w, r);
    }
  }

  lemma {:induction false} RemovalsPaired(w: World, s: nat)
    requires Inv(w) && s in w.stmts
    ensures forall t | t in w.pcs && w.pcs[t] == CloseRemove(s) :: !Remove(w.dep, StmtObj(s), StmtObj(s)).Unpaired?
    ensures forall t, r | t in w.pcs && w.pcs[t] == RowsRemove(r) ::
              r in w.rows && !Remove(w.dep, StmtObj(w.rows[r].stmt), RowsObj(r)).Unpaired?
  {
    hide Inv, Remove;
    forall t | t in w.pcs && w.pcs[t] == CloseRemove(s)
      ensures !Remove(w.dep, StmtObj(s), StmtObj(s)).Unpaired?
    {
      StmtRemovalPaired(w, s, t);
    }
    forall t, r | t in w.pcs && w.pcs[t] == RowsRemove(r)
      ensures r in w.rows && !Remove(w.dep, StmtObj(w.rows[r].stmt), RowsObj(r)).Unpaired?
    {
      RowsRemovalPaired(w, r, t);
    }
  }

  lemma {:induction false} StmtRemovalPaired(w: World, s: nat, t: nat)
    requires Inv(w) && s in w.stmts && t in w.pcs && w.pcs[t] == CloseRemove(s)
    ensures !Remove(w.dep, StmtObj(s), StmtObj(s)).Unpaired?
  {
    hide RowsOk;
    assert StmtOk(w, s) && DependsOn(w, s, StmtObj(s));
  }

  lemma {:induction false} RowsRemovalPaired(w: World, r: nat, t: nat)
    requires Inv(w) && t in w.pcs && w.pcs[t] == RowsRemove(r)
    ensures r in w.rows && !Remove(w.dep, StmtObj(w.rows[r].stmt), RowsObj(r)).Unpaired?
  {
    hide StmtOk;
    assert Known(w, w.pcs[t]) && RowsOk(w, r) && DependsOn(w, w.rows[r].stmt, RowsObj(r));
  }

  /** finalClose and the dependencies of a statement. */
  lemma {:induction false} StmtFacts(w: World, s: nat)
    requires Inv(w) && s in w.stmts
    ensures w.stmts[s].finals <= 1
    ensures w.stmts[s].finals == 1 ==> StmtObj(s) !in w.dep
    ensures StmtObj(s) !in w.dep ==> w.stmts[s].closed && (Quiet(w) ==> w.stmts[s].finals == 1)
    ensures StmtObj(s) in w.dep && Quiet(w) && w.stmts[s].closed ==>
              exists r :: r in w.rows && w.rows[r].stmt == s && w.rows[r].dep
  {
    assert StmtOk(w, s);
    assert DependsOn(w, s, StmtObj(s)) <==> w.stmts[s].selfDep;
    hide RowsOk;
    SomeDependency(w, s);
  }

  lemma {:induction false} RowsFacts(w: World, r: nat)
    requires Inv(w) && r in w.rows
    ensures w.rows[r].dep ==> StmtObj(w.rows[r].stmt) in w.dep
    ensures !w.rows[r].dep ==> w.rows[r].closed && w.rows[r].releases == 1
    ensures Quiet(w) && w.rows[r].closed ==> !w.rows[r].dep
  {
    hide StmtOk;
    assert RowsOk(w, r);
    assert DependsOn(w, w.rows[r].stmt, RowsObj(r)) <==> w.rows[r].dep;
  }

  /** Rows.close releases the connection exactly once, however often and from wherever it is called. */
  lemma {:induction false} RowsReleaseOnce(acts: seq<Action>, w: World, r: nat)
    requires Exec(Begin(), acts) == Some(w) && r in w.rows
    ensures w.rows[r].releases <= 1
    ensures Quiet(w) ==> w.rows[r].releases == if w.rows[r].closed then 1 else 0
  {
    hide Exec, Enabled, Do, StmtOk, TableOk;
    BeginInv();
    InvExec(Begin(), acts);
    assert RowsOk(w, r);
  }

  /** The steps that a goroutine has still to take, at most. */
  function Left(pc: Pc): nat
  {
    match pc
    case QueryLock(_) => 4
    case QueryCheck(_) => 3
    case QueryAdd(_) => 2
    case QueryUnlock(_) => 1
    case CloseLock(_) => 5
    case CloseCheck(_) => 4
    case CloseRemove(_) => 3
    case CloseFinal(_) => 2
    case CloseUnlock(_) => 1
    case RowsLock(_) => 6
    case RowsCheck(_) => 5
    case RowsRelease(_) => 4
    case RowsRemove(_) => 3
    case RowsFinal(_, _) => 2
    case RowsUnlock(_) => 1
    case Over => 0
  }

  predicate Shorter(w: World, t: nat, u: World)
    requires t in w.pcs
  {
    t in u.pcs && Left(u.pcs[t]) < Left(w.pcs[t]) && u.pcs == w.pcs[t := u.pcs[t]]
  }

  lemma {:induction false} QueryShortens(w: World, t: nat, s: nat, r: Option<nat>)
    requires t in w.pcs && s in w.stmts
    requires w.pcs[t] == QueryLock(s) || w.pcs[t] == QueryCheck(s) || w.pcs[t] == QueryAdd(s)
             || w.pcs[t] == QueryUnlock(s)
    ensures Shorter(w, t, MoveQuery(w, t, s, r))
  {
    hide Add;
  }

  lemma {:induction false} CloseShortens(w: World, t: nat, s: nat)
    requires t in w.pcs && s in w.stmts
    requires w.pcs[t] == CloseLock(s) || Writes(w.pcs[t], s)
    requires w.pcs[t].CloseRemove? ==> !Remove(w.dep, StmtObj(s), StmtObj(s)).Unpaired?
    ensures Shorter(w, t, MoveClose(w, t, s))
  {
    hide Remove;
  }

  lemma {:induction false} RowsShortens(w: World, t: nat, r: nat)
    requires t in w.pcs && r in w.rows && w.rows[r].stmt in w.stmts
    requires w.pcs[t] == RowsLock(r) || Closes(w.pcs[t], r)
    requires w.pcs[t].RowsRemove? ==> !Remove(w.dep, StmtObj(w.rows[r].stmt), RowsObj(r)).Unpaired?
    ensures Shorter(w, t, MoveRows(w, t, r))
  {
    hide Remove;
  }

  lemma {:induction false} MoveShortens(w: World, t: nat, r: Option<nat>)
    requires Inv(w) && Enabled(w, Move(t, r))
    ensures Shorter(w, t, Do(w, Move(t, r)))
  {
    hide Inv, Shorter, MoveQuery, MoveClose, MoveRows, Remove;
    match w.pcs[t]
    case QueryLock(s) => QueryShortens(w, t, s, r);
    case QueryCheck(s) => QueryShortens(w, t, s, r);
    case QueryAdd(s) => QueryShortens(w, t, s, r);
    case QueryUnlock(s) => QueryShortens(w, t, s, r);
    case CloseLock(s) => CloseShortens(w, t, s);
    case CloseCheck(s) => CloseShortens(w, t, s);
    case CloseRemove(s) =>
      StmtRemovalPaired(w, s, t);
      CloseShortens(w, t, s);
    case CloseFinal(s) => CloseShortens(w, t, s);
    case CloseUnlock(s) => CloseShortens(w, t, s);
    case RowsRemove(q) =>
      RowsRemovalPaired(w, q, t);
      RowsShortens(w, t, q);
    case Over =>
    case pc => RowsShortens(w, t, pc.r);
  }

  /** Behind its lock a goroutine waits for nothing. */
  predicate Waiting(pc: Pc)
  {
    pc.QueryLock? || pc.CloseLock? || pc.RowsLock? || pc.Over?
  }

  lemma {:induction false} NotWaiting(w: World, t: nat)
    requires Inv(w) && t in w.pcs && !Waiting(w.pcs[t])
    ensures Enabled(w, Move(t, None))
  {
    hide TableOk, StmtOk, RowsOk;
  }

  lemma {:induction false} LockHolder(w: World, s: nat) returns (t2: nat)
    requires Inv(w) && s in w.stmts && (w.stmts[s].writer.Some? || w.stmts[s].readers != {})
    ensures t2 in w.pcs && !Waiting(w.pcs[t2])
  {
    assert StmtOk(w, s);
    hide TableOk, RowsOk;
    if w.stmts[s].writer.Some? {
      t2 := w.stmts[s].writer.value;
    } else {
      t2 :| t2 in w.stmts[s].readers;
    }
  }

  lemma {:induction false} RowsHolder(w: World, r: nat) returns (t2: nat)
    requires Inv(w) && r in w.rows && w.rows[r].holder.Some?
    ensures t2 in w.pcs && !Waiting(w.pcs[t2])
  {
    assert RowsOk(w, r);
    hide TableOk, StmtOk;
    t2 := w.rows[r].holder.value;
  }

  /** The lock that t waits for is free. */
  predicate LockFree(w: World, t: nat)
    requires t in w.pcs && Known(w, w.pcs[t])
  {
    match w.pcs[t]
    case QueryLock(s) => w.stmts[s].writer.None?
    case CloseLock(s) => w.stmts[s].writer.None? && w.stmts[s].readers == {}
    case RowsLock(r) => w.rows[r].holder.None?
    case _ => true
  }

  lemma {:induction false} LockFreeMoves(w: World, t: nat)
    requires t in w.pcs && Known(w, w.pcs[t]) && w.pcs[t] != Over && LockFree(w, t)
    ensures Enabled(w, Move(t, None))
  {}

  lemma {:induction false} LockTaken(w: World, t: nat) returns (t2: nat)
    requires Inv(w) && t in w.pcs && Known(w, w.pcs[t]) && !LockFree(w, t)
    ensures t2 in w.pcs && !Waiting(w.pcs[t2])
  {
    hide Inv;
    match w.pcs[t]
    case QueryLock(s) => t2 := LockHolder(w, s);
    case CloseLock(s) => t2 := LockHolder(w, s);
    case RowsLock(r) => t2 := RowsHolder(w, r);
  }

  /** The goroutine whose lock t waits for, or t itself. */
  lemma {:induction false} NextToMove(w: World, t: nat) returns (t2: nat)
    requires Inv(w) && t in w.pcs && w.pcs[t] != Over
    ensures Enabled(w, Move(t2, None))
  {
    assert Known(w, w.pcs[t]);
    hide Inv, LockFree, Enabled, Known;
    if LockFree(w, t) {
      t2 := t;
      LockFreeMoves(w, t);
    } else {
      t2 := LockTaken(w, t);
      NotWaiting(w, t2);
    }
  }

  /** No deadlock: in every state of every run in which some goroutine is not through, one can
      move, and every move brings the one that makes it nearer to its end. */
  lemma {:induction false} SomebodyMoves(acts: seq<Action>, w: World, t: nat) returns (t2: nat)
    requires Exec(Begin(), acts) == Some(w) && t in w.pcs && w.pcs[t] != Over
    ensures Enabled(w, Move(t2, None))
    ensures var u := Do(w, Move(t2, None)); t2 in u.pcs && Left(u.pcs[t2]) < Left(w.pcs[t2]) <= 6
  {
    hide Exec, Inv, Enabled, Do;
    BeginInv();
    InvExec(Begin(), acts);
    t2 := NextToMove(w, t);
    MoveShortens(w, t2, None);
  }

  /** A query on an open statement that nobody is closing gives rows, on which the statement then
      depends, and gives the lock back. */
  lemma {:induction false} QueryMakesRows(acts: seq<Action>, w: World, t: nat, s: nat, r: nat)
    requires Exec(Begin(), acts) == Some(w) && t in w.pcs && w.pcs[t] == QueryLock(s) && s in w.stmts
    requires !w.stmts[s].closed && w.stmts[s].writer.None? && r !in w.rows
    ensures match Exec(w, [Move(t, None), Move(t, None)] + [Move(t, Some(r)), Move(t, None)])
            case Some(u) =>
              && u.pcs == w.pcs[t := Over] && u.rows == w.rows[r := Rows(s, false, None, true, 0)]
              && u.dep == Add(w.dep, StmtObj(s), RowsObj(r))
              && s in u.stmts && u.stmts[s].readers == w.stmts[s].readers - {t} && !u.stmts[s].closed
            case None => false
  {
    var u2 := QueryChecks(w, t, s);
    var u3 := Do(u2, Move(t, Some(r)));
    QueryAdds(u2, t, s, r);
    var u4 := Do(u3, Move(t, None));
    assert w.stmts[s].readers + {t} - {t} == w.stmts[s].readers - {t};
    hide Exec, Add, Do, Enabled;
    TwoMoves(w, Move(t, None), Move(t, None), [Move(t, Some(r)), Move(t, None)]);
    TwoMoves(u2, Move(t, Some(r)), Move(t, None), []);
    assert [Move(t, Some(r)), Move(t, None)] + [] == [Move(t, Some(r)), Move(t, None)];
    NoMoves(u4);
  }

  /** Under the read lock, past the check. */
  function Checked(w: World, t: nat, s: nat): World
    requires s in w.stmts
  {
    SetStmt(At(w, t, QueryAdd(s)), s, w.stmts[s].(readers := w.stmts[s].readers + {t}))
  }

  lemma {:induction false} QueryChecks(w: World, t: nat, s: nat) returns (u2: World)
    requires t in w.pcs && w.pcs[t] == QueryLock(s) && s in w.stmts && !w.stmts[s].closed && w.stmts[s].writer.None?
    ensures Enabled(w, Move(t, None)) && Enabled(Do(w, Move(t, None)), Move(t, None))
    ensures u2 == Do(Do(w, Move(t, None)), Move(t, None)) == Checked(w, t, s)
  {
    var u1 := Do(w, Move(t, None));
    u2 := Do(u1, Move(t, None));
    assert u1 == SetStmt(At(w, t, QueryCheck(s)), s, w.stmts[s].(readers := w.stmts[s].readers + {t}));
    assert u2.pcs == Checked(w, t, s).pcs && u2.stmts == Checked(w, t, s).stmts;
  }

  lemma {:induction false} QueryAdds(u2: World, t: nat, s: nat, r: nat)
    requires t in u2.pcs && u2.pcs[t] == QueryAdd(s) && s in u2.stmts && r !in u2.rows
    ensures Enabled(u2, Move(t, Some(r)))
    ensures var u3 := Do(u2, Move(t, Some(r)));
            && Enabled(u3, Move(t, None))
            && var u4 := Do(u3, Move(t, None));
            && u4.pcs == u2.pcs[t := Over] && u4.rows == u2.rows[r := Rows(s, false, None, true, 0)]
            && u4.dep == Add(u2.dep, StmtObj(s), RowsObj(r))
            && s in u4.stmts && u4.stmts[s].readers == u2.stmts[s].readers - {t}
            && u4.stmts[s].closed == u2.stmts[s].closed
  {
    hide Add;
    var u3 := Do(u2, Move(t, Some(r)));
    assert u3.pcs == u2.pcs[t := QueryUnlock(s)] && u3.stmts == u2.stmts[s := u2.stmts[s]];
    assert u3.rows == u2.rows[r := Rows(s, false, None, true, 0)];
  }

  lemma {:induction false} NoMoves(w: World)
    ensures Exec(w, []) == Some(w)
  {}

  lemma {:induction false} TwoMoves(w: World, a: Action, b: Action, rest: seq<Action>)
    requires Enabled(w, a) && Enabled(Do(w, a), b)
    ensures Exec(w, [a, b] + rest) == Exec(Do(Do(w, a), b), rest)
  {
    hide Enabled, Do;
    assert ([a, b] + rest)[1..] == [b] + rest && ([b] + rest)[1..] == rest;
  }

  /** A closed statement gives no rows any more: no query stands before the step that makes them. */
  lemma {:induction false} ClosedGivesNoRows(acts: seq<Action>, w: World, t: nat, s: nat)
    requires Exec(Begin(), acts) == Some(w) && t in w.pcs && w.pcs[t] == QueryAdd(s)
    ensures s in w.stmts && !w.stmts[s].closed
  {
    BeginInv();
    InvExec(Begin(), acts);
    hide Exec, TableOk, RowsOk;
    assert Known(w, w.pcs[t]) && StmtOk(w, s);
  }
}
