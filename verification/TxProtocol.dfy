// The end of a transaction (transaction.go: grabConn, closemuRUnlockRelease, Commit, rollback,
// awaitDone, close) as a state machine. Any number of goroutines run queries, Commit, Rollback
// and the context-driven rollback on one Tx; every access to done, closemu, dc, txi and the
// context is a step of its own.
module TxProtocol {

  datatype Option<T> = None | Some(value: T)

  datatype DriverErr = Fine | BadConn | Other

  datatype DriverCall = DriverCommit | DriverRollback

  /** How a transaction ends; a rollback may ask for the connection to be discarded. */
  datatype How = ByCommit | ByRollback(discard: bool)

  /** The winner of the race on done, from tx.cancel() to the end of tx.close. */
  datatype Phase = ToCancel | ToLock | ToUnlock | ToEnd | ToCloseStmts | ToRelease | ToDropDc | ToDropTxi | Over

  datatype Why = TxDone | ContextErr

  datatype Pc =
    // grabConn, and the query until its release
    | QueryCtx | QueryRLock | QueryCheck | QueryRead | QueryHolds(hasConn: bool) | QueryReleased | QueryFailed(why: Why)
    // Commit before the compare-and-swap
    | CommitCtx | CommitLoad
    | Awaiting                              // awaitDone: before <-tx.ctx.Done()
    | Cas(how: How)                         // before the compare-and-swap
    | Ending(how: How, phase: Phase, err: DriverErr)
    | Refused(why: Why)

  datatype Tx = Tx(
    keepConnOnRollback: bool,
    pcs: map<nat, Pc>,                      // goroutines by number
    done: bool,
    ctxDone: bool,                          // tx.ctx
    readers: set<nat>,                      // closemu, held for reading
    writer: Option<nat>,                    // closemu, held for writing
    hasDc: bool,                            // tx.dc != nil
    hasTxi: bool,                           // tx.txi != nil
    winner: Option<nat>,                    // history: whose compare-and-swap succeeded
    past: Past)

  /** History. */
  datatype Past = Past(
    tasks: map<nat, Task>,                  // what each goroutine was started for
    calls: seq<DriverCall>,                 // what the driver was told
    answer: DriverErr,                      // its last answer
    releases: nat,                          // calls of releaseConn
    releaseErr: DriverErr)                  // the argument of the last one

  function Begin(keepConnOnRollback: bool): Tx
  {
    Tx(keepConnOnRollback, map[], false, false, {}, None, true, true, None,
      Past(map[], [], Fine, 0, Fine))
  }

  datatype Task = Query | Commit | Rollback | AwaitDone

  datatype Action =
    | Spawn(t: nat, task: Task)
    | Move(t: nat, ctxDone: bool, err: DriverErr)  // the query's own context, the driver's answer
    | CancelCtx                                    // the context of the transaction is cancelled

  predicate CanMove(s: Tx, t: nat, pc: Pc)
  {
    match pc
    case QueryRLock => s.writer.None?
    case QueryReleased => false
    case QueryFailed(_) => false
    case Awaiting => s.ctxDone
    case Ending(_, ToLock, _) => s.writer.None? && s.readers == {}
    case Ending(_, Over, _) => false
    case Refused(_) => false
    case _ => true
  }

  predicate Enabled(s: Tx, a: Action)
  {
    match a
    case Spawn(t, _) => t !in s.pcs
    case Move(t, _, _) => t in s.pcs && CanMove(s, t, s.pcs[t])
    case CancelCtx => true
  }

  predicate Holds(pc: Pc)
  {
    pc.QueryRead? || pc.QueryHolds?
  }

  predicate SomebodyHolds(s: Tx)
  {
    exists t :: t in s.pcs && Holds(s.pcs[t])
  }

  function First(task: Task): Pc
  {
    match task
    case Query => QueryCtx
    case Commit => CommitCtx
    case Rollback => Cas(ByRollback(false))
    case AwaitDone => Awaiting
  }

  function At(s: Tx, t: nat, pc: Pc): Tx
  {
    s.(pcs := s.pcs[t := pc])
  }

  function MoveQuery(s: Tx, t: nat, ctxDone: bool): Tx
    requires t in s.pcs
  {
    match s.pcs[t]
    case QueryCtx => At(s, t, if ctxDone then QueryFailed(ContextErr) else QueryRLock)
    case QueryRLock => At(s, t, QueryCheck).(readers := s.readers + {t})
    case QueryCheck =>
      if s.done then At(s, t, QueryFailed(TxDone)).(readers := s.readers - {t}) else At(s, t, QueryRead)
    case QueryRead => At(s, t, QueryHolds(s.hasDc))
    case QueryHolds(_) => At(s, t, QueryReleased).(readers := s.readers - {t})
    case _ => s
  }

  function CallFor(how: How): DriverCall
  {
    if how.ByCommit? then DriverCommit else DriverRollback
  }

  function Start(p: Past, t: nat, task: Task): Past
  {
    p.(tasks := p.tasks[t := task])
  }

  function Call(p: Past, call: DriverCall, answer: DriverErr): Past
  {
    p.(calls := p.calls + [call], answer := answer)
  }

  function Release(p: Past, err: DriverErr): Past
  {
    p.(releases := p.releases + 1, releaseErr := err)
  }

  function MoveEnding(s: Tx, t: nat, how: How, phase: Phase, err: DriverErr, answer: DriverErr): Tx
    requires t in s.pcs
  {
    match phase
    case ToCancel => At(s, t, Ending(how, ToLock, err)).(ctxDone := true)
    case ToLock => At(s, t, Ending(how, ToUnlock, err)).(writer := Some(t))
    case ToUnlock => At(s, t, Ending(how, ToEnd, err)).(writer := None)
    case ToEnd =>
      At(s, t, Ending(how, ToCloseStmts, answer)).(past := Call(s.past, CallFor(how), answer))
    case ToCloseStmts => At(s, t, Ending(how, ToRelease, if how == ByRollback(true) then BadConn else err))
    case ToRelease => At(s, t, Ending(how, ToDropDc, err)).(past := Release(s.past, err))
    case ToDropDc => At(s, t, Ending(how, ToDropTxi, err)).(hasDc := false)
    case ToDropTxi => At(s, t, Ending(how, Over, err)).(hasTxi := false)
    case Over => s
  }

  function Do(s: Tx, a: Action): Tx
    requires Enabled(s, a)
  {
    match a
    case Spawn(t, task) => At(s, t, First(task)).(past := Start(s.past, t, task))
    case CancelCtx => s.(ctxDone := true)
    case Move(t, ctxDone, answer) =>
      match s.pcs[t]
      case CommitCtx => At(s, t, if s.ctxDone then CommitLoad else Cas(ByCommit))
      case CommitLoad => At(s, t, Refused(if s.done then TxDone else ContextErr))
      case Awaiting => At(s, t, Cas(ByRollback(!s.keepConnOnRollback)))
      case Cas(how) =>
        if s.done then At(s, t, Refused(TxDone))
        else At(s, t, Ending(how, ToCancel, Fine)).(done := true, winner := Some(t))
      case Ending(how, phase, err) => MoveEnding(s, t, how, phase, err, answer)
      case _ => MoveQuery(s, t, ctxDone)
  }

  function Rank(p: Phase): nat
  {
    match p
    case ToCancel => 0
    case ToLock => 1
    case ToUnlock => 2
    case ToEnd => 3
    case ToCloseStmts => 4
    case ToRelease => 5
    case ToDropDc => 6
    case ToDropTxi => 7
    case Over => 8
  }

  /** How far the winner has come; 0 as well while there is none. */
  function Reached(s: Tx): nat
  {
    if s.winner.Some? && s.winner.value in s.pcs && s.pcs[s.winner.value].Ending? then Rank(s.pcs[s.winner.value].phase)
      else 0
  }

  predicate Race(s: Tx)
  {
    && s.done == s.winner.Some?
    && (s.winner.Some? ==> s.winner.value in s.pcs && s.pcs[s.winner.value].Ending?)
    && (forall t | t in s.pcs && s.pcs[t].Ending? :: s.winner == Some(t))
    && (forall t | t in s.pcs && SaysDone(s.pcs[t]) :: s.done)
  }

  /** ErrTxDone was returned. */
  predicate SaysDone(pc: Pc)
  {
    pc == Refused(TxDone) || pc == QueryFailed(TxDone)
  }

  predicate ReadLocked(pc: Pc)
  {
    pc.QueryCheck? || Holds(pc)
  }

  ghost predicate Locks(s: Tx)
  {
    && (forall t :: t in s.readers <==> t in s.pcs && ReadLocked(s.pcs[t]))
    && (s.writer.Some? ==> s.readers == {})
    && s.writer == (if Reached(s) == 2 then s.winner else None)
  }

  predicate Connection(s: Tx)
  {
    && (Reached(s) >= 2 ==> !SomebodyHolds(s))
    && s.hasDc == (Reached(s) < 7) && s.hasTxi == (Reached(s) < 8)
    && (forall t | t in s.pcs && s.pcs[t].QueryHolds? :: s.pcs[t].hasConn)
  }

  predicate History(s: Tx)
    requires Race(s)
  {
    && |s.past.calls| == (if Reached(s) >= 4 then 1 else 0)
    && s.past.releases == (if Reached(s) >= 6 then 1 else 0)
    && (Reached(s) >= 5 && s.pcs[s.winner.value].how == ByRollback(true) ==> s.pcs[s.winner.value].err == BadConn)
    && (s.past.releases == 1 ==> s.past.releaseErr == s.pcs[s.winner.value].err)
  }

  ghost predicate Inv(s: Tx)
  {
    Race(s) && Locks(s) && Connection(s) && History(s)
  }

  lemma {:induction false} SpawnStep(s: Tx, t: nat, task: Task)
    requires Inv(s) && t !in s.pcs
    ensures Inv(At(s, t, First(task)).(past := Start(s.past, t, task)))
  {
    var u := At(s, t, First(task)).(past := Start(s.past, t, task));
    assert forall k | k in s.pcs :: u.pcs[k] == s.pcs[k];
  }

  /** A goroutine that is not the winner moves on; r is the new set of readers. */
  lemma {:induction false} OtherMoves(s: Tx, t: nat, pc: Pc, r: set<nat>)
    requires Inv(s) && t in s.pcs && !s.pcs[t].Ending? && !pc.Ending?
    requires r == (if ReadLocked(pc) then s.readers + {t} else s.readers - {t})
    requires ReadLocked(pc) && !ReadLocked(s.pcs[t]) ==> s.writer.None?
    requires Holds(pc) && !Holds(s.pcs[t]) ==> !s.done
    requires SaysDone(pc) ==> s.done
    requires pc.QueryHolds? ==> pc.hasConn
    ensures Inv(At(s, t, pc).(readers := r))
  {
    var u := At(s, t, pc).(readers := r);
    assert forall k | k in s.pcs && k != t :: u.pcs[k] == s.pcs[k];
    assert Reached(u) == Reached(s);
    if SomebodyHolds(u) && Holds(pc) && !Holds(s.pcs[t]) {
      assert Reached(s) == 0;
    }
  }

  lemma {:induction false} QueryStep(s: Tx, t: nat, ctxDone: bool)
    requires Inv(s) && t in s.pcs && CanMove(s, t, s.pcs[t]) && !s.pcs[t].Ending?
    ensures Inv(MoveQuery(s, t, ctxDone))
  {
    HolderSeesConn(s, t);
    hide Inv;
    match s.pcs[t]
    case QueryCtx => OtherMoves(s, t, if ctxDone then QueryFailed(ContextErr) else QueryRLock, s.readers - {t});
    case QueryRLock => OtherMoves(s, t, QueryCheck, s.readers + {t});
    case QueryCheck =>
      if s.done {
        OtherMoves(s, t, QueryFailed(TxDone), s.readers - {t});
      } else {
        OtherMoves(s, t, QueryRead, s.readers + {t});
      }
    case QueryRead => OtherMoves(s, t, QueryHolds(s.hasDc), s.readers + {t});
    case QueryHolds(_) => OtherMoves(s, t, QueryReleased, s.readers - {t});
    case _ =>
  }

  lemma {:induction false} HolderSeesConn(s: Tx, t: nat)
    requires Inv(s) && t in s.pcs
    ensures Holds(s.pcs[t]) ==> s.hasDc
    ensures t in s.readers <==> ReadLocked(s.pcs[t])
    ensures t in s.readers ==> s.readers + {t} == s.readers
    ensures t !in s.readers ==> s.readers - {t} == s.readers
  {}

  /** What every step of the winner has in common. */
  predicate WinnerMoved(s: Tx, t: nat, u: Tx)
  {
    && t in s.pcs && t in u.pcs && s.pcs[t].Ending? && u.pcs[t].Ending? && u.pcs == s.pcs[t := u.pcs[t]]
    && u.winner == s.winner && u.done == s.done && u.readers == s.readers && Reached(u) == Reached(s) + 1
  }

  lemma {:induction false} EndingRace(s: Tx, t: nat, u: Tx)
    requires Race(s) && WinnerMoved(s, t, u)
    ensures Race(u)
  {}

  lemma {:induction false} EndingLocks(s: Tx, t: nat, u: Tx)
    requires Race(s) && Locks(s) && WinnerMoved(s, t, u)
    requires u.writer == (if Reached(u) == 2 then s.winner else None) && (Reached(s) == 1 ==> s.readers == {})
    ensures Locks(u)
  {}

  lemma {:induction false} EndingConnection(s: Tx, t: nat, u: Tx)
    requires Race(s) && Locks(s) && Connection(s) && WinnerMoved(s, t, u) && (Reached(s) == 1 ==> s.readers == {})
    requires u.hasDc == (Reached(u) < 7) && u.hasTxi == (Reached(u) < 8)
    ensures Connection(u)
  {
    if Reached(s) == 1 {
      assert forall k | k in s.pcs :: ReadLocked(s.pcs[k]) ==> k in s.readers;
    }
  }

  function EndingMove(s: Tx, t: nat, answer: DriverErr): Tx
    requires t in s.pcs && s.pcs[t].Ending?
  {
    MoveEnding(s, t, s.pcs[t].how, s.pcs[t].phase, s.pcs[t].err, answer)
  }

  lemma {:induction false} WinnerAdvances(s: Tx, t: nat, answer: DriverErr)
    requires Inv(s) && t in s.pcs && CanMove(s, t, s.pcs[t]) && s.pcs[t].Ending?
    ensures var u := EndingMove(s, t, answer);
            && WinnerMoved(s, t, u) && (Reached(s) == 1 ==> s.readers == {})
            && u.writer == (if Reached(u) == 2 then s.winner else None)
            && u.hasDc == (Reached(u) < 7) && u.hasTxi == (Reached(u) < 8)
  {
    hide SomebodyHolds, Holds;
    assert s.winner == Some(t);
  }

  lemma {:induction false} EndingHistory(s: Tx, t: nat, answer: DriverErr)
    requires Race(s) && Connection(s) && History(s) && t in s.pcs && CanMove(s, t, s.pcs[t]) && s.pcs[t].Ending?
    requires Race(EndingMove(s, t, answer))
    ensures History(EndingMove(s, t, answer))
  {
    hide SomebodyHolds, Holds;
    assert s.winner == Some(t) && (Reached(s) >= 2 ==> !SomebodyHolds(s));
    hide Race, Connection, CanMove;
    match s.pcs[t].phase
    case ToCancel =>
    case ToLock =>
    case ToUnlock =>
    case ToEnd =>
    case ToCloseStmts =>
    case ToRelease =>
    case ToDropDc =>
    case ToDropTxi =>
    case Over =>
  }

  lemma {:induction false} EndingStep(s: Tx, t: nat, answer: DriverErr)
    requires Inv(s) && t in s.pcs && CanMove(s, t, s.pcs[t]) && s.pcs[t].Ending?
    ensures Inv(EndingMove(s, t, answer))
  {
    hide Race, Locks, Connection, History, Reached, EndingMove;
    var u := EndingMove(s, t, answer);
    WinnerAdvances(s, t, answer);
    EndingRace(s, t, u);
    EndingLocks(s, t, u);
    EndingConnection(s, t, u);
    EndingHistory(s, t, answer);
  }

  lemma {:induction false} RaceStep(s: Tx, a: Action)
    requires Inv(s) && Enabled(s, a) && a.Move?
    requires s.pcs[a.t].CommitCtx? || s.pcs[a.t].CommitLoad? || s.pcs[a.t].Awaiting? || s.pcs[a.t].Cas?
    ensures Inv(Do(s, a))
  {
    var t := a.t;
    HolderSeesConn(s, t);
    match s.pcs[t]
    case CommitCtx => OtherMoves(s, t, if s.ctxDone then CommitLoad else Cas(ByCommit), s.readers);
    case CommitLoad => OtherMoves(s, t, Refused(if s.done then TxDone else ContextErr), s.readers);
    case Awaiting => OtherMoves(s, t, Cas(ByRollback(!s.keepConnOnRollback)), s.readers);
    case Cas(how) =>
      if s.done {
        OtherMoves(s, t, Refused(TxDone), s.readers);
      } else {
        WinsRace(s, t, how);
      }
  }

  lemma {:induction false} WinsRace(s: Tx, t: nat, how: How)
    requires Inv(s) && t in s.pcs && s.pcs[t] == Cas(how) && !s.done
    ensures Inv(At(s, t, Ending(how, ToCancel, Fine)).(done := true, winner := Some(t)))
  {
    var u := At(s, t, Ending(how, ToCancel, Fine)).(done := true, winner := Some(t));
    assert forall k | k in s.pcs && k != t :: u.pcs[k] == s.pcs[k];
    assert Reached(u) == Reached(s);
  }

  lemma {:induction false} InvStep(s: Tx, a: Action)
    requires Inv(s) && Enabled(s, a)
    ensures Inv(Do(s, a))
  {
    match a
    case Spawn(t, task) => SpawnStep(s, t, task);
    case CancelCtx =>
    case Move(t, ctxDone, answer) =>
      hide Inv;
      match s.pcs[t]
      case CommitCtx => RaceStep(s, a);
      case CommitLoad => RaceStep(s, a);
      case Awaiting => RaceStep(s, a);
      case Cas(_) => RaceStep(s, a);
      case Ending(_, _, _) => EndingStep(s, t, answer);
      case _ => QueryStep(s, t, ctxDone);
  }

  /** The state after a run of actions, None if one of them is not possible when it is its turn. */
  function Exec(s: Tx, acts: seq<Action>): Option<Tx>
    decreases |acts|
  {
    if acts == [] then Some(s)
    else if !Enabled(s, acts[0]) then None
    else Exec(Do(s, acts[0]), acts[1..])
  }

  lemma {:induction false} InvExec(s: Tx, acts: seq<Action>)
    requires Inv(s)
    ensures match Exec(s, acts) case Some(t) => Inv(t) case None => true
    decreases |acts|
  {
    hide Inv, Enabled, Do;
    if acts != [] && Enabled(s, acts[0]) {
      InvStep(s, acts[0]);
      InvExec(Do(s, acts[0]), acts[1..]);
    }
  }

  /** The way of ending that belongs to a task: only the context's rollback discards, and only if
      the connection is not to be kept. */
  predicate EndsBy(task: Task, how: How, keep: bool)
  {
    match task
    case Query => false
    case Commit => how.ByCommit?
    case Rollback => how.ByRollback? && !how.discard
    case AwaitDone => how.ByRollback? && how.discard == !keep
  }

  /** A goroutine with this task can be at pc. */
  predicate PlaceOf(task: Task, pc: Pc, keep: bool)
  {
    match pc
    case CommitCtx => task.Commit?
    case CommitLoad => task.Commit?
    case Awaiting => task.AwaitDone?
    case Cas(how) => EndsBy(task, how, keep)
    case Ending(how, _, _) => EndsBy(task, how, keep)
    case Refused(why) => !task.Query? && (why.ContextErr? ==> task.Commit?)
    case _ => task.Query?
  }

  /** The error that Commit or rollback hands on, given the driver's answer. */
  function ErrorFor(how: How, answer: DriverErr): DriverErr
  {
    if how == ByRollback(true) then BadConn else answer
  }

  predicate Places(s: Tx)
  {
    && s.pcs.Keys == s.past.tasks.Keys
    && (forall t | t in s.pcs :: PlaceOf(s.past.tasks[t], s.pcs[t], s.keepConnOnRollback))
    && (forall t | t in s.pcs && (s.pcs[t].CommitLoad? || s.pcs[t] == Refused(ContextErr)) :: s.ctxDone)
  }

  /** What the driver was told and what it answered. */
  predicate Told(s: Tx)
  {
    && (Reached(s) >= 1 ==> s.ctxDone)
    && (Reached(s) >= 4 ==>
      && s.winner.Some? && s.winner.value in s.pcs && s.pcs[s.winner.value].Ending?
      && var e := s.pcs[s.winner.value];
      && s.past.calls == [CallFor(e.how)]
      && e.err == if Reached(s) == 4 then s.past.answer else ErrorFor(e.how, s.past.answer))
  }

  lemma {:induction false} PlacesMove(s: Tx, t: nat, pc: Pc, u: Tx)
    requires Places(s) && t in s.pcs && u.pcs == s.pcs[t := pc] && u.past.tasks == s.past.tasks
    requires u.keepConnOnRollback == s.keepConnOnRollback && (s.ctxDone ==> u.ctxDone)
    requires PlaceOf(s.past.tasks[t], pc, s.keepConnOnRollback)
    requires pc.CommitLoad? || pc == Refused(ContextErr) ==> u.ctxDone
    ensures Places(u)
  {
    hide PlaceOf;
  }

  /** What no step changes, and what only the winner changes. */
  predicate Carried(s: Tx, u: Tx)
  {
    u.past.tasks == s.past.tasks && u.keepConnOnRollback == s.keepConnOnRollback && (s.ctxDone ==> u.ctxDone)
  }

  predicate SameCalls(s: Tx, u: Tx)
  {
    u.past.calls == s.past.calls && u.past.answer == s.past.answer
  }

  lemma {:induction false} AtCarries(s: Tx, t: nat, pc: Pc, r: set<nat>)
    ensures var u := At(s, t, pc).(readers := r);
            && Carried(s, u) && Carried(s, At(s, t, pc)) && SameCalls(s, u) && SameCalls(s, At(s, t, pc))
            && u.pcs == s.pcs[t := pc] == At(s, t, pc).pcs && u.winner == s.winner == At(s, t, pc).winner
  {}

  lemma {:induction false} QueryCarries(s: Tx, t: nat, ctxDone: bool)
    requires t in s.pcs
    ensures var u := MoveQuery(s, t, ctxDone);
            && Carried(s, u) && SameCalls(s, u) && t in u.pcs && u.pcs == s.pcs[t := u.pcs[t]] && u.winner == s.winner
            && (PlaceOf(Query, s.pcs[t], s.keepConnOnRollback) ==> PlaceOf(Query, u.pcs[t], s.keepConnOnRollback))
  {
    assert s.pcs[t := s.pcs[t]] == s.pcs;
    hide At, Carried;
    var more, less := s.readers + {t}, s.readers - {t};
    match s.pcs[t]
    case QueryCtx => AtCarries(s, t, if ctxDone then QueryFailed(ContextErr) else QueryRLock, more);
    case QueryRLock => AtCarries(s, t, QueryCheck, more);
    case QueryCheck => AtCarries(s, t, if s.done then QueryFailed(TxDone) else QueryRead, less);
    case QueryRead => AtCarries(s, t, QueryHolds(s.hasDc), more);
    case QueryHolds(_) => AtCarries(s, t, QueryReleased, less);
    case _ => Same(s);
  }

  lemma {:induction false} Same(s: Tx)
    ensures Carried(s, s) && SameCalls(s, s)
  {}

  lemma {:induction false} EndingCarries(s: Tx, t: nat, how: How, phase: Phase, err: DriverErr, answer: DriverErr)
    requires t in s.pcs
    ensures var u := MoveEnding(s, t, how, phase, err, answer);
            Carried(s, u) && t in u.pcs && u.pcs == s.pcs[t := u.pcs[t]] && u.winner == s.winner
            && (phase.Over? || (u.pcs[t].Ending? && u.pcs[t].how == how && Rank(u.pcs[t].phase) == Rank(phase) + 1))
            && (phase.ToEnd? || SameCalls(s, u))
            && (phase.ToEnd? ==> u.past.calls == s.past.calls + [CallFor(how)] && u.past.answer == answer
                                 && u.pcs[t].err == answer)
            && (phase.ToCloseStmts? ==> u.pcs[t].err == ErrorFor(how, err))
            && (!phase.Over? && !phase.ToEnd? && !phase.ToCloseStmts? ==> u.pcs[t].err == err)
            && (phase.ToCancel? ==> u.ctxDone)
  {
    hide SomebodyHolds;
  }

  lemma {:induction false} MoveCarries(s: Tx, a: Action)
    requires Enabled(s, a) && a.Move?
    ensures var u := Do(s, a);
            && Carried(s, u) && (!s.pcs[a.t].Ending? ==> SameCalls(s, u)) && a.t in u.pcs
            && u.pcs == s.pcs[a.t := u.pcs[a.t]]
            && u.winner == (if s.pcs[a.t].Cas? && !s.done then Some(a.t) else s.winner)
  {
    hide SomebodyHolds, MoveQuery, MoveEnding;
    var t, ctxDone, answer := a.t, a.ctxDone, a.err;
    match s.pcs[t]
    case Ending(how, phase, err) => EndingCarries(s, t, how, phase, err, answer);
    case Cas(_) =>
    case CommitCtx =>
    case CommitLoad =>
    case Awaiting =>
    case _ => QueryCarries(s, t, ctxDone);
  }

  lemma {:induction false} OtherCarries(s: Tx, a: Action)
    requires Enabled(s, a) && !a.Move?
    ensures var u := Do(s, a);
            && u.keepConnOnRollback == s.keepConnOnRollback && (s.ctxDone ==> u.ctxDone) && SameCalls(s, u)
            && u.winner == s.winner && u.pcs == if a.CancelCtx? then s.pcs else s.pcs[a.t := First(a.task)]
    ensures a.CancelCtx? ==> Do(s, a).past == s.past
  {}

  lemma {:induction false} PlaceStep(s: Tx, a: Action)
    requires Places(s) && Enabled(s, a) && a.Move?
    ensures var u := Do(s, a);
            && a.t in u.pcs && PlaceOf(s.past.tasks[a.t], u.pcs[a.t], s.keepConnOnRollback)
            && (u.pcs[a.t].CommitLoad? || u.pcs[a.t] == Refused(ContextErr) ==> u.ctxDone)
  {
    hide SomebodyHolds, MoveEnding, MoveQuery, Carried;
    var t, ctxDone, answer := a.t, a.ctxDone, a.err;
    assert PlaceOf(s.past.tasks[t], s.pcs[t], s.keepConnOnRollback);
    if Racing(s.pcs[t]) {
      RacePlaces(s, a);
    } else if s.pcs[t].Ending? {
      var e := s.pcs[t];
      hide Places;
      EndingCarries(s, t, e.how, e.phase, e.err, answer);
    } else {
      hide Places;
      QueryCarries(s, t, ctxDone);
    }
  }

  predicate Racing(pc: Pc)
  {
    pc.CommitCtx? || pc.CommitLoad? || pc.Awaiting? || pc.Cas?
  }

  lemma {:induction false} RacePlaces(s: Tx, a: Action)
    requires Places(s) && Enabled(s, a) && a.Move? && Racing(s.pcs[a.t])
    ensures var u := Do(s, a);
            && a.t in u.pcs && PlaceOf(s.past.tasks[a.t], u.pcs[a.t], s.keepConnOnRollback)
            && (u.pcs[a.t].CommitLoad? || u.pcs[a.t] == Refused(ContextErr) ==> u.ctxDone)
  {
    assert PlaceOf(s.past.tasks[a.t], s.pcs[a.t], s.keepConnOnRollback);
  }

  lemma {:induction false} PlacesStep(s: Tx, a: Action)
    requires Places(s) && Enabled(s, a)
    ensures Places(Do(s, a))
  {
    hide PlaceOf;
    var u := Do(s, a);
    if a.Spawn? {
      SpawnPlaces(s, a.t, a.task);
    } else {
      if a.Move? {
        MoveCarries(s, a);
        PlaceStep(s, a);
        hide Do, Enabled;
        PlacesMove(s, a.t, u.pcs[a.t], u);
      } else {
        OtherCarries(s, a);
      }
    }
  }

  lemma {:induction false} SpawnIs(s: Tx, t: nat, task: Task)
    requires t !in s.pcs
    ensures var u := Do(s, Spawn(t, task));
            && u.pcs == s.pcs[t := First(task)] && u.past.tasks == s.past.tasks[t := task]
            && u.keepConnOnRollback == s.keepConnOnRollback && u.ctxDone == s.ctxDone
  {
    hide First;
  }

  lemma {:induction false} FirstPlace(task: Task, keep: bool)
    ensures PlaceOf(task, First(task), keep) && !First(task).CommitLoad? && !First(task).Refused?
  {}

  lemma {:induction false} SpawnPlaces(s: Tx, t: nat, task: Task)
    requires Places(s) && t !in s.pcs
    ensures Places(Do(s, Spawn(t, task)))
  {
    SpawnIs(s, t, task);
    FirstPlace(task, s.keepConnOnRollback);
    hide PlaceOf, First, Do, Enabled;
  }

  lemma {:induction false} ToldStep(s: Tx, a: Action)
    requires Inv(s) && Told(s) && Enabled(s, a)
    ensures Told(Do(s, a))
  {
    hide SomebodyHolds, Locks, Connection;
    if a.Move? && s.pcs[a.t].Ending? {
      EndingTold(s, a.t, a.err);
    } else {
      Carries(s, a);
      hide Do, Enabled;
      if Reached(Do(s, a)) >= 4 {
        WinnerStays(s, a);
      }
    }
  }

  lemma {:induction false} EndingTold(s: Tx, t: nat, answer: DriverErr)
    requires Race(s) && History(s) && Told(s) && t in s.pcs && s.pcs[t].Ending? && CanMove(s, t, s.pcs[t])
    ensures Told(EndingMove(s, t, answer))
  {
    hide SomebodyHolds;
    assert s.winner == Some(t) && Reached(s) == Rank(s.pcs[t].phase) && !s.pcs[t].phase.Over?;
    hide Race, CanMove;
    var e := s.pcs[t];
    EndingCarries(s, t, e.how, e.phase, e.err, answer);
    hide MoveEnding;
    if e.phase.ToEnd? {
      assert s.past.calls + [CallFor(e.how)] == [CallFor(e.how)];
    }
  }

  lemma {:induction false} WinnerStays(s: Tx, a: Action)
    requires Race(s) && Enabled(s, a) && !(a.Move? && s.pcs[a.t].Ending?) && Reached(Do(s, a)) >= 4
    ensures var u := Do(s, a);
            && u.winner == s.winner && s.winner.Some? && s.winner.value in s.pcs && s.winner.value in u.pcs
            && u.pcs[u.winner.value] == s.pcs[s.winner.value]
  {
    Carries(s, a);
    hide Do;
  }

  lemma {:induction false} Carries(s: Tx, a: Action)
    requires Enabled(s, a)
    ensures var u := Do(s, a);
            && u.keepConnOnRollback == s.keepConnOnRollback && (s.ctxDone ==> u.ctxDone)
            && ((a.Move? && s.pcs[a.t].Ending?) || SameCalls(s, u))
            && (!a.Move? ==> u.winner == s.winner)
            && (a.CancelCtx? ==> u.pcs == s.pcs)
            && (!a.CancelCtx? ==> a.t in u.pcs && u.pcs == s.pcs[a.t := u.pcs[a.t]])
            && (a.Move? ==> u.winner == (if s.pcs[a.t].Cas? && !s.done then Some(a.t) else s.winner))
            && (a.Move? && s.pcs[a.t].Cas? && !s.done ==> Reached(u) == 0)
  {
    if a.Move? {
      MoveCarries(s, a);
    } else {
      OtherCarries(s, a);
    }
  }

  lemma {:induction false} ToldExec(s: Tx, acts: seq<Action>)
    requires Inv(s) && Places(s) && Told(s)
    ensures match Exec(s, acts) case Some(u) => Inv(u) && Places(u) && Told(u) case None => true
    decreases |acts|
  {
    hide Inv, Enabled, Do, Places, Told;
    if acts != [] && Enabled(s, acts[0]) {
      InvStep(s, acts[0]);
      PlacesStep(s, acts[0]);
      ToldStep(s, acts[0]);
      ToldExec(Do(s, acts[0]), acts[1..]);
    }
  }

  lemma {:induction false} ToldFromBegin(keep: bool, acts: seq<Action>, s: Tx)
    requires Exec(Begin(keep), acts) == Some(s)
    ensures Inv(s) && Places(s) && Told(s) && s.keepConnOnRollback == keep
  {
    hide Exec, Inv, Places, Told, Enabled, Do;
    BeginInv(keep);
    ToldExec(Begin(keep), acts);
    KeepKept(Begin(keep), acts);
  }

  lemma {:induction false} BeginInv(keep: bool)
    ensures Inv(Begin(keep)) && Places(Begin(keep)) && Told(Begin(keep))
  {}

  lemma {:induction false} KeepKept(s: Tx, acts: seq<Action>)
    ensures match Exec(s, acts) case Some(u) => u.keepConnOnRollback == s.keepConnOnRollback case None => true
    decreases |acts|
  {
    hide Enabled, Do;
    if acts != [] && Enabled(s, acts[0]) {
      Carries(s, acts[0]);
      KeepKept(Do(s, acts[0]), acts[1..]);
    }
  }

  /** In every state of every run: the driver was told to commit if and only if the winner was
      started as Commit, and to roll back if and only if it was Rollback or awaitDone; the
      connection is discarded exactly for awaitDone without keepConnOnRollback, and otherwise the
      pool gets the driver's answer with it. A Commit that returns without an error has committed,
      and one that returns its context's error was cancelled. */
  lemma {:induction false} DriverIsTold(keep: bool, acts: seq<Action>, s: Tx)
    requires Exec(Begin(keep), acts) == Some(s)
    ensures s.past.calls != [] ==>
              s.winner.Some? && s.winner.value in s.past.tasks && s.winner.value in s.pcs && s.ctxDone
    ensures s.past.calls != [] ==>
              var task := s.past.tasks[s.winner.value];
              && (s.past.calls == [DriverCommit] <==> task == Commit)
              && (s.past.calls == [DriverRollback] <==> task == Rollback || task == AwaitDone)
              && (s.past.calls == [DriverCommit] || s.past.calls == [DriverRollback])
              && (s.past.releases == 1 ==> s.past.releaseErr == if task == AwaitDone && !keep then BadConn
                else s.past.answer)
    ensures forall t | t in s.pcs && s.pcs[t].Ending? :: t in s.past.tasks &&
              (s.pcs[t].how == ByRollback(true) <==> s.past.tasks[t] == AwaitDone && !keep)
    ensures forall t | t in s.pcs && t in s.past.tasks && s.past.tasks[t] == Commit && s.pcs[t].Ending?
            && s.pcs[t].phase.Over? ::
              s.past.calls == [DriverCommit] && s.pcs[t].err == s.past.answer
    ensures forall t | t in s.pcs && s.pcs[t] == Refused(ContextErr) :: s.ctxDone
  {
    hide Exec, Enabled, Do, Locks;
    ToldFromBegin(keep, acts, s);
    if s.past.calls != [] {
      assert Reached(s) >= 4;
    }
    forall t | t in s.pcs && s.pcs[t].Ending?
      ensures s.winner == Some(t) && t in s.past.tasks && EndsBy(s.past.tasks[t], s.pcs[t].how, keep)
    {
      assert PlaceOf(s.past.tasks[t], s.pcs[t], keep);
    }
  }

  /** In every state of every run: at most one driver Commit or Rollback has run and at most one
      release, in that order; no query held the connection during it; every query that got past
      grabConn has a connection that is not released; the winner finds tx.dc and tx.txi; a
      discarding rollback hands ErrBadConn to the pool; ErrTxDone is reported only when done. */
  lemma {:induction false} TxSafe(keep: bool, acts: seq<Action>, s: Tx)
    requires Exec(Begin(keep), acts) == Some(s)
    ensures s.past.releases <= |s.past.calls| <= 1
    ensures forall t | t in s.pcs && Holds(s.pcs[t]) ::
              s.hasDc && s.past.calls == [] && (s.pcs[t].QueryHolds? ==> s.pcs[t].hasConn)
    ensures forall t | t in s.pcs && s.pcs[t].Ending? && s.pcs[t].phase.ToEnd? ::
              s.hasDc && s.hasTxi && !SomebodyHolds(s)
    ensures forall t | t in s.pcs && s.pcs[t].Ending? && s.pcs[t].how == ByRollback(true) && s.past.releases == 1 ::
              s.past.releaseErr == BadConn
    ensures forall t | t in s.pcs && SaysDone(s.pcs[t]) :: s.done
  {
    hide Exec, Enabled, Do;
    InvExec(Begin(keep), acts);
    if t :| t in s.pcs && Holds(s.pcs[t]) {
      assert SomebodyHolds(s);
    }
  }

  lemma {:induction false} EndsStep(s: Tx, a: Action)
    requires Enabled(s, a)
    ensures |s.past.calls| <= |Do(s, a).past.calls|
  {
    hide SomebodyHolds, Holds, At, First;
    if a.Move? {
      var t := a.t;
      match s.pcs[t]
      case Ending(how, phase, err) => AtKeeps(s, t);
      case _ => AtKeeps(s, t);
    } else if a.Spawn? {
      AtKeeps(s, a.t);
    }
  }

  lemma {:induction false} AtKeeps(s: Tx, t: nat)
    ensures forall pc :: At(s, t, pc).past.calls == s.past.calls && At(s, t, pc).pcs == s.pcs[t := pc]
  {}

  lemma {:induction false} EndsGrow(s: Tx, acts: seq<Action>)
    ensures match Exec(s, acts) case Some(u) => |s.past.calls| <= |u.past.calls| case None => true
    decreases |acts|
  {
    hide Enabled, Do;
    if acts != [] && Enabled(s, acts[0]) {
      EndsStep(s, acts[0]);
      EndsGrow(Do(s, acts[0]), acts[1..]);
    }
  }

  /** After the driver's Commit or Rollback no grabConn succeeds and no second one runs, however
      the run goes on. */
  lemma {:induction false} SealedAfterEnd(keep: bool, acts: seq<Action>, more: seq<Action>, s: Tx, u: Tx)
    requires Exec(Begin(keep), acts) == Some(s) && Exec(s, more) == Some(u) && s.past.calls != []
    ensures |u.past.calls| == 1 && forall t | t in u.pcs :: !Holds(u.pcs[t])
  {
    hide Exec, Enabled, Do;
    InvExec(Begin(keep), acts);
    InvExec(s, more);
    EndsGrow(s, more);
    assert !SomebodyHolds(u);
  }

  /** From the moment done is set, no further goroutine gets the connection: the winner waits for
      the present holders only. */
  lemma {:induction false} HoldersShrink(s: Tx, a: Action, t: nat)
    requires Enabled(s, a) && s.done && t in Do(s, a).pcs && Holds(Do(s, a).pcs[t])
    ensures t in s.pcs && Holds(s.pcs[t])
  {
    hide SomebodyHolds, At;
    if a.Move? {
      AtKeeps(s, a.t);
      match s.pcs[a.t]
      case Ending(how, phase, err) =>
      case QueryCheck =>
      case _ =>
    } else if a.Spawn? {
      AtKeeps(s, a.t);
    }
  }

  /** The winner never waits for anything but the read locks, and every step takes it one phase
      further, to the release. */
  lemma {:induction false} WinnerWaitsForReadersOnly(keep: bool, acts: seq<Action>, s: Tx, answer: DriverErr)
    requires Exec(Begin(keep), acts) == Some(s) && s.winner.Some?
    ensures s.winner.value in s.pcs && s.pcs[s.winner.value].Ending?
    ensures var e, a := s.pcs[s.winner.value], Move(s.winner.value, false, answer);
            if e.phase == Over then s.past.releases == 1
            else (Enabled(s, a) && Reached(Do(s, a)) == Reached(s) + 1) || (e.phase == ToLock && s.readers != {})
  {
    InvExec(Begin(keep), acts);
    hide Exec, MoveEnding, Locks, Connection;
    var t := s.winner.value;
    var e := s.pcs[t];
    assert s.writer.Some? ==> Reached(s) == 2 by { WriterIsWinner(s); }
    if CanMove(s, t, e) {
      EndingCarries(s, t, e.how, e.phase, e.err, answer);
    }
  }

  lemma {:induction false} WriterIsWinner(s: Tx)
    requires Inv(s)
    ensures s.writer.Some? ==> Reached(s) == 2
  {}

  /** When nobody holds the read lock, the winner alone gets to the end. */
  lemma {:induction false} WinnerFinishes(keep: bool, acts: seq<Action>, s: Tx, t: nat)
    requires Exec(Begin(keep), acts) == Some(s) && s.winner == Some(t) && s.readers == {}
    ensures Reached(s) <= 8
    ensures match Exec(s, Alone(t, 8 - Reached(s)))
            case Some(u) =>
              t in u.pcs && u.pcs[t].Ending? && u.pcs[t].phase.Over? && u.past.releases == 1 && u.winner == Some(t)
              && u.past.tasks == s.past.tasks && u.past.answer == if Reached(s) <= 3 then Fine else s.past.answer
            case None => false
    decreases 8 - Reached(s)
  {
    WinnerWaitsForReadersOnly(keep, acts, s, Fine);
    hide Exec;
    var e, a := s.pcs[t], Move(t, false, Fine);
    if e.phase.Over? {
      NoMoves(s, t);
    } else {
      var u := Do(s, a);
      EndingCarries(s, t, e.how, e.phase, e.err, Fine);
      ReadersStay(s, a);
      RunsOn(Begin(keep), acts, s, a);
      hide Do, Enabled;
      WinnerFinishes(keep, acts + [a], u, t);
      OneMove(s, t, 8 - Reached(s) - 1);
    }
  }

  lemma {:induction false} ReadersStay(s: Tx, a: Action)
    requires Enabled(s, a) && a.Move? && s.pcs[a.t].Ending?
    ensures Do(s, a).readers == s.readers
  {
    hide SomebodyHolds;
  }

  lemma {:induction false} RunsOn(b: Tx, acts: seq<Action>, s: Tx, a: Action)
    requires Exec(b, acts) == Some(s) && Enabled(s, a)
    ensures Exec(b, acts + [a]) == Some(Do(s, a))
    decreases |acts|
  {
    hide Enabled, Do;
    if acts == [] {
      assert ([] + [a])[1..] == [];
      assert Exec(Do(b, a), []) == Some(Do(b, a));
    } else {
      assert (acts + [a])[1..] == acts[1..] + [a];
      RunsOn(Do(b, acts[0]), acts[1..], s, a);
    }
  }

  /** t alone moves n times, its context never cancelled. */
  function Alone(t: nat, n: nat): (acts: seq<Action>)
    ensures |acts| == n
  {
    if n == 0 then [] else [Move(t, false, Fine)] + Alone(t, n - 1)
  }

  /** As long as nobody has ended the transaction: Commit, if its context is not cancelled,
      Rollback, and awaitDone, if it is, each wins when it moves. */
  lemma {:induction false} FirstComerWins(keep: bool, acts: seq<Action>, s: Tx, t: nat)
    requires Exec(Begin(keep), acts) == Some(s) && !s.done && t in s.pcs
    ensures s.pcs[t].Cas? ==> WinsAfter(s, t, 1)
    ensures s.pcs[t].CommitCtx? && !s.ctxDone ==> WinsAfter(s, t, 2)
    ensures s.pcs[t].Awaiting? && s.ctxDone ==> WinsAfter(s, t, 2)
  {
    hide Exec, MoveQuery, MoveEnding;
    if s.pcs[t].Cas? {
      OneMove(s, t, 0);
      NoMoves(Do(s, Move(t, false, Fine)), t);
    } else if (s.pcs[t].CommitCtx? && !s.ctxDone) || (s.pcs[t].Awaiting? && s.ctxDone) {
      var u := Do(s, Move(t, false, Fine));
      OneMove(s, t, 1);
      OneMove(u, t, 0);
      NoMoves(Do(u, Move(t, false, Fine)), t);
    }
  }

  predicate WinsAfter(s: Tx, t: nat, n: nat)
  {
    match Exec(s, Alone(t, n)) case Some(u) => u.done && u.winner == Some(t) case None => false
  }

  lemma {:induction false} OneMove(s: Tx, t: nat, n: nat)
    requires Enabled(s, Move(t, false, Fine))
    ensures Exec(s, Alone(t, n + 1)) == Exec(Do(s, Move(t, false, Fine)), Alone(t, n))
  {
    hide Enabled, Do;
    assert Alone(t, n + 1)[1..] == Alone(t, n);
  }

  lemma {:induction false} NoMoves(s: Tx, t: nat)
    ensures Exec(s, Alone(t, 0)) == Some(s)
  {}

  /** From the beginning: a Commit alone commits, a Rollback alone rolls back, and so does awaitDone
      when the context is cancelled. */
  lemma {:induction false} AloneExamples(keep: bool)
    ensures EndsWith(keep, [Spawn(1, Commit)], 10, DriverCommit)
    ensures EndsWith(keep, [Spawn(1, Rollback)], 9, DriverRollback)
    ensures EndsWith(keep, [Spawn(1, AwaitDone), CancelCtx], 10, DriverRollback)
  {
    hide Exec;
    var s := Begin(keep);
    NoMoves(s, 1);
    RunsOn(s, [], s, Spawn(1, Commit));
    RunsOn(s, [], s, Spawn(1, Rollback));
    RunsOn(s, [], s, Spawn(1, AwaitDone));
    assert [] + [Spawn(1, Commit)] == [Spawn(1, Commit)] && [] + [Spawn(1, Rollback)] == [Spawn(1, Rollback)];
    var w := Do(s, Spawn(1, AwaitDone));
    RunsOn(s, [] + [Spawn(1, AwaitDone)], w, CancelCtx);
    assert [] + [Spawn(1, AwaitDone)] + [CancelCtx] == [Spawn(1, AwaitDone), CancelCtx];
    EndsAlone(keep, [Spawn(1, Commit)], Do(s, Spawn(1, Commit)));
    EndsAlone(keep, [Spawn(1, Rollback)], Do(s, Spawn(1, Rollback)));
    EndsAlone(keep, [Spawn(1, AwaitDone), CancelCtx], Do(w, CancelCtx));
  }

  /** After acts, n moves of goroutine 1 end the transaction with the given call. */
  predicate EndsWith(keep: bool, acts: seq<Action>, n: nat, call: DriverCall)
  {
    match Exec(Begin(keep), acts)
    case None => false
    case Some(s) =>
      match Exec(s, Alone(1, n))
      case None => false
      case Some(u) => u.past.calls == [call] && u.past.releases == 1 && 1 in u.pcs && u.pcs[1].Ending?
                      && u.pcs[1].phase.Over? && (call == DriverCommit ==> u.pcs[1].err == Fine)
  }

  lemma {:induction false} EndsAlone(keep: bool, acts: seq<Action>, s: Tx)
    requires Exec(Begin(keep), acts) == Some(s) && !s.done && s.readers == {} && 1 in s.pcs && 1 in s.past.tasks
    requires s.pcs[1].Cas? || (s.pcs[1].CommitCtx? && !s.ctxDone) || (s.pcs[1].Awaiting? && s.ctxDone)
    ensures EndsWith(keep, acts, if s.pcs[1].Cas? then 9 else 10,
                     if s.past.tasks[1] == Commit then DriverCommit else DriverRollback)
  {
    hide Exec, MoveEnding, MoveQuery;
    var a := Move(1, false, Fine);
    if s.pcs[1].Cas? {
      var u := Do(s, a);
      RunsOn(Begin(keep), acts, s, a);
      OneMove(s, 1, 8);
      EndsAsWinner(keep, acts + [a], u, 8);
    } else {
      var v := Do(s, a);
      var u := Do(v, a);
      RunsOn(Begin(keep), acts, s, a);
      RunsOn(Begin(keep), acts + [a], v, a);
      OneMove(s, 1, 9);
      OneMove(v, 1, 8);
      EndsAsWinner(keep, acts + [a] + [a], u, 8);
    }
  }

  lemma {:induction false} EndsAsWinner(keep: bool, acts: seq<Action>, u: Tx, n: nat)
    requires Exec(Begin(keep), acts) == Some(u) && u.winner == Some(1) && u.readers == {} && Reached(u) == 0 && n == 8
    requires 1 in u.past.tasks
    ensures match Exec(u, Alone(1, n))
            case None => false
            case Some(v) =>
              && v.past.calls == [if u.past.tasks[1] == Commit then DriverCommit else DriverRollback]
              && v.past.releases == 1 && 1 in v.pcs && v.pcs[1].Ending? && v.pcs[1].phase.Over?
              && (u.past.tasks[1] == Commit ==> v.pcs[1].err == Fine)
  {
    hide Exec, Do, Enabled, Inv, Told, Places;
    WinnerFinishes(keep, acts, u, 1);
    var v := Exec(u, Alone(1, 8)).value;
    ToldFromBegin(keep, acts, u);
    ToldExec(u, Alone(1, 8));
    assert Told(v) && Places(v) && Reached(v) == 8;
    ToldMeans(v);
  }

  lemma {:induction false} ToldMeans(v: Tx)
    requires Told(v) && Places(v) && Reached(v) >= 4 && v.winner.Some? && v.winner.value in v.past.tasks
    ensures v.past.calls == [if v.past.tasks[v.winner.value] == Commit then DriverCommit else DriverRollback]
    ensures v.winner.value in v.pcs && v.pcs[v.winner.value].Ending?
    ensures v.past.tasks[v.winner.value] == Commit ==> v.pcs[v.winner.value].err == v.past.answer
  {
    assert PlaceOf(v.past.tasks[v.winner.value], v.pcs[v.winner.value], v.keepConnOnRollback);
  }

  /** As long as nobody has ended the transaction, a query that is not cancelled gets the
      connection, and gives it back. */
  lemma {:induction false} QueryGetsConnection(keep: bool, acts: seq<Action>, s: Tx, t: nat)
    requires Exec(Begin(keep), acts) == Some(s) && !s.done && t in s.pcs && s.pcs[t].QueryCtx?
    ensures match Exec(s, Alone(t, 4)) case Some(u) => t in u.pcs && u.pcs[t] == QueryHolds(true) case None => false
    ensures match Exec(s, Alone(t, 5)) case Some(u) => u.readers == s.readers - {t} case None => false
  {
    InvExec(Begin(keep), acts);
    assert s.hasDc && s.writer.None?;
    hide Exec, Inv, MoveEnding;
    var a := Move(t, false, Fine);
    var u1 := At(s, t, QueryRLock);
    var u2 := At(s, t, QueryCheck).(readers := s.readers + {t});
    var u3 := At(s, t, QueryRead).(readers := s.readers + {t});
    var u4 := At(s, t, QueryHolds(true)).(readers := s.readers + {t});
    QuerySteps(s, t);
    OneMove(s, t, 3);
    OneMove(u1, t, 2);
    OneMove(u2, t, 1);
    OneMove(u3, t, 0);
    NoMoves(u4, t);
    OneMove(s, t, 4);
    OneMove(u1, t, 3);
    OneMove(u2, t, 2);
    OneMove(u3, t, 1);
    OneMove(u4, t, 0);
    NoMoves(Do(u4, a), t);
  }

  lemma {:induction false} QuerySteps(s: Tx, t: nat)
    requires t in s.pcs && s.pcs[t].QueryCtx? && s.hasDc && s.writer.None? && !s.done
    ensures var a, r := Move(t, false, Fine), s.readers + {t};
            && Enabled(s, a) && Do(s, a) == At(s, t, QueryRLock)
            && Enabled(At(s, t, QueryRLock), a)
            && Do(At(s, t, QueryRLock), a) == At(s, t, QueryCheck).(readers := r)
            && Enabled(At(s, t, QueryCheck).(readers := r), a)
            && Do(At(s, t, QueryCheck).(readers := r), a) == At(s, t, QueryRead).(readers := r)
            && Enabled(At(s, t, QueryRead).(readers := r), a)
            && Do(At(s, t, QueryRead).(readers := r), a) == At(s, t, QueryHolds(true)).(readers := r)
            && Enabled(At(s, t, QueryHolds(true)).(readers := r), a)
            && Do(At(s, t, QueryHolds(true)).(readers := r), a).readers == s.readers - {t}
  {
    hide MoveEnding;
    assert s.readers + {t} - {t} == s.readers - {t};
  }

  /** Once somebody has, each of them is told so; and a query whose own context is cancelled does
      not begin. */
  lemma {:induction false} LateComersAreTold(s: Tx, t: nat, ctxDone: bool)
    requires t in s.pcs
    ensures var a := Move(t, ctxDone, Fine);
            s.done && (s.pcs[t].Cas? || s.pcs[t].CommitLoad? || s.pcs[t].QueryCheck?) ==>
              Enabled(s, a) && t in Do(s, a).pcs && SaysDone(Do(s, a).pcs[t])
    ensures var a := Move(t, true, Fine);
            s.pcs[t].QueryCtx? ==> Enabled(s, a) && t in Do(s, a).pcs && Do(s, a).pcs[t] == QueryFailed(ContextErr)
  {
    hide MoveEnding;
  }

  /** A Commit that finds the transaction's context cancelled leaves done alone. */
  lemma {:induction false} CancelledCommit(s: Tx, t: nat)
    requires t in s.pcs && s.pcs[t].CommitCtx? && s.ctxDone
    ensures match Exec(s, Alone(t, 2))
            case Some(u) =>
              t in u.pcs && u.pcs[t] == Refused(if s.done then TxDone else ContextErr) && u.done == s.done
              && u.past == s.past
            case None => false
  {
    hide MoveEnding, MoveQuery;
    var u := Do(s, Move(t, false, Fine));
    OneMove(s, t, 1);
    OneMove(u, t, 0);
    NoMoves(Do(u, Move(t, false, Fine)), t);
  }
}
