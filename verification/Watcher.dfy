// The cancel watcher of a connection (mysql/connection.go: watchCancel, startWatcher, finish,
// cancel, cleanup, error) as a state machine. One goroutine at a time uses the connection (the
// caller), the watcher runs beside it, and contexts are cancelled at any moment. Every access to
// a channel or an atomic variable is a step of its own.
module Watcher {

  datatype Option<T> = None | Some(value: T)

  /** An operation: its number, the context it runs under, and whether that can be cancelled at
      all. Operations may share a context. */
  datatype Op = Op(id: nat, ctx: nat, cancellable: bool)

  datatype Caller =
    | Idle
    | Sending(op: Op)                    // before mc.watcher <- ctx
    | Running(op: Op)
    | Finishing(op: Op)                  // in the select of finish
    | TryClose(back: Option<Op>)         // cleanup: before closed.TrySet
    | CloseCh(back: Option<Op>)          // cleanup: before close(closech)

  datatype Watch =
    | Outer                              // in the first select
    | Inner(op: Op)                      // in the second select
    | SetCanceled(op: Op)                // cancel: before canceled.Set
    | TryClosed(op: Op)                  // cleanup: before closed.TrySet
    | CloseChan(op: Op)                  // cleanup: before close(closech)
    | Gone

  datatype Conn = Conn(
    caller: Caller,
    watch: Watch,
    watching: bool,
    channel: seq<Op>,                    // mc.watcher, of capacity 1
    closed: bool,
    closes: nat,                         // how often closech was closed
    canceled: Option<nat>,               // the context whose error is stored
    done: set<nat>,                      // cancelled contexts
    // history
    ops: nat,                            // operations begun
    finished: set<nat>,                  // operations whose finish left watching false
    closedBy: Option<Op>)                // the operation whose cancellation closed the connection

  const CAPACITY: nat := 1

  function Start(): Conn
  {
    Conn(Idle, Outer, false, [], false, 0, None, {}, 0, {}, None)
  }

  datatype Action =
    | Begin(ctx: nat, cancellable: bool) // watchCancel up to the send
    | Send
    | Fail                               // the running operation gives the connection up
    | Close                              // Close on an idle connection
    | CallerTry | CallerClose            // the two steps of the caller's cleanup
    | Finish                             // finish up to its select
    | HandBack                           // finished <- struct{}{} meets the watcher's receive
    | FinishClosed                       // finish sees closech
    | Receive                            // the watcher takes a context
    | WatchDone                          // the watcher sees ctx.Done()
    | WatchSet | WatchTry | WatchClose   // the steps of cancel
    | Exit                               // the watcher sees closech
    | Cancel(ctx: nat)                   // somebody cancels a context

  predicate Enabled(s: Conn, a: Action)
  {
    match a
    case Begin(_, _) => s.caller.Idle?
    case Send => s.caller.Sending? && |s.channel| < CAPACITY
    case Fail => s.caller.Running?
    case Close => s.caller.Idle?
    case CallerTry => s.caller.TryClose?
    case CallerClose => s.caller.CloseCh?
    case Finish => s.caller.Running?
    case HandBack => s.caller.Finishing? && s.watch.Inner?
    case FinishClosed => s.caller.Finishing? && s.closes > 0
    case Receive => s.watch.Outer? && s.channel != []
    case WatchDone => s.watch.Inner? && s.watch.op.ctx in s.done
    case WatchSet => s.watch.SetCanceled?
    case WatchTry => s.watch.TryClosed?
    case WatchClose => s.watch.CloseChan?
    case Exit => (s.watch.Outer? || s.watch.Inner?) && s.closes > 0
    case Cancel(_) => true
  }

  function Resume(op: Option<Op>): Caller
  {
    if op.Some? then Running(op.value) else Idle
  }

  function Do(s: Conn, a: Action): Conn
    requires Enabled(s, a)
  {
    match a
    case Begin(ctx, cancellable) =>
      var op := Op(s.ops, ctx, cancellable);
      var t := s.(ops := s.ops + 1);
      if s.watching then t.(caller := TryClose(Some(op)))
      else if ctx in s.done then t                              // ctx.Err() is returned
      else if !cancellable then t.(caller := Running(op))
      else t.(watching := true, caller := Sending(op))
    case Send => s.(channel := s.channel + [s.caller.op], caller := Running(s.caller.op))
    case Fail => s.(caller := TryClose(Some(s.caller.op)))
    case Close => s.(caller := TryClose(None))
    case CallerTry =>
      if s.closed then s.(caller := Resume(s.caller.back)) else s.(closed := true, caller := CloseCh(s.caller.back))
    case CallerClose => s.(closes := s.closes + 1, caller := Resume(s.caller.back))
    case Finish => s.(caller := if s.watching then Finishing(s.caller.op) else Idle)
    case HandBack =>
      s.(watching := false, caller := Idle, watch := Outer, finished := s.finished + {s.caller.op.id})
    case FinishClosed => s.(caller := Idle)
    case Receive => s.(watch := Inner(s.channel[0]), channel := s.channel[1..])
    case WatchDone => s.(watch := SetCanceled(s.watch.op))
    case WatchSet => s.(canceled := Some(s.watch.op.ctx), watch := TryClosed(s.watch.op))
    case WatchTry =>
      if s.closed then s.(watch := Outer)
      else s.(closed := true, closedBy := Some(s.watch.op), watch := CloseChan(s.watch.op))
    case WatchClose => s.(closes := s.closes + 1, watch := Outer)
    case Exit => s.(watch := Gone)
    case Cancel(ctx) => s.(done := s.done + {ctx})
  }

  /** The operation the caller is in, if any. */
  function Current(s: Conn): Option<Op>
  {
    match s.caller
    case Idle => None
    case TryClose(op) => op
    case CloseCh(op) => op
    case Sending(op) => Some(op)
    case Running(op) => Some(op)
    case Finishing(op) => Some(op)
  }

  /** The operation the watcher holds or will take. */
  function Watched(s: Conn): Option<Op>
  {
    if s.channel != [] then Some(s.channel[0])
    else match s.watch
         case Outer => None
         case Gone => None
         case Inner(op) => Some(op)
         case SetCanceled(op) => Some(op)
         case TryClosed(op) => Some(op)
         case CloseChan(op) => Some(op)
  }

  predicate Canceling(w: Watch)
  {
    w.SetCanceled? || w.TryClosed? || w.CloseChan?
  }

  predicate Inv(s: Conn)
  {
    // the channel and the watcher never both hold an operation, and hold one only while watching
    && |s.channel| <= CAPACITY
    && (s.channel != [] ==> s.watch.Outer? || s.watch.Gone?)
    && (!s.watching ==> Watched(s) == None && s.canceled == None && s.closedBy == None)
    && (s.caller.Sending? ==> s.watching && Watched(s) == None && s.canceled == None && s.closedBy == None)
    && (s.watching && !s.caller.Sending? ==> Watched(s).Some? || s.closed)
    && (s.caller.Finishing? ==> s.watching)
    // who closes what
    && s.closes <= (if s.closed then 1 else 0)
    && (s.caller.CloseCh? || s.watch.CloseChan? ==> s.closed && s.closes == 0)
    && (s.closed && s.closes == 0 ==> s.caller.CloseCh? || s.watch.CloseChan?)
    && !(s.caller.CloseCh? && s.watch.CloseChan?)
    && (s.watch.Gone? ==> s.closes == 1)
    // cancellation
    && (s.canceled.Some? && !s.closed ==> s.watch.TryClosed?)
    && (s.watch.TryClosed? || s.watch.CloseChan? ==> s.canceled == Some(s.watch.op.ctx))
    && (s.closedBy.Some? ==> s.closed && s.canceled == Some(s.closedBy.value.ctx))
    && (s.watch.SetCanceled? ==> s.canceled == None && s.closedBy == None)
    && (s.canceled.Some? && !Canceling(s.watch) ==> Watched(s) == None)
    && (s.watch.CloseChan? ==> s.closedBy == Some(s.watch.op))
    && (s.watch.TryClosed? ==> s.closedBy == None)
    && (s.canceled.Some? ==> s.canceled.value in s.done)
    && (Canceling(s.watch) ==> s.watch.op.ctx in s.done)
    // what is watched
    && (Current(s).None? && !s.closed ==> !s.watching)
    && (Current(s).Some? && !s.closed ==> Current(s).value.cancellable == s.watching)
    && (Current(s).Some? && !s.closed && s.watching && !s.caller.Sending? ==> Watched(s) == Current(s))
    // numbers
    && (forall k | k in s.finished :: k < s.ops)
    && (Current(s).Some? ==> Current(s).value.id < s.ops && Current(s).value.id !in s.finished)
    && (Watched(s).Some? ==> Watched(s).value.id < s.ops && Watched(s).value.id !in s.finished)
    && (s.closedBy.Some? ==> s.closedBy.value.id < s.ops && s.closedBy.value.id !in s.finished)
  }

  /** The actions of the goroutine that uses the connection. */
  predicate ByCaller(a: Action)
  {
    a.Begin? || a.Send? || a.Fail? || a.Close? || a.CallerTry? || a.CallerClose? || a.Finish? || a.HandBack?
    || a.FinishClosed?
  }

  lemma {:induction false} InvBegin(s: Conn, a: Action)
    requires Inv(s) && Enabled(s, a) && (a.Begin? || a.Send?)
    ensures Inv(Do(s, a))
  {}

  lemma {:induction false} InvCaller(s: Conn, a: Action)
    requires Inv(s) && Enabled(s, a) && ByCaller(a) && !a.Begin? && !a.Send?
    ensures Inv(Do(s, a))
  {}

  lemma {:induction false} InvWatch(s: Conn, a: Action)
    requires Inv(s) && Enabled(s, a) && !ByCaller(a)
    ensures Inv(Do(s, a))
  {
    match a
    case Receive =>
    case WatchDone =>
    case WatchSet =>
    case WatchTry =>
    case WatchClose =>
    case Exit =>
    case Cancel(_) =>
  }

  lemma {:induction false} InvStep(s: Conn, a: Action)
    requires Inv(s) && Enabled(s, a)
    ensures Inv(Do(s, a))
  {
    hide Inv, Enabled, Do;
    if !ByCaller(a) {
      InvWatch(s, a);
    } else if a.Begin? || a.Send? {
      InvBegin(s, a);
    } else {
      InvCaller(s, a);
    }
  }

  /** The state after a run of actions, None if one of them is not possible when it is its turn. */
  function Exec(s: Conn, acts: seq<Action>): Option<Conn>
    decreases |acts|
  {
    if acts == [] then Some(s)
    else if !Enabled(s, acts[0]) then None
    else Exec(Do(s, acts[0]), acts[1..])
  }

  lemma {:induction false} InvExec(s: Conn, acts: seq<Action>)
    requires Inv(s)
    ensures match Exec(s, acts) case Some(t) => Inv(t) case None => true
    decreases |acts|
  {
    hide Inv, Enabled, Do;
    if acts != [] && Enabled(s, acts[0]) {
      InvStep(s, acts[0]);
      InvExec(Do(s, acts[0]), acts[1..]);
    }
  }

  /** mc.error(): the cancellation's error, or ErrInvalidConn. */
  datatype Report = NoError | ContextError(ctx: nat) | InvalidConn

  function ErrorOf(s: Conn): Report
  {
    if !s.closed then NoError
    else if s.canceled.Some? then ContextError(s.canceled.value)
    else InvalidConn
  }

  /** In every state of every run: the send to the watcher does not block, closech is closed at
      most once, and a connection is closed by a cancellation only if the context was cancelled;
      it already reports that cancellation then. Once closech is closed the watcher can end. */
  lemma {:induction false} WatcherSafe(acts: seq<Action>)
    ensures match Exec(Start(), acts)
            case None => true
            case Some(s) =>
              && (s.caller.Sending? ==> Enabled(s, Send))
              && s.closes <= 1
              && (s.closes == 1 && (s.watch.Outer? || s.watch.Inner?) ==> Enabled(s, Exit) && Do(s, Exit).watch.Gone?)
              && (ErrorOf(s) == NoError <==> !s.closed) && (s.closed && s.canceled.None? ==> ErrorOf(s) == InvalidConn)
              && (s.closedBy.Some? ==>
                    && ErrorOf(s) == ContextError(s.closedBy.value.ctx) && s.closedBy.value.ctx in s.done
                    && s.closedBy.value.id !in s.finished)
  {
    InvExec(Start(), acts);
  }

  /** Giving a connection up closes it, and closech exactly if nobody has closed the connection
      before; the operation goes on to its finish. */
  lemma {:induction false} GivingUpCloses(acts: seq<Action>, s: Conn, a: Action)
    requires Exec(Start(), acts) == Some(s) && Enabled(s, a) && (a == Fail || a == Close)
    ensures var u := Do(s, a);
            && Enabled(u, CallerTry)
            && var v := Do(u, CallerTry);
            && v.closed
            && if s.closed then v.caller == s.caller && v.closes == s.closes
               else Enabled(v, CallerClose) && Do(v, CallerClose).closes == 1 && Do(v, CallerClose).caller == s.caller
  {
    InvExec(Start(), acts);
  }

  /** In every run: while an operation runs on an open connection, it is watched if and only if
      its context can be cancelled, and on an open connection it starts if and only if its context
      is not cancelled yet. */
  lemma {:induction false} RunningIsWatched(acts: seq<Action>, s: Conn)
    requires Exec(Start(), acts) == Some(s) && !s.closed
    ensures s.caller.Running? && s.caller.op.cancellable ==> s.watching && Watched(s) == Some(s.caller.op)
    ensures s.caller.Running? && !s.caller.op.cancellable ==> !s.watching && Watched(s) == None
    ensures forall ctx, cancellable | s.caller.Idle? ::
              var u, op := Do(s, Begin(ctx, cancellable)), Op(s.ops, ctx, cancellable);
              if ctx in s.done then u.caller.Idle? else u.caller == if cancellable then Sending(op) else Running(op)
  {
    InvExec(Start(), acts);
  }

  /** The watcher's next step towards closing the connection. */
  function NextWatch(s: Conn): Action
  {
    match s.watch
    case Outer => Receive
    case Inner(_) => WatchDone
    case SetCanceled(_) => WatchSet
    case TryClosed(_) => WatchTry
    case CloseChan(_) => WatchClose
    case Gone => Exit
  }

  /** How many steps it is away from that. */
  function ToClose(s: Conn): nat
  {
    if s.closed then 0
    else match s.watch
         case Outer => 4
         case Inner(_) => 3
         case SetCanceled(_) => 2
         case _ => 1
  }

  /** When the context of a running operation is cancelled, the watcher can move, each of its steps
      brings it nearer to closing the connection, and the last one closes it on the operation's
      behalf. */
  lemma {:induction false} CancellationAdvances(s: Conn)
    requires Inv(s) && s.caller.Running? && s.caller.op.cancellable && s.caller.op.ctx in s.done && !s.closed
    ensures Enabled(s, NextWatch(s))
    ensures forall a | Enabled(s, a) && WatcherAction(a) :: a == NextWatch(s)
    ensures var u := Do(s, NextWatch(s));
            && u.caller == s.caller && s.done == u.done && ToClose(u) < ToClose(s) <= 4
            && (u.closed ==> u.closedBy == Some(s.caller.op) && u.watch.CloseChan?)
  {}

  function WatcherMoves(s: Conn, n: nat): (u: Option<Conn>)
    decreases n
  {
    if n == 0 then Some(s)
    else if !Enabled(s, NextWatch(s)) then None
    else WatcherMoves(Do(s, NextWatch(s)), n - 1)
  }

  lemma {:induction false} CancellationClosesFrom(s: Conn)
    requires Inv(s) && s.caller.Running? && s.caller.op.cancellable && s.caller.op.ctx in s.done && !s.closed
    ensures match WatcherMoves(s, ToClose(s) + 1)
            case Some(u) => u.closes == 1 && ErrorOf(u) == ContextError(s.caller.op.ctx)
              && u.closedBy == Some(s.caller.op)
            case None => false
    decreases ToClose(s)
  {
    CancellationAdvances(s);
    var u := Do(s, NextWatch(s));
    InvStep(s, NextWatch(s));
    if u.closed {
      ClosesChannel(s, u);
    } else {
      CancellationClosesFrom(u);
      assert ToClose(u) == ToClose(s) - 1;
    }
  }

  lemma {:induction false} ClosesChannel(s: Conn, u: Conn)
    requires Inv(s) && Inv(u) && u.watch.CloseChan? && ToClose(s) == 1
    requires Enabled(s, NextWatch(s)) && u == Do(s, NextWatch(s))
    ensures match WatcherMoves(s, 2)
            case Some(v) => v.closes == 1 && v.closed && v.canceled == u.canceled && v.closedBy == u.closedBy
            case None => false
  {
    assert u.closes == 0;
    hide Inv;
    assert WatcherMoves(s, 2) == WatcherMoves(u, 1) == WatcherMoves(Do(u, WatchClose), 0);
  }

  /** In every run: once the context of a running operation is cancelled, the watcher, moving on
      its own at most five times, closes the connection on the operation's behalf, and the
      connection reports the cancellation; unless somebody has closed it already. */
  lemma {:induction false} CancellationCloses(acts: seq<Action>, s: Conn)
    requires Exec(Start(), acts) == Some(s) && s.caller.Running? && s.caller.op.cancellable
             && s.caller.op.ctx in s.done
    ensures s.closed || (ToClose(s) <= 4 &&
              match WatcherMoves(s, ToClose(s) + 1)
              case Some(u) => u.closes == 1 && ErrorOf(u) == ContextError(s.caller.op.ctx)
                              && u.closedBy == Some(s.caller.op)
              case None => false)
  {
    hide Inv, Exec;
    BeginsSound();
    InvExec(Start(), acts);
    if !s.closed {
      CancellationAdvances(s);
      CancellationClosesFrom(s);
    }
  }

  lemma BeginsSound()
    ensures Inv(Start())
  {}

  /** A query that is cancelled while it runs, to the end. */
  lemma {:induction false} CancelledQueryExample()
    ensures var s := Exec(Start(), [Begin(7, true), Send, Cancel(7)]);
            && s.Some? && s.value.caller == Running(Op(0, 7, true)) && !s.value.closed
            && match WatcherMoves(s.value, 5)
               case Some(u) => u.closed && u.closes == 1 && u.closedBy == Some(Op(0, 7, true))
               case None => false
  {
    var op := Op(0, 7, true);
    var a := Start().(ops := 1, watching := true, caller := Sending(op));
    var b := a.(channel := [op], caller := Running(op));
    var c := b.(done := {7});
    assert Do(Start(), Begin(7, true)) == a && Do(a, Send) == b && Do(b, Cancel(7)) == c;
    var acts := [Begin(7, true), Send, Cancel(7)];
    assert acts[1..] == [Send, Cancel(7)] && acts[1..][1..] == [Cancel(7)] && acts[1..][1..][1..] == [];
    assert Exec(c, []) == Some(c);
    assert Exec(b, [Cancel(7)]) == Some(c);
    assert Exec(a, [Send, Cancel(7)]) == Some(c);
    CancellationCloses(acts, c);
  }

  lemma {:induction false} FinishedStays(s: Conn, acts: seq<Action>)
    ensures match Exec(s, acts) case Some(t) => s.finished <= t.finished case None => true
    decreases |acts|
  {
    hide Inv, Enabled;
    if acts != [] && Enabled(s, acts[0]) {
      FinishedStays(Do(s, acts[0]), acts[1..]);
    }
  }

  /** Once finish has returned with watching false, no cancellation of that operation's context,
      however late, closes the connection on the operation's behalf. */
  lemma {:induction false} FinishedNeverCloses(acts: seq<Action>, more: seq<Action>, k: nat)
    requires Exec(Start(), acts).Some? && k in Exec(Start(), acts).value.finished
    ensures match Exec(Exec(Start(), acts).value, more)
            case None => true
            case Some(t) =>
              && (t.closedBy.Some? ==> t.closedBy.value.id != k)
              && (Watched(t).Some? ==> Watched(t).value.id != k)
  {
    hide Enabled, Do;
    var s := Exec(Start(), acts).value;
    InvExec(Start(), acts);
    InvExec(s, more);
    FinishedStays(s, more);
  }

  predicate WatcherAction(a: Action)
  {
    a.Receive? || a.WatchDone? || a.WatchSet? || a.WatchTry? || a.WatchClose? || a.Exit?
  }

  /** How many steps the watcher can still take while the caller is in finish. */
  function StepsLeft(s: Conn): nat
  {
    match s.watch
    case Outer => if s.channel != [] then 6 else 1
    case Inner(_) => 5
    case SetCanceled(_) => 4
    case TryClosed(_) => 3
    case CloseChan(_) => 2
    case Gone => 0
  }

  lemma {:induction false} SomethingMoves(s: Conn)
    requires Inv(s) && s.caller.Finishing?
    ensures Enabled(s, HandBack) || Enabled(s, FinishClosed)
            || Enabled(s, Receive) || Enabled(s, WatchSet) || Enabled(s, WatchTry) || Enabled(s, WatchClose)
  {
    hide Do;
    assert s.closed || Watched(s).Some?;
  }

  lemma {:induction false} WatcherStep(s: Conn, a: Action)
    requires Inv(s) && s.caller.Finishing? && Enabled(s, a) && WatcherAction(a)
    ensures StepsLeft(Do(s, a)) < StepsLeft(s) && Do(s, a).caller == s.caller
  {}

  /** finish cannot hang: while it waits, it can return at once or the watcher can move, the
      watcher moves at most six times, and no cancellation adds to that. */
  lemma {:induction false} FinishReturns(acts: seq<Action>, s: Conn)
    requires Exec(Start(), acts) == Some(s) && s.caller.Finishing?
    ensures Enabled(s, HandBack) || Enabled(s, FinishClosed)
            || Enabled(s, Receive) || Enabled(s, WatchSet) || Enabled(s, WatchTry) || Enabled(s, WatchClose)
    ensures StepsLeft(s) <= 6
    ensures forall a | Enabled(s, a) && WatcherAction(a) ::
              StepsLeft(Do(s, a)) < StepsLeft(s) && Do(s, a).caller == s.caller
    ensures Enabled(s, HandBack) ==>
              var u := Do(s, HandBack); u.caller.Idle? && !u.watching && s.caller.op.id in u.finished
    ensures Enabled(s, FinishClosed) ==> Do(s, FinishClosed).caller.Idle?
    ensures forall ctx :: Enabled(s, Cancel(ctx)) && StepsLeft(Do(s, Cancel(ctx))) == StepsLeft(s)
  {
    InvExec(Start(), acts);
    SomethingMoves(s);
    hide Exec, Inv;
    forall a | Enabled(s, a) && WatcherAction(a)
      ensures StepsLeft(Do(s, a)) < StepsLeft(s) && Do(s, a).caller == s.caller
    {
      WatcherStep(s, a);
    }
  }
}
