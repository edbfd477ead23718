// Handing connections over (conn_pool.go: conn; conn_pool_put.go; conn_pool_conn_opener.go) as a
// state machine. Any number of goroutines ask for connections, wait, give up, use and put
// them back, beside the opener, the cleaner and Close. Critical sections are single steps. A call
// of the facade inside one may keep the pool locked for good; Facade proves exactly when.
module Handoff {
  import opened Pool

  datatype Option<T> = None | Some(value: T)

  datatype Pc =
    | Start(cachedOrNew: bool)
    | Deciding                    // before canAddNewConn
    | Registering
    | Waiting(key: nat)           // in the select of conn
    | Withdrawing(key: nat)       // the context expired; before the lock
    | Draining(key: nat)          // behind the lock; before the second select
    | Checking(dc: nat)           // before the expiry check and the session reset
    | Connecting
    | Has(dc: nat)                // conn returned, or the drained connection before putConn
    | Over                        // or stuck in a put

  datatype Loc = Free | InChannel(key: nat) | Held(t: nat) | Gone

  datatype World = World(
    pool: Pool,
    pcs: map<nat, Pc>,            // goroutines inside or behind conn
    created: nat,                 // connections opened so far
    loc: map<nat, Loc>,           // history: where each connection went last
    waiter: map<nat, nat>,        // history: the goroutine that made a request
    answered: set<nat>,           // history: channels sent on
    locked: bool)                 // connPool.mu is locked for good

  function Begin(): World
  {
    World(Empty(), map[], 0, map[], map[], {}, false)
  }

  datatype Action =
    | Spawn(t: nat, cachedOrNew: bool)
    | Enter(t: nat, ctxDone: bool, dc: nat)
    | Decide(t: nat, canAdd: bool)
    | Connect(t: nat, ok: bool)
    | Request(t: nat)
    | Answer(t: nat)              // the response arrives
    | Expire(t: nat)              // the context expires first
    | WithdrawReq(t: nat)
    | Drain(t: nat)
    | Check(t: nat, ok: bool)
    | PutBack(t: nat, bad: bool, key: nat, ends: bool)   // ends: a call of the facade returns
    | Open(key: nat, ends: bool)  // the opener delivers a new connection
    | Drop(dc: nat)               // the cleaner or the eviction removes a free connection
    | ClosePool

  predicate Picks(p: Pool, key: nat)
  {
    p.connRequests == {} || key in p.connRequests
  }

  predicate NeedsLock(a: Action)
  {
    || a.Enter? || a.Request? || a.WithdrawReq? || a.PutBack? || a.Open? || a.Drop? || a.ClosePool?
    || (a.Connect? && a.ok) || (a.Check? && !a.ok)
  }

  predicate Enabled(w: World, a: Action)
  {
    (NeedsLock(a) ==> !w.locked) &&
    match a
    case Spawn(t, _) => t !in w.pcs
    case Enter(t, ctxDone, dc) =>
      t in w.pcs && w.pcs[t].Start? && (w.pcs[t].cachedOrNew && w.pool.freeConn != {} ==> dc in w.pool.freeConn)
    case Decide(t, _) => t in w.pcs && w.pcs[t].Deciding?
    case Connect(t, _) => t in w.pcs && w.pcs[t].Connecting?
    case Request(t) => t in w.pcs && w.pcs[t].Registering?
    case Answer(t) =>
      t in w.pcs && w.pcs[t].Waiting? && w.pcs[t].key in w.pool.channels && w.pool.channels[w.pcs[t].key] != []
    case Expire(t) => t in w.pcs && w.pcs[t].Waiting?
    case WithdrawReq(t) => t in w.pcs && w.pcs[t].Withdrawing?
    case Drain(t) => t in w.pcs && w.pcs[t].Draining? && w.pcs[t].key in w.pool.channels
    case Check(t, _) => t in w.pcs && w.pcs[t].Checking?
    case PutBack(t, _, key, _) => t in w.pcs && w.pcs[t].Has? && Picks(w.pool, key)
    case Open(key, _) => Picks(w.pool, key)
    case Drop(dc) => dc in w.pool.freeConn
    case ClosePool => true
  }

  function At(w: World, t: nat, pc: Pc): World
  {
    w.(pcs := w.pcs[t := pc])
  }

  /** The connection dc is now with goroutine t, at pc. */
  function Give(w: World, t: nat, pc: Pc, dc: nat): World
  {
    At(w, t, pc).(loc := w.loc[dc := Held(t)])
  }

  /** The outcome of putting dc. A discarded or refused connection is closed and gone, and one whose
      put hangs is out of reach. */
  function Settle(w: World, dc: nat, key: nat, r: Put): World
  {
    match r
    case Kept(p) =>
      if w.pool.connRequests != {} then
        w.(pool := p, loc := w.loc[dc := InChannel(key)], answered := w.answered + {key})
      else w.(pool := p, loc := w.loc[dc := Free])
    case Discarded(p) => w.(pool := p, loc := w.loc[dc := Gone])
    case Refused => w.(loc := w.loc[dc := Gone])
    case Hangs(p) => w.(pool := p, loc := w.loc[dc := Gone], locked := true)
    case Panicked => w            // these two do not happen (PutSettles, OpenSettles)
    case Blocks => w
  }

  function Do(w: World, a: Action): World
    requires Enabled(w, a)
  {
    match a
    case Spawn(t, cachedOrNew) => At(w, t, Start(cachedOrNew))
    case Enter(t, ctxDone, dc) =>
      if w.pool.closed || ctxDone then At(w, t, Over)
      else if w.pcs[t].cachedOrNew && w.pool.freeConn != {} then
        Give(w, t, Checking(dc), dc).(pool := TakeFree(w.pool, dc))
      else At(w, t, Deciding)
    case Decide(t, canAdd) => At(w, t, if canAdd then Connecting else Registering)
    case Connect(t, ok) =>
      if !ok then At(w, t, Over)
      else Give(w, t, Has(w.created), w.created).(created := w.created + 1,
        pool := w.pool.(inUse := w.pool.inUse + {w.created}))
    case Request(t) =>
      var key := w.pool.nextRequest;
      At(w, t, Waiting(key)).(pool := Register(w.pool), waiter := w.waiter[key := t])
    case Answer(t) =>
      var key := w.pcs[t].key;
      Give(w, t, Checking(w.pool.channels[key][0]), w.pool.channels[key][0]).(pool := Receive(w.pool, key))
    case Expire(t) => At(w, t, Withdrawing(w.pcs[t].key))
    case WithdrawReq(t) => At(w, t, Draining(w.pcs[t].key)).(pool := Withdraw(w.pool, w.pcs[t].key))
    case Drain(t) =>
      var key := w.pcs[t].key;
      if w.pool.channels[key] == [] then At(w, t, Over)
      else Give(w, t, Has(w.pool.channels[key][0]), w.pool.channels[key][0]).(pool := Receive(w.pool, key))
    case Check(t, ok) =>
      var dc := w.pcs[t].dc;
      if ok then At(w, t, Has(dc)) else At(w, t, Over).(loc := w.loc[dc := Gone])
    case PutBack(t, bad, key, ends) =>
      var dc := w.pcs[t].dc;
      At(Settle(w, dc, key, PutConn(w.pool, dc, bad, key, ends)), t, Over)
    case Open(key, ends) =>
      var dc := w.created;
      Settle(w.(created := w.created + 1), dc, key, PutLocked(w.pool, dc, key, ends))
    case Drop(dc) => w.(pool := Remove(w.pool, dc), loc := w.loc[dc := Gone])
    case ClosePool =>
      if w.pool.closed then w
      else w.(pool := CloseAll(w.pool),
              loc := map dc | dc in w.loc :: if dc in w.pool.freeConn then Gone else w.loc[dc])
  }

  predicate HasConn(pc: Pc)
  {
    pc.Checking? || pc.Has?
  }

  predicate WaitsFor(pc: Pc, key: nat)
  {
    (pc.Waiting? || pc.Withdrawing? || pc.Draining?) && pc.key == key
  }

  /** dc is to be found at l. (Gone is nowhere to be found.) */
  predicate Found(w: World, dc: nat, l: Loc)
  {
    match l
    case Free => dc in w.pool.freeConn
    case InChannel(key) => key in w.pool.channels && dc in w.pool.channels[key]
    case Held(t) => t in w.pcs && HasConn(w.pcs[t]) && w.pcs[t].dc == dc
    case Gone => false
  }

  /** Every connection is in at most one place, the one loc tells, unless it is gone. */
  ghost predicate Placed(w: World)
  {
    && (forall dc: nat :: dc in w.loc <==> dc < w.created)
    && (forall dc: nat, l: Loc :: Found(w, dc, l) <==> dc in w.loc && w.loc[dc] == l && l != Gone)
    && (forall k | k in w.pool.channels :: |w.pool.channels[k]| <= CAPACITY)
    && (forall dc | dc in w.loc && (w.loc[dc].Held? || w.loc[dc].InChannel?) :: dc in w.pool.inUse)
    && (forall dc | dc in w.pool.inUse :: dc in w.loc && w.loc[dc] != Free)
  }

  /** A request, its channel and its waiter. */
  predicate Request1(w: World, k: nat)
  {
    && k in w.pool.channels && k in w.waiter && w.waiter[k] in w.pcs
    && var pc, ch := w.pcs[w.waiter[k]], w.pool.channels[k];
    && (k in w.pool.connRequests ==> k !in w.answered && (pc.Waiting? || pc.Withdrawing?) && pc.key == k)
    && (ch != [] ==> k in w.answered && WaitsFor(pc, k))
    && (WaitsFor(pc, k) && k in w.answered ==> ch != [])
    && ((pc.Waiting? || pc.Withdrawing?) && pc.key == k && k !in w.answered ==> k in w.pool.connRequests)
  }

  ghost predicate Matched(w: World)
  {
    && (forall k | k in w.pool.channels || k in w.waiter || k in w.answered || k in w.pool.connRequests ::
          k < w.pool.nextRequest)
    && (forall k: nat | k < w.pool.nextRequest :: Request1(w, k))
    && (forall t, k | t in w.pcs && WaitsFor(w.pcs[t], k) :: k in w.waiter && w.waiter[k] == t)
  }

  ghost predicate Inv(w: World)
  {
    Placed(w) && Matched(w)
  }

  /** Nothing is moved. */
  lemma {:induction false} Stays(w: World, u: World)
    requires Placed(w) && u.loc == w.loc && u.created == w.created && u.pool.inUse == w.pool.inUse
    requires forall k | k in u.pool.channels :: |u.pool.channels[k]| <= CAPACITY
    requires forall dc: nat, l: Loc :: Found(u, dc, l) <==> Found(w, dc, l)
    ensures Placed(u)
  {}

  /** One connection, possibly a new one, moves to another place. */
  lemma {:induction false} Moves(w: World, u: World, dc: nat, to: Loc)
    requires Placed(w) && u.loc == w.loc[dc := to] && u.created == (if dc < w.created then w.created else dc + 1)
             && dc <= w.created
    requires forall k | k in u.pool.channels :: |u.pool.channels[k]| <= CAPACITY
    requires forall d: nat, l: Loc | d != dc :: Found(u, d, l) <==> Found(w, d, l)
    requires forall l: Loc | l != to && !Found(w, dc, l) :: !Found(u, dc, l)
    requires forall l: Loc | l != to && Found(w, dc, l) :: !Found(u, dc, l)
    requires to != Gone ==> Found(u, dc, to)
    requires forall d | d != dc :: d in u.pool.inUse <==> d in w.pool.inUse
    requires to.Held? || to.InChannel? ==> dc in u.pool.inUse
    requires to.Free? ==> dc !in u.pool.inUse
    ensures Placed(u)
  {}

  predicate Waits(pc: Pc)
  {
    pc.Waiting? || pc.Withdrawing? || pc.Draining?
  }

  predicate SameRequest(w: World, u: World, k: nat)
  {
    && (k in u.pool.channels <==> k in w.pool.channels)
    && (k in u.pool.channels && k in w.pool.channels ==> u.pool.channels[k] == w.pool.channels[k])
    && (k in u.pool.connRequests <==> k in w.pool.connRequests)
    && (k in u.answered <==> k in w.answered)
    && (k in u.waiter <==> k in w.waiter)
    && (k in u.waiter && k in w.waiter ==> u.waiter[k] == w.waiter[k])
  }

  predicate SameThread(w: World, u: World, t: nat)
  {
    && (t in u.pcs <==> t in w.pcs)
    && (t in u.pcs && t in w.pcs ==> u.pcs[t] == w.pcs[t])
  }

  /** At most goroutine t and request k are touched, and t waits for k or for nothing. */
  lemma {:induction false} Touches(w: World, u: World, t: nat, k: nat)
    requires Matched(w) && (forall t' | t' != t :: SameThread(w, u, t'))
             && (forall k' | k' != k :: SameRequest(w, u, k'))
    requires t in w.pcs ==> t in u.pcs
    requires t in w.pcs && Waits(w.pcs[t]) ==> w.pcs[t].key == k
    requires t in u.pcs && Waits(u.pcs[t]) ==> u.pcs[t].key == k && k in u.waiter && u.waiter[k] == t
    requires u.pool.nextRequest
             == (if k == w.pool.nextRequest && k in u.pool.channels then k + 1 else w.pool.nextRequest)
    requires if k < u.pool.nextRequest then Request1(u, k) else SameRequest(w, u, k)
    requires k in w.waiter ==> k in u.waiter && u.waiter[k] == w.waiter[k]
    ensures Matched(u)
  {
    forall k': nat | k' != k && (k' in u.pool.channels || k' in u.waiter || k' in u.answered
      || k' in u.pool.connRequests)
      ensures k' < u.pool.nextRequest
    {
      assert SameRequest(w, u, k');
    }
    forall k': nat | k' < u.pool.nextRequest && k' != k
      ensures Request1(u, k')
    {
      assert SameRequest(w, u, k') && Request1(w, k');
      assert w.waiter[k'] != t ==> SameThread(w, u, w.waiter[k']);
    }
    forall t': nat, k': nat | t' in u.pcs && WaitsFor(u.pcs[t'], k')
      ensures k' in u.waiter && u.waiter[k'] == t'
    {
      if t' != t {
        assert SameThread(w, u, t') && WaitsFor(w.pcs[t'], k');
        assert k' != k ==> SameRequest(w, u, k');
      }
    }
  }

  lemma {:induction false} TouchesNothing(w: World, u: World)
    requires Matched(w) && u.pcs == w.pcs && u.waiter == w.waiter && u.answered == w.answered
    requires u.pool.channels == w.pool.channels && u.pool.connRequests == w.pool.connRequests
    requires u.pool.nextRequest == w.pool.nextRequest
    ensures Matched(u)
  {
    forall k: nat | k < u.pool.nextRequest
      ensures Request1(u, k)
    {
      assert Request1(w, k);
    }
    assert forall t, k | t in u.pcs && WaitsFor(u.pcs[t], k) :: WaitsFor(w.pcs[t], k);
  }

  /** A goroutine without connection or request moves to another such place. */
  lemma {:induction false} AtStep(w: World, t: nat, pc: Pc)
    requires Inv(w) && !HasConn(pc) && !Waits(pc) && (t in w.pcs ==> !HasConn(w.pcs[t]) && !Waits(w.pcs[t]))
    ensures Inv(At(w, t, pc))
  {
    var u := At(w, t, pc);
    Stays(w, u);
    Touches(w, u, t, w.pool.nextRequest);
  }

  /** A goroutine without a request gets a connection dc that is not elsewhere. */
  lemma {:induction false} TakeFreeStep(w: World, t: nat, dc: nat)
    requires Inv(w) && t in w.pcs && w.pcs[t].Start? && dc in w.pool.freeConn
    ensures Inv(Give(w, t, Checking(dc), dc).(pool := TakeFree(w.pool, dc)))
  {
    var u := Give(w, t, Checking(dc), dc).(pool := TakeFree(w.pool, dc));
    assert Found(w, dc, Free);
    Moves(w, u, dc, Held(t));
    Touches(w, u, t, w.pool.nextRequest);
  }

  lemma {:induction false} ConnectStep(w: World, t: nat)
    requires Inv(w) && Enabled(w, Connect(t, true))
    ensures Inv(Do(w, Connect(t, true)))
  {
    var u := Do(w, Connect(t, true));
    Moves(w, u, w.created, Held(t));
    Touches(w, u, t, w.pool.nextRequest);
  }

  lemma {:induction false} RequestStep(w: World, t: nat)
    requires Inv(w) && Enabled(w, Request(t))
    ensures Inv(Do(w, Request(t)))
  {
    var u := Do(w, Request(t));
    Stays(w, u);
    Touches(w, u, t, w.pool.nextRequest);
  }

  lemma {:induction false} ReceiveStep(w: World, t: nat, pc: Pc, dc: nat)
    requires Inv(w) && t in w.pcs && (w.pcs[t].Waiting? || w.pcs[t].Draining?)
    requires w.pcs[t].key in w.pool.channels && w.pool.channels[w.pcs[t].key] != []
             && dc == w.pool.channels[w.pcs[t].key][0]
    requires pc == Checking(dc) || pc == Has(dc)
    ensures Inv(Give(w, t, pc, dc).(pool := Receive(w.pool, w.pcs[t].key)))
  {
    var key := w.pcs[t].key;
    var u := Give(w, t, pc, dc).(pool := Receive(w.pool, key));
    assert Found(w, dc, InChannel(key)) && w.pool.channels[key] == [dc];
    Moves(w, u, dc, Held(t));
    assert WaitsFor(w.pcs[t], key);
    assert Request1(w, key);
    Touches(w, u, t, key);
  }

  lemma {:induction false} ExpireStep(w: World, t: nat)
    requires Inv(w) && t in w.pcs && w.pcs[t].Waiting?
    ensures Inv(Do(w, Expire(t)))
  {
    var u := Do(w, Expire(t));
    Stays(w, u);
    assert WaitsFor(w.pcs[t], w.pcs[t].key) && Request1(w, w.pcs[t].key);
    Touches(w, u, t, w.pcs[t].key);
  }

  lemma {:induction false} WithdrawStep(w: World, t: nat)
    requires Inv(w) && Enabled(w, WithdrawReq(t))
    ensures Inv(Do(w, WithdrawReq(t)))
  {
    var u := Do(w, WithdrawReq(t));
    Stays(w, u);
    assert WaitsFor(w.pcs[t], w.pcs[t].key) && Request1(w, w.pcs[t].key);
    Touches(w, u, t, w.pcs[t].key);
  }

  lemma {:induction false} DrainEmptyStep(w: World, t: nat)
    requires Inv(w) && t in w.pcs && w.pcs[t].Draining? && w.pcs[t].key in w.pool.channels
             && w.pool.channels[w.pcs[t].key] == []
    ensures Inv(At(w, t, Over))
  {
    var u := At(w, t, Over);
    Stays(w, u);
    assert WaitsFor(w.pcs[t], w.pcs[t].key) && Request1(w, w.pcs[t].key);
    Touches(w, u, t, w.pcs[t].key);
  }

  lemma {:induction false} CheckStep(w: World, t: nat, ok: bool)
    requires Inv(w) && Enabled(w, Check(t, ok))
    ensures Inv(Do(w, Check(t, ok)))
  {
    var u := Do(w, Check(t, ok));
    var dc := w.pcs[t].dc;
    assert Found(w, dc, Held(t));
    if ok {
      Stays(w, u);
    } else {
      Moves(w, u, dc, Gone);
    }
    Touches(w, u, t, w.pool.nextRequest);
  }

  /** In putConn none of the panics of conn_pool_put.go is reached and no send on a response
      channel blocks; it ends if and only if the facade's call does, when there is one. */
  lemma {:induction false} PutSucceeds(w: World, t: nat, bad: bool, key: nat, ends: bool)
    requires Inv(w) && t in w.pcs && w.pcs[t].Has? && Picks(w.pool, key)
    ensures var r := PutConn(w.pool, w.pcs[t].dc, bad, key, ends);
            if CallsFacade(w.pool, bad) && !ends then r.Hangs?
            else if bad || w.pool.closed then r.Discarded?
            else r.Kept?
  {
    assert Found(w, w.pcs[t].dc, Held(t));
    assert !Found(w, w.pcs[t].dc, Free);
    assert key in w.pool.connRequests ==> Request1(w, key);
  }

  lemma {:induction false} PutMoves(w: World, t: nat, bad: bool, key: nat, ends: bool)
    requires Inv(w) && Enabled(w, PutBack(t, bad, key, ends))
    ensures Placed(Do(w, PutBack(t, bad, key, ends)))
  {
    var u := Do(w, PutBack(t, bad, key, ends));
    var dc := w.pcs[t].dc;
    PutSucceeds(w, t, bad, key, ends);
    assert Found(w, dc, Held(t));
    if key in w.pool.connRequests {
      assert Request1(w, key);
    }
    Moves(w, u, dc, u.loc[dc]);
  }

  lemma {:induction false} PutAnswers(w: World, t: nat, bad: bool, key: nat, ends: bool)
    requires Inv(w) && Enabled(w, PutBack(t, bad, key, ends))
    ensures Matched(Do(w, PutBack(t, bad, key, ends)))
  {
    var u := Do(w, PutBack(t, bad, key, ends));
    PutSucceeds(w, t, bad, key, ends);
    var v := At(w, t, Over);
    Touches(w, v, t, w.pool.nextRequest);
    hide Placed;
    if key in w.pool.connRequests && !bad && !w.pool.closed {
      assert Request1(w, key);
      Touches(v, u, w.waiter[key], key);
    } else {
      TouchesNothing(v, u);
    }
  }

  lemma {:induction false} PutStep(w: World, t: nat, bad: bool, key: nat, ends: bool)
    requires Inv(w) && Enabled(w, PutBack(t, bad, key, ends))
    ensures Inv(Do(w, PutBack(t, bad, key, ends)))
  {
    hide Placed, Matched;
    PutMoves(w, t, bad, key, ends);
    PutAnswers(w, t, bad, key, ends);
  }

  lemma {:induction false} OpenMoves(w: World, key: nat, ends: bool)
    requires Inv(w) && Enabled(w, Open(key, ends))
    ensures Placed(Do(w, Open(key, ends)))
  {
    if w.pool.connRequests != {} {
      OpenFinds(w, key);
    }
    assert !Found(w, w.created, Free);
    hide Placed, Matched;
    if w.pool.closed || (w.pool.connRequests == {} && !ends) {
      OpenLoses(w, key, ends);
    } else if w.pool.connRequests == {} {
      OpenFrees(w, key);
    } else {
      OpenHandsOver(w, key, ends);
    }
  }

  lemma {:induction false} OpenLoses(w: World, key: nat, ends: bool)
    requires Placed(w) && Enabled(w, Open(key, ends)) && (w.pool.closed || (w.pool.connRequests == {} && !ends))
    ensures Placed(Do(w, Open(key, ends)))
  {
    Moves(w, Do(w, Open(key, ends)), w.created, Gone);
  }

  lemma {:induction false} OpenFrees(w: World, key: nat)
    requires Placed(w) && Enabled(w, Open(key, true)) && !w.pool.closed && w.pool.connRequests == {}
             && w.created !in w.pool.freeConn
    ensures Placed(Do(w, Open(key, true)))
  {
    Moves(w, Do(w, Open(key, true)), w.created, Free);
  }

  lemma {:induction false} OpenHandsOver(w: World, key: nat, ends: bool)
    requires Placed(w) && Enabled(w, Open(key, ends)) && !w.pool.closed && w.pool.connRequests != {}
             && key in w.pool.channels && w.pool.channels[key] == []
    ensures Placed(Do(w, Open(key, ends)))
  {
    Moves(w, Do(w, Open(key, ends)), w.created, InChannel(key));
  }

  lemma {:induction false} OpenFinds(w: World, key: nat)
    requires Matched(w) && key in w.pool.connRequests
    ensures key in w.pool.channels && w.pool.channels[key] == []
  {
    assert Request1(w, key);
  }

  lemma {:induction false} OpenAnswers(w: World, key: nat, ends: bool)
    requires Inv(w) && Enabled(w, Open(key, ends))
    ensures Matched(Do(w, Open(key, ends)))
  {
    var u := Do(w, Open(key, ends));
    assert !Found(w, w.created, Free);
    hide Placed;
    if key in w.pool.connRequests && !w.pool.closed {
      assert Request1(w, key);
      Touches(w, u, w.waiter[key], key);
    } else {
      TouchesNothing(w, u);
    }
  }

  lemma {:induction false} OpenStep(w: World, key: nat, ends: bool)
    requires Inv(w) && Enabled(w, Open(key, ends))
    ensures Inv(Do(w, Open(key, ends)))
  {
    hide Placed, Matched;
    OpenMoves(w, key, ends);
    OpenAnswers(w, key, ends);
  }

  lemma {:induction false} DropStep(w: World, dc: nat)
    requires Inv(w) && Enabled(w, Drop(dc))
    ensures Inv(Do(w, Drop(dc)))
  {
    assert Found(w, dc, Free);
    Moves(w, Do(w, Drop(dc)), dc, Gone);
    TouchesNothing(w, Do(w, Drop(dc)));
  }

  /** Only the free connections move when the pool closes. */
  lemma {:induction false} CloseMoves(w: World)
    requires Placed(w) && !w.pool.closed && !w.locked
    ensures Placed(Do(w, ClosePool))
  {
    var u := Do(w, ClosePool);
    forall dc: nat, l: Loc
      ensures Found(u, dc, l) <==> dc in u.loc && u.loc[dc] == l && l != Gone
    {
      assert Found(w, dc, Free) <==> dc in w.loc && w.loc[dc] == Free;
      if l != Free {
        assert Found(u, dc, l) <==> Found(w, dc, l);
      }
    }
    forall dc | dc in u.pool.inUse
      ensures dc in u.loc && u.loc[dc] != Free
    {
      assert dc in w.loc && w.loc[dc] != Free;
    }
  }

  lemma {:induction false} CloseStep(w: World)
    requires Inv(w) && !w.locked
    ensures Inv(Do(w, ClosePool))
  {
    if !w.pool.closed {
      CloseMoves(w);
      hide Placed;
      TouchesNothing(w, Do(w, ClosePool));
    }
  }

  lemma {:induction false} InvStep(w: World, a: Action)
    requires Inv(w) && Enabled(w, a)
    ensures Inv(Do(w, a))
  {
    hide Inv;
    match a
    case Spawn(t, cachedOrNew) => AtStep(w, t, Start(cachedOrNew));
    case Enter(t, ctxDone, dc) =>
      if w.pool.closed || ctxDone {
        AtStep(w, t, Over);
      } else if w.pcs[t].cachedOrNew && w.pool.freeConn != {} {
        TakeFreeStep(w, t, dc);
      } else {
        AtStep(w, t, Deciding);
      }
    case Decide(t, canAdd) => AtStep(w, t, if canAdd then Connecting else Registering);
    case Connect(t, ok) =>
      if ok {
        ConnectStep(w, t);
      } else {
        AtStep(w, t, Over);
      }
    case Request(t) => RequestStep(w, t);
    case Answer(t) =>
      var dc := w.pool.channels[w.pcs[t].key][0];
      ReceiveStep(w, t, Checking(dc), dc);
    case Expire(t) => ExpireStep(w, t);
    case WithdrawReq(t) => WithdrawStep(w, t);
    case Drain(t) =>
      if w.pool.channels[w.pcs[t].key] == [] {
        DrainEmptyStep(w, t);
      } else {
        var dc := w.pool.channels[w.pcs[t].key][0];
        ReceiveStep(w, t, Has(dc), dc);
      }
    case Check(t, ok) => CheckStep(w, t, ok);
    case PutBack(t, bad, key, ends) => PutStep(w, t, bad, key, ends);
    case Open(key, ends) => OpenStep(w, key, ends);
    case Drop(dc) => DropStep(w, dc);
    case ClosePool => CloseStep(w);
  }

  /** The state after a run of actions, None if one of them is not possible when it is its turn. */
  function Exec(w: World, acts: seq<Action>): Option<World>
    decreases |acts|
  {
    if acts == [] then Some(w)
    else if !Enabled(w, acts[0]) then None
    else Exec(Do(w, acts[0]), acts[1..])
  }

  lemma {:induction false} InvExec(w: World, acts: seq<Action>)
    requires Inv(w)
    ensures match Exec(w, acts) case Some(u) => Inv(u) case None => true
    decreases |acts|
  {
    hide Inv, Enabled, Do;
    if acts != [] && Enabled(w, acts[0]) {
      InvStep(w, acts[0]);
      InvExec(Do(w, acts[0]), acts[1..]);
    }
  }

  lemma {:induction false} BeginInv()
    ensures Inv(Begin())
  {}

  /** In every state of every run a connection that was opened is free, or in one channel, or
      with one goroutine, or closed or stuck in a put, and never in two of these places; a request
      has an empty channel that was never sent on. This holds of a pool that stays locked, too. */
  lemma {:induction false} ConnectionsConserved(acts: seq<Action>, w: World, dc: nat)
    requires Exec(Begin(), acts) == Some(w)
    ensures dc < w.created ==> dc in w.loc && (w.loc[dc] == Gone || Found(w, dc, w.loc[dc]))
    ensures forall l: Loc, m: Loc | Found(w, dc, l) && Found(w, dc, m) :: l == m
    ensures forall l: Loc | Found(w, dc, l) :: dc < w.created && dc in w.loc && w.loc[dc] != Gone
    ensures forall k | k in w.pool.connRequests :: k !in w.answered && k in w.pool.channels && w.pool.channels[k] == []
  {
    hide Exec;
    BeginInv();
    InvExec(Begin(), acts);
    forall k | k in w.pool.connRequests
      ensures k !in w.answered && k in w.pool.channels && w.pool.channels[k] == []
    {
      hide Placed;
      assert Request1(w, k);
    }
  }

  /** Where a connection goes that is put or delivered: to the request key, to the free set, or
      away. */
  predicate Settled(w: World, u: World, dc: nat, key: nat, lost: bool)
  {
    && u.waiter == w.waiter && u.pool.closed == w.pool.closed && u.pool.nextRequest == w.pool.nextRequest
    && if lost then
         && u.loc == w.loc[dc := Gone] && u.answered == w.answered
         && u.pool == w.pool.(inUse := w.pool.inUse - {dc})
       else if w.pool.connRequests != {} then
         && u.loc == w.loc[dc := InChannel(key)] && u.answered == w.answered + {key}
         && u.pool.connRequests == w.pool.connRequests - {key} && u.pool.channels == w.pool.channels[key := [dc]]
         && u.pool.freeConn == w.pool.freeConn && u.pool.inUse == w.pool.inUse + {dc}
       else
         && u.loc == w.loc[dc := Free] && u.answered == w.answered
         && u.pool.connRequests == {} && u.pool.channels == w.pool.channels
         && u.pool.freeConn == w.pool.freeConn + {dc} && u.pool.inUse == w.pool.inUse - {dc}
  }

  /** In every run a put that ends hands the connection to a request, or to the free set if there
      is none, unless it is bad or the pool is closed; one that does not end leaves the pool
      locked. */
  lemma {:induction false} PutSettles(acts: seq<Action>, w: World, t: nat, bad: bool, key: nat, ends: bool)
    requires Exec(Begin(), acts) == Some(w) && Enabled(w, PutBack(t, bad, key, ends))
    ensures var u := Do(w, PutBack(t, bad, key, ends));
            && u.pcs == w.pcs[t := Over] && u.created == w.created
            && (u.locked <==> CallsFacade(w.pool, bad) && !ends)
            && Settled(w, u, w.pcs[t].dc, key, u.locked || bad || w.pool.closed)
  {
    hide Exec;
    BeginInv();
    InvExec(Begin(), acts);
    PutSucceeds(w, t, bad, key, ends);
    ChannelEmpty(w, key);
    var dc := w.pcs[t].dc;
    assert Found(w, dc, Held(t)) && !Found(w, dc, Free);
    assert w.pool.inUse - {dc} + {dc} == w.pool.inUse + {dc} && [] + [dc] == [dc];
    hide Placed, Matched;
  }

  lemma {:induction false} ChannelEmpty(w: World, key: nat)
    requires Matched(w)
    ensures key in w.pool.connRequests ==> key in w.pool.channels && w.pool.channels[key] == []
  {
    if key in w.pool.connRequests {
      assert Request1(w, key);
    }
  }

  /** So does the opener with a new connection; it is refused by a closed pool. */
  lemma {:induction false} OpenSettles(acts: seq<Action>, w: World, key: nat, ends: bool)
    requires Exec(Begin(), acts) == Some(w) && Enabled(w, Open(key, ends))
    ensures var u := Do(w, Open(key, ends));
            && u.pcs == w.pcs && u.created == w.created + 1
            && (u.locked <==> !w.pool.closed && w.pool.connRequests == {} && !ends)
            && Settled(w, u, w.created, key, u.locked || w.pool.closed)
  {
    hide Exec;
    BeginInv();
    InvExec(Begin(), acts);
    ChannelEmpty(w, key);
    assert !Found(w, w.created, Free);
    assert w.created !in w.pool.inUse;
    hide Do, Settled, Placed, Matched;
    NewConnection(w, key, ends);
  }

  lemma {:induction false} NewConnection(w: World, key: nat, ends: bool)
    requires Enabled(w, Open(key, ends)) && w.created !in w.pool.freeConn && w.created !in w.pool.inUse
    requires key in w.pool.connRequests ==> key in w.pool.channels && w.pool.channels[key] == []
    ensures var u := Do(w, Open(key, ends));
            && u.pcs == w.pcs && u.created == w.created + 1
            && (u.locked <==> !w.pool.closed && w.pool.connRequests == {} && !ends)
            && Settled(w, u, w.created, key, u.locked || w.pool.closed)
  {
    assert w.pool.inUse - {w.created} == w.pool.inUse && [] + [w.created] == [w.created];
    assert w.pool.(inUse := w.pool.inUse) == w.pool;
  }

  /** As long as a channel holds a connection, the goroutine that made the request still stands
      before one of the receives that take it. A waiter without a delivered connection is still
      among the requests; whether it will ever be answered is another matter (WaitsBesideFree,
      AnswerableFromWithin). */
  lemma {:induction false} DeliveredHasReceiver(acts: seq<Action>, w: World, key: nat)
    requires Exec(Begin(), acts) == Some(w)
    ensures key in w.pool.channels && w.pool.channels[key] != [] ==>
              && key in w.answered && key in w.waiter && w.waiter[key] in w.pcs && WaitsFor(w.pcs[w.waiter[key]], key)
              && (w.pcs[w.waiter[key]].Waiting? ==> Enabled(w, Answer(w.waiter[key])))
    ensures forall t | t in w.pcs && w.pcs[t] == Waiting(key) :: key in w.pool.connRequests || Enabled(w, Answer(t))
  {
    hide Exec, Placed;
    BeginInv();
    InvExec(Begin(), acts);
    assert key < w.pool.nextRequest ==> Request1(w, key);
    forall t | t in w.pcs && w.pcs[t] == Waiting(key)
      ensures key in w.pool.connRequests || Enabled(w, Answer(t))
    {
      assert WaitsFor(w.pcs[t], key);
    }
  }

  /** The requests that were registered while a connection was free. */
  function RegisteredBeside(w: World, acts: seq<Action>): set<nat>
    decreases |acts|
  {
    if acts == [] || !Enabled(w, acts[0]) then {}
    else
      (if acts[0].Request? && w.pool.freeConn != {} then {w.pool.nextRequest} else {})
      + RegisteredBeside(Do(w, acts[0]), acts[1..])
  }

  /** A connection becomes free only when there is no request. */
  lemma {:induction false} FreeStep(w: World, a: Action)
    requires Enabled(w, a) && Do(w, a).pool.freeConn != {}
    ensures w.pool.freeConn != {} || (w.pool.connRequests == {} && !a.Request?)
  {}

  lemma {:induction false} RequestsStep(w: World, a: Action)
    requires Enabled(w, a)
    ensures forall k | k in Do(w, a).pool.connRequests ::
              k in w.pool.connRequests || (a.Request? && k == w.pool.nextRequest)
  {}

  lemma {:induction false} BesideStep(w: World, a: Action, seen: set<nat>)
    requires Enabled(w, a) && (w.pool.freeConn != {} ==> w.pool.connRequests <= seen)
    ensures var u := Do(w, a);
            u.pool.freeConn != {} ==>
              u.pool.connRequests <= seen + if a.Request? && w.pool.freeConn != {} then {w.pool.nextRequest} else {}
  {
    hide Do, Enabled;
    if Do(w, a).pool.freeConn != {} {
      FreeStep(w, a);
      RequestsStep(w, a);
    }
  }

  lemma {:induction false} BesideExec(w: World, acts: seq<Action>, seen: set<nat>)
    requires w.pool.freeConn != {} ==> w.pool.connRequests <= seen
    ensures match Exec(w, acts)
            case Some(u) => u.pool.freeConn != {} ==> u.pool.connRequests <= seen + RegisteredBeside(w, acts)
            case None => true
    decreases |acts|
  {
    hide Enabled, Do;
    if acts != [] && Enabled(w, acts[0]) {
      BesideStep(w, acts[0], seen);
      var now := if acts[0].Request? && w.pool.freeConn != {} then {w.pool.nextRequest} else {};
      BesideExec(Do(w, acts[0]), acts[1..], seen + now);
      assert seen + now + RegisteredBeside(Do(w, acts[0]), acts[1..]) == seen + RegisteredBeside(w, acts);
    }
  }

  /** A request waits beside a free connection only if a connection was already free when it was
      registered: whoever puts a connection looks for requests first. */
  lemma {:induction false} WaitsBesideFree(acts: seq<Action>, w: World, key: nat)
    requires Exec(Begin(), acts) == Some(w) && w.pool.freeConn != {} && key in w.pool.connRequests
    ensures key in RegisteredBeside(Begin(), acts)
  {
    hide Exec, RegisteredBeside;
    BesideExec(Begin(), acts, {});
  }

  lemma {:induction false} ExecTwice(w: World, a: Action, b: Action, rest: seq<Action>)
    requires Enabled(w, a) && Enabled(Do(w, a), b)
    ensures Exec(w, [a, b] + rest) == Exec(Do(Do(w, a), b), rest)
  {
    hide Enabled, Do;
    assert ([a, b] + rest)[1..] == [b] + rest;
    assert ([b] + rest)[1..] == rest;
  }

  /** Goroutine 0 opens a connection, goroutine 1 decides to wait, 0 puts its connection, and
      1 registers. */
  function LostRace(): seq<Action>
  {
    [Spawn(0, true), Enter(0, false, 0)] + ([Decide(0, true), Connect(0, true)]
    + ([Spawn(1, true), Enter(1, false, 0)] + ([Decide(1, false), PutBack(0, false, 0, true)] + [Request(1)])))
  }

  /** The state of the race before goroutine 1 comes: 0 has a connection. */
  function OneHolder(): World
  {
    World(Empty().(inUse := {0}), map[0 := Has(0)], 1, map[0 := Held(0)], map[], {}, false)
  }

  lemma {:induction false} HolderComes(rest: seq<Action>)
    ensures var first := [Spawn(0, true), Enter(0, false, 0)] + ([Decide(0, true), Connect(0, true)] + rest);
            Exec(Begin(), first) == Exec(OneHolder(), rest)
  {
    var w2 := Begin().(pcs := map[0 := Deciding]);
    assert Do(Do(Begin(), Spawn(0, true)), Enter(0, false, 0)) == w2;
    assert Do(Do(w2, Decide(0, true)), Connect(0, true)) == OneHolder();
    hide Exec, Do;
    ExecTwice(Begin(), Spawn(0, true), Enter(0, false, 0), [Decide(0, true), Connect(0, true)] + rest);
    ExecTwice(w2, Decide(0, true), Connect(0, true), rest);
  }

  /** The connection is free again, and 1 is about to register. */
  function OneFree(): World
  {
    World(Empty().(freeConn := {0}), map[0 := Over, 1 := Registering], 1, map[0 := Free], map[], {}, false)
  }

  lemma {:induction false} HolderPuts(rest: seq<Action>)
    ensures var last := [Spawn(1, true), Enter(1, false, 0)] + ([Decide(1, false), PutBack(0, false, 0, true)] + rest);
            Exec(OneHolder(), last) == Exec(OneFree(), rest)
  {
    var w := OneHolder();
    var w2 := w.(pcs := map[0 := Has(0), 1 := Deciding]);
    assert Do(Do(w, Spawn(1, true)), Enter(1, false, 0)) == w2;
    assert Do(Do(w2, Decide(1, false)), PutBack(0, false, 0, true)) == OneFree();
    hide Exec, Do;
    ExecTwice(w, Spawn(1, true), Enter(1, false, 0), [Decide(1, false), PutBack(0, false, 0, true)] + rest);
    ExecTwice(w2, Decide(1, false), PutBack(0, false, 0, true), rest);
  }

  /** The free set is looked at in one critical section and the request is registered in another
      (conn_pool.go:96-160). Between them a connection can become free, and the goroutine then
      waits although a connection that nobody holds is in the free set. */
  lemma {:induction false} WaitingBesideFreeExample()
    ensures var r := Exec(Begin(), LostRace());
            && r.Some? && r.value.pool.freeConn == {0} && r.value.pool.connRequests == {0}
            && r.value.pcs == map[0 := Over, 1 := Waiting(0)] && !Enabled(r.value, Answer(1))
  {
    hide Exec, Enabled;
    var last := [Spawn(1, true), Enter(1, false, 0)] + ([Decide(1, false), PutBack(0, false, 0, true)] + [Request(1)]);
    HolderComes(last);
    HolderPuts([Request(1)]);
    WaiterRegisters();
  }

  lemma {:induction false} WaiterRegisters()
    ensures var r := Exec(OneFree(), [Request(1)]);
            && r.Some? && r.value.pool.freeConn == {0} && r.value.pool.connRequests == {0}
            && r.value.pcs == map[0 := Over, 1 := Waiting(0)] && !Enabled(r.value, Answer(1))
  {
    var u := Do(OneFree(), Request(1));
    assert [Request(1)][1..] == [];
    assert Exec(u, []) == Some(u);
  }

  lemma {:induction false} ClosedStep(w: World, a: Action)
    requires Enabled(w, a) && w.pool.closed
    ensures Do(w, a).pool.closed && Do(w, a).answered == w.answered
  {}

  /** A closed pool answers no request any more, in any run. */
  lemma {:induction false} ClosedNeverAnswers(w: World, acts: seq<Action>)
    requires w.pool.closed
    ensures match Exec(w, acts) case Some(u) => u.pool.closed && u.answered == w.answered case None => true
    decreases |acts|
  {
    hide Enabled, Do;
    if acts != [] && Enabled(w, acts[0]) {
      ClosedStep(w, acts[0]);
      ClosedNeverAnswers(Do(w, acts[0]), acts[1..]);
    }
  }

  lemma {:induction false} LockedStep(w: World, a: Action)
    requires Enabled(w, a) && w.locked
    ensures Do(w, a).locked && Do(w, a).answered == w.answered && Do(w, a).pool.connRequests == w.pool.connRequests
  {}

  /** Behind a put that never ends no request is answered or withdrawn any more, in any run. */
  lemma {:induction false} LockedNeverAnswers(w: World, acts: seq<Action>)
    requires w.locked
    ensures match Exec(w, acts)
            case Some(u) => u.locked && u.answered == w.answered && u.pool.connRequests == w.pool.connRequests
            case None => true
    decreases |acts|
  {
    hide Enabled, Do;
    if acts != [] && Enabled(w, acts[0]) {
      LockedStep(w, acts[0]);
      LockedNeverAnswers(Do(w, acts[0]), acts[1..]);
    }
  }

  lemma {:induction false} TurnedAwayStep(w: World, a: Action, t: nat)
    requires Enabled(w, a) && w.pool.closed && t in w.pcs && (w.pcs[t].Start? || w.pcs[t].Over?)
    ensures var u := Do(w, a); t in u.pcs && (u.pcs[t].Start? || u.pcs[t].Over?)
  {}

  /** Once the pool is closed, nobody who is still before conn gets a connection or waits for one. */
  lemma {:induction false} ClosedTurnsAway(w: World, acts: seq<Action>, t: nat)
    requires w.pool.closed && t in w.pcs && (w.pcs[t].Start? || w.pcs[t].Over?)
    ensures match Exec(w, acts) case Some(u) => t in u.pcs && (u.pcs[t].Start? || u.pcs[t].Over?) case None => true
    decreases |acts|
  {
    hide Enabled, Do;
    if acts != [] && Enabled(w, acts[0]) {
      ClosedStep(w, acts[0]);
      TurnedAwayStep(w, acts[0], t);
      ClosedTurnsAway(Do(w, acts[0]), acts[1..], t);
    }
  }

  /** Goroutine 1 waits while 0 has the connection; then 0 has put it; then 1 has received it. */
  function OneWaits(): World
  {
    World(Pool(false, {}, {0}, 1, map[0 := []], {0}), map[0 := Has(0), 1 := Waiting(0)], 1, map[0 := Held(0)],
      map[0 := 1], {}, false)
  }

  function OnePut(): World
  {
    World(Pool(false, {}, {}, 1, map[0 := [0]], {0}), map[0 := Over, 1 := Waiting(0)], 1, map[0 := InChannel(0)],
      map[0 := 1], {0}, false)
  }

  function OneReceived(): World
  {
    World(Pool(false, {}, {}, 1, map[0 := []], {0}), map[0 := Over, 1 := Checking(0)], 1, map[0 := Held(1)],
      map[0 := 1], {0}, false)
  }

  lemma {:induction false} WaiterComes(rest: seq<Action>)
    ensures Exec(OneHolder(), [Spawn(1, true), Enter(1, false, 0)] + ([Decide(1, false), Request(1)] + rest))
            == Exec(OneWaits(), rest)
  {
    var w := OneHolder();
    var w2 := w.(pcs := map[0 := Has(0), 1 := Deciding]);
    assert Do(Do(w, Spawn(1, true)), Enter(1, false, 0)) == w2;
    assert Do(Do(w2, Decide(1, false)), Request(1)) == OneWaits();
    hide Exec, Do;
    ExecTwice(w2, Decide(1, false), Request(1), rest);
    ExecTwice(w, Spawn(1, true), Enter(1, false, 0), [Decide(1, false), Request(1)] + rest);
  }

  lemma {:induction false} WaiterReceives()
    ensures Enabled(OneWaits(), PutBack(0, false, 0, true)) && Do(OneWaits(), PutBack(0, false, 0, true)) == OnePut()
    ensures Enabled(OnePut(), Answer(1)) && Do(OnePut(), Answer(1)) == OneReceived()
  {
    var u, none: seq<nat> := Do(OneWaits(), PutBack(0, false, 0, true)), [];
    assert none + [0] == [0];
    assert u.pool.channels == map[0 := [0]];
    assert u.pool.connRequests == {} && u.pool.inUse == {0};
    assert u.pcs == OnePut().pcs && u.loc == OnePut().loc && u.answered == {0};
  }

  /** Goroutine 1 waits, goroutine 0 puts its connection, and 1 receives it; 1 has the connection
      only after the check, and not when the check fails. */
  lemma {:induction false} HandOverExample(ok: bool)
    ensures var r := Exec(OneHolder(), [Spawn(1, true), Enter(1, false, 0)] + ([Decide(1, false), Request(1)]
                     + ([PutBack(0, false, 0, true), Answer(1)] + [Check(1, ok)])));
            && r.Some? && r.value.pcs == map[0 := Over, 1 := if ok then Has(0) else Over]
            && r.value.loc == map[0 := if ok then Held(1) else Gone] && r.value.pool == OneReceived().pool
            && r.value.pool.connRequests == {} && r.value.answered == {0}
  {
    var last := Check(1, ok);
    assert Enabled(OneReceived(), last);
    var u := Do(OneReceived(), last);
    assert u.pcs == map[0 := Over, 1 := if ok then Has(0) else Over];
    assert u.loc == map[0 := if ok then Held(1) else Gone];
    WaiterComes([PutBack(0, false, 0, true), Answer(1)] + [last]);
    WaiterReceives();
    hide Do, Enabled;
    ExecTwice(OneWaits(), PutBack(0, false, 0, true), Answer(1), [last]);
    assert [last][1..] == [] && Exec(u, []) == Some(u) && Exec(OneReceived(), [last]) == Exec(u, []);
  }

  predicate Answers(w: World, acts: seq<Action>, key: nat)
  {
    match Exec(w, acts) case Some(u) => key in u.answered case None => false
  }

  /** Nobody new comes and no connection is opened. */
  predicate NothingNew(acts: seq<Action>)
  {
    forall a | a in acts :: !a.Open? && !a.Connect? && !a.Spawn?
  }

  /** A connection can still be put: some goroutine has one or finds one in a channel, or one is
      free and a goroutine is about to look for it. */
  predicate CanReturn(w: World)
  {
    || (exists t :: t in w.pcs && HasConn(w.pcs[t]))
    || (exists k :: k in w.pool.channels && w.pool.channels[k] != [])
    || (w.pool.freeConn != {} && exists t :: t in w.pcs && w.pcs[t] == Start(true))
  }

  lemma {:induction false} NothingReturnsStep(w: World, a: Action)
    requires Enabled(w, a) && !CanReturn(w) && !a.Open? && !a.Connect? && !a.Spawn?
    ensures !CanReturn(Do(w, a)) && Do(w, a).answered == w.answered
  {
    var u := Do(w, a);
    assert u.pool.freeConn <= w.pool.freeConn;
    forall t | t in u.pcs
      ensures !HasConn(u.pcs[t]) && (u.pcs[t] == Start(true) ==> t in w.pcs && w.pcs[t] == Start(true))
    {
      assert t in w.pcs && !HasConn(w.pcs[t]);
    }
  }

  lemma {:induction false} NothingReturns(w: World, acts: seq<Action>)
    requires !CanReturn(w) && NothingNew(acts)
    ensures match Exec(w, acts) case Some(u) => u.answered == w.answered case None => true
    decreases |acts|
  {
    hide Enabled, Do, CanReturn;
    if acts != [] && Enabled(w, acts[0]) {
      assert acts[0] in acts && forall a | a in acts[1..] :: a in acts;
      NothingReturnsStep(w, acts[0]);
      NothingReturns(Do(w, acts[0]), acts[1..]);
    }
  }

  /** acts answers key from the state after a. */
  lemma {:induction false} AnswersAfter(w: World, a: Action, acts: seq<Action>, key: nat)
    requires Enabled(w, a) && Answers(Do(w, a), acts, key) && NothingNew(acts) && !a.Open? && !a.Connect? && !a.Spawn?
    ensures Answers(w, [a] + acts, key) && NothingNew([a] + acts)
  {
    hide Enabled, Do;
    assert ([a] + acts)[1..] == acts;
  }

  /** A goroutine that has a connection can put it for any of the requests. */
  lemma {:induction false} HolderAnswers(w: World, t: nat, key: nat) returns (acts: seq<Action>)
    requires Inv(w) && key in w.pool.connRequests && !w.pool.closed && !w.locked && t in w.pcs && HasConn(w.pcs[t])
    ensures Answers(w, acts, key) && NothingNew(acts)
    decreases w.pcs[t].Checking?
  {
    if w.pcs[t].Checking? {
      var a := Check(t, true);
      InvStep(w, a);
      var rest := HolderAnswers(Do(w, a), t, key);
      AnswersAfter(w, a, rest, key);
      acts := [a] + rest;
    } else {
      var a := PutBack(t, false, key, true);
      PutSucceeds(w, t, false, key, true);
      assert key in Do(w, a).answered;
      NothingMore(Do(w, a), key);
      AnswersAfter(w, a, [], key);
      acts := [a] + [];
    }
  }

  lemma {:induction false} NothingMore(w: World, key: nat)
    requires key in w.answered
    ensures Answers(w, [], key)
  {}

  /** So can a goroutine that finds a connection in its channel. */
  lemma {:induction false} ReceiverAnswers(w: World, k: nat, key: nat) returns (acts: seq<Action>)
    requires Inv(w) && key in w.pool.connRequests && !w.pool.closed && !w.locked
    requires k in w.pool.channels && w.pool.channels[k] != []
    ensures Answers(w, acts, key) && NothingNew(acts)
    decreases k in w.waiter && w.waiter[k] in w.pcs && w.pcs[w.waiter[k]].Withdrawing?
  {
    assert Request1(w, k) && Request1(w, key);
    var t := w.waiter[k];
    assert WaitsFor(w.pcs[t], k) && k != key;
    var rest;
    if w.pcs[t].Withdrawing? {
      acts := [WithdrawReq(t)];
      InvStep(w, acts[0]);
      rest := ReceiverAnswers(Do(w, acts[0]), k, key);
    } else {
      acts := [if w.pcs[t].Waiting? then Answer(t) else Drain(t)];
      InvStep(w, acts[0]);
      rest := HolderAnswers(Do(w, acts[0]), t, key);
    }
    AnswersAfter(w, acts[0], rest, key);
    acts := acts + rest;
  }

  /** And a goroutine that takes a free one. */
  lemma {:induction false} TakerAnswers(w: World, t: nat, dc: nat, key: nat) returns (acts: seq<Action>)
    requires Inv(w) && key in w.pool.connRequests && !w.pool.closed && !w.locked
    requires dc in w.pool.freeConn && t in w.pcs && w.pcs[t] == Start(true)
    ensures Answers(w, acts, key) && NothingNew(acts)
  {
    var a := Enter(t, false, dc);
    InvStep(w, a);
    var rest := HolderAnswers(Do(w, a), t, key);
    AnswersAfter(w, a, rest, key);
    acts := [a] + rest;
  }

  /** In every state of every run: with the goroutines and connections that there are, a waiting
      request can still be answered if and only if the pool is neither closed nor locked for good and
      a connection can still be put. (An opened connection may answer it, too; when the opener is told to open one
      is the facade's affair.) Close leaves the requests as they are, so that their goroutines
      stay until their contexts expire. */
  lemma {:induction false} AnswerableFromWithin(before: seq<Action>, w: World, key: nat)
    requires Exec(Begin(), before) == Some(w) && key in w.pool.connRequests
    ensures key !in w.answered
    ensures (exists acts :: NothingNew(acts) && Answers(w, acts, key)) <==> !w.pool.closed && !w.locked && CanReturn(w)
  {
    hide Exec, Inv, Do, Enabled, CanReturn;
    BeginInv();
    InvExec(Begin(), before);
    Unanswered(w, key);
    if w.pool.closed || w.locked || !CanReturn(w) {
      forall acts | NothingNew(acts)
        ensures !Answers(w, acts, key)
      {
        if w.pool.closed {
          ClosedNeverAnswers(w, acts);
        } else if w.locked {
          LockedNeverAnswers(w, acts);
        } else {
          NothingReturns(w, acts);
        }
      }
    } else {
      var acts := SomebodyAnswers(w, key);
    }
  }

  lemma {:induction false} Unanswered(w: World, key: nat)
    requires Inv(w) && key in w.pool.connRequests
    ensures key !in w.answered
  {
    assert Request1(w, key);
  }

  lemma {:induction false} SomebodyAnswers(w: World, key: nat) returns (acts: seq<Action>)
    requires Inv(w) && key in w.pool.connRequests && !w.pool.closed && !w.locked && CanReturn(w)
    ensures Answers(w, acts, key) && NothingNew(acts)
  {
    hide Inv, Exec, Do, Enabled;
    if t :| t in w.pcs && HasConn(w.pcs[t]) {
      acts := HolderAnswers(w, t, key);
    } else if k :| k in w.pool.channels && w.pool.channels[k] != [] {
      acts := ReceiverAnswers(w, k, key);
    } else {
      var t :| t in w.pcs && w.pcs[t] == Start(true);
      var dc :| dc in w.pool.freeConn;
      acts := TakerAnswers(w, t, dc, key);
    }
  }

  /** A waiter whose context expires was never answered, or puts the connection back, and the
      pool keeps it unless it is closed, the connection is bad, or a call of the facade hangs. */
  lemma {:induction false} ExpiredWaiterPutsBack(
    acts: seq<Action>, w: World, t: nat, bad: bool, key: nat, ends: bool)
    requires Exec(Begin(), acts) == Some(w) && t in w.pcs && w.pcs[t].Draining?
    ensures Enabled(w, Drain(t))
    ensures var u := Do(w, Drain(t));
            if w.pcs[t].key !in w.answered then u.pcs[t] == Over && u.loc == w.loc
            else
              && u.pcs[t].Has?
              && (Enabled(u, PutBack(t, bad, key, ends)) && !bad && !u.pool.closed
                  && (ends || u.pool.connRequests != {}) ==>
                    var v, dc := Do(u, PutBack(t, bad, key, ends)), u.pcs[t].dc;
                    dc in v.loc && (v.loc[dc].Free? || v.loc[dc].InChannel?))
  {
    hide Exec, Placed;
    BeginInv();
    InvExec(Begin(), acts);
    assert WaitsFor(w.pcs[t], w.pcs[t].key) && Request1(w, w.pcs[t].key);
    var u := Do(w, Drain(t));
    InvStep(w, Drain(t));
    if u.pcs[t].Has? && Enabled(u, PutBack(t, bad, key, ends)) {
      PutSucceeds(u, t, bad, key, ends);
    }
  }
}
