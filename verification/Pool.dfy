// The shared state of a connection pool and its critical sections (conn_pool.go,
// conn_pool_put.go). Everything below happens under connPool.mu, receiving a response aside.
// A response channel is named by the key of its request; connections are named by numbers.
module Pool {
  import opened Facade

  datatype Pool = Pool(
    closed: bool,
    freeConn: set<nat>,
    connRequests: set<nat>,
    nextRequest: nat,
    channels: map<nat, seq<nat>>,       // the response channels made so far, of capacity 1
    inUse: set<nat>)                    // connections whose inUse flag is set

  const CAPACITY: nat := 1

  function Empty(): Pool
  {
    Pool(false, {}, {}, 0, map[], {})
  }

  /** The free branch of conn. */
  function TakeFree(p: Pool, dc: nat): Pool
  {
    p.(freeConn := p.freeConn - {dc}, inUse := p.inUse + {dc})
  }

  /** A new request under the next key. */
  function Register(p: Pool): Pool
  {
    p.(connRequests := p.connRequests + {p.nextRequest}, channels := p.channels[p.nextRequest := []],
       nextRequest := p.nextRequest + 1)
  }

  function Withdraw(p: Pool, key: nat): Pool
  {
    p.(connRequests := p.connRequests - {key})
  }

  function Receive(p: Pool, key: nat): Pool
    requires key in p.channels && p.channels[key] != []
  {
    p.(channels := p.channels[key := p.channels[key][1..]])
  }

  function Remove(p: Pool, dc: nat): Pool
  {
    p.(freeConn := p.freeConn - {dc})
  }

  function CloseAll(p: Pool): Pool
  {
    p.(freeConn := {}, closed := true)
  }

  /** What becomes of a connection that is put. Panicked and Blocks must not happen: the code
      panics, or waits for room in a channel while it holds the lock. Hangs does happen: the
      facade, called with the lock held, does not return, and nobody unlocks the pool any more. */
  datatype Put = Kept(p: Pool) | Refused | Discarded(p: Pool) | Hangs(p: Pool) | Panicked | Blocks

  /** putConnectionConnPoolLocked without an error; key is the request that the iteration over
      connRequests comes to first, if there is one. ends says whether the call of the facade
      returns, if one is made. */
  function PutLocked(p: Pool, dc: nat, key: nat, ends: bool): Put
  {
    if p.closed then Refused
    else if p.connRequests != {} then
      if key !in p.channels then Panicked                      // a nil channel
      else if |p.channels[key]| >= CAPACITY then Blocks
      else Kept(p.(connRequests := p.connRequests - {key}, inUse := p.inUse + {dc},
                   channels := p.channels[key := p.channels[key] + [dc]]))
    else if !ends then Hangs(p)
    else if dc in p.freeConn then Panicked
    else Kept(p.(freeConn := p.freeConn + {dc}))
  }

  /** putConn; bad says that the connection is broken, invalid or expired. */
  function PutConn(p: Pool, dc: nat, bad: bool, key: nat, ends: bool): Put
  {
    if dc !in p.inUse then Panicked
    else
      var q := p.(inUse := p.inUse - {dc});
      if bad then if ends then Discarded(q) else Hangs(q)
      else match PutLocked(q, dc, key, ends)
           case Refused => Discarded(q)
           case r => r
  }

  /** Whether putting calls the facade, with the pool's lock held. */
  predicate CallsFacade(p: Pool, bad: bool)
  {
    bad || (!p.closed && p.connRequests == {})
  }

  /** The call: a bad connection may make room for another one, a good one becomes idle. */
  function FacadeCall(f: State, c: Conn, bad: bool, order: seq<Visit>, held: set<nat>): Outcome
  {
    if bad then MaybeOpen(f, order, held) else PutToLru(f, c)
  }

  datatype Taken = Took(dc: nat) | PoolClosed | NoneFree

  /** The pool as the code keeps it. */
  class ConnPool {
    const name: nat
    const poolFacade: PoolFacade
    var closed: bool
    var freeConn: set<nat>
    var connRequests: map<nat, nat>     // from the key of a request to its channel
    var nextRequest: nat
    var channels: map<nat, seq<nat>>
    var inUse: set<nat>

    /** The key of a request names its channel. */
    ghost predicate Valid()
      reads this, poolFacade
    {
      && poolFacade.Valid()
      && (forall k | k in connRequests :: connRequests[k] == k && k in channels)
      && (forall k | k in channels :: k < nextRequest)
    }

    ghost function Now(): Pool
      reads this
    {
      Pool(closed, freeConn, connRequests.Keys, nextRequest, channels, inUse)
    }

    constructor (name: nat, poolFacade: PoolFacade)
      requires poolFacade.Valid()
      ensures Valid() && Now() == Empty() && this.name == name && this.poolFacade == poolFacade
    {
      this.name, this.poolFacade := name, poolFacade;
      closed, freeConn, connRequests, nextRequest, channels, inUse := false, {}, map[], 0, map[], {};
    }

    /** conn up to its first unlock, for a context that is not expired: some free connection, if
        the strategy allows one. */
    method TakeIdle(cachedOrNew: bool) returns (r: Taken)
      requires Valid()
      modifies this
      ensures Valid()
      ensures r.PoolClosed? <==> old(closed)
      ensures r.Took? <==> !old(closed) && cachedOrNew && old(freeConn) != {}
      ensures r.Took? ==> r.dc in old(freeConn) && Now() == TakeFree(old(Now()), r.dc)
      ensures !r.Took? ==> Now() == old(Now())
    {
      if closed {
        return PoolClosed;
      }
      if cachedOrNew && 0 < |freeConn| {
        var conn :| conn in freeConn;
        freeConn := freeConn - {conn};
        inUse := inUse + {conn};
        return Took(conn);
      }
      assert |freeConn| == 0 ==> freeConn == {};
      return NoneFree;
    }

    method NextRequestKeyLocked() returns (next: nat)
      modifies this`nextRequest
      ensures next == old(nextRequest) && nextRequest == next + 1
    {
      next := nextRequest;
      nextRequest := nextRequest + 1;
    }

    /** The channel for the answer, and the request. */
    method RequestConn() returns (key: nat)
      requires Valid()
      modifies this
      ensures Valid() && key == old(nextRequest) && Now() == Register(old(Now()))
    {
      key := NextRequestKeyLocked();
      channels := channels[key := []];
      connRequests := connRequests[key := key];
    }

    method WithdrawRequest(key: nat)
      requires Valid()
      modifies this`connRequests
      ensures Valid() && Now() == Withdraw(old(Now()), key)
    {
      connRequests := connRequests - {key};
    }

    /** removeConnFromFree. */
    method RemoveConnFromFree(dc: nat) returns (ok: bool)
      requires Valid()
      modifies this`freeConn
      ensures Valid() && ok == (dc in old(freeConn)) && Now() == Remove(old(Now()), dc)
    {
      ok := dc in freeConn;
      freeConn := freeConn - {dc};
    }

    /** ConnPool.Close; the connections returned are to be closed. */
    method CloseAllFree() returns (closing: set<nat>)
      requires Valid()
      modifies this`freeConn, this`closed
      ensures Valid()
      ensures Now() == if old(closed) then old(Now()) else CloseAll(old(Now()))
      ensures closing == if old(closed) then {} else old(freeConn)
    {
      if closed {
        return {};
      }
      closing := freeConn;
      freeConn := {};
      closed := true;
    }

    /** returnConnectionOnRequestLocked: any request is answered. */
    method ReturnConnectionOnRequestLocked(dc: nat) returns (r: Put, ghost key: nat)
      requires Valid() && !closed && connRequests != map[]
      modifies this
      ensures Valid() && key in old(connRequests) && r == PutLocked(old(Now()), dc, key, true)
      ensures Now() == if r.Kept? then r.p else old(Now())
    {
      var requestKey :| requestKey in connRequests;
      key := requestKey;
      var requestChan := connRequests[requestKey];
      if |channels[requestChan]| >= CAPACITY {
        return Blocks, key;
      }
      connRequests := connRequests - {requestKey};
      inUse := inUse + {dc};
      channels := channels[requestChan := channels[requestChan] + [dc]];
      r := Kept(Pool(closed, freeConn, connRequests.Keys, nextRequest, channels, inUse));
    }

    /** tryToSaveConnectionAsIdleLocked: first into the facade's cache, then into the free set. */
    method TryToSaveConnectionAsIdleLocked(dc: nat) returns (r: Put)
      requires Valid() && !closed && connRequests == map[]
      modifies this`freeConn, poolFacade`lru
      ensures Valid()
      ensures var o := PutToLru(old(poolFacade.Now()), Conn(name, dc));
              && r == PutLocked(old(Now()), dc, 0, o.call.Returned?)
              && poolFacade.Now() == o.s
      ensures Now() == if r.Kept? then r.p else old(Now())
    {
      var call := poolFacade.PutConnToLru(Conn(name, dc));
      if !call.Returned? {
        return Hangs(Pool(closed, freeConn, connRequests.Keys, nextRequest, channels, inUse));
      }
      if dc in freeConn {
        return Panicked;
      }
      freeConn := freeConn + {dc};
      r := Kept(Pool(closed, freeConn, connRequests.Keys, nextRequest, channels, inUse));
    }

    method PutConnectionConnPoolLocked(dc: nat) returns (r: Put, ghost key: nat)
      requires Valid()
      modifies this, poolFacade`lru
      ensures Valid()
      ensures old(Now()).connRequests != {} ==> key in old(Now()).connRequests
      ensures var o := PutToLru(old(poolFacade.Now()), Conn(name, dc));
              && r == PutLocked(old(Now()), dc, key, o.call.Returned?)
              && poolFacade.Now() == if CallsFacade(old(Now()), false) then o.s else old(poolFacade.Now())
      ensures Now() == if r.Kept? then r.p else old(Now())
    {
      key := 0;
      if connRequests != map[] {
        key :| key in connRequests;
      }
      if closed {
        return Refused, key;
      }
      if 0 < |connRequests| {
        r, key := ReturnConnectionOnRequestLocked(dc);
      } else {
        r := TryToSaveConnectionAsIdleLocked(dc);
      }
    }

    /** putConn: the connection goes to a waiting request or to the free set, or is discarded;
        or the call of the facade keeps the pool locked. order are the pools as the facade's loop
        finds them, held those whose mutex stays locked meanwhile, this one among them, and free
        the free connections of the others. */
    method PutBack(dc: nat, bad: bool, order: seq<Visit>, held: set<nat>, free: set<Conn>)
      returns (r: Put, ghost key: nat)
      requires Valid() && name in held
      modifies this, poolFacade
      ensures Valid()
      ensures old(Now()).connRequests != {} ==> key in old(Now()).connRequests
      ensures var o := FacadeCall(old(poolFacade.Now()), Conn(name, dc), bad, order, held);
              && r == PutConn(old(Now()), dc, bad, key, o.call.Returned?)
              && poolFacade.Now() == if dc in old(inUse) && CallsFacade(old(Now()), bad) then o.s
                else old(poolFacade.Now())
      ensures r.Kept? || r.Discarded? || r.Hangs? ==> Now() == r.p
    {
      key := 0;
      if connRequests != map[] {
        key :| key in connRequests;
      }
      if dc !in inUse {
        return Panicked, key;
      }
      inUse := inUse - {dc};
      if bad {
        r := DiscardBad(order, held, free);
        return;
      }
      r, key := PutConnectionConnPoolLocked(dc);
      if r.Refused? {
        r := Discarded(Pool(closed, freeConn, connRequests.Keys, nextRequest, channels, inUse));
      }
    }

    /** The branch of putConn for a bad connection, before it unlocks. */
    method DiscardBad(order: seq<Visit>, held: set<nat>, free: set<Conn>) returns (r: Put)
      requires Valid() && name in held
      modifies poolFacade
      ensures Valid() && Now() == old(Now())
      ensures var o := MaybeOpen(old(poolFacade.Now()), order, held);
              && poolFacade.Now() == o.s
              && r == if o.call.Returned? then Discarded(Now()) else Hangs(Now())
    {
      MaybeOpenKeepsLimit(poolFacade.Now(), order, held);
      var call := poolFacade.MaybeOpenNewConnections(order, held, free);
      var p := Pool(closed, freeConn, connRequests.Keys, nextRequest, channels, inUse);
      r := if call.Returned? then Discarded(p) else Hangs(p);
    }
  }
}
