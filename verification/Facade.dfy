// The limit on the connections of all pools (conn_pool_facade.go, conn_pool_facade_opener.go,
// conn_pool_facade_lru.go), as far as a put needs it. A put calls the facade while it holds its
// own pool's mutex; what is proved here is exactly when such a call returns.
module Facade {

  /** A connection: its pool and its number there. */
  datatype Conn = Conn(pool: nat, dc: nat)

  /** A pool as the loop over the pools finds it. The loop asks for the number of requests once to
      test and once to count them, and others can come and go between. */
  datatype Visit = Visit(pool: nat, tested: nat, counted: nat)

  datatype State = State(
    totalMax: int,
    numOpened: int,
    waitCount: int,               // requests made so far; the code never counts it down
    lru: seq<Conn>,               // the oldest first
    closed: bool,
    commands: seq<nat>,           // the pools the opener was told to open a connection for
    room: nat)                    // the sends that openerChannel still takes

  /** How a call of the facade ends. Only Returned gives the caller's mutex free again. */
  datatype Call = Returned | Deadlock | Panics | FullChannel

  datatype Outcome = Outcome(call: Call, s: State)

  function Min(a: int, b: int): int
  {
    if a < b then a else b
  }

  predicate NoDuplicates(lru: seq<Conn>)
  {
    forall i, j | 0 <= i < j < |lru| :: lru[i] != lru[j]
  }

  /** The cache holds at most as many connections as the limit allows. */
  predicate ValidState(s: State)
  {
    NoDuplicates(s.lru) && |s.lru| <= s.totalMax
  }

  function Repeat(pool: nat, k: int): (r: seq<nat>)
    ensures |r| == if k <= 0 then 0 else k
    ensures forall p | p in r :: p == pool
  {
    if k <= 0 then [] else Repeat(pool, k - 1) + [pool]
  }

  datatype Choice = Chosen(pools: seq<nat>) | Failed(call: Call)

  function Behind(pools: seq<nat>, c: Choice): Choice
  {
    match c
    case Chosen(more) => Chosen(pools + more)
    case Failed(_) => c
  }

  /** The loop of getConnPoolsThatHaveRequestedNewConnections. held are the pools whose mutex is
      not given free before this call ends: the caller's own, and those of other callers, who wait
      for the facade's mutex. */
  function Choose(order: seq<Visit>, held: set<nat>, remaining: int): Choice
  {
    if order == [] then Failed(Panics)
    else if order[0].pool in held then Failed(Deadlock)
    else if order[0].tested == 0 then Choose(order[1..], held, remaining)
    else
      var k := Min(order[0].counted, remaining);
      var pools := Repeat(order[0].pool, k);
      if remaining - k == 0 then Chosen(pools) else Behind(pools, Choose(order[1..], held, remaining - k))
  }

  /** giveCommandToOpenNewConnections. */
  function Command(s: State, pools: seq<nat>): Outcome
    decreases |pools|
  {
    if pools == [] then Outcome(Returned, s)
    else
      var t := s.(numOpened := s.numOpened + 1);
      if s.closed then Outcome(Returned, t)
      else if s.room == 0 then Outcome(FullChannel, t)
      else Command(t.(commands := s.commands + [pools[0]], room := s.room - 1), pools[1..])
  }

  /** maybeOpenNewConnections. */
  function MaybeOpen(s: State, order: seq<Visit>, held: set<nat>): Outcome
  {
    var can := s.totalMax - s.numOpened;
    if can < s.waitCount && s.lru != [] then
      Outcome(if s.lru[0].pool in held then Deadlock else Panics, s.(lru := s.lru[1..]))
    else if Min(s.waitCount, can) == 0 then Outcome(Returned, s)
    else match Choose(order, held, Min(s.waitCount, can))
      case Failed(call) => Outcome(call, s)
      case Chosen(pools) => Command(s, pools)
  }

  function Without(lru: seq<Conn>, c: Conn): seq<Conn>
  {
    if lru == [] then [] else (if lru[0] == c then [] else [lru[0]]) + Without(lru[1..], c)
  }

  /** putConnToLru: an eviction panics. */
  function PutToLru(s: State, c: Conn): Outcome
  {
    var lru := Without(s.lru, c) + [c];
    if |lru| > s.totalMax then Outcome(Panics, s.(lru := lru[1..])) else Outcome(Returned, s.(lru := lru))
  }

  class PoolFacade {
    var totalMax: int
    var numOpened: int
    var waitCount: int
    var lru: seq<Conn>
    var closed: bool
    var commands: seq<nat>
    var room: nat

    ghost predicate Valid()
      reads this
    {
      ValidState(Now())
    }

    ghost function Now(): State
      reads this
    {
      State(totalMax, numOpened, waitCount, lru, closed, commands, room)
    }

    /** lru.New refuses a size below one. */
    constructor (connectionLimit: int)
      requires 0 < connectionLimit
      ensures Valid() && Now() == State(connectionLimit, 0, 0, [], false, [], 1000)
    {
      totalMax, numOpened, waitCount, lru, closed := connectionLimit, 0, 0, [], false;
      commands, room := [], 1000;
    }

    method RemoveFromLru(c: Conn) returns (present: bool)
      modifies this`lru
      ensures present == (c in old(lru)) && lru == Without(old(lru), c)
    {
      present := c in lru;
      lru := Without(lru, c);
    }

    /** closeLruIdleConnectionsLocked does not come to the end of its first round: the connection
        was removed from the cache already when its Close removes it again. free are the
        connections that their pools have as free. */
    method CloseLruIdleConnectionsLocked(numConnToClose: nat, held: set<nat>, free: set<Conn>) returns (r: Call)
      requires Valid() && numConnToClose <= |lru|
      modifies this`lru
      ensures if numConnToClose == 0 then r.Returned? && lru == old(lru)
              else r == (if old(lru)[0].pool in held then Deadlock else Panics) && lru == old(lru)[1..]
    {
      for i := 0 to numConnToClose
        invariant i == 0 && lru == old(lru)
      {
        var c := lru[0];
        lru := lru[1..];
        if c.pool in held {
          return Deadlock;
        }
        if c !in free {
          return Panics;
        }
        WithoutAbsent(lru, c);
        var present := RemoveFromLru(c);
        assert !present;
        return Panics;
      }
      r := Returned;
    }

    method GetConnPools(connectionsNum: int, order: seq<Visit>, held: set<nat>) returns (r: Choice)
      ensures r == if connectionsNum == 0 then Chosen([]) else Choose(order, held, connectionsNum)
    {
      if connectionsNum == 0 {
        return Chosen([]);
      }
      var slice: seq<nat> := [];
      var connectionRemaining := connectionsNum;
      for i := 0 to |order|
        invariant connectionRemaining != 0
        invariant Choose(order, held, connectionsNum) == Behind(slice, Choose(order[i..], held, connectionRemaining))
      {
        assert order[i..][1..] == order[i + 1..];
        if order[i].pool in held {
          return Failed(Deadlock);
        }
        if order[i].tested != 0 {
          var numOfNewConn := Min(order[i].counted, connectionRemaining);
          ghost var before := slice;
          slice := AppendTimes(slice, order[i].pool, numOfNewConn);
          BehindTwice(before, Repeat(order[i].pool, numOfNewConn),
            Choose(order[i + 1..], held, connectionRemaining - numOfNewConn));
          connectionRemaining := connectionRemaining - numOfNewConn;
          if connectionRemaining == 0 {
            return Chosen(slice);
          }
        }
      }
      r := Failed(Panics);
    }

    method AppendTimes(slice: seq<nat>, pool: nat, k: int) returns (r: seq<nat>)
      ensures r == slice + Repeat(pool, k)
    {
      r := slice;
      var i := 0;
      while i < k
        invariant r == slice + Repeat(pool, i) && (0 <= k ==> i <= k) && (k < 0 ==> i == 0)
      {
        r := r + [pool];
        i := i + 1;
      }
    }

    method GiveCommand(pools: seq<nat>) returns (r: Call)
      modifies this`numOpened, this`commands, this`room
      ensures Outcome(r, Now()) == Command(old(Now()), pools)
    {
      for i := 0 to |pools|
        invariant Command(Now(), pools[i..]) == Command(old(Now()), pools) && closed == old(closed)
      {
        assert pools[i..][1..] == pools[i + 1..];
        numOpened := numOpened + 1;
        if closed {
          return Returned;
        }
        if room == 0 {
          return FullChannel;
        }
        commands := commands + [pools[i]];
        room := room - 1;
      }
      r := Returned;
    }

    method MaybeOpenNewConnections(order: seq<Visit>, held: set<nat>, free: set<Conn>) returns (r: Call)
      requires Valid()
      modifies this
      ensures Outcome(r, Now()) == MaybeOpen(old(Now()), order, held)
    {
      var numRequested := waitCount;
      var numCanOpen := totalMax - numOpened;
      if numCanOpen < numRequested {
        r := CloseLruIdleConnectionsLocked(Min(numRequested - numCanOpen, |lru|), held, free);
        if !r.Returned? {
          return;
        }
        numCanOpen := totalMax - numOpened;
      }
      var choice := GetConnPools(Min(numRequested, numCanOpen), order, held);
      if choice.Failed? {
        return choice.call;
      }
      r := GiveCommand(choice.pools);
    }

    method PutConnToLru(c: Conn) returns (r: Call)
      requires Valid()
      modifies this`lru
      ensures Valid() && Outcome(r, Now()) == PutToLru(old(Now()), c)
    {
      PutToLruReturns(Now(), c);
      lru := Without(lru, c) + [c];
      if |lru| > totalMax {
        lru := lru[1..];
        return Panics;
      }
      r := Returned;
    }
  }

  lemma {:induction false} BehindTwice(a: seq<nat>, b: seq<nat>, c: Choice)
    ensures Behind(a, Behind(b, c)) == Behind(a + b, c)
  {
    if c.Chosen? {
      assert a + (b + c.pools) == a + b + c.pools;
    }
  }

  lemma {:induction false} WithoutAbsent(lru: seq<Conn>, c: Conn)
    requires c !in lru
    ensures Without(lru, c) == lru
  {
    if lru != [] {
      WithoutAbsent(lru[1..], c);
    }
  }

  lemma {:induction false} WithoutKeeps(lru: seq<Conn>, c: Conn)
    requires NoDuplicates(lru)
    ensures NoDuplicates(Without(lru, c) + [c])
    ensures |Without(lru, c)| == if c in lru then |lru| - 1 else |lru|
    ensures forall d :: d in Without(lru, c) <==> d in lru && d != c
  {
    if lru != [] {
      WithoutKeeps(lru[1..], c);
      var rest := Without(lru[1..], c);
      assert lru == [lru[0]] + lru[1..];
      assert NoDuplicates(rest) && lru[0] !in rest by {
        assert rest == (rest + [c])[..|rest|];
      }
    }
  }

  /** Putting a connection into the cache evicts one, and panics, if and only if the connection is
      new to a cache that is full. */
  lemma {:induction false} PutToLruReturns(s: State, c: Conn)
    requires ValidState(s)
    ensures PutToLru(s, c).call.Returned? <==> c in s.lru || |s.lru| < s.totalMax
    ensures ValidState(PutToLru(s, c).s)
    ensures PutToLru(s, c).call.Returned? ==> forall d :: d in PutToLru(s, c).s.lru <==> d in s.lru || d == c
  {
    WithoutKeeps(s.lru, c);
  }

  /** The pools the loop gets to before it stands before a mutex. */
  function Reached(order: seq<Visit>, held: set<nat>): seq<Visit>
  {
    if order == [] || order[0].pool in held then [] else [order[0]] + Reached(order[1..], held)
  }

  function Requests(v: Visit): nat
  {
    if v.tested == 0 then 0 else v.counted
  }

  function Total(vs: seq<Visit>): nat
  {
    if vs == [] then 0 else Requests(vs[0]) + Total(vs[1..])
  }

  /** The requests of one pool. */
  function TotalOf(vs: seq<Visit>, pool: nat): nat
  {
    if vs == [] then 0 else (if vs[0].pool == pool then Requests(vs[0]) else 0) + TotalOf(vs[1..], pool)
  }

  predicate SomeRequests(vs: seq<Visit>)
  {
    exists v | v in vs :: v.tested > 0
  }

  /** The loop comes to an end if and only if the pools it gets to have enough requests. For a
      negative number one pool with requests is enough. */
  lemma {:induction false} ChooseExactly(order: seq<Visit>, held: set<nat>, m: int)
    requires m != 0
    ensures var vs := Reached(order, held);
            Choose(order, held, m).Chosen? <==> if m > 0 then m <= Total(vs) else SomeRequests(vs)
    ensures match Choose(order, held, m)
            case Failed(call) => call == if |Reached(order, held)| < |order| then Deadlock else Panics
            case Chosen(pools) => |pools| == if m < 0 then 0 else m
  {
    if order != [] && order[0].pool !in held {
      var v, vs := order[0], Reached(order[1..], held);
      assert Reached(order, held)[1..] == vs;
      assert SomeRequests(Reached(order, held)) <==> v.tested > 0 || SomeRequests(vs) by {
        assert v in Reached(order, held);
        assert forall x :: x in Reached(order, held) <==> x == v || x in vs;
      }
      if v.tested == 0 {
        ChooseExactly(order[1..], held, m);
      } else if m - Min(v.counted, m) != 0 {
        ChooseExactly(order[1..], held, m - Min(v.counted, m));
      }
    }
  }

  /** No pool is told to open more connections than it has requests. */
  lemma {:induction false} ChosenHaveRequests(order: seq<Visit>, held: set<nat>, m: int, pool: nat)
    requires Choose(order, held, m).Chosen?
    ensures multiset(Choose(order, held, m).pools)[pool] <= TotalOf(Reached(order, held), pool)
  {
    var v, vs := order[0], Reached(order[1..], held);
    assert Reached(order, held)[1..] == vs;
    if v.tested == 0 {
      ChosenHaveRequests(order[1..], held, m, pool);
    } else {
      var k := Min(v.counted, m);
      RepeatCount(v.pool, k, pool);
      if m - k != 0 {
        ChosenHaveRequests(order[1..], held, m - k, pool);
        var more := Choose(order[1..], held, m - k).pools;
        assert multiset(Repeat(v.pool, k) + more) == multiset(Repeat(v.pool, k)) + multiset(more);
      }
    }
  }

  lemma {:induction false} RepeatCount(p: nat, k: int, pool: nat)
    ensures multiset(Repeat(p, k))[pool] == if p == pool && 0 < k then k else 0
  {
    if 0 < k {
      RepeatCount(p, k - 1, pool);
    }
  }

  lemma {:induction false} CommandExactly(s: State, pools: seq<nat>)
    ensures var o := Command(s, pools);
            && (o.call.Returned? <==> s.closed || |pools| <= s.room)
            && o.s.numOpened <= s.numOpened + |pools|
            && (o.call.Returned? && !s.closed ==>
                  o.s == s.(numOpened := s.numOpened + |pools|, commands := s.commands + pools,
                            room := s.room - |pools|))
    decreases |pools|
  {
    if pools != [] && !s.closed && s.room != 0 {
      CommandExactly(s.(numOpened := s.numOpened + 1, commands := s.commands + [pools[0]], room := s.room - 1),
                     pools[1..]);
      assert s.commands + [pools[0]] + pools[1..] == s.commands + pools;
    }
  }

  /** The commands that a call is to give: one for each request ever made, as far as the limit
      allows it. */
  function Wanted(s: State): int
  {
    Min(s.waitCount, s.totalMax - s.numOpened)
  }

  /** The call returns if and only if nothing is idle or nothing has to be closed, the pools whose
      mutex can be had before a held one have enough requests, and the commands fit. */
  lemma {:induction false} MaybeOpenReturns(s: State, order: seq<Visit>, held: set<nat>)
    ensures var n, vs := Wanted(s), Reached(order, held);
            MaybeOpen(s, order, held).call.Returned? <==>
              && (s.lru == [] || s.waitCount <= s.totalMax - s.numOpened)
              && (n < 0 ==> SomeRequests(vs))
              && (n > 0 ==> n <= Total(vs) && (s.closed || n <= s.room))
  {
    var n := Wanted(s);
    if n != 0 {
      ChooseExactly(order, held, n);
      if Choose(order, held, n).Chosen? {
        CommandExactly(s, Choose(order, held, n).pools);
      }
    }
  }

  lemma {:induction false} CommandKeepsLru(s: State, pools: seq<nat>)
    ensures Command(s, pools).s.lru == s.lru && Command(s, pools).s.totalMax == s.totalMax
    decreases |pools|
  {
    if pools != [] && !s.closed && s.room != 0 {
      CommandKeepsLru(s.(numOpened := s.numOpened + 1, commands := s.commands + [pools[0]], room := s.room - 1),
                      pools[1..]);
    }
  }

  /** However the call ends, it does not count beyond the limit. */
  lemma {:induction false} MaybeOpenKeepsLimit(s: State, order: seq<Visit>, held: set<nat>)
    requires ValidState(s)
    ensures var o := MaybeOpen(s, order, held);
            ValidState(o.s) && (s.numOpened <= s.totalMax ==> o.s.numOpened <= s.totalMax)
  {
    hide Command, Choose;
    var n := Wanted(s);
    if n != 0 && Choose(order, held, n).Chosen? {
      ChooseExactly(order, held, n);
      CommandKeepsLru(s, Choose(order, held, n).pools);
      CommandExactly(s, Choose(order, held, n).pools);
    }
  }

  /** When the call returns from an open facade, it has given as many commands as wanted, and none
      for a pool beyond its requests. */
  lemma {:induction false} CommandsAreWanted(s: State, order: seq<Visit>, held: set<nat>, pool: nat)
    requires MaybeOpen(s, order, held).call.Returned? && !s.closed
    ensures var t := MaybeOpen(s, order, held).s;
            && s.commands <= t.commands
            && var pools := t.commands[|s.commands|..];
            && t.numOpened == s.numOpened + |pools|
            && |pools| == (if Wanted(s) < 0 then 0 else Wanted(s))
            && multiset(pools)[pool] <= TotalOf(Reached(order, held), pool)
  {
    hide Command, Choose;
    var n := Wanted(s);
    if n == 0 {
      assert s.commands[|s.commands|..] == [];
    } else {
      ChooseExactly(order, held, n);
      var pools := Choose(order, held, n).pools;
      CommandExactly(s, pools);
      assert (s.commands + pools)[|s.commands|..] == pools;
      ChosenHaveRequests(order, held, n, pool);
    }
  }

  /** If all requests are those of pools whose mutex is held, the call returns only when nothing
      is wanted: for the bad put of a connection in a facade with one pool, once any request was
      ever made, only at the limit and without idle connections. */
  lemma {:induction false} OnlyHeldHaveRequests(s: State, order: seq<Visit>, held: set<nat>)
    requires forall v | v in order :: v.tested > 0 ==> v.pool in held
    ensures MaybeOpen(s, order, held).call.Returned? <==>
              Wanted(s) == 0 && (s.lru == [] || s.waitCount <= s.totalMax - s.numOpened)
  {
    NoRequestsReached(order, held);
    MaybeOpenReturns(s, order, held);
  }

  lemma {:induction false} NoRequestsReached(order: seq<Visit>, held: set<nat>)
    requires forall v | v in order :: v.tested > 0 ==> v.pool in held
    ensures Total(Reached(order, held)) == 0 && !SomeRequests(Reached(order, held))
  {
    if order != [] && order[0].pool !in held {
      assert order[0] in order && forall v | v in order[1..] :: v in order;
      NoRequestsReached(order[1..], held);
    }
  }

  /** Two bad puts of pool 0 that never return: at a limit of two with an idle connection, and
      below the limit without one; and a good put that evicts at a limit of one. */
  lemma {:induction false} StuckExamples()
    ensures MaybeOpen(State(2, 2, 1, [Conn(0, 0)], false, [], 1000), [Visit(0, 0, 0)], {0}).call == Deadlock
    ensures MaybeOpen(State(2, 1, 1, [], false, [], 1000), [Visit(0, 1, 1)], {0}).call == Deadlock
    ensures PutToLru(State(1, 2, 0, [Conn(0, 0)], false, [], 1000), Conn(0, 1)).call == Panics
  {
    assert Without([Conn(0, 0)], Conn(0, 1)) == [Conn(0, 0)];
  }
}
