// Dropping a statement's entries for closed connections (prepared_statement.go:
// removeClosedStmtLocked). A connection's dbmuClosed flag is membership in a set.
module ClosedStmts {

  datatype ConnStmt = ConnStmt(dc: nat, ds: nat)

  const WORD: nat := 0x1_0000_0000_0000_0000      // counters are 64 bits wide

  /** The entries on open connections, in order. */
  function Live(css: seq<ConnStmt>, dbmuClosed: set<nat>): seq<ConnStmt>
  {
    if css == [] then []
    else
      var rest := Live(css[..|css| - 1], dbmuClosed);
      var last := css[|css| - 1];
      if last.dc in dbmuClosed then rest else rest + [last]
  }

  lemma {:induction false} LiveConcat(a: seq<ConnStmt>, b: seq<ConnStmt>, dbmuClosed: set<nat>)
    ensures Live(a + b, dbmuClosed) == Live(a, dbmuClosed) + Live(b, dbmuClosed)
  {
    if b == [] {
      assert a + b == a;
    } else {
      assert (a + b)[..|a + b| - 1] == a + b[..|b| - 1];
      LiveConcat(a, b[..|b| - 1], dbmuClosed);
    }
  }

  lemma {:induction false} AllLive(css: seq<ConnStmt>, dbmuClosed: set<nat>)
    requires forall v | v in css :: v.dc !in dbmuClosed
    ensures Live(css, dbmuClosed) == css
  {
    if css != [] {
      AllLive(css[..|css| - 1], dbmuClosed);
      assert css == css[..|css| - 1] + [css[|css| - 1]];
    }
  }

  lemma {:induction false} LiveOne(v: ConnStmt, dbmuClosed: set<nat>)
    ensures Live([v], dbmuClosed) == if v.dc in dbmuClosed then [] else [v]
  {
    assert [v][..0] == [];
  }

  /** Moving the last entry over a dead one loses no live entry. */
  lemma {:induction false} SwapWithLast(css: seq<ConnStmt>, i: nat, dbmuClosed: set<nat>)
    requires i < |css| && css[i].dc in dbmuClosed
    ensures var n := |css| - 1;
            multiset(Live(css[i := css[n]][..n], dbmuClosed)) == multiset(Live(css, dbmuClosed))
  {
    hide Live;
    var n := |css| - 1;
    var after := css[i := css[n]][..n];
    LiveOne(css[i], dbmuClosed);
    if i == n {
      assert css == after + [css[n]];
      LiveConcat(after, [css[n]], dbmuClosed);
    } else {
      var a, m, l := css[..i], css[i + 1..n], [css[n]];
      assert css == a + [css[i]] + m + l && after == a + l + m;
      LiveConcat(a + [css[i]] + m, l, dbmuClosed);
      LiveConcat(a + [css[i]], m, dbmuClosed);
      LiveConcat(a, [css[i]], dbmuClosed);
      LiveConcat(a + l, m, dbmuClosed);
      LiveConcat(a, l, dbmuClosed);
    }
  }

  /** How many connections must have been closed since the last cleaning. */
  function Threshold(n: nat): nat
  {
    if n / 2 + 1 > 10 then 10 else n / 2 + 1
  }

  class Stmt {
    var css: seq<ConnStmt>
    var lastNumClosed: nat

    constructor (css: seq<ConnStmt>, numClosed: nat)
      ensures this.css == css && lastNumClosed == numClosed
    {
      this.css, lastNumClosed := css, numClosed;
    }

    /** The loop: entries from the end move over dead ones. */
    method SwapOutClosed(dbmuClosed: set<nat>)
      modifies this`css
      ensures multiset(css) == multiset(Live(old(css), dbmuClosed))
    {
      hide Live;
      ghost var live := multiset(Live(css, dbmuClosed));
      var i := 0;
      while i < |css|
        invariant 0 <= i <= |css|
        invariant forall k | 0 <= k < i :: css[k].dc !in dbmuClosed
        invariant multiset(Live(css, dbmuClosed)) == live
        decreases |css| - i
      {
        if css[i].dc in dbmuClosed {
          SwapWithLast(css, i, dbmuClosed);
          css := css[i := css[|css| - 1]];
          css := css[..|css| - 1];
          i := i - 1;
        }
        i := i + 1;
      }
      AllLive(css, dbmuClosed);
    }

    /** Exactly the entries on open connections stay, if enough connections were closed. */
    method RemoveClosedStmtLocked(numClosed: nat, dbmuClosed: set<nat>)
      requires numClosed < 0x1_0000_0000_0000_0000 && lastNumClosed < 0x1_0000_0000_0000_0000
      modifies this
      ensures if (numClosed - old(lastNumClosed)) % 0x1_0000_0000_0000_0000 < Threshold(|old(css)|)
              then css == old(css) && lastNumClosed == old(lastNumClosed)
              else multiset(css) == multiset(Live(old(css), dbmuClosed)) && lastNumClosed == numClosed
    {
      hide Live;
      var t := |css| / 2 + 1;
      if t > 10 {
        t := 10;
      }
      var dbClosed := numClosed;
      if (dbClosed - lastNumClosed) % WORD < t {
        return;
      }
      SwapOutClosed(dbmuClosed);
      lastNumClosed := dbClosed;
    }
  }
}
