// The dependency table of a pool (conn_pool_dep.go).
module Deps {

  /** The objects that occur in the table: statements and rows, by number. */
  datatype Obj = StmtObj(s: nat) | RowsObj(r: nat)

  type Table = map<Obj, set<Obj>>

  /** addDepLocked. */
  function Add(dep: Table, x: Obj, d: Obj): Table
  {
    dep[x := (if x in dep then dep[x] else {}) + {d}]
  }

  /** removeDepLocked: it panics on a dependency that is not there, or hands back what to call. */
  datatype Removal = Unpaired | Remaining(dep: Table) | CallFinalClose(dep: Table)

  function Remove(dep: Table, x: Obj, d: Obj): Removal
  {
    if x !in dep || d !in dep[x] then Unpaired
    else if dep[x] == {d} then CallFinalClose(dep - {x})
    else Remaining(dep[x := dep[x] - {d}])
  }

  /** Removing undoes adding. */
  lemma {:induction false} RemoveUndoesAdd(dep: Table, x: Obj, d: Obj)
    requires x in dep ==> dep[x] != {} && d !in dep[x]
    ensures Remove(Add(dep, x, d), x, d) == if x in dep then Remaining(dep) else CallFinalClose(dep)
  {
    if x in dep {
      assert dep[x] + {d} - {d} == dep[x];
      var o :| o in dep[x];
      assert o in dep[x] + {d} && o != d;
    }
  }

  class DepTable {
    var dep: Table

    constructor ()
      ensures dep == map[]
    {
      dep := map[];
    }

    method AddDepLocked(x: Obj, d: Obj)
      modifies this
      ensures dep == Add(old(dep), x, d)
    {
      var xdep := {};
      if x in dep {
        xdep := dep[x];
      }
      xdep := xdep + {d};
      dep := dep[x := xdep];
    }

    /** The source compares the sizes of the set before and after the deletion. */
    method RemoveDepLocked(x: Obj, d: Obj) returns (r: Removal)
      modifies this
      ensures r == Remove(old(dep), x, d)
      ensures !r.Unpaired? ==> dep == r.dep
      ensures r.Unpaired? ==> dep == old(dep)
    {
      if x !in dep {
        return Unpaired;
      }
      var xdep := dep[x];
      var l0 := |xdep|;
      if d !in xdep {
        assert xdep - {d} == xdep;
      }
      xdep := xdep - {d};
      if |xdep| == l0 {
        return Unpaired;
      }
      if |xdep| == 0 {
        assert dep[x] == {d};
        dep := dep - {x};
        return CallFinalClose(dep);
      }
      dep := dep[x := xdep];
      return Remaining(dep);
    }
  }
}
