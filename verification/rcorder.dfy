/**
 * rcorder options (plugins/services/rcorder.c): traversal direction, the
 * orphans switch and a keyword map telling which keywords keep or skip a
 * script, with a count of the keywords currently mapped to KEEP.
 */
module Rcorder {

  datatype RcorderAction = NoAction | Keep | Skip

  /** The keywords mapped to KEEP. */
  function KeepSet(ks: map<string, RcorderAction>): set<string> {
    set k | k in ks && ks[k] == Keep
  }

  function KeepCount(ks: map<string, RcorderAction>): nat {
    |KeepSet(ks)|
  }

  /** Mapping k to v changes the number of KEEP keywords by what k stops and starts being. */
  lemma KeepCountUpdate(ks: map<string, RcorderAction>, k: string, v: RcorderAction)
    ensures KeepCount(ks[k := v]) ==
      KeepCount(ks) - (if k in ks && ks[k] == Keep then 1 else 0) + (if v == Keep then 1 else 0)
  {
    var without := KeepSet(ks) - {k};
    if k in ks && ks[k] == Keep {
      assert KeepSet(ks) == without + {k};
    } else {
      assert KeepSet(ks) == without;
    }
    if v == Keep {
      assert KeepSet(ks[k := v]) == without + {k};
    } else {
      assert KeepSet(ks[k := v]) == without;
    }
  }

  /** Re-adding KEEP does not count twice; KEEP then SKIP gives the count back. */
  lemma KeepCountExamples(ks: map<string, RcorderAction>, k: string)
    ensures k in ks && ks[k] == Keep ==> KeepCount(ks[k := Keep]) == KeepCount(ks)
    ensures k !in ks ==> KeepCount(ks[k := Keep][k := Skip]) == KeepCount(ks)
  {
    KeepCountUpdate(ks, k, Keep);
    KeepCountUpdate(ks[k := Keep], k, Skip);
    KeepCountUpdate(ks, k, Skip);
  }

  class RcorderOptions {
    var reverse: bool
    var ks: map<string, RcorderAction>
    var keepCount: nat
    var includeOrphans: bool

    /** Only KEEP and SKIP are ever stored, and keepCount counts the KEEPs. */
    predicate Valid()
      reads this
    {
      (forall k :: k in ks ==> ks[k] != NoAction) && keepCount == KeepCount(ks)
    }

    /** rcorder_options_create */
    constructor ()
      ensures Valid()
      ensures keepCount == 0 && !reverse && !includeOrphans && ks == map[]
    {
      keepCount := 0;
      reverse := false;
      includeOrphans := false;
      ks := map[];
      new;
      assert KeepSet(ks) == {};
    }

    /** rcorder_options_set_reverse */
    method SetReverse(r: bool)
      modifies this
      ensures reverse == r
      ensures ks == old(ks) && keepCount == old(keepCount) && includeOrphans == old(includeOrphans)
    {
      reverse := r;
    }

    /** rcorder_options_set_include_orphans */
    method SetIncludeOrphans(b: bool)
      modifies this
      ensures includeOrphans == b
      ensures ks == old(ks) && keepCount == old(keepCount) && reverse == old(reverse)
    {
      includeOrphans := b;
    }

    /**
     * rcorder_options_add_ks(ro, name, action): map name to action,
     * overwriting, and return what it was mapped to (NONE when nothing);
     * keepCount follows KEEP appearing or disappearing.
     */
    method AddKs(name: string, action: RcorderAction) returns (previous: RcorderAction)
      requires Valid()
      requires action == Keep || action == Skip
      modifies this
      ensures Valid()
      ensures ks == old(ks)[name := action]
      ensures previous == if name in old(ks) then old(ks)[name] else NoAction
      ensures reverse == old(reverse) && includeOrphans == old(includeOrphans)
    {
      previous := NoAction;
      if name in ks {
        previous := ks[name];
      }
      KeepCountUpdate(ks, name, action);
      ks := ks[name := action];
      if action == Keep && previous != Keep {
        keepCount := keepCount + 1;
      } else if action == Skip && previous == Keep {
        keepCount := keepCount - 1;
      }
    }
  }
}
