/**
 * The ordered selection of the ZFS integration plugin
 * (plugins/zfs_integration/selection.c): a doubly linked list that keeps
 * its elements ordered by a comparison given at creation, optionally storing
 * a duplicate of each added value.
 *
 * As written, `selection_add` sets the tail pointer only when it inserts into
 * an empty selection, and an element inserted in front of the head never gets
 * its `prev` pointer initialised. The model keeps both facts: `tailPos` is the
 * index of the element the tail pointer designates (the first element ever
 * added, shifted by the insertions in front of it), and `headPrevNull` says
 * whether the head's `prev` pointer is NULL. Walks from the tail therefore
 * start at the wrong element; `AddFixed` is the insertion that keeps the tail
 * on the last element.
 */
module Selections {
  import opened Common
  import opened DLists

  /** Outcome of a positional lookup; Undefined is a read through an uninitialised pointer. */
  datatype Lookup<T> = Found(value: T) | Missing | Undefined

  /**
   * p is where selection_add links a new value x into s: in front when s is
   * empty or x compares below the head, otherwise after the head and after
   * every following element x compares above.
   */
  ghost predicate IsInsertPos<T>(cmp: (T, T) -> int, s: seq<T>, x: T, p: nat) {
    p <= |s| &&
    (s == [] ==> p == 0) &&
    (s != [] && cmp(x, s[0]) < 0 ==> p == 0) &&
    (s != [] && cmp(x, s[0]) >= 0 ==>
       1 <= p && (forall k :: 1 <= k < p ==> cmp(x, s[k]) > 0) && (p < |s| ==> cmp(x, s[p]) <= 0))
  }

  /** Index, counted from the start of t, of the first element x does not compare above. */
  function SkipGreater<T>(cmp: (T, T) -> int, t: seq<T>, x: T): (k: nat)
    ensures k <= |t|
    ensures forall i :: 0 <= i < k ==> cmp(x, t[i]) > 0
    ensures k < |t| ==> cmp(x, t[k]) <= 0
  {
    if t == [] || cmp(x, t[0]) <= 0 then 0 else 1 + SkipGreater(cmp, t[1..], x)
  }

  function InsertPos<T>(cmp: (T, T) -> int, s: seq<T>, x: T): (p: nat)
    ensures IsInsertPos(cmp, s, x, p)
  {
    if s == [] || cmp(x, s[0]) < 0 then 0
    else
      var k := SkipGreater(cmp, s[1..], x);
      assert forall i :: 1 <= i < 1 + k ==> s[i] == s[1..][i - 1];
      1 + k
  }

  function InsertAt<T>(s: seq<T>, p: nat, x: T): (r: seq<T>)
    requires p <= |s|
    ensures |r| == |s| + 1 && r[p] == x
    ensures forall k :: 0 <= k < p ==> r[k] == s[k]
    ensures forall k :: p < k < |r| ==> r[k] == s[k - 1]
    ensures multiset(r) == multiset(s) + multiset{x}
  {
    assert s == s[..p] + s[p..];
    s[..p] + [x] + s[p..]
  }

  /** The index the stale tail pointer designates after an insertion at p. */
  function TailAfterAdd(len: nat, tailPos: int, p: nat): int {
    if len == 0 then 0 else if p <= tailPos then tailPos + 1 else tailPos
  }

  /**
   * What selection_at returns, as written: non-negative positions count from
   * the head; negative ones walk back from the element at tailPos and, past
   * the head, follow the head's `prev` pointer.
   */
  function StaleLookup<T>(s: seq<T>, tailPos: int, headPrevNull: bool, n: int): (r: Lookup<T>)
    requires -1 <= tailPos < |s|
    ensures n >= 0 ==> r == (if n < |s| then Found(s[n]) else Missing)
    ensures n < 0 && -n <= tailPos ==> r == Found(s[tailPos + n])
    ensures r == Undefined <==> n < 0 && 0 <= tailPos < -n && !headPrevNull
  {
    if n >= 0 then (if n < |s| then Found(s[n]) else Missing)
    else if -n <= tailPos then Found(s[tailPos + n])
    else if tailPos >= 0 && !headPrevNull then Undefined
    else Missing
  }

  /** What selection_at is meant to return: the element Position designates. */
  function IntendedLookup<T>(s: seq<T>, n: int): Lookup<T> {
    match Position(|s|, n)
    case Some(k) => Found(s[k])
    case None => Missing
  }

  /** Everything InsertPos places before x is not greater than x. */
  lemma BeforeInsertPos<T>(cmp: (T, T) -> int, S: set<T>, s: seq<T>, x: T, k: nat)
    requires ConsistentOn(cmp, S)
    requires x in S && forall i :: 0 <= i < |s| ==> s[i] in S
    requires k < InsertPos(cmp, s, x)
    ensures cmp(s[k], x) <= 0
  {
    assert s[k] in S;
    if k == 0 {
      assert cmp(x, s[0]) >= 0;
    } else {
      assert cmp(x, s[k]) > 0;
    }
  }

  /** In a sorted sequence, everything InsertPos places after x is not smaller than x. */
  lemma AfterInsertPos<T>(cmp: (T, T) -> int, S: set<T>, s: seq<T>, x: T, k: nat)
    requires ConsistentOn(cmp, S)
    requires x in S && forall i :: 0 <= i < |s| ==> s[i] in S
    requires Sorted(cmp, s)
    requires InsertPos(cmp, s, x) <= k < |s|
    ensures cmp(x, s[k]) <= 0
  {
    var p := InsertPos(cmp, s, x);
    assert s[k] in S && s[p] in S;
    assert cmp(x, s[p]) <= 0;
    if p < k {
      assert cmp(s[p], s[k]) <= 0;
    }
  }

  /** Inserting at InsertPos keeps a sorted sequence sorted. */
  lemma {:induction false} InsertKeepsSorted<T>(cmp: (T, T) -> int, S: set<T>, s: seq<T>, x: T)
    requires ConsistentOn(cmp, S)
    requires x in S && forall k :: 0 <= k < |s| ==> s[k] in S
    requires Sorted(cmp, s)
    ensures Sorted(cmp, InsertAt(s, InsertPos(cmp, s, x), x))
  {
    var p := InsertPos(cmp, s, x);
    var r := InsertAt(s, p, x);
    forall i, j | 0 <= i < j < |r|
      ensures cmp(r[i], r[j]) <= 0
    {
      if j < p {
        assert r[i] == s[i] && r[j] == s[j];
      } else if j == p {
        BeforeInsertPos(cmp, S, s, x, i);
      } else if i < p {
        BeforeInsertPos(cmp, S, s, x, i);
        AfterInsertPos(cmp, S, s, x, j - 1);
        assert s[i] in S && s[j - 1] in S;
        assert r[i] == s[i] && r[j] == s[j - 1];
      } else if i == p {
        AfterInsertPos(cmp, S, s, x, j - 1);
      } else {
        assert r[i] == s[i - 1] && r[j] == s[j - 1];
      }
    }
  }

  /**
   * Adding 1 and then 2 to an empty selection ordered ascending leaves the
   * tail pointer on 1, the first element: position -1 then finds nothing,
   * while the element one step back from the real tail is 1.
   */
  lemma StaleTailCounterexample()
    ensures var cmp := (a: int, b: int) => a - b;
            var s1 := InsertAt([], InsertPos(cmp, [], 1), 1);
            var t1 := TailAfterAdd(0, -1, InsertPos(cmp, [], 1));
            var s2 := InsertAt(s1, InsertPos(cmp, s1, 2), 2);
            var t2 := TailAfterAdd(|s1|, t1, InsertPos(cmp, s1, 2));
            s2 == [1, 2] && t2 == 0 &&
            StaleLookup(s2, t2, true, -1) == Missing &&
            IntendedLookup(s2, -1) == Found(1)
  {
    var cmp := (a: int, b: int) => a - b;
    var s1 := InsertAt([], InsertPos(cmp, [], 1), 1);
    assert s1 == [1];
    assert InsertPos(cmp, s1, 2) == 1;
  }

  /** With the tail on the last element, the as-written walk is the intended lookup. */
  lemma {:induction false} FixedTailLookup<T>(s: seq<T>, n: int)
    ensures StaleLookup(s, |s| - 1, true, n) == IntendedLookup(s, n)
  {
  }

  class Selection<T(==)> {
    const cmp: (T, T) -> int
    /** The duplication callback, if any; it yields None when it fails. */
    const dup: Option<T -> Option<T>>
    const hasDtor: bool
    /** The elements, head first. */
    var items: seq<T>
    var length: nat
    /** Index of the element the tail pointer designates, -1 for NULL. */
    var tailPos: int
    /** Whether the head element's prev pointer is NULL. */
    var headPrevNull: bool

    ghost predicate Valid()
      reads this
    {
      length == |items| && -1 <= tailPos < |items| && (items == [] <==> tailPos == -1)
    }

    /** The state AddFixed maintains: the tail is the last element, the head has no predecessor. */
    ghost predicate TailIsLast()
      reads this
    {
      tailPos == |items| - 1 && headPrevNull
    }

    /** selection_new */
    constructor New(cmp: (T, T) -> int, dtor: bool, dup: Option<T -> Option<T>>)
      ensures Valid() && TailIsLast()
      ensures this.cmp == cmp && hasDtor == dtor && this.dup == dup && items == []
    {
      this.cmp := cmp;
      this.dup := dup;
      hasDtor := dtor;
      items := [];
      length := 0;
      tailPos := -1;
      headPrevNull := true;
    }

    /** selection_is_empty */
    method IsEmpty() returns (e: bool)
      ensures e <==> |items| == 0
    {
      e := items == [];
    }

    /** selection_length */
    method Length() returns (n: nat)
      requires Valid()
      ensures n == |items|
    {
      n := length;
    }

    /** The value selection_add links in: the duplicate when a dup callback is set. */
    function Stored(data: T): Option<T>
      reads this
    {
      if dup.Some? then dup.value(data) else Some(data)
    }

    /** The search loop of selection_add: the index after the head where x goes. */
    method FindSlot(x: T) returns (p: nat)
      requires items != [] && cmp(x, items[0]) >= 0
      ensures p == InsertPos(cmp, items, x)
    {
      var cur := 0;
      while cur + 1 < |items| && cmp(x, items[cur + 1]) > 0
        invariant 0 <= cur < |items|
        invariant forall k :: 1 <= k <= cur ==> cmp(x, items[k]) > 0
      {
        cur := cur + 1;
      }
      p := cur + 1;
    }

    /**
     * selection_add, as written: links the (duplicated) value in order; it
     * fails, changing nothing, when the duplication fails. The tail pointer
     * moves only off NULL, and a new head's prev pointer is left unset.
     */
    method Add(data: T) returns (ok: bool)
      requires Valid()
      modifies this`items, this`length, this`tailPos, this`headPrevNull
      ensures Valid()
      ensures ok <==> Stored(data).Some?
      ensures !ok ==> items == old(items) && tailPos == old(tailPos) && headPrevNull == old(headPrevNull)
      ensures ok ==> var x := Stored(data).value; var p := InsertPos(cmp, old(items), x);
                     items == InsertAt(old(items), p, x) &&
                     tailPos == TailAfterAdd(|old(items)|, old(tailPos), p) &&
                     headPrevNull == (old(items) == [] || (old(headPrevNull) && p > 0))
    {
      var d := Stored(data);
      if d.None? {
        return false;
      }
      var x := d.value;
      ok := true;
      if items == [] {
        items := [x];
        tailPos := 0;
        headPrevNull := true;
      } else if cmp(x, items[0]) < 0 {
        items := [x] + items;
        tailPos := tailPos + 1;
        headPrevNull := false;
      } else {
        var p := FindSlot(x);
        items := items[..p] + [x] + items[p..];
        if p <= tailPos {
          tailPos := tailPos + 1;
        }
      }
      length := length + 1;
    }

    /**
     * selection_add with the evident intent: the same ordered insertion, the
     * tail kept on the last element and a new head's prev pointer set to NULL.
     */
    method AddFixed(data: T) returns (ok: bool)
      requires Valid()
      modifies this`items, this`length, this`tailPos, this`headPrevNull
      ensures Valid()
      ensures ok <==> Stored(data).Some?
      ensures !ok ==> items == old(items) && tailPos == old(tailPos) && headPrevNull == old(headPrevNull)
      ensures ok ==> var x := Stored(data).value;
                     items == InsertAt(old(items), InsertPos(cmp, old(items), x), x) && TailIsLast()
    {
      var d := Stored(data);
      if d.None? {
        return false;
      }
      var x := d.value;
      ok := true;
      if items == [] || cmp(x, items[0]) < 0 {
        items := [x] + items;
      } else {
        var p := FindSlot(x);
        items := items[..p] + [x] + items[p..];
      }
      length := length + 1;
      tailPos := |items| - 1;
      headPrevNull := true;
    }

    /**
     * selection_apply: calls the callback on the elements from head to tail
     * and stops after the first one it rejects; a missing callback succeeds.
     * `calls` is the number of elements the callback was called on.
     */
    method Apply(apply: Option<T -> bool>) returns (ok: bool, calls: nat)
      ensures apply.None? ==> ok && calls == 0
      ensures apply.Some? ==> calls <= |items|
      ensures apply.Some? ==> forall k :: 0 <= k < calls - 1 ==> apply.value(items[k])
      ensures ok <==> apply.None? || forall k :: 0 <= k < |items| ==> apply.value(items[k])
      ensures apply.Some? && !ok ==> calls >= 1 && !apply.value(items[calls - 1])
      ensures apply.Some? && ok ==> calls == |items|
    {
      ok := true;
      calls := 0;
      if apply.Some? {
        var f := apply.value;
        while ok && calls < |items|
          invariant 0 <= calls <= |items|
          invariant forall k :: 0 <= k < calls - 1 ==> f(items[k])
          invariant ok <==> forall k :: 0 <= k < calls ==> f(items[k])
          invariant !ok ==> calls >= 1 && !f(items[calls - 1])
        {
          ok := ok && f(items[calls]);
          calls := calls + 1;
        }
      }
    }

    /**
     * selection_at, as written: walks |n| steps, forward from the head or
     * backward from the tail pointer.
     */
    method At(n: int) returns (r: Lookup<T>)
      requires Valid()
      ensures r == StaleLookup(items, tailPos, headPrevNull, n)
      ensures TailIsLast() ==> r == IntendedLookup(items, n)
    {
      var c := if n < 0 then -n else n;
      var cur: int := if n < 0 then tailPos else 0;
      while 0 <= cur < |items| && c != 0
        invariant 0 <= c
        invariant n >= 0 ==> cur == n - c && 0 <= cur <= |items|
        invariant n < 0 ==> cur == tailPos + n + c && -1 <= cur < |items|
        invariant n < 0 && cur == -1 && tailPos >= 0 ==> headPrevNull
        decreases c
      {
        if n < 0 && cur == 0 && !headPrevNull {
          // the head's prev pointer was never initialised
          return Undefined;
        }
        cur := if n < 0 then cur - 1 else cur + 1;
        c := c - 1;
      }
      r := if c == 0 && 0 <= cur < |items| then Found(items[cur]) else Missing;
      if TailIsLast() {
        FixedTailLookup(items, n);
      }
    }

    /** selection_destroy: the destructor calls, head to tail. */
    method Destroy() returns (destroyed: seq<T>)
      ensures destroyed == if hasDtor then items else []
    {
      destroyed := [];
      if hasDtor {
        var i := 0;
        while i < |items|
          invariant 0 <= i <= |items|
          invariant destroyed == items[..i]
        {
          destroyed := destroyed + [items[i]];
          i := i + 1;
        }
        assert items[..i] == items;
      }
    }
  }
}
