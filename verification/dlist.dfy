/**
 * The doubly linked list of the kissc library (kissc/dlist.c).
 *
 * The chain of elements from head to tail is the sequence `items`; the head
 * and tail pointers are its first and last element, and NULL stands for the
 * empty sequence. The list keeps its own element counter `length`, which the
 * C code maintains by hand and never recomputes. A list created with a
 * destructor passes every element it drops to it; the destructor calls are
 * returned as the sequence of elements they were made on.
 *
 * Comparison callbacks are total functions `(T, T) -> int` with the C
 * convention: negative, zero or positive.
 */
module DLists {
  import opened Common

  /** The values held by a sequence, as a set. */
  ghost function Elements<T>(s: seq<T>): set<T> {
    set x | x in s
  }

  /**
   * A comparison that behaves like an ordering on the values of S: the sign
   * of cmp(a, b) is the opposite of the sign of cmp(b, a), and "not greater"
   * is transitive.
   */
  ghost predicate ConsistentOn<T>(cmp: (T, T) -> int, S: set<T>) {
    (forall a, b | a in S && b in S :: cmp(a, b) > 0 <==> cmp(b, a) < 0) &&
    (forall a, b, c | a in S && b in S && c in S :: cmp(a, b) <= 0 && cmp(b, c) <= 0 ==> cmp(a, c) <= 0)
  }

  /** No neighbouring pair is out of order. */
  ghost predicate AdjacentSorted<T>(cmp: (T, T) -> int, s: seq<T>) {
    forall k :: 0 <= k < |s| - 1 ==> cmp(s[k], s[k + 1]) <= 0
  }

  /** No pair at all is out of order. */
  ghost predicate Sorted<T>(cmp: (T, T) -> int, s: seq<T>) {
    forall i, j :: 0 <= i < j < |s| ==> cmp(s[i], s[j]) <= 0
  }

  lemma {:induction false} AdjacentChain<T>(cmp: (T, T) -> int, S: set<T>, s: seq<T>, i: nat, j: nat)
    requires ConsistentOn(cmp, S)
    requires forall k :: 0 <= k < |s| ==> s[k] in S
    requires AdjacentSorted(cmp, s)
    requires i < j < |s|
    ensures cmp(s[i], s[j]) <= 0
    decreases j - i
  {
    if i + 1 < j {
      AdjacentChain(cmp, S, s, i + 1, j);
      assert cmp(s[i], s[i + 1]) <= 0;
    }
  }

  /** For a comparison consistent on the values, neighbour order is total order. */
  lemma {:induction false} AdjacentSortedIsSorted<T>(cmp: (T, T) -> int, S: set<T>, s: seq<T>)
    requires ConsistentOn(cmp, S)
    requires forall k :: 0 <= k < |s| ==> s[k] in S
    requires AdjacentSorted(cmp, s)
    ensures Sorted(cmp, s)
  {
    forall i, j | 0 <= i < j < |s|
      ensures cmp(s[i], s[j]) <= 0
    {
      AdjacentChain(cmp, S, s, i, j);
    }
  }

  /**
   * The element a signed position designates: 0 is the head and counts
   * forward, -1 is one step back from the tail, -k is k steps back from it.
   */
  function Position(len: nat, n: int): (r: Option<nat>)
    ensures r.Some? ==> r.value < len
    ensures n >= 0 ==> (r.Some? <==> n < len)
    ensures n < 0 ==> (r.Some? <==> -n < len)
  {
    if n >= 0 then (if n < len then Some(n) else None)
    else if -n < len then Some(len - 1 + n) else None
  }

  ghost predicate InSet<T>(s: seq<T>, S: set<T>) {
    forall k :: 0 <= k < |s| ==> s[k] in S
  }

  /** Every element before index e is not greater than every element from e on. */
  ghost predicate Partitioned<T>(cmp: (T, T) -> int, s: seq<T>, e: nat) {
    forall i, k :: 0 <= i < e <= k < |s| ==> cmp(s[i], s[k]) <= 0
  }

  /** The elements from index e on are in order. */
  ghost predicate SortedFrom<T>(cmp: (T, T) -> int, s: seq<T>, e: nat) {
    forall k, k' :: e <= k < k' < |s| ==> cmp(s[k], s[k']) <= 0
  }

  /** s[j] is not smaller than any element before it. */
  ghost predicate MaxAt<T>(cmp: (T, T) -> int, s: seq<T>, j: nat)
    requires j < |s|
  {
    forall i :: 0 <= i < j ==> cmp(s[i], s[j]) <= 0
  }

  /** The neighbours up to index j are in order. */
  ghost predicate AdjacentBelow<T>(cmp: (T, T) -> int, s: seq<T>, j: nat) {
    forall k :: 0 <= k < j && k + 1 < |s| ==> cmp(s[k], s[k + 1]) <= 0
  }

  /** One compare-and-swap step of a bubble pass keeps the pass invariants. */
  lemma StepKeeps<T>(cmp: (T, T) -> int, S: set<T>, s: seq<T>, t: seq<T>, j: nat, e: nat)
    requires ConsistentOn(cmp, S)
    requires j + 1 < e <= |s| && InSet(s, S)
    requires Partitioned(cmp, s, e) && SortedFrom(cmp, s, e) && MaxAt(cmp, s, j)
    requires t == if cmp(s[j], s[j + 1]) > 0 then s[j := s[j + 1]][j + 1 := s[j]] else s
    ensures |t| == |s| && InSet(t, S)
    ensures Partitioned(cmp, t, e) && SortedFrom(cmp, t, e) && MaxAt(cmp, t, j + 1)
    ensures cmp(s[j], s[j + 1]) <= 0 ==> AdjacentBelow(cmp, s, j) ==> AdjacentBelow(cmp, t, j + 1)
  {
    if cmp(s[j], s[j + 1]) > 0 {
      SwapKeeps(cmp, S, s, t, j, e);
    } else {
      forall i | 0 <= i < j + 1
        ensures cmp(s[i], s[j + 1]) <= 0
      {
        if i < j {
          assert s[i] in S && s[j] in S && s[j + 1] in S;
          assert cmp(s[i], s[j]) <= 0;
        }
      }
    }
  }

  lemma SwapKeeps<T>(cmp: (T, T) -> int, S: set<T>, s: seq<T>, t: seq<T>, j: nat, e: nat)
    requires ConsistentOn(cmp, S)
    requires j + 1 < e <= |s| && InSet(s, S)
    requires Partitioned(cmp, s, e) && SortedFrom(cmp, s, e) && MaxAt(cmp, s, j)
    requires cmp(s[j], s[j + 1]) > 0
    requires t == s[j := s[j + 1]][j + 1 := s[j]]
    ensures |t| == |s| && InSet(t, S)
    ensures Partitioned(cmp, t, e) && SortedFrom(cmp, t, e) && MaxAt(cmp, t, j + 1)
  {
    assert InSet(t, S) by {
      forall k | 0 <= k < |t| ensures t[k] in S {
        if k == j { assert t[k] == s[j + 1]; }
        else if k == j + 1 { assert t[k] == s[j]; }
        else { assert t[k] == s[k]; }
      }
    }
    assert Partitioned(cmp, t, e) by {
      forall i, k | 0 <= i < e <= k < |t|
        ensures cmp(t[i], t[k]) <= 0
      {
        assert t[k] == s[k];
        if i == j { assert t[i] == s[j + 1]; }
        else if i == j + 1 { assert t[i] == s[j]; }
        else { assert t[i] == s[i]; }
      }
    }
    assert SortedFrom(cmp, t, e) by {
      forall k, k' | e <= k < k' < |t|
        ensures cmp(t[k], t[k']) <= 0
      {
        assert t[k] == s[k] && t[k'] == s[k'];
      }
    }
    assert MaxAt(cmp, t, j + 1) by {
      forall i | 0 <= i < j + 1
        ensures cmp(t[i], t[j + 1]) <= 0
      {
        assert t[j + 1] == s[j];
        if i == j {
          assert s[j] in S && s[j + 1] in S;
          assert cmp(s[j + 1], s[j]) < 0;
        } else {
          assert t[i] == s[i];
        }
      }
    }
  }

  /** At the end of a pass the region's maximum sits at index e - 1. */
  lemma PassEnd<T>(cmp: (T, T) -> int, s: seq<T>, e: nat)
    requires 1 <= e <= |s|
    requires Partitioned(cmp, s, e) && SortedFrom(cmp, s, e) && MaxAt(cmp, s, e - 1)
    ensures Partitioned(cmp, s, e - 1) && SortedFrom(cmp, s, e - 1)
  {
  }

  class DList<T(==)> {
    /** The elements, head first. */
    var items: seq<T>
    /** The counter the list maintains alongside the chain. */
    var length: nat
    /** Whether the list was initialised with a destructor. */
    var hasDtor: bool

    ghost predicate Valid()
      reads this
    {
      length == |items|
    }

    /** dlist_init */
    constructor Init(dtor: bool)
      ensures Valid() && items == [] && hasDtor == dtor
    {
      items := [];
      length := 0;
      hasDtor := dtor;
    }

    /** dlist_length: the maintained counter, which agrees with the chain. */
    method Length() returns (n: nat)
      requires Valid()
      ensures n == |items|
    {
      n := length;
    }

    /** dlist_empty: the head pointer is NULL. */
    method Empty() returns (e: bool)
      ensures e <==> |items| == 0
    {
      e := items == [];
    }

    /** dlist_append */
    method Append(x: T)
      requires Valid()
      modifies this`items, this`length
      ensures Valid() && items == old(items) + [x]
    {
      items := items + [x];
      length := length + 1;
    }

    /**
     * dlist_clear: walks from head to tail handing every element to the
     * destructor, then empties the list. The result lists the destructor calls.
     */
    method Clear() returns (destroyed: seq<T>)
      requires Valid()
      modifies this`items, this`length
      ensures Valid() && items == []
      ensures destroyed == if hasDtor then old(items) else []
    {
      destroyed := [];
      var i := 0;
      while i < |items|
        invariant 0 <= i <= |items|
        invariant destroyed == if hasDtor then items[..i] else []
      {
        if hasDtor {
          destroyed := destroyed + [items[i]];
        }
        i := i + 1;
      }
      assert items[..i] == items;
      items := [];
      length := 0;
    }

    /** dlist_find_first: index of the first element comparing equal to key. */
    method FindFirst(cmp: (T, T) -> int, key: T) returns (r: Option<nat>)
      ensures r.Some? ==> r.value < |items| && cmp(items[r.value], key) == 0
      ensures r.Some? ==> forall k :: 0 <= k < r.value ==> cmp(items[k], key) != 0
      ensures r.None? <==> forall k :: 0 <= k < |items| ==> cmp(items[k], key) != 0
    {
      var i := 0;
      while i < |items|
        invariant 0 <= i <= |items|
        invariant forall k :: 0 <= k < i ==> cmp(items[k], key) != 0
      {
        if cmp(items[i], key) == 0 {
          return Some(i);
        }
        i := i + 1;
      }
      r := None;
    }

    /** dlist_find_last: index of the last element comparing equal to key. */
    method FindLast(cmp: (T, T) -> int, key: T) returns (r: Option<nat>)
      ensures r.Some? ==> r.value < |items| && cmp(items[r.value], key) == 0
      ensures r.Some? ==> forall k :: r.value < k < |items| ==> cmp(items[k], key) != 0
      ensures r.None? <==> forall k :: 0 <= k < |items| ==> cmp(items[k], key) != 0
    {
      var i := |items|;
      while i > 0
        invariant 0 <= i <= |items|
        invariant forall k :: i <= k < |items| ==> cmp(items[k], key) != 0
      {
        if cmp(items[i - 1], key) == 0 {
          return Some(i - 1);
        }
        i := i - 1;
      }
      r := None;
    }

    /** dlist_remove_head: drops the first element, if any, through the destructor. */
    method RemoveHead() returns (destroyed: seq<T>)
      requires Valid()
      modifies this`items, this`length
      ensures Valid()
      ensures items == if old(items) == [] then [] else old(items)[1..]
      ensures destroyed == if hasDtor && old(items) != [] then [old(items)[0]] else []
    {
      destroyed := [];
      if items != [] {
        if hasDtor {
          destroyed := [items[0]];
        }
        items := items[1..];
        length := length - 1;
      }
    }

    /** dlist_remove_tail: drops the last element, if any, through the destructor. */
    method RemoveTail() returns (destroyed: seq<T>)
      requires Valid()
      modifies this`items, this`length
      ensures Valid()
      ensures items == if old(items) == [] then [] else old(items)[..|old(items)| - 1]
      ensures destroyed == if hasDtor && old(items) != [] then [old(items)[|old(items)| - 1]] else []
    {
      destroyed := [];
      if items != [] {
        if hasDtor {
          destroyed := [items[|items| - 1]];
        }
        items := items[..|items| - 1];
        length := length - 1;
      }
    }

    /**
     * dlist_remove_link: unlinks the element at index i; the element's data
     * is not passed to the destructor.
     */
    method RemoveLink(i: nat)
      requires Valid() && i < |items|
      modifies this`items, this`length
      ensures Valid()
      ensures items == old(items)[..i] + old(items)[i + 1..]
    {
      items := items[..i] + items[i + 1..];
      length := length - 1;
    }

    /**
     * dlist_at: walks |n| steps, forward from the head when n >= 0 and
     * backward from the tail when n < 0, and yields the element reached.
     */
    method At(n: int) returns (r: Option<T>)
      ensures r.Some? <==> (if n >= 0 then n < |items| else -n < |items|)
      ensures r.Some? ==> r.value == items[if n >= 0 then n else |items| - 1 + n]
      ensures r.Some? <==> Position(|items|, n).Some?
    {
      var c := if n < 0 then -n else n;
      var cur: int := if n < 0 then |items| - 1 else 0;
      while 0 <= cur < |items| && c != 0
        invariant 0 <= c
        invariant n >= 0 ==> cur == n - c && 0 <= cur <= |items|
        invariant n < 0 ==> cur == |items| - 1 + n + c && -1 <= cur < |items|
        decreases c
      {
        cur := if n < 0 then cur - 1 else cur + 1;
        c := c - 1;
      }
      r := if c == 0 && 0 <= cur < |items| then Some(items[cur]) else None;
    }

    /**
     * dlist_sort: bubble sort that swaps the data of neighbours whose
     * comparison is positive, shrinking the unsorted region by one element
     * per pass and stopping after a pass without swaps. It always terminates
     * and permutes the elements; when the comparison is consistent on the
     * values held, the result is sorted.
     */
    method Sort(cmp: (T, T) -> int)
      requires Valid()
      modifies this`items
      ensures Valid()
      ensures multiset(items) == multiset(old(items))
      ensures ConsistentOn(cmp, Elements(old(items))) ==> Sorted(cmp, items)
    {
      if items == [] {
        return;
      }
      ghost var S := Elements(items);
      ghost var good := ConsistentOn(cmp, S);
      var n := |items|;
      // `end` is the index of the element the C code calls tmp (n for NULL)
      var end := n;
      var swapped := true;
      while swapped
        invariant Valid() && |items| == n && 0 <= end <= n
        invariant swapped ==> 1 <= end
        invariant multiset(items) == multiset(old(items))
        invariant InSet(items, S)
        invariant good ==> Partitioned(cmp, items, end) && SortedFrom(cmp, items, end)
        invariant !swapped ==> end < n
        invariant good && !swapped ==> AdjacentBelow(cmp, items, end)
        decreases end, swapped
      {
        swapped := BubblePass(cmp, end, S, good);
        end := end - 1;
      }
      if good {
        AdjacentSortedIsSorted(cmp, S, items[..end + 1]);
        forall i, k | 0 <= i < k < n
          ensures cmp(items[i], items[k]) <= 0
        {
          if k <= end {
            assert items[..end + 1][i] == items[i] && items[..end + 1][k] == items[k];
          }
        }
      }
    }

    /**
     * One pass of dlist_sort over the unsorted region [0, end): the largest
     * element of the region bubbles to index end - 1.
     */
    method BubblePass(cmp: (T, T) -> int, end: nat, ghost S: set<T>, ghost good: bool) returns (swapped: bool)
      requires Valid() && 1 <= end <= |items|
      requires InSet(items, S)
      requires good ==> ConsistentOn(cmp, S)
      requires good ==> Partitioned(cmp, items, end) && SortedFrom(cmp, items, end)
      modifies this`items
      ensures Valid() && |items| == |old(items)|
      ensures multiset(items) == multiset(old(items))
      ensures InSet(items, S)
      ensures good ==> Partitioned(cmp, items, end - 1) && SortedFrom(cmp, items, end - 1)
      ensures good && !swapped ==> AdjacentBelow(cmp, items, end - 1)
      ensures swapped ==> end >= 2
    {
      swapped := false;
      var j := 0;
      while j + 1 != end
        invariant 0 <= j < end
        invariant Valid() && |items| == |old(items)|
        invariant multiset(items) == multiset(old(items))
        invariant InSet(items, S)
        invariant good ==> Partitioned(cmp, items, end) && SortedFrom(cmp, items, end) && MaxAt(cmp, items, j)
        invariant good && !swapped ==> AdjacentBelow(cmp, items, j)
        invariant swapped ==> end >= 2
        decreases end - j
      {
        ghost var before := items;
        if cmp(items[j], items[j + 1]) > 0 {
          items := items[j := items[j + 1]][j + 1 := items[j]];
          swapped := true;
        }
        if good {
          StepKeeps(cmp, S, before, items, j, end);
        }
        j := j + 1;
      }
      if good {
        PassEnd(cmp, items, end);
      }
    }
  }
}
