/**
 * Snapshot records of the ZFS integration plugin
 * (plugins/zfs_integration/snapshot.c) and the comparison that orders them
 * newest first.
 *
 * A record is a value here; the `fs` field is the identity of an open ZFS
 * handle, or None for NULL.
 */
module Snapshots {
  import opened Common
  import opened DLists

  const SNAPSHOT_MAX_NAME_LEN: nat := 4096

  datatype Snapshot = Snapshot(name: string, creation: u64, fs: Option<nat>, hook: int, version: u64)

  /**
   * snapshot_compare_by_creation_date_desc: -1 when a is newer than b,
   * otherwise the unsigned difference b.creation - a.creation converted to int.
   */
  function CompareByCreationDesc(a: Snapshot, b: Snapshot): (r: int)
    ensures INT32_MIN <= r <= INT32_MAX
    ensures a.creation > b.creation ==> r == -1
    ensures a.creation <= b.creation <= a.creation + INT32_MAX ==> r == b.creation - a.creation
    ensures r == 0 <==> a.creation <= b.creation && (b.creation - a.creation) % 0x1_0000_0000 == 0
  {
    if b.creation >= a.creation then ToInt32(b.creation - a.creation) else -1
  }

  /** Creation dates that are less than 2^31 seconds apart. */
  ghost predicate CloseInTime(S: set<Snapshot>) {
    forall a, b | a in S && b in S :: a.creation - b.creation <= INT32_MAX
  }

  /** For dates less than 2^32 seconds apart, the comparison is 0 exactly on equal dates. */
  lemma CompareZeroIffSameDate(a: Snapshot, b: Snapshot)
    requires a.creation - b.creation < 0x1_0000_0000 && b.creation - a.creation < 0x1_0000_0000
    ensures CompareByCreationDesc(a, b) == 0 <==> a.creation == b.creation
  {
    if a.creation < b.creation {
      assert 0 < b.creation - a.creation < 0x1_0000_0000;
      assert (b.creation - a.creation) % 0x1_0000_0000 != 0;
    }
  }

  /**
   * Among dates less than 2^31 seconds apart the comparison is a consistent
   * ordering, and "not greater" means "not older".
   */
  lemma {:induction false} CloseDatesConsistent(S: set<Snapshot>)
    requires CloseInTime(S)
    ensures ConsistentOn(CompareByCreationDesc, S)
    ensures forall a, b | a in S && b in S :: CompareByCreationDesc(a, b) <= 0 <==> a.creation >= b.creation
  {
    forall a, b | a in S && b in S
      ensures CompareByCreationDesc(a, b) > 0 <==> b.creation > a.creation
      ensures CompareByCreationDesc(a, b) < 0 <==> a.creation > b.creation
    {
      assert b.creation - a.creation <= INT32_MAX;
    }
  }

  /** A wider gap is converted to a negative int: both orders then compare "before". */
  lemma WideGapMisorders()
    ensures var a := Snapshot("a", 0, None, 0, 0);
            var b := Snapshot("b", 0x8000_0000, None, 0, 0);
            CompareByCreationDesc(a, b) < 0 && CompareByCreationDesc(b, a) < 0
  {
    var a := Snapshot("a", 0, None, 0, 0);
    var b := Snapshot("b", 0x8000_0000, None, 0, 0);
    assert CompareByCreationDesc(a, b) == ToInt32(0x8000_0000);
  }

  /** A list sorted by this comparison, over close dates, starts with its newest snapshot. */
  lemma {:induction false} SortedStartsNewest(s: seq<Snapshot>)
    requires s != [] && CloseInTime(Elements(s))
    requires Sorted(CompareByCreationDesc, s)
    ensures forall k :: 0 <= k < |s| ==> s[0].creation >= s[k].creation
  {
    CloseDatesConsistent(Elements(s));
    forall k | 0 < k < |s|
      ensures s[0].creation >= s[k].creation
    {
      assert s[0] in Elements(s) && s[k] in Elements(s);
      assert CompareByCreationDesc(s[0], s[k]) <= 0;
    }
  }

  /**
   * After a sort that permutes the snapshots (and orders them when the dates
   * are close), element 0 is one of the original snapshots and, over close
   * dates, the newest of them.
   */
  lemma NewestAfterSort(before: seq<Snapshot>, after: seq<Snapshot>)
    requires after != [] && multiset(after) == multiset(before)
    requires CloseInTime(Elements(before)) ==> Sorted(CompareByCreationDesc, after)
    ensures after[0] in before
    ensures CloseInTime(Elements(before)) ==> forall x | x in before :: after[0].creation >= x.creation
  {
    assert after[0] in multiset(after);
    assert Elements(after) == Elements(before) by {
      assert forall x :: x in after <==> x in multiset(after);
      assert forall x :: x in before <==> x in multiset(before);
    }
    if CloseInTime(Elements(before)) {
      SortedStartsNewest(after);
      forall x | x in before ensures after[0].creation >= x.creation {
        assert x in multiset(after);
        var k :| 0 <= k < |after| && after[k] == x;
      }
    }
  }

  /**
   * snapshot_copy: a field-by-field copy; the copy shares the original's fs
   * handle. The C function yields NULL only when allocation fails, which is
   * not modelled.
   */
  function Copy(s: Snapshot): (c: Option<Snapshot>)
    ensures c.Some? && c.value.name == s.name && c.value.creation == s.creation
    ensures c.Some? && c.value.fs == s.fs && c.value.hook == s.hook && c.value.version == s.version
  {
    Some(s)
  }

  /**
   * snapshot_destroy: closes the fs handle when there is one, which leaves
   * the field NULL; the record itself stays. The second component is the handle closed.
   */
  function Destroy(s: Snapshot): (res: (Snapshot, Option<nat>))
    ensures res.0.fs.None? && res.1 == s.fs
    ensures res.0.name == s.name && res.0.creation == s.creation && res.0.hook == s.hook && res.0.version == s.version
  {
    (s.(fs := None), s.fs)
  }
}
