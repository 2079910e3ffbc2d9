/**
 * Argument vectors (shared/argv.c): a NULL-terminated array of C strings
 * is an array of Option<string> whose first None is the terminator.
 */
module Argv {
  import opened Common
  import Joins

  /** The vector has a terminator. */
  predicate Terminated(a: seq<Option<string>>) {
    exists k :: 0 <= k < |a| && a[k].None?
  }

  /** The strings before the terminator, in order. */
  function Args(a: seq<Option<string>>): (r: seq<string>)
    requires Terminated(a)
    ensures |r| < |a| && a[|r|].None?
    ensures forall i :: 0 <= i < |r| ==> a[i] == Some(r[i])
    decreases |a|
  {
    if a[0].None? then []
    else
      assert Terminated(a[1..]) by {
        var k :| 0 <= k < |a| && a[k].None?;
        assert a[1..][k - 1].None?;
      }
      [a[0].value] + Args(a[1..])
  }

  /**
   * argv_copy(args, error): count the strings, allocate one slot more
   * (calloc), duplicate each string into its slot and terminate the copy
   * with NULL.
   */
  method ArgvCopy(args: array<Option<string>>) returns (copy: array<Option<string>>)
    requires Terminated(args[..])
    ensures fresh(copy)
    ensures copy.Length == |Args(args[..])| + 1
    ensures copy[..] == args[..copy.Length]
  {
    ghost var a := args[..];
    ghost var m := |Args(a)|;
    assert a[m].None? && forall i :: 0 <= i < m ==> a[i].Some?;
    var n := 0;
    while args[n].Some?
      invariant n <= m
      decreases m - n
    {
      n := n + 1;
    }
    copy := new Option<string>[n + 1];
    var p := 0;
    while args[p].Some?
      invariant p <= n
      invariant forall i :: 0 <= i < p ==> copy[i] == a[i]
      decreases n - p
    {
      copy[p] := args[p];
      p := p + 1;
    }
    copy[p] := None;
    assert copy[..] == a[..n + 1];
  }

  /** argv_join(args, buffer, buffer_end, error): the arguments joined with single spaces. */
  method ArgvJoin(args: array<Option<string>>, buf: array<char>, end: nat) returns (ok: bool)
    requires Terminated(args[..])
    requires end <= buf.Length
    requires forall i :: 0 <= i < |Args(args[..])| ==> '\0' !in Args(args[..])[i]
    modifies buf
    ensures ok == Joins.Run(" ", Args(args[..]), end).Some?
    ensures ok && Args(args[..]) != [] ==>
      (buf[..|Joins.Joined(" ", Args(args[..]))|] == Joins.Joined(" ", Args(args[..])) &&
       buf[|Joins.Joined(" ", Args(args[..]))|] == '\0')
    ensures Args(args[..]) == [] ==> ok && buf[..] == old(buf[..])
    ensures buf[end..] == old(buf[end..])
  {
    ok := Joins.SepJoin(buf, end, " ", Args(args[..]));
  }

  /**
   * Joining with spaces puts exactly one space between each two
   * consecutive arguments from the first non-empty one on, and no other:
   * over arguments without spaces, the line holds one space fewer than
   * there are arguments left once the leading empty ones are dropped.
   */
  lemma {:induction false} SpaceSeparated(args: seq<string>)
    requires forall i :: 0 <= i < |args| ==> ' ' !in args[i]
    ensures multiset(Joins.Joined(" ", args))[' '] ==
      if Joins.DropLeadingEmpty(args) == [] then 0 else |Joins.DropLeadingEmpty(args)| - 1
    decreases |args|
  {
    if args != [] {
      var init, a := args[..|args| - 1], args[|args| - 1];
      assert args == init + [a];
      SpaceSeparated(init);
      Joins.DropLeadingEmptySnoc(init, a);
      Joins.JoinedIsInterleave(" ", init);
      Joins.InterleaveEmpty(" ", Joins.DropLeadingEmpty(init));
      assert multiset(a)[' '] == 0;
    }
  }
}
