/**
 * Joining strings into a caller buffer with stpcpy_sp, as path_join
 * (shared/path_join.c) and argv_join (shared/argv.c) both do: a write
 * cursor starts at the beginning of the buffer, a separator is copied
 * before a component only once the cursor has moved, and the first copy
 * that does not fit ends the loop with failure.
 */
module Joins {
  import opened Common
  import Buffers

  // ---------------------------------------------------------------------
  // What ends up in the buffer

  /** The components joined as the loop writes them: no separator while nothing has been written. */
  function Joined(sep: string, parts: seq<string>): string
    decreases |parts|
  {
    if parts == [] then []
    else
      var j := Joined(sep, parts[..|parts| - 1]);
      if j == [] then parts[|parts| - 1] else j + sep + parts[|parts| - 1]
  }

  /** Reference definition: the components from the first non-empty one on, with a separator between each two. */
  function Interleave(sep: string, parts: seq<string>): string
    decreases |parts|
  {
    if parts == [] then []
    else if |parts| == 1 then parts[0]
    else parts[0] + sep + Interleave(sep, parts[1..])
  }

  function DropLeadingEmpty(parts: seq<string>): (r: seq<string>)
    ensures r == [] || r[0] != []
    decreases |parts|
  {
    if parts == [] then []
    else if parts[0] == [] then DropLeadingEmpty(parts[1..])
    else parts
  }

  lemma InterleaveSnoc(sep: string, parts: seq<string>, p: string)
    requires parts != []
    ensures Interleave(sep, parts + [p]) == Interleave(sep, parts) + sep + p
    decreases |parts|
  {
    if |parts| == 1 {
      assert parts + [p] == [parts[0], p];
    } else {
      assert (parts + [p])[1..] == parts[1..] + [p];
      InterleaveSnoc(sep, parts[1..], p);
    }
  }

  lemma DropLeadingEmptySnoc(parts: seq<string>, p: string)
    ensures DropLeadingEmpty(parts + [p]) ==
      if DropLeadingEmpty(parts) != [] then DropLeadingEmpty(parts) + [p]
      else if p == [] then [] else [p]
    decreases |parts|
  {
    if parts != [] {
      assert (parts + [p])[1..] == parts[1..] + [p];
      if parts[0] == [] {
        DropLeadingEmptySnoc(parts[1..], p);
      }
    }
  }

  lemma InterleaveEmpty(sep: string, parts: seq<string>)
    requires parts == [] || parts[0] != []
    ensures Interleave(sep, parts) == [] <==> parts == []
  {
    if |parts| > 1 {
      assert |Interleave(sep, parts)| >= |parts[0]|;
    }
  }

  /**
   * The loop's output is the reference join of the components left after
   * dropping the leading empty ones: leading empty components add no
   * separator, every later component is preceded by exactly one.
   */
  lemma {:induction false} JoinedIsInterleave(sep: string, parts: seq<string>)
    ensures Joined(sep, parts) == Interleave(sep, DropLeadingEmpty(parts))
    decreases |parts|
  {
    if parts != [] {
      var init, p := parts[..|parts| - 1], parts[|parts| - 1];
      assert parts == init + [p];
      JoinedIsInterleave(sep, init);
      DropLeadingEmptySnoc(init, p);
      InterleaveEmpty(sep, DropLeadingEmpty(init));
      if DropLeadingEmpty(init) != [] {
        InterleaveSnoc(sep, DropLeadingEmpty(init), p);
      }
    }
  }

  /** Leading empty components leave the output unchanged. */
  lemma LeadingEmptyAddsNothing(sep: string, parts: seq<string>)
    ensures Joined(sep, [[]] + parts) == Joined(sep, parts)
  {
    JoinedIsInterleave(sep, [[]] + parts);
    JoinedIsInterleave(sep, parts);
    assert ([[]] + parts)[1..] == parts;
  }

  /** No normalisation: the separator is written even next to one already there, so "/" and "x" give "//x". */
  lemma NoNormalisation()
    ensures Joined("/", ["/", "x"]) == "//x"
    ensures Joined("/", ["", "", "x"]) == "x"
    ensures Joined("/", ["a", ""]) == "a/"
  {
    assert ["/", "x"][..1] == ["/"];
    assert ["", "", "x"][..2] == ["", ""];
    assert ["", ""][..1] == [""];
    assert ["a", ""][..1] == ["a"];
  }

  // ---------------------------------------------------------------------
  // When the loop succeeds

  /** One stpcpy_sp call at the cursor: the new cursor, or None when it fails. */
  function Put(at: nat, s: string, end: nat): (r: Option<nat>)
    ensures r == (var x := Buffers.Result(Some(at), Some(s), end); if x.Some? then Some(x.value as nat) else None)
  {
    if at + 1 < end && at + |s| + 1 <= end then Some(at + |s|) else None
  }

  /** One turn of the loop from cursor at: the separator if the cursor has moved, then the component. */
  function Turn(sep: string, at: nat, p: string, end: nat): Option<nat> {
    if at != 0 then
      match Put(at, sep, end)
      case None => None
      case Some(a) => Put(a, p, end)
    else Put(at, p, end)
  }

  /** The cursor after the whole loop, or None when a copy failed. */
  function Run(sep: string, parts: seq<string>, end: nat): (r: Option<nat>)
    ensures r.Some? ==> r.value == |Joined(sep, parts)|
    ensures r.Some? && parts != [] ==> r.value + 1 <= end
    decreases |parts|
  {
    if parts == [] then Some(0)
    else
      match Run(sep, parts[..|parts| - 1], end)
      case None => None
      case Some(at) => Turn(sep, at, parts[|parts| - 1], end)
  }

  /** Once a prefix of the components has failed, the whole join fails. */
  lemma {:induction false} FailureStops(sep: string, parts: seq<string>, i: nat, end: nat)
    requires i <= |parts| && Run(sep, parts[..i], end).None?
    ensures Run(sep, parts, end).None?
    decreases |parts| - i
  {
    if i < |parts| {
      assert parts[..i + 1][..i] == parts[..i];
      FailureStops(sep, parts, i + 1, end);
    } else {
      assert parts[..i] == parts;
    }
  }

  /** The join succeeds when its output and a spare byte fit, and only if its output and the NUL do. */
  lemma {:induction false} RunFits(sep: string, parts: seq<string>, end: nat)
    ensures |Joined(sep, parts)| + 2 <= end ==> Run(sep, parts, end).Some?
    ensures Run(sep, parts, end).Some? && parts != [] ==> |Joined(sep, parts)| + 1 <= end
    decreases |parts|
  {
    if parts != [] {
      RunFits(sep, parts[..|parts| - 1], end);
    }
  }

  // ---------------------------------------------------------------------
  // The loop

  /** A copy that fits leaves the old prefix, the string and a NUL, and nothing changes from the limit on. */
  lemma Appended(s: seq<char>, at: nat, x: string, end: nat)
    requires end <= |s| && at + 1 < end && at + |x| + 1 <= end
    ensures var b := Buffers.Splice(s, at, Buffers.Writes(at, Some(x), end));
      b[..at + |x|] == s[..at] + x && b[at + |x|] == '\0' && b[end..] == s[end..]
  {
    var b := Buffers.Splice(s, at, Buffers.Writes(at, Some(x), end));
    assert forall i :: 0 <= i < at + |x| ==> b[..at + |x|][i] == (s[..at] + x)[i];
  }

  /** The loop's view of Run and Joined: one more component, written after the cursor. */
  lemma RunStep(sep: string, parts: seq<string>, i: nat, end: nat)
    requires i < |parts|
    ensures Run(sep, parts[..i + 1], end) ==
      if Run(sep, parts[..i], end).None? then None else Turn(sep, Run(sep, parts[..i], end).value, parts[i], end)
    ensures Joined(sep, parts[..i + 1]) ==
      if Joined(sep, parts[..i]) == [] then parts[i] else Joined(sep, parts[..i]) + sep + parts[i]
  {
    assert parts[..i + 1][..i] == parts[..i];
    assert parts[..i + 1][i] == parts[i];
  }

  /** One stpcpy_sp call at cursor at: on success the buffer holds what was before at, then x, then a NUL. */
  method CopyPart(buf: array<char>, end: nat, at: nat, x: string) returns (next: Option<nat>)
    requires at <= end <= buf.Length
    requires '\0' !in x
    modifies buf
    ensures next == Put(at, x, end)
    ensures next.Some? ==> next.value < end && buf[next.value] == '\0' && buf[..next.value] == old(buf[..at]) + x
    ensures buf[end..] == old(buf[end..])
  {
    ghost var before := buf[..];
    var r := Buffers.StpcpySp(buf, Some(at), Some(x), end);
    if r.None? {
      return None;
    }
    Appended(before, at, x, end);
    next := Some(at + |x|);
  }

  /** One turn of the loop at cursor w: what is before w stays, the separator (once w has moved) and p follow, then a NUL. */
  method CopyTurn(buf: array<char>, end: nat, sep: string, w: nat, p: string) returns (next: Option<nat>)
    requires w <= end <= buf.Length
    requires '\0' !in sep && '\0' !in p
    modifies buf
    ensures next == Turn(sep, w, p, end)
    ensures next.Some? ==>
      (next.value < end && buf[next.value] == '\0' &&
       buf[..next.value] == old(buf[..w]) + (if w != 0 then sep else []) + p)
    ensures buf[end..] == old(buf[end..])
  {
    var at := w;
    if w != 0 {
      var a := CopyPart(buf, end, w, sep);
      if a.None? {
        return None;
      }
      at := a.value;
    }
    ghost var mid := buf[..at];
    assert mid == old(buf[..w]) + (if w != 0 then sep else []);
    next := CopyPart(buf, end, at, p);
  }

  /**
   * The cursor loop shared by path_join and argv_join: it returns true
   * exactly when every copy fitted, and then the buffer starts with the
   * joined components and a NUL; nothing at or past end is written.
   */
  method SepJoin(buf: array<char>, end: nat, sep: string, parts: seq<string>) returns (ok: bool)
    requires end <= buf.Length
    requires '\0' !in sep && forall i :: 0 <= i < |parts| ==> '\0' !in parts[i]
    modifies buf
    ensures ok == Run(sep, parts, end).Some?
    ensures ok && parts != [] ==>
      (|Joined(sep, parts)| < end && buf[..|Joined(sep, parts)|] == Joined(sep, parts) && buf[|Joined(sep, parts)|] == '\0')
    ensures parts == [] ==> buf[..] == old(buf[..])
    ensures buf[end..] == old(buf[end..])
  {
    var w: nat := 0;
    var i := 0;
    while i < |parts|
      invariant i <= |parts| && Run(sep, parts[..i], end) == Some(w)
      invariant i > 0 ==> w < end && buf[..w] == Joined(sep, parts[..i]) && buf[w] == '\0'
      invariant i == 0 ==> w == 0 && buf[..] == old(buf[..])
      invariant buf[end..] == old(buf[end..])
    {
      RunStep(sep, parts, i, end);
      var next := CopyTurn(buf, end, sep, w, parts[i]);
      if next.None? {
        FailureStops(sep, parts, i + 1, end);
        return false;
      }
      assert buf[..next.value] == Joined(sep, parts[..i + 1]) by {
        if i == 0 {
          assert buf[..next.value] == [] + [] + parts[0];
        }
      }
      w := next.value;
      i := i + 1;
    }
    assert parts[..i] == parts;
    ok := true;
  }

  /** path_join(buffer, buffer_end, error, ...): the components joined with "/". */
  method PathJoin(buf: array<char>, end: nat, parts: seq<string>) returns (ok: bool)
    requires end <= buf.Length
    requires forall i :: 0 <= i < |parts| ==> '\0' !in parts[i]
    modifies buf
    ensures ok == Run("/", parts, end).Some?
    ensures ok && parts != [] ==> (buf[..|Joined("/", parts)|] == Joined("/", parts) && buf[|Joined("/", parts)|] == '\0')
    ensures parts == [] ==> ok && buf[..] == old(buf[..])
    ensures buf[end..] == old(buf[end..])
  {
    ok := SepJoin(buf, end, "/", parts);
  }
}
