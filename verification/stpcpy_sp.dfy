/**
 * stpcpy_sp (kissc/stpcpy_sp.c): copy a C string into a buffer without
 * writing at or past its limit, and return the position of the terminating
 * NUL so that further strings can be appended from there.
 *
 * Pointers into the buffer are indices into an array; a NULL `to` or
 * `from` is None; a C string is the sequence of its characters before the
 * NUL. The result is an index (possibly -1, see below) or None for NULL.
 */
module Buffers {
  import opened Common

  /** s with w written over it from index at on. */
  function Splice(s: seq<char>, at: nat, w: seq<char>): (r: seq<char>)
    requires at + |w| <= |s|
    ensures |r| == |s|
    ensures forall i :: 0 <= i < at ==> r[i] == s[i]
    ensures forall i :: 0 <= i < |w| ==> r[at + i] == w[i]
    ensures forall i :: at + |w| <= i < |s| ==> r[i] == s[i]
  {
    s[..at] + w + s[at + |w|..]
  }

  /** The call does anything at all: `to` is set and at least two bytes remain before the limit. */
  predicate Accepts(to: Option<nat>, toLimit: nat) {
    to.Some? && to.value + 1 < toLimit
  }

  /** The whole of from and its NUL fit between to and the limit. */
  predicate Fits(to: nat, from: string, toLimit: nat) {
    to + |from| + 1 <= toLimit
  }

  /** What an accepted call writes from `to` on: the string and its NUL, or as much as fits and a NUL at the limit. */
  function Writes(to: nat, from: Option<string>, toLimit: nat): (w: seq<char>)
    requires to < toLimit
    ensures to + |w| <= toLimit
  {
    if from.None? then []
    else if Fits(to, from.value, toLimit) then from.value + ['\0']
    else from.value[..toLimit - 1 - to] + ['\0']
  }

  /** What stpcpy_sp returns: the index of the NUL written, to - 1 when from is NULL, or NULL. */
  function Result(to: Option<nat>, from: Option<string>, toLimit: nat): Option<int> {
    if !Accepts(to, toLimit) then None
    else if from.None? then Some(to.value - 1)
    else if Fits(to.value, from.value, toLimit) then Some(to.value + |from.value|)
    else None
  }

  /**
   * stpcpy_sp(to, from, to_limit): the copy loop writes one character at a
   * time, the NUL included, and stops at the NUL or at the limit; when it
   * stopped at the limit on a character that is not the NUL, that last
   * byte becomes a NUL and the call fails.
   */
  method StpcpySp(buf: array<char>, to: Option<nat>, from: Option<string>, toLimit: nat) returns (r: Option<int>)
    requires toLimit <= buf.Length
    requires from.Some? ==> '\0' !in from.value
    modifies buf
    ensures r == Result(to, from, toLimit)
    ensures !Accepts(to, toLimit) ==> buf[..] == old(buf[..])
    ensures Accepts(to, toLimit) ==> buf[..] == Splice(old(buf[..]), to.value, Writes(to.value, from, toLimit))
  {
    if to.None? || to.value + 1 >= toLimit {
      return None;
    }
    var t: int := to.value;
    if from.Some? {
      t := CopyLoop(buf, to.value, from.value, toLimit);
    }
    if t == toLimit && buf[toLimit - 1] != '\0' {
      buf[t - 1] := '\0';
      TruncatedWrite(old(buf[..]), to.value, from.value, toLimit);
      return None;
    }
    r := Some(t - 1);
  }

  /** The copy loop of stpcpy_sp: it stops after the NUL or at the limit, whichever comes first. */
  method CopyLoop(buf: array<char>, start: nat, f: string, toLimit: nat) returns (t: nat)
    requires start < toLimit <= buf.Length
    requires '\0' !in f
    modifies buf
    ensures Fits(start, f, toLimit) ==> t == start + |f| + 1 && buf[..] == Splice(old(buf[..]), start, f + ['\0'])
    ensures !Fits(start, f, toLimit) ==> t == toLimit && buf[..] == Splice(old(buf[..]), start, f[..toLimit - start])
    ensures !Fits(start, f, toLimit) ==> buf[toLimit - 1] != '\0'
  {
    t := start;
    var k := 0;
    while t < toLimit
      invariant start <= t <= toLimit && k == t - start && k <= |f|
      invariant buf[..] == Splice(old(buf[..]), start, f[..k])
    {
      var ch := if k < |f| then f[k] else '\0';
      ghost var before := buf[..];
      SpliceStep(old(buf[..]), start, f[..k], ch);
      buf[t] := ch;
      assert buf[..] == before[t := ch];
      if ch == '\0' {
        assert f[..k] == f;
        t := t + 1;
        return;
      }
      TakeSnoc(f, k);
      t := t + 1;
      k := k + 1;
    }
    assert buf[toLimit - 1] == f[..k][k - 1];
  }

  /** Writing one more character right after a splice extends it. */
  lemma SpliceStep(s: seq<char>, at: nat, w: seq<char>, c: char)
    requires at + |w| < |s|
    ensures Splice(s, at, w)[at + |w| := c] == Splice(s, at, w + [c])
  {
    var a := Splice(s, at, w)[at + |w| := c];
    var b := Splice(s, at, w + [c]);
    assert forall i :: 0 <= i < |s| ==> a[i] == b[i];
  }

  /** Overwriting the last byte before the limit with a NUL turns the truncated copy into Writes. */
  lemma TruncatedWrite(s: seq<char>, to: nat, f: string, toLimit: nat)
    requires to + 1 < toLimit <= |s| && !Fits(to, f, toLimit)
    ensures Splice(s, to, f[..toLimit - to])[toLimit - 1 := '\0'] == Splice(s, to, Writes(to, Some(f), toLimit))
  {
    var a := Splice(s, to, f[..toLimit - to])[toLimit - 1 := '\0'];
    var b := Splice(s, to, Writes(to, Some(f), toLimit));
    assert forall i :: 0 <= i < |s| ==> a[i] == b[i];
  }

  // ---------------------------------------------------------------------
  // What a call leaves in the buffer

  /** A string that fits is copied whole, followed by its NUL, and the result points at that NUL. */
  lemma CopyFits(s: seq<char>, to: nat, from: string, toLimit: nat)
    requires toLimit <= |s| && to + 1 < toLimit && Fits(to, from, toLimit)
    ensures Result(Some(to), Some(from), toLimit) == Some(to + |from|)
    ensures var b := Splice(s, to, Writes(to, Some(from), toLimit));
      b[to..to + |from|] == from && b[to + |from|] == '\0'
  {
    var b := Splice(s, to, Writes(to, Some(from), toLimit));
    assert forall i :: 0 <= i < |from| ==> b[to..to + |from|][i] == from[i];
  }

  /**
   * A string that does not fit fills the buffer up to the limit, the last
   * byte before the limit becomes a NUL, and the result is NULL.
   */
  lemma CopyTruncates(s: seq<char>, to: nat, from: string, toLimit: nat)
    requires toLimit <= |s| && to + 1 < toLimit && !Fits(to, from, toLimit)
    ensures Result(Some(to), Some(from), toLimit).None?
    ensures var b := Splice(s, to, Writes(to, Some(from), toLimit));
      b[to..toLimit - 1] == from[..toLimit - 1 - to] && b[toLimit - 1] == '\0' &&
      b[toLimit..] == s[toLimit..]
  {
    var b := Splice(s, to, Writes(to, Some(from), toLimit));
    assert forall i :: 0 <= i < toLimit - 1 - to ==> b[to..toLimit - 1][i] == from[i];
  }

  /** Nothing at or past the limit is ever written, and nothing before `to`. */
  lemma WritesOnlyBetween(s: seq<char>, to: Option<nat>, from: Option<string>, toLimit: nat)
    requires toLimit <= |s|
    ensures var b := if Accepts(to, toLimit) then Splice(s, to.value, Writes(to.value, from, toLimit)) else s;
      b[toLimit..] == s[toLimit..] && (to.Some? && to.value <= toLimit ==> b[..to.value] == s[..to.value])
  {
  }

  /** With a NULL source nothing is copied and the result is the index before `to`. */
  lemma NullSource(s: seq<char>, to: nat, toLimit: nat)
    requires toLimit <= |s| && to + 1 < toLimit
    ensures Result(Some(to), None, toLimit) == Some(to as int - 1)
    ensures Splice(s, to, Writes(to, None, toLimit)) == s
  {
  }

  /**
   * Chaining: a second copy from the returned NUL appends to the first
   * string, and both together fit exactly when their lengths and one NUL do.
   */
  lemma CopyChains(s: seq<char>, to: nat, a: string, b: string, toLimit: nat)
    requires toLimit <= |s| && to + 1 < toLimit && Fits(to, a, toLimit)
    requires to + |a| + 1 < toLimit && Fits(to + |a|, b, toLimit)
    ensures var s1 := Splice(s, to, Writes(to, Some(a), toLimit));
      var s2 := Splice(s1, to + |a|, Writes(to + |a|, Some(b), toLimit));
      s2[to..to + |a| + |b| + 1] == a + b + ['\0'] && Result(Some(to + |a|), Some(b), toLimit) == Some(to + |a| + |b|)
  {
    var w1 := Writes(to, Some(a), toLimit);
    var w2 := Writes(to + |a|, Some(b), toLimit);
    assert w1 == a + ['\0'] && w2 == b + ['\0'];
    var s1 := Splice(s, to, w1);
    var s2 := Splice(s1, to + |a|, w2);
    var want := a + b + ['\0'];
    forall i | 0 <= i < |a| + |b| + 1
      ensures s2[to + i] == want[i]
    {
      if i < |a| {
        assert s2[to + i] == s1[to + i] == w1[i];
      } else {
        assert s2[to + |a| + (i - |a|)] == w2[i - |a|];
      }
    }
    assert s2[to..to + |a| + |b| + 1] == want;
  }
}
