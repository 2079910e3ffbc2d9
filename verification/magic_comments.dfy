/**
 * The rc.d magic comments read by parse_rc_d_script
 * (plugins/services/services_db.c): the leading block of
 * `# BEFORE:`, `# REQUIRE(S):`, `# PROVIDE(S):` and `# KEYWORD(S):` lines
 * of a script, each split into tokens on spaces, tabs and newlines.
 *
 * Lines are the logical lines fparseln would return; reading them is not
 * modelled.
 */
module MagicComments {
  import opened Common

  datatype Kind = Before | Require | Provide | Keyword

  /** rc_d_magic_comments: the prefixes, in the order they are tried, and what their tokens are. */
  const MAGIC: seq<(string, Kind)> := [
    ("# BEFORE:", Before),
    ("# REQUIRE:", Require),
    ("# REQUIRES:", Require),
    ("# PROVIDE:", Provide),
    ("# PROVIDES:", Provide),
    ("# KEYWORD:", Keyword),
    ("# KEYWORDS:", Keyword)
  ]

  predicate StartsWith(line: string, prefix: string) {
    |prefix| <= |line| && line[..|prefix|] == prefix
  }

  /** The first prefix from index i on that starts the line, its kind and the text after it. */
  function MatchFrom(line: string, i: nat): Option<(Kind, string)>
    requires i <= |MAGIC|
    decreases |MAGIC| - i
  {
    if i == |MAGIC| then None
    else if StartsWith(line, MAGIC[i].0) then Some((MAGIC[i].1, line[|MAGIC[i].0|..]))
    else MatchFrom(line, i + 1)
  }

  /**
   * A match is a prefix of the table from index i on, the first that
   * starts the line, with the text after it; no match means none of them
   * starts the line.
   */
  lemma {:induction false} MatchFromMeaning(line: string, i: nat)
    requires i <= |MAGIC|
    ensures MatchFrom(line, i).Some? ==>
      exists j :: i <= j < |MAGIC| && StartsWith(line, MAGIC[j].0) && MatchFrom(line, i).value == (MAGIC[j].1, line[|MAGIC[j].0|..])
            && forall j' :: i <= j' < j ==> !StartsWith(line, MAGIC[j'].0)
    ensures MatchFrom(line, i).None? <==> forall j :: i <= j < |MAGIC| ==> !StartsWith(line, MAGIC[j].0)
    decreases |MAGIC| - i
  {
    if i < |MAGIC| && !StartsWith(line, MAGIC[i].0) {
      MatchFromMeaning(line, i + 1);
    }
  }

  /** The magic prefix a line starts with, if any: the line is a magic line exactly when one of the seven starts it. */
  function Match(line: string): Option<(Kind, string)> {
    MatchFrom(line, 0)
  }

  predicate IsMagic(line: string) {
    Match(line).Some?
  }

  /** Every prefix starts with "# ". */
  lemma MagicTable()
    ensures forall j :: 0 <= j < |MAGIC| ==> |MAGIC[j].0| >= 2 && MAGIC[j].0[0] == '#' && MAGIC[j].0[1] == ' '
  {
  }

  /** Only an exact prefix counts: a line not starting with "# " is never a magic line. */
  lemma NeedsHashSpace(line: string)
    requires |line| < 2 || line[0] != '#' || line[1] != ' '
    ensures !IsMagic(line)
  {
    MagicTable();
    forall j | 0 <= j < |MAGIC|
      ensures !StartsWith(line, MAGIC[j].0)
    {
    }
    MatchFromMeaning(line, 0);
  }

  /**
   * No prefix of the table starts with an earlier one: where two share
   * their third character (REQUIRE/REQUIRES, PROVIDE/PROVIDES,
   * KEYWORD/KEYWORDS) they differ at the tenth, otherwise at the third.
   */
  lemma EarlierPrefixDiffers(i: nat, j: nat)
    requires j < i < |MAGIC|
    ensures var k := if MAGIC[j].0[2] == MAGIC[i].0[2] then 9 else 2;
      k < |MAGIC[j].0| && k < |MAGIC[i].0| && MAGIC[j].0[k] != MAGIC[i].0[k]
  {
  }

  /**
   * Every prefix of the table is taken by its own entry, whatever follows
   * it: the prefixes are tried in table order, yet "# REQUIRES:" is never
   * read as "# REQUIRE:", nor a plural form as its singular.
   */
  lemma OwnPrefixMatches(i: nat, rest: string)
    requires i < |MAGIC|
    ensures Match(MAGIC[i].0 + rest) == Some((MAGIC[i].1, rest))
  {
    var line := MAGIC[i].0 + rest;
    forall j | 0 <= j < i
      ensures !StartsWith(line, MAGIC[j].0)
    {
      EarlierPrefixDiffers(i, j);
      var k := if MAGIC[j].0[2] == MAGIC[i].0[2] then 9 else 2;
      assert line[k] == MAGIC[i].0[k];
    }
    assert line[..|MAGIC[i].0|] == MAGIC[i].0;
    assert line[|MAGIC[i].0|..] == rest;
    MatchFromMeaning(line, 0);
  }

  // ---------------------------------------------------------------------
  // strsep(&p, " \t\n")

  predicate IsDelim(c: char) {
    c == ' ' || c == '\t' || c == '\n'
  }

  /** Index of the first delimiter, or the length when there is none. */
  function FirstDelim(s: string): (k: nat)
    ensures k <= |s| && (k < |s| ==> IsDelim(s[k]))
    ensures forall i :: 0 <= i < k ==> !IsDelim(s[i])
    decreases |s|
  {
    if s == [] then 0
    else if IsDelim(s[0]) then 0
    else 1 + FirstDelim(s[1..])
  }

  /** One strsep call: the text up to the first delimiter, and the rest after it (NULL when there was no delimiter). */
  function Strsep(s: string): (r: (string, Option<string>))
    ensures r.1.Some? ==> |r.1.value| < |s|
  {
    var k := FirstDelim(s);
    if k == |s| then (s, None) else (s[..k], Some(s[k + 1..]))
  }

  /** Everything strsep returns until the pointer becomes NULL, empty fields included. */
  function Fields(s: string): seq<string>
    decreases |s|
  {
    var (t, r) := Strsep(s);
    if r.None? then [t] else [t] + Fields(r.value)
  }

  function NonEmpty(fs: seq<string>): (r: seq<string>)
    ensures forall i :: 0 <= i < |r| ==> r[i] != [] && r[i] in fs
    decreases |fs|
  {
    if fs == [] then []
    else (if fs[0] == [] then [] else [fs[0]]) + NonEmpty(fs[1..])
  }

  /** The tokens handed to a handler: the non-empty fields. */
  function Tokens(s: string): seq<string> {
    NonEmpty(Fields(s))
  }

  function Concat(ts: seq<string>): string
    decreases |ts|
  {
    if ts == [] then [] else ts[0] + Concat(ts[1..])
  }

  function WithoutDelims(s: string): (r: string)
    decreases |s|
  {
    if s == [] then [] else (if IsDelim(s[0]) then [] else [s[0]]) + WithoutDelims(s[1..])
  }

  lemma WithoutDelimsPlain(a: string)
    requires forall i :: 0 <= i < |a| ==> !IsDelim(a[i])
    ensures WithoutDelims(a) == a
    decreases |a|
  {
    if a != [] {
      WithoutDelimsPlain(a[1..]);
    }
  }

  lemma ConcatAppend(x: seq<string>, y: seq<string>)
    ensures Concat(x + y) == Concat(x) + Concat(y)
    decreases |x|
  {
    if x != [] {
      assert (x + y)[0] == x[0];
      assert (x + y)[1..] == x[1..] + y;
      ConcatAppend(x[1..], y);
    } else {
      assert x + y == y;
    }
  }

  lemma ConcatNonEmpty(fs: seq<string>)
    ensures Concat(NonEmpty(fs)) == Concat(fs)
    decreases |fs|
  {
    if fs != [] {
      ConcatNonEmpty(fs[1..]);
      ConcatAppend(if fs[0] == [] then [] else [fs[0]], NonEmpty(fs[1..]));
    }
  }

  predicate Plain(t: string) {
    forall j :: 0 <= j < |t| ==> !IsDelim(t[j])
  }

  /** Each field is free of delimiters. */
  lemma {:induction false} FieldsPlain(s: string)
    ensures forall i :: 0 <= i < |Fields(s)| ==> Plain(Fields(s)[i])
    decreases |s|
  {
    var k := FirstDelim(s);
    if k < |s| {
      FieldsPlain(s[k + 1..]);
    }
  }

  /** Together the fields are the text without its delimiters. */
  lemma {:induction false} FieldsCover(s: string)
    ensures Concat(Fields(s)) == WithoutDelims(s)
    decreases |s|
  {
    var k := FirstDelim(s);
    FieldsUnfold(s);
    if k == |s| {
      WithoutDelimsPlain(s);
      ConcatCons(s, []);
    } else {
      FieldsCover(s[k + 1..]);
      ConcatCons(s[..k], Fields(s[k + 1..]));
      WithoutDelimsSplit(s, k);
    }
  }

  /** Fields, one strsep step at a time. */
  lemma FieldsUnfold(s: string)
    ensures FirstDelim(s) == |s| ==> Fields(s) == [s]
    ensures FirstDelim(s) < |s| ==> Fields(s) == [s[..FirstDelim(s)]] + Fields(s[FirstDelim(s) + 1..])
  {
    var k := FirstDelim(s);
    if k == |s| {
      assert s[..k] == s;
    }
  }

  lemma ConcatCons(t: string, fs: seq<string>)
    ensures Concat([t] + fs) == t + Concat(fs)
  {
    assert ([t] + fs)[0] == t && ([t] + fs)[1..] == fs;
  }

  /** Removing delimiters around a delimiter at index k that is the first one. */
  lemma {:induction false} WithoutDelimsSplit(s: string, k: nat)
    requires k < |s| && IsDelim(s[k]) && forall i :: 0 <= i < k ==> !IsDelim(s[i])
    ensures WithoutDelims(s) == s[..k] + WithoutDelims(s[k + 1..])
    decreases k
  {
    if k == 0 {
      assert s[1..] == s[k + 1..];
    } else {
      var tail := s[1..];
      assert forall i :: 0 <= i < k - 1 ==> tail[i] == s[i + 1];
      WithoutDelimsSplit(tail, k - 1);
      assert tail[k..] == s[k + 1..];
      assert [s[0]] + tail[..k - 1] == s[..k];
    }
  }

  /**
   * The tokens are non-empty, contain no space, tab or newline, and
   * concatenated give back the text with its delimiters removed: strsep
   * with empty fields dropped splits on every run of delimiters.
   */
  lemma TokensSplit(s: string)
    ensures forall i :: 0 <= i < |Tokens(s)| ==> Tokens(s)[i] != [] && Plain(Tokens(s)[i])
    ensures Concat(Tokens(s)) == WithoutDelims(s)
  {
    FieldsPlain(s);
    FieldsCover(s);
    ConcatNonEmpty(Fields(s));
  }

  /** One strsep step: the first field's token, if it is not empty, then the tokens of what follows. */
  lemma TokensStep(s: string)
    ensures Tokens(s) ==
      (if Strsep(s).0 == [] then [] else [Strsep(s).0]) + (if Strsep(s).1.Some? then Tokens(Strsep(s).1.value) else [])
  {
    var (t, r) := Strsep(s);
    var fs := Fields(s);
    var rest := if r.Some? then Fields(r.value) else [];
    assert fs == [t] + rest;
    assert fs[0] == t && fs[1..] == rest;
    assert NonEmpty(fs) == (if t == [] then [] else [t]) + NonEmpty(rest);
  }

  /** The loop over rc_d_magic_comments: the first prefix, in table order, that starts the line. */
  method MatchMagic(line: string) returns (r: Option<(Kind, string)>)
    ensures r == Match(line)
  {
    var i := 0;
    while i < |MAGIC|
      invariant i <= |MAGIC| && MatchFrom(line, i) == Match(line)
    {
      if StartsWith(line, MAGIC[i].0) {
        return Some((MAGIC[i].1, line[|MAGIC[i].0|..]));
      }
      i := i + 1;
    }
    return None;
  }

  // ---------------------------------------------------------------------
  // The line loop

  /** A token of a magic line, with the kind of its prefix. */
  datatype Directive = Directive(kind: Kind, token: string)

  /** The tokens ts, each tagged with kind k. */
  function Tag(k: Kind, ts: seq<string>): (r: seq<Directive>)
    ensures |r| == |ts| && forall i :: 0 <= i < |r| ==> r[i] == Directive(k, ts[i])
  {
    seq(|ts|, i requires 0 <= i < |ts| => Directive(k, ts[i]))
  }

  /** What one magic line hands to its prefix's handler: each token of the rest of the line, in order. */
  function LineDirectives(k: Kind, rest: string): seq<Directive> {
    Tag(k, Tokens(rest))
  }

  /** The directive one strsep field gives: none for an empty field. */
  function FieldOf(k: Kind, t: string): seq<Directive> {
    if t == [] then [] else [Directive(k, t)]
  }

  /** One turn of the strsep loop, with the directives found so far. */
  lemma FieldTurn(k: Kind, rest: string, done: seq<Directive>, v: string)
    requires LineDirectives(k, rest) == done + LineDirectives(k, v)
    ensures LineDirectives(k, rest) ==
      (done + FieldOf(k, Strsep(v).0)) + (if Strsep(v).1.Some? then LineDirectives(k, Strsep(v).1.value) else [])
  {
    TokensStep(v);
    var (t, r) := Strsep(v);
    var more := if r.Some? then Tokens(r.value) else [];
    var first := if t == [] then [] else [t];
    assert Tokens(v) == first + more;
    TagAppend(k, first, more);
    var later := if r.Some? then LineDirectives(k, r.value) else [];
    assert Tag(k, more) == later;
    assert Tag(k, first) == FieldOf(k, t);
    assert LineDirectives(k, v) == FieldOf(k, t) + later;
    ConcatAssoc(done, FieldOf(k, t), later);
  }

  lemma TagAppend(k: Kind, a: seq<string>, b: seq<string>)
    ensures Tag(k, a + b) == Tag(k, a) + Tag(k, b)
  {
  }

  datatype ParseState = ParsingBefore | ParsingPending | ParsingDone

  /** parse_rc_d_script's loop from state st over the remaining lines: the directives it hands to the handlers. */
  function Scan(lines: seq<string>, st: ParseState): seq<Directive>
    decreases |lines|
  {
    if lines == [] || st == ParsingDone then []
    else
      match Match(lines[0])
      case Some((k, rest)) => LineDirectives(k, rest) + Scan(lines[1..], ParsingPending)
      case None => Scan(lines[1..], if st == ParsingBefore then ParsingBefore else ParsingDone)
  }

  /** One turn of the loop, from line i in state st. */
  lemma ScanStep(lines: seq<string>, i: nat, st: ParseState)
    requires i < |lines| && st != ParsingDone
    ensures Scan(lines[i..], st) ==
      if Match(lines[i]).Some? then LineDirectives(Match(lines[i]).value.0, Match(lines[i]).value.1) + Scan(lines[i + 1..], ParsingPending)
      else Scan(lines[i + 1..], if st == ParsingBefore then ParsingBefore else ParsingDone)
  {
    assert lines[i..][0] == lines[i] && lines[i..][1..] == lines[i + 1..];
  }

  /** The directives one line hands to the handlers: those of its magic comment, or none. */
  function LineOf(line: string): seq<Directive> {
    match Match(line)
    case Some((k, rest)) => LineDirectives(k, rest)
    case None => []
  }

  /** The state after a line: PENDING after a magic line, DONE after any other once a magic line was seen. */
  function Next(st: ParseState, line: string): ParseState {
    if Match(line).Some? then ParsingPending
    else if st == ParsingBefore then ParsingBefore
    else ParsingDone
  }

  /** One turn of the loop, with the directives found so far. */
  lemma ScanTurn(lines: seq<string>, i: nat, st: ParseState, done: seq<Directive>)
    requires i < |lines| && st != ParsingDone
    requires Scan(lines, ParsingBefore) == done + Scan(lines[i..], st)
    ensures Scan(lines, ParsingBefore) == (done + LineOf(lines[i])) + Scan(lines[i + 1..], Next(st, lines[i]))
  {
    ScanStep(lines, i, st);
    var tail := Scan(lines[i + 1..], Next(st, lines[i]));
    ConcatAssoc(done, LineOf(lines[i]), tail);
    if Match(lines[i]).None? {
      assert LineOf(lines[i]) + tail == tail;
    }
  }

  // ---------------------------------------------------------------------
  // The leading block, stated outright

  /** Index of the first magic line, or the number of lines. */
  function FirstMagic(lines: seq<string>): (k: nat)
    ensures k <= |lines| && (k < |lines| ==> IsMagic(lines[k]))
    ensures forall i :: 0 <= i < k ==> !IsMagic(lines[i])
    decreases |lines|
  {
    if lines == [] then 0
    else if IsMagic(lines[0]) then 0
    else 1 + FirstMagic(lines[1..])
  }

  /** Number of magic lines at the start. */
  function MagicRun(lines: seq<string>): (k: nat)
    ensures k <= |lines| && (k < |lines| ==> !IsMagic(lines[k]))
    ensures forall i :: 0 <= i < k ==> IsMagic(lines[i])
    decreases |lines|
  {
    if lines == [] || !IsMagic(lines[0]) then 0
    else 1 + MagicRun(lines[1..])
  }

  /** The magic block: from the first magic line up to the first line after it that is not one. */
  function Block(lines: seq<string>): seq<string> {
    var a := FirstMagic(lines);
    lines[a..][..MagicRun(lines[a..])]
  }

  function BlockDirectives(block: seq<string>): seq<Directive>
    requires forall i :: 0 <= i < |block| ==> IsMagic(block[i])
    decreases |block|
  {
    if block == [] then []
    else
      assert IsMagic(block[0]);
      LineDirectives(Match(block[0]).value.0, Match(block[0]).value.1) + BlockDirectives(block[1..])
  }

  lemma {:induction false} ScanPending(lines: seq<string>)
    ensures Scan(lines, ParsingPending) == BlockDirectives(lines[..MagicRun(lines)])
    decreases |lines|
  {
    if lines != [] && IsMagic(lines[0]) {
      ScanPending(lines[1..]);
      assert lines[..MagicRun(lines)][1..] == lines[1..][..MagicRun(lines[1..])];
    }
  }

  lemma {:induction false} ScanBefore(lines: seq<string>)
    ensures Scan(lines, ParsingBefore) == Scan(lines[FirstMagic(lines)..], ParsingBefore)
    decreases |lines|
  {
    if lines != [] && !IsMagic(lines[0]) {
      ScanBefore(lines[1..]);
      assert lines[FirstMagic(lines)..] == lines[1..][FirstMagic(lines[1..])..];
    }
  }

  /**
   * Lines before the first magic line are skipped, the magic lines that
   * follow it are parsed in order, and the first line that is not a magic
   * line ends parsing: the directives are exactly those of the block.
   */
  lemma MagicBlockParsed(lines: seq<string>)
    ensures Scan(lines, ParsingBefore) == BlockDirectives(Block(lines))
  {
    ScanBefore(lines);
    var tail := lines[FirstMagic(lines)..];
    if tail != [] {
      ScanPending(tail[1..]);
      assert tail[..MagicRun(tail)][1..] == tail[1..][..MagicRun(tail[1..])];
    }
  }

  /** The tokens of one kind, in order. */
  function TokensOf(ds: seq<Directive>, k: Kind): (r: seq<string>)
    decreases |ds|
  {
    if ds == [] then []
    else TokensOf(ds[..|ds| - 1], k) + (if ds[|ds| - 1].kind == k then [ds[|ds| - 1].token] else [])
  }

  lemma {:induction false} TokensOfAppend(a: seq<Directive>, b: seq<Directive>, k: Kind)
    ensures TokensOf(a + b, k) == TokensOf(a, k) + TokensOf(b, k)
    decreases |b|
  {
    if b == [] {
      assert a + b == a;
    } else {
      var b' := b[..|b| - 1];
      assert (a + b)[..|a + b| - 1] == a + b';
      TokensOfAppend(a, b', k);
    }
  }

  /** A line's tokens all go to its own kind's handler, in order, and to no other. */
  lemma {:induction false} TokensOfTag(k: Kind, ts: seq<string>, k': Kind)
    ensures TokensOf(Tag(k, ts), k') == if k == k' then ts else []
    decreases |ts|
  {
    if ts != [] {
      var ts' := ts[..|ts| - 1];
      assert Tag(k, ts)[..|ts| - 1] == Tag(k, ts');
      TokensOfTag(k, ts', k');
    }
  }
}
