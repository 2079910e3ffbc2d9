/**
 * The script graph of plugins/services/services_db.c as values: scripts
 * live in an arena (a sequence indexed by script id) and refer to one
 * another by id, the way the C code's DLists of rc_d_script_t pointers do.
 * This module holds the specification functions the database methods are
 * proved against, and the facts about them.
 */
module ServicesGraph {
  import opened Common
  import opened MagicComments
  import opened Rcorder

  /**
   * rc_d_script_t without its links: its name, the owning package, and the
   * raw BEFORE, REQUIRE and KEYWORD names. The resolved children and
   * parents lists are kept beside the arena, one list per script id.
   */
  datatype Script = Script(
    name: string,
    package: Option<string>,
    befores: seq<string>,
    requirements: seq<string>,
    keywords: seq<string>)

  /** One list of script ids per script id: the children lists, or the parents lists. */
  type Adj = seq<seq<nat>>

  /** package_t: the scripts the package owns, and the scripts that need a shared library it provides. */
  datatype Package = Package(scripts: seq<nat>, rshlibs: seq<nat>)

  predicate NoDup<T(==)>(xs: seq<T>) {
    forall a, b :: 0 <= a < b < |xs| ==> xs[a] != xs[b]
  }

  // ---------------------------------------------------------------------
  // dlist_insert_unique and set_parenthood

  /** dlist_insert_unique: append v unless it is already there. */
  function InsertUnique(xs: seq<nat>, v: nat): (r: seq<nat>)
    ensures forall x :: x in r <==> x in xs || x == v
    ensures NoDup(xs) ==> NoDup(r)
    ensures |xs| <= |r| && r[..|xs|] == xs
  {
    if v in xs then xs else xs + [v]
  }

  /** p has c as a child. */
  predicate HasLink(ch: Adj, p: int, c: int) {
    0 <= p < |ch| && c in ch[p]
  }

  /** Every link is stored in both directions, between existing scripts, at most once. */
  predicate Graph(ch: Adj, pa: Adj) {
    |ch| == |pa| &&
    (forall i, c :: 0 <= i < |ch| && c in ch[i] ==> c < |ch|) &&
    (forall i, p :: 0 <= i < |pa| && p in pa[i] ==> p < |pa|) &&
    (forall p, c :: 0 <= p < |ch| && 0 <= c < |ch| ==> (c in ch[p] <==> p in pa[c])) &&
    (forall i :: 0 <= i < |ch| ==> NoDup(ch[i]) && NoDup(pa[i]))
  }

  /** A new script without links keeps the shape. */
  lemma AppendUnlinked(ch: Adj, pa: Adj)
    requires Graph(ch, pa)
    ensures Graph(ch + [[]], pa + [[]])
  {
    assert forall i :: 0 <= i < |ch| ==> (ch + [[]])[i] == ch[i] && (pa + [[]])[i] == pa[i];
  }

  /** set_parenthood(parent, child): the child list of p, then the parent list of c. */
  function LinkChildren(ch: Adj, p: nat, c: nat): Adj
    requires p < |ch|
  {
    ch[p := InsertUnique(ch[p], c)]
  }

  function LinkParents(pa: Adj, p: nat, c: nat): Adj
    requires c < |pa|
  {
    pa[c := InsertUnique(pa[c], p)]
  }

  /** set_parenthood adds exactly the link from p to c, keeps both directions and stores each link once. */
  lemma LinkAdds(ch: Adj, pa: Adj, p: nat, c: nat)
    requires p < |ch| && c < |ch| && Graph(ch, pa)
    ensures Graph(LinkChildren(ch, p, c), LinkParents(pa, p, c))
    ensures forall a, b :: HasLink(LinkChildren(ch, p, c), a, b) <==> HasLink(ch, a, b) || (a == p && b == c)
  {
  }

  // ---------------------------------------------------------------------
  // Edge resolution, stated outright

  /** The providers recorded for a name; none when the name was never provided. */
  function Get(m: map<string, seq<nat>>, x: string): seq<nat> {
    if x in m then m[x] else []
  }

  /** Some name of xs is provided by v. */
  predicate Via(prov: map<string, seq<nat>>, xs: seq<string>, v: nat) {
    exists k :: 0 <= k < |xs| && v in Get(prov, xs[k])
  }

  lemma ViaSnoc(prov: map<string, seq<nat>>, xs: seq<string>, j: nat, v: nat)
    requires j < |xs|
    ensures Via(prov, xs[..j + 1], v) <==> Via(prov, xs[..j], v) || v in Get(prov, xs[j])
  {
    if Via(prov, xs[..j + 1], v) {
      var k :| 0 <= k < j + 1 && v in Get(prov, xs[..j + 1][k]);
      if k < j {
        assert xs[..j][k] == xs[k];
      }
    }
    if Via(prov, xs[..j], v) {
      var k :| 0 <= k < j && v in Get(prov, xs[..j][k]);
      assert xs[..j + 1][k] == xs[k];
    }
    if v in Get(prov, xs[j]) {
      assert xs[..j + 1][j] == xs[j];
    }
  }

  /**
   * The links resolution makes: p is a parent of c when c REQUIREs a name
   * p PROVIDEs, or when p is BEFORE a name c PROVIDEs.
   */
  predicate Linked(s: seq<Script>, prov: map<string, seq<nat>>, p: nat, c: nat) {
    (c < |s| && Via(prov, s[c].requirements, p)) || (p < |s| && Via(prov, s[p].befores, c))
  }

  /** The links resolution makes from the first n scripts' own REQUIRE and BEFORE lines. */
  predicate LinkedBelow(s: seq<Script>, prov: map<string, seq<nat>>, n: nat, p: nat, c: nat) {
    (c < n && c < |s| && Via(prov, s[c].requirements, p)) || (p < n && p < |s| && Via(prov, s[p].befores, c))
  }

  /** One more script's lines: the links its REQUIRE and BEFORE names resolve to. */
  lemma LinkedBelowSnoc(s: seq<Script>, prov: map<string, seq<nat>>, i: nat, p: nat, c: nat)
    requires i < |s|
    ensures LinkedBelow(s, prov, i + 1, p, c) <==>
      LinkedBelow(s, prov, i, p, c) || (c == i && Via(prov, s[i].requirements, p)) || (p == i && Via(prov, s[i].befores, c))
  {
  }

  // ---------------------------------------------------------------------
  // Roots

  /** The scripts among the first n without parents, in arena order. */
  function RootsOf(pa: Adj, n: nat): (r: seq<nat>)
    requires n <= |pa|
    ensures forall x :: x in r <==> 0 <= x < n && pa[x] == []
    ensures forall a, b :: 0 <= a < b < |r| ==> r[a] < r[b]
    decreases n
  {
    if n == 0 then []
    else
      var r0 := RootsOf(pa, n - 1);
      assert forall a :: 0 <= a < |r0| ==> r0[a] in r0;
      r0 + (if pa[n - 1] == [] then [n - 1] else [])
  }

  // ---------------------------------------------------------------------
  // Reachability along children links

  predicate IsPath(ch: Adj, path: seq<nat>) {
    |path| > 0 && forall k :: 0 <= k < |path| - 1 ==> HasLink(ch, path[k], path[k + 1])
  }

  /** b can be reached from a by following children links (possibly none). */
  ghost predicate Reach(ch: Adj, a: nat, b: nat) {
    exists path :: IsPath(ch, path) && path[0] == a && path[|path| - 1] == b
  }

  /** No link closes a cycle. */
  ghost predicate Acyclic(ch: Adj) {
    forall p, c :: HasLink(ch, p, c) ==> !Reach(ch, c, p)
  }

  lemma ReachRefl(ch: Adj, a: nat)
    ensures Reach(ch, a, a)
  {
    assert IsPath(ch, [a]);
  }

  /** Whatever a child reaches, its parent reaches. */
  lemma ReachFromChild(ch: Adj, p: nat, c: nat)
    requires HasLink(ch, p, c)
    ensures forall v :: Reach(ch, c, v) ==> Reach(ch, p, v)
  {
    forall v | Reach(ch, c, v)
      ensures Reach(ch, p, v)
    {
      var path :| IsPath(ch, path) && path[0] == c && path[|path| - 1] == v;
      var path' := [p] + path;
      assert forall k :: 0 <= k < |path'| - 1 ==> HasLink(ch, path'[k], path'[k + 1]) by {
        forall k | 0 <= k < |path'| - 1
          ensures HasLink(ch, path'[k], path'[k + 1])
        {
          if k > 0 {
            assert path'[k] == path[k - 1] && path'[k + 1] == path[k];
          }
        }
      }
      assert IsPath(ch, path');
    }
  }

  /** A set of scripts that holds the children of each of its members. */
  predicate Closed(ch: Adj, visited: set<nat>) {
    forall v, c :: v in visited && 0 <= v < |ch| && c in ch[v] ==> c in visited
  }

  lemma {:induction false} ClosedPath(ch: Adj, visited: set<nat>, path: seq<nat>)
    requires Closed(ch, visited) && IsPath(ch, path) && path[0] in visited
    ensures path[|path| - 1] in visited
    decreases |path|
  {
    if |path| > 1 {
      assert HasLink(ch, path[0], path[1]);
      var tail := path[1..];
      assert IsPath(ch, tail) by {
        forall k | 0 <= k < |tail| - 1
          ensures HasLink(ch, tail[k], tail[k + 1])
        {
          assert HasLink(ch, path[k + 1], path[k + 2]);
        }
      }
      ClosedPath(ch, visited, tail);
    }
  }

  /** A closed set holds everything its members reach. */
  lemma ClosedHoldsReach(ch: Adj, visited: set<nat>, a: nat, b: nat)
    requires Closed(ch, visited) && a in visited && Reach(ch, a, b)
    ensures b in visited
  {
    var path :| IsPath(ch, path) && path[0] == a && path[|path| - 1] == b;
    ClosedPath(ch, visited, path);
  }

  /** Reaching a script from another one goes through one of its parents. */
  lemma ReachedHasParent(ch: Adj, pa: Adj, a: nat, r: nat)
    requires Graph(ch, pa) && r < |ch| && Reach(ch, a, r) && a != r
    ensures pa[r] != []
  {
    var path :| IsPath(ch, path) && path[0] == a && path[|path| - 1] == r;
    var p := path[|path| - 2];
    assert HasLink(ch, p, r);
    assert p in pa[r];
  }

  /** Only a root reaches a root: a script without parents is nobody's child. */
  lemma OnlyRootReachesRoot(ch: Adj, pa: Adj, a: nat, r: nat)
    requires Graph(ch, pa) && r < |ch| && pa[r] == [] && Reach(ch, a, r)
    ensures a == r
  {
    if a != r {
      ReachedHasParent(ch, pa, a, r);
    }
  }

  // ---------------------------------------------------------------------
  // The depth-first visit

  /** Every child id names a script. */
  predicate ChildrenBelow(ch: Adj) {
    forall i, c :: 0 <= i < |ch| && c in ch[i] ==> c < |ch|
  }

  predicate Below(xs: set<nat>, n: nat) {
    forall x :: x in xs ==> x < n
  }

  /** The ids below n. */
  function Ids(n: nat): (r: set<nat>)
    ensures forall x: nat :: x in r <==> x < n
  {
    if n == 0 then {} else Ids(n - 1) + {n - 1}
  }

  /** Every visited script that is no longer on the stack of the visit has all its children visited. */
  predicate Finished(ch: Adj, visited: set<nat>, stack: set<nat>) {
    forall u, c :: u in visited && u !in stack && 0 <= u < |ch| && c in ch[u] ==> c in visited
  }

  /**
   * What has been emitted: each script at most once, and exactly the kept
   * visited ones, except, in post-order, those whose visit is not over.
   */
  ghost predicate Emission(kept: set<nat>, visited: set<nat>, stack: set<nat>, reverse: bool, out: seq<nat>) {
    NoDup(out) && forall x :: x in out <==> x in visited && x in kept && (reverse || x !in stack)
  }

  /** No emitted script comes before one of its children. */
  predicate ChildrenFirst(ch: Adj, out: seq<nat>) {
    forall i, j :: 0 <= i < j < |out| ==> !HasLink(ch, out[i], out[j])
  }

  /**
   * Where a visit may start: the stack is visited, every visited script is
   * an existing one, those off the stack are finished, and emission is up
   * to date.
   */
  ghost predicate Ready(ch: Adj, kept: set<nat>, reverse: bool, stack: set<nat>, visited: set<nat>, out: seq<nat>) {
    stack <= visited && Below(visited, |ch|) && Finished(ch, visited, stack) && Emission(kept, visited, stack, reverse, out)
  }

  /**
   * What a visit of v from (visited0, out0) leaves: v is visited, the new
   * scripts are reached from v, the visit may start again elsewhere, out0 is
   * kept as a prefix, a kept v comes first (pre-order) or last (post-order)
   * of what the visit emitted, and in post-order on an acyclic graph no
   * parent precedes one of its children.
   */
  ghost predicate Done(ch: Adj, kept: set<nat>, reverse: bool, v: nat, stack: set<nat>,
                       visited0: set<nat>, out0: seq<nat>, visited: set<nat>, out: seq<nat>) {
    visited0 + {v} <= visited && Ready(ch, kept, reverse, stack, visited, out) &&
    (forall x :: x in visited && x !in visited0 ==> Reach(ch, v, x)) &&
    |out0| <= |out| && out[..|out0|] == out0 &&
    (v in kept && reverse ==> |out0| < |out| && out[|out0|] == v) &&
    (v in kept && !reverse ==> |out0| < |out| && out[|out| - 1] == v) &&
    (!reverse && Acyclic(ch) && ChildrenFirst(ch, out0) ==> ChildrenFirst(ch, out))
  }

  /**
   * The state of a visit of v while its children are being visited: v and
   * what its visit added are visited and reached from v, the state is ready
   * for a visit with v on the stack, head (what was emitted on entry) stays
   * a prefix, and in post-order on an acyclic graph no parent precedes a
   * child.
   */
  ghost predicate Progress(ch: Adj, kept: set<nat>, reverse: bool, v: nat, stack: set<nat>,
                           visited0: set<nat>, out0: seq<nat>, head: seq<nat>, visited: set<nat>, out: seq<nat>) {
    visited0 + {v} <= visited && Ready(ch, kept, reverse, stack + {v}, visited, out) &&
    (forall x :: x in visited && x !in visited0 ==> Reach(ch, v, x)) &&
    |head| <= |out| && out[..|head|] == head &&
    (!reverse && Acyclic(ch) && ChildrenFirst(ch, out0) ==> ChildrenFirst(ch, out))
  }

  /** Entering v: it is visited, on the stack, and emitted at once in pre-order. */
  lemma VisitEnter(ch: Adj, kept: set<nat>, reverse: bool, v: nat, stack: set<nat>, visited: set<nat>, out: seq<nat>, keep: bool)
    requires v < |ch| && v !in visited && keep == (v in kept)
    requires Ready(ch, kept, reverse, stack, visited, out)
    ensures var head := out + (if keep && reverse then [v] else []);
      Progress(ch, kept, reverse, v, stack, visited, out, head, visited + {v}, head)
  {
    var out' := out + (if keep && reverse then [v] else []);
    assert v !in out;
    forall x
      ensures x in out' <==> x in visited + {v} && x in kept && (reverse || x !in stack + {v})
    {
      assert x in out' <==> x in out || (keep && reverse && x == v);
    }
    ReachRefl(ch, v);
    assert forall x :: x in visited + {v} && x !in visited ==> x == v;
    if !reverse && keep {
      assert out' == out;
    }
  }

  /** Back from the visit of child c: the visit of v is still in order. */
  lemma VisitChild(ch: Adj, kept: set<nat>, reverse: bool, v: nat, c: nat, stack: set<nat>, visited0: set<nat>, out0: seq<nat>,
                   head: seq<nat>, visited1: set<nat>, out1: seq<nat>, visited2: set<nat>, out2: seq<nat>)
    requires v < |ch| && c in ch[v]
    requires Progress(ch, kept, reverse, v, stack, visited0, out0, head, visited1, out1)
    requires Done(ch, kept, reverse, c, stack + {v}, visited1, out1, visited2, out2)
    ensures Progress(ch, kept, reverse, v, stack, visited0, out0, head, visited2, out2)
    ensures visited1 + {c} <= visited2
  {
    ReachFromChild(ch, v, c);
    assert out2[..|head|] == out2[..|out1|][..|head|];
  }

  /**
   * Leaving v once all its children are visited: it leaves the stack and is
   * emitted in post-order. In post-order nothing emitted so far is a parent
   * of v: a script emitted before v's visit had all its children visited
   * already, and one emitted during it is reached from v, so a link back to
   * v would close a cycle.
   */
  lemma VisitLeave(ch: Adj, kept: set<nat>, reverse: bool, v: nat, stack: set<nat>, visited0: set<nat>, out0: seq<nat>,
                   head: seq<nat>, visited: set<nat>, out: seq<nat>, keep: bool)
    requires v < |ch| && v !in visited0 && keep == (v in kept)
    requires head == out0 + (if keep && reverse then [v] else [])
    requires Ready(ch, kept, reverse, stack, visited0, out0)
    requires Progress(ch, kept, reverse, v, stack, visited0, out0, head, visited, out)
    requires forall c :: c in ch[v] ==> c in visited
    ensures Done(ch, kept, reverse, v, stack, visited0, out0, visited, out + (if keep && !reverse then [v] else []))
  {
    var out' := out + (if keep && !reverse then [v] else []);
    assert !reverse ==> v !in out;
    forall x
      ensures x in out' <==> x in visited && x in kept && (reverse || x !in stack)
    {
      assert x in out' <==> x in out || (keep && !reverse && x == v);
    }
    assert out'[..|out0|] == head[..|out0|];
    if keep && reverse {
      assert out'[|out0|] == head[|out0|];
    }
    if keep && !reverse && Acyclic(ch) && ChildrenFirst(ch, out0) {
      forall x | x in out
        ensures !HasLink(ch, x, v)
      {
        if x !in visited0 {
          assert Reach(ch, v, x);
        }
      }
      ChildrenFirstSnoc(ch, out, v);
    }
  }

  lemma ChildrenFirstSnoc(ch: Adj, out: seq<nat>, v: nat)
    requires ChildrenFirst(ch, out) && forall x :: x in out ==> !HasLink(ch, x, v)
    ensures ChildrenFirst(ch, out + [v])
  {
    forall i, j | 0 <= i < j < |out + [v]|
      ensures !HasLink(ch, (out + [v])[i], (out + [v])[j])
    {
      if j == |out| {
        assert (out + [v])[i] in out;
      }
    }
  }

  /** The state of services_db_rcorder_iter after the visits from the first i roots. */
  ghost predicate Iterated(ch: Adj, kept: set<nat>, reverse: bool, rs: seq<nat>, i: nat, visited: set<nat>, out: seq<nat>) {
    i <= |rs| && Ready(ch, kept, reverse, {}, visited, out) &&
    (forall j :: 0 <= j < i ==> rs[j] in visited) &&
    (forall x :: x in visited ==> ReachedFrom(ch, rs[..i], x)) &&
    (!reverse && Acyclic(ch) ==> ChildrenFirst(ch, out))
  }

  lemma IterStart(ch: Adj, kept: set<nat>, reverse: bool, rs: seq<nat>)
    ensures Iterated(ch, kept, reverse, rs, 0, {}, [])
  {
  }

  /** The visit from root i leaves the loop in order. */
  lemma IterStep(ch: Adj, kept: set<nat>, reverse: bool, rs: seq<nat>, i: nat,
                 visited1: set<nat>, out1: seq<nat>, visited2: set<nat>, out2: seq<nat>)
    requires i < |rs| && Iterated(ch, kept, reverse, rs, i, visited1, out1)
    requires Done(ch, kept, reverse, rs[i], {}, visited1, out1, visited2, out2)
    ensures Iterated(ch, kept, reverse, rs, i + 1, visited2, out2)
  {
    forall x | x in visited2
      ensures ReachedFrom(ch, rs[..i + 1], x)
    {
      ReachedFromSnoc(ch, rs, i, x);
    }
  }

  /**
   * After the visits from every root: each script is emitted at most once,
   * exactly the kept ones some root reaches are, and in post-order on an
   * acyclic graph no parent precedes one of its children.
   */
  lemma IterEnd(ch: Adj, kept: set<nat>, reverse: bool, rs: seq<nat>, visited: set<nat>, out: seq<nat>)
    requires Iterated(ch, kept, reverse, rs, |rs|, visited, out)
    ensures NoDup(out)
    ensures forall x :: x in out <==> x in kept && ReachedFrom(ch, rs, x)
    ensures !reverse && Acyclic(ch) ==> ChildrenFirst(ch, out)
  {
    assert rs[..|rs|] == rs;
    assert Closed(ch, visited);
    forall x | x in kept && ReachedFrom(ch, rs, x)
      ensures x in visited
    {
      var j :| 0 <= j < |rs| && Reach(ch, rs[j], x);
      ClosedHoldsReach(ch, visited, rs[j], x);
    }
  }

  /** Some script of rs reaches x. */
  ghost predicate ReachedFrom(ch: Adj, rs: seq<nat>, x: nat) {
    exists j :: 0 <= j < |rs| && Reach(ch, rs[j], x)
  }

  lemma ReachedFromSnoc(ch: Adj, rs: seq<nat>, i: nat, x: nat)
    requires i < |rs|
    ensures ReachedFrom(ch, rs[..i + 1], x) <==> ReachedFrom(ch, rs[..i], x) || Reach(ch, rs[i], x)
  {
    if ReachedFrom(ch, rs[..i + 1], x) {
      var j :| 0 <= j < i + 1 && Reach(ch, rs[..i + 1][j], x);
      if j < i {
        assert rs[..i][j] == rs[j];
      }
    }
    if ReachedFrom(ch, rs[..i], x) {
      var j :| 0 <= j < i && Reach(ch, rs[..i][j], x);
      assert rs[..i + 1][j] == rs[j];
    }
    if Reach(ch, rs[i], x) {
      assert rs[..i + 1][i] == rs[i];
    }
  }

  /** A root is never reached from an earlier root, so the visit from each root starts afresh. */
  lemma RootUnvisited(ch: Adj, pa: Adj, rs: seq<nat>, i: nat, visited: set<nat>)
    requires Graph(ch, pa) && i < |rs| && rs[i] < |ch| && pa[rs[i]] == []
    requires forall a, b :: 0 <= a < b < |rs| ==> rs[a] < rs[b]
    requires forall x :: x in visited ==> ReachedFrom(ch, rs[..i], x)
    ensures rs[i] !in visited
  {
    if rs[i] in visited {
      var j :| 0 <= j < i && Reach(ch, rs[..i][j], rs[i]);
      OnlyRootReachesRoot(ch, pa, rs[..i][j], rs[i]);
      assert false;
    }
  }

  // ---------------------------------------------------------------------
  // The provide and keyword indexes

  function Repeat(v: nat, n: nat): (r: seq<nat>)
    ensures |r| == n && forall i :: 0 <= i < n ==> r[i] == v
  {
    seq(n, _ => v)
  }

  /**
   * handle_provide (and the index half of handle_keyword) for each token
   * of ts in turn: the script is appended to the name's list, the list
   * being created on first use.
   */
  function Index(m: map<string, seq<nat>>, id: nat, ts: seq<string>): map<string, seq<nat>>
    decreases |ts|
  {
    if ts == [] then m
    else
      var m' := Index(m, id, ts[..|ts| - 1]);
      var t := ts[|ts| - 1];
      m'[t := Get(m', t) + [id]]
  }

  /** Each name ends with its old list followed by the script once per time it was given. */
  lemma {:induction false} IndexContents(m: map<string, seq<nat>>, id: nat, ts: seq<string>, x: string)
    ensures x in Index(m, id, ts) <==> x in m || x in ts
    ensures Get(Index(m, id, ts), x) == Get(m, x) + Repeat(id, multiset(ts)[x])
    decreases |ts|
  {
    if ts == [] {
      assert multiset(ts)[x] == 0 && Repeat(id, 0) == [];
      assert Get(m, x) + Repeat(id, 0) == Get(m, x);
    } else {
      var ts' := ts[..|ts| - 1];
      var t := ts[|ts| - 1];
      assert ts == ts' + [t];
      IndexContents(m, id, ts', x);
      IndexContentsStep(m, id, ts', t, x);
    }
  }

  lemma IndexSnoc(m: map<string, seq<nat>>, id: nat, ts: seq<string>, t: string)
    ensures Index(m, id, ts + [t]) == Index(m, id, ts)[t := Get(Index(m, id, ts), t) + [id]]
  {
    assert (ts + [t])[..|ts + [t]| - 1] == ts;
  }

  /** The inductive step of IndexContents: one more token t. */
  lemma IndexContentsStep(m: map<string, seq<nat>>, id: nat, ts: seq<string>, t: string, x: string)
    requires x in Index(m, id, ts) <==> x in m || x in ts
    requires Get(Index(m, id, ts), x) == Get(m, x) + Repeat(id, multiset(ts)[x])
    ensures x in Index(m, id, ts + [t]) <==> x in m || x in ts + [t]
    ensures Get(Index(m, id, ts + [t]), x) == Get(m, x) + Repeat(id, multiset(ts + [t])[x])
  {
    var m' := Index(m, id, ts);
    var n' := multiset(ts)[x];
    IndexSnoc(m, id, ts, t);
    assert x in ts + [t] <==> x in ts || x == t;
    if x == t {
      assert multiset(ts + [t])[x] == n' + 1;
      RepeatSnoc(id, n');
      ConcatAssoc(Get(m, x), Repeat(id, n'), [id]);
    } else {
      assert multiset(ts + [t])[x] == n';
    }
  }

  lemma RepeatSnoc(v: nat, n: nat)
    ensures Repeat(v, n) + [v] == Repeat(v, n + 1)
  {
  }

  lemma {:induction false} IndexAppend(m: map<string, seq<nat>>, id: nat, a: seq<string>, b: seq<string>)
    ensures Index(m, id, a + b) == Index(Index(m, id, a), id, b)
    decreases |b|
  {
    if b == [] {
      assert a + b == a;
    } else {
      var b' := b[..|b| - 1];
      assert (a + b)[..|a + b| - 1] == a + b';
      IndexAppend(m, id, a, b');
    }
  }

  /** Every list of the index names existing scripts. */
  predicate IndexBelow(m: map<string, seq<nat>>, n: nat) {
    forall x, v :: x in m && v in m[x] ==> v < n
  }

  lemma IndexKeepsBelow(m: map<string, seq<nat>>, id: nat, ts: seq<string>, n: nat)
    requires IndexBelow(m, n) && id < n
    ensures IndexBelow(Index(m, id, ts), n)
  {
    forall x, v | x in Index(m, id, ts) && v in Index(m, id, ts)[x]
      ensures v < n
    {
      IndexContents(m, id, ts, x);
      assert Index(m, id, ts)[x] == Get(m, x) + Repeat(id, multiset(ts)[x]);
    }
  }

  // ---------------------------------------------------------------------
  // What parsing records in the script itself

  /** The BEFORE, REQUIRE and KEYWORD tokens of ds appended to the script's own lists. */
  function WithTokens(sc: Script, ds: seq<Directive>): Script {
    sc.(befores := sc.befores + TokensOf(ds, Before),
        requirements := sc.requirements + TokensOf(ds, Require),
        keywords := sc.keywords + TokensOf(ds, Keyword))
  }

  lemma WithTokensNone(sc: Script)
    ensures WithTokens(sc, []) == sc
  {
    assert sc.befores + [] == sc.befores;
    assert sc.requirements + [] == sc.requirements;
    assert sc.keywords + [] == sc.keywords;
  }

  /** One token: it lands in the list of its own kind only. */
  lemma WithTokensOne(sc: Script, d: Directive)
    ensures WithTokens(sc, [d]) ==
      match d.kind
      case Before => sc.(befores := sc.befores + [d.token])
      case Require => sc.(requirements := sc.requirements + [d.token])
      case Provide => sc
      case Keyword => sc.(keywords := sc.keywords + [d.token])
    ensures forall k :: TokensOf([d], k) == if d.kind == k then [d.token] else []
  {
    assert [d][..0] == [];
    WithTokensNone(sc);
  }

  /** Handling a then b records in the script what handling a + b records. */
  lemma WithTokensAppend(sc: Script, a: seq<Directive>, b: seq<Directive>)
    ensures WithTokens(sc, a + b) == WithTokens(WithTokens(sc, a), b)
  {
    TokensOfAppend(a, b, Before);
    TokensOfAppend(a, b, Require);
    TokensOfAppend(a, b, Keyword);
  }

  /** The same, for the arena entry of script id. */
  lemma ArenaTokensAppend(s: seq<Script>, id: nat, a: seq<Directive>, b: seq<Directive>)
    requires id < |s|
    ensures s[id := WithTokens(s[id], a)][id := WithTokens(WithTokens(s[id], a), b)] == s[id := WithTokens(s[id], a + b)]
  {
    WithTokensAppend(s[id], a, b);
  }

  /** Handling a then b records in an index what handling a + b records. */
  lemma IndexTokensAppend(m: map<string, seq<nat>>, id: nat, a: seq<Directive>, b: seq<Directive>, k: Kind)
    ensures Index(m, id, TokensOf(a + b, k)) == Index(Index(m, id, TokensOf(a, k)), id, TokensOf(b, k))
  {
    TokensOfAppend(a, b, k);
    IndexAppend(m, id, TokensOf(a, k), TokensOf(b, k));
  }

  /** Script id and both indexes after the handlers saw ds, given their state before. */
  predicate Parsed(s0: seq<Script>, p0: map<string, seq<nat>>, k0: map<string, seq<nat>>, id: nat, ds: seq<Directive>,
                   s: seq<Script>, p: map<string, seq<nat>>, k: map<string, seq<nat>>)
    requires id < |s0|
  {
    s == s0[id := WithTokens(s0[id], ds)] &&
    p == Index(p0, id, TokensOf(ds, Provide)) &&
    k == Index(k0, id, TokensOf(ds, Keyword))
  }

  /** Nothing handled: nothing changed. */
  lemma ParsedNone(s0: seq<Script>, p0: map<string, seq<nat>>, k0: map<string, seq<nat>>, id: nat)
    requires id < |s0|
    ensures Parsed(s0, p0, k0, id, [], s0, p0, k0)
  {
    WithTokensNone(s0[id]);
    assert s0[id := s0[id]] == s0;
  }

  /** Handling a, then b from the state a left, is handling a + b. */
  lemma ParsedAppend(s0: seq<Script>, p0: map<string, seq<nat>>, k0: map<string, seq<nat>>, id: nat,
                     a: seq<Directive>, s1: seq<Script>, p1: map<string, seq<nat>>, k1: map<string, seq<nat>>,
                     b: seq<Directive>, s2: seq<Script>, p2: map<string, seq<nat>>, k2: map<string, seq<nat>>)
    requires id < |s0| && Parsed(s0, p0, k0, id, a, s1, p1, k1)
    requires id < |s1| && Parsed(s1, p1, k1, id, b, s2, p2, k2)
    ensures Parsed(s0, p0, k0, id, a + b, s2, p2, k2)
  {
    ArenaTokensAppend(s0, id, a, b);
    IndexTokensAppend(p0, id, a, b, Provide);
    IndexTokensAppend(k0, id, a, b, Keyword);
  }

  // ---------------------------------------------------------------------
  // Package bookkeeping

  function PkgOr(m: map<string, Package>, n: string): Package {
    if n in m then m[n] else Package([], [])
  }

  /** package_retrieve(o) then dlist_insert_unique of script id into its rshlibs. */
  function AddShlib(m: map<string, Package>, o: string, id: nat): map<string, Package> {
    m[o := PkgOr(m, o).(rshlibs := InsertUnique(PkgOr(m, o).rshlibs, id))]
  }

  /** The rshlibs half of pkg_from_rc_d_script: script id is inserted into the rshlibs of each package in owners, in turn, each created when missing. */
  function Shlibs(m: map<string, Package>, id: nat, owners: seq<string>): map<string, Package>
    decreases |owners|
  {
    if owners == [] then m else Shlibs(AddShlib(m, owners[0], id), id, owners[1..])
  }

  /** The loop's view: what is left of owners from index k on. */
  lemma ShlibsFrom(m: map<string, Package>, id: nat, owners: seq<string>, k: nat)
    requires k < |owners|
    ensures Shlibs(m, id, owners[k..]) == Shlibs(AddShlib(m, owners[k], id), id, owners[k + 1..])
  {
    assert owners[k..][0] == owners[k] && owners[k..][1..] == owners[k + 1..];
  }

  /** Each package of owners gets the script in its rshlibs once, created when missing; the others are unchanged. */
  lemma {:induction false} ShlibsContents(m: map<string, Package>, id: nat, owners: seq<string>, n: string)
    ensures n in Shlibs(m, id, owners) <==> n in m || n in owners
    ensures n in Shlibs(m, id, owners) ==>
      Shlibs(m, id, owners)[n] == if n in owners then PkgOr(m, n).(rshlibs := InsertUnique(PkgOr(m, n).rshlibs, id)) else m[n]
    decreases |owners|
  {
    if owners != [] {
      var o := owners[0];
      var m1 := AddShlib(m, o, id);
      ShlibsContents(m1, id, owners[1..], n);
      assert n in owners <==> n == o || n in owners[1..];
      if n == o {
        var xs := PkgOr(m, n).rshlibs;
        assert PkgOr(m1, n) == PkgOr(m, n).(rshlibs := InsertUnique(xs, id));
        assert InsertUnique(InsertUnique(xs, id), id) == InsertUnique(xs, id);
      } else {
        assert PkgOr(m1, n) == PkgOr(m, n);
      }
    }
  }

  /** package_retrieve(pkg) then associate_package_to_script: script id is appended to the package's scripts. */
  function AddScript(m: map<string, Package>, pkg: string, id: nat): map<string, Package> {
    m[pkg := PkgOr(m, pkg).(scripts := PkgOr(m, pkg).scripts + [id])]
  }

  lemma AddScriptKeepsBelow(m: map<string, Package>, pkg: string, id: nat, n: nat)
    requires PackagesBelow(m, n) && id < n
    ensures PackagesBelow(AddScript(m, pkg, id), n)
  {
  }

  /**
   * The packages after script id is found to belong to pkg
   * (package_retrieve and associate_package_to_script) and to need shared
   * libraries provided by the packages in owners.
   */
  function Associated(m: map<string, Package>, id: nat, pkg: string, owners: seq<string>): map<string, Package> {
    Shlibs(AddScript(m, pkg, id), id, owners)
  }

  /** The script joins its package's scripts and, once, the rshlibs of each owner; nothing else changes. */
  lemma AssociatedContents(m: map<string, Package>, id: nat, pkg: string, owners: seq<string>, n: string)
    ensures n in Associated(m, id, pkg, owners) <==> n in m || n == pkg || n in owners
    ensures n in Associated(m, id, pkg, owners) ==>
      Associated(m, id, pkg, owners)[n].scripts == PkgOr(m, n).scripts + (if n == pkg then [id] else [])
    ensures n in Associated(m, id, pkg, owners) ==>
      Associated(m, id, pkg, owners)[n].rshlibs == if n in owners then InsertUnique(PkgOr(m, n).rshlibs, id) else PkgOr(m, n).rshlibs
  {
    var m1 := AddScript(m, pkg, id);
    ShlibsContents(m1, id, owners, n);
    assert n in m1 <==> n in m || n == pkg;
    assert PkgOr(m1, n).scripts == PkgOr(m, n).scripts + (if n == pkg then [id] else []);
    assert PkgOr(m1, n).rshlibs == PkgOr(m, n).rshlibs;
  }

  lemma {:induction false} ShlibsKeepBelow(m: map<string, Package>, id: nat, owners: seq<string>, n: nat)
    requires PackagesBelow(m, n) && id < n
    ensures PackagesBelow(Shlibs(m, id, owners), n)
    decreases |owners|
  {
    if owners != [] {
      var o := owners[0];
      InsertUniqueBelow(PkgOr(m, o).rshlibs, id, n);
      AddShlibKeepsBelow(m, o, id, n);
      ShlibsKeepBelow(AddShlib(m, o, id), id, owners[1..], n);
    }
  }

  lemma AddShlibKeepsBelow(m: map<string, Package>, o: string, id: nat, n: nat)
    requires PackagesBelow(m, n) && IdsBelow(InsertUnique(PkgOr(m, o).rshlibs, id), n)
    ensures PackagesBelow(AddShlib(m, o, id), n)
  {
  }

  lemma InsertUniqueBelow(xs: seq<nat>, v: nat, n: nat)
    requires IdsBelow(xs, n) && v < n
    ensures IdsBelow(InsertUnique(xs, v), n)
  {
  }

  /** Names and ids correspond one to one. */
  predicate Registry(s: seq<Script>, names: map<string, nat>) {
    (forall n :: n in names ==> names[n] < |s| && s[names[n]].name == n) &&
    (forall i :: 0 <= i < |s| ==> s[i].name in names && names[s[i].name] == i)
  }

  /** Replacing a script by one of the same name keeps the registry. */
  lemma SameNameKeepsRegistry(s: seq<Script>, names: map<string, nat>, id: nat, sc: Script)
    requires Registry(s, names) && id < |s| && sc.name == s[id].name
    ensures Registry(s[id := sc], names)
  {
  }

  /** A script under a name not yet taken joins the registry with the next id. */
  lemma RegisterKeepsRegistry(s: seq<Script>, names: map<string, nat>, sc: Script)
    requires Registry(s, names) && sc.name !in names
    ensures Registry(s + [sc], names[sc.name := |s|])
  {
  }

  predicate IdsBelow(xs: seq<nat>, n: nat) {
    forall j :: 0 <= j < |xs| ==> xs[j] < n
  }

  predicate PackagesBelow(m: map<string, Package>, n: nat) {
    forall x :: x in m ==> IdsBelow(m[x].scripts, n) && IdsBelow(m[x].rshlibs, n)
  }

  // ---------------------------------------------------------------------
  // The keyword filter

  /**
   * keep_script, stated outright: a keyword mapped to SKIP drops the
   * script, whatever else it has; otherwise one mapped to KEEP keeps it;
   * otherwise it is kept only when no keyword at all is mapped to KEEP.
   */
  predicate KeepDecision(ks: map<string, RcorderAction>, keepCount: nat, kws: seq<string>) {
    if Mapped(ks, kws, Skip) then false
    else if Mapped(ks, kws, Keep) then true
    else keepCount == 0
  }

  /** Some keyword of kws is mapped to a. */
  predicate Mapped(ks: map<string, RcorderAction>, kws: seq<string>, a: RcorderAction) {
    exists i :: 0 <= i < |kws| && kws[i] in ks && ks[kws[i]] == a
  }

  lemma MappedSnoc(ks: map<string, RcorderAction>, kws: seq<string>, j: nat, a: RcorderAction)
    requires j < |kws|
    ensures Mapped(ks, kws[..j + 1], a) <==> Mapped(ks, kws[..j], a) || (kws[j] in ks && ks[kws[j]] == a)
  {
    if Mapped(ks, kws[..j + 1], a) {
      var i :| 0 <= i < j + 1 && kws[..j + 1][i] in ks && ks[kws[..j + 1][i]] == a;
      if i < j {
        assert kws[..j][i] == kws[i];
      }
    }
    if Mapped(ks, kws[..j], a) {
      var i :| 0 <= i < j && kws[..j][i] in ks && ks[kws[..j][i]] == a;
      assert kws[..j + 1][i] == kws[i];
    }
  }

  /** A keyword mapped in a prefix is mapped in the whole list. */
  lemma MappedPrefix(ks: map<string, RcorderAction>, kws: seq<string>, j: nat, a: RcorderAction)
    requires j <= |kws| && Mapped(ks, kws[..j], a)
    ensures Mapped(ks, kws, a)
  {
    var i :| 0 <= i < j && kws[..j][i] in ks && ks[kws[..j][i]] == a;
    assert kws[i] == kws[..j][i];
  }

  /**
   * The test visit_script_bis applies before emitting a script: it has an
   * owning package, or orphans are included, and keep_script keeps it.
   */
  predicate Kept(sc: Script, ks: map<string, RcorderAction>, keepCount: nat, includeOrphans: bool) {
    (includeOrphans || sc.package.Some?) && KeepDecision(ks, keepCount, sc.keywords)
  }

  /** The ids of the scripts that pass the test. */
  function KeptIds(s: seq<Script>, ks: map<string, RcorderAction>, keepCount: nat, includeOrphans: bool): set<nat> {
    set x: nat | x < |s| && Kept(s[x], ks, keepCount, includeOrphans)
  }

  /** With no KEEP keyword configured, a script is dropped exactly when one of its keywords is skipped. */
  lemma NoKeepWordsMeansOnlySkipDrops(ks: map<string, RcorderAction>, kws: seq<string>)
    requires forall k :: k in ks ==> ks[k] != NoAction
    requires KeepCount(ks) == 0
    ensures KeepDecision(ks, KeepCount(ks), kws) <==> forall i :: 0 <= i < |kws| && kws[i] in ks ==> ks[kws[i]] != Skip
  {
  }
}
