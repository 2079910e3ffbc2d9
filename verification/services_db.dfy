/**
 * The services database (plugins/services/services_db.c): scripts are
 * registered by name, their magic comments fill the script's BEFORE,
 * REQUIRE and KEYWORD lists and the PROVIDE and KEYWORD indexes, edges are
 * then resolved into parent/child links, the roots are collected, and
 * services_db_rcorder_iter walks the graph depth-first from the roots.
 *
 * The hashtables become maps and the DLists sequences; scripts live in an
 * arena indexed by id. The C code iterates db->scripts in hash order; the
 * model iterates the arena in registration order.
 */
module ServicesDb {
  import opened Common
  import opened MagicComments
  import opened Rcorder
  import opened ServicesGraph
  import opened ServicesResult
  import opened ServicesSelection

  /** A regular file of an rc.d directory: its name, its owning package if any, and its logical lines. */
  datatype ScriptFile = ScriptFile(name: string, owner: Option<Owner>, lines: seq<string>)

  /** What the package database says about a script: its package, and the packages providing the shared libraries it needs. */
  datatype Owner = Owner(package: string, shlibProviders: seq<string>)

  /**
   * The shared-library loop of pkg_from_rc_d_script on the package table:
   * for each providing package in turn, package_retrieve then
   * dlist_insert_unique of the script id into its rshlibs.
   */
  method InsertShlibs(m0: map<string, Package>, id: nat, owners: seq<string>) returns (m: map<string, Package>)
    ensures m == Shlibs(m0, id, owners)
  {
    m := m0;
    var k := 0;
    while k < |owners|
      invariant k <= |owners|
      invariant Shlibs(m, id, owners[k..]) == Shlibs(m0, id, owners)
    {
      ShlibsFrom(m, id, owners, k);
      var o := owners[k];
      var q := PkgOr(m, o);
      m := m[o := q.(rshlibs := InsertUnique(q.rshlibs, id))];
      k := k + 1;
    }
    assert owners[k..] == [];
  }

  /** set_parenthood(p, c): c joins p's children and p joins c's parents, each unless already there. */
  method SetParenthood(ch: Adj, pa: Adj, p: nat, c: nat) returns (ch': Adj, pa': Adj)
    requires Graph(ch, pa) && p < |ch| && c < |ch|
    ensures ch' == LinkChildren(ch, p, c) && pa' == LinkParents(pa, p, c)
    ensures Graph(ch', pa') && |ch'| == |ch|
    ensures forall a, b :: HasLink(ch', a, b) <==> HasLink(ch, a, b) || (a == p && b == c)
  {
    LinkAdds(ch, pa, p, c);
    ch' := ch[p := InsertUnique(ch[p], c)];
    pa' := pa[c := InsertUnique(pa[c], p)];
  }

  /** add_require_relationship(db, c, name): every provider of name becomes a parent of c; an unprovided name links nothing. */
  method AddRequireRelationship(prov: map<string, seq<nat>>, ch: Adj, pa: Adj, c: nat, name: string) returns (ch': Adj, pa': Adj)
    requires Graph(ch, pa) && c < |ch| && IndexBelow(prov, |ch|)
    ensures Graph(ch', pa') && |ch'| == |ch|
    ensures forall a: nat, b: nat :: HasLink(ch', a, b) <==> HasLink(ch, a, b) || (a in Get(prov, name) && b == c)
  {
    ch', pa' := ch, pa;
    if name in prov {
      var ps := prov[name];
      for k := 0 to |ps|
        invariant Graph(ch', pa') && |ch'| == |ch|
        invariant forall a: nat, b: nat :: HasLink(ch', a, b) <==> HasLink(ch, a, b) || (a in ps[..k] && b == c)
      {
        assert ps[k] in prov[name];
        assert ps[..k + 1] == ps[..k] + [ps[k]];
        ch', pa' := SetParenthood(ch', pa', ps[k], c);
      }
      assert ps[..|ps|] == ps;
    }
  }

  /** add_before_relationship(db, p, name): p becomes a parent of every provider of name; an unprovided name links nothing. */
  method AddBeforeRelationship(prov: map<string, seq<nat>>, ch: Adj, pa: Adj, p: nat, name: string) returns (ch': Adj, pa': Adj)
    requires Graph(ch, pa) && p < |ch| && IndexBelow(prov, |ch|)
    ensures Graph(ch', pa') && |ch'| == |ch|
    ensures forall a: nat, b: nat :: HasLink(ch', a, b) <==> HasLink(ch, a, b) || (a == p && b in Get(prov, name))
  {
    ch', pa' := ch, pa;
    if name in prov {
      var cs := prov[name];
      for k := 0 to |cs|
        invariant Graph(ch', pa') && |ch'| == |ch|
        invariant forall a: nat, b: nat :: HasLink(ch', a, b) <==> HasLink(ch, a, b) || (a == p && b in cs[..k])
      {
        assert cs[k] in prov[name];
        assert cs[..k + 1] == cs[..k] + [cs[k]];
        ch', pa' := SetParenthood(ch', pa', p, cs[k]);
      }
      assert cs[..|cs|] == cs;
    }
  }

  /** The edge pass for one script: its REQUIRE names, then its BEFORE names. */
  method ResolveScript(s: seq<Script>, prov: map<string, seq<nat>>, ch: Adj, pa: Adj, i: nat) returns (ch': Adj, pa': Adj)
    requires Graph(ch, pa) && |ch| == |s| && i < |s| && IndexBelow(prov, |s|)
    ensures Graph(ch', pa') && |ch'| == |s|
    ensures forall a: nat, b: nat :: HasLink(ch', a, b) <==>
      HasLink(ch, a, b) || (b == i && Via(prov, s[i].requirements, a)) || (a == i && Via(prov, s[i].befores, b))
  {
    ch', pa' := ch, pa;
    var rs := s[i].requirements;
    for j := 0 to |rs|
      invariant Graph(ch', pa') && |ch'| == |s|
      invariant forall a: nat, b: nat :: HasLink(ch', a, b) <==> HasLink(ch, a, b) || (b == i && Via(prov, rs[..j], a))
    {
      forall a: nat
        ensures Via(prov, rs[..j + 1], a) <==> Via(prov, rs[..j], a) || a in Get(prov, rs[j])
      {
        ViaSnoc(prov, rs, j, a);
      }
      ch', pa' := AddRequireRelationship(prov, ch', pa', i, rs[j]);
    }
    assert rs[..|rs|] == rs;
    var bs := s[i].befores;
    for j := 0 to |bs|
      invariant Graph(ch', pa') && |ch'| == |s|
      invariant forall a: nat, b: nat :: HasLink(ch', a, b) <==>
        HasLink(ch, a, b) || (b == i && Via(prov, rs, a)) || (a == i && Via(prov, bs[..j], b))
    {
      forall b: nat
        ensures Via(prov, bs[..j + 1], b) <==> Via(prov, bs[..j], b) || b in Get(prov, bs[j])
      {
        ViaSnoc(prov, bs, j, b);
      }
      ch', pa' := AddBeforeRelationship(prov, ch', pa', i, bs[j]);
    }
    assert bs[..|bs|] == bs;
  }

  /**
   * The first step of services_db_scan_system once every script is parsed:
   * for each script, its REQUIRE names and then its BEFORE names become
   * links. Exactly the links Linked describes are added.
   */
  method ResolveEdges(s: seq<Script>, prov: map<string, seq<nat>>, ch: Adj, pa: Adj) returns (ch': Adj, pa': Adj)
    requires Graph(ch, pa) && |ch| == |s| && IndexBelow(prov, |s|)
    ensures Graph(ch', pa') && |ch'| == |s|
    ensures forall a: nat, b: nat :: HasLink(ch', a, b) <==> HasLink(ch, a, b) || Linked(s, prov, a, b)
  {
    ch', pa' := ch, pa;
    for i := 0 to |s|
      invariant Graph(ch', pa') && |ch'| == |s|
      invariant forall a: nat, b: nat :: HasLink(ch', a, b) <==> HasLink(ch, a, b) || LinkedBelow(s, prov, i, a, b)
    {
      forall a: nat, b: nat
        ensures LinkedBelow(s, prov, i + 1, a, b) <==>
          LinkedBelow(s, prov, i, a, b) || (b == i && Via(prov, s[i].requirements, a)) || (a == i && Via(prov, s[i].befores, b))
      {
        LinkedBelowSnoc(s, prov, i, a, b);
      }
      ch', pa' := ResolveScript(s, prov, ch', pa', i);
    }
  }

  /** The second step of services_db_scan_system: the scripts without parents, in arena order. */
  method CollectRoots(pa: Adj, n: nat) returns (r: seq<nat>)
    requires n <= |pa|
    ensures r == RootsOf(pa, n)
  {
    r := [];
    for i := 0 to n
      invariant r == RootsOf(pa, i)
    {
      assert RootsOf(pa, i + 1) == RootsOf(pa, i) + (if pa[i] == [] then [i] else []);
      if pa[i] == [] {
        r := r + [i];
      }
    }
  }

  /**
   * keep_script(sc, ro): scan the keywords, stopping at the first one
   * mapped to SKIP; a keyword absent from the map leaves the action as it
   * was. Kept on KEEP, or on no mapped keyword when no KEEP is configured.
   */
  method KeepScript(sc: Script, ro: RcorderOptions) returns (keep: bool)
    requires ro.Valid()
    ensures keep == KeepDecision(ro.ks, ro.keepCount, sc.keywords)
  {
    var action := RcorderAction.NoAction;
    var kws := sc.keywords;
    var i := 0;
    while i < |kws| && action != Skip
      invariant i <= |kws|
      invariant action == Skip <==> Mapped(ro.ks, kws[..i], Skip)
      invariant action == Keep <==> !Mapped(ro.ks, kws[..i], Skip) && Mapped(ro.ks, kws[..i], Keep)
    {
      MappedSnoc(ro.ks, kws, i, Skip);
      MappedSnoc(ro.ks, kws, i, Keep);
      if kws[i] in ro.ks {
        action := ro.ks[kws[i]];
      }
      i := i + 1;
    }
    if i < |kws| {
      MappedPrefix(ro.ks, kws, i, Skip);
    } else {
      assert kws[..i] == kws;
    }
    keep := action == Keep || (action == RcorderAction.NoAction && ro.keepCount == 0);
  }

  /** The scripts visit_script_bis emits when it reaches them. */
  function KeptBy(s: seq<Script>, ro: RcorderOptions): set<nat>
    reads ro
  {
    KeptIds(s, ro.ks, ro.keepCount, ro.includeOrphans)
  }

  /**
   * visit_script_bis(visited, v, ro, callback): mark v visited; when it
   * passes the keep test, emit it before its children in reverse mode;
   * visit every child not yet visited, in list order; when it passes the
   * test, emit it after its children otherwise. The callback is modelled by
   * the sequence of emitted ids; stack holds the scripts whose visit is
   * under way.
   */
  method Visit(s: seq<Script>, ch: Adj, ro: RcorderOptions, v: nat, ghost stack: set<nat>, visited0: set<nat>, out0: seq<nat>)
    returns (visited: set<nat>, out: seq<nat>)
    requires ro.Valid() && |ch| == |s| && ChildrenBelow(ch)
    requires v < |s| && v !in visited0 && Ready(ch, KeptBy(s, ro), ro.reverse, stack, visited0, out0)
    ensures Done(ch, KeptBy(s, ro), ro.reverse, v, stack, visited0, out0, visited, out)
    decreases Ids(|s|) - visited0, 1
  {
    ghost var kept := KeptBy(s, ro);
    var keep := ro.includeOrphans || s[v].package.Some?;
    if keep {
      keep := KeepScript(s[v], ro);
    }
    assert keep == (v in kept);
    VisitEnter(ch, kept, ro.reverse, v, stack, visited0, out0, keep);
    var head := out0 + (if keep && ro.reverse then [v] else []);
    visited, out := VisitChildren(s, ch, ro, v, stack, visited0, out0, head, visited0 + {v}, head);
    VisitLeave(ch, kept, ro.reverse, v, stack, visited0, out0, head, visited, out, keep);
    if keep && !ro.reverse {
      out := out + [v];
    }
  }

  /** The loop of visit_script_bis over v's children: each one not yet visited is visited, in list order. */
  method VisitChildren(s: seq<Script>, ch: Adj, ro: RcorderOptions, v: nat, ghost stack: set<nat>, ghost visited0: set<nat>,
                       ghost out0: seq<nat>, ghost head: seq<nat>, visited1: set<nat>, out1: seq<nat>)
    returns (visited: set<nat>, out: seq<nat>)
    requires ro.Valid() && |ch| == |s| && ChildrenBelow(ch) && v < |s| && v !in visited0
    requires Progress(ch, KeptBy(s, ro), ro.reverse, v, stack, visited0, out0, head, visited1, out1)
    ensures Progress(ch, KeptBy(s, ro), ro.reverse, v, stack, visited0, out0, head, visited, out)
    ensures forall c :: c in ch[v] ==> c in visited
    decreases Ids(|s|) - visited0, 0
  {
    ghost var kept := KeptBy(s, ro);
    visited, out := visited1, out1;
    var cs := ch[v];
    for k := 0 to |cs|
      invariant Progress(ch, kept, ro.reverse, v, stack, visited0, out0, head, visited, out)
      invariant forall j :: 0 <= j < k ==> cs[j] in visited
    {
      var c := cs[k];
      if c !in visited {
        assert c in ch[v] && c < |s|;
        ghost var visited2, out2 := visited, out;
        assert v in Ids(|s|) - visited0 && v !in Ids(|s|) - visited;
        visited, out := Visit(s, ch, ro, c, stack + {v}, visited, out);
        VisitChild(ch, kept, ro.reverse, v, c, stack, visited0, out0, head, visited2, out2, visited, out);
      }
    }
  }

  /** The loop of services_db_rcorder_iter: a visit from each root in turn, sharing one visited set. */
  method VisitRoots(s: seq<Script>, ch: Adj, pa: Adj, rs: seq<nat>, ro: RcorderOptions) returns (out: seq<nat>)
    requires ro.Valid() && Graph(ch, pa) && |ch| == |s| && rs == RootsOf(pa, |s|)
    ensures NoDup(out)
    ensures forall x :: x in out <==> x in KeptBy(s, ro) && ReachedFrom(ch, rs, x)
    ensures !ro.reverse && Acyclic(ch) ==> ChildrenFirst(ch, out)
  {
    ghost var kept := KeptBy(s, ro);
    var visited: set<nat> := {};
    out := [];
    IterStart(ch, kept, ro.reverse, rs);
    for i := 0 to |rs|
      invariant Iterated(ch, kept, ro.reverse, rs, i, visited, out)
    {
      assert rs[i] in rs;
      RootUnvisited(ch, pa, rs, i, visited);
      ghost var visited1, out1 := visited, out;
      visited, out := Visit(s, ch, ro, rs[i], {}, visited, out);
      IterStep(ch, kept, ro.reverse, rs, i, visited1, out1, visited, out);
    }
    IterEnd(ch, kept, ro.reverse, rs, visited, out);
  }

  /** One selection add per script of ids, under the script's name: add_direct when direct, add_rdep otherwise. */
  function NameOps(s: seq<Script>, ids: seq<nat>, action: ServiceAction, direct: bool): (ops: seq<Op>)
    requires IdsBelow(ids, |s|)
    ensures |ops| == |ids|
    ensures forall i :: 0 <= i < |ids| ==> ops[i] == if direct then DirectOp(s[ids[i]].name, action) else RdepOp(s[ids[i]].name, action)
    decreases |ids|
  {
    if ids == [] then []
    else
      var id := ids[|ids| - 1];
      NameOps(s, ids[..|ids| - 1], action, direct) + [if direct then DirectOp(s[id].name, action) else RdepOp(s[id].name, action)]
  }

  /** Some operation of ops adds name n. */
  predicate Named(ops: seq<Op>, n: string) {
    exists i :: 0 <= i < |ops| && ops[i].name == n
  }

  lemma NameOpsNamed(s: seq<Script>, ids: seq<nat>, action: ServiceAction, direct: bool, n: string)
    requires IdsBelow(ids, |s|)
    ensures Named(NameOps(s, ids, action, direct), n) <==> exists id :: id in ids && id < |s| && s[id].name == n
  {
    var ops := NameOps(s, ids, action, direct);
    if Named(ops, n) {
      var i :| 0 <= i < |ops| && ops[i].name == n;
      assert ids[i] in ids && s[ids[i]].name == n;
    }
    if exists id :: id in ids && id < |s| && s[id].name == n {
      var id :| id in ids && id < |s| && s[id].name == n;
      var i :| 0 <= i < |ids| && ids[i] == id;
      assert ops[i].name == n;
    }
  }

  lemma NamedAppend(a: seq<Op>, b: seq<Op>, n: string)
    ensures Named(a + b, n) <==> Named(a, n) || Named(b, n)
  {
    if Named(a + b, n) {
      var i :| 0 <= i < |a + b| && (a + b)[i].name == n;
      if i >= |a| {
        assert b[i - |a|].name == n;
      }
    }
    if Named(a, n) {
      var i :| 0 <= i < |a| && a[i].name == n;
      assert (a + b)[i].name == n;
    }
    if Named(b, n) {
      var i :| 0 <= i < |b| && b[i].name == n;
      assert (a + b)[|a| + i].name == n;
    }
  }

  /**
   * What services_db_add_services_from_package_to_services_selection adds:
   * the package's own scripts as direct, then, when rshlibs are included,
   * the scripts needing one of its shared libraries as reverse
   * dependencies. An unknown package has neither.
   */
  function PackageOps(s: seq<Script>, packages: map<string, Package>, pkg: string, action: ServiceAction, includeRshlibs: bool): seq<Op>
    requires PackagesBelow(packages, |s|)
  {
    NameOps(s, PkgOr(packages, pkg).scripts, action, true) +
    (if includeRshlibs then NameOps(s, PkgOr(packages, pkg).rshlibs, action, false) else [])
  }

  /**
   * Adding a package's services selects exactly the names of the scripts it
   * owns, and, only when asked, of those in its rshlibs; its own come first,
   * as direct with the given action, the others as reverse dependencies; an
   * unknown package adds nothing.
   */
  lemma PackageServicesSelected(s: seq<Script>, packages: map<string, Package>, pkg: string, action: ServiceAction,
                                includeRshlibs: bool, m: map<string, ServiceData>, n: string)
    requires PackagesBelow(packages, |s|)
    ensures pkg !in packages ==> ApplyAll(m, PackageOps(s, packages, pkg, action, includeRshlibs)) == m
    ensures n in ApplyAll(m, PackageOps(s, packages, pkg, action, includeRshlibs)) <==>
      n in m ||
      (exists id :: id in PkgOr(packages, pkg).scripts && id < |s| && s[id].name == n) ||
      (includeRshlibs && exists id :: id in PkgOr(packages, pkg).rshlibs && id < |s| && s[id].name == n)
    ensures var own := PkgOr(packages, pkg).scripts; var ops := PackageOps(s, packages, pkg, action, includeRshlibs);
      ops[..|own|] == NameOps(s, own, action, true) &&
      ops[|own|..] == if includeRshlibs then NameOps(s, PkgOr(packages, pkg).rshlibs, action, false) else []
  {
    var own := PkgOr(packages, pkg).scripts;
    var rsh := PkgOr(packages, pkg).rshlibs;
    var a := NameOps(s, own, action, true);
    var b := if includeRshlibs then NameOps(s, rsh, action, false) else [];
    ContainsExactlyAdded(m, a + b, n);
    assert Named(a + b, n) <==> exists i :: 0 <= i < |a + b| && (a + b)[i].name == n;
    NamedAppend(a, b, n);
    NameOpsNamed(s, own, action, true, n);
    NameOpsNamed(s, rsh, action, false, n);
    assert (a + b)[..|own|] == a && (a + b)[|own|..] == b;
  }

  /** One turn of the add_direct (or add_rdep) loop: the script at position k of ids. */
  method AddScriptAt(ss: ServicesSelection, s: seq<Script>, ids: seq<nat>, action: ServiceAction, direct: bool, k: nat,
                     ghost m0: map<string, ServiceData>, ghost o0: seq<string>)
    requires ss.Valid() && IdsBelow(ids, |s|) && k < |ids|
    requires AppliedPrefix(ss.entries, ss.order, m0, o0, NameOps(s, ids, action, direct), k)
    modifies ss
    ensures ss.Valid()
    ensures AppliedPrefix(ss.entries, ss.order, m0, o0, NameOps(s, ids, action, direct), k + 1)
  {
    ghost var ops := NameOps(s, ids, action, direct);
    var name := s[ids[k]].name;
    AppliedPrefixStep(ss.entries, ss.order, m0, o0, ops, k);
    assert ops[k] == if direct then DirectOp(name, action) else RdepOp(name, action);
    if direct {
      ss.AddDirect(name, action);
    } else {
      ss.AddRdep(name, action);
    }
  }

  /** The add_direct (or add_rdep) loop over a list of scripts. */
  method AddScripts(ss: ServicesSelection, s: seq<Script>, ids: seq<nat>, action: ServiceAction, direct: bool)
    requires ss.Valid() && IdsBelow(ids, |s|)
    modifies ss
    ensures ss.Valid()
    ensures ss.entries == ApplyAll(old(ss.entries), NameOps(s, ids, action, direct))
    ensures ss.order == OrderAll(old(ss.order), old(ss.entries), NameOps(s, ids, action, direct))
  {
    ghost var ops := NameOps(s, ids, action, direct);
    ghost var m0, o0 := ss.entries, ss.order;
    for k := 0 to |ids|
      invariant ss.Valid()
      invariant AppliedPrefix(ss.entries, ss.order, m0, o0, ops, k)
    {
      AddScriptAt(ss, s, ids, action, direct, k, m0, o0);
    }
    assert ops[..|ids|] == ops;
  }

  class ServicesDb {
    var scripts: seq<Script>
    var names: map<string, nat>
    var providers: map<string, seq<nat>>
    var keywords: map<string, seq<nat>>
    var packages: map<string, Package>
    var children: Adj
    var parents: Adj
    var roots: seq<nat>

    /** Names and ids correspond, every list names existing scripts, and the links have the graph shape. */
    predicate Valid()
      reads this
    {
      Registry(scripts, names) &&
      IndexBelow(providers, |scripts|) && IndexBelow(keywords, |scripts|) &&
      PackagesBelow(packages, |scripts|) &&
      |children| == |scripts| && Graph(children, parents) &&
      IdsBelow(roots, |scripts|)
    }

    /** services_db_create */
    constructor ()
      ensures Valid()
      ensures scripts == [] && names == map[] && providers == map[] && keywords == map[] && packages == map[] && roots == []
      ensures children == [] && parents == []
    {
      scripts := [];
      names := map[];
      providers := map[];
      keywords := map[];
      packages := map[];
      children := [];
      parents := [];
      roots := [];
    }

    /** register_script: a new script without package, lists or links; the name must not be taken. */
    method RegisterScript(name: string) returns (id: nat)
      requires Valid() && name !in names
      modifies this
      ensures Valid()
      ensures id == |old(scripts)| && scripts == old(scripts) + [Script(name, None, [], [], [])]
      ensures names == old(names)[name := id]
      ensures children == old(children) + [[]] && parents == old(parents) + [[]]
      ensures providers == old(providers) && keywords == old(keywords) && packages == old(packages) && roots == old(roots)
    {
      id := |scripts|;
      RegisterKeepsRegistry(scripts, names, Script(name, None, [], [], []));
      AppendUnlinked(children, parents);
      scripts := scripts + [Script(name, None, [], [], [])];
      names := names[name := id];
      children := children + [[]];
      parents := parents + [[]];
    }

    /**
     * The database half of pkg_from_rc_d_script for a script with an
     * owner: package_retrieve and associate_package_to_script for its
     * package, then package_retrieve and dlist_insert_unique into the
     * rshlibs of each package providing a shared library it needs.
     */
    method AssociatePackage(id: nat, pkg: string, owners: seq<string>)
      requires Valid() && id < |scripts|
      modifies this
      ensures Valid()
      ensures packages == Associated(old(packages), id, pkg, owners)
      ensures scripts == old(scripts)[id := old(scripts)[id].(package := Some(pkg))]
      ensures names == old(names) && providers == old(providers) && keywords == old(keywords) && roots == old(roots) && children == old(children) && parents == old(parents)
    {
      AddScriptKeepsBelow(packages, pkg, id, |scripts|);
      packages := AddScript(packages, pkg, id);
      SameNameKeepsRegistry(scripts, names, id, scripts[id].(package := Some(pkg)));
      scripts := scripts[id := scripts[id].(package := Some(pkg))];
      AddRshlibs(id, owners);
    }

    /** The shared-library loop of pkg_from_rc_d_script: the script goes once into the rshlibs of each providing package. */
    method AddRshlibs(id: nat, owners: seq<string>)
      requires Valid() && id < |scripts|
      modifies this
      ensures Valid()
      ensures packages == Shlibs(old(packages), id, owners)
      ensures scripts == old(scripts) && names == old(names) && providers == old(providers) && keywords == old(keywords) && roots == old(roots) && children == old(children) && parents == old(parents)
    {
      var m := InsertShlibs(packages, id, owners);
      ShlibsKeepBelow(packages, id, owners, |scripts|);
      packages := m;
    }

    /** handle_before: the raw name is appended to the script's befores. */
    method HandleBefore(id: nat, token: string)
      requires Valid() && id < |scripts|
      modifies this
      ensures Valid()
      ensures scripts == old(scripts)[id := old(scripts)[id].(befores := old(scripts)[id].befores + [token])]
      ensures providers == old(providers) && keywords == old(keywords)
      ensures names == old(names) && packages == old(packages) && roots == old(roots) && children == old(children) && parents == old(parents)
    {
      var sc := scripts[id].(befores := scripts[id].befores + [token]);
      SameNameKeepsRegistry(scripts, names, id, sc);
      scripts := scripts[id := sc];
    }

    /** handle_require: the raw name is appended to the script's requires. */
    method HandleRequire(id: nat, token: string)
      requires Valid() && id < |scripts|
      modifies this
      ensures Valid()
      ensures scripts == old(scripts)[id := old(scripts)[id].(requirements := old(scripts)[id].requirements + [token])]
      ensures providers == old(providers) && keywords == old(keywords)
      ensures names == old(names) && packages == old(packages) && roots == old(roots) && children == old(children) && parents == old(parents)
    {
      var sc := scripts[id].(requirements := scripts[id].requirements + [token]);
      SameNameKeepsRegistry(scripts, names, id, sc);
      scripts := scripts[id := sc];
    }

    /** handle_provide: the script is appended to the name's provide list, which is created when missing. */
    method HandleProvide(id: nat, token: string)
      requires Valid() && id < |scripts|
      modifies this
      ensures Valid()
      ensures providers == old(providers)[token := Get(old(providers), token) + [id]]
      ensures scripts == old(scripts) && keywords == old(keywords)
      ensures names == old(names) && packages == old(packages) && roots == old(roots) && children == old(children) && parents == old(parents)
    {
      providers := providers[token := Get(providers, token) + [id]];
    }

    /** handle_keyword: the script is appended to the keyword's list, created when missing, and the keyword to the script's. */
    method HandleKeyword(id: nat, token: string)
      requires Valid() && id < |scripts|
      modifies this
      ensures Valid()
      ensures keywords == old(keywords)[token := Get(old(keywords), token) + [id]]
      ensures scripts == old(scripts)[id := old(scripts)[id].(keywords := old(scripts)[id].keywords + [token])]
      ensures providers == old(providers)
      ensures names == old(names) && packages == old(packages) && roots == old(roots) && children == old(children) && parents == old(parents)
    {
      keywords := keywords[token := Get(keywords, token) + [id]];
      var sc := scripts[id].(keywords := scripts[id].keywords + [token]);
      SameNameKeepsRegistry(scripts, names, id, sc);
      scripts := scripts[id := sc];
    }

    /** The rc_d_magic_comments handler of the token's kind, for script id. */
    method HandleToken(id: nat, d: Directive)
      requires Valid() && id < |scripts|
      modifies this
      ensures Valid() && id < |scripts|
      ensures Parsed(old(scripts), old(providers), old(keywords), id, [d], scripts, providers, keywords)
      ensures names == old(names) && packages == old(packages) && roots == old(roots) && children == old(children) && parents == old(parents)
    {
      WithTokensOne(scripts[id], d);
      assert scripts[id := scripts[id]] == scripts;
      match d.kind {
        case Before => HandleBefore(id, d.token);
        case Require => HandleRequire(id, d.token);
        case Provide => HandleProvide(id, d.token);
        case Keyword => HandleKeyword(id, d.token);
      }
    }

    /** The body of the strsep loop: a non-empty token goes to the handler of the line's kind, an empty one is skipped. */
    method HandleField(id: nat, k: Kind, token: string)
      requires Valid() && id < |scripts|
      modifies this
      ensures Valid() && id < |scripts|
      ensures Parsed(old(scripts), old(providers), old(keywords), id, FieldOf(k, token), scripts, providers, keywords)
      ensures names == old(names) && packages == old(packages) && roots == old(roots) && children == old(children) && parents == old(parents)
    {
      if token != [] {
        HandleToken(id, Directive(k, token));
      } else {
        ParsedNone(scripts, providers, keywords, id);
      }
    }

    /** The strsep loop over the rest of a magic line: each non-empty token goes to the handler of the line's kind. */
    method HandleLine(id: nat, k: Kind, rest: string)
      requires Valid() && id < |scripts|
      modifies this
      ensures Valid() && id < |scripts|
      ensures Parsed(old(scripts), old(providers), old(keywords), id, LineDirectives(k, rest), scripts, providers, keywords)
      ensures names == old(names) && packages == old(packages) && roots == old(roots) && children == old(children) && parents == old(parents)
    {
      var p: Option<string> := Some(rest);
      ghost var done: seq<Directive> := [];
      ParsedNone(scripts, providers, keywords, id);
      while p.Some?
        invariant LineDirectives(k, rest) == done + (if p.Some? then LineDirectives(k, p.value) else [])
        invariant Valid() && id < |scripts|
        invariant Parsed(old(scripts), old(providers), old(keywords), id, done, scripts, providers, keywords)
        invariant names == old(names) && packages == old(packages) && roots == old(roots) && children == old(children) && parents == old(parents)
        decreases if p.Some? then |p.value| + 1 else 0
      {
        FieldTurn(k, rest, done, p.value);
        var (token, r) := Strsep(p.value);
        ghost var s1, p1, k1 := scripts, providers, keywords;
        HandleField(id, k, token);
        ParsedAppend(old(scripts), old(providers), old(keywords), id, done, s1, p1, k1, FieldOf(k, token), scripts, providers, keywords);
        done := done + FieldOf(k, token);
        p := r;
      }
      assert LineDirectives(k, rest) == done;
    }

    /** One line of parse_rc_d_script: a magic line is handed to HandleLine, any other line changes nothing. */
    method ParseLine(id: nat, line: string) returns (magic: bool)
      requires Valid() && id < |scripts|
      modifies this
      ensures Valid() && id < |scripts|
      ensures magic <==> Match(line).Some?
      ensures Parsed(old(scripts), old(providers), old(keywords), id, LineOf(line), scripts, providers, keywords)
      ensures names == old(names) && packages == old(packages) && roots == old(roots) && children == old(children) && parents == old(parents)
    {
      var m := MatchMagic(line);
      magic := m.Some?;
      if m.Some? {
        HandleLine(id, m.value.0, m.value.1);
      } else {
        ParsedNone(scripts, providers, keywords, id);
      }
    }

    /**
     * parse_rc_d_script on the script's logical lines: lines before the
     * first magic line are skipped, magic lines are handled while they
     * follow one another, and the first other line ends parsing.
     */
    method ParseRcDScript(id: nat, lines: seq<string>)
      requires Valid() && id < |scripts|
      modifies this
      ensures Valid() && id < |scripts|
      ensures Parsed(old(scripts), old(providers), old(keywords), id, BlockDirectives(Block(lines)), scripts, providers, keywords)
      ensures names == old(names) && packages == old(packages) && roots == old(roots) && children == old(children) && parents == old(parents)
    {
      var state := ParsingBefore;
      var i := 0;
      ghost var done: seq<Directive> := [];
      ParsedNone(scripts, providers, keywords, id);
      while i < |lines| && state != ParsingDone
        invariant i <= |lines|
        invariant Scan(lines, ParsingBefore) == done + Scan(lines[i..], state)
        invariant Valid() && id < |scripts|
        invariant Parsed(old(scripts), old(providers), old(keywords), id, done, scripts, providers, keywords)
        invariant names == old(names) && packages == old(packages) && roots == old(roots) && children == old(children) && parents == old(parents)
      {
        ScanTurn(lines, i, state, done);
        ghost var s1, p1, k1 := scripts, providers, keywords;
        var magic := ParseLine(id, lines[i]);
        ParsedAppend(old(scripts), old(providers), old(keywords), id, done, s1, p1, k1, LineOf(lines[i]), scripts, providers, keywords);
        done := done + LineOf(lines[i]);
        if state != ParsingBefore {
          state := ParsingDone;
        }
        if magic {
          state := ParsingPending;
        }
        i := i + 1;
      }
      if i < |lines| {
        assert Scan(lines[i..], ParsingDone) == [];
      }
      assert done == Scan(lines, ParsingBefore);
      MagicBlockParsed(lines);
    }

    /**
     * One regular file of scan_rc_d_directory: register_script, then, when
     * the package database knows an owner, the package bookkeeping of
     * pkg_from_rc_d_script, then parse_rc_d_script.
     */
    method ScanFile(f: ScriptFile) returns (id: nat)
      requires Valid() && f.name !in names
      modifies this
      ensures Valid() && id == |old(scripts)| && id < |scripts|
      ensures names == old(names)[f.name := id]
      ensures var pkg := if f.owner.Some? then Some(f.owner.value.package) else None;
        Parsed(old(scripts) + [Script(f.name, pkg, [], [], [])], old(providers), old(keywords), id,
               BlockDirectives(Block(f.lines)), scripts, providers, keywords)
      ensures packages == if f.owner.Some? then Associated(old(packages), id, f.owner.value.package, f.owner.value.shlibProviders) else old(packages)
      ensures children == old(children) + [[]] && parents == old(parents) + [[]] && roots == old(roots)
    {
      ghost var pkg := if f.owner.Some? then Some(f.owner.value.package) else None;
      id := RegisterScript(f.name);
      if f.owner.Some? {
        AssociatePackage(id, f.owner.value.package, f.owner.value.shlibProviders);
      }
      assert scripts == old(scripts) + [Script(f.name, pkg, [], [], [])];
      ParseRcDScript(id, f.lines);
    }

    /**
     * The edge and roots passes of services_db_scan_system, once every
     * script is parsed: the links Linked describes are added, then the
     * scripts without parents are appended to the roots.
     */
    method BuildGraph()
      requires Valid()
      modifies this
      ensures Valid()
      ensures forall a: nat, b: nat :: HasLink(children, a, b) <==> HasLink(old(children), a, b) || Linked(scripts, providers, a, b)
      ensures roots == old(roots) + RootsOf(parents, |scripts|)
      ensures scripts == old(scripts) && names == old(names) && providers == old(providers) && keywords == old(keywords) && packages == old(packages)
    {
      var ch, pa := ResolveEdges(scripts, providers, children, parents);
      var r := CollectRoots(pa, |scripts|);
      assert forall j :: 0 <= j < |r| ==> r[j] in r;
      children, parents := ch, pa;
      roots := roots + r;
    }

    /**
     * services_db_rcorder_iter(db, ro, callback) on a scanned database: a
     * visit from each root in turn, sharing one visited set; the callback
     * is modelled by the sequence of emitted ids.
     */
    method RcorderIter(ro: RcorderOptions) returns (out: seq<nat>)
      requires Valid() && ro.Valid() && roots == RootsOf(parents, |scripts|)
      ensures NoDup(out)
      ensures forall x :: x in out <==> x in KeptBy(scripts, ro) && ReachedFrom(children, roots, x)
      ensures !ro.reverse && Acyclic(children) ==> ChildrenFirst(children, out)
    {
      out := VisitRoots(scripts, children, parents, roots, ro);
    }

    /** package_to_services_iterator: the scripts the package owns, in order; none for an unknown package. */
    method PackageToServices(pkg: string) returns (ids: seq<nat>)
      requires Valid()
      ensures ids == PkgOr(packages, pkg).scripts
      ensures pkg !in packages ==> ids == []
      ensures IdsBelow(ids, |scripts|)
    {
      if pkg in packages {
        ids := packages[pkg].scripts;
      } else {
        ids := [];
      }
    }

    /** services_db_rshlib: the scripts needing a shared library the package provides; none for an unknown package. */
    method Rshlib(pkg: string) returns (ids: seq<nat>)
      requires Valid()
      ensures ids == PkgOr(packages, pkg).rshlibs
      ensures pkg !in packages ==> ids == []
      ensures IdsBelow(ids, |scripts|)
    {
      if !(pkg in packages) {
        ids := [];
      } else {
        ids := packages[pkg].rshlibs;
      }
    }

    /**
     * services_db_add_services_from_package_to_services_selection(db, ss,
     * pkg, action, includeRshlibs): add_direct for each script the package
     * owns, then, when asked, add_rdep for each script of its rshlibs.
     */
    method AddServicesFromPackage(ss: ServicesSelection, pkg: string, action: ServiceAction, includeRshlibs: bool)
      requires Valid() && ss.Valid()
      modifies ss
      ensures ss.Valid()
      ensures ss.entries == ApplyAll(old(ss.entries), PackageOps(scripts, packages, pkg, action, includeRshlibs))
      ensures ss.order == OrderAll(old(ss.order), old(ss.entries), PackageOps(scripts, packages, pkg, action, includeRshlibs))
    {
      var own := PackageToServices(pkg);
      AddScripts(ss, scripts, own, action, true);
      ghost var a := NameOps(scripts, own, action, true);
      if includeRshlibs {
        var rsh := Rshlib(pkg);
        ghost var m1, o1 := ss.entries, ss.order;
        AddScripts(ss, scripts, rsh, action, false);
        AllAppend(old(ss.order), old(ss.entries), a, NameOps(scripts, rsh, action, false));
      } else {
        assert a + [] == a;
      }
    }
  }
}
