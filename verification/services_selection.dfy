/**
 * The set of services to stop or restart around a package operation
 * (plugins/services/services_selection.c): a table from service name to
 * its flags (DIRECT, BLOCKED) and action, and the two-wave handler that
 * first probes every service that is not blocked ("service X enabled") and
 * then stops or restarts those whose probe exited 0.
 *
 * The processes themselves are not modelled: each service's probe outcome
 * and action outcome are given as functions. The table is iterated in the
 * order names were first added. The processes of one wave are taken to
 * report back in the order they were started, where process_monitor_await
 * reports them in the order they exit; that order is not modelled.
 */
module ServicesSelection {
  import opened ServicesResult

  /** SERVICE_FLAG_DIRECT: the service was not only referenced as a reverse dependency. */
  const FLAG_DIRECT: bv32 := 1
  /** SERVICE_FLAG_BLOCKED: the service is on the blocklist. */
  const FLAG_BLOCKED: bv32 := 2

  datatype ServiceData = ServiceData(name: string, flags: bv32, action: ServiceAction)

  predicate IsBlocked(e: ServiceData) {
    e.flags & FLAG_BLOCKED == FLAG_BLOCKED
  }

  /** How a child process ended: with an exit status, or still running at the timeout. */
  datatype Outcome = Exited(status: int) | Hanging

  /** One `/usr/sbin/service <name> <verb>` run. */
  datatype Command = Command(name: string, verb: string)

  // ---------------------------------------------------------------------
  // The table

  /**
   * services_selection_add on the table: a new name gets exactly the given
   * action and flags; a known name gets the flags OR-ed in and the action
   * overwritten; no other entry changes.
   */
  function Added(m: map<string, ServiceData>, name: string, action: ServiceAction, flags: bv32): (r: map<string, ServiceData>)
    ensures r.Keys == m.Keys + {name}
    ensures name !in m ==> r[name] == ServiceData(name, flags, action)
    ensures name in m ==> r[name] == m[name].(flags := m[name].flags | flags, action := action)
    ensures forall n :: n in m && n != name ==> r[n] == m[n]
  {
    if name !in m then m[name := ServiceData(name, flags, action)]
    else m[name := m[name].(flags := m[name].flags | flags, action := action)]
  }

  /** The three public ways of adding. */
  datatype Op = BlockOp(name: string) | DirectOp(name: string, action: ServiceAction) | RdepOp(name: string, action: ServiceAction)

  function Apply(m: map<string, ServiceData>, op: Op): map<string, ServiceData> {
    match op
    case BlockOp(n) => Added(m, n, NoAction, FLAG_BLOCKED)
    case DirectOp(n, a) => Added(m, n, a, FLAG_DIRECT)
    case RdepOp(n, a) => Added(m, n, a, 0)
  }

  function ApplyAll(m: map<string, ServiceData>, ops: seq<Op>): map<string, ServiceData>
    decreases |ops|
  {
    if ops == [] then m else Apply(ApplyAll(m, ops[..|ops| - 1]), ops[|ops| - 1])
  }

  /** After any sequence of block/add_direct/add_rdep, exactly the names they were given have joined the table. */
  lemma {:induction false} ContainsExactlyAdded(m: map<string, ServiceData>, ops: seq<Op>, name: string)
    ensures name in ApplyAll(m, ops) <==> name in m || exists i :: 0 <= i < |ops| && ops[i].name == name
    decreases |ops|
  {
    if ops != [] {
      var init := ops[..|ops| - 1];
      ContainsExactlyAdded(m, init, name);
      if exists i :: 0 <= i < |init| && init[i].name == name {
        var i :| 0 <= i < |init| && init[i].name == name;
        assert ops[i].name == name;
      }
      if exists i :: 0 <= i < |ops| && ops[i].name == name {
        var i :| 0 <= i < |ops| && ops[i].name == name;
        if i < |init| {
          assert init[i].name == name;
        }
      }
    }
  }

  /** The iteration order after ops from (order, m): a name joins the end when it is first added. */
  function OrderAll(order: seq<string>, m: map<string, ServiceData>, ops: seq<Op>): seq<string>
    decreases |ops|
  {
    if ops == [] then order
    else
      var init := ops[..|ops| - 1];
      var n := ops[|ops| - 1].name;
      if n in ApplyAll(m, init) then OrderAll(order, m, init) else OrderAll(order, m, init) + [n]
  }

  /** One more operation, for a loop. */
  lemma AllSnoc(order: seq<string>, m: map<string, ServiceData>, ops: seq<Op>, op: Op)
    ensures ApplyAll(m, ops + [op]) == Apply(ApplyAll(m, ops), op)
    ensures OrderAll(order, m, ops + [op]) ==
      if op.name in ApplyAll(m, ops) then OrderAll(order, m, ops) else OrderAll(order, m, ops) + [op.name]
  {
    assert (ops + [op])[..|ops + [op]| - 1] == ops;
  }

  /** A loop over ops has applied its first k: the table and the order are those of ops[..k]. */
  ghost predicate AppliedPrefix(entries: map<string, ServiceData>, order: seq<string>,
                                m: map<string, ServiceData>, order0: seq<string>, ops: seq<Op>, k: nat)
  {
    k <= |ops| && entries == ApplyAll(m, ops[..k]) && order == OrderAll(order0, m, ops[..k])
  }

  /** One more operation of the loop. */
  lemma AppliedPrefixStep(entries: map<string, ServiceData>, order: seq<string>,
                          m: map<string, ServiceData>, order0: seq<string>, ops: seq<Op>, k: nat)
    requires AppliedPrefix(entries, order, m, order0, ops, k) && k < |ops|
    ensures AppliedPrefix(Apply(entries, ops[k]), if ops[k].name in entries then order else order + [ops[k].name],
                          m, order0, ops, k + 1)
  {
    assert ops[..k + 1] == ops[..k] + [ops[k]];
    AllSnoc(order0, m, ops[..k], ops[k]);
  }

  /** Adding ops a then ops b is adding a + b. */
  lemma {:induction false} AllAppend(order: seq<string>, m: map<string, ServiceData>, a: seq<Op>, b: seq<Op>)
    ensures ApplyAll(m, a + b) == ApplyAll(ApplyAll(m, a), b)
    ensures OrderAll(order, m, a + b) == OrderAll(OrderAll(order, m, a), ApplyAll(m, a), b)
    decreases |b|
  {
    if b == [] {
      assert a + b == a;
    } else {
      var b' := b[..|b| - 1];
      var op := b[|b| - 1];
      assert a + b == (a + b') + [op];
      assert b == b' + [op];
      AllAppend(order, m, a, b');
      AllSnoc(order, m, a + b', op);
      AllSnoc(OrderAll(order, m, a), ApplyAll(m, a), b', op);
    }
  }

  /** Blocking a selected service resets its action to NONE; once blocked, later additions keep it blocked. */
  lemma BlockingSticks(m: map<string, ServiceData>, name: string, action: ServiceAction, flags: bv32)
    ensures Added(m, name, NoAction, FLAG_BLOCKED)[name].action == NoAction
    ensures IsBlocked(Added(m, name, NoAction, FLAG_BLOCKED)[name])
    ensures name in m && IsBlocked(m[name]) ==> IsBlocked(Added(m, name, action, flags)[name])
  {
    if name in m && IsBlocked(m[name]) {
      var f := m[name].flags;
      assert (f | flags) & FLAG_BLOCKED == (f & FLAG_BLOCKED) | (flags & FLAG_BLOCKED);
    }
    if name in m {
      var f := m[name].flags;
      assert (f | FLAG_BLOCKED) & FLAG_BLOCKED == FLAG_BLOCKED;
    }
  }

  // ---------------------------------------------------------------------
  // The handler, on values

  /** The entries that are not blocked: those that get probed. */
  function Launched(es: seq<ServiceData>): (r: seq<ServiceData>)
    ensures forall e :: e in r <==> e in es && !IsBlocked(e)
    decreases |es|
  {
    if es == [] then []
    else Launched(es[..|es| - 1]) + (if IsBlocked(es[|es| - 1]) then [] else [es[|es| - 1]])
  }

  /** The probed entries whose probe exited 0: the second wave. */
  function Enabled(ls: seq<ServiceData>, probe: string -> Outcome): (r: seq<ServiceData>)
    ensures forall e :: e in r <==> e in ls && probe(e.name) == Exited(0)
    decreases |ls|
  {
    if ls == [] then []
    else Enabled(ls[..|ls| - 1], probe) + (if probe(ls[|ls| - 1].name) == Exited(0) then [ls[|ls| - 1]] else [])
  }

  /** First loop: a blocked entry is recorded as BLOCKED under its current action. */
  function RecordBlocked(t: Table, es: seq<ServiceData>): (r: Table)
    requires WellFormed(t)
    ensures WellFormed(r)
    decreases |es|
  {
    if es == [] then t
    else
      var r := RecordBlocked(t, es[..|es| - 1]);
      var e := es[|es| - 1];
      if IsBlocked(e) then Record(r, e.name, e.action, Blocked) else r
  }

  /** First wave's callbacks: a hanging probe records PROBING_FAILED; any exit records nothing. */
  function RecordProbes(t: Table, ls: seq<ServiceData>, probe: string -> Outcome): (r: Table)
    requires WellFormed(t)
    ensures WellFormed(r)
    decreases |ls|
  {
    if ls == [] then t
    else
      var r := RecordProbes(t, ls[..|ls| - 1], probe);
      var e := ls[|ls| - 1];
      if probe(e.name) == Hanging then Record(r, e.name, e.action, ProbingFailed) else r
  }

  function ActionStatus(o: Outcome): ServiceStatus {
    if o == Exited(0) then Success else Failed
  }

  /** Second wave's callbacks: exit 0 records SUCCESS; another exit or a hang records FAILED. */
  function RecordActions(t: Table, en: seq<ServiceData>, act: string -> Outcome): (r: Table)
    requires WellFormed(t)
    ensures WellFormed(r)
    decreases |en|
  {
    if en == [] then t
    else
      var r := RecordActions(t, en[..|en| - 1], act);
      var e := en[|en| - 1];
      Record(r, e.name, e.action, ActionStatus(act(e.name)))
  }

  /** What services_selection_handle records, given the table in iteration order. */
  function HandleResult(es: seq<ServiceData>, probe: string -> Outcome, act: string -> Outcome): (t: Table)
    ensures WellFormed(t)
  {
    var ls := Launched(es);
    RecordActions(RecordProbes(RecordBlocked(EmptyTable(), es), ls, probe), Enabled(ls, probe), act)
  }

  /** The second-wave verb: "stop" for STOP and "restart" otherwise. */
  function Verb(a: ServiceAction): string {
    if a == Stop then "stop" else "restart"
  }

  function Probes(ls: seq<ServiceData>): (r: seq<Command>)
    ensures |r| == |ls| && forall i :: 0 <= i < |ls| ==> r[i] == Command(ls[i].name, "enabled")
  {
    seq(|ls|, i requires 0 <= i < |ls| => Command(ls[i].name, "enabled"))
  }

  function Actions(en: seq<ServiceData>): (r: seq<Command>)
    ensures |r| == |en| && forall i :: 0 <= i < |en| ==> r[i] == Command(en[i].name, Verb(en[i].action))
  {
    seq(|en|, i requires 0 <= i < |en| => Command(en[i].name, Verb(en[i].action)))
  }

  /** The commands run: a probe per entry that is not blocked, then the verb per entry whose probe exited 0. */
  function HandleCommands(es: seq<ServiceData>, probe: string -> Outcome): seq<Command> {
    var ls := Launched(es);
    Probes(ls) + Actions(Enabled(ls, probe))
  }

  // ---------------------------------------------------------------------
  // Bucket contents, stated outright

  /** The names of the entries satisfying a test, in order. */
  function BlockedNames(es: seq<ServiceData>, a: ServiceAction): seq<string>
    decreases |es|
  {
    if es == [] then []
    else
      var e := es[|es| - 1];
      BlockedNames(es[..|es| - 1], a) + (if IsBlocked(e) && e.action == a then [e.name] else [])
  }

  function HungNames(ls: seq<ServiceData>, probe: string -> Outcome, a: ServiceAction): seq<string>
    decreases |ls|
  {
    if ls == [] then []
    else
      var e := ls[|ls| - 1];
      HungNames(ls[..|ls| - 1], probe, a) + (if probe(e.name) == Hanging && e.action == a then [e.name] else [])
  }

  function ActedNames(en: seq<ServiceData>, act: string -> Outcome, a: ServiceAction, s: ServiceStatus): seq<string>
    decreases |en|
  {
    if en == [] then []
    else
      var e := en[|en| - 1];
      ActedNames(en[..|en| - 1], act, a, s) + (if ActionStatus(act(e.name)) == s && e.action == a then [e.name] else [])
  }

  lemma {:induction false} BlockedBuckets(t: Table, es: seq<ServiceData>, a: ServiceAction, s: ServiceStatus)
    requires WellFormed(t) && a != NoAction
    ensures Bucket(RecordBlocked(t, es), a, s) == Bucket(t, a, s) + (if s == Blocked then BlockedNames(es, a) else [])
    decreases |es|
  {
    if es != [] {
      BlockedBuckets(t, es[..|es| - 1], a, s);
    }
  }

  lemma {:induction false} ProbeBuckets(t: Table, ls: seq<ServiceData>, probe: string -> Outcome, a: ServiceAction, s: ServiceStatus)
    requires WellFormed(t) && a != NoAction
    ensures Bucket(RecordProbes(t, ls, probe), a, s) == Bucket(t, a, s) + (if s == ProbingFailed then HungNames(ls, probe, a) else [])
    decreases |ls|
  {
    if ls != [] {
      ProbeBuckets(t, ls[..|ls| - 1], probe, a, s);
    }
  }

  lemma {:induction false} ActionBuckets(t: Table, en: seq<ServiceData>, act: string -> Outcome, a: ServiceAction, s: ServiceStatus)
    requires WellFormed(t) && a != NoAction
    ensures Bucket(RecordActions(t, en, act), a, s) == Bucket(t, a, s) + ActedNames(en, act, a, s)
    decreases |en|
  {
    if en != [] {
      ActionBuckets(t, en[..|en| - 1], act, a, s);
    }
  }

  lemma ActedNamesNone(en: seq<ServiceData>, act: string -> Outcome, a: ServiceAction, s: ServiceStatus)
    requires s == Blocked || s == ProbingFailed
    ensures ActedNames(en, act, a, s) == []
    decreases |en|
  {
    if en != [] {
      ActedNamesNone(en[..|en| - 1], act, a, s);
    }
  }

  /** Each bucket after handling is what the three recording passes appended to it, in that order. */
  lemma HandleBucket(es: seq<ServiceData>, probe: string -> Outcome, act: string -> Outcome, a: ServiceAction, s: ServiceStatus)
    requires a != NoAction
    ensures Bucket(HandleResult(es, probe, act), a, s) ==
      (if s == Blocked then BlockedNames(es, a) else []) +
      (if s == ProbingFailed then HungNames(Launched(es), probe, a) else []) +
      ActedNames(Enabled(Launched(es), probe), act, a, s)
  {
    var ls := Launched(es);
    var t1 := RecordBlocked(EmptyTable(), es);
    var t2 := RecordProbes(t1, ls, probe);
    var b := if s == Blocked then BlockedNames(es, a) else [];
    var h := if s == ProbingFailed then HungNames(ls, probe, a) else [];
    EmptyBuckets(a, s);
    BlockedBuckets(EmptyTable(), es, a, s);
    assert Bucket(t1, a, s) == b;
    ProbeBuckets(t1, ls, probe, a, s);
    assert Bucket(t2, a, s) == b + h;
    ActionBuckets(t2, Enabled(ls, probe), act, a, s);
  }

  /**
   * The eight buckets after handling: BLOCKED holds the blocked entries,
   * PROBING_FAILED the probes that hung, SUCCESS and FAILED the second-wave
   * outcomes of the entries whose probe exited 0; each under the entry's
   * action and in table order.
   */
  lemma HandleBuckets(es: seq<ServiceData>, probe: string -> Outcome, act: string -> Outcome, a: ServiceAction)
    requires a != NoAction
    ensures Bucket(HandleResult(es, probe, act), a, Blocked) == BlockedNames(es, a)
    ensures Bucket(HandleResult(es, probe, act), a, ProbingFailed) == HungNames(Launched(es), probe, a)
    ensures Bucket(HandleResult(es, probe, act), a, Success) == ActedNames(Enabled(Launched(es), probe), act, a, Success)
    ensures Bucket(HandleResult(es, probe, act), a, Failed) == ActedNames(Enabled(Launched(es), probe), act, a, Failed)
  {
    var en := Enabled(Launched(es), probe);
    HandleBucket(es, probe, act, a, Blocked);
    HandleBucket(es, probe, act, a, ProbingFailed);
    HandleBucket(es, probe, act, a, Success);
    HandleBucket(es, probe, act, a, Failed);
    ActedNamesNone(en, act, a, Blocked);
    ActedNamesNone(en, act, a, ProbingFailed);
  }

  /** A name is in a hung, acted or blocked list only if some listed entry of that name passes the test. */
  lemma ActedNamesMembers(en: seq<ServiceData>, act: string -> Outcome, a: ServiceAction, s: ServiceStatus, n: string)
    ensures n in ActedNames(en, act, a, s) ==>
      exists e :: e in en && e.name == n && e.action == a && ActionStatus(act(n)) == s
    decreases |en|
  {
    if en != [] {
      ActedNamesMembers(en[..|en| - 1], act, a, s, n);
    }
  }

  lemma HungNamesMembers(ls: seq<ServiceData>, probe: string -> Outcome, a: ServiceAction, n: string)
    ensures n in HungNames(ls, probe, a) ==> exists e :: e in ls && e.name == n && e.action == a && probe(n) == Hanging
    decreases |ls|
  {
    if ls != [] {
      HungNamesMembers(ls[..|ls| - 1], probe, a, n);
    }
  }

  lemma BlockedNamesMembers(es: seq<ServiceData>, a: ServiceAction, n: string)
    ensures n in BlockedNames(es, a) ==> exists e :: e in es && e.name == n && e.action == a && IsBlocked(e)
    decreases |es|
  {
    if es != [] {
      BlockedNamesMembers(es[..|es| - 1], a, n);
    }
  }

  /** Every command names an entry that is not blocked; second-wave commands name entries whose probe exited 0. */
  lemma CommandsOf(es: seq<ServiceData>, probe: string -> Outcome, c: Command)
    requires c in HandleCommands(es, probe)
    ensures exists d :: d in es && !IsBlocked(d) && d.name == c.name && (c.verb != "enabled" ==> probe(d.name) == Exited(0))
  {
    var ls := Launched(es);
    var en := Enabled(ls, probe);
    var cs := Probes(ls) + Actions(en);
    var i :| 0 <= i < |cs| && cs[i] == c;
    if i < |ls| {
      assert cs[i] == Probes(ls)[i];
      assert ls[i] in es && !IsBlocked(ls[i]) && c.name == ls[i].name;
    } else {
      assert cs[i] == Actions(en)[i - |ls|];
      assert en[i - |ls|] in ls;
      assert en[i - |ls|] in es && c.name == en[i - |ls|].name;
    }
  }

  /** A blocked entry is never probed nor acted on: no command names it. */
  lemma BlockedNeverProbed(es: seq<ServiceData>, probe: string -> Outcome, e: ServiceData)
    requires e in es && IsBlocked(e)
    requires forall i, j :: 0 <= i < j < |es| ==> es[i].name != es[j].name
    ensures forall c :: c in HandleCommands(es, probe) ==> c.name != e.name
  {
    forall c | c in HandleCommands(es, probe)
      ensures c.name != e.name
    {
      CommandsOf(es, probe, c);
    }
  }

  /** An entry whose probe exited non-zero is recorded in no bucket and gets no second-wave command. */
  lemma NonZeroProbeDropped(es: seq<ServiceData>, probe: string -> Outcome, act: string -> Outcome, e: ServiceData, a: ServiceAction, s: ServiceStatus)
    requires e in es && a != NoAction && !IsBlocked(e) && probe(e.name).Exited? && probe(e.name) != Exited(0)
    requires forall i, j :: 0 <= i < j < |es| ==> es[i].name != es[j].name
    ensures e.name !in Bucket(HandleResult(es, probe, act), a, s)
    ensures forall c :: c in HandleCommands(es, probe) && c.name == e.name ==> c.verb == "enabled"
  {
    var ls := Launched(es);
    HandleBucket(es, probe, act, a, s);
    BlockedNamesMembers(es, a, e.name);
    HungNamesMembers(ls, probe, a, e.name);
    ActedNamesMembers(Enabled(ls, probe), act, a, s, e.name);
    forall c | c in HandleCommands(es, probe) && c.name == e.name
      ensures c.verb == "enabled"
    {
      CommandsOf(es, probe, c);
    }
  }

  // ---------------------------------------------------------------------
  // The table object

  class ServicesSelection {
    var entries: map<string, ServiceData>
    /** The names in the order they were first added: the order the table is iterated in. */
    var order: seq<string>

    predicate Valid()
      reads this
    {
      (forall i, j :: 0 <= i < j < |order| ==> order[i] != order[j]) &&
      entries.Keys == (set n | n in order) &&
      (forall n :: n in entries ==> entries[n].name == n)
    }

    /** The entries in iteration order. */
    function Listing(): (es: seq<ServiceData>)
      requires Valid()
      reads this
      ensures |es| == |order| && forall i :: 0 <= i < |order| ==> es[i] == entries[order[i]]
    {
      seq(|order|, i requires 0 <= i < |order| && order[i] in entries reads this => entries[order[i]])
    }

    /** services_selection_create */
    constructor ()
      ensures Valid() && entries == map[] && order == []
    {
      entries := map[];
      order := [];
    }

    /** services_selection_add(ss, name, action, flags) */
    method Add(name: string, action: ServiceAction, flags: bv32)
      requires Valid()
      modifies this
      ensures Valid()
      ensures entries == Added(old(entries), name, action, flags)
      ensures order == if name in old(entries) then old(order) else old(order) + [name]
    {
      if name !in entries {
        order := order + [name];
      }
      entries := Added(entries, name, action, flags);
    }

    /** services_selection_block: add(name, NONE, BLOCKED) */
    method Block(name: string)
      requires Valid()
      modifies this
      ensures Valid()
      ensures entries == Apply(old(entries), BlockOp(name))
      ensures order == if name in old(entries) then old(order) else old(order) + [name]
    {
      Add(name, NoAction, FLAG_BLOCKED);
    }

    /** services_selection_add_direct: add(name, action, DIRECT) */
    method AddDirect(name: string, action: ServiceAction)
      requires Valid()
      modifies this
      ensures Valid()
      ensures entries == Apply(old(entries), DirectOp(name, action))
      ensures order == if name in old(entries) then old(order) else old(order) + [name]
    {
      Add(name, action, FLAG_DIRECT);
    }

    /** services_selection_add_rdep: add(name, action, no flag) */
    method AddRdep(name: string, action: ServiceAction)
      requires Valid()
      modifies this
      ensures Valid()
      ensures entries == Apply(old(entries), RdepOp(name, action))
      ensures order == if name in old(entries) then old(order) else old(order) + [name]
    {
      Add(name, action, 0);
    }

    /** services_selection_contains */
    method Contains(name: string) returns (b: bool)
      requires Valid()
      ensures b <==> name in entries
      ensures b <==> name in order
    {
      b := name in entries;
    }

    /**
     * services_selection_handle: record the blocked entries and probe the
     * others; keep those whose probe exited 0 and stop or restart them;
     * record every outcome. Returns the result table and the commands run.
     */
    method Handle(probe: string -> Outcome, act: string -> Outcome) returns (sr: ServicesResult, commands: seq<Command>)
      requires Valid()
      ensures fresh(sr) && sr.Valid()
      ensures sr.lists == HandleResult(Listing(), probe, act)
      ensures commands == HandleCommands(Listing(), probe)
    {
      var es := Listing();
      sr := new ServicesResult();
      var launched;
      launched, commands := FirstWave(sr, es);
      var enabled := AwaitProbes(sr, launched, probe);
      var actions := SecondWave(enabled);
      commands := commands + actions;
      AwaitActions(sr, enabled, act);
    }
  }

  /** The first loop of services_selection_handle: blocked entries are recorded, the others probed. */
  method FirstWave(sr: ServicesResult, es: seq<ServiceData>) returns (launched: seq<ServiceData>, probes: seq<Command>)
    requires sr.Valid() && sr.lists == EmptyTable()
    modifies sr
    ensures sr.Valid() && sr.lists == RecordBlocked(EmptyTable(), es)
    ensures launched == Launched(es) && probes == Probes(launched)
  {
    launched, probes := [], [];
    for i := 0 to |es|
      invariant sr.Valid() && sr.lists == RecordBlocked(EmptyTable(), es[..i])
      invariant launched == Launched(es[..i]) && probes == Probes(launched)
    {
      assert es[..i + 1][..i] == es[..i];
      var sd := es[i];
      if sd.flags & FLAG_BLOCKED == FLAG_BLOCKED {
        sr.Add(sd.name, sd.action, Blocked);
        continue;
      }
      probes := probes + [Command(sd.name, "enabled")];
      launched := launched + [sd];
    }
    assert es[..|es|] == es;
  }

  /** The first wave's processes report back: exit 0 joins the second wave, a hang is PROBING_FAILED. */
  method AwaitProbes(sr: ServicesResult, launched: seq<ServiceData>, probe: string -> Outcome) returns (enabled: seq<ServiceData>)
    requires sr.Valid()
    modifies sr
    ensures sr.Valid() && sr.lists == RecordProbes(old(sr.lists), launched, probe)
    ensures enabled == Enabled(launched, probe)
  {
    enabled := [];
    for i := 0 to |launched|
      invariant sr.Valid() && sr.lists == RecordProbes(old(sr.lists), launched[..i], probe)
      invariant enabled == Enabled(launched[..i], probe)
    {
      assert launched[..i + 1][..i] == launched[..i];
      var sd := launched[i];
      match probe(sd.name)
      case Exited(status) =>
        if status == 0 {
          enabled := enabled + [sd];
        }
      case Hanging =>
        sr.Add(sd.name, sd.action, ProbingFailed);
    }
    assert launched[..|launched|] == launched;
  }

  /** The second loop: "stop" or "restart" for each entry whose probe exited 0. */
  method SecondWave(enabled: seq<ServiceData>) returns (actions: seq<Command>)
    ensures actions == Actions(enabled)
  {
    actions := [];
    for i := 0 to |enabled|
      invariant actions == Actions(enabled[..i])
    {
      actions := actions + [Command(enabled[i].name, Verb(enabled[i].action))];
    }
    assert enabled[..|enabled|] == enabled;
  }

  /** The second wave's processes report back: SUCCESS on exit 0, FAILED otherwise. */
  method AwaitActions(sr: ServicesResult, enabled: seq<ServiceData>, act: string -> Outcome)
    requires sr.Valid()
    modifies sr
    ensures sr.Valid() && sr.lists == RecordActions(old(sr.lists), enabled, act)
  {
    for i := 0 to |enabled|
      invariant sr.Valid() && sr.lists == RecordActions(old(sr.lists), enabled[..i], act)
    {
      assert enabled[..i + 1][..i] == enabled[..i];
      var sd := enabled[i];
      var status := if act(sd.name) == Exited(0) then Success else Failed;
      sr.Add(sd.name, sd.action, status);
    }
    assert enabled[..|enabled|] == enabled;
  }
}
