/**
 * Decisions of the ZFS integration plugin
 * (plugins/zfs_integration/plugin_zfs_integration.c): which backup method
 * is used, how hook names map to hook numbers, whether a package operation
 * takes a snapshot, and which snapshot a rollback picks.
 *
 * The backup methods' `suitable`, `list` and `snapshot` callbacks are
 * foreign code; their outcomes are inputs. The table of hook names comes
 * from hooks.h, which is not part of this model, and is a parameter.
 */
module ZfsIntegration {
  import opened Common
  import opened DLists
  import opened Snapshots

  /** bm_code_t */
  datatype BmCode = BmOk | BmSkip | BmError

  /** The plugin's exit statuses. */
  datatype PkgStatus = EpkgOk | EpkgFatal | ExUsage

  datatype BackupMethod = BeMethod | RawZfsMethod | NoneMethod

  /** available_methods: the boot-environment method (when built with it), then raw ZFS, then none. */
  function AvailableMethods(haveBe: bool): (ms: seq<BackupMethod>)
    ensures |ms| >= 2 && ms[|ms| - 2..] == [RawZfsMethod, NoneMethod]
    ensures haveBe <==> BeMethod in ms
    ensures haveBe ==> ms[0] == BeMethod
  {
    (if haveBe then [BeMethod] else []) + [RawZfsMethod, NoneMethod]
  }

  /**
   * Index of the first method whose `suitable` callback exists and answers
   * BM_OK or BM_ERROR; a missing callback (None) or BM_SKIP moves on.
   */
  function FirstDecisive(suitable: seq<Option<BmCode>>): (r: Option<nat>)
    ensures r.Some? ==> r.value < |suitable| && suitable[r.value] in {Some(BmOk), Some(BmError)}
    ensures r.Some? ==> forall i :: 0 <= i < r.value ==> suitable[i] !in {Some(BmOk), Some(BmError)}
    ensures r.None? ==> forall i :: 0 <= i < |suitable| ==> suitable[i] !in {Some(BmOk), Some(BmError)}
  {
    if suitable == [] then None
    else if suitable[0] in {Some(BmOk), Some(BmError)} then Some(0)
    else match FirstDecisive(suitable[1..]) {
      case None => None
      case Some(k) => Some(k + 1)
    }
  }

  /** The number of methods find_backup_method looks at: up to the decisive one. */
  function Examined(suitable: seq<Option<BmCode>>): (n: nat)
    ensures n <= |suitable|
  {
    match FirstDecisive(suitable) {
      case None => |suitable|
      case Some(k) => k + 1
    }
  }

  class ZintPlugin {
    /** The global `method`: index of the chosen backup method, None for NULL. */
    var chosen: Option<nat>
    /** The global `force` (configuration key FORCE). */
    var force: bool

    constructor (force: bool)
      ensures chosen.None? && this.force == force
    {
      chosen := None;
      this.force := force;
    }

    /**
     * find_backup_method: asks the methods in order; the first BM_OK is
     * chosen, the first BM_ERROR is fatal, and either ends the search. When
     * every method skips the status is EPKG_OK and `method` is left as it
     * was. `probed` lists the methods whose callback was called.
     */
    method FindBackupMethod(suitable: seq<Option<BmCode>>) returns (status: PkgStatus, probed: seq<nat>)
      modifies this`chosen
      ensures status in {EpkgOk, EpkgFatal}
      ensures status == EpkgFatal <==> exists k :: FirstDecisive(suitable) == Some(k) && suitable[k] == Some(BmError)
      ensures chosen == match FirstDecisive(suitable) {
                case Some(k) => if suitable[k] == Some(BmOk) then Some(k) else old(chosen)
                case None => old(chosen)
              }
      ensures forall i: nat :: i in probed <==> i < Examined(suitable) && suitable[i].Some?
    {
      status := EpkgOk;
      probed := [];
      var i := 0;
      while i < |suitable|
        invariant 0 <= i <= |suitable|
        invariant forall j :: 0 <= j < i ==> suitable[j] !in {Some(BmOk), Some(BmError)}
        invariant forall j: nat :: j in probed <==> j < i && suitable[j].Some?
        invariant chosen == old(chosen)
      {
        if suitable[i].Some? {
          probed := probed + [i];
          var code := suitable[i].value;
          if code == BmOk {
            status := EpkgOk;
            chosen := Some(i);
            FirstDecisiveAt(suitable, i);
            return;
          } else if code == BmError {
            status := EpkgFatal;
            FirstDecisiveAt(suitable, i);
            return;
          }
        }
        i := i + 1;
      }
      NoDecisive(suitable);
    }

    /**
     * real_handle_hooks: with no job and without `force` nothing is done and
     * the status is EPKG_OK; otherwise a snapshot is taken and its outcome
     * (an input here) decides the status.
     */
    method HandleHook(jobsCount: nat, snapshotTaken: bool) returns (status: PkgStatus, attempted: bool)
      ensures attempted <==> jobsCount != 0 || force
      ensures status == (if !attempted || snapshotTaken then EpkgOk else EpkgFatal)
    {
      if jobsCount == 0 && !force {
        return EpkgOk, false;
      }
      attempted := true;
      status := if snapshotTaken then EpkgOk else EpkgFatal;
    }
  }

  lemma {:induction false} FirstDecisiveAt(suitable: seq<Option<BmCode>>, i: nat)
    requires i < |suitable| && suitable[i] in {Some(BmOk), Some(BmError)}
    requires forall j :: 0 <= j < i ==> suitable[j] !in {Some(BmOk), Some(BmError)}
    ensures FirstDecisive(suitable) == Some(i)
  {
    if i > 0 {
      FirstDecisiveAt(suitable[1..], i - 1);
    }
  }

  lemma {:induction false} NoDecisive(suitable: seq<Option<BmCode>>)
    requires forall j :: 0 <= j < |suitable| ==> suitable[j] !in {Some(BmOk), Some(BmError)}
    ensures FirstDecisive(suitable) == None
  {
    if suitable != [] {
      NoDecisive(suitable[1..]);
    }
  }

  /** hook_to_name: the entry of the hook table; the C code does not check the index. */
  function HookToName(hooks: seq<Option<string>>, hook: int): Option<string>
    requires 0 <= hook < |hooks|
  {
    hooks[hook]
  }

  /** The first index whose entry is the given name, -1 when there is none. */
  function HookIndex(hooks: seq<Option<string>>, name: string): (h: int)
    ensures -1 <= h < |hooks|
    ensures h >= 0 ==> hooks[h] == Some(name) && forall i :: 0 <= i < h ==> hooks[i] != Some(name)
    ensures h == -1 <==> Some(name) !in hooks
  {
    if hooks == [] then -1
    else if hooks[0] == Some(name) then 0
    else
      var h := HookIndex(hooks[1..], name);
      if h == -1 then -1 else h + 1
  }

  /**
   * name_to_hook: -1 for NULL or a name no entry holds, otherwise the first
   * index whose entry is the name; hook_to_name of that index gives it back.
   */
  method NameToHook(hooks: seq<Option<string>>, name: Option<string>) returns (hook: int)
    ensures name.None? ==> hook == -1
    ensures name.Some? ==> hook == HookIndex(hooks, name.value)
    ensures hook >= 0 ==> hook < |hooks| && HookToName(hooks, hook) == name
  {
    hook := -1;
    if name.Some? {
      var i := 0;
      while i < |hooks|
        invariant 0 <= i <= |hooks|
        invariant Some(name.value) !in hooks[..i]
      {
        if hooks[i].Some? && hooks[i].value == name.value {
          hook := i;
          FirstIndexIsHookIndex(hooks, name.value, i);
          return;
        }
        assert hooks[..i + 1] == hooks[..i] + [hooks[i]];
        i := i + 1;
      }
      assert hooks[..i] == hooks;
    }
  }

  lemma {:induction false} FirstIndexIsHookIndex(hooks: seq<Option<string>>, name: string, i: nat)
    requires i < |hooks| && hooks[i] == Some(name) && Some(name) !in hooks[..i]
    ensures HookIndex(hooks, name) == i
  {
    if i > 0 {
      assert hooks[0] in hooks[..i];
      assert hooks[1..][..i - 1] == hooks[1..i];
      assert forall x :: x in hooks[1..i] ==> x in hooks[..i];
      FirstIndexIsHookIndex(hooks[1..], name, i - 1);
    }
  }

  /** In a table without repeated names, each named hook maps back to its own index. */
  lemma {:induction false} HookRoundTrip(hooks: seq<Option<string>>, hook: nat)
    requires hook < |hooks| && hooks[hook].Some?
    requires forall i, j :: 0 <= i < j < |hooks| && hooks[i].Some? ==> hooks[i] != hooks[j]
    ensures HookIndex(hooks, HookToName(hooks, hook).value) == hook
  {
    var name := hooks[hook].value;
    assert Some(name) !in hooks[..hook] by {
      forall x | x in hooks[..hook] ensures x != Some(name) {
        var i :| 0 <= i < hook && hooks[..hook][i] == x;
        assert hooks[i] == x;
      }
    }
    FirstIndexIsHookIndex(hooks, name, hook);
  }

  /**
   * One round of the rollback loop: dlist_sort with the newest-first
   * comparison, then dlist_at(0). None when the list is empty.
   */
  method PickNewest(l: DList<Snapshot>) returns (last: Option<Snapshot>)
    requires l.Valid()
    modifies l`items
    ensures l.Valid() && multiset(l.items) == multiset(old(l.items))
    ensures last.None? <==> old(l.items) == []
    ensures last.Some? ==> last.value in old(l.items)
    ensures last.Some? && CloseInTime(Elements(old(l.items))) ==>
              forall x | x in old(l.items) :: last.value.creation >= x.creation
  {
    ghost var before := l.items;
    l.Sort(CompareByCreationDesc);
    last := l.At(0);
    if last.None? {
      return;
    }
    NewestAfterSort(before, l.items);
  }

  /** What the rollback command ends with. */
  datatype RollbackOutcome = RollbackOutcome(status: PkgStatus, picks: seq<Snapshot>, noPreviousVersion: bool)

  /** The command line is accepted when no option is unknown and the only operand is "rollback". */
  predicate RollbackUsage(badOption: bool, operands: seq<string>) {
    !badOption && operands == ["rollback"]
  }

  /**
   * The rollback command of pkg_zint_main. `listed` is what the method's
   * `list` callback produced, None when it failed. Each list is sorted newest
   * first in place and its element 0 is picked; the first empty list reports
   * "no identified previous version to rollback to" and ends the loop, and
   * the status is EPKG_OK all the same. The rollback itself is compiled out
   * in the source, so nothing else happens.
   */
  method Rollback(badOption: bool, operands: seq<string>, listed: Option<seq<DList<Snapshot>>>)
    returns (outcome: RollbackOutcome)
    requires listed.Some? ==> forall i, j :: 0 <= i < j < |listed.value| ==> listed.value[i] != listed.value[j]
    requires listed.Some? ==> forall l | l in listed.value :: l.Valid()
    modifies if listed.Some? then set l | l in listed.value else {}
    ensures !RollbackUsage(badOption, operands) ==> outcome == RollbackOutcome(ExUsage, [], false)
    ensures RollbackUsage(badOption, operands) && listed.None? ==> outcome == RollbackOutcome(EpkgFatal, [], false)
    ensures RollbackUsage(badOption, operands) && listed.Some? ==>
              var ls := listed.value;
              outcome.status == EpkgOk && |outcome.picks| <= |ls| &&
              (forall k :: 0 <= k < |outcome.picks| ==> old(ls[k].items) != [] && outcome.picks[k] in old(ls[k].items)) &&
              (forall k :: 0 <= k < |outcome.picks| && CloseInTime(Elements(old(ls[k].items))) ==>
                 forall x | x in old(ls[k].items) :: outcome.picks[k].creation >= x.creation) &&
              (outcome.noPreviousVersion <==> |outcome.picks| < |ls|) &&
              (outcome.noPreviousVersion ==> old(ls[|outcome.picks|].items) == [])
  {
    if !RollbackUsage(badOption, operands) {
      return RollbackOutcome(ExUsage, [], false);
    }
    if listed.None? {
      return RollbackOutcome(EpkgFatal, [], false);
    }
    var ls := listed.value;
    var picks: seq<Snapshot> := [];
    var i := 0;
    while i < |ls|
      invariant 0 <= i <= |ls| && |picks| == i
      invariant forall l | l in ls :: l.Valid()
      invariant forall k :: i <= k < |ls| ==> ls[k].items == old(ls[k].items)
      invariant forall k :: 0 <= k < i ==> old(ls[k].items) != [] && picks[k] in old(ls[k].items)
      invariant forall k :: 0 <= k < i && CloseInTime(Elements(old(ls[k].items))) ==>
                  forall x | x in old(ls[k].items) :: picks[k].creation >= x.creation
    {
      var last := PickNewest(ls[i]);
      if last.None? {
        return RollbackOutcome(EpkgOk, picks, true);
      }
      picks := picks + [last.value];
      i := i + 1;
    }
    outcome := RollbackOutcome(EpkgOk, picks, false);
  }
}
