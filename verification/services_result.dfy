/**
 * The outcome table of a services run (plugins/services/services_result.c):
 * for each of the two actions, STOP and RESTART, and each of the four
 * statuses, the list of service names in the order they were recorded.
 * The action and status enums are those of plugins/services/services.h.
 */
module ServicesResult {

  datatype ServiceAction = NoAction | Stop | Restart

  datatype ServiceStatus = Failed | Blocked | Success | ProbingFailed

  /** SERVICES_RESULT_COUNT */
  const STATUS_COUNT: nat := 4

  /** lists[action - 1]: STOP is 1 and RESTART is 2. */
  function Row(a: ServiceAction): nat
    requires a != NoAction
  {
    if a == Stop then 0 else 1
  }

  function Column(s: ServiceStatus): nat {
    match s
    case Failed => 0
    case Blocked => 1
    case Success => 2
    case ProbingFailed => 3
  }

  type Table = seq<seq<seq<string>>>

  predicate WellFormed(t: Table) {
    |t| == 2 && |t[0]| == STATUS_COUNT && |t[1]| == STATUS_COUNT
  }

  function Bucket(t: Table, a: ServiceAction, s: ServiceStatus): seq<string>
    requires WellFormed(t) && a != NoAction
  {
    t[Row(a)][Column(s)]
  }

  function EmptyTable(): (t: Table)
    ensures WellFormed(t)
  {
    [[[], [], [], []], [[], [], [], []]]
  }

  /** A new table has all eight buckets empty. */
  lemma EmptyBuckets(a: ServiceAction, s: ServiceStatus)
    requires a != NoAction
    ensures Bucket(EmptyTable(), a, s) == []
  {
  }

  /**
   * services_result_add on the table: nothing for NONE; otherwise name is
   * appended to the one bucket of (action, status) and no other changes.
   */
  function Record(t: Table, name: string, a: ServiceAction, s: ServiceStatus): (r: Table)
    requires WellFormed(t)
    ensures WellFormed(r)
    ensures a == NoAction ==> r == t
    ensures forall a', s' | a' != NoAction ::
      Bucket(r, a', s') == if a' == a && s' == s then Bucket(t, a', s') + [name] else Bucket(t, a', s')
  {
    if a == NoAction then t
    else
      var row := t[Row(a)];
      t[Row(a) := row[Column(s) := row[Column(s)] + [name]]]
  }

  class ServicesResult {
    var lists: Table

    predicate Valid()
      reads this
    {
      WellFormed(lists)
    }

    /** services_result_create */
    constructor ()
      ensures Valid() && lists == EmptyTable()
    {
      lists := EmptyTable();
    }

    /** services_result_add(sr, name, action, status) */
    method Add(name: string, action: ServiceAction, status: ServiceStatus)
      requires Valid()
      modifies this
      ensures Valid()
      ensures lists == Record(old(lists), name, action, status)
    {
      if action != NoAction {
        var row := lists[Row(action)];
        lists := lists[Row(action) := row[Column(status) := row[Column(status)] + [name]]];
      }
    }

    /** services_result_to_iterator: the bucket's names, oldest first; only for STOP and RESTART. */
    method ToIterator(action: ServiceAction, status: ServiceStatus) returns (names: seq<string>)
      requires Valid()
      requires action == Stop || action == Restart
      ensures names == Bucket(lists, action, status)
    {
      names := lists[Row(action)][Column(status)];
    }
  }
}
