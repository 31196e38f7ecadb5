/**
 The alert engine's state file (hub/alerts.py).  Python keeps one flat
 dictionary; its string-valued entries are `levels`, and each bookkeeping
 sub-dictionary is a field of its own.
 */
module AlertState {
  import opened Options

  datatype Level = Ok | Warn | Down | Other(text: string)

  /** The levels that page somebody. */
  predicate Bad(l: Level) {
    l.Warn? || l.Down?
  }

  datatype Event = Problem(level: Level) | Resolved

  datatype Alert = Alert(id: string, event: Event)

  datatype StateFile = StateFile(
    levels: map<string, Level>,
    pending: set<string>,
    resourceLast: map<string, int>,
    smartLast: map<string, int>,
    smartDetail: map<string, string>)

  const EMPTY_FILE := StateFile(map[], {}, map[], map[], map[])

  const RESERVED_PREFIXES: seq<string> := ["resource:", "smart:", "freshness:", "ups:", "stale_runtime:"]

  /** State keys that never belong to a service row. */
  predicate Reserved(id: string) {
    "_" <= id || exists i :: 0 <= i < |RESERVED_PREFIXES| && RESERVED_PREFIXES[i] <= id
  }

  /**
   The dictionary one sweep rebuilds.  The bookkeeping maps are copied across
   before any check runs, so a check that returns early does not lose them.
   */
  class NewState {
    var levels: map<string, Level>
    var pending: set<string>
    var resourceLast: map<string, int>
    var smartLast: map<string, int>
    var smartDetail: map<string, string>

    constructor CarriedFrom(prev: StateFile)
      ensures View() == prev.(levels := map[])
    {
      levels := map[];
      pending := prev.pending;
      resourceLast := prev.resourceLast;
      smartLast := prev.smartLast;
      smartDetail := prev.smartDetail;
    }

    function View(): StateFile
      reads this
    {
      StateFile(levels, pending, resourceLast, smartLast, smartDetail)
    }
  }

  /** The alerts about one id, in emission order. */
  function About(alerts: seq<Alert>, id: string): seq<Event> {
    if alerts == [] then []
    else
      var rest := About(alerts[..|alerts| - 1], id);
      var last := alerts[|alerts| - 1];
      if last.id == id then rest + [last.event] else rest
  }

  lemma {:induction false} AboutConcat(a: seq<Alert>, b: seq<Alert>, id: string)
    ensures About(a + b, id) == About(a, id) + About(b, id)
  {
    if b == [] {
      assert a + b == a;
    } else {
      assert (a + b)[..|a + b| - 1] == a + b[..|b| - 1];
      AboutConcat(a, b[..|b| - 1], id);
    }
  }

  function ToSeq<T>(o: Option<T>): seq<T> {
    if o.Some? then [o.value] else []
  }
}
