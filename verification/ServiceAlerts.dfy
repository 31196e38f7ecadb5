/**
 Service transition alerts with the two-sweep debounce
 (hub/alerts.py, `_service_transition_alerts`).

 `Step` is what one sweep does to one service; the method runs the source's two
 loops over whole dictionaries and is proved to be that step applied pointwise.
 The trace lemmas then say what a run of sweeps means without the pending set.
 */
module ServiceAlerts {
  import opened Options
  import opened AlertState

  datatype Row = Row(id: string, level: Level)

  /** What the state file knows about one id. */
  datatype Slot = Slot(level: Option<Level>, pending: bool)

  datatype Outcome = Outcome(slot: Slot, event: Option<Event>)

  const FRESH := Slot(None, false)

  function SlotOf(levels: map<string, Level>, pending: set<string>, id: string): Slot {
    Slot(Get(levels, id), id in pending)
  }

  predicate Troubled(l: Option<Level>) {
    l.Some? && Bad(l.value)
  }

  /** One sweep over one service; `obs` is None when the row is gone. */
  function Step(slot: Slot, obs: Option<Level>): Outcome {
    match obs
    case Some(level) =>
      var settled := Slot(obs, false);
      if slot.level.None? then Outcome(settled, None)
      else if Bad(level) then
        if !Bad(slot.level.value) && !slot.pending then Outcome(Slot(obs, true), None)
        else if slot.pending || level != slot.level.value then Outcome(settled, Some(Problem(level)))
        else Outcome(settled, None)
      else if Bad(slot.level.value) && level.Ok? then
        Outcome(settled, if slot.pending then None else Some(Resolved))
      else Outcome(settled, None)
    case None =>
      if Troubled(slot.level) then Outcome(FRESH, Some(Resolved))
      else Outcome(Slot(None, slot.pending), None)
  }

  predicate UniqueIds(rows: seq<Row>) {
    forall i, j :: 0 <= i < j < |rows| ==> rows[i].id != rows[j].id
  }

  /** The level of `id` among the rows of this sweep. */
  function Observed(rows: seq<Row>, id: string): Option<Level> {
    if rows == [] then None
    else if rows[|rows| - 1].id == id then Some(rows[|rows| - 1].level)
    else Observed(rows[..|rows| - 1], id)
  }

  lemma {:induction false} ObservedMeaning(rows: seq<Row>, id: string)
    ensures Observed(rows, id).Some? <==> exists i :: 0 <= i < |rows| && rows[i].id == id
    ensures UniqueIds(rows) ==> forall i :: 0 <= i < |rows| && rows[i].id == id ==> Observed(rows, id) == Some(rows[i].level)
  {
    if rows != [] {
      var n := |rows| - 1;
      ObservedMeaning(rows[..n], id);
      assert forall i :: 0 <= i < n ==> rows[i] == rows[..n][i];
    }
  }

  /** An ordering of a dictionary's keys, as iterating over it yields them. */
  ghost predicate KeyOrder(order: seq<string>, keys: set<string>) {
    && (forall i, j :: 0 <= i < j < |order| ==> order[i] != order[j])
    && (forall id :: id in order <==> id in keys)
  }

  function AlertFor(prev: StateFile, id: string, obs: Option<Level>): seq<Alert> {
    var e := Step(SlotOf(prev.levels, prev.pending, id), obs).event;
    if e.Some? then [Alert(id, e.value)] else []
  }

  function SeenAlerts(prev: StateFile, rows: seq<Row>): seq<Alert> {
    if rows == [] then []
    else
      var row := rows[|rows| - 1];
      SeenAlerts(prev, rows[..|rows| - 1]) + AlertFor(prev, row.id, Some(row.level))
  }

  predicate Watched(rows: seq<Row>, id: string) {
    !Reserved(id) && Observed(rows, id).None?
  }

  /** What one remembered id with no row emits. */
  function GoneAlert(prev: StateFile, rows: seq<Row>, id: string): seq<Alert> {
    if Watched(rows, id) then AlertFor(prev, id, None) else []
  }

  function GoneAlerts(prev: StateFile, rows: seq<Row>, order: seq<string>): seq<Alert> {
    if order == [] then []
    else GoneAlerts(prev, rows, order[..|order| - 1]) + GoneAlert(prev, rows, order[|order| - 1])
  }

  /** What the service check of one sweep does to the state file and emits. */
  ghost predicate Swept(prev: StateFile, rows: seq<Row>, order: seq<string>,
                        levels: map<string, Level>, pending: set<string>, emitted: seq<Alert>)
  {
    && (forall id :: Get(levels, id) == Observed(rows, id))
    && (forall id :: !Reserved(id) || Observed(rows, id).Some? ==>
          SlotOf(levels, pending, id) == Step(SlotOf(prev.levels, prev.pending, id), Observed(rows, id)).slot)
    && (forall id :: Reserved(id) && Observed(rows, id).None? ==> (id in pending <==> id in prev.pending))
    && emitted == SeenAlerts(prev, rows) + GoneAlerts(prev, rows, order)
  }

  function NextObserved(rows: seq<Row>, i: nat, id: string): Option<Level>
    requires i < |rows|
  {
    if id == rows[i].id then Some(rows[i].level) else Observed(rows[..i], id)
  }

  /** Reading one more row decides exactly that row's id. */
  lemma ObservedNext(rows: seq<Row>, i: nat)
    requires UniqueIds(rows) && i < |rows|
    ensures rows[..i + 1][..i] == rows[..i] && rows[..i + 1][i] == rows[i]
    ensures Observed(rows[..i], rows[i].id).None?
    ensures forall id :: Observed(rows[..i + 1], id) == NextObserved(rows, i, id)
  {
    assert rows[..i + 1][..i] == rows[..i];
    ObservedMeaning(rows[..i], rows[i].id);
  }

  /** Body of the first loop: one row that is present. */
  method VisitRow(prev: StateFile, st: NewState, s: Row) returns (emitted: seq<Alert>)
    requires s.id in st.pending <==> s.id in prev.pending
    modifies st`levels, st`pending
    ensures st.levels == old(st.levels)[s.id := s.level]
    ensures var after := Step(SlotOf(prev.levels, prev.pending, s.id), Some(s.level)).slot.pending;
      st.pending == if after then old(st.pending) + {s.id} else old(st.pending) - {s.id}
    ensures emitted == AlertFor(prev, s.id, Some(s.level))
  {
    emitted := [];
    var sid, state := s.id, s.level;
    st.levels := st.levels[sid := state];
    if sid !in prev.levels {
      st.pending := st.pending - {sid};
      return;
    }
    var was := prev.levels[sid];
    if Bad(state) {
      if !Bad(was) && sid !in st.pending {
        st.pending := st.pending + {sid};
      } else if sid in st.pending {
        st.pending := st.pending - {sid};
        emitted := [Alert(sid, Problem(state))];
      } else if state != was {
        emitted := [Alert(sid, Problem(state))];
      }
    } else if Bad(was) && state == Ok {
      if sid in st.pending {
        st.pending := st.pending - {sid};
      } else {
        emitted := [Alert(sid, Resolved)];
      }
    } else {
      st.pending := st.pending - {sid};
    }
  }

  /** First loop: every row that is present, in iteration order. */
  method VisitPresent(prev: StateFile, st: NewState, services: seq<Row>) returns (emitted: seq<Alert>)
    requires UniqueIds(services)
    requires st.levels == map[] && st.pending == prev.pending
    modifies st`levels, st`pending
    ensures forall id :: Get(st.levels, id) == Observed(services, id)
    ensures forall id :: id in st.pending <==> PendingAfter(prev, services, id)
    ensures emitted == SeenAlerts(prev, services)
  {
    emitted := [];
    var i := 0;
    while i < |services|
      invariant 0 <= i <= |services|
      invariant forall id :: Get(st.levels, id) == Observed(services[..i], id)
      invariant forall id :: id in st.pending <==> PendingAfter(prev, services[..i], id)
      invariant emitted == SeenAlerts(prev, services[..i])
    {
      ObservedNext(services, i);
      var alert := VisitRow(prev, st, services[i]);
      emitted := emitted + alert;
      i := i + 1;
    }
    assert services[..i] == services;
  }

  /** Whether `id` is pending once the rows that are present have been visited. */
  predicate PendingAfter(prev: StateFile, rows: seq<Row>, id: string) {
    var obs := Observed(rows, id);
    if obs.Some? then Step(SlotOf(prev.levels, prev.pending, id), obs).slot.pending else id in prev.pending
  }

  lemma RecoveredStep(prev: StateFile, rows: seq<Row>, order: seq<string>, j: nat)
    requires j < |order|
    ensures GoneAlerts(prev, rows, order[..j + 1]) == GoneAlerts(prev, rows, order[..j]) + GoneAlert(prev, rows, order[j])
    ensures Recovered(prev, rows, order[..j + 1]) == Recovered(prev, rows, order[..j])
            + if Watched(rows, order[j]) && Troubled(Get(prev.levels, order[j])) then {order[j]} else {}
  {
    assert order[..j + 1][..j] == order[..j];
    assert order[..j + 1] == order[..j] + [order[j]];
  }

  /** Second loop: remembered ids with no row, which can only recover. */
  method VisitVanished(prev: StateFile, order: seq<string>, st: NewState, services: seq<Row>)
    returns (emitted: seq<Alert>)
    requires KeyOrder(order, prev.levels.Keys)
    modifies st`pending
    ensures st.pending == old(st.pending) - Recovered(prev, services, order)
    ensures emitted == GoneAlerts(prev, services, order)
  {
    emitted := [];
    var j := 0;
    while j < |order|
      invariant 0 <= j <= |order|
      invariant st.pending == old(st.pending) - Recovered(prev, services, order[..j])
      invariant emitted == GoneAlerts(prev, services, order[..j])
    {
      var sid := order[j];
      RecoveredStep(prev, services, order, j);
      assert sid in order;
      if !Reserved(sid) && Observed(services, sid).None? && Bad(prev.levels[sid]) {
        st.pending := st.pending - {sid};
        emitted := emitted + [Alert(sid, Resolved)];
      }
      j := j + 1;
    }
    assert order[..j] == order;
  }

  ghost function Recovered(prev: StateFile, rows: seq<Row>, order: seq<string>): set<string> {
    set id | id in order && Watched(rows, id) && Troubled(Get(prev.levels, id))
  }

  /** What the two loops leave of one id. */
  lemma LoopsCompose(prev: StateFile, rows: seq<Row>, order: seq<string>, levels: map<string, Level>,
                     middle: set<string>, pending: set<string>, id: string)
    requires KeyOrder(order, prev.levels.Keys)
    requires Get(levels, id) == Observed(rows, id)
    requires id in middle <==> PendingAfter(prev, rows, id)
    requires pending == middle - Recovered(prev, rows, order)
    ensures !Reserved(id) || Observed(rows, id).Some? ==>
      SlotOf(levels, pending, id) == Step(SlotOf(prev.levels, prev.pending, id), Observed(rows, id)).slot
    ensures Reserved(id) && Observed(rows, id).None? ==> (id in pending <==> id in prev.pending)
  {
    assert id in order <==> id in prev.levels;
    assert id in Recovered(prev, rows, order) <==> id in order && Watched(rows, id) && Troubled(Get(prev.levels, id));
  }

  /**
   The whole check.  `services` is the sweep's id -> row dictionary in iteration
   order, `order` the iteration order of the previous state.
   */
  method ServiceTransitionAlerts(prev: StateFile, order: seq<string>, st: NewState, services: seq<Row>)
    returns (emitted: seq<Alert>)
    requires UniqueIds(services)
    requires KeyOrder(order, prev.levels.Keys)
    requires st.levels == map[] && st.pending == prev.pending
    modifies st`levels, st`pending
    ensures Swept(prev, services, order, st.levels, st.pending, emitted)
  {
    var seen := VisitPresent(prev, st, services);
    ghost var middle := st.pending;
    var gone := VisitVanished(prev, order, st, services);
    emitted := seen + gone;
    forall id
      ensures !Reserved(id) || Observed(services, id).Some? ==>
        SlotOf(st.levels, st.pending, id) == Step(SlotOf(prev.levels, prev.pending, id), Observed(services, id)).slot
      ensures Reserved(id) && Observed(services, id).None? ==> (id in st.pending <==> id in prev.pending)
    {
      LoopsCompose(prev, services, order, st.levels, middle, st.pending, id);
    }
  }

  // ---- alerts about one service --------------------------------------------

  lemma AboutOwnAlert(prev: StateFile, own: string, obs: Option<Level>, id: string)
    requires own != id
    ensures About(AlertFor(prev, own, obs), id) == []
  {
  }

  lemma {:induction false} AboutSeen(prev: StateFile, rows: seq<Row>, id: string)
    requires UniqueIds(rows)
    ensures About(SeenAlerts(prev, rows), id) ==
      if Observed(rows, id).Some? then About(AlertFor(prev, id, Observed(rows, id)), id) else []
  {
    if rows != [] {
      var n := |rows| - 1;
      var row := rows[n];
      AboutSeen(prev, rows[..n], id);
      ObservedNext(rows, n);
      assert rows[..n + 1] == rows;
      AboutConcat(SeenAlerts(prev, rows[..n]), AlertFor(prev, row.id, Some(row.level)), id);
      if row.id != id {
        AboutOwnAlert(prev, row.id, Some(row.level), id);
      }
    }
  }

  lemma AboutGoneAlert(prev: StateFile, rows: seq<Row>, own: string, id: string)
    requires own != id
    ensures About(GoneAlert(prev, rows, own), id) == []
  {
    AboutOwnAlert(prev, own, None, id);
  }

  lemma {:induction false} AboutGoneOthers(prev: StateFile, rows: seq<Row>, order: seq<string>, id: string)
    requires id !in order
    ensures About(GoneAlerts(prev, rows, order), id) == []
  {
    if order != [] {
      var n := |order| - 1;
      AboutGoneOthers(prev, rows, order[..n], id);
      AboutConcat(GoneAlerts(prev, rows, order[..n]), GoneAlert(prev, rows, order[n]), id);
      AboutGoneAlert(prev, rows, order[n], id);
    }
  }

  lemma {:induction false} AboutGone(prev: StateFile, rows: seq<Row>, order: seq<string>, id: string)
    requires forall i, j :: 0 <= i < j < |order| ==> order[i] != order[j]
    ensures About(GoneAlerts(prev, rows, order), id) == if id in order then About(GoneAlert(prev, rows, id), id) else []
  {
    if id !in order {
      AboutGoneOthers(prev, rows, order, id);
    } else {
      var n := |order| - 1;
      AboutConcat(GoneAlerts(prev, rows, order[..n]), GoneAlert(prev, rows, order[n]), id);
      if order[n] == id {
        AboutGoneOthers(prev, rows, order[..n], id);
      } else {
        AboutGone(prev, rows, order[..n], id);
        AboutGoneAlert(prev, rows, order[n], id);
      }
    }
  }

  /** Whole-dictionary sweep = per-service step, with no interference between services. */
  lemma SweepIsPointwise(prev: StateFile, rows: seq<Row>, order: seq<string>,
                         levels: map<string, Level>, pending: set<string>, emitted: seq<Alert>, id: string)
    requires UniqueIds(rows) && KeyOrder(order, prev.levels.Keys)
    requires Swept(prev, rows, order, levels, pending, emitted)
    requires !Reserved(id)
    ensures var out := Step(SlotOf(prev.levels, prev.pending, id), Observed(rows, id));
      SlotOf(levels, pending, id) == out.slot && About(emitted, id) == ToSeq(out.event)
  {
    AboutSeen(prev, rows, id);
    AboutGone(prev, rows, order, id);
    AboutConcat(SeenAlerts(prev, rows), GoneAlerts(prev, rows, order), id);
  }

  // ---- traces ----------------------------------------------------------------

  /** What successive sweeps observed of one service. */
  type History = seq<Option<Level>>

  function SlotAfter(h: History): Slot {
    if h == [] then FRESH else Step(SlotAfter(h[..|h| - 1]), h[|h| - 1]).slot
  }

  function EventAt(h: History, n: nat): Option<Event>
    requires n < |h|
  {
    Step(SlotAfter(h[..n]), h[n]).event
  }

  function At(h: History, i: int): Option<Level> {
    if 0 <= i < |h| then h[i] else None
  }

  predicate Healthy(l: Option<Level>) {
    l.Some? && !Bad(l.value)
  }

  /** From an empty state, pending means exactly: this is the first bad sample after a good one. */
  lemma {:induction false} PendingMeansFirstBadSample(h: History)
    ensures SlotAfter(h) == Slot(At(h, |h| - 1), Troubled(At(h, |h| - 1)) && Healthy(At(h, |h| - 2)))
  {
    if h != [] {
      PendingMeansFirstBadSample(h[..|h| - 1]);
    }
  }

  /** No pending entry survives a second sweep. */
  lemma PendingLastsOneSweep(h: History)
    requires |h| >= 1
    ensures !(SlotAfter(h).pending && SlotAfter(h[..|h| - 1]).pending)
  {
    PendingMeansFirstBadSample(h);
    PendingMeansFirstBadSample(h[..|h| - 1]);
  }

  /** The alert a sweep raises, read off the last three observations alone. */
  function Window(before: Option<Level>, last: Option<Level>, current: Option<Level>): Option<Event> {
    if !Troubled(last) then None
    else if current.None? then Some(Resolved)
    else if Bad(current.value) then
      if Healthy(before) || current != last then Some(Problem(current.value)) else None
    else if current.value.Ok? && !Healthy(before) then Some(Resolved)
    else None
  }

  lemma ThreeSampleLaw(h: History, n: nat)
    requires n < |h|
    ensures EventAt(h, n) == Window(At(h, n - 2), At(h, n - 1), h[n])
  {
    PendingMeansFirstBadSample(h[..n]);
  }

  /** Samples a..b are one maximal bad run that a good sample precedes. */
  ghost predicate BadRun(h: History, a: nat, b: nat) {
    && 1 <= a < b <= |h|
    && Healthy(h[a - 1])
    && (forall i :: a <= i < b ==> Troubled(h[i]))
    && (b < |h| ==> !Troubled(h[b]))
  }

  /** What the debounce promises for sample i of the bad run a..b, and for the sample that ends it. */
  function Debounced(h: History, a: nat, b: nat, i: nat): Option<Event>
    requires a <= i <= b && i < |h|
    requires i < b ==> h[i].Some?
  {
    if i == a then None
    else if i < b then
      if i == a + 1 || h[i] != h[i - 1] then Some(Problem(h[i].value)) else None
    else if h[b] == None then Some(Resolved)
    else if h[b] == Some(Ok) && b != a + 1 then Some(Resolved)
    else None
  }

  /**
   The debounce: a one-sample run is silent on both sides; a longer one pages at
   its second sample, again at each later level change, and resolves once.
   A row that vanishes while bad resolves even when nothing was ever announced,
   and a move to any other state (stopped, ...) is silent.
   */
  lemma DebouncedRun(h: History, a: nat, b: nat, i: nat)
    requires BadRun(h, a, b) && a <= i <= b && i < |h|
    ensures EventAt(h, i) == Debounced(h, a, b, i)
  {
    ThreeSampleLaw(h, i);
    if i == a + 1 {
      assert Healthy(At(h, i - 2));
    }
    if i == b && b != a + 1 {
      assert Troubled(h[i - 2]);
    }
  }

  /**
   When is a recovery announced for a run whose problem never was?  Exactly when
   the run followed a good sample and lasted one sweep (its row vanished), or it
   was bad at first sight and never changed level.
   */
  lemma UnannouncedRecovery(h: History, a: nat, n: nat)
    requires a < n < |h| && !Troubled(At(h, a - 1))
    requires forall i :: a <= i < n ==> Troubled(h[i])
    requires EventAt(h, n) == Some(Resolved)
    ensures (forall i :: a <= i < n ==> EventAt(h, i) == None) <==>
      if Healthy(At(h, a - 1)) then n == a + 1 else forall i :: a < i < n ==> h[i] == h[i - 1]
  {
    forall i | a <= i < n
      ensures Healthy(At(h, a - 1)) && i == a + 1 ==> EventAt(h, i) != None
      ensures i == a ==> EventAt(h, i) == None
      ensures i > a && !Healthy(At(h, a - 1)) ==> (EventAt(h, i) == None <==> h[i] == h[i - 1])
    {
      ThreeSampleLaw(h, i);
      if i > a + 1 {
        assert Troubled(h[i - 2]);
      }
    }
    if n > a + 1 {
      assert Healthy(At(h, a - 1)) ==> EventAt(h, a + 1) != None;
    }
  }

  /** Recoveries nobody was told about: bad at first sight, or gone while still pending. */
  lemma UnannouncedRecoveriesHappen()
    ensures var seen: History := [Some(Warn), Some(Ok)];
      EventAt(seen, 0) == None && EventAt(seen, 1) == Some(Resolved)
    ensures var gone: History := [Some(Ok), Some(Down), None];
      EventAt(gone, 0) == None && EventAt(gone, 1) == None && EventAt(gone, 2) == Some(Resolved)
  {
    var seen: History := [Some(Warn), Some(Ok)];
    ThreeSampleLaw(seen, 0);
    ThreeSampleLaw(seen, 1);
    var gone: History := [Some(Ok), Some(Down), None];
    ThreeSampleLaw(gone, 0);
    ThreeSampleLaw(gone, 1);
    ThreeSampleLaw(gone, 2);
  }
}
