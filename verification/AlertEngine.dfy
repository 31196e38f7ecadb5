/**
 One alert sweep end to end (hub/alerts.py, `check_once`): the new state is
 rebuilt from nothing but the carried bookkeeping maps, three checks run over
 it, and the file is rewritten when it changed.  The run lemmas say that the
 maps the checks mutate amount to functions of what the sweeps observed.
 */
module AlertEngine {
  import opened Options
  import opened AlertState
  import S = ServiceAlerts
  import R = ResourceAlerts
  import D = SmartAlerts

  /** Everything one sweep observes. */
  datatype Inputs = Inputs(
    services: seq<S.Row>,
    thresholds: R.Thresholds,
    sample: Option<R.Sample>,
    smartEnabled: bool,
    devices: Option<seq<D.Disk>>,
    now: int)
  {
    /** Rows come from a dictionary, under ids that are not bookkeeping keys. */
    ghost predicate Valid() {
      && S.UniqueIds(services)
      && (forall i :: 0 <= i < |services| ==> !Reserved(services[i].id))
      && D.UniqueKeys(D.SweepDisks(smartEnabled, devices))
    }

    function ResourceProbe(rid: string): R.Probe {
      R.ProbeIn(R.SweepChecks(thresholds, sample), thresholds.cooldown, now, rid)
    }

    function DiskProbe(key: string): D.Probe {
      D.ProbeIn(D.SweepDisks(smartEnabled, devices), thresholds.cooldown, now, key)
    }
  }

  function ServiceSlot(file: StateFile, id: string): S.Slot {
    S.SlotOf(file.levels, file.pending, id)
  }

  /** Each service, resource and disk takes exactly its own step, and nothing interferes. */
  ghost predicate Sweep(prev: StateFile, input: Inputs, next: StateFile, emitted: seq<Alert>) {
    && (forall id :: !Reserved(id) ==>
          var out := S.Step(ServiceSlot(prev, id), S.Observed(input.services, id));
          ServiceSlot(next, id) == out.slot && About(emitted, id) == ToSeq(out.event))
    && (forall rid ::
          var out := R.Step(R.SlotOf(prev, rid), input.ResourceProbe(rid));
          R.SlotOf(next, rid) == out.slot && About(emitted, R.Key(rid)) == ToSeq(out.event))
    && (forall key ::
          var out := D.Step(D.SlotOf(prev, key), input.DiskProbe(key));
          D.SlotOf(next, key) == out.slot && About(emitted, D.Sid(key)) == ToSeq(out.event))
  }

  lemma KeysAreReserved(s: string)
    ensures Reserved(R.Key(s)) && Reserved(D.Sid(s))
    ensures "resource:" <= R.Key(s) && !("smart:" <= R.Key(s))
    ensures "smart:" <= D.Sid(s) && !("resource:" <= D.Sid(s))
  {
    assert R.Key(s)[0] == 'r' && D.Sid(s)[0] == 's';
    assert RESERVED_PREFIXES[0] <= R.Key(s);
    assert RESERVED_PREFIXES[1] <= D.Sid(s);
  }

  lemma NotReserved(id: string)
    requires !Reserved(id)
    ensures !("resource:" <= id) && !("smart:" <= id)
  {
    assert !(RESERVED_PREFIXES[0] <= id) && !(RESERVED_PREFIXES[1] <= id);
  }

  lemma {:induction false} NothingAbout(alerts: seq<Alert>, id: string)
    requires forall i :: 0 <= i < |alerts| ==> alerts[i].id != id
    ensures About(alerts, id) == []
  {
    if alerts != [] {
      NothingAbout(alerts[..|alerts| - 1], id);
    }
  }

  lemma {:induction false} GoneAlertIds(prev: StateFile, rows: seq<S.Row>, order: seq<string>, i: nat)
    ensures i < |S.GoneAlerts(prev, rows, order)| ==> !Reserved(S.GoneAlerts(prev, rows, order)[i].id)
  {
    if order != [] {
      GoneAlertIds(prev, rows, order[..|order| - 1], i);
    }
  }

  lemma {:induction false} SeenAlertIds(prev: StateFile, rows: seq<S.Row>, i: nat)
    requires forall j :: 0 <= j < |rows| ==> !Reserved(rows[j].id)
    ensures i < |S.SeenAlerts(prev, rows)| ==> !Reserved(S.SeenAlerts(prev, rows)[i].id)
  {
    if rows != [] {
      SeenAlertIds(prev, rows[..|rows| - 1], i);
    }
  }

  lemma {:induction false} CheckAlertIds(prev: StateFile, cs: seq<R.Check>, cooldown: int, now: int, i: nat)
    ensures i < |R.CheckAlerts(prev, cs, cooldown, now)| ==> "resource:" <= R.CheckAlerts(prev, cs, cooldown, now)[i].id
  {
    if cs != [] {
      CheckAlertIds(prev, cs[..|cs| - 1], cooldown, now, i);
    }
  }

  lemma {:induction false} DiskAlertIds(prev: StateFile, disks: seq<D.Disk>, cooldown: int, now: int, i: nat)
    ensures i < |D.DiskAlerts(prev, disks, cooldown, now)| ==> "smart:" <= D.DiskAlerts(prev, disks, cooldown, now)[i].id
  {
    if disks != [] {
      DiskAlertIds(prev, disks[..|disks| - 1], cooldown, now, i);
    }
  }

  function ServicePart(prev: StateFile, input: Inputs, order: seq<string>): seq<Alert> {
    S.SeenAlerts(prev, input.services) + S.GoneAlerts(prev, input.services, order)
  }

  function ResourcePart(prev: StateFile, input: Inputs): seq<Alert> {
    R.CheckAlerts(prev, R.SweepChecks(input.thresholds, input.sample), input.thresholds.cooldown, input.now)
  }

  function DiskPart(prev: StateFile, input: Inputs): seq<Alert> {
    D.DiskAlerts(prev, D.SweepDisks(input.smartEnabled, input.devices), input.thresholds.cooldown, input.now)
  }

  /** The alerts of a sweep in order: services present, services gone, resources, disks. */
  function Emitted(prev: StateFile, input: Inputs, order: seq<string>): seq<Alert> {
    ServicePart(prev, input, order) + ResourcePart(prev, input) + DiskPart(prev, input)
  }

  lemma ServicePartIsUnreserved(prev: StateFile, input: Inputs, order: seq<string>, id: string)
    requires input.Valid() && Reserved(id)
    ensures About(ServicePart(prev, input, order), id) == []
  {
    var seen, gone := S.SeenAlerts(prev, input.services), S.GoneAlerts(prev, input.services, order);
    forall i: nat { GoneAlertIds(prev, input.services, order, i); }
    forall i: nat { SeenAlertIds(prev, input.services, i); }
    NothingAbout(seen, id);
    NothingAbout(gone, id);
    AboutConcat(seen, gone, id);
  }

  lemma ResourcePartIsResources(prev: StateFile, input: Inputs, id: string)
    requires !("resource:" <= id)
    ensures About(ResourcePart(prev, input), id) == []
  {
    forall i: nat { CheckAlertIds(prev, R.SweepChecks(input.thresholds, input.sample), input.thresholds.cooldown, input.now, i); }
    NothingAbout(ResourcePart(prev, input), id);
  }

  lemma DiskPartIsDisks(prev: StateFile, input: Inputs, id: string)
    requires !("smart:" <= id)
    ensures About(DiskPart(prev, input), id) == []
  {
    forall i: nat { DiskAlertIds(prev, D.SweepDisks(input.smartEnabled, input.devices), input.thresholds.cooldown, input.now, i); }
    NothingAbout(DiskPart(prev, input), id);
  }

  /** An alert of one kind is only ever about an id of that kind. */
  lemma AboutEmitted(prev: StateFile, input: Inputs, order: seq<string>, id: string)
    requires input.Valid()
    ensures About(Emitted(prev, input, order), id) ==
      About(ServicePart(prev, input, order), id) + About(ResourcePart(prev, input), id) + About(DiskPart(prev, input), id)
    ensures Reserved(id) ==> About(ServicePart(prev, input, order), id) == []
    ensures !("resource:" <= id) ==> About(ResourcePart(prev, input), id) == []
    ensures !("smart:" <= id) ==> About(DiskPart(prev, input), id) == []
  {
    var services, resources := ServicePart(prev, input, order), ResourcePart(prev, input);
    AboutConcat(services + resources, DiskPart(prev, input), id);
    AboutConcat(services, resources, id);
    if Reserved(id) {
      ServicePartIsUnreserved(prev, input, order, id);
    }
    if !("resource:" <= id) {
      ResourcePartIsResources(prev, input, id);
    }
    if !("smart:" <= id) {
      DiskPartIsDisks(prev, input, id);
    }
  }

  lemma ServiceSweep(prev: StateFile, input: Inputs, order: seq<string>,
                     levels: map<string, Level>, pending: set<string>, next: StateFile, id: string)
    requires input.Valid() && S.KeyOrder(order, prev.levels.Keys) && !Reserved(id)
    requires S.Swept(prev, input.services, order, levels, pending, ServicePart(prev, input, order))
    requires next.pending == pending && Get(next.levels, id) == Get(levels, id)
    ensures var out := S.Step(ServiceSlot(prev, id), S.Observed(input.services, id));
      ServiceSlot(next, id) == out.slot && About(Emitted(prev, input, order), id) == ToSeq(out.event)
  {
    NotReserved(id);
    S.SweepIsPointwise(prev, input.services, order, levels, pending, ServicePart(prev, input, order), id);
    AboutEmitted(prev, input, order, id);
  }

  lemma ResourceSweep(prev: StateFile, input: Inputs, order: seq<string>, rid: string)
    requires input.Valid()
    ensures About(Emitted(prev, input, order), R.Key(rid)) == ToSeq(R.Step(R.SlotOf(prev, rid), input.ResourceProbe(rid)).event)
  {
    KeysAreReserved(rid);
    R.AboutChecks(prev, R.SweepChecks(input.thresholds, input.sample), input.thresholds.cooldown, input.now, rid);
    AboutEmitted(prev, input, order, R.Key(rid));
  }

  lemma DiskSweep(prev: StateFile, input: Inputs, order: seq<string>, key: string)
    requires input.Valid()
    ensures About(Emitted(prev, input, order), D.Sid(key)) == ToSeq(D.Step(D.SlotOf(prev, key), input.DiskProbe(key)).event)
  {
    KeysAreReserved(key);
    D.AboutDisks(prev, D.SweepDisks(input.smartEnabled, input.devices), input.thresholds.cooldown, input.now, key);
    AboutEmitted(prev, input, order, D.Sid(key));
  }

  /** The three checks write disjoint parts of the state, so their steps compose. */
  lemma ComposeSweep(prev: StateFile, input: Inputs, order: seq<string>,
                     levels: map<string, Level>, pending: set<string>, next: StateFile, emitted: seq<Alert>)
    requires input.Valid() && S.KeyOrder(order, prev.levels.Keys)
    requires S.Swept(prev, input.services, order, levels, pending, ServicePart(prev, input, order))
    requires next.pending == pending && emitted == Emitted(prev, input, order)
    requires forall id :: !("resource:" <= id) && !("smart:" <= id) ==> Get(next.levels, id) == Get(levels, id)
    requires forall rid :: R.SlotOf(next, rid) == R.Step(R.SlotOf(prev, rid), input.ResourceProbe(rid)).slot
    requires forall key :: D.SlotOf(next, key) == D.Step(D.SlotOf(prev, key), input.DiskProbe(key)).slot
    ensures Sweep(prev, input, next, emitted)
  {
    forall id | !Reserved(id)
      ensures ServiceSlot(next, id) == S.Step(ServiceSlot(prev, id), S.Observed(input.services, id)).slot
      ensures About(emitted, id) == ToSeq(S.Step(ServiceSlot(prev, id), S.Observed(input.services, id)).event)
    {
      NotReserved(id);
      ServiceSweep(prev, input, order, levels, pending, next, id);
    }
    forall rid
      ensures About(emitted, R.Key(rid)) == ToSeq(R.Step(R.SlotOf(prev, rid), input.ResourceProbe(rid)).event)
    {
      ResourceSweep(prev, input, order, rid);
    }
    forall key
      ensures About(emitted, D.Sid(key)) == ToSeq(D.Step(D.SlotOf(prev, key), input.DiskProbe(key)).event)
    {
      DiskSweep(prev, input, order, key);
    }
  }

  class Engine {
    var file: StateFile

    constructor ()
      ensures file == EMPTY_FILE
    {
      file := EMPTY_FILE;
    }

    /** `order` is the order in which the saved state lists its keys. */
    method CheckOnce(input: Inputs, order: seq<string>) returns (emitted: seq<Alert>)
      requires input.Valid() && S.KeyOrder(order, file.levels.Keys)
      modifies this
      ensures Sweep(old(file), input, file, emitted)
      ensures emitted == Emitted(old(file), input, order)
    {
      var prev := file;
      var st := new NewState.CarriedFrom(prev);
      var services := S.ServiceTransitionAlerts(prev, order, st, input.services);
      ghost var levels, pending := st.levels, st.pending;
      forall rid ensures Get(st.levels, R.Key(rid)) == None {
        KeysAreReserved(rid);
        S.ObservedMeaning(input.services, R.Key(rid));
      }
      var resources := R.CheckResourceThresholds(prev, st, input.thresholds, input.sample, input.now);
      forall key ensures Get(st.levels, D.Sid(key)) == None {
        KeysAreReserved(key);
        S.ObservedMeaning(input.services, D.Sid(key));
      }
      ghost var checked := st.View();
      var disks := D.CheckSmartHealth(prev, st, input.smartEnabled, input.devices, input.thresholds.cooldown, input.now);
      emitted := services + resources + disks;
      forall rid ensures R.SlotOf(st.View(), rid) == R.SlotOf(checked, rid) {
        KeysAreReserved(rid);
      }
      forall key ensures D.SlotOf(st.View(), key) == D.Step(D.SlotOf(prev, key), input.DiskProbe(key)).slot {
        D.NextSlotIsStep(prev, D.SweepDisks(input.smartEnabled, input.devices), input.thresholds.cooldown, input.now, key);
      }
      var next := st.View();
      if next != prev {
        file := next;
      }
      ComposeSweep(prev, input, order, levels, pending, next, emitted);
    }
  }

  // ---- runs ------------------------------------------------------------------

  /** A run from an empty state file: `files[k]` is what sweep k starts from. */
  ghost predicate Run(files: seq<StateFile>, inputs: seq<Inputs>, emitted: seq<seq<Alert>>) {
    && |files| == |inputs| + 1 && |emitted| == |inputs|
    && files[0] == EMPTY_FILE
    && forall k :: 0 <= k < |inputs| ==> Sweep(files[k], inputs[k], files[k + 1], emitted[k])
  }

  function ServiceHistory(inputs: seq<Inputs>, id: string): (h: S.History) {
    seq(|inputs|, i requires 0 <= i < |inputs| => S.Observed(inputs[i].services, id))
  }

  function ResourceHistory(inputs: seq<Inputs>, rid: string): (h: R.History) {
    seq(|inputs|, i requires 0 <= i < |inputs| => inputs[i].ResourceProbe(rid))
  }

  function DiskHistory(inputs: seq<Inputs>, key: string): (h: D.History) {
    seq(|inputs|, i requires 0 <= i < |inputs| => inputs[i].DiskProbe(key))
  }

  lemma {:induction false} ServiceRun(files: seq<StateFile>, inputs: seq<Inputs>, emitted: seq<seq<Alert>>, id: string, n: nat)
    requires Run(files, inputs, emitted) && !Reserved(id) && n <= |inputs|
    ensures ServiceSlot(files[n], id) == S.SlotAfter(ServiceHistory(inputs, id)[..n])
    ensures n < |inputs| ==> About(emitted[n], id) == ToSeq(S.EventAt(ServiceHistory(inputs, id), n))
  {
    var h := ServiceHistory(inputs, id);
    if n > 0 {
      ServiceRun(files, inputs, emitted, id, n - 1);
      assert h[..n][..n - 1] == h[..n - 1];
      assert Sweep(files[n - 1], inputs[n - 1], files[n], emitted[n - 1]);
    }
    if n < |inputs| {
      assert Sweep(files[n], inputs[n], files[n + 1], emitted[n]);
    }
  }

  lemma {:induction false} ResourceRun(files: seq<StateFile>, inputs: seq<Inputs>, emitted: seq<seq<Alert>>, rid: string, n: nat)
    requires Run(files, inputs, emitted) && n <= |inputs|
    ensures R.SlotOf(files[n], rid) == R.SlotAfter(ResourceHistory(inputs, rid)[..n])
    ensures n < |inputs| ==> About(emitted[n], R.Key(rid)) == ToSeq(R.EventAt(ResourceHistory(inputs, rid), n))
  {
    var h := ResourceHistory(inputs, rid);
    if n > 0 {
      ResourceRun(files, inputs, emitted, rid, n - 1);
      assert h[..n][..n - 1] == h[..n - 1];
      assert Sweep(files[n - 1], inputs[n - 1], files[n], emitted[n - 1]);
    }
    if n < |inputs| {
      assert Sweep(files[n], inputs[n], files[n + 1], emitted[n]);
    }
  }

  lemma {:induction false} DiskRun(files: seq<StateFile>, inputs: seq<Inputs>, emitted: seq<seq<Alert>>, key: string, n: nat)
    requires Run(files, inputs, emitted) && n <= |inputs|
    ensures D.SlotOf(files[n], key) == D.SlotAfter(DiskHistory(inputs, key)[..n])
    ensures n < |inputs| ==> About(emitted[n], D.Sid(key)) == ToSeq(D.EventAt(DiskHistory(inputs, key), n))
  {
    var h := DiskHistory(inputs, key);
    if n > 0 {
      DiskRun(files, inputs, emitted, key, n - 1);
      assert h[..n][..n - 1] == h[..n - 1];
      assert Sweep(files[n - 1], inputs[n - 1], files[n], emitted[n - 1]);
    }
    if n < |inputs| {
      assert Sweep(files[n], inputs[n], files[n + 1], emitted[n]);
    }
  }

  /** Main result for services: what a sweep emits is decided by its last three observations. */
  lemma ServiceAlertsOfARun(files: seq<StateFile>, inputs: seq<Inputs>, emitted: seq<seq<Alert>>, id: string, n: nat)
    requires Run(files, inputs, emitted) && !Reserved(id) && n < |inputs|
    ensures var h := ServiceHistory(inputs, id);
      About(emitted[n], id) == ToSeq(S.Window(S.At(h, n - 2), S.At(h, n - 1), h[n]))
  {
    ServiceRun(files, inputs, emitted, id, n);
    S.ThreeSampleLaw(ServiceHistory(inputs, id), n);
  }
}
