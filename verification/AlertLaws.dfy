/**
 What the alert engine promises (hub/alerts.py), over every run of sweeps from an empty
 state file, said about what the sweeps were given and what they emitted.
 */
module AlertLaws {
  import opened Options
  import opened Text
  import opened AlertState
  import opened AlertEngine
  import S = ServiceAlerts
  import R = ResourceAlerts
  import D = SmartAlerts

  lemma {:induction false} InAbout(alerts: seq<Alert>, id: string, e: Event)
    ensures Alert(id, e) in alerts <==> e in About(alerts, id)
  {
    if alerts != [] {
      var n := |alerts| - 1;
      InAbout(alerts[..n], id, e);
      assert alerts == alerts[..n] + [alerts[n]];
    }
  }

  /** When the latest of the first n sweeps that raised this alert ran; 0 when none did. */
  ghost function LastTime(inputs: seq<Inputs>, emitted: seq<seq<Alert>>, alert: Alert, n: nat): int
    requires n <= |inputs| && n <= |emitted|
  {
    if n == 0 then 0
    else if alert in emitted[n - 1] then inputs[n - 1].now
    else LastTime(inputs, emitted, alert, n - 1)
  }

  // ---- resources -----------------------------------------------------------------------

  datatype Resource = Cpu | Memory | DiskSpace

  function ResourceId(r: Resource): string {
    match r
    case Cpu => "resource:cpu"
    case Memory => "resource:mem"
    case DiskSpace => "resource:disk"
  }

  /** The sweep has usable numbers of a resource: this value against this limit. */
  ghost predicate Compares(input: Inputs, r: Resource, value: real, limit: real) {
    && input.thresholds.enabled && input.sample.Some?
    && match r
       case Cpu =>
         && input.thresholds.cpu == R.Finite(limit)
         && (input.sample.value.cpuUsed == R.Finite(value)
             || (input.sample.value.cpuUsed == R.Missing && input.sample.value.load == R.Finite(value)))
       case Memory => input.sample.value.mem == R.Finite(value) && input.thresholds.mem == R.Finite(limit)
       case DiskSpace => input.sample.value.disk == R.Finite(value) && input.thresholds.disk == R.Finite(limit)
  }

  function ShortName(r: Resource): string {
    match r
    case Cpu => "cpu"
    case Memory => "mem"
    case DiskSpace => "disk"
  }

  lemma NamesAgree(r: Resource)
    ensures R.Key(ShortName(r)) == ResourceId(r)
  {
  }

  /** What the check of one sweep makes of a resource. */
  lemma ProbeCompares(input: Inputs, r: Resource)
    ensures var p := input.ResourceProbe(ShortName(r));
      forall value, limit :: Compares(input, r, value, limit) <==>
        p == R.Probed(input.now, input.thresholds.cooldown, value, limit)
  {
    var cs := R.SweepChecks(input.thresholds, input.sample);
    var now, cooldown := input.now, input.thresholds.cooldown;
    if |cs| == 3 {
      assert cs[..2][..1] == cs[..1];
      assert R.ProbeIn(cs, cooldown, now, "disk") == R.ProbeOf(cs[2], cooldown, now);
      assert R.ProbeIn(cs, cooldown, now, "mem") == R.ProbeIn(cs[..2], cooldown, now, "mem") == R.ProbeOf(cs[1], cooldown, now);
      assert R.ProbeIn(cs, cooldown, now, "cpu") == R.ProbeIn(cs[..2], cooldown, now, "cpu")
             == R.ProbeIn(cs[..1], cooldown, now, "cpu") == R.ProbeOf(cs[0], cooldown, now);
    }
  }

  lemma {:induction false} LastTimeIsLastProblem(files: seq<StateFile>, inputs: seq<Inputs>, emitted: seq<seq<Alert>>, r: Resource, n: nat)
    requires Run(files, inputs, emitted) && n <= |inputs|
    ensures LastTime(inputs, emitted, Alert(ResourceId(r), Problem(Warn)), n) ==
            R.LastProblem(ResourceHistory(inputs, ShortName(r))[..n])
  {
    if n > 0 {
      var h := ResourceHistory(inputs, ShortName(r));
      LastTimeIsLastProblem(files, inputs, emitted, r, n - 1);
      PagesIffProblem(files, inputs, emitted, r, n - 1);
      ProbedNow(inputs[n - 1], ShortName(r));
      R.ProblemRule(h, n - 1);
      LatestProblem(h, n);
    }
  }

  lemma LatestProblem(h: R.History, n: nat)
    requires 0 < n <= |h|
    ensures R.LastProblem(h[..n]) == if R.ProblemAt(h, n - 1) then h[n - 1].now else R.LastProblem(h[..n - 1])
  {
    assert h[..n][..n - 1] == h[..n - 1];
  }

  lemma {:induction false} ProbesCarryTheClock(cs: seq<R.Check>, cooldown: int, now: int, rid: string)
    ensures var p := R.ProbeIn(cs, cooldown, now, rid); p.Probed? ==> p.now == now && p.cooldown == cooldown
  {
    if cs != [] {
      ProbesCarryTheClock(cs[..|cs| - 1], cooldown, now, rid);
    }
  }

  lemma ProbedNow(input: Inputs, rid: string)
    ensures var p := input.ResourceProbe(rid); p.Probed? ==> p.now == input.now && p.cooldown == input.thresholds.cooldown
  {
    ProbesCarryTheClock(R.SweepChecks(input.thresholds, input.sample), input.thresholds.cooldown, input.now, rid);
  }

  lemma PagesIffProblem(files: seq<StateFile>, inputs: seq<Inputs>, emitted: seq<seq<Alert>>, r: Resource, n: nat)
    requires Run(files, inputs, emitted) && n < |inputs|
    ensures forall e :: Alert(ResourceId(r), e) in emitted[n] <==> R.EventAt(ResourceHistory(inputs, ShortName(r)), n) == Some(e)
  {
    NamesAgree(r);
    ResourceRun(files, inputs, emitted, ShortName(r), n);
    forall e {
      InAbout(emitted[n], ResourceId(r), e);
    }
  }

  /**
   A resource pages exactly when the check is on, a sample is present, value and limit are
   usable, the value has reached the limit, and the cooldown since its last page is over.
   */
  lemma ResourcePages(files: seq<StateFile>, inputs: seq<Inputs>, emitted: seq<seq<Alert>>, r: Resource, n: nat)
    requires Run(files, inputs, emitted) && n < |inputs|
    ensures Alert(ResourceId(r), Problem(Warn)) in emitted[n] <==>
      exists value, limit :: Compares(inputs[n], r, value, limit) && value >= limit
        && inputs[n].now - LastTime(inputs, emitted, Alert(ResourceId(r), Problem(Warn)), n) >= inputs[n].thresholds.cooldown
  {
    var h := ResourceHistory(inputs, ShortName(r));
    PagesIffProblem(files, inputs, emitted, r, n);
    LastTimeIsLastProblem(files, inputs, emitted, r, n);
    R.ProblemRule(h, n);
    ProbeCompares(inputs[n], r);
    ProbedNow(inputs[n], ShortName(r));
    if h[n].Probed? {
      assert Compares(inputs[n], r, h[n].value, h[n].limit);
    }
  }

  /** The sweep compared the resource, and it was not five below its limit. */
  ghost predicate StaysHigh(input: Inputs, r: Resource) {
    exists value, limit :: Compares(input, r, value, limit) && value > limit - 5.0
  }

  /** Sweep k paged, and no sweep after it and before n let the resource recover or missed it. */
  ghost predicate OpenFrom(inputs: seq<Inputs>, emitted: seq<seq<Alert>>, r: Resource, k: nat, n: nat) {
    && k < n <= |inputs| && n <= |emitted| && Alert(ResourceId(r), Problem(Warn)) in emitted[k]
    && forall j :: k < j < n ==> StaysHigh(inputs[j], r)
  }

  lemma OpenFromMeans(files: seq<StateFile>, inputs: seq<Inputs>, emitted: seq<seq<Alert>>, r: Resource, k: nat, n: nat)
    requires Run(files, inputs, emitted) && k < n <= |inputs|
    ensures OpenFrom(inputs, emitted, r, k, n) <==> R.OpenSince(ResourceHistory(inputs, ShortName(r))[..n], k)
  {
    var h := ResourceHistory(inputs, ShortName(r));
    PagesIffProblem(files, inputs, emitted, r, k);
    assert h[..n][..k] == h[..k];
    forall j | k < j < n
      ensures StaysHigh(inputs[j], r) <==> h[..n][j].Probed? && !h[..n][j].Recovered()
    {
      ProbeCompares(inputs[j], r);
      ProbedNow(inputs[j], ShortName(r));
      if h[j].Probed? {
        assert Compares(inputs[j], r, h[j].value, h[j].limit);
      }
    }
  }

  /** A recovery is announced exactly when a page is open and the value is five below its limit. */
  lemma ResourceRecovers(files: seq<StateFile>, inputs: seq<Inputs>, emitted: seq<seq<Alert>>, r: Resource, n: nat)
    requires Run(files, inputs, emitted) && n < |inputs|
    ensures Alert(ResourceId(r), Resolved) in emitted[n] <==>
      && (exists value, limit :: Compares(inputs[n], r, value, limit) && value <= limit - 5.0)
      && (exists k: nat :: OpenFrom(inputs, emitted, r, k, n))
  {
    var h := ResourceHistory(inputs, ShortName(r));
    PagesIffProblem(files, inputs, emitted, r, n);
    R.ResolvedRule(h, n);
    ProbeCompares(inputs[n], r);
    ProbedNow(inputs[n], ShortName(r));
    if h[n].Probed? {
      assert Compares(inputs[n], r, h[n].value, h[n].limit);
    }
    forall k: nat | k < n
      ensures OpenFrom(inputs, emitted, r, k, n) <==> R.OpenSince(h[..n], k)
    {
      OpenFromMeans(files, inputs, emitted, r, k, n);
    }
  }

  /** Nothing is ever said about any other resource. */
  lemma OnlyThreeResources(files: seq<StateFile>, inputs: seq<Inputs>, emitted: seq<seq<Alert>>, alert: Alert, n: nat)
    requires Run(files, inputs, emitted) && n < |inputs| && alert in emitted[n] && "resource:" <= alert.id
    ensures alert.id in {"resource:cpu", "resource:mem", "resource:disk"} && (alert.event == Problem(Warn) || alert.event == Resolved)
  {
    var rid := alert.id[|"resource:"|..];
    assert alert.id == R.Key(rid);
    ResourceRun(files, inputs, emitted, rid, n);
    InAbout(emitted[n], alert.id, alert.event);
    R.ProblemRule(ResourceHistory(inputs, rid), n);
    if rid == "cpu" {
      NamesAgree(Cpu);
    } else if rid == "mem" {
      NamesAgree(Memory);
    } else if rid == "disk" {
      NamesAgree(DiskSpace);
    } else {
      OthersAreSkipped(inputs[n], rid);
    }
  }

  lemma OthersAreSkipped(input: Inputs, rid: string)
    requires rid != "cpu" && rid != "mem" && rid != "disk"
    ensures input.ResourceProbe(rid) == R.Skipped
  {
    var cs := R.SweepChecks(input.thresholds, input.sample);
    R.ProbeInAbsent(cs, input.thresholds.cooldown, input.now, rid);
  }

  // ---- services -----------------------------------------------------------------------------

  /** The sweep saw the service at that level. */
  ghost predicate Shows(inputs: seq<Inputs>, k: int, id: string, level: Level) {
    0 <= k < |inputs| && S.Row(id, level) in inputs[k].services
  }

  /** The sweep saw the service up or in a state that pages nobody. */
  ghost predicate ShowsGood(inputs: seq<Inputs>, k: int, id: string) {
    exists level :: Shows(inputs, k, id, level) && level != Warn && level != Down
  }

  /** An id that a service can have: it starts none of the bookkeeping keys. */
  predicate ServiceId(id: string) {
    && !("_" <= id) && !("resource:" <= id) && !("smart:" <= id)
    && !("freshness:" <= id) && !("ups:" <= id) && !("stale_runtime:" <= id)
  }

  lemma ServiceIdMeans(id: string)
    ensures ServiceId(id) <==> !Reserved(id)
  {
    assert RESERVED_PREFIXES[0] == "resource:" && RESERVED_PREFIXES[1] == "smart:" && RESERVED_PREFIXES[2] == "freshness:"
           && RESERVED_PREFIXES[3] == "ups:" && RESERVED_PREFIXES[4] == "stale_runtime:";
  }

  lemma ShowsIsObserved(inputs: seq<Inputs>, k: int, id: string)
    requires forall i :: 0 <= i < |inputs| ==> inputs[i].Valid()
    ensures forall level :: Shows(inputs, k, id, level) <==> S.At(ServiceHistory(inputs, id), k) == Some(level)
  {
    if 0 <= k < |inputs| {
      var rows := inputs[k].services;
      assert inputs[k].Valid();
      S.ObservedMeaning(rows, id);
      forall level
        ensures S.Row(id, level) in rows <==> S.Observed(rows, id) == Some(level)
      {
        if S.Row(id, level) in rows {
          var i :| 0 <= i < |rows| && rows[i] == S.Row(id, level);
        }
        if S.Observed(rows, id) == Some(level) {
          var i :| 0 <= i < |rows| && rows[i].id == id;
          assert rows[i] == S.Row(id, level);
        }
      }
    }
  }

  lemma ShowsGoodMeans(inputs: seq<Inputs>, k: int, id: string)
    requires forall i :: 0 <= i < |inputs| ==> inputs[i].Valid()
    ensures ShowsGood(inputs, k, id) <==> S.Healthy(S.At(ServiceHistory(inputs, id), k))
  {
    ShowsIsObserved(inputs, k, id);
    var seen := S.At(ServiceHistory(inputs, id), k);
    if seen.Some? {
      assert Shows(inputs, k, id, seen.value);
    }
  }

  lemma ServiceEvents(files: seq<StateFile>, inputs: seq<Inputs>, emitted: seq<seq<Alert>>, id: string, n: nat, e: Event)
    requires Run(files, inputs, emitted) && n < |inputs| && ServiceId(id)
    requires forall i :: 0 <= i < |inputs| ==> inputs[i].Valid()
    ensures var h := ServiceHistory(inputs, id);
      Alert(id, e) in emitted[n] <==> S.Window(S.At(h, n - 2), S.At(h, n - 1), h[n]) == Some(e)
  {
    ServiceIdMeans(id);
    ServiceAlertsOfARun(files, inputs, emitted, id, n);
    InAbout(emitted[n], id, e);
  }

  /**
   A service pages at a level exactly when it is seen at that bad level, was seen bad one
   sweep before, and either was seen good before that or has changed level since.
   */
  lemma ServicePages(files: seq<StateFile>, inputs: seq<Inputs>, emitted: seq<seq<Alert>>, id: string, n: nat, level: Level)
    requires Run(files, inputs, emitted) && n < |inputs| && ServiceId(id)
    requires forall i :: 0 <= i < |inputs| ==> inputs[i].Valid()
    ensures Alert(id, Problem(level)) in emitted[n] <==>
      && Shows(inputs, n, id, level) && (level == Warn || level == Down)
      && (Shows(inputs, n - 1, id, Warn) || Shows(inputs, n - 1, id, Down))
      && (ShowsGood(inputs, n - 2, id) || !Shows(inputs, n - 1, id, level))
  {
    var h := ServiceHistory(inputs, id);
    ServiceEvents(files, inputs, emitted, id, n, Problem(level));
    ShowsAt(inputs, n, id, level);
    ShowsAt(inputs, n - 1, id, level);
    ShowsAt(inputs, n - 1, id, Warn);
    ShowsAt(inputs, n - 1, id, Down);
    ShowsGoodMeans(inputs, n - 2, id);
    WindowPages(S.At(h, n - 2), S.At(h, n - 1), h[n], level);
  }

  lemma ShowsAt(inputs: seq<Inputs>, k: int, id: string, level: Level)
    requires forall i :: 0 <= i < |inputs| ==> inputs[i].Valid()
    ensures Shows(inputs, k, id, level) <==> S.At(ServiceHistory(inputs, id), k) == Some(level)
  {
    ShowsIsObserved(inputs, k, id);
  }

  lemma ShowsNothing(inputs: seq<Inputs>, k: nat, id: string)
    requires forall i :: 0 <= i < |inputs| ==> inputs[i].Valid()
    ensures (forall level :: !Shows(inputs, k, id, level)) <==> S.At(ServiceHistory(inputs, id), k).None?
  {
    ShowsIsObserved(inputs, k, id);
    var seen := S.At(ServiceHistory(inputs, id), k);
    if seen.Some? {
      assert Shows(inputs, k, id, seen.value);
    }
  }

  lemma WindowPages(before: Option<Level>, last: Option<Level>, current: Option<Level>, level: Level)
    ensures S.Window(before, last, current) == Some(Problem(level)) <==>
      && current == Some(level) && (level == Warn || level == Down)
      && (last == Some(Warn) || last == Some(Down)) && (S.Healthy(before) || last != Some(level))
    ensures S.Window(before, last, current) == Some(Resolved) <==>
      && (last == Some(Warn) || last == Some(Down))
      && (current == None || (current == Some(Ok) && !S.Healthy(before)))
  {
  }

  /**
   A recovery is announced exactly when the service was seen bad one sweep before, and its
   row is gone, or it is back at ok and that was not the first bad sweep after a good one.
   */
  lemma ServiceRecovers(files: seq<StateFile>, inputs: seq<Inputs>, emitted: seq<seq<Alert>>, id: string, n: nat)
    requires Run(files, inputs, emitted) && n < |inputs| && ServiceId(id)
    requires forall i :: 0 <= i < |inputs| ==> inputs[i].Valid()
    ensures Alert(id, Resolved) in emitted[n] <==>
      && (Shows(inputs, n - 1, id, Warn) || Shows(inputs, n - 1, id, Down))
      && ((forall level :: !Shows(inputs, n, id, level)) || (Shows(inputs, n, id, Ok) && !ShowsGood(inputs, n - 2, id)))
  {
    var h := ServiceHistory(inputs, id);
    ServiceEvents(files, inputs, emitted, id, n, Resolved);
    ShowsAt(inputs, n, id, Ok);
    ShowsNothing(inputs, n, id);
    ShowsAt(inputs, n - 1, id, Warn);
    ShowsAt(inputs, n - 1, id, Down);
    ShowsGoodMeans(inputs, n - 2, id);
    WindowPages(S.At(h, n - 2), S.At(h, n - 1), h[n], Ok);
  }

  // ---- disks ----------------------------------------------------------------------------------

  /** The sweep read a disk of that identity. */
  ghost predicate Reads(inputs: seq<Inputs>, k: int, key: string, d: D.Disk) {
    && 0 <= k < |inputs| && inputs[k].smartEnabled && inputs[k].devices.Some?
    && d in inputs[k].devices.value && d.key == key && d.readable
  }

  function LevelOf(d: D.Disk): Level {
    if d.down != [] then Down else if d.warn != [] then Warn else Ok
  }

  /** The details of the tripped checks, without live temperatures. */
  function TokensOf(d: D.Disk): seq<string> {
    D.Stables(d.down + d.warn)
  }

  ghost predicate AllValid(inputs: seq<Inputs>) {
    forall i :: 0 <= i < |inputs| ==> inputs[i].Valid()
  }

  lemma {:induction false} ListedProbe(disks: seq<D.Disk>, cooldown: int, now: int, key: string)
    requires D.UniqueKeys(disks)
    ensures forall d :: d in disks && d.key == key ==> D.ProbeIn(disks, cooldown, now, key) == D.ProbeOf(d, cooldown, now)
    ensures D.ProbeIn(disks, cooldown, now, key).Read? ==> exists d :: d in disks && d.key == key
  {
    if disks != [] {
      var n := |disks| - 1;
      ListedProbe(disks[..n], cooldown, now, key);
      assert disks == disks[..n] + [disks[n]];
    }
  }

  lemma ReadsIsProbe(inputs: seq<Inputs>, k: nat, key: string)
    requires AllValid(inputs) && k < |inputs|
    ensures var p := inputs[k].DiskProbe(key);
      && (forall d :: Reads(inputs, k, key, d) ==> p == D.Read(inputs[k].now, inputs[k].thresholds.cooldown, d.down, d.warn))
      && (p.Read? ==> exists d :: Reads(inputs, k, key, d))
  {
    assert inputs[k].Valid();
    var disks := D.SweepDisks(inputs[k].smartEnabled, inputs[k].devices);
    ListedProbe(disks, inputs[k].thresholds.cooldown, inputs[k].now, key);
    if inputs[k].DiskProbe(key).Read? {
      var d :| d in disks && d.key == key;
      assert Reads(inputs, k, key, d);
    }
  }

  ghost predicate Sick(inputs: seq<Inputs>, k: int, key: string) {
    exists d :: Reads(inputs, k, key, d) && d.down + d.warn != []
  }

  ghost predicate At(inputs: seq<Inputs>, k: int, key: string, level: Level) {
    exists d :: Reads(inputs, k, key, d) && LevelOf(d) == level
  }

  ghost predicate Paged(emitted: seq<seq<Alert>>, k: nat, key: string) {
    k < |emitted| && exists level :: Alert("smart:" + key, Problem(level)) in emitted[k]
  }

  /** When the disk last paged since its last recovery; 0 when it did not. */
  ghost function LastPage(inputs: seq<Inputs>, emitted: seq<seq<Alert>>, key: string, n: nat): int
    requires n <= |inputs| && n <= |emitted|
  {
    if n == 0 then 0
    else if Paged(emitted, n - 1, key) then inputs[n - 1].now
    else if Alert("smart:" + key, Resolved) in emitted[n - 1] then 0
    else LastPage(inputs, emitted, key, n - 1)
  }

  /** Sweep m read the disk sick as `d`, and none since and before n read it sick again or announced its recovery. */
  ghost predicate Remembers(inputs: seq<Inputs>, emitted: seq<seq<Alert>>, key: string, n: nat, m: nat, d: D.Disk)
    requires n <= |emitted|
  {
    && m < n && Reads(inputs, m, key, d) && d.down + d.warn != []
    && forall j :: m < j < n ==> !Sick(inputs, j, key) && Alert("smart:" + key, Resolved) !in emitted[j]
  }

  /** Some detail of `d` was not among the remembered ones. */
  ghost predicate HasNews(inputs: seq<Inputs>, emitted: seq<seq<Alert>>, key: string, n: nat, d: D.Disk)
    requires n <= |emitted|
  {
    exists m: nat, was :: Remembers(inputs, emitted, key, n, m, was) && exists t :: t in TokensOf(d) && t !in TokensOf(was)
  }

  lemma DiskEvents(files: seq<StateFile>, inputs: seq<Inputs>, emitted: seq<seq<Alert>>, key: string, n: nat)
    requires Run(files, inputs, emitted) && n < |inputs|
    ensures forall e :: Alert("smart:" + key, e) in emitted[n] <==> D.EventAt(DiskHistory(inputs, key), n) == Some(e)
  {
    DiskRun(files, inputs, emitted, key, n);
    forall e {
      InAbout(emitted[n], D.Sid(key), e);
    }
  }

  lemma SickIsSick(inputs: seq<Inputs>, k: nat, key: string)
    requires AllValid(inputs) && k < |inputs|
    ensures Sick(inputs, k, key) <==> DiskHistory(inputs, key)[k].Sick()
    ensures forall level :: At(inputs, k, key, level) <==>
      DiskHistory(inputs, key)[k].Read? && DiskHistory(inputs, key)[k].Severity() == level
  {
    ReadsIsProbe(inputs, k, key);
    if DiskHistory(inputs, key)[k].Read? {
      var d :| Reads(inputs, k, key, d);
      assert LevelOf(d) == DiskHistory(inputs, key)[k].Severity();
    }
  }

  lemma {:induction false} LastPageIsLastProblem(files: seq<StateFile>, inputs: seq<Inputs>, emitted: seq<seq<Alert>>, key: string,
                                                 n: nat, h: D.History)
    requires Run(files, inputs, emitted) && n <= |inputs| && AllValid(inputs) && h == DiskHistory(inputs, key)
    ensures LastPage(inputs, emitted, key, n) == D.LastProblem(h[..n])
    decreases n
  {
    if n > 0 {
      LastPageIsLastProblem(files, inputs, emitted, key, n - 1, h);
      PagedMeans(files, inputs, emitted, key, n - 1);
      ProblemsAreTimed(inputs, n - 1, key);
      LastPageNext(inputs, emitted, key, n, h);
    }
  }

  lemma LastPageNext(inputs: seq<Inputs>, emitted: seq<seq<Alert>>, key: string, n: nat, h: D.History)
    requires 0 < n <= |inputs| == |h| && n <= |emitted|
    requires LastPage(inputs, emitted, key, n - 1) == D.LastProblem(h[..n - 1])
    requires var e := D.EventAt(h, n - 1);
      && (Paged(emitted, n - 1, key) <==> e.Some? && e.value.Problem?)
      && (Alert("smart:" + key, Resolved) in emitted[n - 1] <==> e == Some(Resolved))
      && (e.Some? ==> h[n - 1].Read? && h[n - 1].now == inputs[n - 1].now)
    ensures LastPage(inputs, emitted, key, n) == D.LastProblem(h[..n])
  {
    LastProblemNext(h, n);
  }

  lemma PagedMeans(files: seq<StateFile>, inputs: seq<Inputs>, emitted: seq<seq<Alert>>, key: string, k: nat)
    requires Run(files, inputs, emitted) && k < |inputs|
    ensures var e := D.EventAt(DiskHistory(inputs, key), k);
      && (Paged(emitted, k, key) <==> e.Some? && e.value.Problem?)
      && (Alert("smart:" + key, Resolved) in emitted[k] <==> e == Some(Resolved))
      && (e.Some? ==> DiskHistory(inputs, key)[k].Read?)
  {
    DiskEvents(files, inputs, emitted, key, k);
    var e := D.EventAt(DiskHistory(inputs, key), k);
    if e.Some? && e.value.Problem? {
      assert Alert("smart:" + key, Problem(e.value.level)) in emitted[k];
    }
  }

  lemma LastProblemNext(h: D.History, n: nat)
    requires 0 < n <= |h|
    ensures D.LastProblem(h[..n]) ==
            match D.EventAt(h, n - 1)
            case Some(Problem(_)) => h[n - 1].now
            case Some(Resolved) => 0
            case None => D.LastProblem(h[..n - 1])
  {
    assert h[..n][..n - 1] == h[..n - 1];
  }

  lemma ProblemsAreTimed(inputs: seq<Inputs>, k: nat, key: string)
    requires AllValid(inputs) && k < |inputs|
    ensures var h := DiskHistory(inputs, key); h[k].Read? ==> h[k].now == inputs[k].now
  {
    ReadsIsProbe(inputs, k, key);
  }

  lemma RemembersStep(inputs: seq<Inputs>, emitted: seq<seq<Alert>>, key: string, n: nat, m: nat, d: D.Disk)
    requires 0 < n <= |inputs| && n <= |emitted|
    ensures Remembers(inputs, emitted, key, n, m, d) <==>
      if m == n - 1 then Reads(inputs, m, key, d) && d.down + d.warn != []
      else Remembers(inputs, emitted, key, n - 1, m, d) && !Sick(inputs, n - 1, key) && Alert("smart:" + key, Resolved) !in emitted[n - 1]
  {
  }

  ghost predicate HoldsTokens(inputs: seq<Inputs>, emitted: seq<seq<Alert>>, key: string, n: nat, tokens: Option<seq<string>>)
    requires n <= |emitted|
  {
    && (tokens.Some? ==> exists m: nat, d :: Remembers(inputs, emitted, key, n, m, d) && TokensOf(d) == tokens.value)
    && (forall m: nat, d :: Remembers(inputs, emitted, key, n, m, d) ==> tokens == Some(TokensOf(d)))
  }

  lemma SickTokens(inputs: seq<Inputs>, k: nat, key: string, d: D.Disk)
    requires AllValid(inputs) && k < |inputs| && Reads(inputs, k, key, d)
    ensures var p := DiskHistory(inputs, key)[k];
      p.Read? && D.Stables(p.Tokens()) == TokensOf(d) && p.Tokens() == d.down + d.warn && p.Severity() == LevelOf(d)
  {
    ReadsIsProbe(inputs, k, key);
    assert d.down == [] ==> d.down + d.warn == d.warn;
  }

  lemma {:induction false} RemembersLastTokens(files: seq<StateFile>, inputs: seq<Inputs>, emitted: seq<seq<Alert>>, key: string, n: nat)
    requires Run(files, inputs, emitted) && n <= |inputs| && AllValid(inputs)
    ensures HoldsTokens(inputs, emitted, key, n, D.LastTokens(DiskHistory(inputs, key)[..n]))
  {
    if n > 0 {
      var h := DiskHistory(inputs, key);
      RemembersLastTokens(files, inputs, emitted, key, n - 1);
      assert h[..n][..n - 1] == h[..n - 1];
      SickIsSick(inputs, n - 1, key);
      DiskEvents(files, inputs, emitted, key, n - 1);
      forall m: nat, d
        ensures Remembers(inputs, emitted, key, n, m, d) <==>
          if m == n - 1 then Reads(inputs, m, key, d) && d.down + d.warn != []
          else Remembers(inputs, emitted, key, n - 1, m, d) && !Sick(inputs, n - 1, key) && Alert("smart:" + key, Resolved) !in emitted[n - 1]
      {
        RemembersStep(inputs, emitted, key, n, m, d);
      }
      RemembersNext(inputs, emitted, key, n, h);
    }
  }

  lemma LastTokensNext(h: D.History, n: nat)
    requires 0 < n <= |h|
    ensures D.LastTokens(h[..n]) ==
            if h[n - 1].Sick() then Some(D.Stables(h[n - 1].Tokens()))
            else if D.EventAt(h, n - 1) == Some(Resolved) then None
            else D.LastTokens(h[..n - 1])
  {
    assert h[..n][..n - 1] == h[..n - 1];
  }

  lemma RemembersNext(inputs: seq<Inputs>, emitted: seq<seq<Alert>>, key: string, n: nat, h: D.History)
    requires 0 < n <= |inputs| && n <= |emitted| && AllValid(inputs) && h == DiskHistory(inputs, key)
    requires HoldsTokens(inputs, emitted, key, n - 1, D.LastTokens(h[..n - 1]))
    requires Alert("smart:" + key, Resolved) in emitted[n - 1] <==> D.EventAt(h, n - 1) == Some(Resolved)
    requires forall m: nat, d :: Remembers(inputs, emitted, key, n, m, d) <==>
      if m == n - 1 then Reads(inputs, m, key, d) && d.down + d.warn != []
      else Remembers(inputs, emitted, key, n - 1, m, d) && !Sick(inputs, n - 1, key) && Alert("smart:" + key, Resolved) !in emitted[n - 1]
    ensures HoldsTokens(inputs, emitted, key, n, D.LastTokens(h[..n]))
  {
    var before, tokens := D.LastTokens(h[..n - 1]), D.LastTokens(h[..n]);
    LastTokensNext(h, n);
    SickIsSick(inputs, n - 1, key);
    if Sick(inputs, n - 1, key) {
      forall d | Reads(inputs, n - 1, key, d)
        ensures tokens == Some(TokensOf(d))
      {
        SickTokens(inputs, n - 1, key, d);
      }
      var d :| Reads(inputs, n - 1, key, d) && d.down + d.warn != [];
      assert Remembers(inputs, emitted, key, n, n - 1, d);
    } else if tokens.Some? {
      var m: nat, d :| Remembers(inputs, emitted, key, n - 1, m, d) && TokensOf(d) == before.value;
      assert Remembers(inputs, emitted, key, n, m, d);
    }
  }

  /** Details of a disk never hold the separator the file joins them with. */
  ghost predicate PlainDetails(inputs: seq<Inputs>, key: string) {
    forall k, d, t :: Reads(inputs, k, key, d) && t in d.down + d.warn ==> Lacks(t, '\U{B7}')
  }

  lemma PlainIsDotFree(inputs: seq<Inputs>, key: string, n: nat)
    requires AllValid(inputs) && PlainDetails(inputs, key) && n <= |inputs|
    ensures D.DotFree(DiskHistory(inputs, key)[..n])
  {
    var h := DiskHistory(inputs, key);
    forall i, j | 0 <= i < n && h[i].Read? && 0 <= j < |h[i].Tokens()|
      ensures Lacks(h[i].Tokens()[j], D.DOT)
    {
      ReadsIsProbe(inputs, i, key);
      var d :| Reads(inputs, i, key, d);
      SickTokens(inputs, i, key, d);
      assert h[i].Tokens()[j] in d.down + d.warn;
    }
  }

  lemma NewsIsNews(files: seq<StateFile>, inputs: seq<Inputs>, emitted: seq<seq<Alert>>, key: string, n: nat, d: D.Disk)
    requires Run(files, inputs, emitted) && n < |inputs| && AllValid(inputs) && Reads(inputs, n, key, d)
    ensures var h := DiskHistory(inputs, key);
      h[n].Read? && (HasNews(inputs, emitted, key, n, d) <==> D.News(D.LastTokens(h[..n]), h[n]))
  {
    var h := DiskHistory(inputs, key);
    var tokens := D.LastTokens(h[..n]);
    RemembersLastTokens(files, inputs, emitted, key, n);
    SickTokens(inputs, n, key, d);
    assert forall i :: 0 <= i < |h[n].Tokens()| ==> TokensOf(d)[i] == D.Stable(h[n].Tokens()[i]);
    if D.News(tokens, h[n]) {
      var i :| 0 <= i < |h[n].Tokens()| && D.Stable(h[n].Tokens()[i]) !in tokens.value;
      var m: nat, was :| Remembers(inputs, emitted, key, n, m, was) && TokensOf(was) == tokens.value;
      assert TokensOf(d)[i] in TokensOf(d) && TokensOf(d)[i] !in TokensOf(was);
    }
    if m: nat, was :| Remembers(inputs, emitted, key, n, m, was) && exists t :: t in TokensOf(d) && t !in TokensOf(was) {
      var t :| t in TokensOf(d) && t !in TokensOf(was);
      var i :| 0 <= i < |TokensOf(d)| && TokensOf(d)[i] == t;
      assert D.Stable(h[n].Tokens()[i]) !in tokens.value;
    }
  }

  /**
   A disk pages exactly when the check is on and reads it sick, and it was not read at that
   level one sweep before, shows a detail it did not show when last read sick, or is failing
   with the cooldown since its last page over.
   */
  lemma DiskPages(files: seq<StateFile>, inputs: seq<Inputs>, emitted: seq<seq<Alert>>, key: string, n: nat, level: Level)
    requires Run(files, inputs, emitted) && n < |inputs| && AllValid(inputs) && PlainDetails(inputs, key)
    ensures Alert("smart:" + key, Problem(level)) in emitted[n] <==>
      exists d :: Reads(inputs, n, key, d) && d.down + d.warn != [] && level == (if d.down != [] then Down else Warn)
        && (|| !At(inputs, n - 1, key, level)
            || HasNews(inputs, emitted, key, n, d)
            || (d.down != [] && inputs[n].now - LastPage(inputs, emitted, key, n) >= inputs[n].thresholds.cooldown))
  {
    var h := DiskHistory(inputs, key);
    DiskEvents(files, inputs, emitted, key, n);
    ReadsIsProbe(inputs, n, key);
    SickIsSick(inputs, n, key);
    forall d | Reads(inputs, n, key, d)
      ensures d.down + d.warn != [] ==> (D.EventAt(h, n) == Some(Problem(level)) <==>
        && level == (if d.down != [] then Down else Warn)
        && (|| !At(inputs, n - 1, key, level)
            || HasNews(inputs, emitted, key, n, d)
            || (d.down != [] && inputs[n].now - LastPage(inputs, emitted, key, n) >= inputs[n].thresholds.cooldown)))
      ensures d.down + d.warn == [] ==> !h[n].Sick()
    {
      SickTokens(inputs, n, key, d);
      if d.down + d.warn != [] {
        SickDiskPages(files, inputs, emitted, key, n, d, level);
      }
    }
    if !h[n].Sick() {
      D.ResolveRule(h, n);
    }
  }

  lemma SickDiskPages(files: seq<StateFile>, inputs: seq<Inputs>, emitted: seq<seq<Alert>>, key: string, n: nat, d: D.Disk, level: Level)
    requires Run(files, inputs, emitted) && n < |inputs| && AllValid(inputs) && PlainDetails(inputs, key)
    requires Reads(inputs, n, key, d) && d.down + d.warn != []
    ensures D.EventAt(DiskHistory(inputs, key), n) == Some(Problem(level)) <==>
      && level == (if d.down != [] then Down else Warn)
      && (|| !At(inputs, n - 1, key, level)
          || HasNews(inputs, emitted, key, n, d)
          || (d.down != [] && inputs[n].now - LastPage(inputs, emitted, key, n) >= inputs[n].thresholds.cooldown))
  {
    var h := DiskHistory(inputs, key);
    SickTokens(inputs, n, key, d);
    ReadsIsProbe(inputs, n, key);
    PlainIsDotFree(inputs, key, n);
    D.FireRule(h, n);
    NewsIsNews(files, inputs, emitted, key, n, d);
    LastPageIsLastProblem(files, inputs, emitted, key, n, h);
    EnteredIs(inputs, n, key);
    assert LevelOf(d) == (if d.down != [] then Down else Warn);
  }

  lemma EnteredIs(inputs: seq<Inputs>, n: nat, key: string)
    requires AllValid(inputs) && n < |inputs| && DiskHistory(inputs, key)[n].Read?
    ensures var h := DiskHistory(inputs, key); D.Entered(h, n) <==> !At(inputs, n - 1, key, h[n].Severity())
  {
    if n > 0 {
      SickIsSick(inputs, n - 1, key);
    }
  }

  /** A recovery is announced exactly when the disk was read sick one sweep before and is read well now. */
  lemma DiskRecovers(files: seq<StateFile>, inputs: seq<Inputs>, emitted: seq<seq<Alert>>, key: string, n: nat)
    requires Run(files, inputs, emitted) && n < |inputs| && AllValid(inputs)
    ensures Alert("smart:" + key, Resolved) in emitted[n] <==> At(inputs, n, key, Ok) && Sick(inputs, n - 1, key)
  {
    PagedMeans(files, inputs, emitted, key, n);
    RecoveryReads(inputs, key, n);
    RecoveryMeans(DiskHistory(inputs, key), n);
  }

  lemma RecoveryReads(inputs: seq<Inputs>, key: string, n: nat)
    requires AllValid(inputs) && n < |inputs|
    ensures var h := DiskHistory(inputs, key);
      At(inputs, n, key, Ok) && Sick(inputs, n - 1, key) <==> h[n].Read? && h[n].Severity().Ok? && n > 0 && h[n - 1].Sick()
  {
    LevelIs(inputs, n, key, Ok);
    SickBefore(inputs, n, key);
  }

  lemma LevelIs(inputs: seq<Inputs>, k: nat, key: string, level: Level)
    requires AllValid(inputs) && k < |inputs|
    ensures var p := DiskHistory(inputs, key)[k]; At(inputs, k, key, level) <==> p.Read? && p.Severity() == level
  {
    SickIsSick(inputs, k, key);
  }

  lemma SickBefore(inputs: seq<Inputs>, n: nat, key: string)
    requires AllValid(inputs) && n < |inputs|
    ensures Sick(inputs, n - 1, key) <==> n > 0 && DiskHistory(inputs, key)[n - 1].Sick()
  {
    if n > 0 {
      SickIsSick(inputs, n - 1, key);
    }
  }

  lemma RecoveryMeans(h: D.History, n: nat)
    requires n < |h|
    ensures D.EventAt(h, n) == Some(Resolved) <==> h[n].Read? && h[n].Severity().Ok? && n > 0 && h[n - 1].Sick()
  {
    if !h[n].Sick() {
      D.ResolveRule(h, n);
    }
  }

  // ---- every sequence of sweeps is a run -----------------------------------------------------------

  /** What a sweep may be given: rows and disks under names of their own, and no row under a bookkeeping key. */
  lemma ValidMeans(input: Inputs)
    ensures input.Valid() <==>
      && (forall i, j :: 0 <= i < j < |input.services| ==> input.services[i].id != input.services[j].id)
      && (forall row :: row in input.services ==> ServiceId(row.id))
      && (input.smartEnabled && input.devices.Some? ==>
            forall i, j :: 0 <= i < j < |input.devices.value| ==> input.devices.value[i].key != input.devices.value[j].key)
  {
    forall row | row in input.services {
      ServiceIdMeans(row.id);
    }
    if input.Valid() {
      forall row | row in input.services
        ensures ServiceId(row.id)
      {
        var i :| 0 <= i < |input.services| && input.services[i] == row;
        ServiceIdMeans(row.id);
      }
    } else {
      forall i | 0 <= i < |input.services|
        ensures ServiceId(input.services[i].id) <==> !Reserved(input.services[i].id)
        ensures input.services[i] in input.services
      {
        ServiceIdMeans(input.services[i].id);
      }
    }
  }

  /**
   On a fresh installation the file starts from the levels of the moment.  That is what a
   sweep over these rows, with the other checks off, makes of an empty file, so the laws hold
   from there on too.
   */
  lemma SeedIsASweep(input: Inputs, levels: map<string, Level>)
    requires input.Valid() && !input.thresholds.enabled && !input.smartEnabled
    requires forall id, level :: id in levels && levels[id] == level <==> S.Row(id, level) in input.services
    ensures Sweep(EMPTY_FILE, input, StateFile(levels, {}, map[], map[], map[]), [])
  {
    forall id
      ensures Get(levels, id) == S.Observed(input.services, id)
    {
      ShowsIsObserved([input], 0, id);
      var seen := S.Observed(input.services, id);
      if seen.Some? {
        assert Shows([input], 0, id, seen.value);
      }
      if id in levels {
        assert Shows([input], 0, id, levels[id]);
      }
    }
    forall s: string
      ensures Get(levels, R.Key(s)).None? && Get(levels, D.Sid(s)).None?
    {
      KeysAreReserved(s);
      S.ObservedMeaning(input.services, R.Key(s));
      S.ObservedMeaning(input.services, D.Sid(s));
    }
  }

  /** The keys of a dictionary in some order. */
  method KeysInOrder(levels: map<string, Level>) returns (order: seq<string>)
    ensures S.KeyOrder(order, levels.Keys)
  {
    order := [];
    var todo := levels.Keys;
    while todo != {}
      invariant todo <= levels.Keys
      invariant forall i, j :: 0 <= i < j < |order| ==> order[i] != order[j]
      invariant forall id :: id in order <==> id in levels.Keys && id !in todo
      decreases |todo|
    {
      var id :| id in todo;
      order := order + [id];
      todo := todo - {id};
    }
  }

  /** The alerter's loop, over whatever the sweeps are given. */
  method RunSweeps(inputs: seq<Inputs>) returns (files: seq<StateFile>, emitted: seq<seq<Alert>>)
    requires AllValid(inputs)
    ensures Run(files, inputs, emitted)
  {
    var engine := new Engine();
    files, emitted := [EMPTY_FILE], [];
    var i := 0;
    while i < |inputs|
      invariant 0 <= i <= |inputs|
      invariant Run(files, inputs[..i], emitted) && engine.file == files[i]
    {
      var order := KeysInOrder(engine.file.levels);
      assert inputs[i].Valid();
      var alerts := engine.CheckOnce(inputs[i], order);
      RunExtends(files, inputs, emitted, i, engine.file, alerts);
      files, emitted := files + [engine.file], emitted + [alerts];
      i := i + 1;
    }
    assert inputs[..i] == inputs;
  }

  lemma RunExtends(files: seq<StateFile>, inputs: seq<Inputs>, emitted: seq<seq<Alert>>, i: nat, next: StateFile, alerts: seq<Alert>)
    requires i < |inputs| && Run(files, inputs[..i], emitted) && Sweep(files[i], inputs[i], next, alerts)
    ensures Run(files + [next], inputs[..i + 1], emitted + [alerts])
  {
    var more := inputs[..i + 1];
    forall k | 0 <= k < i + 1
      ensures Sweep((files + [next])[k], more[k], (files + [next])[k + 1], (emitted + [alerts])[k])
    {
      if k < i {
        assert more[k] == inputs[..i][k];
        assert Sweep(files[k], inputs[..i][k], files[k + 1], emitted[k]);
      }
    }
  }
}
