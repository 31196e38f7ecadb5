/**
 CPU / memory / disk threshold alerts with hysteresis and cooldown
 (hub/alerts.py, `_check_resource_thresholds`).  Percentages are reals and
 timestamps integers, as in the source.
 */
module ResourceAlerts {
  import opened Options
  import opened AlertState

  /** A metric or a limit: absent, infinite / NaN, or a usable number. */
  datatype Reading = Missing | NotFinite | Finite(value: real)

  datatype Thresholds = Thresholds(enabled: bool, cpu: Reading, mem: Reading, disk: Reading, cooldown: int)

  datatype Sample = Sample(cpuUsed: Reading, load: Reading, mem: Reading, disk: Reading)

  datatype Check = Check(rid: string, value: Reading, limit: Reading)

  const HYSTERESIS: real := 5.0

  function Key(rid: string): string {
    "resource:" + rid
  }

  lemma KeyInjective(a: string, b: string)
    ensures Key(a) == Key(b) ==> a == b
  {
    assert Key(a)[|"resource:"|..] == a;
    assert Key(b)[|"resource:"|..] == b;
  }

  // ---- what one sweep does to one resource -----------------------------------

  /** One sweep seen by one resource: no usable numbers, or a comparison. */
  datatype Probe = Skipped | Probed(now: int, cooldown: int, value: real, limit: real)
  {
    predicate Over() { Probed? && value >= limit }
    predicate Recovered() { Probed? && value <= limit - HYSTERESIS }
  }

  datatype Slot = Slot(level: Option<Level>, lastFire: int)

  datatype Outcome = Outcome(slot: Slot, event: Option<Event>)

  const FRESH := Slot(None, 0)

  function Step(slot: Slot, p: Probe): Outcome {
    var warned := slot.level == Some(Warn);
    if p.Skipped? then Outcome(Slot(None, slot.lastFire), None)
    else if p.Over() && !warned && p.now - slot.lastFire < p.cooldown then
      Outcome(Slot(Some(slot.level.GetOr(Ok)), slot.lastFire), None)
    else if p.Over() && (!warned || p.now - slot.lastFire >= p.cooldown) then
      Outcome(Slot(Some(Warn), p.now), Some(Problem(Warn)))
    else if p.Over() || (warned && !p.Recovered()) then Outcome(Slot(Some(Warn), slot.lastFire), None)
    else Outcome(Slot(Some(Ok), slot.lastFire), if warned then Some(Resolved) else None)
  }

  function SlotOf(file: StateFile, rid: string): Slot {
    Slot(Get(file.levels, Key(rid)), Get(file.resourceLast, rid).GetOr(0))
  }

  function ProbeOf(c: Check, cooldown: int, now: int): Probe {
    if c.value.Finite? && c.limit.Finite? then Probed(now, cooldown, c.value.value, c.limit.value) else Skipped
  }

  /** The three comparisons; load stands in for a missing CPU percentage only. */
  function Checks(th: Thresholds, s: Sample): seq<Check> {
    [Check("cpu", if s.cpuUsed.Missing? then s.load else s.cpuUsed, th.cpu),
     Check("mem", s.mem, th.mem),
     Check("disk", s.disk, th.disk)]
  }

  predicate UniqueChecks(cs: seq<Check>) {
    forall i, j :: 0 <= i < j < |cs| ==> cs[i].rid != cs[j].rid
  }

  /** What resource `rid` sees of a list of comparisons. */
  function ProbeIn(cs: seq<Check>, cooldown: int, now: int, rid: string): Probe {
    if cs == [] then Skipped
    else if cs[|cs| - 1].rid == rid then ProbeOf(cs[|cs| - 1], cooldown, now)
    else ProbeIn(cs[..|cs| - 1], cooldown, now, rid)
  }

  lemma {:induction false} ProbeInAbsent(cs: seq<Check>, cooldown: int, now: int, rid: string)
    requires forall i :: 0 <= i < |cs| ==> cs[i].rid != rid
    ensures ProbeIn(cs, cooldown, now, rid) == Skipped
  {
    if cs != [] {
      ProbeInAbsent(cs[..|cs| - 1], cooldown, now, rid);
    }
  }

  /** The comparisons of a sweep; none at all when the check returns early. */
  function SweepChecks(th: Thresholds, latest: Option<Sample>): (cs: seq<Check>)
    ensures UniqueChecks(cs)
  {
    if !th.enabled || latest.None? then [] else Checks(th, latest.value)
  }

  function AlertFor(prev: StateFile, rid: string, p: Probe): seq<Alert> {
    var e := Step(SlotOf(prev, rid), p).event;
    if e.Some? then [Alert(Key(rid), e.value)] else []
  }

  /** Body of the loop: one comparison. */
  method VisitCheck(prev: StateFile, st: NewState, c: Check, cooldown: int, now: int) returns (emitted: seq<Alert>)
    requires SlotOf(st.View(), c.rid) == Step(SlotOf(prev, c.rid), Skipped).slot
    modifies st`levels, st`resourceLast
    ensures SlotOf(st.View(), c.rid) == Step(SlotOf(prev, c.rid), ProbeOf(c, cooldown, now)).slot
    ensures forall id :: id != Key(c.rid) ==> Get(st.levels, id) == Get(old(st.levels), id)
    ensures forall rid :: rid != c.rid ==> Get(st.resourceLast, rid) == Get(old(st.resourceLast), rid)
    ensures emitted == AlertFor(prev, c.rid, ProbeOf(c, cooldown, now))
  {
    emitted := [];
    if !c.value.Finite? || !c.limit.Finite? {
      return;
    }
    var val, limit := c.value.value, c.limit.value;
    var key := Key(c.rid);
    var over := val >= limit;
    var recovered := val <= limit - HYSTERESIS;
    var was := Get(prev.levels, key);
    var lastT := Get(prev.resourceLast, c.rid).GetOr(0);
    if over && was != Some(Warn) && now - lastT < cooldown {
      st.levels := st.levels[key := was.GetOr(Ok)];
      return;
    }
    if over {
      st.levels := st.levels[key := Warn];
    } else if was == Some(Warn) && !recovered {
      st.levels := st.levels[key := Warn];
    } else {
      st.levels := st.levels[key := Ok];
    }
    if over && (was != Some(Warn) || now - lastT >= cooldown) {
      emitted := [Alert(key, Problem(Warn))];
      st.resourceLast := st.resourceLast[c.rid := now];
    } else if was == Some(Warn) && recovered {
      emitted := [Alert(key, Resolved)];
    }
  }

  function CheckAlerts(prev: StateFile, cs: seq<Check>, cooldown: int, now: int): seq<Alert> {
    if cs == [] then []
    else
      var c := cs[|cs| - 1];
      CheckAlerts(prev, cs[..|cs| - 1], cooldown, now) + AlertFor(prev, c.rid, ProbeOf(c, cooldown, now))
  }

  /** The loop over the comparisons: every resource takes its own step, the others sit the sweep out. */
  method VisitChecks(prev: StateFile, st: NewState, checks: seq<Check>, cooldown: int, now: int)
    returns (emitted: seq<Alert>)
    requires UniqueChecks(checks)
    requires forall rid :: Get(st.levels, Key(rid)) == None
    requires st.resourceLast == prev.resourceLast
    modifies st`levels, st`resourceLast
    ensures forall rid ::
      SlotOf(st.View(), rid) == Step(SlotOf(prev, rid), ProbeIn(checks, cooldown, now, rid)).slot
    ensures forall id :: !("resource:" <= id) ==> Get(st.levels, id) == Get(old(st.levels), id)
    ensures emitted == CheckAlerts(prev, checks, cooldown, now)
  {
    emitted := [];
    var i := 0;
    while i < |checks|
      invariant 0 <= i <= |checks|
      invariant forall rid ::
        SlotOf(st.View(), rid) == Step(SlotOf(prev, rid), ProbeIn(checks[..i], cooldown, now, rid)).slot
      invariant forall id :: !("resource:" <= id) ==> Get(st.levels, id) == Get(old(st.levels), id)
      invariant emitted == CheckAlerts(prev, checks[..i], cooldown, now)
    {
      ProbeInAbsent(checks[..i], cooldown, now, checks[i].rid);
      var alerts := VisitCheck(prev, st, checks[i], cooldown, now);
      assert checks[..i + 1][..i] == checks[..i];
      forall rid
        ensures rid != checks[i].rid ==> Key(rid) != Key(checks[i].rid)
      {
        KeyInjective(rid, checks[i].rid);
      }
      emitted := emitted + alerts;
      i := i + 1;
    }
    assert checks[..i] == checks;
  }

  method CheckResourceThresholds(prev: StateFile, st: NewState, th: Thresholds, latest: Option<Sample>, now: int)
    returns (emitted: seq<Alert>)
    requires forall rid :: Get(st.levels, Key(rid)) == None
    requires st.resourceLast == prev.resourceLast
    modifies st`levels, st`resourceLast
    ensures forall rid ::
      SlotOf(st.View(), rid) == Step(SlotOf(prev, rid), ProbeIn(SweepChecks(th, latest), th.cooldown, now, rid)).slot
    ensures forall id :: !("resource:" <= id) ==> Get(st.levels, id) == Get(old(st.levels), id)
    ensures emitted == CheckAlerts(prev, SweepChecks(th, latest), th.cooldown, now)
  {
    if !th.enabled || latest.None? {
      return [];
    }
    emitted := VisitChecks(prev, st, Checks(th, latest.value), th.cooldown, now);
  }

  /** The alerts of a sweep about one resource. */
  lemma {:induction false} AboutChecks(prev: StateFile, cs: seq<Check>, cooldown: int, now: int, rid: string)
    requires UniqueChecks(cs)
    ensures About(CheckAlerts(prev, cs, cooldown, now), Key(rid)) ==
      ToSeq(Step(SlotOf(prev, rid), ProbeIn(cs, cooldown, now, rid)).event)
  {
    if cs != [] {
      var n := |cs| - 1;
      AboutChecks(prev, cs[..n], cooldown, now, rid);
      AboutConcat(CheckAlerts(prev, cs[..n], cooldown, now), AlertFor(prev, cs[n].rid, ProbeOf(cs[n], cooldown, now)), Key(rid));
      KeyInjective(rid, cs[n].rid);
      if cs[n].rid == rid {
        ProbeInAbsent(cs[..n], cooldown, now, rid);
      }
    }
  }

  // ---- traces ----------------------------------------------------------------

  type History = seq<Probe>

  function SlotAfter(h: History): Slot {
    if h == [] then FRESH else Step(SlotAfter(h[..|h| - 1]), h[|h| - 1]).slot
  }

  function EventAt(h: History, n: nat): Option<Event>
    requires n < |h|
  {
    Step(SlotAfter(h[..n]), h[n]).event
  }

  predicate ProblemAt(h: History, n: nat)
    requires n < |h|
  {
    EventAt(h, n) == Some(Problem(Warn))
  }

  /** When the latest problem of the history was raised; 0 before the first. */
  function LastProblem(h: History): int {
    if h == [] then 0
    else if ProblemAt(h, |h| - 1) then h[|h| - 1].now
    else LastProblem(h[..|h| - 1])
  }

  lemma {:induction false} StampIsLastProblem(h: History)
    ensures SlotAfter(h).lastFire == LastProblem(h)
  {
    if h != [] {
      StampIsLastProblem(h[..|h| - 1]);
    }
  }

  /**
   Hysteresis never decides whether a problem is raised: over the limit and out
   of the quiet window is necessary and sufficient.
   */
  lemma ProblemRule(h: History, n: nat)
    requires n < |h|
    ensures ProblemAt(h, n) <==> h[n].Over() && h[n].now - LastProblem(h[..n]) >= h[n].cooldown
    ensures EventAt(h, n) in {None, Some(Problem(Warn)), Some(Resolved)}
  {
    StampIsLastProblem(h[..n]);
  }

  /** A problem was raised at sweep k and every later sweep had a sample that did not recover. */
  ghost predicate OpenSince(h: History, k: nat) {
    k < |h| && ProblemAt(h, k) && forall j :: k < j < |h| ==> h[j].Probed? && !h[j].Recovered()
  }

  /** Hysteresis as a statement about the whole history. */
  lemma {:induction false} WarnedMeansOpen(h: History)
    ensures SlotAfter(h).level == Some(Warn) <==> exists k: nat :: OpenSince(h, k)
  {
    if h != [] {
      var n := |h| - 1;
      WarnedMeansOpen(h[..n]);
      forall k: nat | k < n
        ensures ProblemAt(h, k) <==> ProblemAt(h[..n], k)
        ensures OpenSince(h, k) <==> OpenSince(h[..n], k) && h[n].Probed? && !h[n].Recovered()
      {
        assert h[..n][..k] == h[..k];
        assert forall j :: 0 <= j < n ==> h[..n][j] == h[j];
      }
      if ProblemAt(h, n) {
        assert OpenSince(h, n);
      } else if SlotAfter(h).level == Some(Warn) {
        var k: nat :| OpenSince(h[..n], k);
        assert OpenSince(h, k);
      }
    }
  }

  lemma ResolvedRule(h: History, n: nat)
    requires n < |h|
    ensures EventAt(h, n) == Some(Resolved) <==> h[n].Recovered() && exists k: nat :: OpenSince(h[..n], k)
  {
    WarnedMeansOpen(h[..n]);
  }

  predicate NoneResolved(h: History, from: nat, to: nat)
    requires to <= |h|
  {
    forall j :: from <= j < to ==> EventAt(h, j) != Some(Resolved)
  }

  /** Every recovery answers a problem of its own, and is at least the hysteresis below the limit. */
  lemma ResolvedFollowsProblem(h: History, n: nat)
    requires n < |h| && EventAt(h, n) == Some(Resolved)
    ensures h[n].Probed? && h[n].value <= h[n].limit - 5.0
    ensures exists k: nat :: k < n && ProblemAt(h, k) && NoneResolved(h, k + 1, n)
  {
    ResolvedRule(h, n);
    var k: nat :| OpenSince(h[..n], k);
    assert h[..n][..k] == h[..k];
    forall j: nat | k < j < n
      ensures EventAt(h, j) != Some(Resolved)
    {
      ResolvedRule(h, j);
      assert h[j] == h[..n][j];
    }
    assert ProblemAt(h, k) && NoneResolved(h, k + 1, n);
  }

  /** Two successive problems are at least the cooldown apart, whatever lies between. */
  lemma {:induction false} ProblemSpacing(h: History, i: nat, j: nat)
    requires i < j < |h| && ProblemAt(h, i) && ProblemAt(h, j)
    requires forall k :: i < k < j ==> !ProblemAt(h, k)
    ensures h[j].now - h[i].now >= h[j].cooldown
  {
    ProblemRule(h, j);
    LastProblemBetween(h, i, j);
  }

  lemma {:induction false} LastProblemBetween(h: History, i: nat, j: nat)
    requires i < j <= |h| && ProblemAt(h, i)
    requires forall k :: i < k < j ==> !ProblemAt(h, k)
    ensures LastProblem(h[..j]) == h[i].now
  {
    assert h[..j][..j - 1] == h[..j - 1];
    assert ProblemAt(h[..j], j - 1) <==> ProblemAt(h, j - 1);
    if j > i + 1 {
      LastProblemBetween(h, i, j - 1);
    }
  }

  /** Times of all problems, oldest first. */
  function Problems(h: History): seq<int> {
    if h == [] then []
    else Problems(h[..|h| - 1]) + if ProblemAt(h, |h| - 1) then [h[|h| - 1].now] else []
  }

  /** At most elapsed / cooldown + 1 problems, counting from the first to the last. */
  lemma {:induction false} ProblemCount(h: History, cooldown: int)
    requires forall i :: 0 <= i < |h| && h[i].Probed? ==> h[i].cooldown >= cooldown
    ensures Problems(h) != [] ==>
      var ts := Problems(h);
      ts[|ts| - 1] == LastProblem(h) && ts[|ts| - 1] - ts[0] >= (|ts| - 1) * cooldown
  {
    if h != [] {
      var n := |h| - 1;
      ProblemCount(h[..n], cooldown);
      ProblemRule(h, n);
      var ts := Problems(h[..n]);
      if ProblemAt(h, n) && ts != [] {
        assert Problems(h)[0] == ts[0];
        assert |ts| * cooldown == (|ts| - 1) * cooldown + cooldown;
      }
    }
  }
}
