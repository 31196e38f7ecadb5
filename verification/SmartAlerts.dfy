/**
 Disk health alerts: edge, growth and cooldown (hub/alerts.py,
 `_check_smart_health`).  A disk arrives with the detail tokens of its tripped
 fatal and soft checks, which `_smart_reasons` computes.
 */
module SmartAlerts {
  import opened Options
  import opened Text
  import opened AlertState

  const SEPARATOR: string := " \U{B7} "
  const DOT: char := '\U{B7}'

  datatype Disk = Disk(key: string, readable: bool, down: seq<string>, warn: seq<string>)

  function Sid(key: string): string {
    "smart:" + key
  }

  lemma SidInjective(a: string, b: string)
    ensures Sid(a) == Sid(b) ==> a == b
  {
    assert Sid(a)[|"smart:"|..] == a;
    assert Sid(b)[|"smart:"|..] == b;
  }

  // ---- stable tokens -----------------------------------------------------------

  function DigitRun(s: string): (n: nat)
    ensures n <= |s|
  {
    if s != "" && '0' <= s[0] <= '9' then 1 + DigitRun(s[1..]) else 0
  }

  /** The live reading of a temperature token is dropped; every other token is kept. */
  function Stable(token: string): string {
    if "temp=" <= token then
      var n := DigitRun(token[5..]);
      if n > 0 && 5 + n < |token| && token[5 + n] == 'C' then "temp" + token[6 + n..] else token
    else token
  }

  function Stables(tokens: seq<string>): (r: seq<string>) {
    seq(|tokens|, i requires 0 <= i < |tokens| => Stable(tokens[i]))
  }

  predicate Digits(s: string) {
    s != "" && forall i :: 0 <= i < |s| ==> '0' <= s[i] <= '9'
  }

  lemma {:induction false} DigitRunOf(d: string, rest: string)
    requires forall i :: 0 <= i < |d| ==> '0' <= d[i] <= '9'
    requires rest == "" || !('0' <= rest[0] <= '9')
    ensures DigitRun(d + rest) == |d|
  {
    if d == "" {
      assert d + rest == rest;
    } else {
      assert (d + rest)[1..] == d[1..] + rest;
      DigitRunOf(d[1..], rest);
    }
  }

  lemma TemperatureToken(d: string, limit: string)
    requires Digits(d)
    ensures Stable("temp=" + d + "C" + limit) == "temp" + limit
  {
    var t := "temp=" + d + "C" + limit;
    assert t[5..] == d + ("C" + limit);
    DigitRunOf(d, "C" + limit);
    assert t[5 + |d|] == 'C';
    assert t[6 + |d|..] == limit;
  }

  /** Of all tokens, exactly those that start with a temperature of whole degrees lose it. */
  lemma StableExact(token: string)
    ensures (exists d, rest :: Digits(d) && token == "temp=" + d + "C" + rest && Stable(token) == "temp" + rest)
            || (Stable(token) == token && forall d, rest :: Digits(d) ==> token != "temp=" + d + "C" + rest)
  {
    var n := if "temp=" <= token then DigitRun(token[5..]) else 0;
    if n > 0 && 5 + n < |token| && token[5 + n] == 'C' {
      var d, rest := token[5..][..n], token[6 + n..];
      DigitRunIsDigits(token[5..]);
      assert token == "temp=" + token[5..] && token[5..] == d + "C" + rest;
      assert Digits(d) && token == "temp=" + d + "C" + rest && Stable(token) == "temp" + rest;
    } else {
      forall d, rest | Digits(d)
        ensures token != "temp=" + d + "C" + rest
      {
        TemperatureRun(d, rest);
      }
    }
  }

  lemma TemperatureRun(d: string, rest: string)
    requires Digits(d)
    ensures var t := "temp=" + d + "C" + rest;
      "temp=" <= t && DigitRun(t[5..]) == |d| > 0 && 5 + |d| < |t| && t[5 + |d|] == 'C'
  {
    var t := "temp=" + d + "C" + rest;
    assert t[5..] == d + ("C" + rest);
    DigitRunOf(d, "C" + rest);
  }

  lemma {:induction false} DigitRunIsDigits(s: string)
    ensures forall i :: 0 <= i < DigitRun(s) ==> '0' <= s[i] <= '9'
  {
    if s != "" && '0' <= s[0] <= '9' {
      DigitRunIsDigits(s[1..]);
    }
  }

  /** Only the live temperature differs: the tokens are the same news. */
  lemma TemperatureIsNoNews(d1: string, d2: string, limit: string)
    requires Digits(d1) && Digits(d2)
    ensures Stable("temp=" + d1 + "C" + limit) == Stable("temp=" + d2 + "C" + limit)
  {
    TemperatureToken(d1, limit);
    TemperatureToken(d2, limit);
  }

  lemma StableLacks(token: string)
    requires Lacks(token, DOT)
    ensures Lacks(Stable(token), DOT)
  {
  }

  // ---- what one sweep does to one disk -----------------------------------------

  datatype Probe = Unread | Read(now: int, cooldown: int, down: seq<string>, warn: seq<string>)
  {
    function Severity(): Level
      requires Read?
    {
      if down != [] then Down else if warn != [] then Warn else Ok
    }

    /** Detail tokens of the alert, fatal ones first. */
    function Tokens(): seq<string>
      requires Read?
    {
      if down != [] then down + warn else warn
    }

    predicate Sick() { Read? && Tokens() != [] }
  }

  datatype Slot = Slot(level: Option<Level>, lastFire: Option<int>, detail: Option<string>)

  datatype Outcome = Outcome(slot: Slot, event: Option<Event>)

  const FRESH := Slot(None, None, None)

  predicate Grew(detail: Option<string>, stable: seq<string>) {
    detail.Some? && exists i :: 0 <= i < |stable| && stable[i] !in Split(detail.value, SEPARATOR)
  }

  function Step(slot: Slot, p: Probe): Outcome {
    if p.Unread? then Outcome(slot.(level := None), None)
    else
      var level := p.Severity();
      if p.Sick() then
        var stable := Stables(p.Tokens());
        var detail := Some(Join(stable, SEPARATOR));
        if slot.level != Some(level) || Grew(slot.detail, stable)
           || (level.Down? && p.now - slot.lastFire.GetOr(0) >= p.cooldown)
        then Outcome(Slot(Some(level), Some(p.now), detail), Some(Problem(level)))
        else Outcome(Slot(Some(level), slot.lastFire, detail), None)
      else if slot.level.Some? && Bad(slot.level.value) then Outcome(Slot(Some(level), None, None), Some(Resolved))
      else Outcome(slot.(level := Some(level)), None)
  }

  /**
   What one visit makes of the rebuilt slot `cur` of a disk that was at `was`.  The two
   differ when an earlier disk of the sweep had the same identity.
   */
  function Onto(was: Slot, cur: Slot, p: Probe): Slot {
    var fired := Step(was, p).event.Some?;
    if p.Unread? then cur
    else if p.Sick() then
      Slot(Some(p.Severity()), if fired then Some(p.now) else cur.lastFire, Some(Join(Stables(p.Tokens()), SEPARATOR)))
    else if fired then Slot(Some(p.Severity()), None, None)
    else cur.(level := Some(p.Severity()))
  }

  /** The first visit of an identity is the step. */
  lemma OntoFresh(was: Slot, p: Probe)
    ensures Onto(was, was.(level := None), p) == Step(was, p).slot
  {
  }

  function SlotOf(file: StateFile, key: string): Slot {
    Slot(Get(file.levels, Sid(key)), Get(file.smartLast, key), Get(file.smartDetail, key))
  }

  function ProbeOf(d: Disk, cooldown: int, now: int): Probe {
    if d.readable then Read(now, cooldown, d.down, d.warn) else Unread
  }

  function AlertFor(prev: StateFile, key: string, p: Probe): seq<Alert> {
    var e := Step(SlotOf(prev, key), p).event;
    if e.Some? then [Alert(Sid(key), e.value)] else []
  }

  /** A disk with tripped checks: its tokens are remembered, and it pages on an edge, on news, or on time. */
  method VisitSick(prev: StateFile, st: NewState, key: string, p: Probe) returns (emitted: seq<Alert>)
    requires p.Sick()
    modifies st`smartLast, st`smartDetail
    ensures emitted == AlertFor(prev, key, p)
    ensures st.smartLast == if emitted != [] then old(st.smartLast)[key := p.now] else old(st.smartLast)
    ensures st.smartDetail == old(st.smartDetail)[key := Join(Stables(p.Tokens()), SEPARATOR)]
  {
    emitted := [];
    var sid, level, reasons := Sid(key), p.Severity(), p.Tokens();
    var was := Get(prev.levels, sid);
    var lastT := Get(prev.smartLast, key).GetOr(0);
    var stable := Stables(reasons);
    st.smartDetail := st.smartDetail[key := Join(stable, SEPARATOR)];
    var grew := Grew(Get(prev.smartDetail, key), stable);
    if was != Some(level) || grew || (level == Down && p.now - lastT >= p.cooldown) {
      emitted := [Alert(sid, Problem(level))];
      st.smartLast := st.smartLast[key := p.now];
    }
  }

  /** A disk that reads well: a recovery forgets its stamp and its tokens. */
  method VisitWell(prev: StateFile, st: NewState, key: string, p: Probe) returns (emitted: seq<Alert>)
    requires p.Read? && !p.Sick()
    modifies st`smartLast, st`smartDetail
    ensures emitted == AlertFor(prev, key, p)
    ensures st.smartLast == if emitted != [] then old(st.smartLast) - {key} else old(st.smartLast)
    ensures st.smartDetail == if emitted != [] then old(st.smartDetail) - {key} else old(st.smartDetail)
  {
    emitted := [];
    var was := Get(prev.levels, Sid(key));
    if was == Some(Down) || was == Some(Warn) {
      emitted := [Alert(Sid(key), Resolved)];
      st.smartLast := st.smartLast - {key};
      st.smartDetail := st.smartDetail - {key};
    }
  }

  /** Body of the loop: one disk. */
  method VisitDisk(prev: StateFile, st: NewState, d: Disk, cooldown: int, now: int) returns (emitted: seq<Alert>)
    modifies st`levels, st`smartLast, st`smartDetail
    ensures SlotOf(st.View(), d.key) == Onto(SlotOf(prev, d.key), old(SlotOf(st.View(), d.key)), ProbeOf(d, cooldown, now))
    ensures forall id :: id != Sid(d.key) ==> Get(st.levels, id) == Get(old(st.levels), id)
    ensures forall k :: k != d.key ==>
      Get(st.smartLast, k) == Get(old(st.smartLast), k) && Get(st.smartDetail, k) == Get(old(st.smartDetail), k)
    ensures emitted == AlertFor(prev, d.key, ProbeOf(d, cooldown, now))
  {
    if !d.readable {
      return [];
    }
    var p := Read(now, cooldown, d.down, d.warn);
    st.levels := st.levels[Sid(d.key) := p.Severity()];
    if p.Severity() != Ok {
      emitted := VisitSick(prev, st, d.key, p);
    } else {
      emitted := VisitWell(prev, st, d.key, p);
    }
  }

  predicate UniqueKeys(disks: seq<Disk>) {
    forall i, j :: 0 <= i < j < |disks| ==> disks[i].key != disks[j].key
  }

  /** What the disk with this key sees of a sweep; Unread when it is not listed. */
  function ProbeIn(disks: seq<Disk>, cooldown: int, now: int, key: string): Probe {
    if disks == [] then Unread
    else if disks[|disks| - 1].key == key then ProbeOf(disks[|disks| - 1], cooldown, now)
    else ProbeIn(disks[..|disks| - 1], cooldown, now, key)
  }

  lemma {:induction false} ProbeInAbsent(disks: seq<Disk>, cooldown: int, now: int, key: string)
    requires forall i :: 0 <= i < |disks| ==> disks[i].key != key
    ensures ProbeIn(disks, cooldown, now, key) == Unread
  {
    if disks != [] {
      ProbeInAbsent(disks[..|disks| - 1], cooldown, now, key);
    }
  }

  /** Where the disk of this key stands after a sweep over some disks, whatever identities they share. */
  function NextSlot(prev: StateFile, disks: seq<Disk>, cooldown: int, now: int, key: string): Slot {
    if disks == [] then SlotOf(prev, key).(level := None)
    else
      var d := disks[|disks| - 1];
      var before := NextSlot(prev, disks[..|disks| - 1], cooldown, now, key);
      if d.key == key then Onto(SlotOf(prev, key), before, ProbeOf(d, cooldown, now)) else before
  }

  lemma NextSlotStep(prev: StateFile, disks: seq<Disk>, i: nat, cooldown: int, now: int, key: string)
    requires i < |disks|
    ensures var before := NextSlot(prev, disks[..i], cooldown, now, key);
      NextSlot(prev, disks[..i + 1], cooldown, now, key) ==
      if disks[i].key == key then Onto(SlotOf(prev, key), before, ProbeOf(disks[i], cooldown, now)) else before
  {
    assert disks[..i + 1][..i] == disks[..i];
  }

  lemma {:induction false} NextSlotUnlisted(prev: StateFile, disks: seq<Disk>, cooldown: int, now: int, key: string)
    requires forall i :: 0 <= i < |disks| ==> disks[i].key != key
    ensures NextSlot(prev, disks, cooldown, now, key) == SlotOf(prev, key).(level := None)
  {
    if disks != [] {
      NextSlotUnlisted(prev, disks[..|disks| - 1], cooldown, now, key);
    }
  }

  /** With one disk to an identity, every disk takes exactly its own step. */
  lemma {:induction false} NextSlotIsStep(prev: StateFile, disks: seq<Disk>, cooldown: int, now: int, key: string)
    requires UniqueKeys(disks)
    ensures NextSlot(prev, disks, cooldown, now, key) == Step(SlotOf(prev, key), ProbeIn(disks, cooldown, now, key)).slot
  {
    if disks != [] {
      var n := |disks| - 1;
      if disks[n].key == key {
        NextSlotUnlisted(prev, disks[..n], cooldown, now, key);
        OntoFresh(SlotOf(prev, key), ProbeOf(disks[n], cooldown, now));
      } else {
        NextSlotIsStep(prev, disks[..n], cooldown, now, key);
      }
    }
  }

  /** The last readable disk of an identity, if any. */
  function LastRead(disks: seq<Disk>, key: string): (last: Option<Disk>)
    ensures last.Some? ==> last.value.readable && last.value.key == key && last.value in disks
  {
    if disks == [] then None
    else if disks[|disks| - 1].key == key && disks[|disks| - 1].readable then Some(disks[|disks| - 1])
    else LastRead(disks[..|disks| - 1], key)
  }

  /** Disks that share an identity: the level is that of the last readable one. */
  lemma {:induction false} LastReadDecides(prev: StateFile, disks: seq<Disk>, cooldown: int, now: int, key: string)
    ensures NextSlot(prev, disks, cooldown, now, key).level ==
            match LastRead(disks, key)
            case None => None
            case Some(d) => Some(ProbeOf(d, cooldown, now).Severity())
  {
    if disks != [] {
      LastReadDecides(prev, disks[..|disks| - 1], cooldown, now, key);
    }
  }

  /** Every identity stands where the disks visited so far have brought it. */
  ghost predicate Stepped(file: StateFile, prev: StateFile, disks: seq<Disk>, cooldown: int, now: int) {
    forall key :: SlotOf(file, key) == NextSlot(prev, disks, cooldown, now, key)
  }

  lemma SteppedNone(file: StateFile, prev: StateFile, cooldown: int, now: int)
    requires forall key :: SlotOf(file, key) == SlotOf(prev, key).(level := None)
    ensures Stepped(file, prev, [], cooldown, now)
  {
  }

  lemma SteppedNext(file: StateFile, file': StateFile, prev: StateFile, disks: seq<Disk>, i: nat, cooldown: int, now: int)
    requires i < |disks| && Stepped(file, prev, disks[..i], cooldown, now)
    requires SlotOf(file', disks[i].key)
             == Onto(SlotOf(prev, disks[i].key), SlotOf(file, disks[i].key), ProbeOf(disks[i], cooldown, now))
    requires forall id :: id != Sid(disks[i].key) ==> Get(file'.levels, id) == Get(file.levels, id)
    requires forall k :: k != disks[i].key ==>
      Get(file'.smartLast, k) == Get(file.smartLast, k) && Get(file'.smartDetail, k) == Get(file.smartDetail, k)
    ensures Stepped(file', prev, disks[..i + 1], cooldown, now)
  {
    forall key
      ensures SlotOf(file', key) == NextSlot(prev, disks[..i + 1], cooldown, now, key)
    {
      SidInjective(key, disks[i].key);
      NextSlotStep(prev, disks, i, cooldown, now, key);
      assert SlotOf(file, key) == NextSlot(prev, disks[..i], cooldown, now, key);
    }
  }

  /** Only disk levels differ. */
  ghost predicate OthersKept(levels: map<string, Level>, before: map<string, Level>) {
    forall id :: !("smart:" <= id) ==> Get(levels, id) == Get(before, id)
  }

  lemma OthersKeptStep(levels: map<string, Level>, middle: map<string, Level>, before: map<string, Level>, key: string)
    requires OthersKept(middle, before) && forall id :: id != Sid(key) ==> Get(levels, id) == Get(middle, id)
    ensures OthersKept(levels, before)
  {
    assert "smart:" <= Sid(key);
  }

  lemma DiskAlertsStep(prev: StateFile, disks: seq<Disk>, i: nat, cooldown: int, now: int)
    requires i < |disks|
    ensures DiskAlerts(prev, disks[..i + 1], cooldown, now) ==
            DiskAlerts(prev, disks[..i], cooldown, now) + AlertFor(prev, disks[i].key, ProbeOf(disks[i], cooldown, now))
  {
    assert disks[..i + 1][..i] == disks[..i];
  }

  function DiskAlerts(prev: StateFile, disks: seq<Disk>, cooldown: int, now: int): seq<Alert> {
    if disks == [] then []
    else
      var d := disks[|disks| - 1];
      DiskAlerts(prev, disks[..|disks| - 1], cooldown, now) + AlertFor(prev, d.key, ProbeOf(d, cooldown, now))
  }

  method VisitDisks(prev: StateFile, st: NewState, disks: seq<Disk>, cooldown: int, now: int)
    returns (emitted: seq<Alert>)
    requires forall key :: SlotOf(st.View(), key) == SlotOf(prev, key).(level := None)
    modifies st`levels, st`smartLast, st`smartDetail
    ensures Stepped(st.View(), prev, disks, cooldown, now)
    ensures OthersKept(st.levels, old(st.levels))
    ensures emitted == DiskAlerts(prev, disks, cooldown, now)
  {
    emitted := [];
    SteppedNone(st.View(), prev, cooldown, now);
    assert disks[..0] == [];
    var i := 0;
    while i < |disks|
      invariant 0 <= i <= |disks|
      invariant Stepped(st.View(), prev, disks[..i], cooldown, now)
      invariant OthersKept(st.levels, old(st.levels))
      invariant emitted == DiskAlerts(prev, disks[..i], cooldown, now)
    {
      ghost var before := st.View();
      var alerts := VisitDisk(prev, st, disks[i], cooldown, now);
      SteppedNext(before, st.View(), prev, disks, i, cooldown, now);
      OthersKeptStep(st.levels, before.levels, old(st.levels), disks[i].key);
      DiskAlertsStep(prev, disks, i, cooldown, now);
      emitted := emitted + alerts;
      i := i + 1;
    }
    assert disks[..i] == disks;
  }

  /** The disks of a sweep; none when the check is off or the snapshot failed. */
  function SweepDisks(enabled: bool, devices: Option<seq<Disk>>): seq<Disk> {
    if !enabled || devices.None? then [] else devices.value
  }

  method CheckSmartHealth(prev: StateFile, st: NewState, enabled: bool, devices: Option<seq<Disk>>,
                          cooldown: int, now: int)
    returns (emitted: seq<Alert>)
    requires forall key :: SlotOf(st.View(), key) == SlotOf(prev, key).(level := None)
    modifies st`levels, st`smartLast, st`smartDetail
    ensures Stepped(st.View(), prev, SweepDisks(enabled, devices), cooldown, now)
    ensures OthersKept(st.levels, old(st.levels))
    ensures emitted == DiskAlerts(prev, SweepDisks(enabled, devices), cooldown, now)
  {
    if !enabled || devices.None? {
      return [];
    }
    emitted := VisitDisks(prev, st, devices.value, cooldown, now);
  }

  lemma {:induction false} AboutDisks(prev: StateFile, disks: seq<Disk>, cooldown: int, now: int, key: string)
    requires UniqueKeys(disks)
    ensures About(DiskAlerts(prev, disks, cooldown, now), Sid(key)) ==
      ToSeq(Step(SlotOf(prev, key), ProbeIn(disks, cooldown, now, key)).event)
  {
    if disks != [] {
      var n := |disks| - 1;
      AboutDisks(prev, disks[..n], cooldown, now, key);
      AboutConcat(DiskAlerts(prev, disks[..n], cooldown, now),
                  AlertFor(prev, disks[n].key, ProbeOf(disks[n], cooldown, now)), Sid(key));
      SidInjective(key, disks[n].key);
      if disks[n].key == key {
        ProbeInAbsent(disks[..n], cooldown, now, key);
      }
    }
  }

  // ---- traces ----------------------------------------------------------------

  type History = seq<Probe>

  function SlotAfter(h: History): Slot {
    if h == [] then FRESH else Step(SlotAfter(h[..|h| - 1]), h[|h| - 1]).slot
  }

  function EventAt(h: History, n: nat): Option<Event>
    requires n < |h|
  {
    Step(SlotAfter(h[..n]), h[n]).event
  }

  /** Time of the latest problem since the latest recovery; 0 when there is none. */
  function LastProblem(h: History): int {
    if h == [] then 0
    else
      match EventAt(h, |h| - 1)
      case Some(Problem(_)) => h[|h| - 1].now
      case Some(Resolved) => 0
      case None => LastProblem(h[..|h| - 1])
  }

  /** Stable tokens of the latest sick reading since the latest recovery. */
  function LastTokens(h: History): Option<seq<string>> {
    if h == [] then None
    else
      var p := h[|h| - 1];
      if p.Sick() then Some(Stables(p.Tokens()))
      else if EventAt(h, |h| - 1) == Some(Resolved) then None
      else LastTokens(h[..|h| - 1])
  }

  lemma {:induction false} SlotMeaning(h: History)
    ensures SlotAfter(h).lastFire.GetOr(0) == LastProblem(h)
    ensures SlotAfter(h).level == if h != [] && h[|h| - 1].Read? then Some(h[|h| - 1].Severity()) else None
    ensures LastTokens(h).None? ==> SlotAfter(h).detail == None
    ensures LastTokens(h).Some? ==>
      LastTokens(h).value != [] && SlotAfter(h).detail == Some(Join(LastTokens(h).value, SEPARATOR))
  {
    if h != [] {
      SlotMeaning(h[..|h| - 1]);
    }
  }

  /** Device text without the separator's middle dot. */
  ghost predicate DotFree(h: History) {
    forall i, j :: 0 <= i < |h| && h[i].Read? && 0 <= j < |h[i].Tokens()| ==> Lacks(h[i].Tokens()[j], DOT)
  }

  lemma {:induction false} LastTokensDotFree(h: History)
    requires DotFree(h) && LastTokens(h).Some?
    ensures forall j :: 0 <= j < |LastTokens(h).value| ==> Lacks(LastTokens(h).value[j], DOT)
  {
    var n := |h| - 1;
    if h[n].Sick() {
      forall j | 0 <= j < |h[n].Tokens()| {
        StableLacks(h[n].Tokens()[j]);
      }
    } else {
      assert forall i :: 0 <= i < n ==> h[..n][i] == h[i];
      LastTokensDotFree(h[..n]);
    }
  }

  /** Some stable token of p was not among the remembered ones. */
  predicate News(remembered: Option<seq<string>>, p: Probe)
    requires p.Read?
  {
    remembered.Some? && exists i :: 0 <= i < |p.Tokens()| && Stable(p.Tokens()[i]) !in remembered.value
  }

  /** The level at sweep n differs from the one read at the sweep before. */
  predicate Entered(h: History, n: nat)
    requires n < |h| && h[n].Read?
  {
    n == 0 || h[n - 1].Unread? || h[n - 1].Severity() != h[n].Severity()
  }

  /** When a disk alert fires, said about the readings of the whole history. */
  lemma FireRule(h: History, n: nat)
    requires n < |h| && h[n].Sick() && DotFree(h[..n])
    ensures EventAt(h, n) ==
      if Entered(h, n) || News(LastTokens(h[..n]), h[n])
         || (h[n].Severity().Down? && h[n].now - LastProblem(h[..n]) >= h[n].cooldown)
      then Some(Problem(h[n].Severity())) else None
  {
    var past := h[..n];
    SlotMeaning(past);
    assert n > 0 ==> past[n - 1] == h[n - 1];
    var stable := Stables(h[n].Tokens());
    if LastTokens(past).Some? {
      LastTokensDotFree(past);
      SplitJoin(LastTokens(past).value, SEPARATOR);
      assert Grew(SlotAfter(past).detail, stable) <==> News(LastTokens(past), h[n]) by {
        assert forall i :: 0 <= i < |stable| ==> stable[i] == Stable(h[n].Tokens()[i]);
      }
    }
  }

  lemma ResolveRule(h: History, n: nat)
    requires n < |h| && !h[n].Sick()
    ensures EventAt(h, n) == if h[n].Read? && n > 0 && h[n - 1].Sick() then Some(Resolved) else None
  {
    SlotMeaning(h[..n]);
    assert n > 0 ==> h[..n][n - 1] == h[n - 1];
  }

  /** Soft level, disk readable at both sweeps: only entering it or a new token pages. */
  lemma WarnFiresOnNewsOnly(h: History, n: nat)
    requires 1 <= n < |h| && DotFree(h[..n]) && h[n - 1].Read? && h[n].Sick() && h[n].Severity().Warn?
    ensures EventAt(h, n) == Some(Problem(Warn)) <==>
      !h[n - 1].Severity().Warn? || exists t :: t in Stables(h[n].warn) && t !in Stables(h[n - 1].warn)
  {
    FireRule(h, n);
    var past := h[..n];
    assert past[n - 1] == h[n - 1];
    if h[n - 1].Severity().Warn? {
      var now, before := Stables(h[n].warn), Stables(h[n - 1].warn);
      assert LastTokens(past) == Some(before);
      if t :| t in now && t !in before {
        var i :| 0 <= i < |now| && now[i] == t;
        assert Stable(h[n].Tokens()[i]) !in before;
      }
      if News(Some(before), h[n]) {
        var i :| 0 <= i < |h[n].Tokens()| && Stable(h[n].Tokens()[i]) !in before;
        assert now[i] !in before;
      }
    }
  }

  /** Losing a reason at the soft level is silent. */
  lemma ImprovementIsSilent(h: History, n: nat)
    requires 1 <= n < |h| && DotFree(h[..n])
    requires h[n - 1].Sick() && h[n - 1].Severity().Warn? && h[n].Sick() && h[n].Severity().Warn?
    requires forall t :: t in h[n].warn ==> t in h[n - 1].warn
    ensures EventAt(h, n) == None
  {
    var now, before := Stables(h[n].warn), Stables(h[n - 1].warn);
    forall t | t in now
      ensures t in before
    {
      var i :| 0 <= i < |now| && now[i] == t;
      var token := h[n].warn[i];
      assert token in h[n].warn;
      var j :| 0 <= j < |h[n - 1].warn| && h[n - 1].warn[j] == token;
      assert before[j] == t;
    }
    WarnFiresOnNewsOnly(h, n);
    FireRule(h, n);
  }
}
