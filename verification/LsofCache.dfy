/**
 The listener snapshot cache (hub/adaptive.py): single-flight refresh with
 invalidation racing the probe.  `LsofModule` is the module state and its
 lock-protected regions; the rest interleaves those regions over any number of
 threads, one atomic step each.
 */
module LsofCache {
  import opened Options

  datatype Row = Row(pid: int, port: int)

  /** The rows of one probe.  `startedAt` only says which probe: the step that began it. */
  datatype Rows = Rows(listing: seq<Row>, startedAt: nat)

  datatype Shared = Shared(t: real, v: Option<Rows>, generation: nat)

  const TTL: real := 5.0
  const COLD := Shared(0.0, None, 0)

  function Invalidated(sh: Shared): Shared {
    Shared(0.0, None, sh.generation + 1)
  }

  function Hit(sh: Shared, now: real): Option<Rows> {
    if sh.v.Some? && now - sh.t < TTL then sh.v else None
  }

  /** A refresh stores its rows unless an invalidate landed since it read its generation. */
  function Stored(sh: Shared, gen: nat, now: real, rows: Rows): Shared {
    if gen != sh.generation then sh else sh.(t := now, v := Some(rows))
  }

  class LsofModule {
    var cacheT: real
    var cacheV: Option<Rows>
    var generation: nat

    constructor ()
      ensures View() == COLD
    {
      cacheT, cacheV, generation := 0.0, None, 0;
    }

    function View(): Shared
      reads this
    {
      Shared(cacheT, cacheV, generation)
    }

    method InvalidateLsofSnapshot()
      modifies this
      ensures View() == Invalidated(old(View()))
    {
      generation := generation + 1;
      cacheT := 0.0;
      cacheV := None;
    }

    /** The lock region before a refresh: a fresh snapshot, or the generation to refresh for. */
    method Check(now: real) returns (hit: Option<Rows>, gen: nat)
      ensures hit == Hit(View(), now) && gen == View().generation
    {
      gen := generation;
      if cacheV.Some? && now - cacheT < TTL {
        return cacheV, gen;
      }
      hit := None;
    }

    /** The lock region after a refresh. */
    method Store(gen: nat, now: real, rows: Rows)
      modifies this
      ensures View() == Stored(old(View()), gen, now, rows)
    {
      if gen != generation {
        return;
      }
      cacheT := now;
      cacheV := Some(rows);
    }
  }

  /** The ports of one process in a snapshot: valid, distinct, none missed. */
  method PortsForPid(snapshot: seq<Row>, pid: int) returns (ports: seq<int>)
    ensures forall p :: p in ports <==>
      pid > 0 && 1 <= p <= 65535 && exists i :: 0 <= i < |snapshot| && snapshot[i] == Row(pid, p)
    ensures forall i, j :: 0 <= i < j < |ports| ==> ports[i] != ports[j]
  {
    ports := [];
    if pid <= 0 {
      return;
    }
    var k := 0;
    while k < |snapshot|
      invariant 0 <= k <= |snapshot|
      invariant forall p :: p in ports <==>
        1 <= p <= 65535 && exists i :: 0 <= i < k && snapshot[i] == Row(pid, p)
      invariant forall i, j :: 0 <= i < j < |ports| ==> ports[i] != ports[j]
    {
      var row := snapshot[k];
      if row.pid == pid && 1 <= row.port <= 65535 && row.port !in ports {
        ports := ports + [row.port];
      }
      k := k + 1;
    }
  }

  // ---- interleavings -----------------------------------------------------------

  /** One call: the step it began at and the latest invalidate before that (-1: none). */
  datatype Call = Call(began: nat, floor: int)

  datatype Pc =
    | Idle
    | Entered(call: Call)
    | Waiting(call: Call)
    | Locked(call: Call)
    | Armed(call: Call, gen: nat)
    | Probing(call: Call, gen: nat, startedAt: nat)
    | Probed(call: Call, gen: nat, rows: Rows)
    | Leaving(call: Call, rows: Rows)
    | Returned(call: Call, rows: Rows)

  /** The program counters between taking and releasing the refresh lock. */
  predicate Critical(pc: Pc) {
    pc.Locked? || pc.Armed? || pc.Probing? || pc.Probed? || pc.Leaving?
  }

  datatype State = State(sh: Shared, holder: Option<nat>, pcs: map<nat, Pc>, clock: nat, lastInvalidate: int)

  function PcOf(s: State, tid: nat): Pc {
    Get(s.pcs, tid).GetOr(Idle)
  }

  datatype Action =
    | Invalidate
    | Begin(tid: nat)
    | FirstCheck(tid: nat, now: real)
    | Acquire(tid: nat)
    | Recheck(tid: nat, now: real)
    | StartProbe(tid: nat)
    | EndProbe(tid: nat, listing: seq<Row>)
    | Publish(tid: nat, now: real)
    | Release(tid: nat)

  predicate Enabled(s: State, a: Action) {
    match a
    case Invalidate => true
    case Begin(t) => PcOf(s, t).Idle? || PcOf(s, t).Returned?
    case FirstCheck(t, _) => PcOf(s, t).Entered?
    case Acquire(t) => PcOf(s, t).Waiting? && s.holder == None
    case Recheck(t, _) => PcOf(s, t).Locked?
    case StartProbe(t) => PcOf(s, t).Armed?
    case EndProbe(t, _) => PcOf(s, t).Probing?
    case Publish(t, _) => PcOf(s, t).Probed?
    case Release(t) => PcOf(s, t).Leaving?
  }

  function Moved(s: State, tid: nat, pc: Pc): State {
    s.(pcs := s.pcs[tid := pc])
  }

  function Effect(s: State, a: Action): State
    requires Enabled(s, a)
  {
    match a
    case Invalidate => s.(sh := Invalidated(s.sh), lastInvalidate := s.clock)
    case Begin(t) => Moved(s, t, Entered(Call(s.clock, s.lastInvalidate)))
    case FirstCheck(t, now) =>
      var call := PcOf(s, t).call;
      Moved(s, t, if Hit(s.sh, now).Some? then Returned(call, Hit(s.sh, now).value) else Waiting(call))
    case Acquire(t) => Moved(s, t, Locked(PcOf(s, t).call)).(holder := Some(t))
    case Recheck(t, now) =>
      var call := PcOf(s, t).call;
      Moved(s, t, if Hit(s.sh, now).Some? then Leaving(call, Hit(s.sh, now).value) else Armed(call, s.sh.generation))
    case StartProbe(t) => Moved(s, t, Probing(PcOf(s, t).call, PcOf(s, t).gen, s.clock))
    case EndProbe(t, listing) =>
      var pc := PcOf(s, t);
      Moved(s, t, Probed(pc.call, pc.gen, Rows(listing, pc.startedAt)))
    case Publish(t, now) =>
      var pc := PcOf(s, t);
      Moved(s, t, Leaving(pc.call, pc.rows)).(sh := Stored(s.sh, pc.gen, now, pc.rows))
    case Release(t) => Moved(s, t, Returned(PcOf(s, t).call, PcOf(s, t).rows)).(holder := None)
  }

  function Step(s: State, a: Action): State
    requires Enabled(s, a)
  {
    Effect(s, a).(clock := s.clock + 1)
  }

  const INITIAL := State(COLD, None, map[], 0, -1)

  /** The state after an interleaving; None when some step is not enabled. */
  function Run(acts: seq<Action>): Option<State> {
    if acts == [] then Some(INITIAL)
    else
      var n := |acts| - 1;
      match Run(acts[..n])
      case None => None
      case Some(s) => if Enabled(s, acts[n]) then Some(Step(s, acts[n])) else None
  }

  predicate Legal(acts: seq<Action>) {
    Run(acts).Some?
  }

  function After(acts: seq<Action>): State
    requires Legal(acts)
  {
    Run(acts).value
  }

  // ---- invariant -----------------------------------------------------------------

  /** What a thread's program counter promises. */
  ghost predicate PcInv(s: State, pc: Pc) {
    && (!pc.Idle? ==> pc.call.floor <= s.lastInvalidate && pc.call.floor < pc.call.began < s.clock)
    && (pc.Armed? ==> pc.gen <= s.sh.generation)
    && (pc.Probing? ==>
          && pc.gen <= s.sh.generation && pc.call.began < pc.startedAt < s.clock
          && (pc.gen == s.sh.generation ==> s.lastInvalidate < pc.startedAt))
    && (pc.Probed? ==>
          && pc.gen <= s.sh.generation && pc.call.began < pc.rows.startedAt < s.clock
          && (pc.gen == s.sh.generation ==> s.lastInvalidate < pc.rows.startedAt))
    && (pc.Leaving? || pc.Returned? ==> pc.call.floor < pc.rows.startedAt < s.clock)
  }

  ghost predicate Inv(s: State) {
    && s.lastInvalidate < s.clock
    && (s.sh.v.Some? ==> s.lastInvalidate < s.sh.v.value.startedAt < s.clock)
    && (forall t: nat :: PcInv(s, PcOf(s, t)))
    && (forall t: nat :: Critical(PcOf(s, t)) <==> s.holder == Some(t))
  }

  /** A thread that takes no part in a step keeps its promise. */
  lemma OthersKeepInv(s: State, a: Action, pc: Pc)
    requires Enabled(s, a) && s.lastInvalidate < s.clock && PcInv(s, pc)
    ensures PcInv(Step(s, a), pc)
  {
  }

  /** The thread that takes the step makes its next promise. */
  lemma OwnStepKeepsInv(s: State, a: Action)
    requires Enabled(s, a) && !a.Invalidate? && PcInv(s, PcOf(s, a.tid))
    requires s.lastInvalidate < s.clock
    requires s.sh.v.Some? ==> s.lastInvalidate < s.sh.v.value.startedAt < s.clock
    ensures PcInv(Step(s, a), PcOf(Step(s, a), a.tid))
  {
  }

  lemma LockFollowsHolder(s: State, a: Action, t: nat)
    requires Enabled(s, a) && (Critical(PcOf(s, t)) <==> s.holder == Some(t))
    requires !a.Invalidate? ==> (Critical(PcOf(s, a.tid)) <==> s.holder == Some(a.tid))
    ensures Critical(PcOf(Step(s, a), t)) <==> Step(s, a).holder == Some(t)
  {
  }

  lemma SharedKeepsInv(s: State, a: Action)
    requires Enabled(s, a) && s.lastInvalidate < s.clock
    requires s.sh.v.Some? ==> s.lastInvalidate < s.sh.v.value.startedAt < s.clock
    requires !a.Invalidate? ==> PcInv(s, PcOf(s, a.tid))
    ensures var s' := Step(s, a);
      s'.lastInvalidate < s'.clock && (s'.sh.v.Some? ==> s'.lastInvalidate < s'.sh.v.value.startedAt < s'.clock)
  {
  }

  lemma StepKeepsInv(s: State, a: Action)
    requires Inv(s) && Enabled(s, a)
    ensures Inv(Step(s, a))
  {
    var s' := Step(s, a);
    SharedKeepsInv(s, a);
    forall t: nat
      ensures PcInv(s', PcOf(s', t))
      ensures Critical(PcOf(s', t)) <==> s'.holder == Some(t)
    {
      assert PcInv(s, PcOf(s, t));
      LockFollowsHolder(s, a, t);
      if !a.Invalidate? && a.tid == t {
        OwnStepKeepsInv(s, a);
      } else {
        assert PcOf(s', t) == PcOf(s, t);
        OthersKeepInv(s, a, PcOf(s, t));
      }
    }
  }

  lemma {:induction false} AfterInv(acts: seq<Action>)
    requires Legal(acts)
    ensures Inv(After(acts)) && After(acts).clock == |acts|
    ensures forall i :: 0 <= i < |acts| && acts[i].Invalidate? ==> i <= After(acts).lastInvalidate
  {
    if acts != [] {
      var n := |acts| - 1;
      AfterInv(acts[..n]);
      StepKeepsInv(After(acts[..n]), acts[n]);
      assert forall i :: 0 <= i < n ==> acts[i] == acts[..n][i];
    }
  }

  /** Every answer and every cached value names a probe that really began at that step. */
  ghost predicate Genuine(s: State, acts: seq<Action>) {
    && (s.sh.v.Some? ==> Began(acts, s.sh.v.value.startedAt))
    && (forall t: nat :: PcOf(s, t).Probing? ==> Began(acts, PcOf(s, t).startedAt))
    && (forall t: nat :: PcOf(s, t).Probed? || PcOf(s, t).Leaving? || PcOf(s, t).Returned? ==>
          Began(acts, PcOf(s, t).rows.startedAt))
  }

  predicate Began(acts: seq<Action>, at: nat) {
    at < |acts| && acts[at].StartProbe?
  }

  lemma {:induction false} AnswersAreGenuine(acts: seq<Action>)
    requires Legal(acts)
    ensures Genuine(After(acts), acts)
  {
    if acts != [] {
      var n := |acts| - 1;
      var s, s' := After(acts[..n]), After(acts);
      AnswersAreGenuine(acts[..n]);
      AfterInv(acts[..n]);
      assert forall at: nat :: Began(acts[..n], at) ==> Began(acts, at);
      assert acts[n].StartProbe? ==> Began(acts, s.clock);
      forall t: nat
        ensures PcOf(s', t).Probing? ==> Began(acts, PcOf(s', t).startedAt)
        ensures PcOf(s', t).Probed? || PcOf(s', t).Leaving? || PcOf(s', t).Returned? ==>
          Began(acts, PcOf(s', t).rows.startedAt)
      {
        if acts[n].Invalidate? || acts[n].tid != t {
          assert PcOf(s', t) == PcOf(s, t);
        }
      }
    }
  }

  /** A call carries the step it began at, with every earlier invalidate at or below its floor. */
  lemma {:induction false} FloorMeaning(acts: seq<Action>, tid: nat, i: nat)
    requires Legal(acts) && i < |acts| && acts[i].Invalidate?
    requires !PcOf(After(acts), tid).Idle? && i < PcOf(After(acts), tid).call.began
    ensures i <= PcOf(After(acts), tid).call.floor
  {
    var n := |acts| - 1;
    var s, s' := After(acts[..n]), After(acts);
    AfterInv(acts[..n]);
    assert PcInv(s, PcOf(s, tid));
    if acts[n] == Begin(tid) {
      assert i < n && acts[..n][i] == acts[i];
    } else {
      assert !PcOf(s, tid).Idle? && PcOf(s, tid).call == PcOf(s', tid).call;
      assert i < n && acts[..n][i] == acts[i];
      FloorMeaning(acts[..n], tid, i);
    }
  }

  /** No interleaving lets a call that begins after an invalidate see a probe begun before it. */
  lemma NoStaleAnswer(acts: seq<Action>, i: nat, tid: nat)
    requires Legal(acts) && PcOf(After(acts), tid).Returned?
    requires i < PcOf(After(acts), tid).call.began && i < |acts| && acts[i].Invalidate?
    ensures var rows := PcOf(After(acts), tid).rows;
      i < rows.startedAt < |acts| && acts[rows.startedAt].StartProbe?
  {
    AfterInv(acts);
    AnswersAreGenuine(acts);
    assert PcInv(After(acts), PcOf(After(acts), tid));
    FloorMeaning(acts, tid, i);
  }

  /** Single flight: two threads are never between the locks, so never both probing. */
  lemma AtMostOneProbe(acts: seq<Action>, t1: nat, t2: nat)
    requires Legal(acts)
    requires Critical(PcOf(After(acts), t1)) && Critical(PcOf(After(acts), t2))
    ensures t1 == t2
  {
    AfterInv(acts);
  }

  /** The cached value always comes from a probe that began after the last invalidate. */
  lemma CacheIsCurrent(acts: seq<Action>, i: nat)
    requires Legal(acts) && After(acts).sh.v.Some? && i < |acts| && acts[i].Invalidate?
    ensures i < After(acts).sh.v.value.startedAt
  {
    AfterInv(acts);
  }

  /** A thread that holds the refresh lock can always take its next step, so the lock is never stuck. */
  lemma HolderCanMove(acts: seq<Action>, now: real)
    requires Legal(acts) && After(acts).holder.Some?
    ensures var s, t := After(acts), After(acts).holder.value;
      Enabled(s, Recheck(t, now)) || Enabled(s, StartProbe(t)) || Enabled(s, EndProbe(t, []))
      || Enabled(s, Publish(t, now)) || Enabled(s, Release(t))
  {
    AfterInv(acts);
    assert Critical(PcOf(After(acts), After(acts).holder.value));
  }
}
