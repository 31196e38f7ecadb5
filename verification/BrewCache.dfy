/**
 The `brew services` cache (hub/brew_cache.py): stale-while-revalidate, a disk
 copy, and a reuse token that lets a load skip running brew.  `BrewModule` is the
 module state with its lock-protected regions; the rest interleaves them, one
 atomic step each, against a world that changes with time.
 */
module BrewCache {
  import opened Options

  /** A service row; `job` is the launchd label in its plist path, when it has one. */
  datatype Item = Item(name: string, status: string, job: Option<string>)

  /** Stat keys of brew's input files, and the launchd jobs with the pid of the running ones. */
  datatype Fingerprint = Fingerprint(files: int, jobs: map<string, Option<nat>>)

  /**
   The outside world by time.  `stamp` is the fingerprint taken at a time for some
   labels, `truth` what a successful brew run started at that time answers.
   */
  datatype World = World(stamp: (nat, set<string>) -> Option<Fingerprint>, truth: nat -> seq<Item>)

  /** Equal fingerprints mean that nothing brew reads changed in between. */
  ghost predicate Faithful(w: World) {
    forall a: nat, b: nat, la, lb :: a <= b && w.stamp(a, la).Some? && w.stamp(a, la) == w.stamp(b, lb) ==>
      forall m: nat :: a <= m <= b ==> w.truth(m) == w.truth(b)
  }

  // ---- reading an answer -----------------------------------------------------------

  /** The labels of every item, or None when one has none. */
  function ServiceLabels(items: seq<Item>): Option<set<string>> {
    if exists i :: 0 <= i < |items| && items[i].job.None? then None
    else Some(set i | 0 <= i < |items| :: items[i].job.GetOr(""))
  }

  function Candidates(item: Item): set<string>
    requires item.job.Some?
  {
    {item.job.value, "sh.brew." + item.name, "homebrew.mxcl." + item.name}
  }

  /** brew and launchd tell the same about one service. */
  predicate ItemAgrees(item: Item, jobs: map<string, Option<nat>>) {
    && item.job.Some?
    && (item.status != "none" <==> exists c :: c in Candidates(item) && c in jobs)
    && (item.status == "started" <==> exists c :: c in Candidates(item) && c in jobs && jobs[c].Some?)
  }

  predicate Agrees(items: seq<Item>, jobs: map<string, Option<nat>>) {
    && (forall i :: 0 <= i < |items| ==> ItemAgrees(items[i], jobs))
    && (exists i :: 0 <= i < |items| && items[i].status != "none")
  }

  /** The jobs found under a service's labels say whether it is loaded, and whether it runs. */
  lemma FoundMeans(item: Item, jobs: map<string, Option<nat>>, found: set<string>)
    requires item.job.Some? && found == set c | c in Candidates(item) && c in jobs
    ensures found != {} <==> exists c :: c in Candidates(item) && c in jobs
    ensures (exists c :: c in found && jobs[c].Some?) <==> exists c :: c in Candidates(item) && c in jobs && jobs[c].Some?
  {
    if found != {} {
      var c :| c in found;
      assert c in Candidates(item) && c in jobs;
    }
    if c :| c in Candidates(item) && c in jobs {
      assert c in found;
    }
    if c :| c in Candidates(item) && c in jobs && jobs[c].Some? {
      assert c in found;
    }
  }

  method AnswerAgrees(items: seq<Item>, jobs: map<string, Option<nat>>) returns (ok: bool)
    ensures ok <==> Agrees(items, jobs)
  {
    var anyLoaded := false;
    var i := 0;
    while i < |items|
      invariant 0 <= i <= |items|
      invariant forall k :: 0 <= k < i ==> ItemAgrees(items[k], jobs)
      invariant anyLoaded <==> exists k :: 0 <= k < i && items[k].status != "none"
    {
      var item := items[i];
      if item.job.None? {
        assert !ItemAgrees(items[i], jobs);
        return false;
      }
      var found := set c | c in Candidates(item) && c in jobs;
      FoundMeans(item, jobs, found);
      var loaded := item.status != "none";
      if loaded != (found != {}) {
        assert !ItemAgrees(items[i], jobs);
        return false;
      }
      if (item.status == "started") != (exists c :: c in found && jobs[c].Some?) {
        assert !ItemAgrees(items[i], jobs);
        return false;
      }
      anyLoaded := anyLoaded || loaded;
      i := i + 1;
    }
    ok := anyLoaded;
  }

  // ---- module state and its lock regions -------------------------------------------

  /**
   The fingerprint behind the cached snapshot and the time it was stored.  The last
   three fields only say which run this was: the labels and time of the fingerprint,
   and the time of the brew run.
   */
  datatype Token = Token(fp: Fingerprint, at: real, labels: set<string>, printedAt: nat, ranAt: nat)

  datatype Shared = Shared(t: real, v: Option<seq<Item>>, generation: nat, diskOk: bool, reuse: Option<Token>)

  const TTL: real := 30.0
  const REUSE_MAX: real := 600.0
  const COLD := Shared(0.0, None, 0, true, None)

  function Invalidated(sh: Shared): Shared {
    Shared(0.0, None, sh.generation + 1, false, None)
  }

  function Fresh(sh: Shared, now: real): Option<seq<Item>> {
    if sh.v.Some? && now - sh.t < TTL then sh.v else None
  }

  function Published(sh: Shared, gen: nat, now: real, items: seq<Item>): Shared {
    if gen != sh.generation then sh else sh.(t := now, v := Some(items), diskOk := true)
  }

  function Rearmed(sh: Shared, gen: nat, token: Option<Token>): Shared {
    if gen != sh.generation then sh else sh.(reuse := token)
  }

  /** The cold-start peek at the disk copy; memory was looked at one step earlier, and is not again. */
  function Peek(sh: Shared, disk: seq<Item>): Option<seq<Item>> {
    if sh.diskOk && disk != [] then Some(disk) else None
  }

  class BrewModule {
    var cacheT: real
    var cacheV: Option<seq<Item>>
    var generation: nat
    var diskOk: bool
    var reuse: Option<Token>

    constructor ()
      ensures View() == COLD
    {
      cacheT, cacheV, generation, diskOk, reuse := 0.0, None, 0, true, None;
    }

    function View(): Shared
      reads this
    {
      Shared(cacheT, cacheV, generation, diskOk, reuse)
    }

    method InvalidateBrewServices()
      modifies this
      ensures View() == Invalidated(old(View()))
    {
      generation := generation + 1;
      cacheT, cacheV := 0.0, None;
      diskOk := false;
      reuse := None;
    }

    method ReadFresh(now: real) returns (hit: Option<seq<Item>>)
      ensures hit == Fresh(View(), now)
    {
      if cacheV.Some? && now - cacheT < TTL {
        return cacheV;
      }
      hit := None;
    }

    method Publish(gen: nat, now: real, items: seq<Item>)
      modifies this
      ensures View() == Published(old(View()), gen, now, items)
    {
      if gen != generation {
        return;
      }
      cacheT, cacheV := now, Some(items);
      diskOk := true;
    }

    /** After a successful run: remember what the answer was made from, or forget. */
    method Rearm(gen: nat, token: Option<Token>)
      modifies this
      ensures View() == Rearmed(old(View()), gen, token)
    {
      if gen == generation {
        reuse := token;
      }
    }

    method PeekDisk(disk: seq<Item>) returns (hit: Option<seq<Item>>)
      modifies this
      ensures hit == Peek(old(View()), disk)
      ensures View() == if hit.Some? then old(View()).(t := 0.0, v := hit) else old(View())
    {
      if !diskOk || disk == [] {
        return None;
      }
      cacheT, cacheV := 0.0, Some(disk);
      hit := Some(disk);
    }
  }

  // ---- interleavings -----------------------------------------------------------

  /** What a running load has read so far; `readAt` is the step that read the generation. */
  datatype Load = Load(force: bool, bg: bool, gen: nat, readAt: nat, token: Option<Token>,
                       held: Option<seq<Item>>, labels: Option<set<string>>, fp: Option<Fingerprint>, printedAt: nat)

  /** Why a load publishes these rows. */
  datatype Origin = Skip | Kept | Disk | Brew(ranAt: nat)

  datatype Pc =
    | Idle
    | Asked(force: bool)
    | AskedStale
    | AskedDisk
    | Queued(force: bool, bg: bool)
    | Turn(force: bool, bg: bool)
    | Starting(force: bool, bg: bool)
    | Holding(load: Load)
    | Printing(load: Load)
    | Deciding(load: Load)
    | Running(load: Load)
    | KeepingMemory(load: Load, toDisk: bool)
    | KeepingDisk(load: Load, toDisk: bool)
    | Publishing(load: Load, items: seq<Item>, toDisk: bool, origin: Origin)
    | Writing(load: Load, items: seq<Item>, origin: Origin)
    | Rearming(load: Load, items: seq<Item>, ranAt: nat)
    | Ending(bg: bool, answer: seq<Item>)
    | BgEnding
    | Answered(answer: seq<Item>)
  {
    /** A load that has read its generation and is still running. */
    predicate Loading() {
      Holding? || Printing? || Deciding? || Running? || KeepingMemory? || KeepingDisk? || Publishing? || Writing? || Rearming?
    }

    /** Between taking and releasing the refresh lock. */
    predicate Critical() {
      Turn? || Starting? || Loading() || Ending?
    }

    /** After a run's answer was published and before its token is stored. */
    predicate Unsettled() {
      (Writing? && origin.Brew?) || Rearming?
    }

    predicate Background() {
      match this
      case Queued(_, bg) => bg
      case Turn(_, bg) => bg
      case Starting(_, bg) => bg
      case Ending(bg, _) => bg
      case BgEnding => true
      case _ => Loading() && load.bg
    }
  }

  datatype State = State(sh: Shared, disk: seq<Item>, holder: Option<nat>, bgRunning: bool,
                         pcs: map<nat, Pc>, clock: nat, lastInvalidate: int)

  function PcOf(s: State, tid: nat): Pc {
    Get(s.pcs, tid).GetOr(Idle)
  }

  datatype Action =
    | Invalidate
    | Ask(tid: nat, force: bool)
    | CheckFresh(tid: nat, now: real)
    | CheckStale(tid: nat)
    | CheckDisk(tid: nat)
    | Kick(tid: nat)
    | Acquire(tid: nat)
    | Recheck(tid: nat, now: real)
    | ReadGeneration(tid: nat)
    | ReadHeld(tid: nat)
    | TakePrint(tid: nat)
    | Decide(tid: nat, now: real, busy: bool)
    | RunBrew(tid: nat, succeeds: bool)
    | KeepMemory(tid: nat)
    | KeepDisk(tid: nat)
    | Publish(tid: nat, now: real)
    | WriteDisk(tid: nat)
    | Rearm(tid: nat, now: real)
    | Release(tid: nat)
    | BgDone(tid: nat)

  predicate Enabled(s: State, a: Action) {
    match a
    case Invalidate => true
    case Ask(t, _) => PcOf(s, t).Idle? || PcOf(s, t).Answered?
    case CheckFresh(t, _) => PcOf(s, t).Asked?
    case CheckStale(t) => PcOf(s, t).AskedStale?
    case CheckDisk(t) => PcOf(s, t).AskedDisk?
    case Kick(t) => PcOf(s, t).Idle? || PcOf(s, t).Answered?
    case Acquire(t) => PcOf(s, t).Queued? && s.holder == None
    case Recheck(t, _) => PcOf(s, t).Turn?
    case ReadGeneration(t) => PcOf(s, t).Starting?
    case ReadHeld(t) => PcOf(s, t).Holding?
    case TakePrint(t) => PcOf(s, t).Printing?
    case Decide(t, _, _) => PcOf(s, t).Deciding?
    case RunBrew(t, _) => PcOf(s, t).Running?
    case KeepMemory(t) => PcOf(s, t).KeepingMemory?
    case KeepDisk(t) => PcOf(s, t).KeepingDisk?
    case Publish(t, _) => PcOf(s, t).Publishing?
    case WriteDisk(t) => PcOf(s, t).Writing?
    case Rearm(t, _) => PcOf(s, t).Rearming?
    case Release(t) => PcOf(s, t).Ending?
    case BgDone(t) => PcOf(s, t).BgEnding?
  }

  /** Nothing brew reads has changed since it produced the snapshot in memory. */
  predicate MaySkip(load: Load, now: real) {
    && !load.force
    && load.held.GetOr([]) != []
    && load.fp.Some? && load.token.Some?
    && load.token.value.fp == load.fp.value
    && now - load.token.value.at < REUSE_MAX
  }

  function Moved(s: State, tid: nat, pc: Pc): State {
    s.(pcs := s.pcs[tid := pc])
  }

  function Effect(w: World, s: State, a: Action): State
    requires Enabled(s, a)
  {
    match a
    case Invalidate => s.(sh := Invalidated(s.sh), lastInvalidate := s.clock)
    case Ask(t, force) => Moved(s, t, Asked(force))
    case CheckFresh(t, now) =>
      if PcOf(s, t).force then Moved(s, t, Queued(true, false))
      else if Fresh(s.sh, now).Some? then Moved(s, t, Answered(Fresh(s.sh, now).value))
      else Moved(s, t, AskedStale)
    case CheckStale(t) =>
      Moved(s, t, if s.sh.v.Some? then Answered(s.sh.v.value) else AskedDisk)
    case CheckDisk(t) =>
      var hit := Peek(s.sh, s.disk);
      if hit.Some? then Moved(s, t, Answered(hit.value)).(sh := s.sh.(t := 0.0, v := hit))
      else Moved(s, t, Queued(false, false))
    case Kick(t) => if s.bgRunning then s else Moved(s, t, Queued(false, true)).(bgRunning := true)
    case Acquire(t) => Moved(s, t, Turn(PcOf(s, t).force, PcOf(s, t).bg)).(holder := Some(t))
    case Recheck(t, now) =>
      var pc := PcOf(s, t);
      Moved(s, t, if !pc.force && Fresh(s.sh, now).Some? then Ending(pc.bg, Fresh(s.sh, now).value)
                  else Starting(pc.force, pc.bg))
    case ReadGeneration(t) =>
      var pc := PcOf(s, t);
      Moved(s, t, Holding(Load(pc.force, pc.bg, s.sh.generation, s.clock, s.sh.reuse, None, None, None, 0)))
    case ReadHeld(t) => Moved(s, t, Printing(PcOf(s, t).load.(held := s.sh.v)))
    case TakePrint(t) =>
      var load := PcOf(s, t).load;
      var labels := ServiceLabels(load.held.GetOr([]));
      var fp := if labels.Some? then w.stamp(s.clock, labels.value) else None;
      Moved(s, t, Deciding(load.(labels := labels, fp := fp, printedAt := s.clock)))
    case Decide(t, now, busy) =>
      var load := PcOf(s, t).load;
      Moved(s, t,
        if MaySkip(load, now) then Publishing(load, load.held.GetOr([]), false, Skip)
        else if busy then KeepingMemory(load, false)
        else Running(load))
    case RunBrew(t, succeeds) =>
      var load := PcOf(s, t).load;
      Moved(s, t, if succeeds then Publishing(load, w.truth(s.clock), true, Brew(s.clock)) else KeepingMemory(load, true))
    case KeepMemory(t) =>
      var pc := PcOf(s, t);
      Moved(s, t, if s.sh.v.GetOr([]) != [] then Publishing(pc.load, s.sh.v.value, pc.toDisk, Kept)
                  else KeepingDisk(pc.load, pc.toDisk))
    case KeepDisk(t) =>
      var pc := PcOf(s, t);
      Moved(s, t, if s.disk != [] then Publishing(pc.load, s.disk, pc.toDisk, Disk) else Ending(pc.load.bg, []))
    case Publish(t, now) =>
      var pc := PcOf(s, t);
      var after := if pc.toDisk && pc.load.gen == s.sh.generation then Writing(pc.load, pc.items, pc.origin)
                   else if pc.origin.Brew? then Rearming(pc.load, pc.items, pc.origin.ranAt)
                   else Ending(pc.load.bg, pc.items);
      Moved(s, t, after).(sh := Published(s.sh, pc.load.gen, now, pc.items))
    case WriteDisk(t) =>
      var pc := PcOf(s, t);
      var after := if pc.origin.Brew? then Rearming(pc.load, pc.items, pc.origin.ranAt) else Ending(pc.load.bg, pc.items);
      Moved(s, t, after).(disk := pc.items)
    case Rearm(t, now) =>
      var pc := PcOf(s, t);
      var load := pc.load;
      var token := PendingToken(load, pc.items, now, pc.ranAt);
      Moved(s, t, Ending(load.bg, pc.items)).(sh := Rearmed(s.sh, load.gen, token))
    case Release(t) =>
      Moved(s, t, if PcOf(s, t).bg then BgEnding else Answered(PcOf(s, t).answer)).(holder := None)
    case BgDone(t) => Moved(s, t, Idle).(bgRunning := false)
  }

  function Step(w: World, s: State, a: Action): State
    requires Enabled(s, a)
  {
    Effect(w, s, a).(clock := s.clock + 1)
  }

  /** A new process starts cold, over whatever copy an earlier one left on disk. */
  function Initial(disk: seq<Item>): State {
    State(COLD, disk, None, false, map[], 0, -1)
  }

  function Run(w: World, disk: seq<Item>, acts: seq<Action>): Option<State> {
    if acts == [] then Some(Initial(disk))
    else
      var n := |acts| - 1;
      match Run(w, disk, acts[..n])
      case None => None
      case Some(s) => if Enabled(s, acts[n]) then Some(Step(w, s, acts[n])) else None
  }

  predicate Legal(w: World, disk: seq<Item>, acts: seq<Action>) {
    Run(w, disk, acts).Some?
  }

  function After(w: World, disk: seq<Item>, acts: seq<Action>): State
    requires Legal(w, disk, acts)
  {
    Run(w, disk, acts).value
  }

  // ---- invariant -----------------------------------------------------------------

  /** The token names a run whose answer this is, and the fingerprint taken before it. */
  ghost predicate TokenFor(w: World, token: Token, items: seq<Item>, clock: nat) {
    && items != [] && items == w.truth(token.ranAt)
    && token.printedAt < token.ranAt < clock
    && w.stamp(token.printedAt, token.labels) == Some(token.fp)
  }

  /** The reuse token in force belongs to the snapshot in memory. */
  ghost predicate TokenHolds(w: World, s: State) {
    s.sh.reuse.Some? ==> s.sh.v.Some? && TokenFor(w, s.sh.reuse.value, s.sh.v.value, s.clock)
  }

  ghost predicate RanInv(w: World, s: State, load: Load, items: seq<Item>, ranAt: nat) {
    load.printedAt < ranAt < s.clock && items == w.truth(ranAt)
  }

  /** No invalidate since this load read its generation. */
  predicate Current(s: State, load: Load) {
    load.gen == s.sh.generation
  }

  /** What holds of a load once it has read its generation and token. */
  ghost predicate ReadInv(s: State, load: Load) {
    && load.gen <= s.sh.generation && load.readAt < s.clock
    && (Current(s, load) ==> s.lastInvalidate < load.readAt && load.token == s.sh.reuse)
    && (load.token.Some? ==> load.token.value.ranAt < load.readAt)
  }

  /** What holds of a load once it has taken its fingerprint. */
  ghost predicate PrintInv(w: World, s: State, load: Load) {
    && load.readAt < load.printedAt < s.clock
    && (load.fp.Some? ==> load.labels.Some? && w.stamp(load.printedAt, load.labels.value) == load.fp)
  }

  /** The token a load stores once it has published a run's answer, if brew and launchd agree. */
  function PendingToken(load: Load, items: seq<Item>, now: real, ranAt: nat): Option<Token> {
    if load.fp.Some? && load.labels.Some? && Agrees(items, load.fp.value.jobs)
    then Some(Token(load.fp.value, now, load.labels.value, load.printedAt, ranAt))
    else None
  }

  /** This load has published a run's answer and is about to store a token for it. */
  predicate Arming(pc: Pc) {
    pc.Unsettled() && PendingToken(pc.load, pc.items, 0.0, 0).Some?
  }

  ghost predicate LoadInv(w: World, s: State, pc: Pc)
    requires pc.Loading()
  {
    var load, current := pc.load, Current(s, pc.load);
    && ReadInv(s, load)
    && (pc.Printing? || pc.Deciding? ==> current && load.held.Some? && s.sh.reuse.Some? ==> s.sh.v == load.held)
    && (!pc.Holding? && !pc.Printing? ==> PrintInv(w, s, load))
    && (pc.KeepingDisk? && current ==> s.sh.reuse == None)
    && (pc.Publishing? ==>
          && (pc.origin.Skip? ==>
                && pc.items != [] && load.fp.Some? && load.token.Some? && load.token.value.fp == load.fp.value
                && (current ==> s.sh.v == Some(pc.items)))
          && (pc.origin.Kept? && current && s.sh.reuse.Some? ==> s.sh.v == Some(pc.items))
          && (pc.origin.Disk? && current ==> s.sh.reuse == None)
          && (pc.origin.Brew? ==> RanInv(w, s, load, pc.items, pc.origin.ranAt)))
    && (pc.Writing? && pc.origin.Brew? ==> RanInv(w, s, load, pc.items, pc.origin.ranAt))
    && (pc.Rearming? ==> RanInv(w, s, load, pc.items, pc.ranAt))
    && (Arming(pc) && current ==> s.sh.v == Some(pc.items))
  }

  /** No load is between publishing a run's answer and storing its token. */
  predicate Settled(s: State) {
    s.holder.None? ||
    var pc := PcOf(s, s.holder.value);
    !pc.Unsettled() || !Current(s, pc.load)
  }

  ghost predicate SharedInv(w: World, s: State) {
    && s.lastInvalidate < s.clock
    && (Settled(s) ==> TokenHolds(w, s))
    && (s.sh.reuse.Some? ==> s.sh.v.Some?)
  }

  /** Only the holder of the refresh lock is inside, and a barred disk copy stays barred until a publish. */
  ghost predicate LockInv(s: State) {
    && (s.sh.diskOk && s.sh.v.None? ==> s.sh.generation == 0)
    && (forall t: nat :: PcOf(s, t).Critical() <==> s.holder == Some(t))
  }

  ghost predicate Inv(w: World, s: State) {
    && SharedInv(w, s) && LockInv(s)
    && (forall t: nat :: PcOf(s, t).Loading() ==> LoadInv(w, s, PcOf(s, t)))
  }

  /** A token is in force, or the load inside the lock is about to store one. */
  predicate TokenAtStake(s: State) {
    if Settled(s) then s.sh.reuse.Some? else Arming(PcOf(s, s.holder.value))
  }

  /**
   The one unsafe step.  Between a caller's look at memory and its peek at the disk a
   load may publish; the peek then stores the older disk copy over it, while a token for
   the published answer is in force or about to be.
   */
  predicate LatePeek(s: State, a: Action) {
    && a.CheckDisk? && Peek(s.sh, s.disk).Some? && s.sh.v.Some? && s.sh.v.value != s.disk
    && TokenAtStake(s)
  }

  /** A thread that takes no part in a step keeps its promise. */
  lemma OthersKeepInv(w: World, s: State, a: Action, t: nat)
    requires Inv(w, s) && Enabled(s, a) && !LatePeek(s, a)
    requires a.Invalidate? || a.tid != t
    requires PcOf(s, t).Loading()
    ensures LoadInv(w, Step(w, s, a), PcOf(s, t))
  {
    assert LoadInv(w, s, PcOf(s, t)) && s.holder == Some(t);
    if !a.Invalidate? {
      assert PcOf(s, a.tid).Critical() <==> s.holder == Some(a.tid);
    }
  }

  lemma ReadingKeepsInv(w: World, s: State, a: Action)
    requires Inv(w, s) && Enabled(s, a)
    requires a.ReadGeneration? || a.ReadHeld? || a.TakePrint?
    ensures LoadInv(w, Step(w, s, a), PcOf(Step(w, s, a), a.tid))
  {
    var pc := PcOf(s, a.tid);
    assert pc.Critical() && s.holder == Some(a.tid) && Settled(s);
    assert pc.Loading() ==> LoadInv(w, s, pc);
  }

  lemma FetchingKeepsInv(w: World, s: State, a: Action)
    requires Inv(w, s) && Enabled(s, a)
    requires a.Decide? || a.RunBrew? || a.KeepMemory? || a.KeepDisk?
    ensures var pc := PcOf(Step(w, s, a), a.tid); pc.Loading() ==> LoadInv(w, Step(w, s, a), pc)
  {
    var pc := PcOf(s, a.tid);
    assert LoadInv(w, s, pc) && pc.Critical() && s.holder == Some(a.tid) && Settled(s);
  }

  lemma PublishingKeepsInv(w: World, s: State, a: Action)
    requires Inv(w, s) && Enabled(s, a)
    requires a.Publish? || a.WriteDisk?
    ensures var pc := PcOf(Step(w, s, a), a.tid); pc.Loading() ==> LoadInv(w, Step(w, s, a), pc)
  {
    assert LoadInv(w, s, PcOf(s, a.tid));
  }

  lemma OwnStepKeepsInv(w: World, s: State, a: Action)
    requires Inv(w, s) && Enabled(s, a) && !a.Invalidate?
    ensures var pc := PcOf(Step(w, s, a), a.tid); pc.Loading() ==> LoadInv(w, Step(w, s, a), pc)
  {
    if a.ReadGeneration? || a.ReadHeld? || a.TakePrint? {
      ReadingKeepsInv(w, s, a);
    } else if a.Decide? || a.RunBrew? || a.KeepMemory? || a.KeepDisk? {
      FetchingKeepsInv(w, s, a);
    } else if a.Publish? || a.WriteDisk? {
      PublishingKeepsInv(w, s, a);
    }
  }

  lemma StepKeepsShared(w: World, s: State, a: Action)
    requires Inv(w, s) && Enabled(s, a) && !LatePeek(s, a)
    ensures SharedInv(w, Step(w, s, a))
  {
    if !a.Invalidate? {
      var pc := PcOf(s, a.tid);
      assert pc.Critical() <==> s.holder == Some(a.tid);
      if pc.Loading() {
        assert LoadInv(w, s, pc);
      }
      if a.Publish? || a.Rearm? || a.WriteDisk? {
        OutcomeKeepsShared(w, s, a);
      } else {
        QuietKeepsShared(w, s, a);
      }
    }
  }

  lemma OutcomeKeepsShared(w: World, s: State, a: Action)
    requires SharedInv(w, s) && Enabled(s, a) && (a.Publish? || a.Rearm? || a.WriteDisk?)
    requires s.holder == Some(a.tid) && LoadInv(w, s, PcOf(s, a.tid))
    ensures SharedInv(w, Step(w, s, a))
  {
  }

  /** Steps that neither publish nor set the token. */
  lemma QuietKeepsShared(w: World, s: State, a: Action)
    requires SharedInv(w, s) && Enabled(s, a) && !LatePeek(s, a)
    requires !a.Invalidate? && !a.Publish? && !a.Rearm? && !a.WriteDisk?
    requires PcOf(s, a.tid).Critical() <==> s.holder == Some(a.tid)
    requires PcOf(s, a.tid).Loading() ==> LoadInv(w, s, PcOf(s, a.tid))
    ensures SharedInv(w, Step(w, s, a))
  {
  }

  /** Only taking and releasing the refresh lock change who is critical, and they change the holder. */
  lemma OwnLock(w: World, s: State, a: Action)
    requires Enabled(s, a) && !a.Invalidate?
    ensures PcOf(Step(w, s, a), a.tid).Critical() <==>
      a.Acquire? || (PcOf(s, a.tid).Critical() && !a.Release?)
    ensures a.Acquire? ==> s.holder.None? && !PcOf(s, a.tid).Critical()
    ensures a.Release? ==> PcOf(s, a.tid).Critical()
  {
  }

  lemma HolderMoves(w: World, s: State, a: Action)
    requires Enabled(s, a)
    ensures Step(w, s, a).holder == if a.Acquire? then Some(a.tid) else if a.Release? then None else s.holder
  {
  }

  lemma LockFollowsHolder(w: World, s: State, a: Action, t: nat)
    requires LockInv(s) && Enabled(s, a)
    ensures PcOf(Step(w, s, a), t).Critical() <==> Step(w, s, a).holder == Some(t)
  {
    assert PcOf(s, t).Critical() <==> s.holder == Some(t);
    HolderMoves(w, s, a);
    if !a.Invalidate? {
      assert PcOf(s, a.tid).Critical() <==> s.holder == Some(a.tid);
      OwnLock(w, s, a);
      if a.tid != t {
        assert PcOf(Step(w, s, a), t) == PcOf(s, t);
      }
    }
  }

  /** Holds of every step, a late peek included. */
  lemma StepKeepsLock(w: World, s: State, a: Action)
    requires LockInv(s) && Enabled(s, a)
    ensures LockInv(Step(w, s, a))
  {
    var s' := Step(w, s, a);
    forall t: nat
      ensures PcOf(s', t).Critical() <==> s'.holder == Some(t)
    {
      LockFollowsHolder(w, s, a, t);
    }
    DiskStaysBarred(w, s, a);
  }

  lemma DiskStaysBarred(w: World, s: State, a: Action)
    requires Enabled(s, a) && (s.sh.diskOk && s.sh.v.None? ==> s.sh.generation == 0)
    ensures var sh := Step(w, s, a).sh; sh.diskOk && sh.v.None? ==> sh.generation == 0
  {
  }

  lemma {:induction false} AfterLock(w: World, disk: seq<Item>, acts: seq<Action>)
    requires Legal(w, disk, acts)
    ensures LockInv(After(w, disk, acts))
  {
    if acts != [] {
      var n := |acts| - 1;
      AfterLock(w, disk, acts[..n]);
      StepKeepsLock(w, After(w, disk, acts[..n]), acts[n]);
    }
  }

  lemma StepKeepsInv(w: World, s: State, a: Action)
    requires Inv(w, s) && Enabled(s, a) && !LatePeek(s, a)
    ensures Inv(w, Step(w, s, a))
  {
    var s' := Step(w, s, a);
    StepKeepsShared(w, s, a);
    StepKeepsLock(w, s, a);
    forall t: nat
      ensures PcOf(s', t).Loading() ==> LoadInv(w, s', PcOf(s', t))
    {
      if !a.Invalidate? && a.tid == t {
        OwnStepKeepsInv(w, s, a);
      } else {
        assert PcOf(s', t) == PcOf(s, t);
        if PcOf(s, t).Loading() {
          OthersKeepInv(w, s, a, t);
        }
      }
    }
  }

  /** An interleaving in which no peek overwrites a snapshot whose token is at stake. */
  predicate Calm(w: World, disk: seq<Item>, acts: seq<Action>)
    requires Legal(w, disk, acts)
  {
    acts == [] ||
    var n := |acts| - 1;
    Calm(w, disk, acts[..n]) && !LatePeek(After(w, disk, acts[..n]), acts[n])
  }

  lemma {:induction false} AfterInv(w: World, disk: seq<Item>, acts: seq<Action>)
    requires Legal(w, disk, acts) && Calm(w, disk, acts)
    ensures Inv(w, After(w, disk, acts))
  {
    if acts != [] {
      var n := |acts| - 1;
      AfterInv(w, disk, acts[..n]);
      StepKeepsInv(w, After(w, disk, acts[..n]), acts[n]);
    }
  }

  // ---- exactly when the token can be believed ---------------------------------------

  /**
   A token in force names the run whose answer is in memory; and while a load is about to
   store one, memory holds the answer it will be for.
   */
  ghost predicate Promise(w: World, s: State) {
    if Settled(s) then TokenHolds(w, s)
    else Arming(PcOf(s, s.holder.value)) ==> s.sh.v == Some(PcOf(s, s.holder.value).items)
  }

  lemma InvPromises(w: World, s: State)
    requires Inv(w, s)
    ensures Promise(w, s)
  {
    if !Settled(s) {
      var pc := PcOf(s, s.holder.value);
      assert pc.Loading() && LoadInv(w, s, pc);
    }
  }

  /** A late peek puts the disk copy over the answer the token is for: the promise is broken at once. */
  lemma LatePeekBreaksPromise(w: World, s: State, a: Action)
    requires Inv(w, s) && Enabled(s, a) && LatePeek(s, a)
    ensures !Promise(w, Step(w, s, a))
  {
    var s' := Step(w, s, a);
    InvPromises(w, s);
    assert s'.holder == s.holder && s'.sh.reuse == s.sh.reuse && s'.sh.v == Some(s.disk);
    assert s.holder != Some(a.tid) by { assert PcOf(s, a.tid).Critical() <==> s.holder == Some(a.tid); }
    assert s.holder.Some? ==> PcOf(s', s.holder.value) == PcOf(s, s.holder.value);
  }

  /** Kept by every step of an interleaving from a state of the invariant, exactly when the step is no late peek. */
  lemma StepKeepsPromiseIff(w: World, s: State, a: Action)
    requires Inv(w, s) && Enabled(s, a)
    ensures Promise(w, Step(w, s, a)) <==> !LatePeek(s, a)
  {
    if LatePeek(s, a) {
      LatePeekBreaksPromise(w, s, a);
    } else {
      StepKeepsInv(w, s, a);
      InvPromises(w, Step(w, s, a));
    }
  }

  /** The promise holds after the first n steps. */
  ghost predicate PromisedAt(w: World, disk: seq<Item>, acts: seq<Action>, n: nat) {
    n <= |acts| && Legal(w, disk, acts[..n]) && Promise(w, After(w, disk, acts[..n]))
  }

  lemma PromisedBefore(w: World, disk: seq<Item>, acts: seq<Action>, n: nat)
    requires n < |acts|
    ensures PromisedAt(w, disk, acts[..|acts| - 1], n) <==> PromisedAt(w, disk, acts, n)
  {
    assert acts[..|acts| - 1][..n] == acts[..n];
  }

  /** The promise holds at every moment of an interleaving. */
  ghost predicate AlwaysPromised(w: World, disk: seq<Item>, acts: seq<Action>) {
    forall n: nat :: n <= |acts| ==> PromisedAt(w, disk, acts, n)
  }

  lemma AlwaysPromisedStep(w: World, disk: seq<Item>, acts: seq<Action>)
    requires Legal(w, disk, acts) && acts != []
    ensures AlwaysPromised(w, disk, acts) <==>
            AlwaysPromised(w, disk, acts[..|acts| - 1]) && Promise(w, After(w, disk, acts))
  {
    var m := |acts| - 1;
    assert acts[..|acts|] == acts;
    assert PromisedAt(w, disk, acts, |acts|) <==> Promise(w, After(w, disk, acts));
    forall n: nat | n <= m
      ensures PromisedAt(w, disk, acts[..m], n) <==> PromisedAt(w, disk, acts, n)
    {
      PromisedBefore(w, disk, acts, n);
    }
  }

  /** For every interleaving: the token can be believed throughout exactly when no peek is late. */
  lemma {:induction false} TokenPromisedIffCalm(w: World, disk: seq<Item>, acts: seq<Action>)
    requires Legal(w, disk, acts)
    ensures AlwaysPromised(w, disk, acts) <==> Calm(w, disk, acts)
  {
    if acts == [] {
      AfterInv(w, disk, acts);
      InvPromises(w, After(w, disk, acts));
      assert acts[..0] == acts;
    } else {
      var n := |acts| - 1;
      AlwaysPromisedStep(w, disk, acts);
      TokenPromisedIffCalm(w, disk, acts[..n]);
      if Calm(w, disk, acts[..n]) {
        AfterInv(w, disk, acts[..n]);
        StepKeepsPromiseIff(w, After(w, disk, acts[..n]), acts[n]);
      }
    }
  }

  // ---- results ---------------------------------------------------------------------

  /** With no load in flight, a held token means the snapshot is the answer of the run that set it. */
  lemma TokenMatchesSnapshot(w: World, disk: seq<Item>, acts: seq<Action>)
    requires Legal(w, disk, acts) && Calm(w, disk, acts)
    requires After(w, disk, acts).holder.None? && After(w, disk, acts).sh.reuse.Some?
    ensures var sh := After(w, disk, acts).sh;
      && sh.v == Some(w.truth(sh.reuse.value.ranAt))
      && w.stamp(sh.reuse.value.printedAt, sh.reuse.value.labels) == Some(sh.reuse.value.fp)
      && sh.reuse.value.printedAt < sh.reuse.value.ranAt < After(w, disk, acts).clock
  {
    AfterInv(w, disk, acts);
  }

  /**
   The skip path refines running brew: what it publishes is what a run started when
   its fingerprint was taken would have answered.
   */
  lemma SkipRefinesRun(w: World, disk: seq<Item>, acts: seq<Action>, tid: nat, now: real)
    requires Faithful(w) && Legal(w, disk, acts) && Calm(w, disk, acts)
    requires var pc := PcOf(After(w, disk, acts), tid);
      pc.Publishing? && pc.origin.Skip? && Current(After(w, disk, acts), pc.load)
    ensures var s := After(w, disk, acts);
      Step(w, s, Publish(tid, now)).sh.v == Some(w.truth(PcOf(s, tid).load.printedAt))
  {
    AfterInv(w, disk, acts);
    var s := After(w, disk, acts);
    var load := PcOf(s, tid).load;
    assert LoadInv(w, s, PcOf(s, tid)) && s.holder == Some(tid);
    var token := s.sh.reuse.value;
    assert w.stamp(token.printedAt, token.labels) == w.stamp(load.printedAt, load.labels.value);
  }

  /** Every load holds the refresh lock: one at a time, in every interleaving. */
  lemma OneLoadAtATime(w: World, disk: seq<Item>, acts: seq<Action>, t1: nat, t2: nat)
    requires Legal(w, disk, acts)
    requires PcOf(After(w, disk, acts), t1).Loading() && PcOf(After(w, disk, acts), t2).Loading()
    ensures t1 == t2
  {
    AfterLock(w, disk, acts);
    assert PcOf(After(w, disk, acts), t1).Critical() && PcOf(After(w, disk, acts), t2).Critical();
  }

  /** After an invalidate the disk copy answers nobody until some load has published, in every interleaving. */
  lemma NoColdAnswerAfterInvalidate(w: World, disk: seq<Item>, acts: seq<Action>)
    requires Legal(w, disk, acts)
    requires After(w, disk, acts).sh.generation > 0 && After(w, disk, acts).sh.v.None?
    ensures Peek(After(w, disk, acts).sh, After(w, disk, acts).disk) == None
  {
    AfterLock(w, disk, acts);
  }

  // ---- loads that an invalidate overtook ---------------------------------------------

  /** Needs no assumption about peeks. */
  ghost predicate GenerationInv(s: State) {
    && s.lastInvalidate < s.clock
    && forall t: nat :: PcOf(s, t).Loading() ==>
      var load := PcOf(s, t).load;
      && load.gen <= s.sh.generation && load.readAt < s.clock
      && (Current(s, load) ==> s.lastInvalidate < load.readAt)
  }

  /** A load keeps the generation it read, and no step but an invalidate moves the module's. */
  lemma LoadKeepsGeneration(w: World, s: State, a: Action)
    requires Enabled(s, a) && !a.Invalidate? && PcOf(Step(w, s, a), a.tid).Loading()
    ensures var load' := PcOf(Step(w, s, a), a.tid).load;
      if a.ReadGeneration? then load'.gen == s.sh.generation && load'.readAt == s.clock
      else PcOf(s, a.tid).Loading() && load'.gen == PcOf(s, a.tid).load.gen && load'.readAt == PcOf(s, a.tid).load.readAt
  {
  }

  lemma GenerationMoves(w: World, s: State, a: Action)
    requires Enabled(s, a)
    ensures var s' := Step(w, s, a);
      && s'.clock == s.clock + 1
      && s'.sh.generation == (if a.Invalidate? then s.sh.generation + 1 else s.sh.generation)
      && s'.lastInvalidate == (if a.Invalidate? then s.clock else s.lastInvalidate)
  {
  }

  lemma OthersStay(w: World, s: State, a: Action, t: nat)
    requires Enabled(s, a) && (a.Invalidate? || a.tid != t)
    ensures PcOf(Step(w, s, a), t) == PcOf(s, t)
  {
  }

  lemma StepKeepsGenerations(w: World, s: State, a: Action)
    requires GenerationInv(s) && Enabled(s, a)
    ensures GenerationInv(Step(w, s, a))
  {
    var s' := Step(w, s, a);
    GenerationMoves(w, s, a);
    forall t: nat | PcOf(s', t).Loading()
      ensures var load := PcOf(s', t).load;
        && load.gen <= s'.sh.generation && load.readAt < s'.clock
        && (Current(s', load) ==> s'.lastInvalidate < load.readAt)
    {
      if a.Invalidate? || a.tid != t {
        OthersStay(w, s, a, t);
      } else {
        LoadKeepsGeneration(w, s, a);
      }
    }
  }

  lemma {:induction false} AfterGenerations(w: World, disk: seq<Item>, acts: seq<Action>)
    requires Legal(w, disk, acts)
    ensures GenerationInv(After(w, disk, acts)) && After(w, disk, acts).clock == |acts|
    ensures forall i :: 0 <= i < |acts| && acts[i].Invalidate? ==> i <= After(w, disk, acts).lastInvalidate
  {
    if acts != [] {
      var n := |acts| - 1;
      AfterGenerations(w, disk, acts[..n]);
      StepKeepsGenerations(w, After(w, disk, acts[..n]), acts[n]);
      assert forall i :: 0 <= i < n ==> acts[i] == acts[..n][i];
    }
  }

  /**
   A load that read its generation before an invalidate changes neither the snapshot
   nor the token by any later step of its own, in every interleaving.
   */
  lemma StaleLoadIsInert(w: World, disk: seq<Item>, acts: seq<Action>, i: nat, a: Action)
    requires Legal(w, disk, acts) && i < |acts| && acts[i].Invalidate?
    requires Enabled(After(w, disk, acts), a) && !a.Invalidate?
    requires PcOf(After(w, disk, acts), a.tid).Loading() && PcOf(After(w, disk, acts), a.tid).load.readAt < i
    ensures Step(w, After(w, disk, acts), a).sh == After(w, disk, acts).sh
  {
    AfterGenerations(w, disk, acts);
    var s := After(w, disk, acts);
    assert !Current(s, PcOf(s, a.tid).load);
  }

  /** The background reload is single-flight. */
  ghost predicate BackgroundInv(s: State) {
    && (forall t: nat :: PcOf(s, t).Background() ==> s.bgRunning)
    && (forall t1: nat, t2: nat :: PcOf(s, t1).Background() && PcOf(s, t2).Background() ==> t1 == t2)
  }

  lemma LoadKeepsBackground(w: World, s: State, a: Action)
    requires Enabled(s, a) && !a.Invalidate? && PcOf(s, a.tid).Loading()
    ensures PcOf(Step(w, s, a), a.tid).Background() ==> PcOf(s, a.tid).Background()
    ensures !a.BgDone?
  {
  }

  lemma OthersKeepBackground(w: World, s: State, a: Action)
    requires Enabled(s, a) && !a.Invalidate? && !PcOf(s, a.tid).Loading()
    ensures PcOf(Step(w, s, a), a.tid).Background() ==> PcOf(s, a.tid).Background() || (a.Kick? && !s.bgRunning)
    ensures a.BgDone? ==> PcOf(s, a.tid).Background() && !PcOf(Step(w, s, a), a.tid).Background()
  {
  }

  /** A step makes no thread a background one but the one a kick starts. */
  lemma OwnBackground(w: World, s: State, a: Action)
    requires Enabled(s, a) && !a.Invalidate?
    ensures PcOf(Step(w, s, a), a.tid).Background() ==> PcOf(s, a.tid).Background() || (a.Kick? && !s.bgRunning)
    ensures a.BgDone? ==> PcOf(s, a.tid).Background() && !PcOf(Step(w, s, a), a.tid).Background()
  {
    if PcOf(s, a.tid).Loading() {
      LoadKeepsBackground(w, s, a);
    } else {
      OthersKeepBackground(w, s, a);
    }
  }

  lemma {:induction false} OneBackgroundReload(w: World, disk: seq<Item>, acts: seq<Action>)
    requires Legal(w, disk, acts)
    ensures BackgroundInv(After(w, disk, acts))
  {
    if acts != [] {
      var n := |acts| - 1;
      OneBackgroundReload(w, disk, acts[..n]);
      var s, a := After(w, disk, acts[..n]), acts[n];
      if !a.Invalidate? {
        OwnBackground(w, s, a);
      }
      forall t: nat
        ensures a.Invalidate? || a.tid != t ==> PcOf(Step(w, s, a), t) == PcOf(s, t)
      {
      }
      assert Step(w, s, a).bgRunning == (if a.Kick? then true else if a.BgDone? then false else s.bgRunning);
    }
  }

  // ---- a late peek breaks the token ----------------------------------------------------

  lemma Extend(w: World, disk: seq<Item>, acts: seq<Action>, a: Action) returns (longer: seq<Action>)
    requires Legal(w, disk, acts) && Enabled(After(w, disk, acts), a)
    ensures longer == acts + [a] && Legal(w, disk, longer)
    ensures After(w, disk, longer) == Step(w, After(w, disk, acts), a)
  {
    longer := acts + [a];
    assert longer[..|longer| - 1] == acts;
  }

  /** An unchanging world whose brew answers one running service. */
  const STILL := World((_: nat, _: set<string>) => Some(Fingerprint(0, map["a" := Some(1)])),
                       (_: nat) => [Item("a", "started", Some("a"))])

  lemma NothingHeld()
    ensures ServiceLabels([]) == Some({})
  {
    var none: seq<Item> := [];
    assert (set i | 0 <= i < |none| :: none[i].job.GetOr("")) == {};
  }

  /** Thread 1 has seen no snapshot and is about to peek; thread 2 holds the lock with a forced load. */
  ghost predicate Racing(s: State, disk: seq<Item>) {
    && s.holder == Some(2) && s.disk == disk && PcOf(s, 1) == AskedDisk
    && (PcOf(s, 2).Loading() ==> PcOf(s, 2).load.force && !PcOf(s, 2).load.bg && PcOf(s, 2).load.gen == 0)
  }

  lemma EnterForced(disk: seq<Item>, acts: seq<Action>) returns (longer: seq<Action>)
    requires Legal(STILL, disk, acts)
    requires var s := After(STILL, disk, acts);
      s.holder == None && PcOf(s, 2).Idle? && s.sh == COLD && PcOf(s, 1) == AskedDisk && s.disk == disk
    ensures Legal(STILL, disk, longer)
    ensures var s := After(STILL, disk, longer); Racing(s, disk) && s.sh == COLD && PcOf(s, 2) == Turn(true, false)
  {
    longer := Extend(STILL, disk, acts, Ask(2, true));
    longer := Extend(STILL, disk, longer, CheckFresh(2, 0.0));
    longer := Extend(STILL, disk, longer, Acquire(2));
  }

  lemma ReadCold(disk: seq<Item>, acts: seq<Action>) returns (longer: seq<Action>)
    requires Legal(STILL, disk, acts)
    requires var s := After(STILL, disk, acts); Racing(s, disk) && s.sh == COLD && PcOf(s, 2) == Turn(true, false)
    ensures Legal(STILL, disk, longer)
    ensures var s := After(STILL, disk, longer);
      Racing(s, disk) && s.sh == COLD && PcOf(s, 2).Printing? && PcOf(s, 2).load.held == None
  {
    longer := Extend(STILL, disk, acts, Recheck(2, 0.0));
    longer := Extend(STILL, disk, longer, ReadGeneration(2));
    longer := Extend(STILL, disk, longer, ReadHeld(2));
  }

  /** The fingerprint of nothing held. */
  ghost predicate PrintedCold(load: Load) {
    load.labels == Some({}) && load.fp == STILL.stamp(0, {})
  }

  lemma DecideCold(disk: seq<Item>, acts: seq<Action>) returns (longer: seq<Action>)
    requires Legal(STILL, disk, acts)
    requires var s := After(STILL, disk, acts);
      Racing(s, disk) && s.sh == COLD && PcOf(s, 2).Printing? && PcOf(s, 2).load.held == None
    ensures Legal(STILL, disk, longer)
    ensures var s := After(STILL, disk, longer);
      Racing(s, disk) && s.sh == COLD && PcOf(s, 2).Running? && PrintedCold(PcOf(s, 2).load)
  {
    NothingHeld();
    longer := Extend(STILL, disk, acts, TakePrint(2));
    longer := Extend(STILL, disk, longer, Decide(2, 0.0, false));
  }

  /** Thread 2 has published its answer, not yet the disk copy. */
  ghost predicate Overtaken(s: State, disk: seq<Item>) {
    var pc := PcOf(s, 2);
    && Racing(s, disk) && s.sh == COLD.(v := Some(STILL.truth(0)))
    && pc.Writing? && pc.items == STILL.truth(0) && pc.origin.Brew? && PrintedCold(pc.load)
  }

  lemma RunAndPublish(disk: seq<Item>, acts: seq<Action>) returns (longer: seq<Action>)
    requires Legal(STILL, disk, acts)
    requires var s := After(STILL, disk, acts);
      Racing(s, disk) && s.sh == COLD && PcOf(s, 2).Running? && PrintedCold(PcOf(s, 2).load)
    ensures Legal(STILL, disk, longer) && Overtaken(After(STILL, disk, longer), disk)
  {
    longer := Extend(STILL, disk, acts, RunBrew(2, true));
    longer := Extend(STILL, disk, longer, Publish(2, 0.0));
  }

  /** Thread 1 has put the old copy over the answer thread 2 is about to store a token for. */
  ghost predicate Overwritten(s: State, disk: seq<Item>) {
    var pc := PcOf(s, 2);
    && s.sh == COLD.(v := Some(disk)) && s.holder == Some(2)
    && pc.Rearming? && pc.items == STILL.truth(0) && pc.load.gen == 0 && !pc.load.bg && PrintedCold(pc.load)
  }

  lemma PeekOver(disk: seq<Item>, acts: seq<Action>) returns (longer: seq<Action>)
    requires Legal(STILL, disk, acts) && Overtaken(After(STILL, disk, acts), disk) && disk != []
    ensures Legal(STILL, disk, longer) && Overwritten(After(STILL, disk, longer), disk)
  {
    longer := Extend(STILL, disk, acts, CheckDisk(1));
    longer := Extend(STILL, disk, longer, WriteDisk(2));
  }

  lemma StillAgrees()
    ensures Agrees(STILL.truth(0), map["a" := Some(1)])
  {
    var items := STILL.truth(0);
    assert "a" in Candidates(items[0]);
    assert items[0].status != "none";
  }

  lemma RearmAndLeave(disk: seq<Item>, acts: seq<Action>) returns (longer: seq<Action>)
    requires Legal(STILL, disk, acts) && Overwritten(After(STILL, disk, acts), disk)
    ensures Legal(STILL, disk, longer)
    ensures var s := After(STILL, disk, longer); s.holder.None? && s.sh.reuse.Some? && s.sh.v == Some(disk)
  {
    StillAgrees();
    longer := Extend(STILL, disk, acts, Rearm(2, 0.0));
    longer := Extend(STILL, disk, longer, Release(2));
  }

  /** A token in force, no load in flight, and a snapshot that is not its run's answer. */
  ghost predicate TokenMismatch(w: World, s: State) {
    s.holder.None? && s.sh.reuse.Some? && s.sh.v != Some(w.truth(s.sh.reuse.value.ranAt))
  }

  lemma AskUpToPeek(disk: seq<Item>) returns (acts: seq<Action>)
    ensures Legal(STILL, disk, acts)
    ensures var s := After(STILL, disk, acts);
      s.holder == None && PcOf(s, 2).Idle? && s.sh == COLD && PcOf(s, 1) == AskedDisk && s.disk == disk
  {
    acts := Extend(STILL, disk, [], Ask(1, false));
    acts := Extend(STILL, disk, acts, CheckFresh(1, 0.0));
    acts := Extend(STILL, disk, acts, CheckStale(1));
  }

  /**
   Late peeks do happen, and the harm lasts: the old disk copy ends up in memory, under a
   token for the run it replaced, with no load in flight.
   */
  lemma LatePeekBreaksToken() returns (disk: seq<Item>, acts: seq<Action>)
    ensures Legal(STILL, disk, acts) && !Calm(STILL, disk, acts)
    ensures TokenMismatch(STILL, After(STILL, disk, acts))
  {
    disk := [Item("b", "none", Some("b"))];
    acts := AskUpToPeek(disk);
    acts := EnterForced(disk, acts);
    acts := ReadCold(disk, acts);
    acts := DecideCold(disk, acts);
    acts := RunAndPublish(disk, acts);
    acts := PeekOver(disk, acts);
    acts := RearmAndLeave(disk, acts);
    assert disk[0].name != STILL.truth(0)[0].name;
    TokenPromisedIffCalm(STILL, disk, acts);
    assert acts[..|acts|] == acts;
    assert !PromisedAt(STILL, disk, acts, |acts|);
  }
}
