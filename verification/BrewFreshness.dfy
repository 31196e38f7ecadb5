/**
 How old an answer of the brew cache can be, and when a load may skip running brew
 (hub/brew_cache.py), said about the steps of an interleaving and the clock readings they made.
 */
module BrewFreshness {
  import opened Options
  import opened BrewCache

  /** The step at which a thread last read the generation. */
  function LastRead(acts: seq<Action>, tid: nat): (r: Option<nat>)
    ensures r.Some? ==> r.value < |acts| && acts[r.value] == ReadGeneration(tid)
  {
    if acts == [] then None
    else if acts[|acts| - 1] == ReadGeneration(tid) then Some(|acts| - 1)
    else LastRead(acts[..|acts| - 1], tid)
  }

  /** No invalidate after step `from`. */
  predicate Quiet(acts: seq<Action>, from: nat) {
    forall i :: from < i < |acts| ==> !acts[i].Invalidate?
  }

  /** Nothing was invalidated since the thread of the last step read the generation. */
  predicate Timely(acts: seq<Action>, tid: nat) {
    LastRead(acts, tid).Some? && Quiet(acts, LastRead(acts, tid).value)
  }

  /** The generation a load read is still the current one exactly while nothing was invalidated since. */
  ghost predicate ReadMeans(s: State, acts: seq<Action>, tid: nat) {
    PcOf(s, tid).Loading() ==>
      && LastRead(acts, tid).Some? && PcOf(s, tid).load.gen <= s.sh.generation
      && (PcOf(s, tid).load.gen == s.sh.generation <==> Quiet(acts, LastRead(acts, tid).value))
  }

  lemma QuietStep(acts: seq<Action>, from: nat)
    requires acts != [] && from < |acts|
    ensures var n := |acts| - 1;
      Quiet(acts, from) <==> from == n || (Quiet(acts[..n], from) && !acts[n].Invalidate?)
  {
    var n := |acts| - 1;
    assert forall i :: 0 <= i < n ==> acts[..n][i] == acts[i];
  }

  lemma ReadMeansStep(w: World, disk: seq<Item>, acts: seq<Action>, tid: nat)
    requires acts != [] && Legal(w, disk, acts)
    requires ReadMeans(After(w, disk, acts[..|acts| - 1]), acts[..|acts| - 1], tid)
    ensures ReadMeans(After(w, disk, acts), acts, tid)
  {
    var n := |acts| - 1;
    var s, s' := After(w, disk, acts[..n]), After(w, disk, acts);
    if LastRead(acts, tid).Some? {
      QuietStep(acts, LastRead(acts, tid).value);
    }
    if acts[n].Invalidate? || acts[n].tid != tid {
      assert PcOf(s', tid) == PcOf(s, tid);
    } else {
      OwnLoad(w, s, acts[n]);
    }
  }

  /** A load keeps the generation it read. */
  lemma OwnLoad(w: World, s: State, a: Action)
    requires Enabled(s, a) && !a.Invalidate?
    ensures var pc := PcOf(Step(w, s, a), a.tid);
      pc.Loading() ==>
        if a.ReadGeneration? then pc.load.gen == s.sh.generation && Step(w, s, a).sh.generation == s.sh.generation
        else PcOf(s, a.tid).Loading() && pc.load.gen == PcOf(s, a.tid).load.gen && Step(w, s, a).sh.generation == s.sh.generation
  {
  }

  lemma {:induction false} ReadsMean(w: World, disk: seq<Item>, acts: seq<Action>, tid: nat)
    requires Legal(w, disk, acts)
    ensures ReadMeans(After(w, disk, acts), acts, tid)
  {
    if acts != [] {
      ReadsMean(w, disk, acts[..|acts| - 1], tid);
      ReadMeansStep(w, disk, acts, tid);
    }
  }

  lemma TimelyMeans(w: World, disk: seq<Item>, acts: seq<Action>)
    requires acts != [] && Legal(w, disk, acts) && (acts[|acts| - 1].Publish? || acts[|acts| - 1].Rearm?)
    ensures var n := |acts| - 1;
      var s := After(w, disk, acts[..n]);
      Timely(acts, acts[n].tid) <==> PcOf(s, acts[n].tid).load.gen == s.sh.generation
  {
    var n := |acts| - 1;
    ReadsMean(w, disk, acts[..n], acts[n].tid);
    if LastRead(acts[..n], acts[n].tid).Some? {
      QuietStep(acts, LastRead(acts[..n], acts[n].tid).value);
    }
  }

  // ---- what is in memory ----------------------------------------------------------------

  /** The step that put into memory what is there: a publish, or a peek at the disk copy. */
  function Latest(w: World, disk: seq<Item>, acts: seq<Action>): (m: Option<nat>)
    requires Legal(w, disk, acts)
    ensures m.Some? ==> m.value < |acts| && (acts[m.value].Publish? || acts[m.value].CheckDisk?)
  {
    if acts == [] then None
    else
      var n := |acts| - 1;
      if acts[n].Invalidate? then None
      else if acts[n].Publish? && Timely(acts, acts[n].tid) then Some(n)
      else if acts[n].CheckDisk? && PcOf(After(w, disk, acts), acts[n].tid).Answered? then Some(n)
      else Latest(w, disk, acts[..n])
  }

  /** The clock reading a snapshot's age counts from: a peeked disk copy is as old as the clock. */
  function StampOf(a: Action): real
    requires a.Publish? || a.CheckDisk?
  {
    if a.Publish? then a.now else 0.0
  }

  /** What one step does to the snapshot and its stamp. */
  lemma MemoryMoves(w: World, s: State, a: Action)
    requires Enabled(s, a)
    ensures var sh, sh' := s.sh, Step(w, s, a).sh;
      if a.Invalidate? then sh'.v.None?
      else if a.Publish? && PcOf(s, a.tid).load.gen == sh.generation then sh'.v == Some(PcOf(s, a.tid).items) && sh'.t == a.now
      else if a.CheckDisk? && PcOf(Step(w, s, a), a.tid).Answered? then sh'.v == Some(s.disk) && sh'.t == 0.0
      else sh'.v == sh.v && sh'.t == sh.t
  {
  }

  lemma {:induction false} MemoryIsLatest(w: World, disk: seq<Item>, acts: seq<Action>)
    requires Legal(w, disk, acts)
    ensures var sh := After(w, disk, acts).sh;
      match Latest(w, disk, acts)
      case None => sh.v.None?
      case Some(m) => sh.v.Some? && sh.t == StampOf(acts[m])
  {
    if acts != [] {
      var n := |acts| - 1;
      MemoryIsLatest(w, disk, acts[..n]);
      MemoryMoves(w, After(w, disk, acts[..n]), acts[n]);
      if acts[n].Publish? {
        TimelyMeans(w, disk, acts);
      }
    }
  }

  /**
   An unforced call answers from memory as fresh exactly when what is there is less than
   thirty seconds old by the clock; a forced one never does.
   */
  lemma FreshAnswersAreYoung(w: World, disk: seq<Item>, acts: seq<Action>, tid: nat, now: real)
    requires acts != [] && Legal(w, disk, acts)
    requires acts[|acts| - 1] == CheckFresh(tid, now) || acts[|acts| - 1] == Recheck(tid, now)
    ensures var n := |acts| - 1;
      var s, pc := After(w, disk, acts[..n]), PcOf(After(w, disk, acts), tid);
      var m, force := Latest(w, disk, acts[..n]), PcOf(s, tid).force;
      if !force && m.Some? && now - StampOf(acts[m.value]) < 30.0
      then s.sh.v.Some? && (if acts[n].CheckFresh? then pc == Answered(s.sh.v.value) else pc.Ending? && pc.answer == s.sh.v.value)
      else if acts[n].CheckFresh? then pc == (if force then Queued(true, false) else AskedStale)
      else pc.Starting? && pc.force == force
  {
    MemoryIsLatest(w, disk, acts[..|acts| - 1]);
  }

  /** Past that, an unforced call answers whatever is in memory, however old, and looks at the disk only when there is nothing. */
  lemma StaleAnswersIff(w: World, disk: seq<Item>, acts: seq<Action>, tid: nat)
    requires acts != [] && Legal(w, disk, acts) && acts[|acts| - 1] == CheckStale(tid)
    ensures var n := |acts| - 1;
      var s, pc := After(w, disk, acts[..n]), PcOf(After(w, disk, acts), tid);
      if Latest(w, disk, acts[..n]).Some? then s.sh.v.Some? && pc == Answered(s.sh.v.value) else pc == AskedDisk
  {
    MemoryIsLatest(w, disk, acts[..|acts| - 1]);
  }

  // ---- skipping the run -------------------------------------------------------------------

  /**
   launchd lists a service under its own label or one of brew's exactly when brew says it is
   loaded, one of them with a pid exactly when brew says it is started; and brew says so of
   one service at least.
   */
  ghost predicate TellTheSame(items: seq<Item>, jobs: map<string, Option<nat>>) {
    && (forall item :: item in items ==>
          && item.job.Some?
          && (item.status != "none" <==> Listed(item, jobs))
          && (item.status == "started" <==> HasPid(item, jobs)))
    && (exists item :: item in items && item.status != "none")
  }

  predicate Listed(item: Item, jobs: map<string, Option<nat>>)
    requires item.job.Some?
  {
    item.job.value in jobs || "sh.brew." + item.name in jobs || "homebrew.mxcl." + item.name in jobs
  }

  predicate Runs(job: string, jobs: map<string, Option<nat>>) {
    job in jobs && jobs[job].Some?
  }

  predicate HasPid(item: Item, jobs: map<string, Option<nat>>)
    requires item.job.Some?
  {
    Runs(item.job.value, jobs) || Runs("sh.brew." + item.name, jobs) || Runs("homebrew.mxcl." + item.name, jobs)
  }

  lemma ItemTells(item: Item, jobs: map<string, Option<nat>>)
    requires item.job.Some?
    ensures Listed(item, jobs) <==> exists c :: c in Candidates(item) && c in jobs
    ensures HasPid(item, jobs) <==> exists c :: c in Candidates(item) && c in jobs && jobs[c].Some?
  {
    var a, b, c := item.job.value, "sh.brew." + item.name, "homebrew.mxcl." + item.name;
    assert a in Candidates(item) && b in Candidates(item) && c in Candidates(item);
  }

  lemma AgreesMeans(items: seq<Item>, jobs: map<string, Option<nat>>)
    ensures Agrees(items, jobs) <==> TellTheSame(items, jobs)
  {
    forall i | 0 <= i < |items| && items[i].job.Some? {
      ItemTells(items[i], jobs);
    }
    if TellTheSame(items, jobs) {
      var item :| item in items && item.status != "none";
      var i :| 0 <= i < |items| && items[i] == item;
      assert forall k :: 0 <= k < |items| ==> items[k] in items;
    }
  }

  /** The load that rearms at the last step took a fingerprint whose jobs tell the same as the answer. */
  ghost predicate Arms(w: World, disk: seq<Item>, acts: seq<Action>)
    requires acts != [] && Legal(w, disk, acts) && acts[|acts| - 1].Rearm?
  {
    var pc := PcOf(After(w, disk, acts[..|acts| - 1]), acts[|acts| - 1].tid);
    pc.load.fp.Some? && pc.load.labels.Some? && TellTheSame(pc.items, pc.load.fp.value.jobs)
  }

  /** The step that stored the reuse token in force. */
  ghost function LatestArm(w: World, disk: seq<Item>, acts: seq<Action>): (m: Option<nat>)
    requires Legal(w, disk, acts)
    ensures m.Some? ==> m.value < |acts| && acts[m.value].Rearm?
  {
    if acts == [] then None
    else
      var n := |acts| - 1;
      if acts[n].Invalidate? then None
      else if acts[n].Rearm? && Timely(acts, acts[n].tid) then (if Arms(w, disk, acts) then Some(n) else None)
      else LatestArm(w, disk, acts[..n])
  }

  lemma {:induction false} PrefixIsLegal(w: World, disk: seq<Item>, acts: seq<Action>, n: nat)
    requires Legal(w, disk, acts) && n <= |acts|
    ensures Legal(w, disk, acts[..n])
  {
    if n < |acts| {
      assert acts[..|acts| - 1][..n] == acts[..n];
      PrefixIsLegal(w, disk, acts[..|acts| - 1], n);
    } else {
      assert acts[..n] == acts;
    }
  }

  /** The token was stored at step m, at that clock reading, from the fingerprint its load had taken. */
  ghost predicate ArmedAt(w: World, disk: seq<Item>, acts: seq<Action>, m: nat, token: Token) {
    && m < |acts| && acts[m].Rearm? && acts[m].now == token.at && Legal(w, disk, acts[..m])
    && PcOf(After(w, disk, acts[..m]), acts[m].tid).Rearming?
    && PcOf(After(w, disk, acts[..m]), acts[m].tid).load.fp == Some(token.fp)
  }

  /** What one step does to the token. */
  lemma TokenMoves(w: World, s: State, a: Action)
    requires Enabled(s, a)
    ensures var reuse, reuse' := s.sh.reuse, Step(w, s, a).sh.reuse;
      if a.Invalidate? then reuse' == None
      else if a.Rearm? && PcOf(s, a.tid).load.gen == s.sh.generation then
        reuse' == PendingToken(PcOf(s, a.tid).load, PcOf(s, a.tid).items, a.now, PcOf(s, a.tid).ranAt)
      else reuse' == reuse
  {
  }

  lemma {:induction false} TokenIsLatest(w: World, disk: seq<Item>, acts: seq<Action>)
    requires Legal(w, disk, acts)
    ensures var reuse := After(w, disk, acts).sh.reuse;
      match LatestArm(w, disk, acts)
      case None => reuse.None?
      case Some(m) => reuse.Some? && ArmedAt(w, disk, acts, m, reuse.value)
  {
    if acts != [] {
      var n := |acts| - 1;
      var s := After(w, disk, acts[..n]);
      TokenIsLatest(w, disk, acts[..n]);
      TokenMoves(w, s, acts[n]);
      if acts[n].Rearm? {
        TimelyMeans(w, disk, acts);
        var pc := PcOf(s, acts[n].tid);
        if pc.load.fp.Some? {
          AgreesMeans(pc.items, pc.load.fp.value.jobs);
        }
      }
      var m := LatestArm(w, disk, acts[..n]);
      if m.Some? {
        assert acts[..n][..m.value] == acts[..m.value] && acts[..n][m.value] == acts[m.value];
      }
    }
  }

  /** A load carries the token that was in force when it read the generation. */
  ghost predicate CarriesToken(w: World, disk: seq<Item>, acts: seq<Action>, tid: nat)
    requires Legal(w, disk, acts)
  {
    var pc, r := PcOf(After(w, disk, acts), tid), LastRead(acts, tid);
    pc.Loading() ==> r.Some? && Legal(w, disk, acts[..r.value]) && pc.load.token == After(w, disk, acts[..r.value]).sh.reuse
  }

  lemma OwnToken(w: World, s: State, a: Action)
    requires Enabled(s, a) && !a.Invalidate?
    ensures var pc := PcOf(Step(w, s, a), a.tid);
      pc.Loading() ==>
        if a.ReadGeneration? then pc.load.token == s.sh.reuse
        else PcOf(s, a.tid).Loading() && pc.load.token == PcOf(s, a.tid).load.token
  {
  }

  lemma {:induction false} LoadsCarryTokens(w: World, disk: seq<Item>, acts: seq<Action>, tid: nat)
    requires Legal(w, disk, acts)
    ensures CarriesToken(w, disk, acts, tid)
  {
    if acts != [] {
      var n := |acts| - 1;
      LoadsCarryTokens(w, disk, acts[..n], tid);
      TokensAreCarriedOn(w, disk, acts, tid);
    }
  }

  lemma TokensAreCarriedOn(w: World, disk: seq<Item>, acts: seq<Action>, tid: nat)
    requires acts != [] && Legal(w, disk, acts) && CarriesToken(w, disk, acts[..|acts| - 1], tid)
    ensures CarriesToken(w, disk, acts, tid)
  {
    var n := |acts| - 1;
    var s, r := After(w, disk, acts[..n]), LastRead(acts[..n], tid);
    assert r.Some? ==> acts[..n][..r.value] == acts[..r.value];
    if acts[n].Invalidate? || acts[n].tid != tid {
      assert PcOf(After(w, disk, acts), tid) == PcOf(s, tid);
    } else {
      OwnToken(w, s, acts[n]);
    }
  }

  /** A token stored by step m, no older than ten minutes, was made from this fingerprint. */
  ghost predicate Reusable(w: World, disk: seq<Item>, acts: seq<Action>, fp: Option<Fingerprint>, now: real)
    requires Legal(w, disk, acts)
  {
    var m := LatestArm(w, disk, acts);
    && fp.Some? && m.Some? && now - acts[m.value].now < 600.0
    && Legal(w, disk, acts[..m.value])
    && var pc := PcOf(After(w, disk, acts[..m.value]), acts[m.value].tid);
       pc.Rearming? && pc.load.fp == fp
  }

  /**
   A load publishes what it found in memory, without running brew, exactly when the call is
   not forced, that is not empty, and the token in force when it began was stored less than
   ten minutes before from an equal fingerprint.  Otherwise it runs brew, unless brew is busy.
   */
  lemma SkipsExactlyWhen(w: World, disk: seq<Item>, acts: seq<Action>, tid: nat, now: real, busy: bool)
    requires acts != [] && Legal(w, disk, acts) && acts[|acts| - 1] == Decide(tid, now, busy)
    ensures var n := |acts| - 1;
      var load, pc := PcOf(After(w, disk, acts[..n]), tid).load, PcOf(After(w, disk, acts), tid);
      var r := LastRead(acts[..n], tid);
      && r.Some? && Legal(w, disk, acts[..r.value])
      && if !load.force && load.held.Some? && load.held.value != [] && Reusable(w, disk, acts[..r.value], load.fp, now)
         then pc == Publishing(load, load.held.value, false, Skip)
         else pc == if busy then KeepingMemory(load, false) else Running(load)
  {
    var n := |acts| - 1;
    LoadsCarryTokens(w, disk, acts[..n], tid);
    var r := LastRead(acts[..n], tid).value;
    assert acts[..n][..r] == acts[..r];
    TokenIsLatest(w, disk, acts[..r]);
    var m := LatestArm(w, disk, acts[..r]);
    if m.Some? {
      assert ArmedAt(w, disk, acts[..r], m.value, After(w, disk, acts[..r]).sh.reuse.value);
    }
  }

  // ---- forced calls --------------------------------------------------------------------------

  /** Whether the call a thread is in was forced; background reloads are not. */
  function Forced(acts: seq<Action>, tid: nat): bool {
    acts != [] &&
    var last := acts[|acts| - 1];
    if last.Ask? && last.tid == tid then last.force
    else if last.Kick? && last.tid == tid then false
    else Forced(acts[..|acts| - 1], tid)
  }

  /** A thread's force flag wherever it has one. */
  function ForceOf(pc: Pc): Option<bool> {
    match pc
    case Asked(force) => Some(force)
    case AskedStale => Some(false)
    case AskedDisk => Some(false)
    case Queued(force, _) => Some(force)
    case Turn(force, _) => Some(force)
    case Starting(force, _) => Some(force)
    case _ => if pc.Loading() then Some(pc.load.force) else None
  }

  lemma EntryForce(w: World, s: State, a: Action)
    requires Enabled(s, a) && (a.Ask? || a.Kick?)
    ensures var now := ForceOf(PcOf(Step(w, s, a), a.tid)); now.Some? ==> now.value == (a.Ask? && a.force)
  {
  }

  /** Before the lock, and at it. */
  lemma WaitingForce(w: World, s: State, a: Action)
    requires Enabled(s, a) && !a.Invalidate? && !a.Ask? && !a.Kick? && !PcOf(s, a.tid).Loading()
    ensures var now := ForceOf(PcOf(Step(w, s, a), a.tid)); now.Some? ==> now == ForceOf(PcOf(s, a.tid))
  {
  }

  lemma LoadingForce(w: World, s: State, a: Action)
    requires Enabled(s, a) && !a.Invalidate? && PcOf(s, a.tid).Loading()
    ensures var now := ForceOf(PcOf(Step(w, s, a), a.tid)); now.Some? ==> now == ForceOf(PcOf(s, a.tid))
  {
  }

  /** The flag a call was made with decides to the end: a forced call never answers from memory or disk, and always sets out to run. */
  lemma {:induction false} ForceIsKept(w: World, disk: seq<Item>, acts: seq<Action>, tid: nat)
    requires Legal(w, disk, acts)
    ensures var force := ForceOf(PcOf(After(w, disk, acts), tid)); force.Some? ==> force.value == Forced(acts, tid)
  {
    if acts != [] {
      var n := |acts| - 1;
      ForceIsKept(w, disk, acts[..n], tid);
      var s := After(w, disk, acts[..n]);
      if acts[n].Invalidate? || acts[n].tid != tid {
        assert PcOf(After(w, disk, acts), tid) == PcOf(s, tid);
      } else {
        if acts[n].Ask? || acts[n].Kick? {
          EntryForce(w, s, acts[n]);
        } else if PcOf(s, tid).Loading() {
          LoadingForce(w, s, acts[n]);
        } else {
          WaitingForce(w, s, acts[n]);
        }
      }
    }
  }

  // ---- the disk copy ----------------------------------------------------------------------------

  /** An invalidate bars the disk copy until the next timely publish. */
  predicate Barred(acts: seq<Action>) {
    acts != [] &&
    var n := |acts| - 1;
    if acts[n].Invalidate? then true
    else if acts[n].Publish? && Timely(acts, acts[n].tid) then false
    else Barred(acts[..n])
  }

  lemma {:induction false} BarredMeans(w: World, disk: seq<Item>, acts: seq<Action>)
    requires Legal(w, disk, acts)
    ensures After(w, disk, acts).sh.diskOk <==> !Barred(acts)
  {
    if acts != [] {
      var n := |acts| - 1;
      BarredMeans(w, disk, acts[..n]);
      DiskOkMoves(w, After(w, disk, acts[..n]), acts[n]);
      if acts[n].Publish? {
        TimelyMeans(w, disk, acts);
      }
    }
  }

  lemma DiskOkMoves(w: World, s: State, a: Action)
    requires Enabled(s, a)
    ensures Step(w, s, a).sh.diskOk ==
            if a.Invalidate? then false
            else if a.Publish? && PcOf(s, a.tid).load.gen == s.sh.generation then true
            else s.sh.diskOk
  {
  }

  /** A call that got past memory answers from the disk copy exactly when there is one and it is not barred. */
  lemma DiskAnswersIff(w: World, disk: seq<Item>, acts: seq<Action>, tid: nat)
    requires acts != [] && Legal(w, disk, acts) && acts[|acts| - 1] == CheckDisk(tid)
    ensures var n := |acts| - 1;
      var s := After(w, disk, acts[..n]);
      PcOf(After(w, disk, acts), tid) == if s.disk != [] && !Barred(acts[..n]) then Answered(s.disk) else Queued(false, false)
  {
    BarredMeans(w, disk, acts[..|acts| - 1]);
  }

  // ---- what a fingerprint watches -----------------------------------------------------------------

  /** A load watches the launchd label of every service it found in memory, or takes no fingerprint when one has none. */
  lemma PrintsWatchEveryLabel(w: World, disk: seq<Item>, acts: seq<Action>, tid: nat)
    requires acts != [] && Legal(w, disk, acts) && acts[|acts| - 1] == TakePrint(tid)
    ensures var s := After(w, disk, acts[..|acts| - 1]);
      var before, load := PcOf(s, tid).load, PcOf(After(w, disk, acts), tid).load;
      var items := before.held.GetOr([]);
      && load.held == before.held && load.force == before.force && load.token == before.token
      && (load.labels.None? <==> exists item :: item in items && item.job.None?)
      && (load.labels.None? ==> load.fp.None?)
      && (load.labels.Some? ==>
            && load.fp == w.stamp(s.clock, load.labels.value)
            && forall job :: job in load.labels.value <==> exists item :: item in items && item.job == Some(job))
  {
    var s := After(w, disk, acts[..|acts| - 1]);
    LabelsMean(PcOf(s, tid).load.held.GetOr([]));
  }

  lemma LabelsMean(items: seq<Item>)
    ensures ServiceLabels(items).None? <==> exists item :: item in items && item.job.None?
    ensures ServiceLabels(items).Some? ==>
      forall job :: job in ServiceLabels(items).value <==> exists item :: item in items && item.job == Some(job)
  {
    if i :| 0 <= i < |items| && items[i].job.None? {
      assert items[i] in items;
    }
    if ServiceLabels(items).Some? {
      forall job
        ensures job in ServiceLabels(items).value <==> exists item :: item in items && item.job == Some(job)
      {
        if job in ServiceLabels(items).value {
          var i :| 0 <= i < |items| && items[i].job.GetOr("") == job;
          assert items[i] in items && items[i].job == Some(job);
        }
        if item :| item in items && item.job == Some(job) {
          var i :| 0 <= i < |items| && items[i] == item;
          assert items[i].job.GetOr("") == job;
        }
      }
    }
  }
}
