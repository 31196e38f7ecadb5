/**
 What a load of the brew cache answers, stores and writes (hub/brew_cache.py), said about
 the steps of an interleaving.
 */
module BrewOutcomes {
  import opened Options
  import opened BrewCache
  import opened BrewFreshness

  lemma {:induction false} ClockIsLength(w: World, disk: seq<Item>, acts: seq<Action>)
    requires Legal(w, disk, acts)
    ensures After(w, disk, acts).clock == |acts|
  {
    if acts != [] {
      ClockIsLength(w, disk, acts[..|acts| - 1]);
    }
  }

  /**
   The rows a thread settled on: those of its run when brew succeeded, else what was in
   memory when it looked, else the disk copy; what it held when it skipped the run; what
   another load had left when it found that fresh.
   */
  function Choice(w: World, disk: seq<Item>, acts: seq<Action>, tid: nat): Option<seq<Item>>
    requires Legal(w, disk, acts)
  {
    if acts == [] then None
    else
      var n := |acts| - 1;
      var s, s' := After(w, disk, acts[..n]), After(w, disk, acts);
      if acts[n] == RunBrew(tid, true) then Some(w.truth(n))
      else if acts[n] == KeepMemory(tid) && s.sh.v.GetOr([]) != [] then s.sh.v
      else if acts[n] == KeepDisk(tid) then Some(s.disk)
      else if acts[n].Decide? && acts[n].tid == tid && PcOf(s', tid).Publishing? then PcOf(s, tid).load.held
      else if acts[n].Recheck? && acts[n].tid == tid && PcOf(s', tid).Ending? then s.sh.v
      else Choice(w, disk, acts[..n], tid)
  }

  /** Brew was run for the load the thread is in. */
  predicate Ran(acts: seq<Action>, tid: nat) {
    acts != [] &&
    var last := acts[|acts| - 1];
    if last.RunBrew? && last.tid == tid then true
    else if last == ReadGeneration(tid) then false
    else Ran(acts[..|acts| - 1], tid)
  }

  /** The rows a program counter carries. */
  function RowsOf(pc: Pc): Option<seq<Item>> {
    match pc
    case Publishing(_, items, _, _) => Some(items)
    case Writing(_, items, _) => Some(items)
    case Rearming(_, items, _) => Some(items)
    case Ending(_, answer) => Some(answer)
    case _ => None
  }

  /** Whether a load will write the disk copy, wherever it has decided that. */
  function ToDisk(pc: Pc): Option<bool> {
    match pc
    case Holding(_) => Some(false)
    case Printing(_) => Some(false)
    case Deciding(_) => Some(false)
    case Running(_) => Some(false)
    case KeepingMemory(_, toDisk) => Some(toDisk)
    case KeepingDisk(_, toDisk) => Some(toDisk)
    case Publishing(_, _, toDisk, _) => Some(toDisk)
    case _ => None
  }

  lemma OwnRows(w: World, s: State, a: Action)
    requires Enabled(s, a) && !a.Invalidate?
    ensures var rows := RowsOf(PcOf(Step(w, s, a), a.tid));
      rows.Some? ==>
        if a.RunBrew? then a.succeeds && rows.value == w.truth(s.clock)
        else if a.KeepMemory? then s.sh.v.GetOr([]) != [] && rows == s.sh.v
        else if a.KeepDisk? then rows.value == s.disk
        else if a.Decide? then PcOf(Step(w, s, a), a.tid).Publishing? && PcOf(s, a.tid).load.held.Some? && rows == PcOf(s, a.tid).load.held
        else if a.Recheck? then PcOf(Step(w, s, a), a.tid).Ending? && s.sh.v.Some? && rows == s.sh.v
        else rows == RowsOf(PcOf(s, a.tid))
  {
  }

  lemma {:induction false} RowsAreTheChoice(w: World, disk: seq<Item>, acts: seq<Action>, tid: nat)
    requires Legal(w, disk, acts)
    ensures var rows := RowsOf(PcOf(After(w, disk, acts), tid)); rows.Some? ==> rows == Choice(w, disk, acts, tid)
  {
    if acts != [] {
      var n := |acts| - 1;
      var s := After(w, disk, acts[..n]);
      RowsAreTheChoice(w, disk, acts[..n], tid);
      ClockIsLength(w, disk, acts[..n]);
      if acts[n].Invalidate? || acts[n].tid != tid {
        assert PcOf(After(w, disk, acts), tid) == PcOf(s, tid);
      } else {
        OwnRows(w, s, acts[n]);
      }
    }
  }

  lemma OwnDisk(w: World, s: State, a: Action)
    requires Enabled(s, a) && !a.Invalidate?
    ensures var toDisk := ToDisk(PcOf(Step(w, s, a), a.tid));
      toDisk.Some? ==> if a.RunBrew? then toDisk.value else if a.ReadGeneration? then !toDisk.value else toDisk == ToDisk(PcOf(s, a.tid))
  {
  }

  lemma {:induction false} RunsGoToDisk(w: World, disk: seq<Item>, acts: seq<Action>, tid: nat)
    requires Legal(w, disk, acts)
    ensures var toDisk := ToDisk(PcOf(After(w, disk, acts), tid)); toDisk.Some? ==> toDisk.value == Ran(acts, tid)
  {
    if acts != [] {
      var n := |acts| - 1;
      var s := After(w, disk, acts[..n]);
      RunsGoToDisk(w, disk, acts[..n], tid);
      if acts[n].Invalidate? || acts[n].tid != tid {
        assert PcOf(After(w, disk, acts), tid) == PcOf(s, tid);
      } else {
        OwnDisk(w, s, acts[n]);
      }
    }
  }

  // ---- results --------------------------------------------------------------------------

  /** A publish puts the rows the load settled on into memory, unless something was invalidated since it began. */
  lemma PublishStoresTheChoice(w: World, disk: seq<Item>, acts: seq<Action>, tid: nat, now: real)
    requires acts != [] && Legal(w, disk, acts) && acts[|acts| - 1] == Publish(tid, now)
    ensures var n := |acts| - 1;
      var before, sh := After(w, disk, acts[..n]).sh, After(w, disk, acts).sh;
      var choice := Choice(w, disk, acts[..n], tid);
      choice.Some? && sh.v == if Timely(acts, tid) then choice else before.v
    ensures var pc := PcOf(After(w, disk, acts), tid); pc.Writing? <==> Ran(acts, tid) && Timely(acts, tid)
  {
    var n := |acts| - 1;
    RowsAreTheChoice(w, disk, acts[..n], tid);
    RunsGoToDisk(w, disk, acts[..n], tid);
    TimelyMeans(w, disk, acts);
    MemoryMoves(w, After(w, disk, acts[..n]), acts[n]);
  }

  /** Whether a thread last set out as a background reload, and not for a caller. */
  predicate Kicked(acts: seq<Action>, tid: nat) {
    acts != [] &&
    var last := acts[|acts| - 1];
    if last == Kick(tid) then true
    else if last.Ask? && last.tid == tid then false
    else Kicked(acts[..|acts| - 1], tid)
  }

  /** Whether a thread works in the background, wherever it works at all. */
  function BackgroundOf(pc: Pc): Option<bool> {
    match pc
    case Idle => None
    case Answered(_) => None
    case _ => Some(pc.Background())
  }

  lemma OwnBackground(w: World, s: State, a: Action)
    requires Enabled(s, a) && !a.Invalidate?
    ensures var bg := BackgroundOf(PcOf(Step(w, s, a), a.tid));
      bg.Some? ==> if a.Ask? then !bg.value else if a.Kick? then bg.value else bg == BackgroundOf(PcOf(s, a.tid))
  {
  }

  lemma {:induction false} BackgroundIsKicked(w: World, disk: seq<Item>, acts: seq<Action>, tid: nat)
    requires Legal(w, disk, acts)
    ensures var bg := BackgroundOf(PcOf(After(w, disk, acts), tid)); bg.Some? ==> bg.value == Kicked(acts, tid)
  {
    if acts != [] {
      var n := |acts| - 1;
      var s := After(w, disk, acts[..n]);
      BackgroundIsKicked(w, disk, acts[..n], tid);
      if acts[n].Invalidate? || acts[n].tid != tid {
        assert PcOf(After(w, disk, acts), tid) == PcOf(s, tid);
      } else {
        OwnBackground(w, s, acts[n]);
      }
    }
  }

  /** A waiting caller gets the rows its load settled on; a background reload answers nobody. */
  lemma CallersGetTheChoice(w: World, disk: seq<Item>, acts: seq<Action>, tid: nat)
    requires acts != [] && Legal(w, disk, acts) && acts[|acts| - 1] == Release(tid)
    ensures var pc := PcOf(After(w, disk, acts), tid);
      var choice := Choice(w, disk, acts[..|acts| - 1], tid);
      choice.Some? && pc == if Kicked(acts, tid) then BgEnding else Answered(choice.value)
  {
    BackgroundIsKicked(w, disk, acts[..|acts| - 1], tid);
    RowsAreTheChoice(w, disk, acts[..|acts| - 1], tid);
  }

  /** The step that wrote the disk copy. */
  function LatestWrite(acts: seq<Action>): (m: Option<nat>)
    ensures m.Some? ==> m.value < |acts| && acts[m.value].WriteDisk?
  {
    if acts == [] then None
    else if acts[|acts| - 1].WriteDisk? then Some(|acts| - 1)
    else LatestWrite(acts[..|acts| - 1])
  }

  /** The disk holds what the latest load to write it settled on, or still the copy of an earlier process. */
  lemma {:induction false} DiskIsTheLatestWrite(w: World, disk: seq<Item>, acts: seq<Action>)
    requires Legal(w, disk, acts)
    ensures match LatestWrite(acts)
            case None => After(w, disk, acts).disk == disk
            case Some(m) => Legal(w, disk, acts[..m]) && Choice(w, disk, acts[..m], acts[m].tid) == Some(After(w, disk, acts).disk)
  {
    if acts != [] {
      var n := |acts| - 1;
      DiskIsTheLatestWrite(w, disk, acts[..n]);
      RowsAreTheChoice(w, disk, acts[..n], if acts[n].Invalidate? then 0 else acts[n].tid);
      DiskMoves(w, After(w, disk, acts[..n]), acts[n]);
      var m := LatestWrite(acts[..n]);
      if m.Some? {
        assert acts[..n][..m.value] == acts[..m.value];
      }
    }
  }

  lemma DiskMoves(w: World, s: State, a: Action)
    requires Enabled(s, a)
    ensures Step(w, s, a).disk == if a.WriteDisk? then RowsOf(PcOf(s, a.tid)).value else s.disk
  {
  }
}
