/**
 Stack backup with crash recovery (hub/backups.py): stop a compose stack, archive
 it, start it again, with a marker file that outlives the process.  A process can
 die between any two operations.
 */
module StackBackup {
  import opened Options

  /** The operations on one stack that outlive the process, in the order issued. */
  datatype Op =
    | WriteMarker
    | Stop
    | Export(volume: string)
    | Reserve
    | Archive
    | Start
    | Discard
    | ClearMarker

  /**
   What the outside remembers about one stack.  `down` is the debt: a stop was
   attempted with no start attempted since.
   */
  datatype Stack = Stack(marker: bool, down: bool, archive: bool)

  function Apply(st: Stack, op: Op): Stack {
    match op
    case WriteMarker => st.(marker := true)
    case Stop => st.(down := true)
    case Start => st.(down := false)
    case ClearMarker => st.(marker := false)
    case Reserve => st.(archive := true)
    case Discard => st.(archive := false)
    case _ => st
  }

  function ApplyAll(st: Stack, ops: seq<Op>): Stack
    decreases |ops|
  {
    if ops == [] then st else ApplyAll(Apply(st, ops[0]), ops[1..])
  }

  lemma {:induction false} ApplyConcat(st: Stack, a: seq<Op>, b: seq<Op>)
    ensures ApplyAll(st, a + b) == ApplyAll(ApplyAll(st, a), b)
    decreases |a|
  {
    if a == [] {
      assert a + b == b;
    } else {
      assert (a + b)[1..] == a[1..] + b;
      ApplyConcat(Apply(st, a[0]), a[1..], b);
    }
  }

  // ---- one backup ----------------------------------------------------------------

  /** How a docker or tar command ends: rc 0, another rc, or control flow raised through it. */
  datatype Exit = Good | Failed | Interrupted

  /** How the outside answers one backup; `size` is what tar wrote. */
  datatype Env = Env(stop: Exit, staging: bool, exports: seq<Exit>, destFree: bool, archive: Exit, size: nat, start: Exit)

  datatype Result = Raised | Report(ok: bool, stopped: bool, restarted: Option<bool>)

  /** Exports up to the first that does not succeed. */
  function Exports(volumes: seq<string>, exits: seq<Exit>): seq<Op>
    requires |volumes| == |exits|
  {
    if volumes == [] then []
    else [Export(volumes[0])] + if exits[0].Good? then Exports(volumes[1..], exits[1..]) else []
  }

  predicate AllGood(exits: seq<Exit>) {
    forall i :: 0 <= i < |exits| ==> exits[i].Good?
  }

  /** The first export that does not succeed raises. */
  predicate ExportRaises(exits: seq<Exit>) {
    exists i :: 0 <= i < |exits| && exits[i].Interrupted? && forall k :: 0 <= k < i ==> exits[k].Good?
  }

  function Opening(stopFirst: bool): seq<Op> {
    if stopFirst then [WriteMarker, Stop] else []
  }

  /** The protected part: nothing when the stop itself was interrupted or staging failed. */
  function Body(volumes: seq<string>, stopFirst: bool, env: Env): seq<Op>
    requires |volumes| == |env.exports|
  {
    if (stopFirst && env.stop.Interrupted?) || !env.staging then []
    else Exports(volumes, env.exports) + if AllGood(env.exports) && env.destFree then [Reserve, Archive] else []
  }

  predicate Reserved(stopFirst: bool, env: Env) {
    !(stopFirst && env.stop.Interrupted?) && env.staging && AllGood(env.exports) && env.destFree
  }

  predicate Archived(stopFirst: bool, env: Env) {
    Reserved(stopFirst, env) && env.archive.Good? && env.size > 0
  }

  /** The finally block. */
  function Closing(stopFirst: bool, env: Env): seq<Op> {
    var restarts := stopFirst && !env.stop.Interrupted?;
    if restarts && env.start.Interrupted? then [Start]
    else
      (if restarts then [Start] else [])
      + (if Reserved(stopFirst, env) && !Archived(stopFirst, env) then [Discard] else [])
      + (if stopFirst then [ClearMarker] else [])
  }

  function Program(volumes: seq<string>, stopFirst: bool, env: Env): seq<Op>
    requires |volumes| == |env.exports|
  {
    Opening(stopFirst) + Body(volumes, stopFirst, env) + Closing(stopFirst, env)
  }

  lemma {:induction false} ExportsStep(volumes: seq<string>, exits: seq<Exit>, i: nat)
    requires |volumes| == |exits| && i < |volumes| && AllGood(exits[..i])
    ensures Exports(volumes[..i + 1], exits[..i + 1]) == Exports(volumes[..i], exits[..i]) + [Export(volumes[i])]
    ensures !exits[i].Good? ==> Exports(volumes, exits) == Exports(volumes[..i + 1], exits[..i + 1])
  {
    if i == 0 {
      assert volumes[..1] == [volumes[0]] && exits[..1] == [exits[0]];
    } else {
      assert volumes[1..][..i - 1] == volumes[1..i] == volumes[..i][1..] && volumes[..i + 1][1..] == volumes[1..][..i];
      assert exits[1..][..i - 1] == exits[1..i] == exits[..i][1..] && exits[..i + 1][1..] == exits[1..][..i];
      assert exits[0] == exits[..i][0];
      assert AllGood(exits[1..][..i - 1]);
      ExportsStep(volumes[1..], exits[1..], i - 1);
    }
  }

  lemma FirstBadDecides(exits: seq<Exit>, i: nat)
    requires i < |exits| && AllGood(exits[..i]) && !exits[i].Good?
    ensures ExportRaises(exits) <==> exits[i].Interrupted?
  {
    assert forall k :: 0 <= k < i ==> exits[..i][k] == exits[k];
  }

  /** Runs the commands; `ops` is what the outside has seen so far. */
  class BackupRunner {
    var ops: seq<Op>

    constructor ()
      ensures ops == []
    {
      ops := [];
    }

    /** One export after the other, up to the first that does not succeed. */
    method RunExports(volumes: seq<string>, exits: seq<Exit>) returns (error: bool, raised: bool)
      requires |volumes| == |exits|
      modifies this
      ensures ops == old(ops) + Exports(volumes, exits)
      ensures !error && !raised <==> AllGood(exits)
      ensures raised <==> ExportRaises(exits)
    {
      error, raised := false, false;
      var i := 0;
      while i < |volumes| && !error && !raised
        invariant 0 <= i <= |volumes|
        invariant ops == old(ops) + Exports(volumes[..i], exits[..i])
        invariant !error && !raised ==> AllGood(exits[..i])
        invariant error || raised ==> !AllGood(exits) && (raised <==> ExportRaises(exits))
        invariant error || raised ==> Exports(volumes[..i], exits[..i]) == Exports(volumes, exits)
      {
        ExportsStep(volumes, exits, i);
        ops := ops + [Export(volumes[i])];
        error := exits[i].Failed?;
        raised := exits[i].Interrupted?;
        assert exits[..i + 1] == exits[..i] + [exits[i]];
        if !exits[i].Good? {
          FirstBadDecides(exits, i);
        }
        i := i + 1;
      }
      assert volumes[..|volumes|] == volumes && exits[..|volumes|] == exits;
    }

    /**
     The try block from staging on.  Every failure leaves through the caller's
     finally block; there is no early return past it.
     */
    method ArchiveBody(volumes: seq<string>, env: Env) returns (reserved: bool, archiveOk: bool, raised: bool)
      requires |volumes| == |env.exports|
      modifies this
      ensures ops == old(ops) + Body(volumes, false, env)
      ensures reserved <==> env.staging && (forall i :: 0 <= i < |env.exports| ==> env.exports[i].Good?) && env.destFree
      ensures archiveOk <==> reserved && env.archive.Good? && env.size > 0
      ensures raised <==>
        || !env.staging || ExportRaises(env.exports)
        || ((forall i :: 0 <= i < |env.exports| ==> env.exports[i].Good?) && (!env.destFree || env.archive.Interrupted?))
    {
      reserved, archiveOk, raised := false, false, false;
      if !env.staging {
        return false, false, true;
      }
      var error: bool;
      error, raised := RunExports(volumes, env.exports);
      if !error && !raised {
        if !env.destFree {
          return false, false, true;
        }
        ops := ops + [Reserve];
        ops := ops + [Archive];
        reserved, archiveOk, raised := true, env.archive.Good? && env.size > 0, env.archive.Interrupted?;
      }
    }

    /** The finally block; interrupted when control flow is raised inside the start. */
    method Close(stopFirst: bool, env: Env, stopped: bool, reserved: bool, archiveOk: bool)
      returns (interrupted: bool, restarted: Option<bool>)
      requires stopped == (stopFirst && !env.stop.Interrupted?)
      requires reserved == Reserved(stopFirst, env) && archiveOk == Archived(stopFirst, env)
      modifies this
      ensures ops == old(ops) + Closing(stopFirst, env)
      ensures interrupted <==> stopFirst && !env.stop.Interrupted? && env.start.Interrupted?
      ensures !interrupted ==>
        restarted == if stopFirst && !env.stop.Interrupted? then Some(env.start.Good?) else None
    {
      interrupted, restarted := false, None;
      ghost var tried := ops;
      if stopped {
        ops := ops + [Start];
        if env.start.Interrupted? {
          return true, None;
        }
        restarted := Some(env.start.Good?);
      }
      if reserved && !archiveOk {
        ops := ops + [Discard];
      }
      if stopFirst {
        ops := ops + [ClearMarker];
      }
      assert ops == tried + Closing(stopFirst, env);
    }

    /** The try block. */
    method Attempt(volumes: seq<string>, stopFirst: bool, env: Env)
      returns (stopped: bool, reserved: bool, archiveOk: bool, raised: bool)
      requires |volumes| == |env.exports|
      modifies this
      ensures ops == old(ops) + Opening(stopFirst) + Body(volumes, stopFirst, env)
      ensures stopped == (stopFirst && !env.stop.Interrupted?)
      ensures reserved == Reserved(stopFirst, env) && archiveOk == Archived(stopFirst, env)
      ensures raised <==>
        || (stopFirst && env.stop.Interrupted?) || !env.staging || ExportRaises(env.exports)
        || ((forall i :: 0 <= i < |env.exports| ==> env.exports[i].Good?) && (!env.destFree || env.archive.Interrupted?))
    {
      ghost var before := ops;
      stopped, reserved, archiveOk, raised := false, false, false, false;
      if stopFirst {
        ops := ops + [WriteMarker];
        ops := ops + [Stop];
        raised := env.stop.Interrupted?;
        stopped := !raised;
      }
      assert ops == before + Opening(stopFirst);
      if !raised {
        reserved, archiveOk, raised := ArchiveBody(volumes, env);
      }
    }

    /** Stop, archive, start again: what it issues, and what it reports. */
    method BackupStack(volumes: seq<string>, stopFirst: bool, env: Env) returns (result: Result)
      requires |volumes| == |env.exports|
      modifies this
      ensures ops == old(ops) + Program(volumes, stopFirst, env)
      ensures result.Raised? <==>
        || (stopFirst && (env.stop.Interrupted? || env.start.Interrupted?))
        || !env.staging || ExportRaises(env.exports)
        || ((forall i :: 0 <= i < |env.exports| ==> env.exports[i].Good?) && (!env.destFree || env.archive.Interrupted?))
      ensures result.Report? ==>
        && result.stopped == stopFirst
        && result.restarted == (if stopFirst then Some(env.start.Good?) else None)
        && (result.ok <==>
              && (forall i :: 0 <= i < |env.exports| ==> env.exports[i].Good?)
              && env.archive.Good? && env.size > 0 && (stopFirst ==> env.start.Good?))
    {
      ghost var before := ops;
      var stopped, reserved, archiveOk, raised := Attempt(volumes, stopFirst, env);
      var interrupted, restarted := Close(stopFirst, env, stopped, reserved, archiveOk);
      assert ops == before + Program(volumes, stopFirst, env);
      if interrupted || raised {
        return Raised;
      }
      result := Report(archiveOk && restarted != Some(false), stopped, restarted);
    }
  }

  // ---- crash safety ----------------------------------------------------------------

  /** A stack that owes a start is still on the recovery list. */
  predicate Safe(st: Stack) {
    st.down ==> st.marker
  }

  /** Safe at every point of a sequence of operations, so wherever a crash cuts it. */
  predicate AlwaysSafe(st: Stack, ops: seq<Op>)
    decreases |ops|
  {
    Safe(st) && (ops == [] || AlwaysSafe(Apply(st, ops[0]), ops[1..]))
  }

  lemma {:induction false} SafeAtEveryCut(st: Stack, ops: seq<Op>, k: nat)
    requires AlwaysSafe(st, ops) && k <= |ops|
    ensures AlwaysSafe(st, ops[..k]) && Safe(ApplyAll(st, ops[..k]))
    decreases k
  {
    if k > 0 {
      SafeAtEveryCut(Apply(st, ops[0]), ops[1..], k - 1);
      assert ops[..k][1..] == ops[1..][..k - 1];
    }
  }

  lemma {:induction false} SafeConcat(st: Stack, a: seq<Op>, b: seq<Op>)
    requires AlwaysSafe(st, a) && AlwaysSafe(ApplyAll(st, a), b)
    ensures AlwaysSafe(st, a + b)
    decreases |a|
  {
    if a == [] {
      assert a + b == b;
    } else {
      assert (a + b)[1..] == a[1..] + b;
      SafeConcat(Apply(st, a[0]), a[1..], b);
    }
  }

  /** Operations that touch neither the marker nor the debt. */
  predicate Neutral(op: Op) {
    op.Export? || op.Reserve? || op.Archive? || op.Discard?
  }

  lemma {:induction false} NeutralKeeps(st: Stack, ops: seq<Op>)
    requires forall i :: 0 <= i < |ops| ==> Neutral(ops[i])
    ensures ApplyAll(st, ops).marker == st.marker && ApplyAll(st, ops).down == st.down
    ensures Safe(st) ==> AlwaysSafe(st, ops)
    decreases |ops|
  {
    if ops != [] {
      assert Neutral(ops[0]);
      NeutralKeeps(Apply(st, ops[0]), ops[1..]);
    }
  }

  lemma {:induction false} ExportsNeutral(volumes: seq<string>, exits: seq<Exit>)
    requires |volumes| == |exits|
    ensures forall i :: 0 <= i < |Exports(volumes, exits)| ==> Exports(volumes, exits)[i].Export?
  {
    if volumes != [] {
      ExportsNeutral(volumes[1..], exits[1..]);
    }
  }

  /** What a whole backup leaves behind, whatever failed along the way. */
  lemma BackupLeaves(st: Stack, volumes: seq<string>, stopFirst: bool, env: Env)
    requires |volumes| == |env.exports|
    ensures var after := ApplyAll(st, Program(volumes, stopFirst, env));
      && (!stopFirst ==> after.marker == st.marker && after.down == st.down)
      && (stopFirst ==>
            && after.down == env.stop.Interrupted?
            && after.marker == (!env.stop.Interrupted? && env.start.Interrupted?))
  {
    var opening, body, closing := Opening(stopFirst), Body(volumes, stopFirst, env), Closing(stopFirst, env);
    ExportsNeutral(volumes, env.exports);
    var stopping := ApplyAll(st, opening);
    ApplyConcat(st, opening + body, closing);
    ApplyConcat(st, opening, body);
    NeutralKeeps(stopping, body);
    var tried := ApplyAll(stopping, body);
    ClosingLeaves(tried, stopFirst, env);
    Unroll(st, opening);
  }

  /** Up to three operations, one by one. */
  lemma Unroll(st: Stack, ops: seq<Op>)
    requires |ops| <= 3
    ensures var s1 := if |ops| > 0 then Apply(st, ops[0]) else st;
      var s2 := if |ops| > 1 then Apply(s1, ops[1]) else s1;
      var s3 := if |ops| > 2 then Apply(s2, ops[2]) else s2;
      ApplyAll(st, ops) == s3 && (AlwaysSafe(st, ops) <==> Safe(st) && Safe(s1) && Safe(s2) && Safe(s3))
  {
    if |ops| > 0 {
      var s1, tail := Apply(st, ops[0]), ops[1..];
      assert ApplyAll(st, ops) == ApplyAll(s1, tail) && (AlwaysSafe(st, ops) <==> Safe(st) && AlwaysSafe(s1, tail));
      if |tail| > 0 {
        var s2, last := Apply(s1, tail[0]), tail[1..];
        assert ApplyAll(s1, tail) == ApplyAll(s2, last) && (AlwaysSafe(s1, tail) <==> Safe(s1) && AlwaysSafe(s2, last));
        if |last| > 0 {
          assert last[1..] == [];
          assert ApplyAll(s2, last) == Apply(s2, last[0]);
          assert AlwaysSafe(s2, last) <==> Safe(s2) && AlwaysSafe(Apply(s2, last[0]), []);
        }
      }
    }
  }

  lemma ClosingLeaves(st: Stack, stopFirst: bool, env: Env)
    ensures var restarts := stopFirst && !env.stop.Interrupted?;
      var after := ApplyAll(st, Closing(stopFirst, env));
      && after.down == (st.down && !restarts)
      && after.marker == (st.marker && (!stopFirst || (restarts && env.start.Interrupted?)))
    ensures Safe(st) && !(stopFirst && env.stop.Interrupted? && st.down) ==> AlwaysSafe(st, Closing(stopFirst, env))
  {
    Unroll(st, Closing(stopFirst, env));
  }

  lemma {:induction false} ExportsChangeNothing(st: Stack, ops: seq<Op>)
    requires forall i :: 0 <= i < |ops| ==> ops[i].Export?
    ensures ApplyAll(st, ops) == st
    decreases |ops|
  {
    if ops != [] {
      assert Apply(st, ops[0]) == st;
      ExportsChangeNothing(st, ops[1..]);
    }
  }

  /**
   What a backup leaves on disk: its archive exactly when every export and tar succeeded and
   tar wrote something.  The one broken archive left behind is that of a run whose start is
   interrupted, which never comes to discard it.
   */
  lemma ArchiveLeftIffGood(st: Stack, volumes: seq<string>, stopFirst: bool, env: Env)
    requires |volumes| == |env.exports| && !st.archive
    ensures ApplyAll(st, Program(volumes, stopFirst, env)).archive <==>
      && !(stopFirst && env.stop.Interrupted?) && env.staging
      && (forall i :: 0 <= i < |env.exports| ==> env.exports[i].Good?) && env.destFree
      && ((env.archive.Good? && env.size > 0) || (stopFirst && env.start.Interrupted?))
  {
    var opening, body, closing := Opening(stopFirst), Body(volumes, stopFirst, env), Closing(stopFirst, env);
    var exports := Exports(volumes, env.exports);
    ApplyConcat(st, opening + body, closing);
    ApplyConcat(st, opening, body);
    var stopping := ApplyAll(st, opening);
    Unroll(st, opening);
    ExportsNeutral(volumes, env.exports);
    ExportsChangeNothing(stopping, exports);
    ApplyConcat(stopping, exports, [Reserve, Archive]);
    Unroll(stopping, [Reserve, Archive]);
    assert exports + [] == exports;
    Unroll(ApplyAll(stopping, body), closing);
  }

  /** Which operations a backup issues, besides the exports. */
  lemma JournalSays(volumes: seq<string>, stopFirst: bool, env: Env, op: Op)
    requires |volumes| == |env.exports| && !op.Export?
    ensures var stopped := stopFirst && !env.stop.Interrupted?;
      var reserved := !(stopFirst && env.stop.Interrupted?) && env.staging && env.destFree
                      && (forall i :: 0 <= i < |env.exports| ==> env.exports[i].Good?);
      op in Program(volumes, stopFirst, env) <==>
      match op
      case WriteMarker => stopFirst
      case Stop => stopFirst
      case Reserve => reserved
      case Archive => reserved
      case Start => stopped
      case Discard => reserved && !(env.archive.Good? && env.size > 0) && !(stopped && env.start.Interrupted?)
      case ClearMarker => stopFirst && !(stopped && env.start.Interrupted?)
      case Export(_) => false
  {
    BodyHolds(volumes, stopFirst, env, op);
    ClosingHolds(stopFirst, env, op);
    var opening, body, closing := Opening(stopFirst), Body(volumes, stopFirst, env), Closing(stopFirst, env);
    assert op in opening + body + closing <==> op in opening || op in body || op in closing;
  }

  lemma ClosingHolds(stopFirst: bool, env: Env, op: Op)
    ensures var stopped := stopFirst && !env.stop.Interrupted?;
      op in Closing(stopFirst, env) <==>
      || (op == Start && stopped)
      || (op == Discard && Reserved(stopFirst, env) && !Archived(stopFirst, env) && !(stopped && env.start.Interrupted?))
      || (op == ClearMarker && stopFirst && !(stopped && env.start.Interrupted?))
  {
  }

  lemma BodyHolds(volumes: seq<string>, stopFirst: bool, env: Env, op: Op)
    requires |volumes| == |env.exports|
    ensures op in Body(volumes, stopFirst, env) && !op.Export? <==> Reserved(stopFirst, env) && (op == Reserve || op == Archive)
  {
    ExportsNeutral(volumes, env.exports);
    var exports := Exports(volumes, env.exports);
    if op in exports {
      var i :| 0 <= i < |exports| && exports[i] == op;
    }
  }

  /** What is reported as archived is on disk, and the stack is up again and off the recovery list. */
  lemma GoodReportsAreTrue(st: Stack, volumes: seq<string>, stopFirst: bool, env: Env)
    requires |volumes| == |env.exports| && st == Stack(false, false, false)
    requires env.staging && env.destFree && (forall i :: 0 <= i < |env.exports| ==> env.exports[i].Good?)
    requires env.archive.Good? && env.size > 0 && (stopFirst ==> env.stop != Interrupted && env.start.Good?)
    ensures ApplyAll(st, Program(volumes, stopFirst, env)) == Stack(false, false, true)
  {
    ArchiveLeftIffGood(st, volumes, stopFirst, env);
    BackupLeaves(st, volumes, stopFirst, env);
  }

  /**
   A backup owes no start and leaves nothing unrecoverable at any point, unless control
   flow is raised inside the stop command.
   */
  lemma BackupIsCrashSafe(st: Stack, volumes: seq<string>, stopFirst: bool, env: Env)
    requires |volumes| == |env.exports| && Safe(st)
    requires !(stopFirst && env.stop.Interrupted?)
    ensures AlwaysSafe(st, Program(volumes, stopFirst, env))
  {
    var opening, body, closing := Opening(stopFirst), Body(volumes, stopFirst, env), Closing(stopFirst, env);
    ExportsNeutral(volumes, env.exports);
    var stopping := ApplyAll(st, opening);
    Unroll(st, opening);
    NeutralKeeps(stopping, body);
    SafeConcat(st, opening, body);
    ApplyConcat(st, opening, body);
    ClosingLeaves(ApplyAll(stopping, body), stopFirst, env);
    SafeConcat(st, opening + body, closing);
  }

  /**
   The promise is false of the code in exactly one case: the attempted stop raises, so
   the finally block skips the start and still removes the marker.
   */
  lemma StrandedIffStopInterrupted(st: Stack, volumes: seq<string>, env: Env)
    requires |volumes| == |env.exports|
    ensures !Safe(ApplyAll(st, Program(volumes, true, env))) <==> env.stop.Interrupted?
  {
    BackupLeaves(st, volumes, true, env);
  }

  // ---- recovery at startup ---------------------------------------------------------

  /** A leftover marker: whether it names a compose file, the stack is still listed, the unlink works. */
  datatype MarkerFile = MarkerFile(stack: string, recorded: bool, listed: bool, unlinks: bool)
  {
    predicate Known() { recorded || listed }
  }

  /** What recovery does for a leftover marker. */
  function Recovery(m: MarkerFile): seq<Op> {
    (if m.Known() then [Start] else []) + (if m.unlinks then [ClearMarker] else [])
  }

  datatype Issued = Issued(stack: string, op: Op)

  /** The operations on one stack, in order. */
  function Project(journal: seq<Issued>, stack: string): seq<Op> {
    if journal == [] then []
    else
      var last := journal[|journal| - 1];
      Project(journal[..|journal| - 1], stack) + if last.stack == stack then [last.op] else []
  }

  /** The recovery of the marker for `stack` among distinct markers. */
  function RecoveryOf(markers: seq<MarkerFile>, stack: string): seq<Op> {
    if markers == [] then []
    else
      var last := markers[|markers| - 1];
      RecoveryOf(markers[..|markers| - 1], stack) + if last.stack == stack then Recovery(last) else []
  }

  lemma ProjectAppend(journal: seq<Issued>, i: Issued, stack: string)
    ensures Project(journal + [i], stack) == Project(journal, stack) + if i.stack == stack then [i.op] else []
  {
    assert (journal + [i])[..|journal|] == journal;
  }

  /** What recovery issues for one marker. */
  method RecoverOne(journal: seq<Issued>, m: MarkerFile) returns (issued: seq<Issued>)
    ensures forall stack :: Project(issued, stack) == Project(journal, stack) + if m.stack == stack then Recovery(m) else []
  {
    issued := journal;
    if m.recorded || m.listed {
      forall stack { ProjectAppend(issued, Issued(m.stack, Start), stack); }
      issued := issued + [Issued(m.stack, Start)];
    }
    if m.unlinks {
      forall stack { ProjectAppend(issued, Issued(m.stack, ClearMarker), stack); }
      issued := issued + [Issued(m.stack, ClearMarker)];
    }
  }

  /** Once, at startup: every leftover marker gets its start and is then removed. */
  method RecoverInterruptedStackBackups(markers: seq<MarkerFile>) returns (issued: seq<Issued>)
    ensures forall stack :: Project(issued, stack) == RecoveryOf(markers, stack)
  {
    issued := [];
    var i := 0;
    while i < |markers|
      invariant 0 <= i <= |markers|
      invariant forall stack :: Project(issued, stack) == RecoveryOf(markers[..i], stack)
    {
      issued := RecoverOne(issued, markers[i]);
      assert markers[..i + 1][..i] == markers[..i];
      i := i + 1;
    }
    assert markers[..i] == markers;
  }

  /** Recovery pays the debt, and is safe to cut, exactly when the compose file can be found. */
  lemma RecoveryPays(st: Stack, m: MarkerFile)
    requires st.marker
    ensures ApplyAll(st, Recovery(m)).down == (st.down && !m.recorded && !m.listed)
    ensures AlwaysSafe(st, Recovery(m)) <==> !st.down || m.recorded || m.listed || !m.unlinks
  {
    Unroll(st, Recovery(m));
  }

  // ---- whole histories of one stack --------------------------------------------------

  datatype Segment =
    | Backup(volumes: seq<string>, stopFirst: bool, env: Env)
    | Scan(m: MarkerFile)
  {
    predicate WellFormed() {
      Backup? ==> |volumes| == |env.exports|
    }

    /** Control flow is not raised inside a stop, and a recovery finds the compose file. */
    predicate Sound() {
      if Backup? then !(stopFirst && env.stop.Interrupted?) else m.Known()
    }

    function Ops(st: Stack): seq<Op>
      requires WellFormed()
    {
      match this
      case Backup(volumes, stopFirst, env) => Program(volumes, stopFirst, env)
      case Scan(m) => if st.marker then Recovery(m) else []
    }
  }

  /** A segment, and how many of its operations happened before the process died. */
  datatype Life = Life(segment: Segment, until: nat)

  function Lived(st: Stack, life: Life): seq<Op>
    requires life.segment.WellFormed()
  {
    var ops := life.segment.Ops(st);
    ops[..if life.until < |ops| then life.until else |ops|]
  }

  ghost predicate History(lives: seq<Life>) {
    forall i :: 0 <= i < |lives| ==> lives[i].segment.WellFormed() && lives[i].segment.Sound()
  }

  function Ops(st: Stack, lives: seq<Life>): seq<Op>
    requires forall i :: 0 <= i < |lives| ==> lives[i].segment.WellFormed()
    decreases |lives|
  {
    if lives == [] then []
    else
      var ops := Lived(st, lives[0]);
      ops + Ops(ApplyAll(st, ops), lives[1..])
  }

  /** Over any history of backups and recoveries, each cut anywhere, the debt is always on disk. */
  lemma {:induction false} HistoryIsCrashSafe(st: Stack, lives: seq<Life>)
    requires Safe(st) && History(lives)
    ensures AlwaysSafe(st, Ops(st, lives)) && Safe(ApplyAll(st, Ops(st, lives)))
    decreases |lives|
  {
    if lives != [] {
      var segment, ops := lives[0].segment, Lived(st, lives[0]);
      match segment {
        case Backup(volumes, stopFirst, env) => BackupIsCrashSafe(st, volumes, stopFirst, env);
        case Scan(m) => if st.marker { RecoveryPays(st, m); }
      }
      SafeAtEveryCut(st, segment.Ops(st), |ops|);
      HistoryIsCrashSafe(ApplyAll(st, ops), lives[1..]);
      SafeConcat(st, ops, Ops(ApplyAll(st, ops), lives[1..]));
      ApplyConcat(st, ops, Ops(ApplyAll(st, ops), lives[1..]));
    }
  }

  /** After a completed recovery scan, or a completed stopping backup, the stack owes no start. */
  lemma CompletedSegmentOwesNothing(st: Stack, lives: seq<Life>, segment: Segment)
    requires Safe(st) && History(lives) && segment.WellFormed() && segment.Sound()
    requires segment.Backup? ==> segment.stopFirst
    ensures var before := ApplyAll(st, Ops(st, lives)); !ApplyAll(before, segment.Ops(before)).down
  {
    HistoryIsCrashSafe(st, lives);
    var before := ApplyAll(st, Ops(st, lives));
    match segment {
      case Backup(volumes, stopFirst, env) => BackupLeaves(before, volumes, stopFirst, env);
      case Scan(m) => if before.marker { RecoveryPays(before, m); }
    }
  }

  // ---- many stacks, one marker directory ---------------------------------------------

  const PREFIX := "stack-backup-inflight-"

  function MarkerName(stack: string): string {
    PREFIX + stack
  }

  /**
   What outlives the process: the marker files of the one data directory, each with the
   stack recorded in it, the stacks that owe a start, and the archives.
   */
  datatype Machine = Machine(files: map<string, string>, down: set<string>, archives: set<string>)

  function Issue(m: Machine, i: Issued): Machine {
    match i.op
    case WriteMarker => m.(files := m.files[MarkerName(i.stack) := i.stack])
    case ClearMarker => m.(files := m.files - {MarkerName(i.stack)})
    case Stop => m.(down := m.down + {i.stack})
    case Start => m.(down := m.down - {i.stack})
    case Reserve => m.(archives := m.archives + {i.stack})
    case Discard => m.(archives := m.archives - {i.stack})
    case _ => m
  }

  function IssueAll(m: Machine, journal: seq<Issued>): Machine
    decreases |journal|
  {
    if journal == [] then m else Issue(IssueAll(m, journal[..|journal| - 1]), journal[|journal| - 1])
  }

  /** One stack as the machine holds it. */
  function View(m: Machine, stack: string): Stack {
    Stack(MarkerName(stack) in m.files, stack in m.down, stack in m.archives)
  }

  /** Two stacks never share a marker file. */
  lemma MarkersAreApart(a: string, b: string)
    ensures MarkerName(a) == MarkerName(b) ==> a == b
  {
    assert MarkerName(a)[|PREFIX|..] == a && MarkerName(b)[|PREFIX|..] == b;
  }

  lemma IssueIsLocal(m: Machine, i: Issued, stack: string)
    ensures View(Issue(m, i), stack) == if i.stack == stack then Apply(View(m, stack), i.op) else View(m, stack)
  {
    MarkersAreApart(i.stack, stack);
  }

  /** Stacks do not interfere through the shared directory: each sees its own operations only. */
  lemma {:induction false} StacksDoNotInterfere(m: Machine, journal: seq<Issued>, stack: string)
    ensures View(IssueAll(m, journal), stack) == ApplyAll(View(m, stack), Project(journal, stack))
    decreases |journal|
  {
    if journal != [] {
      var n := |journal| - 1;
      var last := journal[n];
      StacksDoNotInterfere(m, journal[..n], stack);
      IssueIsLocal(IssueAll(m, journal[..n]), last, stack);
      if last.stack == stack {
        var before := ApplyAll(View(m, stack), Project(journal[..n], stack));
        ApplyConcat(View(m, stack), Project(journal[..n], stack), [last.op]);
        assert [last.op][1..] == [];
        assert ApplyAll(before, [last.op]) == Apply(before, last.op);
      } else {
        assert Project(journal[..n], stack) + [] == Project(journal[..n], stack);
      }
    }
  }

  lemma {:induction false} ProjectPrefix(journal: seq<Issued>, k: nat, stack: string)
    requires k <= |journal|
    ensures Project(journal[..k], stack) <= Project(journal, stack)
  {
    if k < |journal| {
      var n := |journal| - 1;
      ProjectPrefix(journal[..n], k, stack);
      assert journal[..n][..k] == journal[..k];
    } else {
      assert journal[..k] == journal;
    }
  }

  /** What a stack still owes has its marker file in the directory. */
  ghost predicate DebtsOnDisk(m: Machine) {
    forall stack :: stack in m.down ==> MarkerName(stack) in m.files
  }

  lemma StackIsCrashSafe(m: Machine, journal: seq<Issued>, lives: seq<Life>, stack: string, k: nat)
    requires Safe(View(m, stack)) && History(lives) && k <= |journal|
    requires Project(journal, stack) <= Ops(View(m, stack), lives)
    ensures Safe(View(IssueAll(m, journal[..k]), stack))
  {
    HistoryIsCrashSafe(View(m, stack), lives);
    ProjectPrefix(journal, k, stack);
    StacksDoNotInterfere(m, journal[..k], stack);
    var cut := |Project(journal[..k], stack)|;
    SafeAtEveryCut(View(m, stack), Ops(View(m, stack), lives), cut);
    assert Ops(View(m, stack), lives)[..cut] == Project(journal[..k], stack);
  }

  /**
   Backups and recoveries of any number of stacks, interleaved at will over one directory
   and cut anywhere: every stack that owes a start has its marker file on disk.
   */
  lemma InterleavingIsCrashSafe(m: Machine, journal: seq<Issued>, lives: string -> seq<Life>, k: nat)
    requires DebtsOnDisk(m) && k <= |journal|
    requires forall stack :: History(lives(stack)) && Project(journal, stack) <= Ops(View(m, stack), lives(stack))
    ensures DebtsOnDisk(IssueAll(m, journal[..k]))
  {
    forall stack | stack in IssueAll(m, journal[..k]).down
      ensures MarkerName(stack) in IssueAll(m, journal[..k]).files
    {
      StackIsCrashSafe(m, journal, lives(stack), stack, k);
    }
  }

  // ---- the startup scan over the directory ----------------------------------------------

  /** Every marker file was written for the stack it is named after. */
  ghost predicate Honest(m: Machine) {
    forall name :: name in m.files ==> name == MarkerName(m.files[name])
  }

  lemma {:induction false} HonestStays(m: Machine, journal: seq<Issued>)
    requires Honest(m)
    ensures Honest(IssueAll(m, journal))
    decreases |journal|
  {
    if journal != [] {
      HonestStays(m, journal[..|journal| - 1]);
    }
  }

  /** The markers a scan finds: one for each file of the directory, for the stack recorded in it. */
  ghost predicate Listing(m: Machine, markers: seq<MarkerFile>) {
    && (forall i, j :: 0 <= i < j < |markers| ==> markers[i].stack != markers[j].stack)
    && (forall stack :: MarkerName(stack) in m.files <==> exists i :: 0 <= i < |markers| && markers[i].stack == stack)
  }

  /** An honest directory has such a listing: reading each file's stack names no stack twice and misses none. */
  lemma HonestFilesListStacks(m: Machine, names: seq<string>, markers: seq<MarkerFile>)
    requires Honest(m) && |names| == |markers|
    requires (forall i, j :: 0 <= i < j < |names| ==> names[i] != names[j]) && forall name :: name in names <==> name in m.files
    requires forall i :: 0 <= i < |names| ==> names[i] in m.files && markers[i].stack == m.files[names[i]]
    ensures Listing(m, markers)
  {
    forall stack
      ensures MarkerName(stack) in m.files <==> exists i :: 0 <= i < |markers| && markers[i].stack == stack
    {
      if MarkerName(stack) in m.files {
        MarkersAreApart(m.files[MarkerName(stack)], stack);
        var i :| 0 <= i < |names| && names[i] == MarkerName(stack);
        assert markers[i].stack == stack;
      }
      if i :| 0 <= i < |markers| && markers[i].stack == stack {
        assert names[i] == MarkerName(stack);
      }
    }
  }

  lemma {:induction false} RecoveryOfOne(markers: seq<MarkerFile>, i: nat)
    requires i < |markers| && forall a, b :: 0 <= a < b < |markers| ==> markers[a].stack != markers[b].stack
    ensures RecoveryOf(markers, markers[i].stack) == Recovery(markers[i])
  {
    var n := |markers| - 1;
    if i == n {
      RecoveryOfNone(markers[..n], markers[n].stack);
    } else {
      RecoveryOfOne(markers[..n], i);
    }
  }

  lemma {:induction false} RecoveryOfNone(markers: seq<MarkerFile>, stack: string)
    requires forall i :: 0 <= i < |markers| ==> markers[i].stack != stack
    ensures RecoveryOf(markers, stack) == []
  {
    if markers != [] {
      RecoveryOfNone(markers[..|markers| - 1], stack);
    }
  }

  /** A completed scan over the directory leaves no stack owing, however many had been cut short. */
  lemma ScanSettlesAll(m: Machine, markers: seq<MarkerFile>, issued: seq<Issued>)
    requires DebtsOnDisk(m) && Listing(m, markers)
    requires forall i :: 0 <= i < |markers| ==> markers[i].Known()
    requires forall stack :: Project(issued, stack) == RecoveryOf(markers, stack)
    ensures IssueAll(m, issued).down == {}
  {
    forall stack
      ensures stack !in IssueAll(m, issued).down
    {
      StacksDoNotInterfere(m, issued, stack);
      if MarkerName(stack) in m.files {
        var i :| 0 <= i < |markers| && markers[i].stack == stack;
        RecoveryOfOne(markers, i);
        RecoveryPays(View(m, stack), markers[i]);
      } else {
        RecoveryOfNone(markers, stack);
      }
    }
  }
}
