/**
 How old an answer of the listener snapshot can be (hub/adaptive.py), said about the steps
 of an interleaving and the clock readings they made.
 */
module LsofFreshness {
  import opened Options
  import opened LsofCache

  /** The step at which a thread last found nothing fresh to answer and set out to probe. */
  function LastRecheck(acts: seq<Action>, tid: nat): Option<nat> {
    if acts == [] then None
    else
      var n := |acts| - 1;
      if acts[n].Recheck? && acts[n].tid == tid then Some(n) else LastRecheck(acts[..n], tid)
  }

  /** No invalidate after step `from`. */
  predicate Quiet(acts: seq<Action>, from: nat) {
    forall i :: from < i < |acts| ==> !acts[i].Invalidate?
  }

  /** Step m, the last one, puts rows into memory: nothing was invalidated since its thread set out. */
  predicate Stores(acts: seq<Action>) {
    acts != [] &&
    var n := |acts| - 1;
    acts[n].Publish? &&
    var r := LastRecheck(acts[..n], acts[n].tid);
    r.Some? && Quiet(acts, r.value)
  }

  /** The step that put into memory what is there. */
  function Latest(acts: seq<Action>): (m: Option<nat>)
    ensures m.Some? ==> m.value < |acts| && acts[m.value].Publish?
  {
    if acts == [] then None
    else if acts[|acts| - 1].Invalidate? then None
    else if Stores(acts) then Some(|acts| - 1)
    else Latest(acts[..|acts| - 1])
  }

  // ---- generations count invalidates ---------------------------------------------------

  /** The generation a refresh read is still the current one exactly while nothing was invalidated since. */
  ghost predicate ReadMeans(s: State, acts: seq<Action>, tid: nat) {
    var pc := PcOf(s, tid);
    pc.Armed? || pc.Probing? || pc.Probed? ==>
      && LastRecheck(acts, tid).Some? && pc.gen <= s.sh.generation
      && (pc.gen == s.sh.generation <==> Quiet(acts, LastRecheck(acts, tid).value))
  }

  lemma QuietStep(acts: seq<Action>, from: nat)
    requires acts != [] && from < |acts|
    ensures var n := |acts| - 1;
      Quiet(acts, from) <==> from == n || (Quiet(acts[..n], from) && !acts[n].Invalidate?)
  {
    var n := |acts| - 1;
    assert forall i :: 0 <= i < n ==> acts[..n][i] == acts[i];
  }

  lemma {:induction false} LastRecheckBound(acts: seq<Action>, tid: nat)
    ensures LastRecheck(acts, tid).Some? ==> LastRecheck(acts, tid).value < |acts|
  {
    if acts != [] {
      LastRecheckBound(acts[..|acts| - 1], tid);
    }
  }

  lemma ReadMeansStep(acts: seq<Action>, tid: nat)
    requires acts != [] && Legal(acts) && ReadMeans(After(acts[..|acts| - 1]), acts[..|acts| - 1], tid)
    ensures ReadMeans(After(acts), acts, tid)
  {
    var n := |acts| - 1;
    var s, s' := After(acts[..n]), After(acts);
    LastRecheckBound(acts[..n], tid);
    if LastRecheck(acts, tid).Some? {
      QuietStep(acts, LastRecheck(acts, tid).value);
    }
    if acts[n].Invalidate? || acts[n].tid != tid {
      assert PcOf(s', tid) == PcOf(s, tid);
    }
  }

  lemma {:induction false} ReadsMean(acts: seq<Action>, tid: nat)
    requires Legal(acts)
    ensures ReadMeans(After(acts), acts, tid)
  {
    if acts != [] {
      ReadsMean(acts[..|acts| - 1], tid);
      ReadMeansStep(acts, tid);
    }
  }

  // ---- what is in memory ------------------------------------------------------------------

  lemma StoresMeans(acts: seq<Action>)
    requires acts != [] && Legal(acts)
    ensures var n := |acts| - 1;
      var s := After(acts[..n]);
      acts[n].Publish? ==> (Stores(acts) <==> PcOf(s, acts[n].tid).gen == s.sh.generation)
  {
    var n := |acts| - 1;
    if acts[n].Publish? {
      ReadsMean(acts[..n], acts[n].tid);
      LastRecheckBound(acts[..n], acts[n].tid);
      if LastRecheck(acts[..n], acts[n].tid).Some? {
        QuietStep(acts, LastRecheck(acts[..n], acts[n].tid).value);
      }
    }
  }

  lemma {:induction false} PrefixIsLegal(acts: seq<Action>, n: nat)
    requires Legal(acts) && n <= |acts|
    ensures Legal(acts[..n])
  {
    if n < |acts| {
      assert acts[..|acts| - 1][..n] == acts[..n];
      PrefixIsLegal(acts[..|acts| - 1], n);
    } else {
      assert acts[..n] == acts;
    }
  }

  /** What a publish at step m brought, and when. */
  ghost predicate Brought(acts: seq<Action>, m: nat, t: real, rows: Rows) {
    && m < |acts| && acts[m].Publish? && acts[m].now == t && Legal(acts[..m])
    && PcOf(After(acts[..m]), acts[m].tid).Probed? && PcOf(After(acts[..m]), acts[m].tid).rows == rows
  }

  /** Memory holds what the latest step to store something brought, with that step's clock reading. */
  lemma {:induction false} MemoryIsLatest(acts: seq<Action>)
    requires Legal(acts)
    ensures var sh := After(acts).sh;
      match Latest(acts)
      case None => sh.v.None?
      case Some(m) => sh.v.Some? && Brought(acts, m, sh.t, sh.v.value)
  {
    if acts != [] {
      var n := |acts| - 1;
      MemoryIsLatest(acts[..n]);
      StoresMeans(acts);
      var m := Latest(acts[..n]);
      if m.Some? {
        assert acts[..n][..m.value] == acts[..m.value] && acts[..n][m.value] == acts[m.value];
      }
    }
  }

  // ---- the five seconds -----------------------------------------------------------------------

  /**
   A call that looks at memory answers from it exactly when what is there was published less
   than five seconds of the clock before; otherwise it goes on to the refresh lock, and with
   the lock in hand to a probe.
   */
  lemma AnswersAreYoung(acts: seq<Action>, tid: nat, now: real)
    requires acts != [] && Legal(acts)
    requires acts[|acts| - 1] == FirstCheck(tid, now) || acts[|acts| - 1] == Recheck(tid, now)
    ensures var n := |acts| - 1;
      var m, pc := Latest(acts[..n]), PcOf(After(acts), tid);
      if m.Some? && now - acts[m.value].now < 5.0
      then (if acts[n].FirstCheck? then pc.Returned? else pc.Leaving?) && Brought(acts[..n], m.value, acts[m.value].now, pc.rows)
      else if acts[n].FirstCheck? then pc.Waiting? else pc.Armed?
  {
    var n := |acts| - 1;
    MemoryIsLatest(acts[..n]);
  }

  // ---- as it happens -----------------------------------------------------------------------------

  lemma RunExtends(acts: seq<Action>, a: Action)
    requires Legal(acts) && Enabled(After(acts), a)
    ensures Legal(acts + [a]) && After(acts + [a]) == Step(After(acts), a)
  {
    assert (acts + [a])[..|acts|] == acts;
  }

  /** One call that finds memory empty and refreshes it. */
  lemma Refresh(t: nat, now: real, listing: seq<Row>) returns (acts: seq<Action>)
    ensures Legal(acts) && After(acts).clock == 8
    ensures After(acts).sh.v.Some? && After(acts).sh.v.value.listing == listing && After(acts).sh.t == now
    ensures PcOf(After(acts), t).Returned? && forall other: nat :: other != t ==> PcOf(After(acts), other).Idle?
  {
    acts := [];
    RunExtends(acts, Begin(t));
    acts := acts + [Begin(t)];
    RunExtends(acts, FirstCheck(t, now));
    acts := acts + [FirstCheck(t, now)];
    RunExtends(acts, Acquire(t));
    acts := acts + [Acquire(t)];
    RunExtends(acts, Recheck(t, now));
    acts := acts + [Recheck(t, now)];
    RunExtends(acts, StartProbe(t));
    acts := acts + [StartProbe(t)];
    RunExtends(acts, EndProbe(t, listing));
    acts := acts + [EndProbe(t, listing)];
    RunExtends(acts, Publish(t, now));
    acts := acts + [Publish(t, now)];
    RunExtends(acts, Release(t));
    acts := acts + [Release(t)];
  }

  /** The rows one call published answer any thread's next call within five seconds, its own too, and none a second later. */
  lemma RowsAreShared(listing: seq<Row>, t: nat) returns (young: seq<Action>, late: seq<Action>)
    ensures Legal(young) && PcOf(After(young), t).Returned? && PcOf(After(young), t).rows.listing == listing
    ensures After(young).clock == 10 && PcOf(After(young), t).call.began == 8
    ensures Legal(late) && PcOf(After(late), t).Waiting?
  {
    var acts := Refresh(0, 100.0, listing);
    RunExtends(acts, Begin(t));
    RunExtends(acts + [Begin(t)], FirstCheck(t, 104.0));
    RunExtends(acts + [Begin(t)], FirstCheck(t, 105.0));
    young, late := acts + [Begin(t)] + [FirstCheck(t, 104.0)], acts + [Begin(t)] + [FirstCheck(t, 105.0)];
  }
}
