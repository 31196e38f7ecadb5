/**
 The login limiter (hub/auth.py): at most five attempts per client in a sliding window of
 five minutes, with a table that forgets stale clients once it grows.
 */
module LoginLimiter {
  import opened Options

  const WINDOW: real := 300.0
  const SWEEP_AT: nat := 512
  const CAP: nat := 5

  type Table = map<string, seq<real>>

  datatype Answer = Answer(allowed: bool, wait: int)

  function Bucket(table: Table, client: string): seq<real> {
    Get(table, client).GetOr([])
  }

  predicate Stale(t: real, now: real) {
    now - t >= WINDOW
  }

  /** The attempts still inside the window. */
  function Fresh(attempts: seq<real>, now: real): seq<real> {
    if attempts == [] then []
    else
      var n := |attempts| - 1;
      Fresh(attempts[..n], now) + if Stale(attempts[n], now) then [] else [attempts[n]]
  }

  predicate Forgotten(attempts: seq<real>, now: real) {
    attempts == [] || Stale(attempts[|attempts| - 1], now)
  }

  /** `_sweep_login_attempts` */
  function Swept(table: Table, now: real): Table {
    if |table| <= SWEEP_AT then table
    else map client | client in table && !Forgotten(table[client], now) :: table[client]
  }

  /** One client's visit: its bucket pruned, and its slot taken if one is free. */
  function Visit(bucket: seq<real>, consume: bool, now: real): (seq<real>, Answer) {
    var attempts := Fresh(bucket, now);
    if |attempts| >= CAP then
      var left := (WINDOW - (now - attempts[0])).Floor;
      (attempts, Answer(false, if left > 1 then left else 1))
    else (if consume then attempts + [now] else attempts, Answer(true, 0))
  }

  /** `login_allowed` after its sweep: an empty bucket is not kept. */
  function Asked(table: Table, client: string, consume: bool, now: real): (Table, Answer) {
    var (bucket, answer) := Visit(Bucket(table, client), consume, now);
    (if bucket != [] then table[client := bucket] else table - {client}, answer)
  }

  function Released(table: Table, client: string): Table {
    var attempts := Bucket(table, client);
    if attempts == [] then table
    else if |attempts| == 1 then table - {client}
    else table[client := attempts[..|attempts| - 1]]
  }

  function Recorded(table: Table, client: string, now: real): Table {
    table[client := Bucket(table, client) + [now]]
  }

  /** The attempts of a bucket that are younger than the window, in order. */
  method Recent(bucket: seq<real>, now: real) returns (attempts: seq<real>)
    ensures attempts == Fresh(bucket, now)
  {
    attempts := [];
    var i := 0;
    while i < |bucket|
      invariant 0 <= i <= |bucket| && attempts == Fresh(bucket[..i], now)
    {
      assert bucket[..i + 1][..i] == bucket[..i];
      if now - bucket[i] < WINDOW {
        attempts := attempts + [bucket[i]];
      }
      i := i + 1;
    }
    assert bucket[..i] == bucket;
  }

  class Limiter {
    var table: Table

    constructor ()
      ensures table == map[]
    {
      table := map[];
    }

    method SweepLoginAttempts(now: real)
      modifies this
      ensures table == Swept(old(table), now)
      ensures |old(table)| <= 512 ==> table == old(table)
      ensures |old(table)| > 512 ==> forall client :: client in table <==>
        client in old(table) && old(table)[client] != [] && now - old(table)[client][|old(table)[client]| - 1] < 300.0
    {
      if |table| <= SWEEP_AT {
        return;
      }
      var todo := table.Keys;
      while todo != {}
        invariant todo <= old(table).Keys
        invariant table == map client |
                    client in old(table) && (client in todo || !Forgotten(old(table)[client], now)) :: old(table)[client]
        decreases |todo|
      {
        var client :| client in todo;
        var attempts := table[client];
        if attempts == [] || now - attempts[|attempts| - 1] >= WINDOW {
          table := table - {client};
        }
        todo := todo - {client};
      }
    }

    method LoginAllowed(client: string, consume: bool, now: real) returns (answer: Answer)
      modifies this
      ensures (table, answer) == Asked(Swept(old(table), now), client, consume, now)
    {
      SweepLoginAttempts(now);
      ghost var swept := table;
      var attempts := Recent(Bucket(table, client), now);
      if attempts != [] {
        table := table[client := attempts];
      } else {
        table := table - {client};
      }
      if |attempts| >= CAP {
        var left := (WINDOW - (now - attempts[0])).Floor;
        return Answer(false, if left > 1 then left else 1);
      }
      if consume {
        table := table[client := Bucket(table, client) + [now]];
        assert table == swept[client := attempts + [now]];
      }
      answer := Answer(true, 0);
    }

    method ReleaseLoginReservation(client: string)
      modifies this
      ensures table == Released(old(table), client)
    {
      if client !in table || table[client] == [] {
        return;
      }
      var attempts := table[client];
      attempts := attempts[..|attempts| - 1];
      table := table[client := attempts];
      if attempts == [] {
        table := table - {client};
      }
    }

    method RecordLoginFailure(client: string, now: real)
      modifies this
      ensures table == Recorded(old(table), client, now)
    {
      if client !in table {
        table := table[client := []];
      }
      table := table[client := table[client] + [now]];
    }

    method ClearLoginFailures(client: string)
      modifies this
      ensures table == old(table) - {client}
    {
      table := table - {client};
    }
  }

  // ---- runs ------------------------------------------------------------------------------

  datatype Op =
    | Ask(client: string, consume: bool, now: real)
    | Release(client: string)
    | Record(client: string, now: real)
    | Clear(client: string)

  /** The table, the clock's last reading, and every answer given. */
  datatype State = State(table: Table, clock: real, answers: seq<Answer>)

  /** The clock never steps back. */
  predicate Enabled(s: State, op: Op) {
    op.Ask? || op.Record? ==> op.now >= s.clock
  }

  function Step(s: State, op: Op, sweeping: bool): State {
    match op
    case Ask(client, consume, now) =>
      var (table, answer) := Asked(if sweeping then Swept(s.table, now) else s.table, client, consume, now);
      State(table, now, s.answers + [answer])
    case Release(client) => s.(table := Released(s.table, client))
    case Record(client, now) => s.(table := Recorded(s.table, client, now), clock := now)
    case Clear(client) => s.(table := s.table - {client})
  }

  /** A run from an empty table; `sweeping` says whether the table ever forgets clients by itself. */
  function Run(start: real, ops: seq<Op>, sweeping: bool): Option<State>
    decreases |ops|
  {
    if ops == [] then Some(State(map[], start, []))
    else
      var n := |ops| - 1;
      match Run(start, ops[..n], sweeping)
      case None => None
      case Some(s) => if Enabled(s, ops[n]) then Some(Step(s, ops[n], sweeping)) else None
  }

  /** The reading an operation makes of the clock, if it makes one. */
  function ReadingOf(op: Op): Option<real> {
    match op
    case Ask(_, _, now) => Some(now)
    case Record(_, now) => Some(now)
    case _ => None
  }

  /** The clock's last reading. */
  function LastReading(start: real, ops: seq<Op>): real {
    if ops == [] then start
    else ReadingOf(ops[|ops| - 1]).GetOr(LastReading(start, ops[..|ops| - 1]))
  }

  /** No operation reads the clock earlier than the one before. */
  predicate Steady(start: real, ops: seq<Op>) {
    forall i :: 0 <= i < |ops| && ReadingOf(ops[i]).Some? ==> ReadingOf(ops[i]).value >= LastReading(start, ops[..i])
  }

  lemma SteadyStep(start: real, ops: seq<Op>)
    requires ops != []
    ensures var n := |ops| - 1;
      Steady(start, ops) <==>
        Steady(start, ops[..n]) && (ReadingOf(ops[n]).Some? ==> ReadingOf(ops[n]).value >= LastReading(start, ops[..n]))
  {
    var n := |ops| - 1;
    assert forall i :: 0 <= i < n ==> ops[..n][i] == ops[i] && ops[..n][..i] == ops[..i];
  }

  /** Every mix of operations is a run, as long as the clock does not step back. */
  lemma {:induction false} RunsAre(start: real, ops: seq<Op>, sweeping: bool)
    ensures Run(start, ops, sweeping).Some? <==> Steady(start, ops)
    ensures Run(start, ops, sweeping).Some? ==> Run(start, ops, sweeping).value.clock == LastReading(start, ops)
    decreases |ops|
  {
    if ops != [] {
      var n := |ops| - 1;
      RunsAre(start, ops[..n], sweeping);
      SteadyStep(start, ops);
      if Run(start, ops[..n], sweeping).Some? {
        ClockMoves(Run(start, ops[..n], sweeping).value, ops[n], sweeping);
      }
    }
  }

  lemma ClockMoves(s: State, op: Op, sweeping: bool)
    ensures Step(s, op, sweeping).clock == ReadingOf(op).GetOr(s.clock)
    ensures Enabled(s, op) <==> (ReadingOf(op).Some? ==> ReadingOf(op).value >= s.clock)
  {
  }

  // ---- trails ------------------------------------------------------------------------------

  ghost predicate Ordered(a: seq<real>, now: real) {
    (forall i, j :: 0 <= i < j < |a| ==> a[i] <= a[j]) && forall i :: 0 <= i < |a| ==> a[i] <= now
  }

  /** `kept` is what is left of `full` after some stale attempts at its front were dropped. */
  ghost predicate Trails(full: seq<real>, kept: seq<real>, now: real) {
    && Ordered(full, now) && |kept| <= |full| && full[|full| - |kept|..] == kept
    && forall i :: 0 <= i < |full| - |kept| ==> Stale(full[i], now)
  }

  /** In an ordered list the recent attempts are a suffix. */
  lemma {:induction false} FreshIsSuffix(a: seq<real>, now: real)
    requires Ordered(a, now)
    ensures Trails(a, Fresh(a, now), now)
    ensures Fresh(a, now) != [] ==> !Stale(Fresh(a, now)[0], now)
  {
    if a != [] {
      var n := |a| - 1;
      FreshIsSuffix(a[..n], now);
      if Stale(a[n], now) {
        NewestIsStale(a, now);
        AllStale(a[..n], now);
      } else {
        SuffixGrows(a, Fresh(a[..n], now), now);
      }
    }
  }

  lemma {:induction false} AllStale(a: seq<real>, now: real)
    requires forall i :: 0 <= i < |a| ==> Stale(a[i], now)
    ensures Fresh(a, now) == []
  {
    if a != [] {
      AllStale(a[..|a| - 1], now);
    }
  }

  lemma SuffixGrows(a: seq<real>, before: seq<real>, now: real)
    requires a != [] && Ordered(a, now) && !Stale(a[|a| - 1], now)
    requires Trails(a[..|a| - 1], before, now) && (before != [] ==> !Stale(before[0], now))
    ensures var after := before + [a[|a| - 1]];
      Trails(a, after, now) && !Stale(after[0], now)
  {
    var n := |a| - 1;
    assert a[n - |before|..] == a[..n][n - |before|..] + [a[n]];
  }

  /** Stale attempts at the front leave the window as it is. */
  lemma {:induction false} DropStale(full: seq<real>, d: nat, now: real)
    requires d <= |full| && forall i :: 0 <= i < d ==> Stale(full[i], now)
    ensures Fresh(full, now) == Fresh(full[d..], now)
    decreases |full|
  {
    var n := |full| - 1;
    if d <= n {
      assert full[..n][d..] == full[d..][..n - d];
      DropStale(full[..n], d, now);
    } else if full != [] {
      assert full[d..] == [] && full[..n][n..] == [];
      DropStale(full[..n], n, now);
    }
  }

  /** The window sees the same attempts whether or not stale ones were dropped before. */
  lemma TrailsSameFresh(full: seq<real>, kept: seq<real>, before: real, now: real)
    requires Trails(full, kept, before) && before <= now
    ensures Fresh(full, now) == Fresh(kept, now)
    ensures Trails(full, Fresh(kept, now), now)
  {
    DropStale(full, |full| - |kept|, now);
    FreshIsSuffix(full, now);
  }

  lemma TrailsAppend(full: seq<real>, kept: seq<real>, before: real, now: real)
    requires Trails(full, kept, before) && before <= now
    ensures Trails(full + [now], kept + [now], now)
  {
  }

  lemma TrailsDrop(full: seq<real>, kept: seq<real>, now: real)
    requires Trails(full, kept, now) && full != []
    ensures Trails(full[..|full| - 1], if kept == [] then [] else kept[..|kept| - 1], now)
  {
  }

  // ---- the sweep cannot be observed ------------------------------------------------------------

  ghost predicate Bisimilar(never: State, swept: State) {
    && never.clock == swept.clock && never.answers == swept.answers
    && Alike(never.table, swept.table, never.clock)
  }

  /** What is stale stays stale. */
  lemma TrailsLater(full: seq<real>, kept: seq<real>, before: real, now: real)
    requires Trails(full, kept, before) && before <= now
    ensures Trails(full, kept, now)
  {
  }

  /** When the newest attempt is stale, every one is. */
  lemma NewestIsStale(full: seq<real>, now: real)
    requires Ordered(full, now) && full != [] && Stale(full[|full| - 1], now)
    ensures Trails(full, [], now)
  {
    forall i | 0 <= i < |full| ensures Stale(full[i], now) {
      assert full[i] <= full[|full| - 1];
    }
  }

  /** A sweep drops only buckets whose every attempt is stale. */
  lemma SweepKeepsTrail(full: seq<real>, table: Table, client: string, before: real, now: real)
    requires Trails(full, Bucket(table, client), before) && before <= now
    ensures Trails(full, Bucket(Swept(table, now), client), now)
  {
    var kept := Bucket(table, client);
    TrailsLater(full, kept, before, now);
    if kept != [] && Forgotten(kept, now) {
      assert kept[|kept| - 1] == full[|full| - 1];
      NewestIsStale(full, now);
    }
  }

  ghost predicate Alike(never: Table, swept: Table, now: real) {
    forall client :: Trails(Bucket(never, client), Bucket(swept, client), now)
  }

  lemma AskIsLocal(table: Table, client: string, other: string, consume: bool, now: real)
    ensures Bucket(Asked(table, client, consume, now).0, other) ==
            if other == client then Visit(Bucket(table, client), consume, now).0 else Bucket(table, other)
  {
  }

  lemma SuffixIsOrdered(a: seq<real>, d: nat, now: real)
    requires Ordered(a, now) && d <= |a|
    ensures Ordered(a[d..], now)
  {
  }

  lemma OrderedLater(a: seq<real>, before: real, now: real)
    requires Ordered(a, before) && before <= now
    ensures Ordered(a, now)
  {
  }

  lemma AppendIsOrdered(a: seq<real>, now: real)
    requires Ordered(a, now)
    ensures Ordered(a + [now], now)
  {
  }

  lemma VisitIsOrdered(bucket: seq<real>, consume: bool, now: real)
    requires Ordered(bucket, now)
    ensures Ordered(Visit(bucket, consume, now).0, now)
  {
    var recent := Fresh(bucket, now);
    FreshIsSuffix(bucket, now);
    SuffixIsOrdered(bucket, |bucket| - |recent|, now);
    AppendIsOrdered(recent, now);
  }

  lemma AskAlike(never: Table, swept: Table, client: string, consume: bool, now: real)
    requires Alike(never, swept, now)
    ensures Asked(never, client, consume, now).1 == Asked(swept, client, consume, now).1
    ensures Alike(Asked(never, client, consume, now).0, Asked(swept, client, consume, now).0, now)
  {
    var full, kept := Bucket(never, client), Bucket(swept, client);
    assert Trails(full, kept, now);
    TrailsSameFresh(full, kept, now, now);
    assert Visit(full, consume, now) == Visit(kept, consume, now);
    VisitIsOrdered(full, consume, now);
    forall other
      ensures Trails(Bucket(Asked(never, client, consume, now).0, other),
                     Bucket(Asked(swept, client, consume, now).0, other), now)
    {
      assert Trails(Bucket(never, other), Bucket(swept, other), now);
      AskIsLocal(never, client, other, consume, now);
      AskIsLocal(swept, client, other, consume, now);
    }
  }

  lemma SweepAlike(never: Table, swept: Table, before: real, now: real)
    requires Alike(never, swept, before) && before <= now
    ensures Alike(never, Swept(swept, now), now)
  {
    forall c
      ensures Trails(Bucket(never, c), Bucket(Swept(swept, now), c), now)
    {
      SweepKeepsTrail(Bucket(never, c), swept, c, before, now);
    }
  }

  lemma RecordAlike(never: Table, swept: Table, before: real, client: string, now: real)
    requires Alike(never, swept, before) && before <= now
    ensures Alike(Recorded(never, client, now), Recorded(swept, client, now), now)
  {
    forall c
      ensures Trails(Bucket(Recorded(never, client, now), c), Bucket(Recorded(swept, client, now), c), now)
    {
      assert Trails(Bucket(never, c), Bucket(swept, c), before);
      RecordTrails(never, swept, before, client, now, c);
    }
  }

  lemma RecordTrails(never: Table, swept: Table, before: real, client: string, now: real, c: string)
    requires Trails(Bucket(never, c), Bucket(swept, c), before) && before <= now
    ensures Trails(Bucket(Recorded(never, client, now), c), Bucket(Recorded(swept, client, now), c), now)
  {
    RecordedBucket(never, client, now, c);
    RecordedBucket(swept, client, now, c);
    if c == client {
      TrailsAppend(Bucket(never, c), Bucket(swept, c), before, now);
    } else {
      TrailsLater(Bucket(never, c), Bucket(swept, c), before, now);
    }
  }

  lemma RecordedBucket(table: Table, client: string, now: real, c: string)
    ensures Bucket(Recorded(table, client, now), c) == Bucket(table, c) + if c == client then [now] else []
  {
  }

  lemma ReleaseAlike(never: Table, swept: Table, now: real, client: string)
    requires Alike(never, swept, now)
    ensures Alike(Released(never, client), Released(swept, client), now)
  {
    forall c
      ensures Trails(Bucket(Released(never, client), c), Bucket(Released(swept, client), c), now)
    {
      var full, kept := Bucket(never, c), Bucket(swept, c);
      assert Trails(full, kept, now);
      ReleasedBucket(never, client, c);
      ReleasedBucket(swept, client, c);
      if c == client && full != [] {
        TrailsDrop(full, kept, now);
      }
    }
  }

  lemma ReleasedBucket(table: Table, client: string, c: string)
    ensures Bucket(Released(table, client), c) ==
            var bucket := Bucket(table, c);
            if c == client && bucket != [] then bucket[..|bucket| - 1] else bucket
  {
  }

  lemma StepBisimilar(never: State, swept: State, op: Op)
    requires Bisimilar(never, swept) && Enabled(never, op)
    ensures Bisimilar(Step(never, op, false), Step(swept, op, true))
  {
    match op
    case Ask(client, consume, now) =>
      SweepAlike(never.table, swept.table, never.clock, now);
      AskAlike(never.table, Swept(swept.table, now), client, consume, now);
    case Record(client, now) => RecordAlike(never.table, swept.table, never.clock, client, now);
    case Release(client) => ReleaseAlike(never.table, swept.table, never.clock, client);
    case Clear(client) =>
      forall c
        ensures Trails(Bucket(never.table - {client}, c), Bucket(swept.table - {client}, c), never.clock)
      {
        assert Trails(Bucket(never.table, c), Bucket(swept.table, c), never.clock);
      }
  }

  /** Whatever is asked, released, recorded or cleared, the sweep changes no answer. */
  lemma {:induction false} SweepIsUnobservable(start: real, ops: seq<Op>)
    ensures Run(start, ops, false).Some? <==> Run(start, ops, true).Some?
    ensures Run(start, ops, true).Some? ==> Bisimilar(Run(start, ops, false).value, Run(start, ops, true).value)
  {
    if ops != [] {
      var n := |ops| - 1;
      SweepIsUnobservable(start, ops[..n]);
      if Run(start, ops[..n], true).Some? {
        var never, swept := Run(start, ops[..n], false).value, Run(start, ops[..n], true).value;
        if Enabled(never, ops[n]) {
          StepBisimilar(never, swept, ops[n]);
        }
      }
    }
  }

  // ---- the cap -------------------------------------------------------------------------------------

  /** Times at which `client` was let in and the slot was taken. */
  function Grants(start: real, ops: seq<Op>, client: string): seq<real>
    decreases |ops|
  {
    if ops == [] then []
    else
      var n := |ops| - 1;
      var before := Grants(start, ops[..n], client);
      match Run(start, ops[..n], true)
      case None => before
      case Some(s) =>
        match ops[n]
        case Ask(who, consume, now) =>
          if who == client && consume && Asked(Swept(s.table, now), client, true, now).1.allowed then before + [now]
          else before
        case _ => before
  }

  /** No slot of this client is given back. */
  predicate Unforgiving(ops: seq<Op>, client: string) {
    forall i :: 0 <= i < |ops| ==> ops[i] != Release(client) && ops[i] != Clear(client)
  }

  /** Every recent grant still counts against its client. */
  ghost predicate Counted(s: State, grants: seq<real>, client: string) {
    && Ordered(grants, s.clock) && Ordered(Bucket(s.table, client), s.clock)
    && forall now :: now >= s.clock ==> |Fresh(grants, now)| <= |Fresh(Bucket(s.table, client), now)|
  }

  /** Five attempts apart, two grants are a whole window apart. */
  ghost predicate Spaced(grants: seq<real>) {
    forall i :: 0 <= i < |grants| - CAP ==> grants[i + CAP] - grants[i] >= WINDOW
  }

  lemma FreshAppend(a: seq<real>, t: real, now: real)
    ensures Fresh(a + [t], now) == Fresh(a, now) + if Stale(t, now) then [] else [t]
  {
    assert (a + [t])[..|a|] == a;
  }

  /** A later window sees no more, and sees the same after pruning at an earlier time. */
  lemma PruneIsInvisible(a: seq<real>, earlier: real, now: real)
    requires Ordered(a, earlier) && earlier <= now
    ensures Fresh(Fresh(a, earlier), now) == Fresh(a, now)
  {
    FreshIsSuffix(a, earlier);
    TrailsSameFresh(a, Fresh(a, earlier), earlier, now);
  }

  lemma SweepKeepsCounted(s: State, grants: seq<real>, client: string, now: real)
    requires Counted(s, grants, client) && now >= s.clock
    ensures Counted(State(Swept(s.table, now), now, s.answers), grants, client)
  {
    var kept, left := Bucket(s.table, client), Bucket(Swept(s.table, now), client);
    assert Trails(kept, kept, s.clock);
    SweepKeepsTrail(kept, s.table, client, s.clock, now);
    forall later | later >= now
      ensures |Fresh(grants, later)| <= |Fresh(left, later)|
    {
      TrailsSameFresh(kept, left, now, later);
    }
  }

  lemma AskKeepsCounted(s: State, grants: seq<real>, client: string, who: string, consume: bool)
    requires Counted(s, grants, client)
    ensures var (table, answer) := Asked(s.table, who, consume, s.clock);
      var more := if who == client && consume && answer.allowed then grants + [s.clock] else grants;
      Counted(State(table, s.clock, s.answers), more, client)
  {
    AskIsLocal(s.table, who, client, consume, s.clock);
    if who == client {
      VisitKeepsCounted(Bucket(s.table, client), grants, consume, s.clock);
    }
  }

  lemma VisitKeepsCounted(bucket: seq<real>, grants: seq<real>, consume: bool, now: real)
    requires Ordered(grants, now) && Ordered(bucket, now)
    requires forall later :: later >= now ==> |Fresh(grants, later)| <= |Fresh(bucket, later)|
    ensures var (after, answer) := Visit(bucket, consume, now);
      var more := if consume && answer.allowed then grants + [now] else grants;
      && Ordered(more, now) && Ordered(after, now)
      && forall later :: later >= now ==> |Fresh(more, later)| <= |Fresh(after, later)|
  {
    VisitIsOrdered(bucket, consume, now);
    var (after, answer) := Visit(bucket, consume, now);
    var more := if consume && answer.allowed then grants + [now] else grants;
    forall later | later >= now
      ensures |Fresh(more, later)| <= |Fresh(after, later)|
    {
      assert |Fresh(grants, later)| <= |Fresh(bucket, later)|;
      PruneIsInvisible(bucket, now, later);
      FreshAppend(grants, now, later);
      FreshAppend(Fresh(bucket, now), now, later);
    }
  }

  /** An earlier grant still in the window leaves all the later ones in it too. */
  lemma FreshFrom(grants: seq<real>, i: nat, now: real)
    requires Ordered(grants, now) && i < |grants| && !Stale(grants[i], now)
    ensures |Fresh(grants, now)| >= |grants| - i
  {
    FreshIsSuffix(grants, now);
  }

  lemma GrantIsSpaced(s: State, grants: seq<real>, client: string)
    requires Counted(s, grants, client) && Spaced(grants)
    requires Asked(s.table, client, true, s.clock).1.allowed
    ensures Spaced(grants + [s.clock])
  {
    var i := |grants| - CAP;
    assert |Fresh(grants, s.clock)| <= |Fresh(Bucket(s.table, client), s.clock)|;
    if i >= 0 && !Stale(grants[i], s.clock) {
      FreshFrom(grants, i, s.clock);
    }
  }

  lemma {:induction false} GrantsAreCounted(start: real, ops: seq<Op>, client: string)
    requires Run(start, ops, true).Some? && Unforgiving(ops, client)
    ensures Counted(Run(start, ops, true).value, Grants(start, ops, client), client)
    ensures Spaced(Grants(start, ops, client))
    decreases |ops|
  {
    if ops != [] {
      var n := |ops| - 1;
      GrantsAreCounted(start, ops[..n], client);
      StepKeepsCounted(Run(start, ops[..n], true).value, Grants(start, ops[..n], client), client, ops[n]);
    }
  }

  lemma StepKeepsCounted(s: State, grants: seq<real>, client: string, op: Op)
    requires Counted(s, grants, client) && Spaced(grants) && Enabled(s, op)
    requires op != Release(client) && op != Clear(client)
    ensures var granted := op.Ask? && op.client == client && op.consume
                           && Asked(Swept(s.table, op.now), client, true, op.now).1.allowed;
      var more := if granted then grants + [op.now] else grants;
      Counted(Step(s, op, true), more, client) && Spaced(more)
  {
    match op
    case Ask(who, consume, now) =>
      SweepKeepsCounted(s, grants, client, now);
      var swept := State(Swept(s.table, now), now, s.answers);
      AskKeepsCounted(swept, grants, client, who, consume);
      if who == client && consume && Asked(swept.table, client, true, now).1.allowed {
        GrantIsSpaced(swept, grants, client);
      }
    case Record(who, now) => RecordKeepsCounted(s, grants, client, who, now);
    case Release(who) => ReleasedBucket(s.table, who, client);
    case Clear(_) =>
  }

  lemma FreshGrows(a: seq<real>, t: real, now: real)
    ensures |Fresh(a + [t], now)| >= |Fresh(a, now)|
  {
    FreshAppend(a, t, now);
  }

  lemma RecordKeepsCounted(s: State, grants: seq<real>, client: string, who: string, now: real)
    requires Counted(s, grants, client) && now >= s.clock
    ensures Counted(State(Recorded(s.table, who, now), now, s.answers), grants, client)
  {
    var bucket := Bucket(s.table, client);
    var after := Bucket(Recorded(s.table, who, now), client);
    RecordedBucket(s.table, who, now, client);
    OrderedLater(grants, s.clock, now);
    OrderedLater(bucket, s.clock, now);
    AppendIsOrdered(bucket, now);
    forall later | later >= now
      ensures |Fresh(grants, later)| <= |Fresh(after, later)|
    {
      assert |Fresh(grants, later)| <= |Fresh(bucket, later)|;
      if who == client {
        FreshGrows(bucket, now, later);
      } else {
        assert after == bucket;
      }
    }
  }

  /** With no slot given back, any window holds at most five grants of one client. */
  lemma AtMostFivePerWindow(start: real, ops: seq<Op>, client: string, i: nat)
    requires Run(start, ops, true).Some? && Unforgiving(ops, client)
    requires i + 5 < |Grants(start, ops, client)|
    ensures Grants(start, ops, client)[i + 5] - Grants(start, ops, client)[i] >= 300.0
    ensures forall j :: i + 5 <= j < |Grants(start, ops, client)| ==>
      Grants(start, ops, client)[j] - Grants(start, ops, client)[i] >= 300.0
  {
    GrantsAreCounted(start, ops, client);
  }

  // ---- who is let in -------------------------------------------------------------------------------

  /** The attempts of a list that are less than five minutes old. */
  ghost function Young(a: seq<real>, now: real): set<nat> {
    set i: nat | i < |a| && now - a[i] < 300.0
  }

  lemma {:induction false} FreshCounts(a: seq<real>, now: real)
    ensures |Fresh(a, now)| == |Young(a, now)|
  {
    if a == [] {
      assert Young(a, now) == {};
    } else {
      var n := |a| - 1;
      FreshCounts(a[..n], now);
      YoungStep(a, now);
    }
  }

  lemma YoungStep(a: seq<real>, now: real)
    requires a != []
    ensures var n := |a| - 1;
      |Young(a, now)| == |Young(a[..n], now)| + if Stale(a[n], now) then 0 else 1
  {
    var n := |a| - 1;
    assert Young(a, now) == Young(a[..n], now) + if Stale(a[n], now) then {} else {n};
  }

  /**
   Every attempt of one client that stands: taken slots and recorded failures in order,
   less the slots given back, since the client was last cleared.  Nothing is ever dropped
   for its age.
   */
  ghost function Ledger(ops: seq<Op>, client: string): seq<real>
    decreases |ops|
  {
    if ops == [] then []
    else
      var n := |ops| - 1;
      var before := Ledger(ops[..n], client);
      match ops[n]
      case Ask(who, consume, now) => if who == client && consume && |Young(before, now)| < 5 then before + [now] else before
      case Record(who, now) => if who == client then before + [now] else before
      case Release(who) => if who == client && before != [] then before[..|before| - 1] else before
      case Clear(who) => if who == client then [] else before
  }

  ghost predicate Follows(s: State, ledger: seq<real>, client: string) {
    Trails(ledger, Bucket(s.table, client), s.clock)
  }

  lemma AskFollows(s: State, ledger: seq<real>, client: string, who: string, consume: bool, now: real)
    requires Follows(s, ledger, client) && now >= s.clock
    ensures Follows(Step(s, Ask(who, consume, now), true),
                    if who == client && consume && |Young(ledger, now)| < 5 then ledger + [now] else ledger, client)
  {
    var swept := Swept(s.table, now);
    SweepKeepsTrail(ledger, s.table, client, s.clock, now);
    AskIsLocal(swept, who, client, consume, now);
    if who == client {
      var kept := Bucket(swept, client);
      TrailsSameFresh(ledger, kept, now, now);
      FreshCounts(ledger, now);
      TrailsAppend(ledger, Fresh(kept, now), now, now);
    }
  }

  lemma StepFollows(s: State, ledger: seq<real>, client: string, op: Op)
    requires Follows(s, ledger, client) && Enabled(s, op)
    ensures Follows(Step(s, op, true),
      match op
      case Ask(who, consume, now) => if who == client && consume && |Young(ledger, now)| < 5 then ledger + [now] else ledger
      case Record(who, now) => if who == client then ledger + [now] else ledger
      case Release(who) => if who == client && ledger != [] then ledger[..|ledger| - 1] else ledger
      case Clear(who) => if who == client then [] else ledger,
      client)
  {
    match op
    case Ask(who, consume, now) => AskFollows(s, ledger, client, who, consume, now);
    case Record(who, now) =>
      RecordedBucket(s.table, who, now, client);
      if who == client {
        TrailsAppend(ledger, Bucket(s.table, client), s.clock, now);
      } else {
        TrailsLater(ledger, Bucket(s.table, client), s.clock, now);
      }
    case Release(who) =>
      ReleasedBucket(s.table, who, client);
      if who == client && ledger != [] {
        TrailsDrop(ledger, Bucket(s.table, client), s.clock);
      }
    case Clear(_) =>
  }

  lemma {:induction false} RunFollows(start: real, ops: seq<Op>, client: string)
    requires Run(start, ops, true).Some?
    ensures Follows(Run(start, ops, true).value, Ledger(ops, client), client)
    decreases |ops|
  {
    if ops != [] {
      var n := |ops| - 1;
      RunFollows(start, ops[..n], client);
      StepFollows(Run(start, ops[..n], true).value, Ledger(ops[..n], client), client, ops[n]);
    }
  }

  /** The seconds left until the oldest young attempt is five minutes old, and at least one. */
  ghost predicate Waits(a: seq<real>, now: real, wait: int) {
    exists i: nat :: (i in Young(a, now) && (forall k :: k in Young(a, now) ==> i <= k)
      && wait == var left := (300.0 - (now - a[i])).Floor; if left > 1 then left else 1)
  }

  lemma VisitAnswers(ledger: seq<real>, kept: seq<real>, consume: bool, now: real)
    requires Trails(ledger, kept, now)
    ensures var answer := Visit(kept, consume, now).1;
      && (answer.allowed <==> |Young(ledger, now)| < 5)
      && (if answer.allowed then answer.wait == 0 else Waits(ledger, now, answer.wait))
  {
    TrailsSameFresh(ledger, kept, now, now);
    FreshCounts(ledger, now);
    if |Fresh(ledger, now)| >= 5 {
      OldestCounted(ledger, now);
    }
  }

  /**
   Over every mix of operations, with the table sweeping: a client is let in exactly when
   fewer than five of its standing attempts are less than 300 seconds old.  One that is not
   is told how long to wait.
   */
  lemma LetInIff(start: real, ops: seq<Op>, client: string, consume: bool, now: real)
    requires ops != [] && Run(start, ops, true).Some? && ops[|ops| - 1] == Ask(client, consume, now)
    ensures var answers, ledger := Run(start, ops, true).value.answers, Ledger(ops[..|ops| - 1], client);
      && answers != []
      && (answers[|answers| - 1].allowed <==> |Young(ledger, now)| < 5)
      && (if answers[|answers| - 1].allowed then answers[|answers| - 1].wait == 0 else Waits(ledger, now, answers[|answers| - 1].wait))
  {
    var n := |ops| - 1;
    var s, ledger := Run(start, ops[..n], true).value, Ledger(ops[..n], client);
    RunFollows(start, ops[..n], client);
    SweepKeepsTrail(ledger, s.table, client, s.clock, now);
    VisitAnswers(ledger, Bucket(Swept(s.table, now), client), consume, now);
  }

  lemma OldestCounted(a: seq<real>, now: real)
    requires Ordered(a, now) && Fresh(a, now) != []
    ensures var i := |a| - |Fresh(a, now)|;
      0 <= i < |a| && a[i] == Fresh(a, now)[0] && i in Young(a, now) && forall k :: k in Young(a, now) ==> i <= k
  {
    FreshIsSuffix(a, now);
  }
}
