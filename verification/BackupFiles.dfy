/**
 Backup file names (hub/backups.py): a private destination is created exclusively
 under the first free name, and pruning keeps the newest copies by name.
 */
module BackupFiles {
  import opened Options
  import opened Text

  const MAX_COLLISIONS: nat := 50
  const RETAIN: nat := 14

  /** Where the first dot of a file name is; its length when it has none. */
  function HeadLength(name: string): (n: nat)
    ensures n <= |name|
  {
    if name == "" || name[0] == '.' then 0 else 1 + HeadLength(name[1..])
  }

  /** The name tried at one attempt: the base itself, then a number before the first dot. */
  function Candidate(base: string, attempt: nat): string {
    if attempt <= 1 then base
    else
      var n := HeadLength(base);
      base[..n] + "-" + Decimal(attempt) + base[n..]
  }

  /** A number goes in front of the first dot, or at the end of a name without one. */
  lemma CandidateShape(base: string, attempt: nat)
    requires attempt >= 1
    ensures attempt == 1 ==> Candidate(base, attempt) == base
    ensures attempt > 1 ==> exists n: nat :: (n <= |base| && Candidate(base, attempt) == base[..n] + "-" + Decimal(attempt) + base[n..]
              && Lacks(base[..n], '.') && (n < |base| ==> base[n] == '.'))
  {
    HeadIsDotless(base);
  }

  lemma {:induction false} HeadIsDotless(name: string)
    ensures Lacks(name[..HeadLength(name)], '.') && (HeadLength(name) < |name| ==> name[HeadLength(name)] == '.')
  {
    if name != "" && name[0] != '.' {
      HeadIsDotless(name[1..]);
      var n := HeadLength(name);
      assert name[..n] == [name[0]] + name[1..][..n - 1];
    }
  }

  /** Distinct attempts try distinct names. */
  lemma CandidatesDiffer(base: string, i: nat, j: nat)
    requires 1 <= i < j
    ensures Candidate(base, i) != Candidate(base, j)
  {
    var n := HeadLength(base);
    var cj := Candidate(base, j);
    if i == 1 {
      assert |cj| > |base|;
    } else if Candidate(base, i) == cj {
      var ci := Candidate(base, i);
      assert ci[..n + 1] == base[..n] + "-" == cj[..n + 1];
      assert ci[n + 1..|ci| - (|base| - n)] == Decimal(i);
      assert cj[n + 1..|cj| - (|base| - n)] == Decimal(j);
      DecimalReadsBack(i);
      DecimalReadsBack(j);
      assert false;
    }
  }

  // ---- one run, alone in the directory -------------------------------------------

  datatype Dest = Created(name: string) | Unwritable(name: string) | NameTaken

  class Directory {
    var files: set<string>

    constructor (files: set<string>)
      ensures this.files == files
    {
      this.files := files;
    }

    /** O_CREAT | O_EXCL. */
    method CreateExclusively(name: string) returns (created: bool)
      modifies this
      ensures created <==> name !in old(files)
      ensures files == old(files) + {name}
    {
      created := name !in files;
      files := files + {name};
    }

    /**
     The first free candidate, refused only when all of them exist.  When the directory
     cannot be written the first free name is handed back uncreated.
     */
    method PrivateDest(base: string, writable: bool) returns (dest: Dest)
      modifies this
      ensures !dest.NameTaken? ==>
        && dest.name !in old(files) && (dest.Created? <==> writable)
        && exists k: nat :: 1 <= k <= 50 && dest.name == Candidate(base, k)
                       && AllTaken(old(files), base, k)
      ensures files == if dest.Created? then old(files) + {dest.name} else old(files)
      ensures dest.NameTaken? <==> AllTaken(old(files), base, 51)
    {
      var attempt := 1;
      while attempt <= MAX_COLLISIONS
        invariant 1 <= attempt <= MAX_COLLISIONS + 1
        invariant files == old(files) && AllTaken(old(files), base, attempt)
      {
        var candidate := Candidate(base, attempt);
        if candidate !in files && !writable {
          return Unwritable(candidate);
        }
        var created := CreateExclusively(candidate);
        if created {
          return Created(candidate);
        }
        attempt := attempt + 1;
      }
      dest := NameTaken;
    }

    /**
     Deletes all but the newest.  `found` is the reverse-sorted listing of the job's
     files; a file in `stuck` cannot be unlinked and stays.
     */
    method Prune(found: seq<string>, retain: Option<int>, stuck: set<string>)
      modifies this
      ensures files == old(files) - Pruned(found, Kept(retain), stuck)
    {
      var keep := Kept(retain);
      var i := keep;
      while i < |found|
        invariant keep <= i
        invariant files == old(files) - (set k | keep <= k < i && k < |found| && found[k] !in stuck :: found[k])
      {
        if found[i] !in stuck {
          files := files - {found[i]};
        }
        i := i + 1;
      }
    }
  }

  ghost predicate AllTaken(files: set<string>, base: string, before: nat) {
    forall k: nat :: 1 <= k < before ==> Candidate(base, k) in files
  }

  // ---- many runs at once -----------------------------------------------------------

  /** One run of `_private_dest` between its system calls. */
  datatype Pc = Trying(base: string, attempt: nat) | Finished(dest: Dest)

  datatype State = State(files: set<string>, runs: map<nat, Pc>)

  datatype Action =
    | Begin(run: nat, base: string)
    | Try(run: nat, unwritable: bool)
    | Foreign(name: string)

  predicate Enabled(s: State, a: Action) {
    match a
    case Begin(r, _) => r !in s.runs
    case Try(r, _) => r in s.runs && s.runs[r].Trying?
    case Foreign(_) => true
  }

  /** Each system call is one step; other programs may create files at any time. */
  function Step(s: State, a: Action): State
    requires Enabled(s, a)
  {
    match a
    case Begin(r, base) => s.(runs := s.runs[r := Trying(base, 1)])
    case Foreign(name) => s.(files := s.files + {name})
    case Try(r, unwritable) =>
      var pc := s.runs[r];
      var name := Candidate(pc.base, pc.attempt);
      if unwritable then s.(runs := s.runs[r := Finished(Unwritable(name))])
      else if name !in s.files then State(s.files + {name}, s.runs[r := Finished(Created(name))])
      else if pc.attempt < MAX_COLLISIONS then s.(runs := s.runs[r := Trying(pc.base, pc.attempt + 1)])
      else s.(runs := s.runs[r := Finished(NameTaken)])
  }

  function Run(files: set<string>, acts: seq<Action>): Option<State> {
    if acts == [] then Some(State(files, map[]))
    else
      var n := |acts| - 1;
      match Run(files, acts[..n])
      case None => None
      case Some(s) => if Enabled(s, acts[n]) then Some(Step(s, acts[n])) else None
  }

  predicate Owns(s: State, r: nat, name: string) {
    r in s.runs && s.runs[r] == Finished(Created(name))
  }

  /** Candidates a run has already found taken stay taken. */
  ghost predicate Tried(s: State, r: nat) {
    r in s.runs ==>
      match s.runs[r]
      case Trying(base, attempt) => 1 <= attempt <= MAX_COLLISIONS && AllTaken(s.files, base, attempt)
      case Finished(_) => true
  }

  lemma {:induction false} NamesAreExclusive(files: set<string>, acts: seq<Action>)
    requires Run(files, acts).Some?
    ensures var s := Run(files, acts).value;
      && files <= s.files
      && (forall r, name :: Owns(s, r, name) ==> name in s.files && name !in files)
      && (forall r1, r2, name :: Owns(s, r1, name) && Owns(s, r2, name) ==> r1 == r2)
      && (forall r :: Tried(s, r))
  {
    if acts != [] {
      NamesAreExclusive(files, acts[..|acts| - 1]);
      var s, a := Run(files, acts[..|acts| - 1]).value, acts[|acts| - 1];
      forall r
        ensures Tried(Step(s, a), r)
      {
        assert Tried(s, r);
      }
      forall r, name | Owns(Step(s, a), r, name)
        ensures Owns(s, r, name) || (a == Try(r, false) && name !in s.files && name in Step(s, a).files)
      {
      }
    }
  }

  /** Two finished runs never hold one name, and neither holds a file that was there before. */
  lemma DistinctDestinations(files: set<string>, acts: seq<Action>, r1: nat, r2: nat)
    requires Run(files, acts).Some? && r1 != r2
    requires var s := Run(files, acts).value;
      r1 in s.runs && s.runs[r1].Finished? && s.runs[r1].dest.Created? &&
      r2 in s.runs && s.runs[r2].Finished? && s.runs[r2].dest.Created?
    ensures var s := Run(files, acts).value;
      s.runs[r1].dest.name != s.runs[r2].dest.name && s.runs[r1].dest.name !in files && s.runs[r2].dest.name !in files
  {
    NamesAreExclusive(files, acts);
    var s := Run(files, acts).value;
    assert Owns(s, r1, s.runs[r1].dest.name) && Owns(s, r2, s.runs[r2].dest.name);
  }

  // ---- what a run ends with --------------------------------------------------------

  /** The name a run was begun for. */
  function BaseOf(acts: seq<Action>, r: nat): Option<string> {
    if acts == [] then None
    else
      var last := acts[|acts| - 1];
      if last.Begin? && last.run == r then Some(last.base) else BaseOf(acts[..|acts| - 1], r)
  }

  /** How many names a run has tried. */
  function Tries(acts: seq<Action>, r: nat): nat {
    if acts == [] then 0
    else
      var last := acts[|acts| - 1];
      Tries(acts[..|acts| - 1], r) + if last.Try? && last.run == r then 1 else 0
  }

  /** Names that other programs took. */
  function Foreigners(acts: seq<Action>): set<string> {
    if acts == [] then {}
    else
      var last := acts[|acts| - 1];
      Foreigners(acts[..|acts| - 1]) + if last.Foreign? then {last.name} else {}
  }

  /** Where a run of some name stands after so many tries. */
  ghost predicate Stands(s: State, r: nat, base: Option<string>, tries: nat) {
    && (r in s.runs <==> base.Some?) && (base.None? ==> tries == 0)
    && (r in s.runs ==>
          match s.runs[r]
          case Trying(b, attempt) => Some(b) == base && attempt == tries + 1 <= 50
          case Finished(Created(name)) => 1 <= tries <= 50 && name == Candidate(base.value, tries)
          case Finished(Unwritable(name)) => 1 <= tries <= 50 && name == Candidate(base.value, tries)
          case Finished(NameTaken) => tries == 50)
  }

  /** The names a run tried and found taken are in the directory. */
  ghost predicate FoundTaken(s: State, r: nat, base: Option<string>, tries: nat) {
    r in s.runs && base.Some? ==>
      AllTaken(s.files, base.value, if s.runs[r].Finished? && !s.runs[r].dest.NameTaken? then tries else tries + 1)
  }

  /**
   In any interleaving, a run ends with the first of its fifty candidate names that was not
   there when it came to it, and is refused exactly when all fifty were.
   */
  lemma {:induction false} RunsEndAtTheFirstFree(files: set<string>, acts: seq<Action>, r: nat)
    requires Run(files, acts).Some?
    ensures var s := Run(files, acts).value;
      Stands(s, r, BaseOf(acts, r), Tries(acts, r)) && FoundTaken(s, r, BaseOf(acts, r), Tries(acts, r))
  {
    if acts != [] {
      var n := |acts| - 1;
      RunsEndAtTheFirstFree(files, acts[..n], r);
      var s := Run(files, acts[..n]).value;
      StandsNext(s, acts[n], r, BaseOf(acts[..n], r), Tries(acts[..n], r));
    }
  }

  lemma StandsNext(s: State, a: Action, r: nat, base: Option<string>, tries: nat)
    requires Enabled(s, a) && Stands(s, r, base, tries) && FoundTaken(s, r, base, tries)
    ensures var base' := if a.Begin? && a.run == r then Some(a.base) else base;
      var tries' := if a.Try? && a.run == r then tries + 1 else tries;
      Stands(Step(s, a), r, base', tries') && FoundTaken(Step(s, a), r, base', tries')
  {
  }

  /** The directory holds what was there, what runs created, and what other programs did. */
  lemma {:induction false} FilesAre(files: set<string>, acts: seq<Action>, name: string)
    requires Run(files, acts).Some?
    ensures var s := Run(files, acts).value;
      name in s.files <==> name in files || name in Foreigners(acts) || exists r :: Owns(s, r, name)
  {
    if acts != [] {
      var n := |acts| - 1;
      var s, s' := Run(files, acts[..n]).value, Run(files, acts).value;
      FilesAre(files, acts[..n], name);
      forall r
        ensures Owns(s', r, name) <==> Owns(s, r, name) || (acts[n] == Try(r, false) && name !in s.files && name in s'.files)
      {
      }
      if acts[n].Try? && name in s'.files && name !in s.files {
        assert Owns(s', acts[n].run, name);
      }
    }
  }

  lemma RunExtends(files: set<string>, acts: seq<Action>, a: Action)
    requires Run(files, acts).Some? && Enabled(Run(files, acts).value, a)
    ensures Run(files, acts + [a]) == Some(Step(Run(files, acts).value, a))
  {
    assert (acts + [a])[..|acts|] == acts;
  }

  /** Two runs in the same second: the one that comes second gets the second name. */
  lemma SameSecond(base: string) returns (acts: seq<Action>)
    ensures Run({}, acts).Some?
    ensures Owns(Run({}, acts).value, 1, base) && Owns(Run({}, acts).value, 0, Candidate(base, 2))
  {
    CandidatesDiffer(base, 1, 2);
    RunExtends({}, [], Begin(0, base));
    acts := [] + [Begin(0, base)];
    RunExtends({}, acts, Begin(1, base));
    acts := acts + [Begin(1, base)];
    RunExtends({}, acts, Try(1, false));
    acts := acts + [Try(1, false)];
    RunExtends({}, acts, Try(0, false));
    acts := acts + [Try(0, false)];
    RunExtends({}, acts, Try(0, false));
    acts := acts + [Try(0, false)];
  }

  // ---- retention -------------------------------------------------------------------

  /** Copies kept: at least one; the default when the setting is unreadable. */
  function Kept(retain: Option<int>): (n: nat)
    ensures n >= 1
  {
    match retain
    case None => RETAIN
    case Some(r) => if r > 1 then r else 1
  }

  function Pruned(found: seq<string>, keep: nat, stuck: set<string>): set<string> {
    set k | keep <= k < |found| && found[k] !in stuck :: found[k]
  }

  /** YYYYmmdd_HHMMSS. */
  predicate IsStamp(s: string) {
    |s| == 15 && s[8] == '_' && AllDigits(s[..8]) && AllDigits(s[9..])
  }

  /** The stamp read as the number YYYYmmddHHMMSS. */
  function Moment(s: string): nat
    requires IsStamp(s)
  {
    Num(s[..8] + s[9..])
  }

  lemma StampOrder(a: string, b: string)
    requires IsStamp(a) && IsStamp(b)
    ensures LexLe(a, b) <==> Moment(a) <= Moment(b)
  {
    LexSkip(a, b, 8);
    LexIsNumeric(a[..8] + a[9..], b[..8] + b[9..]);
  }

  /** prefix, stamp, then anything: an extension, or a collision number and an extension. */
  predicate Dated(prefix: string, name: string) {
    prefix <= name && |name| >= |prefix| + 15 && IsStamp(name[|prefix|..|prefix| + 15])
  }

  function MomentOf(prefix: string, name: string): nat
    requires Dated(prefix, name)
  {
    Moment(name[|prefix|..|prefix| + 15])
  }

  /** Name order never contradicts stamp order. */
  lemma NameOrderIsChronological(prefix: string, a: string, b: string)
    requires Dated(prefix, a) && Dated(prefix, b) && LexLe(a, b)
    ensures MomentOf(prefix, a) <= MomentOf(prefix, b)
  {
    var p, n := |prefix|, |prefix| + 15;
    LexTake(a, b, n);
    assert a[..n] == prefix + a[p..n] && b[..n] == prefix + b[p..n];
    LexDropPrefix(prefix, a[p..n], b[p..n]);
    StampOrder(a[p..n], b[p..n]);
  }

  /** The reverse-sorted listing of one job's files. */
  ghost predicate NewestFirst(found: seq<string>, prefix: string) {
    && (forall i :: 0 <= i < |found| ==> Dated(prefix, found[i]))
    && (forall i, j :: 0 <= i < j < |found| ==> found[i] != found[j] && LexLe(found[j], found[i]))
  }

  /** The listed files, up to one of them. */
  function Upto(found: seq<string>, n: nat): set<string>
    requires n <= |found|
  {
    set k | 0 <= k < n :: found[k]
  }

  function Least(a: nat, b: nat): nat {
    if a < b then a else b
  }

  /** With nothing stuck, exactly the first files of the listing survive. */
  lemma PruneLeavesPrefix(found: seq<string>, keep: nat)
    requires forall i, j :: 0 <= i < j < |found| ==> found[i] != found[j]
    ensures Upto(found, |found|) - Pruned(found, keep, {}) == Upto(found, Least(|found|, keep))
  {
    var left, first := Upto(found, |found|) - Pruned(found, keep, {}), Upto(found, Least(|found|, keep));
    forall x
      ensures x in left <==> x in first
    {
      if x in first {
        var k :| 0 <= k < Least(|found|, keep) && found[k] == x;
        assert x in Upto(found, |found|);
      }
    }
  }

  /** A file kept is at least as late as one deleted. */
  lemma KeptAreLater(found: seq<string>, prefix: string, keep: nat, k: string, d: string)
    requires NewestFirst(found, prefix) && k in Upto(found, Least(|found|, keep)) && d in Pruned(found, keep, {})
    ensures Dated(prefix, k) && Dated(prefix, d) && MomentOf(prefix, d) <= MomentOf(prefix, k)
  {
    var i :| 0 <= i < Least(|found|, keep) && found[i] == k;
    var j :| keep <= j < |found| && found[j] == d;
    NameOrderIsChronological(prefix, d, k);
  }

  /** After pruning: exactly the newest survive, at least one, and none deleted is later than one kept. */
  lemma PruneKeepsNewest(found: seq<string>, prefix: string, retain: Option<int>)
    requires NewestFirst(found, prefix)
    ensures var left := Upto(found, |found|) - Pruned(found, Kept(retain), {});
      && (retain.None? ==> |left| == if |found| < 14 then |found| else 14)
      && (retain.Some? && retain.value >= 1 ==> |left| == if |found| < retain.value then |found| else retain.value)
      && (retain.Some? && retain.value < 1 ==> |left| == if |found| < 1 then |found| else 1)
      && forall k, d :: k in left && d in Pruned(found, Kept(retain), {}) ==>
           Dated(prefix, k) && Dated(prefix, d) && MomentOf(prefix, d) <= MomentOf(prefix, k)
  {
    var keep := Kept(retain);
    PruneLeavesPrefix(found, keep);
    SizeOfDistinct(found, Least(|found|, keep));
    forall k, d | k in Upto(found, Least(|found|, keep)) && d in Pruned(found, keep, {})
      ensures Dated(prefix, k) && Dated(prefix, d) && MomentOf(prefix, d) <= MomentOf(prefix, k)
    {
      KeptAreLater(found, prefix, keep, k, d);
    }
  }

  lemma {:induction false} SizeOfDistinct(found: seq<string>, n: nat)
    requires n <= |found| && forall i, j :: 0 <= i < j < |found| ==> found[i] != found[j]
    ensures |Upto(found, n)| == n
  {
    if n > 0 {
      SizeOfDistinct(found, n - 1);
      assert Upto(found, n) == Upto(found, n - 1) + {found[n - 1]};
      assert found[n - 1] !in Upto(found, n - 1);
    }
  }

  // ---- collisions and rotation ---------------------------------------------------------

  /** YYYYmmdd_HHMMSS, digit by digit. */
  ghost predicate LooksLikeAStamp(s: string) {
    |s| == 15 && forall i :: 0 <= i < 15 ==> if i == 8 then s[i] == '_' else 48 <= s[i] as int <= 57
  }

  lemma StampsAre(s: string)
    ensures IsStamp(s) <==> LooksLikeAStamp(s)
  {
    if |s| == 15 {
      assert forall i :: 0 <= i < 8 ==> s[..8][i] == s[i];
      assert forall i :: 9 <= i < 15 ==> s[9..][i - 9] == s[i];
    }
  }

  /** The dot of a name's extension is its first, exactly when neither prefix nor stamp has one. */
  lemma {:induction false} HeadEnds(head: string, tail: string)
    requires Lacks(head, '.') && tail != "" && tail[0] == '.'
    ensures HeadLength(head + tail) == |head|
  {
    if head == "" {
      assert head + tail == tail;
    } else {
      assert (head + tail)[1..] == head[1..] + tail;
      HeadEnds(head[1..], tail);
    }
  }

  lemma {:induction false} HeadIsInDotted(prefix: string, rest: string)
    requires !Lacks(prefix, '.')
    ensures HeadLength(prefix + rest) < |prefix| && prefix[HeadLength(prefix + rest)] == '.'
  {
    if prefix[0] != '.' {
      assert (prefix + rest)[1..] == prefix[1..] + rest;
      HeadIsInDotted(prefix[1..], rest);
    }
  }

  /**
   A numbered copy keeps the prefix that rotation looks for, and its date, exactly when the
   prefix has no dot: the number goes in front of the first dot of the whole name.
   */
  lemma NumberedCopiesRotateIff(prefix: string, stamp: string, tail: string, attempt: nat)
    requires LooksLikeAStamp(stamp) && tail != "" && tail[0] == '.' && attempt >= 2
    ensures prefix <= Candidate(prefix + stamp + tail, attempt) <==> '.' !in prefix
    ensures '.' !in prefix ==>
      var name := Candidate(prefix + stamp + tail, attempt);
      Dated(prefix, name) && MomentOf(prefix, name) == Num(stamp[..8] + stamp[9..])
  {
    var base := prefix + stamp + tail;
    var name := Candidate(base, attempt);
    if '.' !in prefix {
      assert Lacks(prefix + stamp, '.') by {
        assert forall i :: 0 <= i < |prefix| ==> prefix[i] in prefix;
      }
      HeadEnds(prefix + stamp, tail);
      StampsAre(stamp);
      assert base[..|prefix + stamp|] == prefix + stamp;
      assert name == prefix + stamp + "-" + Decimal(attempt) + tail;
      assert name[|prefix|..|prefix| + 15] == stamp;
    } else {
      assert !Lacks(prefix, '.');
      HeadIsInDotted(prefix, stamp + tail);
      assert prefix + (stamp + tail) == base;
      var n := HeadLength(base);
      assert name[n] == '-' && prefix[n] == '.';
    }
  }
}
