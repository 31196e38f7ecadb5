/**
 Logout counters (hub/auth.py, `session_epochs`): a mapping whose keys and values may be
 anything YAML can hold, normalised to account names and usable counters.
 */
module SessionEpochs {
  import opened Options
  import opened Text

  /** A mapping key as YAML reads it; Unrenderable stands for a key with no usable text. */
  datatype Key = Name(text: string) | Number(n: int) | Flag(on: bool) | Unrenderable

  /** A counter: junk, a value int() reads, or an integer too long to print. */
  datatype Count = Junk | Reads(n: int) | OverCap

  datatype Row = Row(key: Key, count: Count)

  /** `_epoch_key` */
  function KeyName(k: Key): string {
    match k
    case Name(text) => Strip(text)
    case Number(n) => Strip(Str(n))
    case Flag(on) => if on then "True" else "False"
    case Unrenderable => ""
  }

  /** The names that keys other than text stand for: a number its digits, a flag its Python spelling. */
  lemma KeysAreNames(n: int)
    ensures KeyName(Number(n)) == Str(n) && KeyName(Flag(true)) == "True" && KeyName(Flag(false)) == "False"
  {
    StrFacts(n, n);
    assert Trimmed(Str(n));
  }

  /** `_epoch_count` */
  function Amount(c: Count): int {
    match c
    case Junk => 0
    case Reads(n) => n
    case OverCap => 1
  }

  /** The largest counter stored under any spelling of `target`. */
  function Best(rows: seq<Row>, target: string): Option<int> {
    if rows == [] then None
    else
      var last := rows[|rows| - 1];
      var best := Best(rows[..|rows| - 1], target);
      if KeyName(last.key) != target then best
      else if best.Some? && best.value >= Amount(last.count) then best
      else Some(Amount(last.count))
  }

  /** `_session_epoch`: 0 for a name with no counter. */
  function Reading(rows: seq<Row>, target: string): int {
    Best(rows, target).GetOr(0)
  }

  lemma BestStep(rows: seq<Row>, i: nat, target: string)
    requires i < |rows|
    ensures var best, count := Best(rows[..i], target), Amount(rows[i].count);
      Best(rows[..i + 1], target) ==
      if KeyName(rows[i].key) == target && (best.None? || best.value < count) then Some(count) else best
  {
    assert rows[..i + 1][..i] == rows[..i];
  }

  method SessionEpoch(rows: seq<Row>, target: string) returns (epoch: int)
    ensures epoch == Reading(rows, target)
  {
    var best: Option<int> := None;
    var i := 0;
    while i < |rows|
      invariant 0 <= i <= |rows| && best == Best(rows[..i], target)
    {
      BestStep(rows, i, target);
      if KeyName(rows[i].key) == target {
        var count := Amount(rows[i].count);
        if best.None? || best.value < count {
          best := Some(count);
        }
      }
      i := i + 1;
    }
    assert rows[..i] == rows;
    epoch := best.GetOr(0);
  }

  // ---- normalised counters ---------------------------------------------------------

  /** The dictionary entry `name: n`. */
  function Entry(name: string, n: int): Row {
    Row(Name(name), Reads(n))
  }

  /** d[name] = n: in place when the key is there, at the end otherwise. */
  function Put(d: seq<Row>, name: string, n: int): seq<Row> {
    if d == [] then [Entry(name, n)]
    else if d[0].key == Name(name) then [Entry(name, n)] + d[1..]
    else [d[0]] + Put(d[1..], name, n)
  }

  /** d.get(name) */
  function At(d: seq<Row>, name: string): Option<int> {
    if d == [] then None
    else if d[0].key == Name(name) then Some(Amount(d[0].count))
    else At(d[1..], name)
  }

  /** d.pop(name, None) */
  function Remove(d: seq<Row>, name: string): seq<Row> {
    if d == [] then []
    else if d[0].key == Name(name) then d[1..]
    else [d[0]] + Remove(d[1..], name)
  }

  /** One row folded into the cleaned dictionary. */
  function Fold(d: seq<Row>, row: Row): seq<Row> {
    var name, n := KeyName(row.key), Amount(row.count);
    if name == "" then d
    else if At(d, name).Some? && At(d, name).value > n then Put(d, name, At(d, name).value)
    else Put(d, name, n)
  }

  /** `_clean_epochs` */
  function Clean(rows: seq<Row>): seq<Row> {
    if rows == [] then [] else Fold(Clean(rows[..|rows| - 1]), rows[|rows| - 1])
  }

  method CleanEpochs(rows: seq<Row>) returns (out: seq<Row>)
    ensures out == Clean(rows)
  {
    out := [];
    var i := 0;
    while i < |rows|
      invariant 0 <= i <= |rows| && out == Clean(rows[..i])
    {
      assert rows[..i + 1][..i] == rows[..i];
      var key := KeyName(rows[i].key);
      if key != "" {
        var count := Amount(rows[i].count);
        var known := At(out, key);
        if known.Some? && known.value > count {
          count := known.value;
        }
        out := Put(out, key, count);
      }
      i := i + 1;
    }
    assert rows[..i] == rows;
  }

  /** A name a cleaned dictionary can hold: nonempty, no white space at its ends. */
  predicate Normal(name: string) {
    name != "" && Trimmed(name)
  }

  /** One readable counter for each name. */
  ghost predicate IsClean(d: seq<Row>) {
    && (forall i :: 0 <= i < |d| ==> d[i].key.Name? && d[i].count.Reads? && Normal(d[i].key.text))
    && (forall i, j :: 0 <= i < j < |d| ==> d[i].key != d[j].key)
  }

  /** What a lookup means in a dictionary. */
  lemma {:induction false} AtMeans(d: seq<Row>, name: string)
    ensures At(d, name).None? <==> forall i :: 0 <= i < |d| ==> d[i].key != Name(name)
    ensures At(d, name).Some? ==>
      exists i :: 0 <= i < |d| && d[i].key == Name(name) && Amount(d[i].count) == At(d, name).value
  {
    if d != [] {
      AtMeans(d[1..], name);
      if At(d, name).None? {
        forall i | 0 <= i < |d| ensures d[i].key != Name(name) {
          if i > 0 { assert d[i] == d[1..][i - 1]; }
        }
      } else if d[0].key != Name(name) {
        var i :| 0 <= i < |d[1..]| && d[1..][i].key == Name(name) && Amount(d[1..][i].count) == At(d, name).value;
        assert d[i + 1] == d[1..][i];
      } else {
        assert Amount(d[0].count) == At(d, name).value;
      }
    }
  }

  lemma {:induction false} PutMeans(d: seq<Row>, name: string, n: int)
    ensures forall other :: At(Put(d, name, n), other) == if other == name then Some(n) else At(d, other)
    ensures forall r :: r in Put(d, name, n) ==> r in d || r == Entry(name, n)
    ensures IsClean(d) && Normal(name) ==> IsClean(Put(d, name, n))
    decreases |d|
  {
    if d != [] && d[0].key != Name(name) {
      PutMeans(d[1..], name, n);
      var rest := Put(d[1..], name, n);
      forall other
        ensures At(Put(d, name, n), other) == if other == name then Some(n) else At(d, other)
      {
        assert ([d[0]] + rest)[1..] == rest;
      }
      if IsClean(d) && Normal(name) {
        assert IsClean(d[1..]);
        AtMeans(d[1..], d[0].key.text);
        AtMeans(rest, d[0].key.text);
        assert IsClean([d[0]] + rest);
      }
    } else if d != [] {
      assert ([Entry(name, n)] + d[1..])[1..] == d[1..];
    }
  }

  /** The rows without row i, if there is one. */
  function Cut(d: seq<Row>, i: nat): seq<Row> {
    if i < |d| then d[..i] + d[i + 1..] else d
  }

  lemma CutAfterHead(d: seq<Row>, k: nat)
    requires d != []
    ensures Cut(d, k + 1) == [d[0]] + Cut(d[1..], k)
  {
    if k + 1 < |d| {
      assert d[..k + 1] == [d[0]] + d[1..][..k];
      assert d[1..][k + 1..] == d[k + 2..];
    }
  }

  /** Removing cuts out the entry at i, or none when i is past the end. */
  lemma {:induction false} RemoveShape(d: seq<Row>, name: string) returns (i: nat)
    ensures i <= |d| && Remove(d, name) == Cut(d, i)
  {
    if d == [] || d[0].key == Name(name) {
      i := 0;
    } else {
      var k := RemoveShape(d[1..], name);
      i := k + 1;
      CutAfterHead(d, k);
    }
  }

  lemma CutIsClean(d: seq<Row>, i: nat)
    requires IsClean(d)
    ensures IsClean(Cut(d, i))
  {
    var out := Cut(d, i);
    assert forall k :: 0 <= k < |out| ==> out[k] == d[if k < i then k else k + 1];
  }

  lemma RemoveKeepsClean(d: seq<Row>, name: string)
    requires IsClean(d)
    ensures IsClean(Remove(d, name))
  {
    var i := RemoveShape(d, name);
    CutIsClean(d, i);
  }

  lemma {:induction false} RemoveMeans(d: seq<Row>, name: string, other: string)
    requires IsClean(d)
    ensures At(Remove(d, name), other) == if other == name then None else At(d, other)
  {
    if d != [] {
      assert IsClean(d[1..]);
      AtMeans(d[1..], d[0].key.text);
      if d[0].key != Name(name) {
        RemoveMeans(d[1..], name, other);
        assert Remove(d, name)[1..] == Remove(d[1..], name);
      }
    }
  }

  /** In a cleaned dictionary the reader finds what a plain lookup finds. */
  lemma {:induction false} BestIsAt(d: seq<Row>, name: string)
    requires IsClean(d)
    ensures Best(d, name) == At(d, name)
  {
    AtMeans(d, name);
    if exists i :: 0 <= i < |d| && d[i].key == Name(name) {
      var i :| 0 <= i < |d| && d[i].key == Name(name);
      BestOfUnique(d, i);
    } else {
      BestOfNone(d, name);
    }
  }

  lemma {:induction false} BestOfNone(d: seq<Row>, name: string)
    requires forall i :: 0 <= i < |d| ==> KeyName(d[i].key) != name
    ensures Best(d, name) == None
  {
    if d != [] {
      BestOfNone(d[..|d| - 1], name);
    }
  }

  lemma {:induction false} BestOfUnique(d: seq<Row>, i: nat)
    requires IsClean(d) && i < |d|
    ensures Best(d, d[i].key.text) == Some(d[i].count.n)
  {
    var n := |d| - 1;
    var name := d[i].key.text;
    assert IsClean(d[..n]);
    if i == n {
      BestOfNone(d[..n], name);
    } else {
      BestOfUnique(d[..n], i);
    }
  }

  lemma KeyNameIsTrimmed(k: Key)
    ensures Trimmed(KeyName(k))
  {
  }

  /** The counter two spellings of one name leave: the larger. */
  function Larger(known: Option<int>, n: int): int {
    if known.Some? && known.value > n then known.value else n
  }

  lemma FoldMeans(d: seq<Row>, row: Row, other: string)
    requires IsClean(d) && other != ""
    ensures IsClean(Fold(d, row))
    ensures At(Fold(d, row), other) ==
            if other == KeyName(row.key) then Some(Larger(At(d, other), Amount(row.count))) else At(d, other)
  {
    var name := KeyName(row.key);
    KeyNameIsTrimmed(row.key);
    PutMeans(d, name, Larger(At(d, name), Amount(row.count)));
  }

  lemma {:induction false} CleanIsClean(rows: seq<Row>)
    ensures IsClean(Clean(rows))
  {
    if rows != [] {
      CleanIsClean(rows[..|rows| - 1]);
      FoldMeans(Clean(rows[..|rows| - 1]), rows[|rows| - 1], "x");
    }
  }

  lemma {:induction false} CleanLooksUpBest(rows: seq<Row>, name: string)
    requires name != ""
    ensures At(Clean(rows), name) == Best(rows, name)
  {
    if rows != [] {
      CleanLooksUpBest(rows[..|rows| - 1], name);
      CleanIsClean(rows[..|rows| - 1]);
      FoldMeans(Clean(rows[..|rows| - 1]), rows[|rows| - 1], name);
    }
  }

  /** Cleaning changes no account's counter: the larger of several spellings wins either way. */
  lemma CleanKeepsReading(rows: seq<Row>, name: string)
    requires name != ""
    ensures Best(Clean(rows), name) == Best(rows, name)
  {
    CleanIsClean(rows);
    BestIsAt(Clean(rows), name);
    CleanLooksUpBest(rows, name);
  }

  lemma {:induction false} PutAppends(d: seq<Row>, name: string, n: int)
    requires At(d, name).None?
    ensures Put(d, name, n) == d + [Entry(name, n)]
  {
    if d != [] {
      PutAppends(d[1..], name, n);
    }
  }

  /** Cleaning twice is cleaning once. */
  lemma {:induction false} CleanIsIdempotent(d: seq<Row>)
    requires IsClean(d)
    ensures Clean(d) == d
  {
    if d != [] {
      FoldAppends(d);
      CleanIsIdempotent(d[..|d| - 1]);
    }
  }

  /** The last row of a clean dictionary folds onto the others as it is. */
  lemma FoldAppends(d: seq<Row>)
    requires d != [] && IsClean(d)
    ensures IsClean(d[..|d| - 1]) && Fold(d[..|d| - 1], d[|d| - 1]) == d
  {
    var n := |d| - 1;
    AtMeans(d[..n], d[n].key.text);
    PutAppends(d[..n], d[n].key.text, d[n].count.n);
    assert d == d[..n] + [d[n]];
  }

  lemma CleanTwice(rows: seq<Row>)
    ensures Clean(Clean(rows)) == Clean(rows)
  {
    CleanIsClean(rows);
    CleanIsIdempotent(Clean(rows));
  }

  // ---- logout and deletion -----------------------------------------------------------

  /** `bump_session_epoch`: one more than the cleaned counter. */
  function Bumped(rows: seq<Row>, name: string): seq<Row> {
    Put(Clean(rows), name, At(Clean(rows), name).GetOr(0) + 1)
  }

  /** `delete_account` drops the counter. */
  function Dropped(rows: seq<Row>, name: string): seq<Row> {
    Remove(Clean(rows), name)
  }

  lemma CleanReads(rows: seq<Row>, name: string)
    requires name != ""
    ensures Reading(rows, name) == At(Clean(rows), name).GetOr(0)
  {
    CleanLooksUpBest(rows, name);
  }

  lemma PutReads(d: seq<Row>, name: string, n: int, other: string)
    requires IsClean(d) && Normal(name)
    ensures Reading(Put(d, name, n), other) == if other == name then n else At(d, other).GetOr(0)
  {
    PutMeans(d, name, n);
    BestIsAt(Put(d, name, n), other);
  }

  /** A bump raises the named account's counter by one, and no other account's. */
  lemma BumpMeaning(rows: seq<Row>, name: string, other: string)
    requires Normal(name) && other != ""
    ensures Reading(Bumped(rows, name), other) == Reading(rows, other) + if other == name then 1 else 0
  {
    CleanIsClean(rows);
    CleanReads(rows, other);
    PutReads(Clean(rows), name, At(Clean(rows), name).GetOr(0) + 1, other);
  }

  lemma BumpIsClean(rows: seq<Row>, name: string)
    requires Normal(name)
    ensures IsClean(Bumped(rows, name))
  {
    CleanIsClean(rows);
    PutKeepsClean(Clean(rows), name, At(Clean(rows), name).GetOr(0) + 1);
  }

  lemma PutKeepsClean(d: seq<Row>, name: string, n: int)
    requires IsClean(d) && Normal(name)
    ensures IsClean(Put(d, name, n))
  {
    PutMeans(d, name, n);
  }

  /** A bump as the account writers make it: the block is cleaned first. */
  function BumpedBlock(rows: seq<Row>, name: string): seq<Row> {
    Bumped(Clean(rows), name)
  }

  lemma BumpedBlockMeaning(rows: seq<Row>, name: string, other: string)
    requires Normal(name) && other != ""
    ensures Reading(BumpedBlock(rows, name), other) == Reading(rows, other) + if other == name then 1 else 0
  {
    CleanKeepsReading(rows, other);
    BumpMeaning(Clean(rows), name, other);
  }

  function BumpedTimes(rows: seq<Row>, name: string, n: nat): seq<Row>
    decreases n
  {
    if n == 0 then rows else BumpedTimes(BumpedBlock(rows, name), name, n - 1)
  }

  lemma {:induction false} BumpsCount(rows: seq<Row>, name: string, n: nat)
    requires Normal(name)
    ensures Reading(BumpedTimes(rows, name, n), name) == Reading(rows, name) + n
    decreases n
  {
    if n > 0 {
      BumpedBlockMeaning(rows, name, name);
      BumpsCount(BumpedBlock(rows, name), name, n - 1);
    }
  }

  /** A bump is seen by the name it was asked for exactly when that name is spelled without outer white space. */
  lemma BumpTakesIffNormal(rows: seq<Row>, name: string)
    requires name != ""
    ensures Reading(Bumped(rows, name), name) > Reading(rows, name) <==> Normal(name)
  {
    if Normal(name) {
      BumpMeaning(rows, name, name);
    } else {
      CleanIsClean(rows);
      PutMeans(Clean(rows), name, At(Clean(rows), name).GetOr(0) + 1);
      NeverNamed(Bumped(rows, name), name);
      NeverNamed(rows, name);
    }
  }

  lemma NeverNamed(rows: seq<Row>, name: string)
    requires !Trimmed(name)
    ensures Reading(rows, name) == 0
  {
    forall i | 0 <= i < |rows| ensures KeyName(rows[i].key) != name {
      KeyNameIsTrimmed(rows[i].key);
    }
    BestOfNone(rows, name);
  }

  lemma DropMeaning(rows: seq<Row>, name: string, other: string)
    requires other != ""
    ensures Reading(Dropped(rows, name), other) == if other == name then 0 else Reading(rows, other)
  {
    CleanIsClean(rows);
    RemoveKeepsClean(Clean(rows), name);
    RemoveMeans(Clean(rows), name, other);
    BestIsAt(Dropped(rows, name), other);
    CleanReads(rows, other);
  }

  /** The counters of a deleted account's block, which is cleaned before the counter goes. */
  lemma DroppedBlockMeaning(rows: seq<Row>, name: string, other: string)
    requires other != ""
    ensures Reading(Dropped(Clean(rows), name), other) == if other == name then 0 else Reading(rows, other)
  {
    CleanKeepsReading(rows, other);
    DropMeaning(Clean(rows), name, other);
  }
}
