/**
 The life of an API key (hub/api_keys.py): which token opens which key, from the creation
 of the key to its revocation or expiry, over every interleaving of processes.
 */
module ApiKeyLife {
  import opened Options
  import opened Text
  import opened ApiKeys

  // ---- which record answers ---------------------------------------------------------------

  /** A record with that digest that has not expired.  One with an unreadable expiry passes on a clock before 1970 only. */
  ghost predicate Opens(r: Record, supplied: string, at: int) {
    && r.digest == supplied && r.digest != ""
    && (|| r.expires == Missing
        || (exists e :: at < e && (r.expires == Whole(e) || r.expires == Finite(e) || r.expires == Written(Some(e))))
        || (at < 0 && (r.expires.Flag? || r.expires.OverCap? || r.expires.NotFinite? || r.expires.Other? || r.expires == Written(None))))
  }

  /** The last record with the digest answers. */
  ghost predicate Answers(rows: seq<Record>, i: nat, supplied: string, at: int) {
    && i < |rows| && Opens(rows[i], supplied, at)
    && forall k :: i < k < |rows| ==> rows[k].digest != supplied
  }

  lemma OpensMeans(r: Record, supplied: string, at: int)
    ensures Opens(r, supplied, at) <==> r.digest == supplied && r.digest != "" && !Expired(Persistable(r).expires, at)
  {
  }

  /** Whom a token speaks for. */
  datatype Bearer = Bearer(id: string, name: string, role: string)

  function BearerOf(v: View): Bearer {
    Bearer(v.id, v.name, v.role)
  }

  ghost predicate AnsweredBy(rows: seq<Record>, supplied: string, at: int, who: Bearer) {
    exists i: nat :: Answers(rows, i, supplied, at)
      && rows[i].id == who.id && rows[i].name == who.name && who.role == if rows[i].role == "" then "member" else rows[i].role
  }

  lemma AnswersMeans(rows: seq<Record>, i: nat, supplied: string, at: int)
    ensures Answers(rows, i, supplied, at) <==>
            LastMatch(Cleaned(rows), supplied) == Some(i) && !Expired(Cleaned(rows)[i].expires, at)
  {
    var keys := Cleaned(rows);
    if i < |rows| {
      OpensMeans(rows[i], supplied, at);
      assert forall k :: 0 <= k < |rows| ==> keys[k].digest == rows[k].digest;
      if Answers(rows, i, supplied, at) {
        assert Matches(keys[i], supplied);
        assert forall k :: i < k < |keys| ==> !Matches(keys[k], supplied);
      }
    }
  }

  lemma VerifyAnswers(s: Store, supplied: string, at: int, who: Bearer)
    ensures var r := Atomic(s, Verify(supplied, at)).1;
      (r.Accepted? && BearerOf(r.view) == who <==> AnsweredBy(s.file, supplied, at, who)) && (r.Accepted? || r == Denied)
  {
    var keys := Cleaned(s.file);
    var hit := LastMatch(keys, supplied);
    forall i: nat
      ensures Answers(s.file, i, supplied, at) <==> hit == Some(i) && !Expired(keys[i].expires, at)
    {
      AnswersMeans(s.file, i, supplied, at);
    }
    if hit.Some? {
      AcceptanceView(s, keys, hit.value, at);
      assert keys[hit.value] == Persistable(s.file[hit.value]);
    }
  }

  lemma ResultAnswers(file: seq<Record>, calls: seq<Call>, k: nat, supplied: string, at: int, who: Bearer)
    requires k < |calls| && calls[k].op == Verify(supplied, at)
    ensures var r := ResultAt(file, calls, k);
      (r.Accepted? && BearerOf(r.view) == who <==> AnsweredBy(Serial(file, calls[..k]).file, supplied, at, who)) && (r.Accepted? || r == Denied)
  {
    VerifyAnswers(StoreOf(Serial(file, calls[..k]), calls[k].proc), supplied, at, who);
  }

  /**
   In any interleaving, a verification answers with an id, a name and a role exactly when
   the file at its commit has such a record for this very digest, not expired, and no later
   record has the digest.  Otherwise it denies.
   */
  lemma AcceptedIff(file: seq<Record>, acts: seq<Action>, k: nat, supplied: string, at: int, who: Bearer)
    requires Run(file, acts).Some? && k < |Run(file, acts).value.calls|
    requires Run(file, acts).value.calls[k].op == Verify(supplied, at)
    ensures var s := Run(file, acts).value;
      && k < |s.world.results|
      && (s.world.results[k].Accepted? && BearerOf(s.world.results[k].view) == who <==>
          AnsweredBy(Serial(file, s.calls[..k]).file, supplied, at, who))
      && (s.world.results[k].Accepted? || s.world.results[k] == Denied)
  {
    InterleavedResults(file, acts, k);
    ResultAnswers(file, Run(file, acts).value.calls, k, supplied, at, who);
  }

  // ---- which keys the file holds --------------------------------------------------------------

  /** What a record says about its key, apart from when it was made and used. */
  datatype Key = Key(id: string, name: string, role: string, digest: string, expires: Stamp)

  function KeyOf(r: Record): Key {
    Key(r.id, r.name, r.role, r.digest, Persistable(r).expires)
  }

  function KeySet(rows: seq<Record>): set<Key> {
    set i | 0 <= i < |rows| :: KeyOf(rows[i])
  }

  lemma CleanedKeys(rows: seq<Record>)
    ensures KeySet(Cleaned(rows)) == KeySet(rows)
  {
    assert forall i :: 0 <= i < |rows| ==> KeyOf(Cleaned(rows)[i]) == KeyOf(rows[i]);
  }

  lemma CreationKeys(s: Store, op: Op)
    requires op.Create?
    ensures var (s', r) := Creation(s, Cleaned(s.file), op);
      KeySet(s'.file) == if r.Made? then KeySet(s.file) + {KeyOf(Minted(op))} else KeySet(s.file)
  {
    var keys := Cleaned(s.file);
    CleanedKeys(s.file);
    CleanedKeys(keys + [Minted(op)]);
    AppendKeys(keys, Minted(op));
  }

  lemma AppendKeys(keys: seq<Record>, r: Record)
    ensures KeySet(keys + [r]) == KeySet(keys) + {KeyOf(r)}
  {
    var more := keys + [r];
    assert more[|keys|] == r && forall i :: 0 <= i < |keys| ==> more[i] == keys[i];
  }

  lemma WithoutKeys(keys: seq<Record>, cut: nat)
    requires cut < |keys| && Unique(Ids(keys))
    ensures KeySet(Without(keys, cut)) == set key | key in KeySet(keys) && key.id != keys[cut].id
  {
    var rest := Without(keys, cut);
    assert forall i :: 0 <= i < |rest| ==> rest[i] == keys[if i < cut then i else i + 1];
    assert forall i :: 0 <= i < |keys| && i != cut ==> Ids(keys)[i] != Ids(keys)[cut];
    forall key | key in KeySet(keys) && key.id != keys[cut].id
      ensures key in KeySet(rest)
    {
      var i :| 0 <= i < |keys| && KeyOf(keys[i]) == key;
      assert rest[if i < cut then i else i - 1] == keys[i];
    }
  }

  lemma RevocationKeys(s: Store, id: string)
    requires Unique(Ids(s.file))
    ensures KeySet(Revocation(s, Cleaned(s.file), id).0.file) == set key | key in KeySet(s.file) && key.id != id
  {
    var keys := Cleaned(s.file);
    CleanedKeys(s.file);
    CleanedIds(s.file);
    RevocationFile(s, keys, id);
    match FirstWithId(keys, id)
    case None =>
    case Some(i) =>
      WithoutKeys(keys, i);
      CleanedKeys(Without(keys, i));
  }

  lemma VerificationKeys(s: Store, supplied: string, at: int)
    ensures KeySet(Verification(s, Cleaned(s.file), supplied, at).0.file) == KeySet(s.file)
  {
    var keys := Cleaned(s.file);
    VerificationFile(s, keys, supplied, at);
    CleanedKeys(s.file);
    var hit := LastMatch(keys, supplied);
    if hit.Some? {
      TouchedKeys(keys, hit.value, at);
      CleanedKeys(Touched(keys, hit.value, at));
    }
  }

  lemma TouchedKeys(keys: seq<Record>, i: nat, at: int)
    requires i < |keys|
    ensures KeySet(Touched(keys, i, at)) == KeySet(keys)
  {
    assert forall k :: 0 <= k < |keys| ==> KeyOf(Touched(keys, i, at)[k]) == KeyOf(keys[k]);
  }

  lemma AtomicKeys(s: Store, op: Op)
    requires Unique(Ids(s.file))
    ensures var (s', r) := Atomic(s, op);
      KeySet(s'.file) ==
      match op
      case Create(_, _, _, _, _, _) => if r.Made? then KeySet(s.file) + {KeyOf(Minted(op))} else KeySet(s.file)
      case Revoke(id) => set key | key in KeySet(s.file) && key.id != id
      case Verify(_, _) => KeySet(s.file)
  {
    match op
    case Create(_, _, _, _, _, _) => CreationKeys(s, op);
    case Revoke(id) => RevocationKeys(s, id);
    case Verify(supplied, at) => VerificationKeys(s, supplied, at);
  }

  // ---- a key's life ------------------------------------------------------------------------------

  ghost predicate Unrevoked(calls: seq<Call>, j: nat, k: nat, id: string)
    requires k <= |calls|
  {
    forall m :: j < m < k ==> calls[m].op != Revoke(id)
  }

  /** The call at j made a key, and none before k revoked it. */
  ghost predicate Alive(calls: seq<Call>, j: nat, k: nat) {
    && j < k <= |calls| && calls[j].op.Create? && ResultAt([], calls, j).Made?
    && Unrevoked(calls, j, k, calls[j].op.id)
  }

  lemma UnrevokedBefore(calls: seq<Call>, j: nat, id: string)
    requires j + 1 < |calls|
    ensures var n := |calls| - 1;
      Unrevoked(calls, j, |calls|, id) <==> Unrevoked(calls[..n], j, n, id) && calls[n].op != Revoke(id)
  {
    var n := |calls| - 1;
    assert forall m :: 0 <= m < n ==> calls[..n][m] == calls[m];
  }

  lemma AliveBefore(calls: seq<Call>, j: nat)
    requires calls != []
    ensures var n := |calls| - 1;
      Alive(calls, j, |calls|) <==>
      if j == n then calls[n].op.Create? && ResultAt([], calls, n).Made?
      else Alive(calls[..n], j, n) && calls[n].op != Revoke(calls[j].op.id)
  {
    var n := |calls| - 1;
    if j < n {
      ResultBefore(calls, n, j);
      if calls[j].op.Create? {
        UnrevokedBefore(calls, j, calls[j].op.id);
      }
    }
  }

  lemma ResultBefore(calls: seq<Call>, n: nat, j: nat)
    requires j < n <= |calls|
    ensures calls[..n][j] == calls[j] && ResultAt([], calls[..n], j) == ResultAt([], calls, j)
  {
    assert calls[..n][..j] == calls[..j];
  }

  ghost predicate Source(calls: seq<Call>, j: nat, key: Key) {
    Alive(calls, j, |calls|) && key == KeyOf(Minted(calls[j].op))
  }

  ghost predicate AliveKey(calls: seq<Call>, key: Key) {
    exists j: nat :: Source(calls, j, key)
  }

  lemma SourceBefore(calls: seq<Call>, j: nat, key: Key)
    requires calls != []
    ensures var n := |calls| - 1;
      Source(calls, j, key) <==>
      if j == n then calls[n].op.Create? && ResultAt([], calls, n).Made? && key == KeyOf(Minted(calls[n].op))
      else Source(calls[..n], j, key) && calls[n].op != Revoke(key.id)
  {
    AliveBefore(calls, j);
  }

  lemma AliveStep(calls: seq<Call>, key: Key)
    requires calls != []
    ensures var n := |calls| - 1;
      AliveKey(calls, key) <==>
      match calls[n].op
      case Create(_, _, _, _, _, _) => AliveKey(calls[..n], key) || (ResultAt([], calls, n).Made? && key == KeyOf(Minted(calls[n].op)))
      case Revoke(id) => AliveKey(calls[..n], key) && key.id != id
      case Verify(_, _) => AliveKey(calls[..n], key)
  {
    var n := |calls| - 1;
    if j: nat :| Source(calls, j, key) {
      SourceBefore(calls, j, key);
    }
    if j: nat :| Source(calls[..n], j, key) {
      SourceBefore(calls, j, key);
    }
    SourceBefore(calls, n, key);
  }

  /** From an empty file, the file holds exactly the keys that were made and not revoked. */
  lemma {:induction false} FileHoldsTheAlive(calls: seq<Call>, key: Key)
    requires FreshIds([], calls)
    ensures key in KeySet(Serial([], calls).file) <==> AliveKey(calls, key)
    decreases |calls|
  {
    if calls != [] {
      var n := |calls| - 1;
      var s := StoreOf(Serial([], calls[..n]), calls[n].proc);
      FileHoldsTheAlive(calls[..n], key);
      SerialIds([], calls[..n]);
      SerialStep([], calls);
      AtomicKeys(s, calls[n].op);
      AliveStep(calls, key);
    }
  }

  /** Random tokens: no two creations share a digest. */
  ghost predicate FreshDigests(calls: seq<Call>) {
    && (forall i :: 0 <= i < |calls| && calls[i].op.Create? ==> calls[i].op.digest != "")
    && (forall i, j :: 0 <= i < j < |calls| && calls[i].op.Create? && calls[j].op.Create? ==> calls[i].op.digest != calls[j].op.digest)
  }

  /** The call at j made the key of that digest and id, and at call k it is neither revoked nor expired. */
  ghost predicate GoodFor(calls: seq<Call>, results: seq<Result>, j: nat, k: nat, supplied: string, at: int, who: Bearer) {
    && j < k <= |calls| && k <= |results| && calls[j].op.Create? && results[j].Made?
    && calls[j].op.digest == supplied && who == Bearer(calls[j].op.id, Strip(calls[j].op.name), calls[j].op.role)
    && (calls[j].op.days.Some? ==> at < calls[j].op.at + calls[j].op.days.value * 86400)
    && Unrevoked(calls, j, k, who.id)
  }

  lemma AnsweringKeyIsAlive(calls: seq<Call>, supplied: string, at: int, who: Bearer) returns (j: nat)
    requires FreshIds([], calls) && AnsweredBy(Serial([], calls).file, supplied, at, who)
    ensures Alive(calls, j, |calls|) && calls[j].op.digest == supplied
    ensures who == Bearer(calls[j].op.id, Strip(calls[j].op.name), calls[j].op.role)
    ensures calls[j].op.days.Some? ==> at < calls[j].op.at + calls[j].op.days.value * 86400
  {
    var rows := Serial([], calls).file;
    var i: nat :| Answers(rows, i, supplied, at)
      && rows[i].id == who.id && rows[i].name == who.name && who.role == if rows[i].role == "" then "member" else rows[i].role;
    assert KeyOf(rows[i]) in KeySet(rows);
    FileHoldsTheAlive(calls, KeyOf(rows[i]));
    j :| Source(calls, j, KeyOf(rows[i]));
    OpensMeans(rows[i], supplied, at);
    MintedIsClean(calls[j].op, at);
    MadeIsComplete(calls, j);
  }

  /** What a creation accepts, in the numbers of the source. */
  lemma MadeIsComplete(calls: seq<Call>, j: nat)
    requires j < |calls| && calls[j].op.Create?
    ensures var op := calls[j].op;
      ResultAt([], calls, j).Made? <==>
      && 1 <= |Strip(op.name)| <= 64 && (op.role == "admin" || op.role == "member")
      && (op.days.Some? ==> 1 <= op.days.value <= 3650) && |Serial([], calls[..j]).file| < 50
  {
  }

  lemma AliveKeyAnswers(calls: seq<Call>, j: nat, at: int)
    requires FreshIds([], calls) && FreshDigests(calls) && Alive(calls, j, |calls|)
    requires calls[j].op.days.Some? ==> at < calls[j].op.at + calls[j].op.days.value * 86400
    ensures AnsweredBy(Serial([], calls).file, calls[j].op.digest, at, Bearer(calls[j].op.id, Strip(calls[j].op.name), calls[j].op.role))
  {
    var rows, op := Serial([], calls).file, calls[j].op;
    assert Source(calls, j, KeyOf(Minted(op)));
    FileHoldsTheAlive(calls, KeyOf(Minted(op)));
    var i :| 0 <= i < |rows| && KeyOf(rows[i]) == KeyOf(Minted(op));
    OpensMeans(rows[i], op.digest, at);
    MintedIsClean(op, at);
    forall k | i < k < |rows|
      ensures rows[k].digest != op.digest
    {
      OneRecordPerDigest(calls, i, k);
    }
    MadeIsComplete(calls, j);
    assert Answers(rows, i, op.digest, at) && rows[i].role == op.role != "";
  }

  lemma OneRecordPerDigest(calls: seq<Call>, i: nat, k: nat)
    requires FreshIds([], calls) && FreshDigests(calls) && i < k < |Serial([], calls).file|
    ensures Serial([], calls).file[i].digest != Serial([], calls).file[k].digest
  {
    var rows := Serial([], calls).file;
    SerialIds([], calls);
    assert Ids(rows)[i] != Ids(rows)[k];
    assert KeyOf(rows[i]) in KeySet(rows) && KeyOf(rows[k]) in KeySet(rows);
    FileHoldsTheAlive(calls, KeyOf(rows[i]));
    FileHoldsTheAlive(calls, KeyOf(rows[k]));
    var a: nat :| Source(calls, a, KeyOf(rows[i]));
    var b: nat :| Source(calls, b, KeyOf(rows[k]));
    assert a != b;
  }

  lemma PrefixIsAlive(calls: seq<Call>, results: seq<Result>, j: nat, k: nat)
    requires j < k <= |calls| && k <= |results| && (forall i :: 0 <= i < k ==> results[i] == ResultAt([], calls, i))
    ensures Alive(calls[..k], j, k) <==>
      calls[j].op.Create? && results[j].Made? && Unrevoked(calls, j, k, calls[j].op.id)
  {
    ResultBefore(calls, k, j);
    assert forall m :: 0 <= m < k ==> calls[..k][m] == calls[m];
  }

  /**
   A key's whole life, over every interleaving of processes from an empty file: a digest is
   answered with an id, a name and a role exactly when an earlier call made that key for it,
   no call in between revoked it, and its days have not passed.
   */
  lemma KeyLife(acts: seq<Action>, k: nat, supplied: string, at: int, who: Bearer)
    requires Run([], acts).Some?
    requires var calls := Run([], acts).value.calls;
      k < |calls| && calls[k].op == Verify(supplied, at) && FreshIds([], calls) && FreshDigests(calls)
    ensures var calls, results := Run([], acts).value.calls, Run([], acts).value.world.results;
      && |results| == |calls|
      && (results[k].Accepted? && BearerOf(results[k].view) == who <==> exists j: nat :: GoodFor(calls, results, j, k, supplied, at, who))
  {
    var calls, results := Run([], acts).value.calls, Run([], acts).value.world.results;
    forall i | 0 <= i < |calls|
      ensures i < |results| && results[i] == ResultAt([], calls, i) && |results| == |calls|
    {
      InterleavedResults([], acts, i);
    }
    AcceptedIff([], acts, k, supplied, at, who);
    KeyLifeAt(calls, results, k, supplied, at, who);
  }

  lemma KeyLifeAt(calls: seq<Call>, results: seq<Result>, k: nat, supplied: string, at: int, who: Bearer)
    requires k < |calls| == |results| && FreshIds([], calls) && FreshDigests(calls)
    requires forall i :: 0 <= i < |calls| ==> results[i] == ResultAt([], calls, i)
    ensures AnsweredBy(Serial([], calls[..k]).file, supplied, at, who) <==>
            exists j: nat :: GoodFor(calls, results, j, k, supplied, at, who)
  {
    FreshIdsPrefix([], calls, k);
    assert FreshDigests(calls[..k]) by {
      assert forall m :: 0 <= m < k ==> calls[..k][m] == calls[m];
    }
    if AnsweredBy(Serial([], calls[..k]).file, supplied, at, who) {
      var j := AnsweringKeyIsAlive(calls[..k], supplied, at, who);
      PrefixIsAlive(calls, results, j, k);
      assert GoodFor(calls, results, j, k, supplied, at, who);
    }
    if j: nat :| GoodFor(calls, results, j, k, supplied, at, who) {
      PrefixIsAlive(calls, results, j, k);
      AliveKeyAnswers(calls[..k], j, at);
    }
  }

  // ---- revoking ------------------------------------------------------------------------------------

  ghost predicate AliveId(calls: seq<Call>, j: nat, id: string) {
    Alive(calls, j, |calls|) && calls[j].op.id == id
  }

  lemma IdsAreAlive(calls: seq<Call>, id: string)
    requires FreshIds([], calls)
    ensures id in Ids(Serial([], calls).file) <==> exists j: nat :: AliveId(calls, j, id)
  {
    IdsAreKeys(Serial([], calls).file, id);
    if key :| key in KeySet(Serial([], calls).file) && key.id == id {
      FileHoldsTheAlive(calls, key);
      var j: nat :| Source(calls, j, key);
      assert AliveId(calls, j, id);
    }
    if j: nat :| AliveId(calls, j, id) {
      assert Source(calls, j, KeyOf(Minted(calls[j].op)));
      FileHoldsTheAlive(calls, KeyOf(Minted(calls[j].op)));
    }
  }

  lemma IdsAreKeys(rows: seq<Record>, id: string)
    ensures id in Ids(rows) <==> exists key :: key in KeySet(rows) && key.id == id
  {
    if id in Ids(rows) {
      var i :| 0 <= i < |rows| && Ids(rows)[i] == id;
      assert KeyOf(rows[i]) in KeySet(rows) && KeyOf(rows[i]).id == id;
    }
    if key :| key in KeySet(rows) && key.id == id {
      var i :| 0 <= i < |rows| && KeyOf(rows[i]) == key;
      assert Ids(rows)[i] == id;
    }
  }

  lemma RevokeResult(calls: seq<Call>, k: nat, id: string)
    requires k < |calls| && calls[k].op == Revoke(id)
    ensures ResultAt([], calls, k).Removed? || ResultAt([], calls, k) == Unknown
    ensures ResultAt([], calls, k).Removed? <==> id in Ids(Serial([], calls[..k]).file)
  {
    var cut := RevocationIds(StoreOf(Serial([], calls[..k]), calls[k].proc), id);
  }

  /** The call at j made the key of that id, and none before k revoked it. */
  ghost predicate MadeBefore(calls: seq<Call>, results: seq<Result>, j: nat, k: nat, id: string) {
    && j < k <= |calls| && k <= |results| && calls[j].op.Create? && results[j].Made? && calls[j].op.id == id
    && Unrevoked(calls, j, k, id)
  }

  lemma MadeIsAlive(calls: seq<Call>, results: seq<Result>, j: nat, k: nat, id: string)
    requires k <= |calls| && k <= |results| && (forall i :: 0 <= i < k ==> results[i] == ResultAt([], calls, i))
    ensures MadeBefore(calls, results, j, k, id) <==> AliveId(calls[..k], j, id)
  {
    if j < k {
      PrefixIsAlive(calls, results, j, k);
    }
  }

  /** A revoke finds a key exactly when an earlier call made it and none in between revoked it. */
  lemma RevokeFindsIff(acts: seq<Action>, k: nat, id: string)
    requires Run([], acts).Some?
    requires var calls := Run([], acts).value.calls;
      k < |calls| && calls[k].op == Revoke(id) && FreshIds([], calls)
    ensures var calls, results := Run([], acts).value.calls, Run([], acts).value.world.results;
      && k < |results| && (results[k].Removed? || results[k] == Unknown)
      && (results[k].Removed? <==> exists j: nat :: MadeBefore(calls, results, j, k, id))
  {
    var calls, results := Run([], acts).value.calls, Run([], acts).value.world.results;
    forall i | 0 <= i < |calls|
      ensures i < |results| && results[i] == ResultAt([], calls, i)
    {
      InterleavedResults([], acts, i);
    }
    RevokeResult(calls, k, id);
    FreshIdsPrefix([], calls, k);
    IdsAreAlive(calls[..k], id);
    forall j: nat
      ensures MadeBefore(calls, results, j, k, id) <==> AliveId(calls[..k], j, id)
    {
      MadeIsAlive(calls, results, j, k, id);
    }
  }

  // ---- what an accepted use leaves -----------------------------------------------------------------

  /** The stored time of the last use: a readable stamp, or 0. */
  function StoredUse(r: Record): int {
    match r.lastUsed
    case Whole(n) => n
    case Finite(n) => n
    case Written(Some(n)) => n
    case _ => 0
  }

  /** The file rewritten with one stamp changed. */
  ghost predicate Stamped(rows: seq<Record>, rows': seq<Record>, i: nat, at: int) {
    && |rows'| == |rows|
    && forall k :: 0 <= k < |rows| ==> rows'[k] == if k == i then Persistable(rows[k]).(lastUsed := Whole(at)) else Persistable(rows[k])
  }

  /**
   An accepted use is written to the file exactly when an hour has passed since the stored
   one, and then changes that stamp alone; the answer shows the later of the two.
   */
  lemma UseIsWritten(s: Store, i: nat, supplied: string, at: int)
    requires Answers(s.file, i, supplied, at)
    ensures var (s', r) := Atomic(s, Verify(supplied, at));
      && r.Accepted?
      && (at - StoredUse(s.file[i]) < 3600 ==> s'.file == s.file)
      && (at - StoredUse(s.file[i]) >= 3600 ==>
            Stamped(s.file, s'.file, i, at))
      && r.view.lastUsed == (var last := if StoredUse(s.file[i]) >= at then StoredUse(s.file[i]) else at;
                             if last == 0 then None else Some(last))
      && s'.seen == s.seen[s.file[i].id := at]
  {
    AnswerIsAcceptance(s, i, supplied, at);
    AcceptanceMeans(s, i, at);
  }

  lemma AnswerIsAcceptance(s: Store, i: nat, supplied: string, at: int)
    requires Answers(s.file, i, supplied, at)
    ensures Atomic(s, Verify(supplied, at)) == Acceptance(s, Cleaned(s.file), i, at)
  {
    AnswersMeans(s.file, i, supplied, at);
  }

  lemma AcceptanceMeans(s: Store, i: nat, at: int)
    requires i < |s.file|
    ensures var (s', r) := Acceptance(s, Cleaned(s.file), i, at);
      var stored := StoredUse(s.file[i]);
      && r.Accepted? && s'.seen == s.seen[s.file[i].id := at]
      && (at - stored < 3600 ==> s'.file == s.file)
      && (at - stored >= 3600 ==> Stamped(s.file, s'.file, i, at))
      && r.view.lastUsed == (var last := if stored >= at then stored else at; if last == 0 then None else Some(last))
  {
    var keys := Cleaned(s.file);
    CleanedAt(s.file, i);
    AcceptanceWrites(s, keys, i, at);
    TouchedIsClean(s.file, i, at);
  }

  lemma CleanedAt(rows: seq<Record>, i: nat)
    requires i < |rows|
    ensures Cleaned(rows)[i].id == rows[i].id && AsEpoch(Cleaned(rows)[i].lastUsed).GetOr(0) == StoredUse(rows[i])
  {
    StoredUseIsRead(rows[i]);
    assert Cleaned(rows)[i] == Persistable(rows[i]);
  }

  lemma AcceptanceWrites(s: Store, keys: seq<Record>, i: nat, at: int)
    requires i < |keys|
    ensures var (s', r) := Acceptance(s, keys, i, at);
      var stored := AsEpoch(keys[i].lastUsed).GetOr(0);
      && r.Accepted? && s'.seen == s.seen[keys[i].id := at]
      && s'.file == (if at - stored >= 3600 then Cleaned(Touched(keys, i, at)) else s.file)
      && r.view.lastUsed == (var last := if stored >= at then stored else at; if last == 0 then None else Some(last))
  {
  }

  lemma StoredUseIsRead(r: Record)
    ensures AsEpoch(Persistable(r).lastUsed).GetOr(0) == StoredUse(r)
  {
  }

  lemma TouchedIsClean(rows: seq<Record>, i: nat, at: int)
    requires i < |rows|
    ensures Stamped(rows, Cleaned(Touched(Cleaned(rows), i, at)), i, at)
  {
    var keys := Cleaned(rows);
    var touched := Touched(keys, i, at);
    forall k | 0 <= k < |rows|
      ensures Persistable(touched[k]) == if k == i then Persistable(rows[k]).(lastUsed := Whole(at)) else Persistable(rows[k])
    {
      assert keys[k] == Persistable(rows[k]);
      PersistableIsStable(rows[k], 0);
      StampIsStable(rows[k], at);
    }
  }

  lemma StampIsStable(r: Record, at: int)
    ensures Persistable(Persistable(r).(lastUsed := Whole(at))) == Persistable(r).(lastUsed := Whole(at))
  {
  }

  // ---- a life as it happens -------------------------------------------------------------------------

  lemma RunExtends(file: seq<Record>, acts: seq<Action>, a: Action)
    requires Run(file, acts).Some? && Enabled(Run(file, acts).value, a)
    ensures Run(file, acts + [a]) == Some(Step(Run(file, acts).value, a))
  {
    assert (acts + [a])[..|acts|] == acts;
  }

  /** One whole call of a process, from taking the lock to releasing it. */
  lemma WholeCall(file: seq<Record>, acts: seq<Action>, p: nat, op: Op) returns (more: seq<Action>)
    requires Run(file, acts).Some? && Run(file, acts).value.holder == None && PcOf(Run(file, acts).value, p).Idle?
    ensures Run(file, more).Some?
    ensures var s, s' := Run(file, acts).value, Run(file, more).value;
      && s'.holder == None && s'.calls == s.calls + [Call(p, op)]
      && forall q: nat :: PcOf(s', q) == PcOf(s, q)
  {
    var one := acts + [Acquire(p, op)];
    RunExtends(file, acts, Acquire(p, op));
    var two := one + [Load(p)];
    RunExtends(file, one, Load(p));
    var three := two + [Commit(p)];
    RunExtends(file, two, Commit(p));
    more := three + [Release(p)];
    RunExtends(file, three, Release(p));
  }

  /** A key made by one process opens in another, until a third revokes it. */
  lemma LivesHappen(create: Op, at: int) returns (acts: seq<Action>)
    requires create.Create? && create.digest != "" && 1 <= |Strip(create.name)| <= 64 && create.role == "member" && create.days == None
    ensures Run([], acts).Some?
    ensures var calls, results := Run([], acts).value.calls, Run([], acts).value.world.results;
      && FreshIds([], calls) && FreshDigests(calls) && |results| == |calls| == 4
      && calls[1].op == Verify(create.digest, at) && results[1].Accepted? && results[1].view.id == create.id
      && calls[3].op == Verify(create.digest, at) && results[3] == Denied
  {
    var a1 := WholeCall([], [], 0, create);
    var a2 := WholeCall([], a1, 1, Verify(create.digest, at));
    var a3 := WholeCall([], a2, 2, Revoke(create.id));
    acts := WholeCall([], a3, 1, Verify(create.digest, at));
    var calls, results := Run([], acts).value.calls, Run([], acts).value.world.results;
    assert calls == [Call(0, create), Call(1, Verify(create.digest, at)), Call(2, Revoke(create.id)), Call(1, Verify(create.digest, at))];
    FreshFirst(calls);
    InterleavedResults([], acts, 0);
    MadeIsComplete(calls, 0);
    var who := Bearer(create.id, Strip(create.name), create.role);
    KeyLife(acts, 1, create.digest, at, who);
    assert GoodFor(calls, results, 0, 1, create.digest, at, who);
    DeniedAfter(acts, create, at);
  }

  lemma {:induction false} FreshFirst(calls: seq<Call>)
    requires forall i :: 0 < i < |calls| ==> !calls[i].op.Create?
    ensures FreshIds([], calls)
    decreases |calls|
  {
    if calls != [] {
      FreshFirst(calls[..|calls| - 1]);
    }
  }

  lemma DeniedAfter(acts: seq<Action>, create: Op, at: int)
    requires Run([], acts).Some? && create.Create?
    requires var calls := Run([], acts).value.calls;
      && |calls| == 4 && FreshIds([], calls) && FreshDigests(calls) && calls[0].op == create && calls[2].op == Revoke(create.id)
      && calls[1].op.Verify? && calls[3].op == Verify(create.digest, at)
    ensures 3 < |Run([], acts).value.world.results| && Run([], acts).value.world.results[3] == Denied
  {
    var calls, results := Run([], acts).value.calls, Run([], acts).value.world.results;
    InterleavedResults([], acts, 3);
    var r := results[3];
    var who := if r.Accepted? then BearerOf(r.view) else Bearer("", "", "");
    AcceptedIff([], acts, 3, create.digest, at, who);
    KeyLife(acts, 3, create.digest, at, who);
    forall j: nat
      ensures !GoodFor(calls, results, j, 3, create.digest, at, who)
    {
      assert !Unrevoked(calls, 0, 3, create.id) by {
        assert calls[2].op == Revoke(create.id);
      }
    }
  }
}
