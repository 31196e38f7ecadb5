/**
 The API-key store (hub/api_keys.py): one file read, changed and rewritten under a file
 lock by every process that shares it, with a throttled write-back of the last use.
 */
module ApiKeys {
  import opened Options
  import opened Text

  const MAX_KEYS: nat := 50
  const MAX_NAME_LENGTH: nat := 64
  const PERSIST_SECONDS: int := 3600
  const DAY: int := 86400
  const ROLES: set<string> := {"admin", "member"}

  // ---- stamps ------------------------------------------------------------------------

  /**
   What a stamp field of the file can hold.  A finite number is kept as its integer
   part, and text as what int() or float() reads in it, if either does.
   */
  datatype Stamp =
    | Missing
    | Flag(on: bool)
    | Whole(n: int)
    | OverCap
    | Finite(whole: int)
    | NotFinite
    | Written(reading: Option<int>)
    | Other

  /** `_as_epoch` without a default. */
  function AsEpoch(s: Stamp): Option<int> {
    match s
    case Whole(n) => Some(n)
    case Finite(n) => Some(n)
    case Written(reading) => reading
    case _ => None
  }

  datatype Record = Record(
    id: string,
    name: string,
    role: string,
    digest: string,
    created: Stamp,
    expires: Stamp,
    lastUsed: Stamp)

  function CleanStamp(s: Stamp, junk: Stamp): Stamp {
    if s.Missing? then s
    else
      match AsEpoch(s)
      case None => junk
      case Some(n) => Whole(n)
  }

  /** `_persistable_record`: a junk expiry becomes 0, every other junk stamp null. */
  function Persistable(r: Record): Record {
    r.(created := CleanStamp(r.created, Missing),
       lastUsed := CleanStamp(r.lastUsed, Missing),
       expires := CleanStamp(r.expires, Whole(0)))
  }

  /** An expiry that is set and cannot be read counts as passed. */
  predicate Expired(expires: Stamp, now: int) {
    !expires.Missing? &&
    match AsEpoch(expires)
    case None => true
    case Some(at) => now >= at
  }

  /** Rewriting a record again changes nothing, and no rewrite changes whether the key has expired. */
  lemma PersistableIsStable(r: Record, now: int)
    requires now >= 0
    ensures Persistable(Persistable(r)) == Persistable(r)
    ensures Expired(Persistable(r).expires, now) <==> Expired(r.expires, now)
    ensures !r.expires.Missing? && AsEpoch(r.expires).None? ==> Expired(Persistable(r).expires, now)
    ensures AsEpoch(Persistable(r).lastUsed).GetOr(0) == AsEpoch(r.lastUsed).GetOr(0)
  {
  }

  /** `_load`, and what `_save` writes. */
  function Cleaned(rows: seq<Record>): (keys: seq<Record>)
    ensures |keys| == |rows|
    ensures forall i :: 0 <= i < |rows| ==> keys[i] == Persistable(rows[i])
  {
    if rows == [] then [] else Cleaned(rows[..|rows| - 1]) + [Persistable(rows[|rows| - 1])]
  }

  // ---- the three operations -------------------------------------------------------------

  datatype View = View(
    id: string,
    name: string,
    role: string,
    created: Option<int>,
    expires: Option<int>,
    lastUsed: Option<int>)

  /** `public_view`: everything but the digest, with the later of the stored and the seen use. */
  function PublicView(r: Record, seen: Option<int>): View {
    var stored, recent := AsEpoch(r.lastUsed).GetOr(0), seen.GetOr(0);
    var last := if stored >= recent then stored else recent;
    View(r.id, r.name, if r.role == "" then "member" else r.role,
         AsEpoch(r.created), AsEpoch(r.expires), if last == 0 then None else Some(last))
  }

  datatype Op =
    | Create(name: string, role: string, days: Option<int>, id: string, digest: string, at: int)
    | Revoke(id: string)
    | Verify(digest: string, at: int)

  datatype Result =
    | Made(view: View)
    | Refused(reason: string)
    | Removed(view: View)
    | Unknown
    | Accepted(view: View)
    | Denied

  /** The file, and when the process last saw each key. */
  datatype Store = Store(file: seq<Record>, seen: map<string, int>)

  function Minted(op: Op): Record
    requires op.Create?
  {
    Record(op.id, Strip(op.name), op.role, op.digest, Whole(op.at),
           if op.days.Some? then Whole(op.at + op.days.value * DAY) else Missing, Missing)
  }

  /** What `create` refuses before it touches the store. */
  function Complaint(op: Op): Option<string>
    requires op.Create?
  {
    if Strip(op.name) == "" || |Strip(op.name)| > MAX_NAME_LENGTH then Some("bad_name")
    else if op.role !in ROLES then Some("bad_role")
    else if op.days.Some? && !(1 <= op.days.value <= 3650) then Some("bad_expiry")
    else None
  }

  function FirstWithId(keys: seq<Record>, id: string): (i: Option<nat>)
    ensures i.Some? ==> i.value < |keys| && keys[i.value].id == id && forall k :: 0 <= k < i.value ==> keys[k].id != id
    ensures i.None? ==> forall k :: 0 <= k < |keys| ==> keys[k].id != id
  {
    if keys == [] then None
    else
      var before := FirstWithId(keys[..|keys| - 1], id);
      if before.Some? then before
      else if keys[|keys| - 1].id == id then Some(|keys| - 1)
      else None
  }

  predicate Matches(r: Record, supplied: string) {
    r.digest != "" && r.digest == supplied
  }

  function LastMatch(keys: seq<Record>, supplied: string): (i: Option<nat>)
    ensures i.Some? ==> i.value < |keys| && Matches(keys[i.value], supplied)
                        && forall k :: i.value < k < |keys| ==> !Matches(keys[k], supplied)
    ensures i.None? ==> forall k :: 0 <= k < |keys| ==> !Matches(keys[k], supplied)
  {
    if keys == [] then None
    else if Matches(keys[|keys| - 1], supplied) then Some(|keys| - 1)
    else LastMatch(keys[..|keys| - 1], supplied)
  }

  /** `now` minus the stored use is at least the floor. */
  predicate Due(r: Record, now: int) {
    now - AsEpoch(r.lastUsed).GetOr(0) >= PERSIST_SECONDS
  }

  function Without(keys: seq<Record>, i: nat): seq<Record>
    requires i < |keys|
  {
    keys[..i] + keys[i + 1..]
  }

  /** `create`, on the snapshot it loaded. */
  function Creation(s: Store, keys: seq<Record>, op: Op): (Store, Result)
    requires op.Create?
  {
    if Complaint(op).Some? then (s, Refused(Complaint(op).value))
    else if |keys| >= MAX_KEYS then (s, Refused("too_many"))
    else (s.(file := Cleaned(keys + [Minted(op)])), Made(PublicView(Minted(op), Get(s.seen, op.id))))
  }

  /** `revoke`: the first record of that id is removed. */
  function Revocation(s: Store, keys: seq<Record>, id: string): (Store, Result) {
    match FirstWithId(keys, id)
    case None => (s, Unknown)
    case Some(i) => (Store(Cleaned(Without(keys, i)), s.seen - {id}), Removed(PublicView(keys[i], None)))
  }

  /** The snapshot with one record's use stamped. */
  function Touched(keys: seq<Record>, i: nat, now: int): seq<Record>
    requires i < |keys|
  {
    keys[i := keys[i].(lastUsed := Whole(now))]
  }

  /** A key that may pass: seen now, and its use written when that is due. */
  function Acceptance(s: Store, keys: seq<Record>, i: nat, now: int): (Store, Result)
    requires i < |keys|
  {
    var due := Due(keys[i], now);
    (Store(if due then Cleaned(Touched(keys, i, now)) else s.file, s.seen[keys[i].id := now]),
     Accepted(PublicView(if due then Touched(keys, i, now)[i] else keys[i], Some(now))))
  }

  /** `verify`: the last record of that digest answers, unless it has expired. */
  function Verification(s: Store, keys: seq<Record>, supplied: string, now: int): (Store, Result) {
    match LastMatch(keys, supplied)
    case None => (s, Denied)
    case Some(i) => if Expired(keys[i].expires, now) then (s, Denied) else Acceptance(s, keys, i, now)
  }

  /**
   One whole operation.  `keys` is the snapshot it loaded; the new file is computed from
   that snapshot, and the old file stays when nothing is saved.
   */
  function Applied(s: Store, keys: seq<Record>, op: Op): (Store, Result) {
    match op
    case Create(_, _, _, _, _, _) => Creation(s, keys, op)
    case Revoke(id) => Revocation(s, keys, id)
    case Verify(supplied, now) => Verification(s, keys, supplied, now)
  }

  /** The operation run alone. */
  function Atomic(s: Store, op: Op): (Store, Result) {
    Applied(s, Cleaned(s.file), op)
  }

  /** Every stored digest is compared; the last match wins. */
  method FindHit(keys: seq<Record>, supplied: string) returns (hit: Option<nat>)
    ensures hit == LastMatch(keys, supplied)
  {
    hit := None;
    var i := 0;
    while i < |keys|
      invariant 0 <= i <= |keys| && hit == LastMatch(keys[..i], supplied)
    {
      assert keys[..i + 1][..i] == keys[..i];
      if Matches(keys[i], supplied) {
        hit := Some(i);
      }
      i := i + 1;
    }
    assert keys[..i] == keys;
  }

  // ---- one process -------------------------------------------------------------------------

  class KeyStore {
    var file: seq<Record>
    var lastSeen: map<string, int>

    constructor (file: seq<Record>)
      ensures View() == Store(file, map[])
    {
      this.file := file;
      lastSeen := map[];
    }

    function View(): Store
      reads this
    {
      Store(file, lastSeen)
    }

    method Load() returns (keys: seq<Record>)
      ensures keys == Cleaned(file)
    {
      keys := [];
      var i := 0;
      while i < |file|
        invariant 0 <= i <= |file| && keys == Cleaned(file[..i])
      {
        assert file[..i + 1][..i] == file[..i];
        keys := keys + [Persistable(file[i])];
        i := i + 1;
      }
      assert file[..i] == file;
    }

    method Save(keys: seq<Record>)
      modifies `file
      ensures file == Cleaned(keys)
    {
      var cleaned: seq<Record> := [];
      var i := 0;
      while i < |keys|
        invariant 0 <= i <= |keys| && cleaned == Cleaned(keys[..i])
      {
        assert keys[..i + 1][..i] == keys[..i];
        cleaned := cleaned + [Persistable(keys[i])];
        i := i + 1;
      }
      assert keys[..i] == keys;
      file := cleaned;
    }

    method CreateKey(op: Op) returns (result: Result)
      requires op.Create?
      modifies this
      ensures (View(), result) == Creation(old(View()), Cleaned(old(file)), op)
    {
      var name := Strip(op.name);
      if name == "" || |name| > MAX_NAME_LENGTH {
        return Refused("bad_name");
      }
      if op.role !in ROLES {
        return Refused("bad_role");
      }
      var expires := Missing;
      if op.days.Some? {
        if !(1 <= op.days.value <= 3650) {
          return Refused("bad_expiry");
        }
        expires := Whole(op.at + op.days.value * DAY);
      }
      var record := Record(op.id, name, op.role, op.digest, Whole(op.at), expires, Missing);
      assert Complaint(op).None? && record == Minted(op);
      var keys := Load();
      if |keys| >= MAX_KEYS {
        return Refused("too_many");
      }
      Save(keys + [record]);
      result := Made(PublicView(record, Get(lastSeen, op.id)));
    }

    method RevokeKey(id: string) returns (result: Result)
      modifies this
      ensures (View(), result) == Revocation(old(View()), Cleaned(old(file)), id)
    {
      var keys := Load();
      var i := 0;
      while i < |keys|
        invariant 0 <= i <= |keys|
        invariant View() == old(View())
        invariant forall k :: 0 <= k < i ==> keys[k].id != id
      {
        if keys[i].id == id {
          assert FirstWithId(keys, id) == Some(i);
          Save(Without(keys, i));
          lastSeen := lastSeen - {id};
          return Removed(PublicView(keys[i], None));
        }
        i := i + 1;
      }
      result := Unknown;
    }

    method VerifyKey(supplied: string, now: int) returns (result: Result)
      modifies this
      ensures (View(), result) == Verification(old(View()), Cleaned(old(file)), supplied, now)
    {
      var keys := Load();
      var hit := FindHit(keys, supplied);
      if hit.None? {
        return Denied;
      }
      var record := keys[hit.value];
      if !record.expires.Missing? {
        var at := AsEpoch(record.expires);
        if at.None? || now >= at.value {
          return Denied;
        }
      }
      result := Accept(keys, hit.value, now);
    }

    /** The memory of uses always, the file only when the last write is long enough ago. */
    method Accept(keys: seq<Record>, i: nat, now: int) returns (result: Result)
      requires i < |keys|
      modifies this
      ensures (View(), result) == Acceptance(old(View()), keys, i, now)
    {
      var record := keys[i];
      lastSeen := lastSeen[record.id := now];
      if now - AsEpoch(record.lastUsed).GetOr(0) >= PERSIST_SECONDS {
        record := record.(lastUsed := Whole(now));
        assert keys[i := record] == Touched(keys, i, now);
        Save(keys[i := record]);
      }
      result := Accepted(PublicView(record, Some(now)));
    }
  }

  // ---- a key's life ---------------------------------------------------------------------------

  /** A key just created is accepted with its own token, exactly until its expiry. */
  lemma CreatedKeyVerifies(s: Store, op: Op, now: int)
    requires op.Create? && op.digest != "" && Atomic(s, op).1.Made?
    ensures var s' := Atomic(s, op).0;
      var r := Atomic(s', Verify(op.digest, now)).1;
      if op.days.Some? && now >= op.at + op.days.value * DAY then r.Denied?
      else r.Accepted? && r.view.id == op.id && r.view.role == op.role && r.view.name == Strip(op.name)
  {
    var s' := Atomic(s, op).0;
    var keys := Cleaned(s.file) + [Minted(op)];
    CreationFile(s, op);
    MintedIsClean(op, now);
    LastIsMinted(keys, op);
    assert Matches(Minted(op), op.digest) && Minted(op).role != "";
    LastAnswers(s', Cleaned(s'.file), Minted(op), op.digest, now);
    assert Atomic(s', Verify(op.digest, now)) == Verification(s', Cleaned(s'.file), op.digest, now);
  }

  lemma CreationFile(s: Store, op: Op)
    requires op.Create? && Atomic(s, op).1.Made?
    ensures Atomic(s, op).0.file == Cleaned(Cleaned(s.file) + [Minted(op)]) && op.role in ROLES && op.role != ""
  {
  }

  lemma MintedIsClean(op: Op, now: int)
    requires op.Create?
    ensures Persistable(Minted(op)) == Minted(op)
    ensures Expired(Minted(op).expires, now) <==> op.days.Some? && now >= op.at + op.days.value * DAY
  {
  }

  lemma LastIsMinted(keys: seq<Record>, op: Op)
    requires op.Create? && keys != [] && keys[|keys| - 1] == Minted(op) && Persistable(Minted(op)) == Minted(op)
    ensures var loaded := Cleaned(Cleaned(keys)); loaded != [] && loaded[|loaded| - 1] == Minted(op)
  {
  }

  /** The last record answers for its digest, unless it has expired. */
  lemma LastAnswers(s: Store, keys: seq<Record>, r: Record, supplied: string, now: int)
    requires keys != [] && keys[|keys| - 1] == r && Matches(r, supplied)
    ensures var answer := Verification(s, keys, supplied, now).1;
      if Expired(r.expires, now) then answer.Denied?
      else answer.Accepted? && answer.view.id == r.id && answer.view.name == r.name
           && answer.view.role == if r.role == "" then "member" else r.role
  {
    var n := |keys| - 1;
    assert LastMatch(keys, supplied) == Some(n);
    AcceptanceView(s, keys, n, now);
  }

  lemma AcceptanceView(s: Store, keys: seq<Record>, i: nat, now: int)
    requires i < |keys|
    ensures var r := Acceptance(s, keys, i, now).1;
      r.Accepted? && r.view.id == keys[i].id && r.view.name == keys[i].name
      && r.view.role == if keys[i].role == "" then "member" else keys[i].role
  {
  }

  /** A digest that no record of the snapshot carries is denied, and changes nothing. */
  lemma UnknownIsDenied(s: Store, supplied: string, now: int)
    ensures (forall i :: 0 <= i < |s.file| ==> !Matches(s.file[i], supplied)) ==>
      Atomic(s, Verify(supplied, now)) == (s, Denied)
    ensures Atomic(s, Verify(supplied, now)).1.Accepted? ==>
      exists i :: 0 <= i < |s.file| && Matches(s.file[i], supplied) && !Expired(Persistable(s.file[i]).expires, now)
  {
    var keys := Cleaned(s.file);
    var hit := LastMatch(keys, supplied);
    if hit.Some? {
      assert Matches(s.file[hit.value], supplied);
    }
  }

  // ---- many processes ---------------------------------------------------------------------------

  /** The shared file, every process's memory of uses, and all results in order. */
  datatype World = World(file: seq<Record>, seen: map<nat, map<string, int>>, results: seq<Result>)

  function StoreOf(w: World, proc: nat): Store {
    Store(w.file, Get(w.seen, proc).GetOr(map[]))
  }

  function WithStore(w: World, proc: nat, s: Store, r: Result): World {
    World(s.file, w.seen[proc := s.seen], w.results + [r])
  }

  datatype Call = Call(proc: nat, op: Op)

  /** Calls run one after the other. */
  function Serial(file: seq<Record>, calls: seq<Call>): World {
    if calls == [] then World(file, map[], [])
    else
      var n := |calls| - 1;
      var w := Serial(file, calls[..n]);
      var (s, r) := Atomic(StoreOf(w, calls[n].proc), calls[n].op);
      WithStore(w, calls[n].proc, s, r)
  }

  /** Where a process is between taking and releasing the file lock. */
  datatype Pc =
    | Idle
    | Locked(op: Op)
    | Loaded(op: Op, keys: seq<Record>)
    | Committed(result: Result)

  datatype State = State(world: World, holder: Option<nat>, pcs: map<nat, Pc>, calls: seq<Call>)

  function PcOf(s: State, proc: nat): Pc {
    Get(s.pcs, proc).GetOr(Idle)
  }

  datatype Action =
    | Acquire(proc: nat, op: Op)
    | Load(proc: nat)
    | Commit(proc: nat)
    | Release(proc: nat)

  predicate Enabled(s: State, a: Action) {
    match a
    case Acquire(p, _) => PcOf(s, p).Idle? && s.holder == None
    case Load(p) => PcOf(s, p).Locked?
    case Commit(p) => PcOf(s, p).Loaded?
    case Release(p) => PcOf(s, p).Committed?
  }

  /** The commit works on the snapshot loaded earlier, whatever the file holds by then. */
  function Step(s: State, a: Action): State
    requires Enabled(s, a)
  {
    match a
    case Acquire(p, op) => s.(holder := Some(p), pcs := s.pcs[p := Locked(op)])
    case Load(p) => s.(pcs := s.pcs[p := Loaded(PcOf(s, p).op, Cleaned(s.world.file))])
    case Commit(p) =>
      var pc := PcOf(s, p);
      var (store, result) := Applied(StoreOf(s.world, p), pc.keys, pc.op);
      State(WithStore(s.world, p, store, result), s.holder, s.pcs[p := Committed(result)], s.calls + [Call(p, pc.op)])
    case Release(p) => s.(holder := None, pcs := s.pcs[p := Idle])
  }

  function Run(file: seq<Record>, acts: seq<Action>): Option<State>
    decreases |acts|
  {
    if acts == [] then Some(State(World(file, map[], []), None, map[], []))
    else
      var n := |acts| - 1;
      match Run(file, acts[..n])
      case None => None
      case Some(s) => if Enabled(s, acts[n]) then Some(Step(s, acts[n])) else None
  }

  /** Only the holder is inside, its snapshot is the file, and the past is a serial run. */
  ghost predicate Inv(file: seq<Record>, s: State) {
    && (forall p: nat :: !PcOf(s, p).Idle? <==> s.holder == Some(p))
    && (forall p: nat :: PcOf(s, p).Loaded? ==> PcOf(s, p).keys == Cleaned(s.world.file))
    && s.world == Serial(file, s.calls)
  }

  lemma StepKeepsInv(file: seq<Record>, s: State, a: Action)
    requires Inv(file, s) && Enabled(s, a)
    ensures Inv(file, Step(s, a))
  {
    var s' := Step(s, a);
    forall p: nat
      ensures !PcOf(s', p).Idle? <==> s'.holder == Some(p)
      ensures PcOf(s', p).Loaded? ==> PcOf(s', p).keys == Cleaned(s'.world.file)
    {
      assert !PcOf(s, p).Idle? <==> s.holder == Some(p);
      assert !PcOf(s, a.proc).Idle? <==> s.holder == Some(a.proc);
    }
    if a.Commit? {
      assert s'.calls[..|s.calls|] == s.calls;
    }
  }

  /**
   Under any interleaving of any number of processes, the file and every result are those
   of the operations run one at a time in the order they committed.
   */
  lemma {:induction false} Linearizable(file: seq<Record>, acts: seq<Action>)
    requires Run(file, acts).Some?
    ensures Inv(file, Run(file, acts).value)
    decreases |acts|
  {
    if acts != [] {
      var n := |acts| - 1;
      Linearizable(file, acts[..n]);
      StepKeepsInv(file, Run(file, acts[..n]).value, acts[n]);
    }
  }

  /** Writers that do not exclude each other bring a revoked key back. */
  lemma WithoutTheLockAKeyReturns(r: Record, now: int)
    requires Matches(r, r.digest) && r.expires.Missing? && r.lastUsed.Missing? && now >= PERSIST_SECONDS
    ensures var start := Store([r], map[]);
      var snapshot := Cleaned(start.file);
      var revoked := Applied(start, snapshot, Revoke(r.id)).0;
      && revoked.file == []
      && |Applied(revoked, snapshot, Verify(r.digest, now)).0.file| == 1
      && Applied(revoked, snapshot, Verify(r.digest, now)).0.file[0].id == r.id
  {
    var keys := Cleaned([r]);
    assert keys == [Persistable(r)];
    assert FirstWithId(keys, r.id) == Some(0);
    assert LastMatch(keys, r.digest) == Some(0);
  }

  // ---- serial histories -------------------------------------------------------------------------------

  function Ids(rows: seq<Record>): (ids: seq<string>)
    ensures |ids| == |rows| && forall i :: 0 <= i < |rows| ==> ids[i] == rows[i].id
  {
    seq(|rows|, i requires 0 <= i < |rows| => rows[i].id)
  }

  predicate Unique(ids: seq<string>) {
    forall i, j :: 0 <= i < j < |ids| ==> ids[i] != ids[j]
  }

  lemma CleanedIds(rows: seq<Record>)
    ensures Ids(Cleaned(rows)) == Ids(rows)
  {
  }

  lemma CreationIds(s: Store, op: Op)
    requires op.Create?
    ensures var ids, ids' := Ids(s.file), Ids(Creation(s, Cleaned(s.file), op).0.file);
      ids' == ids || (ids' == ids + [op.id] && |ids| < MAX_KEYS)
  {
    var keys := Cleaned(s.file);
    CleanedIds(s.file);
    CleanedIds(keys + [Minted(op)]);
  }

  lemma WithoutIds(keys: seq<Record>, cut: nat)
    requires cut < |keys|
    ensures Ids(Cleaned(Without(keys, cut))) == Ids(keys)[..cut] + Ids(keys)[cut + 1..]
  {
    CleanedIds(Without(keys, cut));
    assert Ids(Without(keys, cut)) == Ids(keys)[..cut] + Ids(keys)[cut + 1..];
  }

  lemma FirstInIds(keys: seq<Record>, id: string)
    ensures match FirstWithId(keys, id)
            case None => id !in Ids(keys)
            case Some(i) => Ids(keys)[i] == id && id !in Ids(keys)[..i]
  {
    var found := FirstWithId(keys, id);
    if found.Some? {
      assert forall k :: 0 <= k < found.value ==> Ids(keys)[..found.value][k] == keys[k].id;
    }
  }

  lemma RevocationFile(s: Store, keys: seq<Record>, id: string)
    ensures var (s', r) := Revocation(s, keys, id);
      match FirstWithId(keys, id)
      case None => s' == s && r == Unknown
      case Some(i) => s'.file == Cleaned(Without(keys, i)) && r.Removed? && r.view.id == id
  {
  }

  /** Revoking cuts one id: the first equal one. */
  lemma RevocationIds(s: Store, id: string) returns (cut: nat)
    ensures var ids, (s', r) := Ids(s.file), Revocation(s, Cleaned(s.file), id);
      if id in ids
      then && r.Removed? && r.view.id == id && cut < |ids| && ids[cut] == id && id !in ids[..cut]
           && Ids(s'.file) == ids[..cut] + ids[cut + 1..]
      else s' == s && r == Unknown
  {
    var keys := Cleaned(s.file);
    CleanedIds(s.file);
    RevocationFile(s, keys, id);
    FirstInIds(keys, id);
    var found := FirstWithId(keys, id);
    cut := found.GetOr(0);
    if found.Some? {
      WithoutIds(keys, cut);
    }
  }

  lemma VerificationFile(s: Store, keys: seq<Record>, supplied: string, now: int)
    ensures var (s', r) := Verification(s, keys, supplied, now);
      && (s'.file == s.file || (LastMatch(keys, supplied).Some? && s'.file == Cleaned(Touched(keys, LastMatch(keys, supplied).value, now))))
      && (r.Accepted? ==> LastMatch(keys, supplied).Some? && r.view.id == keys[LastMatch(keys, supplied).value].id)
  {
  }

  lemma VerificationIds(s: Store, supplied: string, now: int)
    ensures Ids(Verification(s, Cleaned(s.file), supplied, now).0.file) == Ids(s.file)
  {
    var keys := Cleaned(s.file);
    VerificationFile(s, keys, supplied, now);
    CleanedIds(s.file);
    var hit := LastMatch(keys, supplied);
    if hit.Some? {
      TouchedIds(keys, hit.value, now);
    }
  }

  /** Only a key of the file is accepted. */
  lemma AcceptedIsKnown(s: Store, supplied: string, now: int)
    ensures var r := Verification(s, Cleaned(s.file), supplied, now).1; r.Accepted? ==> r.view.id in Ids(s.file)
  {
    var keys := Cleaned(s.file);
    VerificationFile(s, keys, supplied, now);
    var hit := LastMatch(keys, supplied);
    if hit.Some? {
      assert Ids(s.file)[hit.value] == keys[hit.value].id;
    }
  }

  lemma TouchedIds(keys: seq<Record>, i: nat, now: int)
    requires i < |keys|
    ensures Ids(Cleaned(Touched(keys, i, now))) == Ids(keys) && Touched(keys, i, now)[i].id == keys[i].id
  {
    CleanedIds(Touched(keys, i, now));
  }

  /** What one operation can do to the ids of the file. */
  ghost predicate IdsMove(ids: seq<string>, ids': seq<string>, op: Op) {
    && (forall id :: id in ids' ==> id in ids || (op.Create? && op.id == id))
    && (|ids| <= MAX_KEYS ==> |ids'| <= MAX_KEYS)
    && (op.Revoke? && Unique(ids) ==> op.id !in ids')
    && (Unique(ids) && (op.Create? ==> op.id !in ids) ==> Unique(ids'))
  }

  lemma CutIds(ids: seq<string>, cut: nat)
    requires cut < |ids|
    ensures IdsMove(ids, ids[..cut] + ids[cut + 1..], Revoke(ids[cut]))
  {
    var ids' := ids[..cut] + ids[cut + 1..];
    assert forall i :: 0 <= i < |ids'| ==> ids'[i] == ids[if i < cut then i else i + 1];
  }

  lemma CutClears(ids: seq<string>, cut: nat, id: string)
    requires cut < |ids| && ids[cut] == id && id !in ids[..cut]
    ensures id !in ids[..cut] + ids[cut + 1..] <==> multiset(ids)[id] <= 1
  {
    var head, tail := ids[..cut], ids[cut + 1..];
    assert ids == head + [id] + tail;
    assert multiset(ids) == multiset(head) + multiset{id} + multiset(tail);
    assert id !in multiset(head);
    assert id in tail <==> id in multiset(tail);
  }

  lemma AtomicIds(s: Store, op: Op)
    ensures IdsMove(Ids(s.file), Ids(Atomic(s, op).0.file), op)
    ensures Atomic(s, op).1.Accepted? ==> Atomic(s, op).1.view.id in Ids(s.file)
  {
    match op
    case Create(_, _, _, _, _, _) => CreationIds(s, op);
    case Verify(supplied, now) =>
      VerificationIds(s, supplied, now);
      AcceptedIsKnown(s, supplied, now);
    case Revoke(gone) => RevocationMoves(s, gone);
  }

  lemma RevocationMoves(s: Store, gone: string)
    ensures IdsMove(Ids(s.file), Ids(Revocation(s, Cleaned(s.file), gone).0.file), Revoke(gone))
    ensures !Revocation(s, Cleaned(s.file), gone).1.Accepted?
  {
    var cut := RevocationIds(s, gone);
    if gone in Ids(s.file) {
      CutIds(Ids(s.file), cut);
    }
  }

  /** Ids minted by these calls. */
  predicate Mints(calls: seq<Call>, id: string) {
    exists i :: 0 <= i < |calls| && calls[i].op.Create? && calls[i].op.id == id
  }

  /** Random ids: none repeats one in the file or one minted before. */
  predicate FreshIds(file: seq<Record>, calls: seq<Call>)
    decreases |calls|
  {
    calls == [] ||
    (var n := |calls| - 1;
     && FreshIds(file, calls[..n])
     && (calls[n].op.Create? ==> calls[n].op.id !in Ids(file) && !Mints(calls[..n], calls[n].op.id)))
  }

  lemma {:induction false} FreshIdsPrefix(file: seq<Record>, calls: seq<Call>, n: nat)
    requires FreshIds(file, calls) && n <= |calls|
    ensures FreshIds(file, calls[..n])
    decreases |calls|
  {
    if n < |calls| {
      assert calls[..|calls| - 1][..n] == calls[..n];
      FreshIdsPrefix(file, calls[..|calls| - 1], n);
    } else {
      assert calls[..n] == calls;
    }
  }

  lemma MintsStep(calls: seq<Call>, id: string)
    requires calls != []
    ensures var n := |calls| - 1;
      Mints(calls, id) <==> Mints(calls[..n], id) || (calls[n].op.Create? && calls[n].op.id == id)
  {
    var n := |calls| - 1;
    assert forall i :: 0 <= i < n ==> calls[..n][i] == calls[i];
  }

  /** Ids stay unique, and every one comes from the first file or was minted. */
  lemma {:induction false} SerialIds(file: seq<Record>, calls: seq<Call>)
    requires Unique(Ids(file)) && FreshIds(file, calls)
    ensures Unique(Ids(Serial(file, calls).file))
    ensures forall id :: id in Ids(Serial(file, calls).file) ==> id in Ids(file) || Mints(calls, id)
    decreases |calls|
  {
    if calls != [] {
      var n := |calls| - 1;
      var s := StoreOf(Serial(file, calls[..n]), calls[n].proc);
      SerialIds(file, calls[..n]);
      AtomicIds(s, calls[n].op);
      forall id
        ensures Mints(calls, id) <==> Mints(calls[..n], id) || (calls[n].op.Create? && calls[n].op.id == id)
      {
        MintsStep(calls, id);
      }
    }
  }

  /** The store never outgrows its cap. */
  lemma {:induction false} NeverTooMany(file: seq<Record>, calls: seq<Call>)
    requires |file| <= 50
    ensures |Serial(file, calls).file| <= 50
    decreases |calls|
  {
    if calls != [] {
      var n := |calls| - 1;
      NeverTooMany(file, calls[..n]);
      AtomicIds(StoreOf(Serial(file, calls[..n]), calls[n].proc), calls[n].op);
    }
  }

  /** The result of one call of a history. */
  function ResultAt(file: seq<Record>, calls: seq<Call>, k: nat): Result
    requires k < |calls|
  {
    Atomic(StoreOf(Serial(file, calls[..k]), calls[k].proc), calls[k].op).1
  }

  lemma SerialStep(file: seq<Record>, calls: seq<Call>)
    requires calls != []
    ensures var n := |calls| - 1;
      && Serial(file, calls).results == Serial(file, calls[..n]).results + [ResultAt(file, calls, n)]
      && Serial(file, calls).file == Atomic(StoreOf(Serial(file, calls[..n]), calls[n].proc), calls[n].op).0.file
  {
  }

  lemma {:induction false} ResultCount(file: seq<Record>, calls: seq<Call>)
    ensures |Serial(file, calls).results| == |calls|
    decreases |calls|
  {
    if calls != [] {
      SerialStep(file, calls);
      ResultCount(file, calls[..|calls| - 1]);
    }
  }

  /** A result once given stays in its place. */
  lemma {:induction false} ResultStays(file: seq<Record>, calls: seq<Call>, n: nat, k: nat, r: Result)
    requires k < n <= |calls| && |Serial(file, calls[..n]).results| == n && Serial(file, calls[..n]).results[k] == r
    ensures k < |Serial(file, calls).results| && Serial(file, calls).results[k] == r
    decreases |calls|
  {
    if n < |calls| {
      var m := |calls| - 1;
      assert calls[..m][..n] == calls[..n];
      ResultStays(file, calls[..m], n, k, r);
      SerialStep(file, calls);
    } else {
      assert calls[..n] == calls;
    }
  }

  lemma ResultGiven(file: seq<Record>, calls: seq<Call>, k: nat)
    requires k < |calls|
    ensures |Serial(file, calls[..k + 1]).results| == k + 1
    ensures Serial(file, calls[..k + 1]).results[k] == ResultAt(file, calls, k)
  {
    assert calls[..k + 1][..k] == calls[..k];
    ResultCount(file, calls[..k]);
    SerialStep(file, calls[..k + 1]);
  }

  /** The list of results holds each call's own. */
  lemma ResultsAreInOrder(file: seq<Record>, calls: seq<Call>, k: nat)
    requires k < |calls|
    ensures |Serial(file, calls).results| == |calls|
    ensures Serial(file, calls).results[k] == ResultAt(file, calls, k)
  {
    ResultCount(file, calls);
    ResultGiven(file, calls, k);
    ResultStays(file, calls, k + 1, k, ResultAt(file, calls, k));
  }

  /** The call at `k` removed a key. */
  predicate Revokes(file: seq<Record>, calls: seq<Call>, k: nat, id: string) {
    k < |calls| && calls[k].op == Revoke(id) && id in Ids(Serial(file, calls[..k]).file)
  }

  lemma StepGone(s: Store, op: Op, id: string)
    requires id !in Ids(s.file) && (op.Create? ==> op.id != id)
    ensures id !in Ids(Atomic(s, op).0.file)
  {
    AtomicIds(s, op);
  }

  /** What is not in the file and is not minted stays out. */
  lemma {:induction false} GoneStays(file: seq<Record>, calls: seq<Call>, m: nat, id: string)
    requires m <= |calls| && id !in Ids(Serial(file, calls[..m]).file)
    requires forall j :: m <= j < |calls| && calls[j].op.Create? ==> calls[j].op.id != id
    ensures id !in Ids(Serial(file, calls).file)
    decreases |calls|
  {
    var n := |calls| - 1;
    if m <= n {
      assert calls[..n][..m] == calls[..m];
      GoneStays(file, calls[..n], m, id);
      SerialStep(file, calls);
      StepGone(StoreOf(Serial(file, calls[..n]), calls[n].proc), calls[n].op, id);
    } else {
      assert calls[..m] == calls;
    }
  }

  lemma RevokeTakesOut(file: seq<Record>, calls: seq<Call>, k: nat, id: string)
    requires Unique(Ids(file)) && FreshIds(file, calls) && Revokes(file, calls, k, id)
    ensures id !in Ids(Serial(file, calls[..k + 1]).file)
  {
    FreshIdsPrefix(file, calls, k);
    SerialIds(file, calls[..k]);
    assert calls[..k + 1][..k] == calls[..k];
    SerialStep(file, calls[..k + 1]);
    AtomicIds(StoreOf(Serial(file, calls[..k]), calls[k].proc), calls[k].op);
  }

  lemma RevokedLeavesFile(file: seq<Record>, calls: seq<Call>, k: nat, id: string)
    requires Unique(Ids(file)) && FreshIds(file, calls) && Revokes(file, calls, k, id)
    ensures id !in Ids(Serial(file, calls).file)
  {
    RevokeTakesOut(file, calls, k, id);
    forall j | k + 1 <= j < |calls| && calls[j].op.Create?
      ensures calls[j].op.id != id
    {
      NotMintedAgain(file, calls, k, j, id);
    }
    GoneStays(file, calls, k + 1, id);
  }

  /** An id that was once in the file is never minted later. */
  lemma NotMintedAgain(file: seq<Record>, calls: seq<Call>, k: nat, j: nat, id: string)
    requires Unique(Ids(file)) && FreshIds(file, calls) && k <= j < |calls| && id in Ids(Serial(file, calls[..k]).file)
    ensures calls[j].op.Create? ==> calls[j].op.id != id
  {
    FreshIdsPrefix(file, calls, k);
    SerialIds(file, calls[..k]);
    MintedOnce(file, calls, k, j, id);
  }

  lemma MintedOnce(file: seq<Record>, calls: seq<Call>, k: nat, j: nat, id: string)
    requires FreshIds(file, calls) && k <= j < |calls| && (id in Ids(file) || Mints(calls[..k], id))
    ensures calls[j].op.Create? ==> calls[j].op.id != id
  {
    FreshIdsPrefix(file, calls, j + 1);
    assert calls[..j + 1][..j] == calls[..j] && calls[..j][..k] == calls[..k];
    MintsGrow(calls[..j], k, id);
  }

  lemma MintsGrow(calls: seq<Call>, k: nat, id: string)
    requires k <= |calls|
    ensures Mints(calls[..k], id) ==> Mints(calls, id)
  {
    assert forall i :: 0 <= i < k ==> calls[..k][i] == calls[i];
  }

  /** A revoked key is never in the file again, and never answers a verification again. */
  lemma RevokedIsGone(file: seq<Record>, calls: seq<Call>, k: nat, j: nat, id: string)
    requires Unique(Ids(file)) && FreshIds(file, calls) && Revokes(file, calls, k, id) && k < j < |calls|
    ensures id !in Ids(Serial(file, calls[..j]).file) && id !in Ids(Serial(file, calls).file)
    ensures ResultAt(file, calls, j).Accepted? ==> ResultAt(file, calls, j).view.id != id
  {
    FreshIdsPrefix(file, calls, j);
    assert calls[..j][..k] == calls[..k];
    RevokedLeavesFile(file, calls[..j], k, id);
    RevokedLeavesFile(file, calls, k, id);
    AtomicIds(StoreOf(Serial(file, calls[..j]), calls[j].proc), calls[j].op);
  }

  /** Revoking removes one record: the id is gone exactly when no second record carries it. */
  lemma RevokeClearsIff(s: Store, id: string)
    ensures id !in Ids(Atomic(s, Revoke(id)).0.file) <==> multiset(Ids(s.file))[id] <= 1
  {
    var cut := RevocationIds(s, id);
    if id in Ids(s.file) {
      CutClears(Ids(s.file), cut, id);
    } else {
      assert id !in multiset(Ids(s.file));
    }
  }

  /** The same for processes interleaved at will: what a revoke that has committed removed stays out of the file. */
  lemma InterleavedRevocation(file: seq<Record>, acts: seq<Action>, k: nat, id: string)
    requires Run(file, acts).Some? && Unique(Ids(file)) && FreshIds(file, Run(file, acts).value.calls)
    requires Revokes(file, Run(file, acts).value.calls, k, id)
    ensures id !in Ids(Run(file, acts).value.world.file)
  {
    Linearizable(file, acts);
    RevokedLeavesFile(file, Run(file, acts).value.calls, k, id);
  }

  /** And every process got the answer the serial history gives. */
  lemma InterleavedResults(file: seq<Record>, acts: seq<Action>, k: nat)
    requires Run(file, acts).Some? && k < |Run(file, acts).value.calls|
    ensures var s := Run(file, acts).value;
      |s.world.results| == |s.calls| && s.world.results[k] == ResultAt(file, s.calls, k)
  {
    Linearizable(file, acts);
    ResultsAreInOrder(file, Run(file, acts).value.calls, k);
  }

  /** So no verification that committed after a revoke answered with the revoked key, in whatever process. */
  lemma InterleavedAnswers(file: seq<Record>, acts: seq<Action>, k: nat, j: nat, id: string)
    requires Run(file, acts).Some? && Unique(Ids(file)) && FreshIds(file, Run(file, acts).value.calls)
    requires Revokes(file, Run(file, acts).value.calls, k, id) && k < j < |Run(file, acts).value.calls|
    ensures var results := Run(file, acts).value.world.results;
      j < |results| && (results[j].Accepted? ==> results[j].view.id != id)
  {
    InterleavedResults(file, acts, j);
    RevokedIsGone(file, Run(file, acts).value.calls, k, j, id);
  }

  // ---- the throttle -------------------------------------------------------------------------------------

  /** The verification writes this key's use to the file. */
  predicate Persists(s: Store, op: Op, id: string) {
    op.Verify? &&
    var keys := Cleaned(s.file);
    match LastMatch(keys, op.digest)
    case None => false
    case Some(i) => keys[i].id == id && !Expired(keys[i].expires, op.at) && Due(keys[i], op.at)
  }

  /** The times at which a key's use was written to the file. */
  function Stamps(file: seq<Record>, calls: seq<Call>, id: string): seq<int>
    decreases |calls|
  {
    if calls == [] then []
    else
      var n := |calls| - 1;
      var before := Stamps(file, calls[..n], id);
      if Persists(StoreOf(Serial(file, calls[..n]), calls[n].proc), calls[n].op, id) then before + [calls[n].op.at] else before
  }

  ghost predicate Spaced(stamps: seq<int>) {
    forall i :: 0 <= i < |stamps| - 1 ==> stamps[i + 1] - stamps[i] >= 3600
  }

  /** While the key is in the file, it holds the last stamp written. */
  ghost predicate Holds(rows: seq<Record>, id: string, stamps: seq<int>) {
    stamps != [] ==> forall i :: 0 <= i < |rows| && rows[i].id == id ==> AsEpoch(rows[i].lastUsed) == Some(stamps[|stamps| - 1])
  }

  lemma CleanedHolds(rows: seq<Record>, id: string, stamps: seq<int>)
    requires Holds(rows, id, stamps)
    ensures Holds(Cleaned(rows), id, stamps)
  {
  }

  lemma CreationHolds(s: Store, op: Op, id: string, stamps: seq<int>)
    requires op.Create? && Holds(s.file, id, stamps) && (op.id == id ==> stamps == [])
    ensures Holds(Creation(s, Cleaned(s.file), op).0.file, id, stamps)
  {
    var keys := Cleaned(s.file);
    CleanedHolds(s.file, id, stamps);
    assert Holds(keys + [Minted(op)], id, stamps);
    CleanedHolds(keys + [Minted(op)], id, stamps);
  }

  lemma RevocationHolds(s: Store, gone: string, id: string, stamps: seq<int>)
    requires Holds(s.file, id, stamps)
    ensures Holds(Revocation(s, Cleaned(s.file), gone).0.file, id, stamps)
  {
    var keys := Cleaned(s.file);
    CleanedHolds(s.file, id, stamps);
    match FirstWithId(keys, gone)
    case None =>
    case Some(cut) =>
      WithoutHolds(keys, cut, id, stamps);
      CleanedHolds(Without(keys, cut), id, stamps);
  }

  lemma WithoutHolds(rows: seq<Record>, cut: nat, id: string, stamps: seq<int>)
    requires cut < |rows| && Holds(rows, id, stamps)
    ensures Holds(Without(rows, cut), id, stamps)
  {
    assert forall i :: 0 <= i < |rows| - 1 ==> Without(rows, cut)[i] == rows[if i < cut then i else i + 1];
  }

  lemma VerificationHolds(s: Store, op: Op, id: string, stamps: seq<int>)
    requires op.Verify? && Unique(Ids(s.file)) && Holds(s.file, id, stamps) && Spaced(stamps)
    ensures var more := if Persists(s, op, id) then stamps + [op.at] else stamps;
      Holds(Verification(s, Cleaned(s.file), op.digest, op.at).0.file, id, more) && Spaced(more)
  {
    var keys := Cleaned(s.file);
    CleanedHolds(s.file, id, stamps);
    CleanedIds(s.file);
    match LastMatch(keys, op.digest)
    case None =>
    case Some(i) =>
      if !Expired(keys[i].expires, op.at) && Due(keys[i], op.at) {
        UseHolds(keys, i, op.at, id, stamps);
        CleanedHolds(Touched(keys, i, op.at), id, if keys[i].id == id then stamps + [op.at] else stamps);
      }
  }

  /** Writing a use keeps the account of it, and keeps the stamps apart. */
  lemma UseHolds(keys: seq<Record>, i: nat, at: int, id: string, stamps: seq<int>)
    requires Unique(Ids(keys)) && Holds(keys, id, stamps) && Spaced(stamps) && i < |keys| && Due(keys[i], at)
    ensures var more := if keys[i].id == id then stamps + [at] else stamps;
      Holds(Touched(keys, i, at), id, more) && Spaced(more)
  {
    assert forall k :: 0 <= k < |keys| && k != i ==> Ids(keys)[k] != Ids(keys)[i];
  }

  lemma AtomicHolds(s: Store, op: Op, id: string, stamps: seq<int>)
    requires Unique(Ids(s.file)) && Holds(s.file, id, stamps) && Spaced(stamps)
    requires op.Create? && op.id == id ==> stamps == []
    ensures var more := if Persists(s, op, id) then stamps + [op.at] else stamps;
      Holds(Atomic(s, op).0.file, id, more) && Spaced(more)
  {
    if op.Create? {
      assert Atomic(s, op) == Creation(s, Cleaned(s.file), op);
      CreationHolds(s, op, id, stamps);
    } else if op.Revoke? {
      assert Atomic(s, op) == Revocation(s, Cleaned(s.file), op.id);
      RevocationHolds(s, op.id, id, stamps);
    } else {
      assert Atomic(s, op) == Verification(s, Cleaned(s.file), op.digest, op.at);
      VerificationHolds(s, op, id, stamps);
    }
  }

  /** A use is written for a key that is in the file. */
  lemma PersistsKnownKey(s: Store, op: Op, id: string)
    requires Persists(s, op, id)
    ensures id in Ids(s.file)
  {
    var i := LastMatch(Cleaned(s.file), op.digest).value;
    assert Ids(s.file)[i] == id;
  }

  /** Between two written uses of one key there is at least the floor. */
  lemma {:induction false} StampsAreSpaced(file: seq<Record>, calls: seq<Call>, id: string)
    requires Unique(Ids(file)) && FreshIds(file, calls)
    ensures Spaced(Stamps(file, calls, id))
    ensures Holds(Serial(file, calls).file, id, Stamps(file, calls, id))
    ensures Stamps(file, calls, id) != [] ==> id in Ids(file) || Mints(calls, id)
    decreases |calls|
  {
    if calls != [] {
      var n := |calls| - 1;
      var s := StoreOf(Serial(file, calls[..n]), calls[n].proc);
      StampsAreSpaced(file, calls[..n], id);
      SerialIds(file, calls[..n]);
      AtomicHolds(s, calls[n].op, id, Stamps(file, calls[..n], id));
      MintsStep(calls, id);
      if Persists(s, calls[n].op, id) {
        PersistsKnownKey(s, calls[n].op, id);
      }
    }
  }
}
