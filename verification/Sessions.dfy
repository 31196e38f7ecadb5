/**
 Sessions over whole runs (hub/auth.py): logins, logouts, password changes, account
 creation and deletion in any order, and which of the tokens handed out still verify.
 */
module Sessions {
  import opened Options
  import opened Text
  import opened Accounts
  import opened PinnedEntries
  import E = SessionEpochs
  import T = SessionTokens

  datatype Action =
    | Login(name: string)
    | Logout(name: string)
    | SetPassword(password: string, name: string, digest: string, onlyIfUnclaimed: bool)
    | ChangePassword(name: string, password: string, digest: string)
    | Create(name: string, password: string, role: string, digest: string)
    | Delete(name: string)

  /** The configuration, every hash it ever held, and the credentials tokens were minted under. */
  datatype State = State(config: AuthConfig, seen: set<string>, minted: set<(string, string)>)

  /** A password hash is salted, so a new one never repeats an old one; it holds no separator. */
  predicate Fresh(s: State, digest: string) {
    digest !in s.seen && digest != "" && Lacks(digest, '|')
  }

  predicate Enabled(s: State, a: Action) {
    match a
    case Login(name) => AccountOf(s.config, name).Some?
    case Logout(name) => E.Normal(name)
    case SetPassword(_, _, digest, _) => Fresh(s, digest)
    case ChangePassword(_, _, digest) => Fresh(s, digest)
    case Create(_, _, _, digest) => Fresh(s, digest)
    case Delete(_) => true
  }

  function Basis(c: AuthConfig, name: string): string {
    match AccountOf(c, name)
    case None => "legacy"
    case Some(acct) => BasisOf(acct.hash)
  }

  function Step(s: State, a: Action): State {
    match a
    case Login(name) => s.(minted := s.minted + {(name, Basis(s.config, name))})
    case Logout(name) => s.(config := LoggedOut(s.config, name))
    case SetPassword(password, name, digest, only) =>
      s.(config := PasswordSet(s.config, password, name, digest, only).0, seen := s.seen + {digest})
    case ChangePassword(name, password, digest) =>
      s.(config := AccountPasswordSet(s.config, name, password, digest).0, seen := s.seen + {digest})
    case Create(name, password, role, digest) =>
      s.(config := Created(s.config, name, password, role, digest).0, seen := s.seen + {digest})
    case Delete(name) => s.(config := Deleted(s.config, name).0)
  }

  function Hashes(c: AuthConfig): set<string> {
    {"legacy", LegacyHash(c)} + set i | 0 <= i < |c.entries| :: c.entries[i].hash
  }

  /** A run from any configuration file; None when some step is not enabled. */
  function Run(c: AuthConfig, acts: seq<Action>): Option<State> {
    if acts == [] then Some(State(c, Hashes(c), {}))
    else
      var n := |acts| - 1;
      match Run(c, acts[..n])
      case None => None
      case Some(s) => if Enabled(s, acts[n]) then Some(Step(s, acts[n])) else None
  }

  predicate Legal(c: AuthConfig, acts: seq<Action>) {
    Run(c, acts).Some?
  }

  function After(c: AuthConfig, acts: seq<Action>): State
    requires Legal(c, acts)
  {
    Run(c, acts).value
  }

  lemma {:induction false} PrefixIsLegal(c: AuthConfig, acts: seq<Action>, n: nat)
    requires Legal(c, acts) && n <= |acts|
    ensures Legal(c, acts[..n])
  {
    if n < |acts| {
      assert acts[..|acts| - 1][..n] == acts[..n];
      PrefixIsLegal(c, acts[..|acts| - 1], n);
    } else {
      assert acts[..n] == acts;
    }
  }

  /** A run seen at one of its steps. */
  lemma RunAt(c: AuthConfig, acts: seq<Action>, k: nat)
    requires Legal(c, acts) && k < |acts|
    ensures Legal(c, acts[..k]) && Legal(c, acts[..k + 1])
    ensures Enabled(After(c, acts[..k]), acts[k]) && After(c, acts[..k + 1]) == Step(After(c, acts[..k]), acts[k])
  {
    PrefixIsLegal(c, acts, k + 1);
    assert acts[..k + 1][..k] == acts[..k];
  }

  // ---- every account after one step -------------------------------------------------------

  /** One step as seen by one account. */
  ghost predicate Seen(s: State, a: Action, name: string) {
    var c, c' := s.config, Step(s, a).config;
    match a
    case Login(_) => c' == c
    case Logout(who) =>
      && AccountOf(c', name) == AccountOf(c, name)
      && E.Reading(c'.epochs, name) == E.Reading(c.epochs, name) + if name == who then 1 else 0
    case Delete(who) =>
      if Strip(who) == name && Deleted(c, who).1.Done?
      then AccountOf(c', name) == Get(Legacy(c), name) && E.Reading(c'.epochs, name) == 0
      else AccountOf(c', name) == AccountOf(c, name) && E.Reading(c'.epochs, name) == E.Reading(c.epochs, name)
    case _ => Keeps(c, c', name, a.digest)
  }

  lemma EveryStepIsSeen(s: State, a: Action, name: string)
    requires Enabled(s, a) && name != ""
    ensures Seen(s, a, name)
  {
    match a
    case Login(_) =>
    case Logout(who) => LoggedOutKeeps(s.config, who, name);
    case SetPassword(password, who, digest, only) => PasswordSetKeeps(s.config, password, who, digest, only, name);
    case ChangePassword(who, password, digest) => AccountPasswordSetKeeps(s.config, who, password, digest, name);
    case Create(who, password, role, digest) => CreatedKeeps(s.config, who, password, role, digest, name);
    case Delete(who) => DeletedKeeps(s.config, who, name);
  }

  // ---- hashes -----------------------------------------------------------------------------

  /** Every credential in use has been seen, and so has every one a token was minted under. */
  ghost predicate Known(s: State) {
    && "legacy" in s.seen && LegacyHash(s.config) in s.seen
    && (forall name :: AccountOf(s.config, name).Some? ==> Basis(s.config, name) in s.seen)
    && (forall m :: m in s.minted ==> m.1 in s.seen)
  }

  lemma NoAccountIsUnnamed(c: AuthConfig)
    ensures AccountOf(c, "").None?
  {
    AccountsAgree(c, "");
  }

  lemma {:induction false} ListedHash(entries: seq<Entry>, name: string)
    ensures Listed(entries, name).Some? ==> exists i :: 0 <= i < |entries| && entries[i].hash == Listed(entries, name).value.hash
  {
    if entries != [] {
      var n := |entries| - 1;
      ListedHash(entries[..n], name);
      if Listed(entries, name).Some? {
        if Listed(entries, name) == Listed(entries[..n], name) {
          var i :| 0 <= i < n && entries[..n][i].hash == Listed(entries, name).value.hash;
          assert entries[i].hash == Listed(entries, name).value.hash;
        } else {
          assert entries[n].hash == Listed(entries, name).value.hash;
        }
      }
    }
  }

  lemma LegacyHashMoves(s: State, a: Action)
    ensures LegacyHash(Step(s, a).config) == LegacyHash(s.config)
            || (!a.Login? && !a.Logout? && !a.Delete? && LegacyHash(Step(s, a).config) == a.digest)
            || (!a.Login? && !a.Logout? && !a.Delete? && a.digest == "")
  {
  }

  lemma BasisMoves(s: State, a: Action, name: string)
    requires Known(s) && Enabled(s, a) && AccountOf(Step(s, a).config, name).Some?
    ensures Basis(Step(s, a).config, name) in Step(s, a).seen
  {
    NoAccountIsUnnamed(Step(s, a).config);
    EveryStepIsSeen(s, a, name);
  }

  lemma StepKeepsKnown(s: State, a: Action)
    requires Known(s) && Enabled(s, a)
    ensures Known(Step(s, a))
  {
    var s' := Step(s, a);
    forall name | AccountOf(s'.config, name).Some?
      ensures Basis(s'.config, name) in s'.seen
    {
      BasisMoves(s, a, name);
    }
    LegacyHashMoves(s, a);
    MintedKnown(s, a);
  }

  lemma MintedKnown(s: State, a: Action)
    requires Known(s) && Enabled(s, a)
    ensures s.seen <= Step(s, a).seen && forall m :: m in Step(s, a).minted ==> m.1 in Step(s, a).seen
  {
  }

  lemma {:induction false} AfterKnown(c: AuthConfig, acts: seq<Action>)
    requires Legal(c, acts)
    ensures Known(After(c, acts))
    ensures (forall h :: h in Hashes(c) ==> Lacks(h, '|')) ==> forall h :: h in After(c, acts).seen ==> Lacks(h, '|')
  {
    if acts == [] {
      forall name | AccountOf(c, name).Some?
        ensures Basis(c, name) in Hashes(c)
      {
        ListedHash(c.entries, name);
      }
    } else {
      var n := |acts| - 1;
      AfterKnown(c, acts[..n]);
      StepKeepsKnown(After(c, acts[..n]), acts[n]);
    }
  }

  // ---- revocation --------------------------------------------------------------------------

  /** The account has the credential and the counter a token was minted under. */
  predicate Live(c: AuthConfig, name: string, hash: string, epoch: int) {
    AccountOf(c, name).Some? && Basis(c, name) == hash && E.Reading(c.epochs, name) == epoch
  }

  /** While a credential is in use its counter is at least `floor`. */
  predicate Bounded(s: State, name: string, hash: string, floor: int) {
    && hash in s.seen
    && (AccountOf(s.config, name).Some? && Basis(s.config, name) == hash ==> E.Reading(s.config.epochs, name) >= floor)
  }

  /** This deletion brings the administrator pair back under the deleted name, with that hash. */
  predicate Uncovers(s: State, a: Action, name: string, hash: string) {
    && a.Delete? && Strip(a.name) == name && Deleted(s.config, a.name).1.Done?
    && Get(Legacy(s.config), name) == Some(Account(hash, true))
  }

  /** The account is logged out, gets a new password, or is deleted. */
  predicate Ends(s: State, a: Action, name: string) {
    match a
    case Logout(who) => who == name
    case ChangePassword(who, password, digest) =>
      Strip(who) == name && AccountPasswordSet(s.config, who, password, digest).1.Done?
    case Delete(who) => Strip(who) == name && Deleted(s.config, who).1.Done?
    case _ => false
  }

  predicate EndsAt(c: AuthConfig, acts: seq<Action>, k: nat, name: string) {
    k < |acts| && Legal(c, acts[..k]) && Ends(After(c, acts[..k]), acts[k], name)
  }

  lemma StepKeepsBound(s: State, a: Action, name: string, hash: string, floor: int)
    requires Enabled(s, a) && name != "" && Bounded(s, name, hash, floor) && !Uncovers(s, a, name, hash)
    ensures Bounded(Step(s, a), name, hash, floor)
  {
    EveryStepIsSeen(s, a, name);
  }

  predicate UncoversAt(c: AuthConfig, acts: seq<Action>, d: nat, name: string, hash: string) {
    d < |acts| && Legal(c, acts[..d]) && Uncovers(After(c, acts[..d]), acts[d], name, hash)
  }

  /** From step `i` on no deletion uncovers that credential. */
  ghost predicate NeverUncovers(c: AuthConfig, acts: seq<Action>, i: nat, name: string, hash: string) {
    forall d: nat :: i <= d < |acts| ==> !UncoversAt(c, acts, d, name, hash)
  }

  /** The states a run goes through. */
  ghost predicate Linked(states: seq<State>, acts: seq<Action>) {
    && |states| == |acts| + 1
    && forall k :: 0 <= k < |acts| ==> Enabled(states[k], acts[k]) && states[k + 1] == Step(states[k], acts[k])
  }

  lemma LinkedAppend(states: seq<State>, acts: seq<Action>)
    requires acts != [] && Linked(states, acts[..|acts| - 1])
    requires Enabled(states[|acts| - 1], acts[|acts| - 1])
    ensures Linked(states + [Step(states[|acts| - 1], acts[|acts| - 1])], acts)
  {
    var n := |acts| - 1;
    assert forall k :: 0 <= k < n ==> acts[..n][k] == acts[k];
  }

  lemma {:induction false} StatesOf(c: AuthConfig, acts: seq<Action>) returns (states: seq<State>)
    requires Legal(c, acts)
    ensures Linked(states, acts) && states[|acts|] == After(c, acts)
    ensures forall k :: 0 <= k <= |acts| ==> Legal(c, acts[..k]) && states[k] == After(c, acts[..k])
    decreases |acts|
  {
    if acts == [] {
      states := [After(c, acts)];
      assert acts[..0] == acts;
    } else {
      var n := |acts| - 1;
      var before := StatesOf(c, acts[..n]);
      LinkedAppend(before, acts);
      states := before + [Step(before[n], acts[n])];
      forall k | 0 <= k <= |acts|
        ensures Legal(c, acts[..k]) && states[k] == After(c, acts[..k])
      {
        if k <= n {
          assert acts[..n][..k] == acts[..k];
        } else {
          assert acts[..k] == acts;
        }
      }
    }
  }

  lemma {:induction false} BoundKeeps(states: seq<State>, acts: seq<Action>, m: nat, n: nat, name: string, hash: string, floor: int)
    requires Linked(states, acts) && m <= n <= |acts| && name != "" && Bounded(states[m], name, hash, floor)
    requires forall d :: m <= d < n ==> !Uncovers(states[d], acts[d], name, hash)
    ensures Bounded(states[n], name, hash, floor)
    decreases n
  {
    if m < n {
      BoundKeeps(states, acts, m, n - 1, name, hash, floor);
      StepKeepsBound(states[n - 1], acts[n - 1], name, hash, floor);
    }
  }

  /** The end of the sessions at step k raises the bound for good. */
  lemma BoundAfterEnd(states: seq<State>, acts: seq<Action>, i: nat, k: nat, name: string, hash: string, epoch: int)
    requires Linked(states, acts) && i < k < |acts| && name != "" && Bounded(states[i], name, hash, epoch)
    requires Ends(states[k], acts[k], name)
    requires forall d :: i <= d < |acts| ==> !Uncovers(states[d], acts[d], name, hash)
    ensures Bounded(states[|acts|], name, hash, epoch + 1)
  {
    BoundKeeps(states, acts, i, k, name, hash, epoch);
    EndRaises(states[k], acts[k], name, hash, epoch);
    BoundKeeps(states, acts, k + 1, |acts|, name, hash, epoch + 1);
  }

  lemma LoginsAreNamed(c: AuthConfig, acts: seq<Action>, i: nat, name: string)
    requires Legal(c, acts) && i < |acts| && acts[i] == Login(name)
    ensures Legal(c, acts[..i]) && AccountOf(After(c, acts[..i]).config, name).Some? && Usable(name)
  {
    PrefixIsLegal(c, acts, i + 1);
    assert acts[..i + 1][..i] == acts[..i];
    AccountsAgree(After(c, acts[..i]).config, name);
  }

  /**
   In a run where no deletion uncovers the credential, a token minted before its account
   is logged out, gets a new password or is deleted is dead from then on.
   */
  lemma EndRevokes(c: AuthConfig, acts: seq<Action>, i: nat, k: nat, name: string)
    requires Legal(c, acts) && i < k < |acts| && acts[i] == Login(name) && EndsAt(c, acts, k, name)
    requires Legal(c, acts[..i])
    requires NeverUncovers(c, acts, i, name, Basis(After(c, acts[..i]).config, name))
    ensures var s := After(c, acts[..i]);
      !Live(After(c, acts).config, name, Basis(s.config, name), E.Reading(s.config.epochs, name))
  {
    var s := After(c, acts[..i]);
    var hash, epoch := Basis(s.config, name), E.Reading(s.config.epochs, name);
    LoginsAreNamed(c, acts, i, name);
    AfterKnown(c, acts[..i]);
    var states := StatesOf(c, acts);
    assert states[i] == s && acts[..|acts|] == acts;
    forall d | i <= d < |acts|
      ensures !Uncovers(states[d], acts[d], name, hash)
    {
      assert !UncoversAt(c, acts, d, name, hash);
    }
    BoundAfterEnd(states, acts, i, k, name, hash, epoch);
  }

  lemma EndRaises(s: State, a: Action, name: string, hash: string, floor: int)
    requires Enabled(s, a) && Bounded(s, name, hash, floor) && Ends(s, a, name) && !Uncovers(s, a, name, hash) && name != ""
    ensures Bounded(Step(s, a), name, hash, floor + 1)
  {
    match a
    case Logout(_) => EveryStepIsSeen(s, a, name);
    case ChangePassword(who, password, digest) => RotationTakes(s.config, who, password, digest, name);
    case Delete(who) => DeletedKeeps(s.config, who, name);
    case _ =>
  }

  /** n logouts in a row. */
  function LogoutTimes(c: AuthConfig, name: string, n: nat): AuthConfig {
    c.(epochs := E.BumpedTimes(c.epochs, name, n))
  }

  /**
   The deletions that can bring tokens back: a token verifies again after some number of
   later logouts exactly when the deletion uncovers its credential.
   */
  lemma DeletionRevivesIff(s: State, name: string, hash: string, epoch: nat)
    requires E.Normal(name) && Deleted(s.config, name).1.Done?
    ensures (exists n: nat :: Live(LogoutTimes(Deleted(s.config, name).0, name, n), name, hash, epoch))
            <==> Uncovers(s, Delete(name), name, hash)
  {
    var c := Deleted(s.config, name).0;
    DeletedKeeps(s.config, name, name);
    forall n: nat
      ensures Live(LogoutTimes(c, name, n), name, hash, epoch) <==>
              AccountOf(c, name).Some? && BasisOf(AccountOf(c, name).value.hash) == hash && n == epoch
    {
      LiveAfterLogouts(c, name, hash, epoch, n);
    }
    assert Live(LogoutTimes(c, name, epoch), name, hash, epoch) <==> Uncovers(s, Delete(name), name, hash);
  }

  lemma LiveAfterLogouts(c: AuthConfig, name: string, hash: string, epoch: int, n: nat)
    requires E.Normal(name)
    ensures Live(LogoutTimes(c, name, n), name, hash, epoch) <==>
            && AccountOf(c, name).Some? && BasisOf(AccountOf(c, name).value.hash) == hash
            && E.Reading(c.epochs, name) + n == epoch
  {
    E.BumpsCount(c.epochs, name, n);
    assert AccountOf(LogoutTimes(c, name, n), name) == AccountOf(c, name);
  }

  // ---- files that are safe from the start ------------------------------------------------------

  /**
   A member entry over the credential pair has a hash of its own, and a pair without a name
   has a list on which the name it goes by can never be created.
   */
  predicate SafeConfig(c: AuthConfig) {
    Legacy(c) != map[] ==>
      && !SharesHash(c)
      && (Strip(c.username) == "" ==> Bars(c.entries, LegacyName(c)))
  }

  /** A member entry over the pair repeats its hash. */
  predicate SharesHash(c: AuthConfig) {
    var listed := Listed(c.entries, LegacyName(c));
    listed.Some? && !listed.value.admin && BasisOf(listed.value.hash) == LegacyHash(c)
  }

  /** SafeConfig, and no token was minted under the pair's hash while an entry of a member covers it. */
  ghost predicate Covered(s: State) {
    && SafeConfig(s.config)
    && var name := LegacyName(s.config);
       Legacy(s.config) != map[] && Listed(s.config.entries, name).Some? && !Listed(s.config.entries, name).value.admin ==>
         (name, LegacyHash(s.config)) !in s.minted
  }

  lemma ResolvedStays(username: string)
    ensures Strip(ResolvedName(username)) == ResolvedName(username) != ""
  {
  }

  lemma StepKeepsCovered(s: State, a: Action)
    requires Known(s) && Covered(s) && Enabled(s, a)
    ensures Covered(Step(s, a))
  {
    match a
    case Login(name) => LoginKeepsCovered(s, name);
    case Logout(_) => assert Legacy(Step(s, a).config) == Legacy(s.config);
    case SetPassword(password, who, digest, only) => PasswordSetKeepsCovered(s, password, who, digest, only);
    case Create(who, password, role, digest) => CreateKeepsCovered(s, who, password, role, digest);
    case Delete(who) => DeleteKeepsCovered(s, who);
    case ChangePassword(who, password, digest) => ChangeKeepsCovered(s, who, password, digest);
  }

  lemma LoginKeepsCovered(s: State, name: string)
    requires Covered(s)
    ensures Covered(Step(s, Login(name)))
  {
  }

  lemma CreateKeepsCovered(s: State, who: string, password: string, role: string, digest: string)
    requires Covered(s)
    ensures Covered(State(Created(s.config, who, password, role, digest).0, s.seen + {digest}, s.minted))
  {
    CreatedShape(s.config, who, password, role, digest);
    if Created(s.config, who, password, role, digest).1.Done? {
      ValidIsUsable(Strip(who));
      PinnedAreListed(s.config.entries, s.config.entries);
      AppendKeepsCovered(s, Entry(Strip(who), digest, role), s.seen + {digest});
    }
  }

  lemma AppendKeepsCovered(s: State, e: Entry, seen: set<string>)
    requires Covered(s) && Lower(Strip(e.username)) !in LoweredNames(s.config.entries)
    requires Legacy(s.config) != map[] ==> Strip(e.username) != LegacyName(s.config)
    ensures Covered(State(Appended(s.config, e), seen, s.minted))
  {
    var entries, name := s.config.entries, LegacyName(s.config);
    ListedAppend(entries, e, name);
    AppendPins(entries, e);
    BarsStay(entries, entries + [e], name);
  }

  lemma DeleteKeepsCovered(s: State, who: string)
    requires Covered(s)
    ensures Covered(s.(config := Deleted(s.config, who).0))
  {
    ListedWithout(s.config.entries, Strip(who), LegacyName(s.config));
    if Deleted(s.config, who).1.Done? {
      MembersAreListed(s.config, Strip(who));
      WithoutPins(s.config.entries, Strip(who), s.config.entries);
    }
  }

  /** Only a listed name can be a member's, so only a listed name can be deleted. */
  lemma MembersAreListed(c: AuthConfig, name: string)
    ensures AccountOf(c, name).Some? && !AccountOf(c, name).value.admin <==> !Pins(c.entries, name)
  {
  }

  lemma ChangeKeepsCovered(s: State, who: string, password: string, digest: string)
    requires Known(s) && Covered(s) && Fresh(s, digest)
    ensures Covered(State(AccountPasswordSet(s.config, who, password, digest).0, s.seen + {digest}, s.minted))
  {
    if InList(s.config.entries, Strip(who)) {
      ListedRehashed(s.config.entries, Strip(who), digest, LegacyName(s.config));
      RehashPins(s.config.entries, Strip(who), digest, s.config.entries);
    } else {
      PasswordSetKeepsCovered(s, password, Strip(who), digest, false);
    }
  }

  lemma PasswordSetKeepsCovered(s: State, password: string, who: string, digest: string, only: bool)
    requires Known(s) && Covered(s) && Fresh(s, digest)
    ensures Covered(State(PasswordSet(s.config, password, who, digest, only).0, s.seen + {digest}, s.minted))
  {
    ResolvedStays(who);
    var name := ResolvedName(who);
    if Listed(s.config.entries, name).Some? {
      assert AccountOf(s.config, name) == Listed(s.config.entries, name);
      assert BasisOf(Listed(s.config.entries, name).value.hash) in s.seen;
    }
  }

  lemma {:induction false} AfterCovered(c: AuthConfig, acts: seq<Action>)
    requires SafeConfig(c) && Legal(c, acts)
    ensures Covered(After(c, acts))
  {
    if acts != [] {
      var n := |acts| - 1;
      AfterCovered(c, acts[..n]);
      AfterKnown(c, acts[..n]);
      StepKeepsCovered(After(c, acts[..n]), acts[n]);
    }
  }

  lemma StepKeepsMinted(s: State, a: Action)
    ensures s.minted <= Step(s, a).minted
  {
  }

  lemma {:induction false} MintedStays(c: AuthConfig, acts: seq<Action>, m: nat)
    requires Legal(c, acts) && m <= |acts| && Legal(c, acts[..m])
    ensures After(c, acts[..m]).minted <= After(c, acts).minted
    decreases |acts|
  {
    var n := |acts| - 1;
    if m <= n {
      assert acts[..n][..m] == acts[..m];
      MintedStays(c, acts[..n], m);
      StepKeepsMinted(After(c, acts[..n]), acts[n]);
    } else {
      assert acts[..m] == acts;
    }
  }

  lemma LoginMints(s: State, name: string)
    ensures (name, Basis(s.config, name)) in Step(s, Login(name)).minted
  {
  }

  lemma MintedBy(c: AuthConfig, acts: seq<Action>, i: nat, d: nat, name: string)
    requires i < d <= |acts| && Legal(c, acts[..d]) && Legal(c, acts[..i]) && acts[i] == Login(name)
    ensures (name, Basis(After(c, acts[..i]).config, name)) in After(c, acts[..d]).minted
  {
    assert acts[..d][..i] == acts[..i] && acts[..d][..i + 1] == acts[..i + 1];
    RunAt(c, acts[..d], i);
    LoginMints(After(c, acts[..i]), name);
    MintedStays(c, acts[..d], i + 1);
  }

  /** A covered state: no deletion of a member brings back a credential tokens were minted under. */
  lemma CoveredNeverUncovers(s: State, a: Action, name: string, hash: string)
    requires Covered(s) && (name, hash) in s.minted
    ensures !Uncovers(s, a, name, hash)
  {
  }

  /** From a safe file no run ever uncovers a credential that tokens were minted under. */
  lemma SafeFilesNeverUncover(c: AuthConfig, acts: seq<Action>, i: nat, name: string)
    requires SafeConfig(c) && Legal(c, acts) && i < |acts| && Legal(c, acts[..i]) && acts[i] == Login(name)
    ensures NeverUncovers(c, acts, i, name, Basis(After(c, acts[..i]).config, name))
  {
    var hash := Basis(After(c, acts[..i]).config, name);
    forall d: nat | i <= d < |acts|
      ensures !UncoversAt(c, acts, d, name, hash)
    {
      if i < d && Legal(c, acts[..d]) {
        MintedBy(c, acts, i, d, name);
        AfterCovered(c, acts[..d]);
        CoveredNeverUncovers(After(c, acts[..d]), acts[d], name, hash);
      }
    }
  }

  /**
   Once an account is logged out, gets a new password or is deleted, no token handed out
   to it before verifies again: not at any later time, and not after any further logins,
   logouts, password changes, deletions and re-creations.
   */
  lemma EndedTokensStayDead(p: T.Primitives, c: AuthConfig, acts: seq<Action>, i: nat, k: nat, name: string, t0: real, now: real)
    requires T.Sound(p) && SafeConfig(c) && (forall h :: h in Hashes(c) ==> Lacks(h, '|'))
    requires Legal(c, acts) && i < k < |acts| && acts[i] == Login(name) && EndsAt(c, acts, k, name)
    ensures Legal(c, acts[..i])
    ensures var token := T.CreateSession(p, RegistryOf(After(c, acts[..i]).config), t0, name);
      !T.VerifySession(p, RegistryOf(After(c, acts).config), now, token)
  {
    LoginsAreNamed(c, acts, i, name);
    SafeFilesNeverUncover(c, acts, i, name);
    EndRevokes(c, acts, i, k, name);
    SessionIsLive(p, c, acts, i, name, t0, now);
  }

  /** The same for the proofs of a password check. */
  lemma EndedProofsStayDead(p: T.Primitives, c: AuthConfig, acts: seq<Action>, i: nat, k: nat, name: string, t0: real, now: real)
    requires T.Sound(p) && SafeConfig(c) && (forall h :: h in Hashes(c) ==> Lacks(h, '|'))
    requires Legal(c, acts) && i < k < |acts| && acts[i] == Login(name) && EndsAt(c, acts, k, name)
    ensures Legal(c, acts[..i])
    ensures var token := T.CreatePendingTotpToken(p, RegistryOf(After(c, acts[..i]).config), t0, name);
      T.PendingTotpUsername(p, RegistryOf(After(c, acts).config), now, token) == None
  {
    LoginsAreNamed(c, acts, i, name);
    SafeFilesNeverUncover(c, acts, i, name);
    EndRevokes(c, acts, i, k, name);
    PendingIsLive(p, c, acts, i, name, t0, now);
  }

  /** A proof of password names its account exactly while it has not expired and its credential and counter are live. */
  lemma PendingIsLive(p: T.Primitives, c: AuthConfig, acts: seq<Action>, i: nat, name: string, t0: real, now: real)
    requires T.Sound(p) && (forall h :: h in Hashes(c) ==> Lacks(h, '|'))
    requires Legal(c, acts) && i < |acts| && acts[i] == Login(name)
    ensures Legal(c, acts[..i])
    ensures var s := After(c, acts[..i]);
      T.PendingTotpUsername(p, RegistryOf(After(c, acts).config), now, T.CreatePendingTotpToken(p, RegistryOf(s.config), t0, name))
      == if (T.Seconds(t0) + T.PENDING_TTL) as real > now
            && Live(After(c, acts).config, name, Basis(s.config, name), E.Reading(s.config.epochs, name))
         then Some(name) else None
  {
    LoginsAreNamed(c, acts, i, name);
    var minted, current := After(c, acts[..i]).config, After(c, acts).config;
    BasesLackSeparator(c, acts[..i], name);
    BasesLackSeparator(c, acts, name);
    RegistryReads(minted, name);
    RegistryReads(current, name);
    T.PendingVerifiesIff(p, RegistryOf(minted), t0, name, RegistryOf(current), now);
  }

  /** No credential of a run holds a separator. */
  lemma BasesLackSeparator(c: AuthConfig, acts: seq<Action>, name: string)
    requires Legal(c, acts) && (forall h :: h in Hashes(c) ==> Lacks(h, '|'))
    ensures Lacks(T.Basis(RegistryOf(After(c, acts).config), name), '|')
  {
    AfterKnown(c, acts);
    RegistryReads(After(c, acts).config, name);
  }

  /** In particular after a logout. */
  lemma BumpRevokes(p: T.Primitives, c: AuthConfig, acts: seq<Action>, i: nat, k: nat, name: string, t0: real, now: real)
    requires T.Sound(p) && SafeConfig(c) && (forall h :: h in Hashes(c) ==> Lacks(h, '|'))
    requires Legal(c, acts) && i < k < |acts| && acts[i] == Login(name) && acts[k] == Logout(name)
    ensures Legal(c, acts[..i])
    ensures var token := T.CreateSession(p, RegistryOf(After(c, acts[..i]).config), t0, name);
      !T.VerifySession(p, RegistryOf(After(c, acts).config), now, token)
  {
    PrefixIsLegal(c, acts, k);
    EndedTokensStayDead(p, c, acts, i, k, name, t0, now);
  }

  /** A session verifies exactly while it has not expired and its credential and counter are live. */
  lemma SessionIsLive(p: T.Primitives, c: AuthConfig, acts: seq<Action>, i: nat, name: string, t0: real, now: real)
    requires T.Sound(p) && (forall h :: h in Hashes(c) ==> Lacks(h, '|'))
    requires Legal(c, acts) && i < |acts| && acts[i] == Login(name)
    ensures Legal(c, acts[..i])
    ensures var s := After(c, acts[..i]);
      T.VerifySession(p, RegistryOf(After(c, acts).config), now, T.CreateSession(p, RegistryOf(s.config), t0, name))
      <==> (T.Seconds(t0) + T.SESSION_TTL) as real > now
           && Live(After(c, acts).config, name, Basis(s.config, name), E.Reading(s.config.epochs, name))
  {
    LoginsAreNamed(c, acts, i, name);
    var then_, now_ := After(c, acts[..i]).config, After(c, acts).config;
    AfterKnown(c, acts[..i]);
    AfterKnown(c, acts);
    RegistryReads(then_, name);
    RegistryReads(now_, name);
    if AccountOf(now_, name).None? {
      assert Lacks("legacy", '|');
    }
    T.SessionVerifiesIff(p, RegistryOf(then_), t0, name, RegistryOf(now_), now);
  }

  // ---- any string whatever ------------------------------------------------------------------

  /**
   The bytes the server signs for the login at step i when its clock reads t0: a session,
   or the proof of the password check alone.
   */
  ghost predicate SignedAt(p: T.Primitives, c: AuthConfig, acts: seq<Action>, i: nat, t0: real, proof: bool, payload: seq<T.B.Byte>) {
    && i < |acts| && acts[i].Login? && Legal(c, acts[..i])
    && var name := acts[i].name;
       var version := T.Version(p, RegistryOf(After(c, acts[..i]).config), name);
       payload == p.encode(if proof
                           then "totp-pending|" + (name + "|" + Str(T.Seconds(t0) + 300) + "|" + version)
                           else name + "|" + Str(T.Seconds(t0) + 604800) + "|" + version)
  }

  /** Nobody but the server signs: what the token holds a signature of was signed for some login of the run. */
  ghost predicate Unforged(p: T.Primitives, c: AuthConfig, acts: seq<Action>, token: string) {
    forall payload :: T.Carries(p, token, payload) ==>
      exists i: nat, t0: real, proof: bool :: SignedAt(p, c, acts, i, t0, proof, payload)
  }

  /** The credential and counter of the login at step i are still the account's, and from a safe file nothing ended them. */
  ghost predicate StillLive(c: AuthConfig, acts: seq<Action>, i: nat, name: string)
    requires Legal(c, acts) && i < |acts| && Legal(c, acts[..i])
  {
    var s := After(c, acts[..i]);
    && Live(After(c, acts).config, name, Basis(s.config, name), E.Reading(s.config.epochs, name))
    && (SafeConfig(c) ==> forall k: nat :: i < k < |acts| ==> !EndsAt(c, acts, k, name))
  }

  lemma LiveIsNotEnded(c: AuthConfig, acts: seq<Action>, i: nat, name: string)
    requires Legal(c, acts) && i < |acts| && Legal(c, acts[..i]) && acts[i] == Login(name)
    requires var s := After(c, acts[..i]);
      Live(After(c, acts).config, name, Basis(s.config, name), E.Reading(s.config.epochs, name))
    ensures StillLive(c, acts, i, name)
  {
    if SafeConfig(c) {
      SafeFilesNeverUncover(c, acts, i, name);
      forall k: nat | i < k < |acts|
        ensures !EndsAt(c, acts, k, name)
      {
        if EndsAt(c, acts, k, name) {
          EndRevokes(c, acts, i, k, name);
        }
      }
    }
  }

  /**
   Whatever string is presented: when it passes as a session of an account, and the server
   is the only one to sign, the account logged in less than a week before, and from a safe
   file it has not been logged out, given a new password or deleted since.  The exception is
   an account named after the marker and another account, which a proof of the other's
   password may name.
   */
  lemma WhatPassesWasHandedOut(p: T.Primitives, c: AuthConfig, acts: seq<Action>, now: real, token: string, name: string)
    returns (i: nat, t0: real)
    requires T.Sound(p) && Legal(c, acts) && (forall h :: h in Hashes(c) ==> Lacks(h, '|'))
    requires Unforged(p, c, acts, token) && T.SessionUsername(p, RegistryOf(After(c, acts).config), now, token) == Some(name)
    ensures i < |acts| && Legal(c, acts[..i]) && acts[i].Login?
    ensures acts[i] == Login(name) || name == "totp-pending|" + acts[i].name
    ensures acts[i] == Login(name) ==> (T.Seconds(t0) + 604800) as real > now && StillLive(c, acts, i, name)
  {
    var now_ := RegistryOf(After(c, acts).config);
    var payload, exp, version := T.SessionHolds(p, now_, now, token, name);
    var proof: bool;
    i, t0, proof :| SignedAt(p, c, acts, i, t0, proof, payload);
    SignedIsRead(p, c, acts, i, t0, proof, payload, name, exp, version);
    if acts[i] == Login(name) {
      T.SessionPasses(p, now_, now, T.CreateSession(p, RegistryOf(After(c, acts[..i]).config), t0, name), name, payload, exp, version);
      SessionIsLive(p, c, acts, i, name, t0, now);
      LiveIsNotEnded(c, acts, i, name);
    }
  }

  /** The same for proofs of a password check, which last five minutes. */
  lemma WhatProvesWasChecked(p: T.Primitives, c: AuthConfig, acts: seq<Action>, now: real, token: string, name: string)
    returns (i: nat, t0: real)
    requires T.Sound(p) && Legal(c, acts) && (forall h :: h in Hashes(c) ==> Lacks(h, '|'))
    requires Unforged(p, c, acts, token) && T.PendingTotpUsername(p, RegistryOf(After(c, acts).config), now, token) == Some(name)
    ensures i < |acts| && Legal(c, acts[..i]) && acts[i].Login?
    ensures acts[i] == Login(name) || acts[i].name == "totp-pending|" + name
    ensures acts[i] == Login(name) ==> (T.Seconds(t0) + 300) as real > now && StillLive(c, acts, i, name)
  {
    var now_ := RegistryOf(After(c, acts).config);
    var payload, exp, version := T.ProofHolds(p, now_, now, token, name);
    var proof: bool;
    i, t0, proof :| SignedAt(p, c, acts, i, t0, proof, payload);
    Regroup(name, exp, version);
    SignedIsRead(p, c, acts, i, t0, proof, payload, "totp-pending|" + name, exp, version);
    Cancel("totp-pending|", name, acts[i].name);
    if acts[i] == Login(name) {
      T.ProofPasses(p, now_, now, T.CreatePendingTotpToken(p, RegistryOf(After(c, acts[..i]).config), t0, name), name, payload, exp, version);
      PendingIsLive(p, c, acts, i, name, t0, now);
      LiveIsNotEnded(c, acts, i, name);
    }
  }

  /** A signed payload reads back as the login it was signed for. */
  lemma SignedIsRead(p: T.Primitives, c: AuthConfig, acts: seq<Action>, i: nat, t0: real, proof: bool, payload: seq<T.B.Byte>,
                     name: string, exp: string, version: string)
    requires T.Sound(p) && SignedAt(p, c, acts, i, t0, proof, payload) && Lacks(exp, '|') && Lacks(version, '|')
    requires p.decode(payload) == Some(name + "|" + exp + "|" + version)
    ensures name == if proof then "totp-pending|" + acts[i].name else acts[i].name
    ensures var reg := RegistryOf(After(c, acts[..i]).config);
      T.Carries(p, if proof then T.CreatePendingTotpToken(p, reg, t0, acts[i].name) else T.CreateSession(p, reg, t0, acts[i].name), payload)
  {
    var reg, who := RegistryOf(After(c, acts[..i]).config), acts[i].name;
    var until := T.Seconds(t0) + if proof then 300 else 604800;
    Regroup(who, Str(until), T.Version(p, reg, who));
    MintedReads(p, reg, if proof then "totp-pending|" + who else who, who, until);
    T.RSplitExact(T.Fields(name, exp, version), name, exp, version);
    T.B.RoundTrip(payload + [T.DOT] + p.mac(payload));
  }

  lemma MintedReads(p: T.Primitives, reg: T.Registry, name: string, who: string, until: int)
    requires T.Sound(p)
    ensures T.RSplit(T.Fields(name, Str(until), T.Version(p, reg, who))) == Some((name, Str(until), T.Version(p, reg, who)))
  {
    StrFacts(until, until);
    T.RSplitExact(T.Fields(name, Str(until), T.Version(p, reg, who)), name, Str(until), T.Version(p, reg, who));
  }

  /** A claim behind the marker is also a claim under the marked name. */
  lemma Regroup(name: string, exp: string, version: string)
    ensures "totp-pending|" + (name + "|" + exp + "|" + version) == T.Fields("totp-pending|" + name, exp, version)
    ensures "totp-pending|" + (name + "|" + exp + "|" + version) == T.MARK + "|" + T.Fields(name, exp, version)
  {
    assert "totp-pending|" == T.MARK + "|";
  }

  lemma Cancel(prefix: string, a: string, b: string)
    ensures prefix + a == prefix + b ==> a == b
  {
    assert (prefix + a)[|prefix|..] == a && (prefix + b)[|prefix|..] == b;
  }

  /** Logging one account out changes no other account's sessions. */
  lemma BumpIsIsolated(p: T.Primitives, c: AuthConfig, name: string, other: string, now: real, token: string)
    requires E.Normal(name) && other != name
    ensures T.SessionUsername(p, RegistryOf(LoggedOut(c, name)), now, token) == Some(other)
            <==> T.SessionUsername(p, RegistryOf(c), now, token) == Some(other)
  {
    var before, after := RegistryOf(c), RegistryOf(LoggedOut(c, name));
    assert after.hashes == before.hashes;
    NoAccountIsUnnamed(c);
    RegistryReads(c, "");
    if other != "" {
      LoggedOutKeeps(c, name, other);
      SameVersion(p, before, after, other);
    }
  }

  lemma SameVersion(p: T.Primitives, a: T.Registry, b: T.Registry, name: string)
    requires a.hashes == b.hashes && E.Reading(a.epochs, name) == E.Reading(b.epochs, name)
    ensures T.Version(p, a, name) == T.Version(p, b, name)
  {
  }

  /** A password change signs out its own account only. */
  lemma RotationIsIsolated(p: T.Primitives, c: AuthConfig, name: string, password: string, digest: string,
                           other: string, now: real, token: string)
    requires digest != "" && other != Strip(name) && other != ""
    ensures var c' := AccountPasswordSet(c, name, password, digest).0;
      T.SessionUsername(p, RegistryOf(c'), now, token) == Some(other)
      <==> T.SessionUsername(p, RegistryOf(c), now, token) == Some(other)
  {
    var (c', outcome) := AccountPasswordSet(c, name, password, digest);
    AccountPasswordSetKeeps(c, name, password, digest, other);
    if outcome.Done? {
      RotationTakes(c, name, password, digest, other);
    } else {
      assert c' == c;
    }
    RegistryReads(c, other);
    RegistryReads(c', other);
    SameReading(p, RegistryOf(c), RegistryOf(c'), other, now, token);
  }

  /** What a verifier says about one account depends on that account's registration only. */
  lemma SameReading(p: T.Primitives, a: T.Registry, b: T.Registry, name: string, now: real, token: string)
    requires (name in a.hashes <==> name in b.hashes) && T.Basis(a, name) == T.Basis(b, name)
    requires E.Reading(a.epochs, name) == E.Reading(b.epochs, name)
    ensures T.SessionUsername(p, a, now, token) == Some(name) <==> T.SessionUsername(p, b, now, token) == Some(name)
  {
    assert T.Version(p, a, name) == T.Version(p, b, name);
  }

  /** Over any run no two listed accounts come to share a name in any letter case, and the list keeps its cap. */
  lemma {:induction false} ListsStaySound(c: AuthConfig, acts: seq<Action>)
    requires Legal(c, acts) && SoundList(c.entries)
    ensures SoundList(After(c, acts).config.entries)
  {
    if acts != [] {
      var n := |acts| - 1;
      ListsStaySound(c, acts[..n]);
      StepKeepsSoundList(After(c, acts[..n]), acts[n]);
    }
  }

  lemma StepKeepsSoundList(s: State, a: Action)
    requires SoundList(s.config.entries)
    ensures SoundList(Step(s, a).config.entries)
  {
    match a
    case Login(_) =>
    case Logout(_) =>
    case SetPassword(_, _, _, _) =>
    case ChangePassword(who, password, digest) => RotationIsSound(s.config, who, password, digest);
    case Create(who, password, role, digest) => CreatedIsSound(s.config, who, password, role, digest);
    case Delete(who) => WithoutIsSound(s.config.entries, Strip(who));
  }

  // ---- first-run setup --------------------------------------------------------------------------

  /** Step `d` is a setup that claims the installation. */
  predicate Claims(c: AuthConfig, acts: seq<Action>, d: nat) {
    && d < |acts| && Legal(c, acts[..d]) && acts[d].SetPassword? && acts[d].onlyIfUnclaimed
    && PasswordSet(After(c, acts[..d]).config, acts[d].password, acts[d].name, acts[d].digest, true).1.Done?
  }

  lemma StepKeepsClaim(s: State, a: Action)
    requires Enabled(s, a)
    ensures Claimed(s.config) ==> Claimed(Step(s, a).config)
    ensures a.SetPassword? && PasswordSet(s.config, a.password, a.name, a.digest, a.onlyIfUnclaimed).1.Done? ==>
              Claimed(Step(s, a).config)
  {
    match a
    case Login(_) =>
    case Logout(who) => ClaimsAreFinal(s.config, "", who, "x", "", false);
    case SetPassword(password, who, digest, only) => ClaimsAreFinal(s.config, password, who, digest, "", only);
    case ChangePassword(who, password, digest) => ClaimsAreFinal(s.config, password, who, digest, "", false);
    case Create(who, password, role, digest) => ClaimsAreFinal(s.config, password, who, digest, role, false);
    case Delete(who) => ClaimsAreFinal(s.config, "", who, "x", "", false);
  }

  lemma {:induction false} ClaimStays(c: AuthConfig, acts: seq<Action>, m: nat)
    requires Legal(c, acts) && m <= |acts| && Legal(c, acts[..m]) && Claimed(After(c, acts[..m]).config)
    ensures Claimed(After(c, acts).config)
    decreases |acts|
  {
    var n := |acts| - 1;
    if m <= n {
      assert acts[..n][..m] == acts[..m];
      ClaimStays(c, acts[..n], m);
      StepKeepsClaim(After(c, acts[..n]), acts[n]);
    } else {
      assert acts[..m] == acts;
    }
  }

  /** Of any number of setups that race for a fresh installation, one wins. */
  lemma OneSetupWins(c: AuthConfig, acts: seq<Action>, i: nat, j: nat)
    requires Legal(c, acts) && i < j && Claims(c, acts, i)
    ensures !Claims(c, acts, j)
  {
    if Claims(c, acts, j) {
      PrefixIsLegal(c, acts, i + 1);
      assert acts[..i + 1][..i] == acts[..i];
      StepKeepsClaim(After(c, acts[..i]), acts[i]);
      assert acts[..j][..i + 1] == acts[..i + 1];
      ClaimStays(c, acts[..j], i + 1);
    }
  }

  // ---- files that are not safe --------------------------------------------------------------------

  lemma RunExtends(c: AuthConfig, acts: seq<Action>, a: Action)
    requires Legal(c, acts) && Enabled(After(c, acts), a)
    ensures Legal(c, acts + [a]) && After(c, acts + [a]) == Step(After(c, acts), a)
  {
    assert (acts + [a])[..|acts|] == acts;
  }

  /**
   A member entry over the administrator pair, whatever its hash: once it is logged out
   and deleted, the account is the pair again with its counter at zero.
   */
  lemma DeletionUncoversPair(c: AuthConfig, acts: seq<Action>, name: string)
    requires Legal(c, acts) && E.Normal(name) && Get(Legacy(After(c, acts).config), name).Some?
    requires var listed := Listed(After(c, acts).config.entries, name); listed.Some? && !listed.value.admin
    ensures var more := acts + [Logout(name)] + [Delete(name)];
      Legal(c, more) && Live(After(c, more).config, name, LegacyHash(After(c, acts).config), 0)
  {
    var s := After(c, acts);
    RunExtends(c, acts, Logout(name));
    RunExtends(c, acts + [Logout(name)], Delete(name));
    var s1 := Step(s, Logout(name));
    assert Legacy(s1.config) == Legacy(s.config) && s1.config.entries == s.config.entries;
    DeletedKeeps(s1.config, name, name);
  }

  /** A token handed out at step i, ended at step k, that is live again at the end of the run. */
  ghost predicate Revives(c: AuthConfig, acts: seq<Action>, i: nat, k: nat, name: string) {
    && Legal(c, acts) && i < k < |acts| && acts[i] == Login(name) && EndsAt(c, acts, k, name)
    && Legal(c, acts[..i])
    && var s := After(c, acts[..i]);
       Live(After(c, acts).config, name, Basis(s.config, name), E.Reading(s.config.epochs, name))
  }

  /** n logouts of one account move its counter by n and nothing else. */
  lemma {:induction false} LogOutTimes(c: AuthConfig, acts: seq<Action>, name: string, n: nat) returns (more: seq<Action>)
    requires Legal(c, acts) && E.Normal(name)
    ensures acts <= more && |more| == |acts| + n && Legal(c, more)
    ensures var before, after := After(c, acts).config, After(c, more).config;
      && after.(epochs := before.epochs) == before
      && E.Reading(after.epochs, name) == E.Reading(before.epochs, name) + n
    decreases n
  {
    if n == 0 {
      more := acts;
    } else {
      RunExtends(c, acts, Logout(name));
      LoggedOutKeeps(After(c, acts).config, name, name);
      more := LogOutTimes(c, acts + [Logout(name)], name, n - 1);
    }
  }

  /** Mints a token of the account, at a counter that is not negative. */
  lemma MintOne(c: AuthConfig, acts: seq<Action>, name: string) returns (more: seq<Action>, i: nat)
    requires Legal(c, acts) && E.Normal(name) && AccountOf(After(c, acts).config, name).Some?
    ensures i + 1 == |more| && more[i] == Login(name) && Legal(c, more) && Legal(c, more[..i])
    ensures After(c, more[..i]).config == After(c, more).config && E.Reading(After(c, more).config.epochs, name) >= 0
    ensures After(c, more).config.(epochs := After(c, acts).config.epochs) == After(c, acts).config
  {
    var now := E.Reading(After(c, acts).config.epochs, name);
    var raised := LogOutTimes(c, acts, name, if now < 0 then -now else 0);
    RunExtends(c, raised, Login(name));
    more, i := raised + [Login(name)], |raised|;
    assert more[..i] == raised;
  }

  /** The pair behind a member entry comes back under its old credential, and its counter catches up. */
  lemma ComesBack(c: AuthConfig, acts: seq<Action>, i: nat, name: string) returns (more: seq<Action>)
    requires Legal(c, acts) && E.Normal(name) && i < |acts| && acts[i] == Login(name) && Legal(c, acts[..i])
    requires Get(Legacy(After(c, acts).config), name).Some? && !Pins(After(c, acts).config.entries, name)
    requires Basis(After(c, acts[..i]).config, name) == LegacyHash(After(c, acts).config)
    requires E.Reading(After(c, acts[..i]).config.epochs, name) >= 0
    ensures Revives(c, more, i, |acts|, name) && more[|acts|] == Logout(name)
  {
    DeletionUncoversPair(c, acts, name);
    var gone := acts + [Logout(name)] + [Delete(name)];
    more := LogOutTimes(c, gone, name, E.Reading(After(c, acts[..i]).config.epochs, name));
    assert more[..|gone|] == gone && gone[..|acts|] == acts && gone[|acts|] == Logout(name);
    assert more[..|acts|] == acts && more[..i] == acts[..i] && more[i] == acts[i];
  }

  lemma PairIsNormal(c: AuthConfig)
    ensures E.Normal(LegacyName(c))
  {
  }

  /** A member entry that repeats the pair's name and hash: a token of its own comes back. */
  lemma SharedHashRevives(c: AuthConfig) returns (acts: seq<Action>, i: nat, k: nat)
    requires Legacy(c) != map[] && SharesHash(c)
    ensures Revives(c, acts, i, k, LegacyName(c)) && acts[k] == Logout(LegacyName(c))
  {
    var name := LegacyName(c);
    PairIsNormal(c);
    var minted: seq<Action>;
    minted, i := MintOne(c, [], name);
    k := |minted|;
    acts := ComesBack(c, minted, i, name);
  }

  /** Deletes every account that can be deleted. */
  lemma {:induction false} Purge(c: AuthConfig, acts: seq<Action>) returns (more: seq<Action>)
    requires Legal(c, acts)
    ensures Legal(c, more)
    ensures var before, after := After(c, acts).config, After(c, more).config;
      && after.(entries := before.entries, epochs := before.epochs) == before
      && Pinned(after.entries) == Pinned(before.entries)
      && forall i :: 0 <= i < |after.entries| ==> Pins(after.entries, Strip(after.entries[i].username))
    decreases |After(c, acts).config.entries|
  {
    var s := After(c, acts);
    var entries := s.config.entries;
    if i :| 0 <= i < |entries| && !Pins(entries, Strip(entries[i].username)) {
      var name := Strip(entries[i].username);
      RunExtends(c, acts, Delete(name));
      assert Step(s, Delete(name)).config == Removed(s.config, name);
      WithoutPins(entries, name, entries);
      WithoutShortens(entries, i);
      more := Purge(c, acts + [Delete(name)]);
    } else {
      more := acts;
    }
  }

  /** There is always a hash nobody has seen. */
  lemma FreshExists(s: State) returns (digest: string)
    ensures Fresh(s, digest)
  {
    var n := LongerThanAll(s.seen);
    digest := seq(n + 1, _ => 'x');
    assert |digest| == n + 1;
  }

  lemma {:induction false} LongerThanAll(texts: set<string>) returns (n: nat)
    ensures forall t :: t in texts ==> |t| <= n
  {
    if texts == {} {
      n := 0;
    } else {
      var t :| t in texts;
      var m := LongerThanAll(texts - {t});
      n := if |t| > m then |t| else m;
      forall u | u in texts
        ensures |u| <= n
      {
        assert u == t || u in texts - {t};
      }
    }
  }

  lemma DefaultNameIsValid()
    ensures ValidUsername("admin") && Usable("admin") && Strip("admin") == "admin" && E.Normal("admin")
  {
  }

  /** On a list of pinned entries that does not bar a name, that name is not in use in any letter case. */
  lemma UnbarredIsFree(entries: seq<Entry>, name: string)
    requires forall i :: 0 <= i < |entries| ==> Pins(entries, Strip(entries[i].username))
    requires !Bars(entries, name)
    ensures Lower(name) !in LoweredNames(entries) && |entries| < MAX_ACCOUNTS && Listed(entries, name).None?
  {
    AllPinned(entries, entries);
    forall i | 0 <= i < |entries|
      ensures Lower(Strip(entries[i].username)) != Lower(name)
    {
      assert Pinned(entries)[i] == Strip(entries[i].username);
    }
    ListedIsTaken(entries, name);
  }

  lemma CreatesOver(c: AuthConfig, digest: string)
    requires Strip(c.username) == "" && Lower("admin") !in LoweredNames(c.entries) && |c.entries| < MAX_ACCOUNTS
    ensures var c' := Created(c, "admin", "0123456789", "member", digest).0;
      && Listed(c'.entries, "admin") == Some(Account(digest, false))
      && Legacy(c') == Legacy(c) && LegacyHash(c') == LegacyHash(c)
  {
    DefaultNameIsValid();
    var e := Entry("admin", digest, "member");
    assert !Taken(c, "admin");
    assert Created(c, "admin", "0123456789", "member", digest) == (Block(c).(entries := c.entries + [e]), Done);
    ListedAppend(c.entries, e, "admin");
  }

  /**
   A pair whose name is missing from the file: the default name is free to create, and
   deleting the account created over it brings back a token of the pair.
   */
  lemma UnnamedPairRevives(c: AuthConfig) returns (acts: seq<Action>, i: nat, k: nat)
    requires Legacy(c) != map[] && Strip(c.username) == "" && !Bars(c.entries, "admin")
    ensures Revives(c, acts, i, k, "admin") && acts[k] == Logout("admin")
  {
    DefaultNameIsValid();
    var purged := Purge(c, []);
    UnbarredIsFree(After(c, purged).config.entries, "admin");
    var minted: seq<Action>;
    minted, i := MintOne(c, purged, "admin");
    var s := After(c, minted);
    var digest := FreshExists(s);
    var create := Create("admin", "0123456789", "member", digest);
    RunExtends(c, minted, create);
    CreatesOver(s.config, digest);
    var over := minted + [create];
    assert over[..i] == minted[..i];
    k := |over|;
    acts := ComesBack(c, over, i, "admin");
  }

  /** Some run brings an ended token back exactly when the file is not safe. */
  lemma RevivableIff(c: AuthConfig)
    ensures (exists acts: seq<Action>, i: nat, k: nat, name: string :: Revives(c, acts, i, k, name)) <==> !SafeConfig(c)
  {
    if SafeConfig(c) {
      forall acts: seq<Action>, i: nat, k: nat, name: string
        ensures !Revives(c, acts, i, k, name)
      {
        if Revives(c, acts, i, k, name) {
          SafeFilesNeverUncover(c, acts, i, name);
          EndRevokes(c, acts, i, k, name);
        }
      }
    } else if SharesHash(c) {
      var acts, i, k := SharedHashRevives(c);
      assert Revives(c, acts, i, k, LegacyName(c));
    } else {
      var acts, i, k := UnnamedPairRevives(c);
      assert Revives(c, acts, i, k, "admin");
    }
  }
}
