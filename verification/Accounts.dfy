/**
 Panel accounts (hub/auth.py): the administrator pair of a single-user installation, the
 list of accounts laid over it, and the operations that rewrite them.  Each operation is
 one atomic rewrite of the configuration.
 */
module Accounts {
  import opened Options
  import opened Text
  import E = SessionEpochs
  import T = SessionTokens

  const MIN_PASSWORD_LENGTH: nat := 10
  const MAX_ACCOUNTS: nat := 32
  const ROLES: set<string> := {"admin", "member"}

  /** An entry of the accounts list, as the file spells it. */
  datatype Entry = Entry(username: string, hash: string, role: string)

  /** The `settings.auth` block. */
  datatype AuthConfig = AuthConfig(
    username: string,
    passwordHash: string,
    password: string,
    entries: seq<Entry>,
    epochs: seq<E.Row>)

  datatype Account = Account(hash: string, admin: bool)

  datatype Outcome = Done | Unwritten | Refused(reason: string)

  // ---- reading -----------------------------------------------------------------------

  function LegacyName(c: AuthConfig): string {
    var name := Strip(c.username);
    if name == "" then "admin" else name
  }

  function LegacyHash(c: AuthConfig): string {
    if c.passwordHash != "" then c.passwordHash else c.password
  }

  predicate Usable(name: string) {
    name != "" && Lacks(name, ':')
  }

  function Legacy(c: AuthConfig): map<string, Account> {
    if LegacyHash(c) != "" && Lacks(LegacyName(c), ':') then map[LegacyName(c) := Account(LegacyHash(c), true)] else map[]
  }

  /** The accounts list laid over what is known already; a later entry wins. */
  function Overlay(known: map<string, Account>, entries: seq<Entry>): map<string, Account> {
    if entries == [] then known
    else
      var e := entries[|entries| - 1];
      var before := Overlay(known, entries[..|entries| - 1]);
      if Usable(Strip(e.username)) then before[Strip(e.username) := Account(e.hash, e.role == "admin")] else before
  }

  function AllAccounts(c: AuthConfig): map<string, Account> {
    Overlay(Legacy(c), c.entries)
  }

  /** The listed account of that name: its last entry. */
  function Listed(entries: seq<Entry>, name: string): Option<Account> {
    if entries == [] then None
    else
      var e := entries[|entries| - 1];
      if Strip(e.username) == name && Usable(name) then Some(Account(e.hash, e.role == "admin"))
      else Listed(entries[..|entries| - 1], name)
  }

  /** `account`: the list first, then the administrator pair. */
  function AccountOf(c: AuthConfig, name: string): Option<Account> {
    var listed := Listed(c.entries, name);
    if listed.Some? then listed else Get(Legacy(c), name)
  }

  lemma {:induction false} OverlayLooksUp(known: map<string, Account>, entries: seq<Entry>, name: string)
    ensures Get(Overlay(known, entries), name) ==
            if Listed(entries, name).Some? then Listed(entries, name) else Get(known, name)
  {
    if entries != [] {
      OverlayLooksUp(known, entries[..|entries| - 1], name);
    }
  }

  lemma OverlayStep(known: map<string, Account>, entries: seq<Entry>, i: nat)
    requires i < |entries|
    ensures var own, before := Strip(entries[i].username), Overlay(known, entries[..i]);
      Overlay(known, entries[..i + 1]) ==
      if Usable(own) then before[own := Account(entries[i].hash, entries[i].role == "admin")] else before
  {
    assert entries[..i + 1][..i] == entries[..i];
  }

  /** One dictionary of accounts, or a search from the end of the list: the same answer. */
  lemma AccountsAgree(c: AuthConfig, name: string)
    ensures Get(AllAccounts(c), name) == AccountOf(c, name)
    ensures name in AllAccounts(c) ==> Usable(name)
  {
    OverlayLooksUp(Legacy(c), c.entries, name);
    ListedIsUsable(c.entries, name);
  }

  lemma {:induction false} ListedIsUsable(entries: seq<Entry>, name: string)
    ensures Listed(entries, name).Some? ==> Usable(name)
  {
    if entries != [] {
      ListedIsUsable(entries[..|entries| - 1], name);
    }
  }

  /** What the token verifiers see. */
  function RegistryOf(c: AuthConfig): T.Registry {
    T.Registry(map name | name in AllAccounts(c) :: AllAccounts(c)[name].hash, c.epochs)
  }

  function BasisOf(hash: string): string {
    if hash != "" then hash else "legacy"
  }

  lemma RegistryReads(c: AuthConfig, name: string)
    ensures name in RegistryOf(c).hashes <==> AccountOf(c, name).Some?
    ensures AccountOf(c, name).Some? ==> T.Basis(RegistryOf(c), name) == BasisOf(AccountOf(c, name).value.hash)
  {
    AccountsAgree(c, name);
  }

  predicate Claimed(c: AuthConfig) {
    c.passwordHash != "" || (c.password != "" && c.password != "change-me")
  }

  // ---- rules for new names -------------------------------------------------------------

  predicate IsAlnum(ch: char) {
    'a' <= ch <= 'z' || 'A' <= ch <= 'Z' || '0' <= ch <= '9'
  }

  /** `USERNAME_RE`, applied to a stripped name. */
  predicate ValidUsername(name: string) {
    && 1 <= |name| <= 64 && IsAlnum(name[0])
    && forall i :: 0 <= i < |name| ==> IsAlnum(name[i]) || name[i] in {'.', '_', '@', '+', '-'}
  }

  function Lower(s: string): (r: string)
    ensures |r| == |s|
  {
    if s == "" then ""
    else [if 'A' <= s[0] <= 'Z' then ((s[0] as int) + 32) as char else s[0]] + Lower(s[1..])
  }

  // ---- rewriting ---------------------------------------------------------------------------

  /** Every rewrite starts from the block with its counters cleaned. */
  function Block(c: AuthConfig): AuthConfig {
    c.(epochs := E.Clean(c.epochs))
  }

  function ResolvedName(username: string): string {
    var name := Strip(if username != "" then username else "admin");
    if name == "" then "admin" else name
  }

  predicate PasswordIsShort(password: string) {
    |password| < MIN_PASSWORD_LENGTH
  }

  /** `set_password` */
  function PasswordSet(c: AuthConfig, password: string, username: string, digest: string, onlyIfUnclaimed: bool)
    : (AuthConfig, Outcome)
  {
    if PasswordIsShort(password) then (c, Refused("password_too_short"))
    else if !ValidUsername(ResolvedName(username)) then (c, Refused("bad_username"))
    else if onlyIfUnclaimed && Claimed(c) then (c, Unwritten)
    else (Block(c).(username := ResolvedName(username), passwordHash := digest, password := ""), Done)
  }

  function LoweredNames(entries: seq<Entry>): set<string> {
    set i | 0 <= i < |entries| :: Lower(Strip(entries[i].username))
  }

  method TakenNames(entries: seq<Entry>) returns (taken: set<string>)
    ensures taken == LoweredNames(entries)
  {
    taken := {};
    var i := 0;
    while i < |entries|
      invariant 0 <= i <= |entries|
      invariant taken == set k | 0 <= k < i :: Lower(Strip(entries[k].username))
    {
      taken := taken + {Lower(Strip(entries[i].username))};
      i := i + 1;
    }
  }

  predicate Taken(c: AuthConfig, name: string) {
    || Lower(name) in LoweredNames(c.entries)
    || (Strip(c.username) != "" && Lower(name) == Lower(Strip(c.username)))
  }

  /** `create_account` */
  function Created(c: AuthConfig, username: string, password: string, role: string, digest: string)
    : (AuthConfig, Outcome)
  {
    var name := Strip(username);
    if !ValidUsername(name) then (c, Refused("bad_username"))
    else if role !in ROLES then (c, Refused("bad_role"))
    else if PasswordIsShort(password) then (c, Refused("password_too_short"))
    else if Taken(c, name) then (c, Refused("exists"))
    else if |c.entries| >= MAX_ACCOUNTS then (c, Refused("too_many"))
    else (Block(c).(entries := c.entries + [Entry(name, digest, role)]), Done)
  }

  function Rehashed(entries: seq<Entry>, name: string, digest: string): seq<Entry> {
    if entries == [] then []
    else
      var e := entries[|entries| - 1];
      Rehashed(entries[..|entries| - 1], name, digest) + [if Strip(e.username) == name then e.(hash := digest) else e]
  }

  method RehashEntries(entries: seq<Entry>, name: string, digest: string) returns (out: seq<Entry>)
    ensures out == Rehashed(entries, name, digest)
  {
    out := [];
    var i := 0;
    while i < |entries|
      invariant 0 <= i <= |entries| && out == Rehashed(entries[..i], name, digest)
    {
      assert entries[..i + 1][..i] == entries[..i];
      var e := entries[i];
      if Strip(e.username) == name {
        e := e.(hash := digest);
      }
      out := out + [e];
      i := i + 1;
    }
    assert entries[..i] == entries;
  }

  predicate InList(entries: seq<Entry>, name: string) {
    exists i :: 0 <= i < |entries| && Strip(entries[i].username) == name
  }

  /** `set_account_password` */
  function AccountPasswordSet(c: AuthConfig, username: string, password: string, digest: string): (AuthConfig, Outcome) {
    var name := Strip(username);
    if AccountOf(c, name).None? then (c, Refused("not_found"))
    else if PasswordIsShort(password) then (c, Refused("password_too_short"))
    else if !InList(c.entries, name) then PasswordSet(c, password, name, digest, false)
    else (Rewritten(c, name, digest), Done)
  }

  function Without(entries: seq<Entry>, name: string): seq<Entry> {
    if entries == [] then []
    else
      var e := entries[|entries| - 1];
      Without(entries[..|entries| - 1], name) + if Strip(e.username) == name then [] else [e]
  }

  method KeepOthers(entries: seq<Entry>, name: string) returns (out: seq<Entry>)
    ensures out == Without(entries, name)
  {
    out := [];
    var i := 0;
    while i < |entries|
      invariant 0 <= i <= |entries| && out == Without(entries[..i], name)
    {
      assert entries[..i + 1][..i] == entries[..i];
      if Strip(entries[i].username) != name {
        out := out + [entries[i]];
      }
      i := i + 1;
    }
    assert entries[..i] == entries;
  }

  /** The configuration without a member and its counter. */
  function Removed(c: AuthConfig, name: string): AuthConfig {
    c.(entries := Without(c.entries, name), epochs := E.Dropped(E.Clean(c.epochs), name))
  }

  /** `delete_account` */
  function Deleted(c: AuthConfig, username: string): (AuthConfig, Outcome) {
    var name := Strip(username);
    match AccountOf(c, name)
    case None => (c, Refused("not_found"))
    case Some(acct) =>
      if acct.admin then (c, Refused("not_member"))
      else (Removed(c, name), Done)
  }

  /** `bump_session_epoch` */
  function LoggedOut(c: AuthConfig, username: string): AuthConfig {
    c.(epochs := E.BumpedBlock(c.epochs, username))
  }

  // ---- the store --------------------------------------------------------------------------------

  class AuthStore {
    var username: string
    var passwordHash: string
    var password: string
    var entries: seq<Entry>
    var epochs: seq<E.Row>

    constructor (c: AuthConfig)
      ensures View() == c
    {
      username, passwordHash, password, entries, epochs := c.username, c.passwordHash, c.password, c.entries, c.epochs;
    }

    function View(): AuthConfig
      reads this
    {
      AuthConfig(username, passwordHash, password, entries, epochs)
    }

    /** `accounts` */
    method ListAccounts() returns (accounts: map<string, Account>)
      ensures forall name :: Get(accounts, name) == AccountOf(View(), name)
    {
      accounts := map[];
      var name := Strip(username);
      if name == "" {
        name := "admin";
      }
      var hash := if passwordHash != "" then passwordHash else password;
      if hash != "" && Lacks(name, ':') {
        accounts := accounts[name := Account(hash, true)];
      }
      assert accounts == Legacy(View());
      var i := 0;
      while i < |entries|
        invariant 0 <= i <= |entries|
        invariant accounts == Overlay(Legacy(View()), entries[..i])
      {
        OverlayStep(Legacy(View()), entries, i);
        var own := Strip(entries[i].username);
        if Usable(own) {
          accounts := accounts[own := Account(entries[i].hash, entries[i].role == "admin")];
        }
        i := i + 1;
      }
      assert entries[..i] == entries;
      forall n ensures Get(accounts, n) == AccountOf(View(), n) {
        AccountsAgree(View(), n);
      }
    }

    method CleanBlock()
      modifies `epochs
      ensures View() == Block(old(View()))
    {
      epochs := E.CleanEpochs(epochs);
    }

    method SetPassword(password: string, name: string, digest: string, onlyIfUnclaimed: bool) returns (outcome: Outcome)
      modifies this
      ensures (View(), outcome) == PasswordSet(old(View()), password, name, digest, onlyIfUnclaimed)
    {
      if |password| < MIN_PASSWORD_LENGTH {
        return Refused("password_too_short");
      }
      var resolved := Strip(if name != "" then name else "admin");
      if resolved == "" {
        resolved := "admin";
      }
      if !ValidUsername(resolved) {
        return Refused("bad_username");
      }
      if onlyIfUnclaimed && Claimed(View()) {
        return Unwritten;
      }
      CleanBlock();
      username := resolved;
      passwordHash := digest;
      this.password := "";
      outcome := Done;
    }

    /** `complete_setup`: the token is compared with the expected one whenever one is due or given. */
    method CompleteSetup(token: Option<string>, expected: string, requireToken: bool,
                         password: string, name: string, digest: string) returns (outcome: Outcome)
      modifies this
      ensures var c := old(View());
        if || (requireToken && token.None?) || (token.Some? && token.value != expected)
           || c.passwordHash != "" || (c.password != "" && c.password != "change-me")
        then View() == c && outcome == Unwritten
        else (View(), outcome) == PasswordSet(c, password, name, digest, true)
    {
      if requireToken && token.None? {
        return Unwritten;
      }
      if Claimed(View()) {
        return Unwritten;
      }
      if requireToken || token.Some? {
        if token.GetOr("") != expected {
          return Unwritten;
        }
      }
      outcome := SetPassword(password, name, digest, true);
    }

    method CreateAccount(name: string, password: string, role: string, digest: string) returns (outcome: Outcome)
      modifies this
      ensures (View(), outcome) == Created(old(View()), name, password, role, digest)
    {
      var stripped := Strip(name);
      if !ValidUsername(stripped) {
        return Refused("bad_username");
      }
      if role !in ROLES {
        return Refused("bad_role");
      }
      if |password| < MIN_PASSWORD_LENGTH {
        return Refused("password_too_short");
      }
      var taken := TakenNames(entries);
      var legacy := Lower(Strip(username));
      if Lower(stripped) in taken || (legacy != "" && Lower(stripped) == legacy) {
        return Refused("exists");
      }
      if |entries| >= MAX_ACCOUNTS {
        return Refused("too_many");
      }
      CleanBlock();
      entries := entries + [Entry(stripped, digest, role)];
      outcome := Done;
    }

    method SetAccountPassword(name: string, password: string, digest: string) returns (outcome: Outcome)
      modifies this
      ensures (View(), outcome) == AccountPasswordSet(old(View()), name, password, digest)
    {
      var stripped := Strip(name);
      var accounts := ListAccounts();
      assert Get(accounts, stripped) == AccountOf(View(), stripped);
      if stripped !in accounts {
        return Refused("not_found");
      }
      if |password| < MIN_PASSWORD_LENGTH {
        return Refused("password_too_short");
      }
      if !(exists i :: 0 <= i < |entries| && Strip(entries[i].username) == stripped) {
        outcome := SetPassword(password, stripped, digest, false);
        return;
      }
      CleanBlock();
      entries := RehashEntries(entries, stripped, digest);
      outcome := Done;
    }

    method DeleteAccount(name: string) returns (outcome: Outcome)
      modifies this
      ensures (View(), outcome) == Deleted(old(View()), name)
    {
      var stripped := Strip(name);
      var accounts := ListAccounts();
      assert Get(accounts, stripped) == AccountOf(View(), stripped);
      if stripped !in accounts {
        return Refused("not_found");
      }
      if accounts[stripped].admin {
        return Refused("not_member");
      }
      CleanBlock();
      entries := KeepOthers(entries, stripped);
      var counters := E.CleanEpochs(epochs);
      epochs := E.Remove(counters, stripped);
      outcome := Done;
    }

    method BumpSessionEpoch(name: string)
      modifies `epochs
      ensures View() == LoggedOut(old(View()), name)
    {
      CleanBlock();
      var counters := E.CleanEpochs(epochs);
      var next := E.At(counters, name).GetOr(0) + 1;
      epochs := E.Put(counters, name, next);
    }
  }

  // ---- what each rewrite leaves alone ---------------------------------------------------------------

  lemma ListedAppend(entries: seq<Entry>, e: Entry, name: string)
    ensures Listed(entries + [e], name) ==
            if Strip(e.username) == name && Usable(name) then Some(Account(e.hash, e.role == "admin")) else Listed(entries, name)
  {
    assert (entries + [e])[..|entries|] == entries;
  }

  lemma {:induction false} ListedRehashed(entries: seq<Entry>, target: string, digest: string, name: string)
    ensures Listed(Rehashed(entries, target, digest), name) ==
            match Listed(entries, name)
            case None => None
            case Some(acct) => Some(if name == target then acct.(hash := digest) else acct)
  {
    if entries != [] {
      var n := |entries| - 1;
      ListedRehashed(entries[..n], target, digest, name);
      var e := entries[n];
      ListedAppend(Rehashed(entries[..n], target, digest), if Strip(e.username) == target then e.(hash := digest) else e, name);
    }
  }

  lemma {:induction false} ListedWithout(entries: seq<Entry>, target: string, name: string)
    ensures Listed(Without(entries, target), name) == if name == target then None else Listed(entries, name)
  {
    if entries != [] {
      var n := |entries| - 1;
      ListedWithout(entries[..n], target, name);
      if Strip(entries[n].username) != target {
        ListedAppend(Without(entries[..n], target), entries[n], name);
      } else {
        assert Without(entries[..n], target) + [] == Without(entries[..n], target);
      }
    }
  }

  lemma {:induction false} ListedIsInList(entries: seq<Entry>, name: string)
    ensures Listed(entries, name).Some? ==> InList(entries, name)
    ensures InList(entries, name) && Usable(name) ==> Listed(entries, name).Some?
  {
    if entries != [] {
      var n := |entries| - 1;
      ListedIsInList(entries[..n], name);
      assert entries[..n] + [entries[n]] == entries;
      if InList(entries[..n], name) {
        var i :| 0 <= i < n && Strip(entries[..n][i].username) == name;
        assert Strip(entries[i].username) == name;
      }
      if Strip(entries[n].username) == name {
        assert InList(entries, name);
      }
    }
  }

  /** A rewrite leaves an account's counter alone, and its credential too unless it removes the account or sets `digest`. */
  predicate Keeps(c: AuthConfig, c': AuthConfig, name: string, digest: string) {
    && (|| AccountOf(c', name) == AccountOf(c, name)
        || AccountOf(c', name).None?
        || AccountOf(c', name).value.hash == digest)
    && E.Reading(c'.epochs, name) == E.Reading(c.epochs, name)
  }

  lemma PasswordSetKeeps(c: AuthConfig, password: string, username: string, digest: string, only: bool, name: string)
    requires name != "" && digest != ""
    ensures Keeps(c, PasswordSet(c, password, username, digest, only).0, name, digest)
  {
    E.CleanKeepsReading(c.epochs, name);
  }

  /** A new entry has a name the pair does not have, and stands at the end of the list. */
  lemma CreatedShape(c: AuthConfig, username: string, password: string, role: string, digest: string)
    ensures var (c', outcome) := Created(c, username, password, role, digest);
      if outcome.Done?
      then c' == Appended(c, Entry(Strip(username), digest, role))
           && (Strip(c.username) != "" ==> Strip(username) != Strip(c.username))
      else c' == c
  {
  }

  function Appended(c: AuthConfig, e: Entry): AuthConfig {
    Block(c).(entries := c.entries + [e])
  }

  lemma AppendedKeeps(c: AuthConfig, e: Entry, name: string)
    requires name != ""
    ensures Keeps(c, Appended(c, e), name, e.hash)
  {
    var c' := Appended(c, e);
    assert E.Reading(c'.epochs, name) == E.Reading(c.epochs, name) by {
      E.CleanKeepsReading(c.epochs, name);
    }
    assert Legacy(c') == Legacy(c);
    ListedAppend(c.entries, e, name);
  }

  lemma CreatedKeeps(c: AuthConfig, username: string, password: string, role: string, digest: string, name: string)
    requires name != ""
    ensures Keeps(c, Created(c, username, password, role, digest).0, name, digest)
  {
    CreatedShape(c, username, password, role, digest);
    AppendedKeeps(c, Entry(Strip(username), digest, role), name);
  }

  /** The configuration with one listed account's entries rewritten. */
  function Rewritten(c: AuthConfig, name: string, digest: string): AuthConfig {
    Block(c).(entries := Rehashed(c.entries, name, digest))
  }

  lemma RewrittenKeeps(c: AuthConfig, target: string, digest: string, name: string)
    requires name != "" && Listed(c.entries, target).Some?
    ensures Keeps(c, Rewritten(c, target, digest), name, digest)
  {
    var c' := Rewritten(c, target, digest);
    assert E.Reading(c'.epochs, name) == E.Reading(c.epochs, name) by {
      E.CleanKeepsReading(c.epochs, name);
    }
    assert Legacy(c') == Legacy(c);
    ListedRehashed(c.entries, target, digest, name);
  }

  lemma AccountPasswordSetKeeps(c: AuthConfig, username: string, password: string, digest: string, name: string)
    requires name != "" && digest != ""
    ensures Keeps(c, AccountPasswordSet(c, username, password, digest).0, name, digest)
  {
    var target := Strip(username);
    if AccountOf(c, target).Some? && !PasswordIsShort(password) {
      if InList(c.entries, target) {
        AccountsAgree(c, target);
        ListedIsInList(c.entries, target);
        RewrittenKeeps(c, target, digest, name);
      } else {
        PasswordSetKeeps(c, password, target, digest, false, name);
      }
    }
  }

  /** Deleting an account uncovers the administrator pair when the pair has the same name. */
  lemma DeletedKeeps(c: AuthConfig, username: string, name: string)
    requires name != ""
    ensures var (c', outcome) := Deleted(c, username);
      if outcome.Done? && Strip(username) == name
      then AccountOf(c', name) == Get(Legacy(c), name) && E.Reading(c'.epochs, name) == 0
      else AccountOf(c', name) == AccountOf(c, name) && E.Reading(c'.epochs, name) == E.Reading(c.epochs, name)
  {
    RemovedKeeps(c, Strip(username), name);
  }

  lemma RemovedKeeps(c: AuthConfig, target: string, name: string)
    requires name != ""
    ensures AccountOf(Removed(c, target), name) == if name == target then Get(Legacy(c), name) else AccountOf(c, name)
    ensures E.Reading(Removed(c, target).epochs, name) == if name == target then 0 else E.Reading(c.epochs, name)
  {
    var c' := Removed(c, target);
    assert E.Reading(c'.epochs, name) == (if name == target then 0 else E.Reading(c.epochs, name)) by {
      E.DroppedBlockMeaning(c.epochs, target, name);
    }
    assert Legacy(c') == Legacy(c);
    ListedWithout(c.entries, target, name);
  }

  lemma LoggedOutKeeps(c: AuthConfig, username: string, name: string)
    requires name != "" && E.Normal(username)
    ensures var c' := LoggedOut(c, username);
      && AccountOf(c', name) == AccountOf(c, name)
      && E.Reading(c'.epochs, name) == E.Reading(c.epochs, name) + if name == username then 1 else 0
  {
    E.BumpedBlockMeaning(c.epochs, username, name);
  }

  // ---- what each rewrite achieves ---------------------------------------------------------------------

  lemma ValidIsUsable(name: string)
    requires ValidUsername(name)
    ensures Usable(name) && Strip(name) == name && E.Normal(name)
  {
    assert forall i :: 0 <= i < |name| ==> name[i] != ':' && !IsSpace(name[i]);
  }

  lemma {:induction false} ListedIsTaken(entries: seq<Entry>, name: string)
    ensures Listed(entries, name).Some? ==> Lower(name) in LoweredNames(entries)
  {
    ListedIsInList(entries, name);
    if Listed(entries, name).Some? {
      var i :| 0 <= i < |entries| && Strip(entries[i].username) == name;
      assert Lower(name) == Lower(Strip(entries[i].username));
    }
  }

  /**
   A created account can sign in with its own hash and role, and no other account changes.
   The name was free, unless it is the one an unnamed pair goes by.
   */
  lemma CreateOpensAccount(c: AuthConfig, username: string, password: string, role: string, digest: string, other: string)
    ensures var (c', outcome) := Created(c, username, password, role, digest);
      var name := Strip(username);
      outcome.Done? ==>
        && AccountOf(c', name) == Some(Account(digest, role == "admin"))
        && (other != name ==> AccountOf(c', other) == AccountOf(c, other))
        && (Strip(c.username) != "" ==> AccountOf(c, name).None?)
  {
    var name := Strip(username);
    CreatedShape(c, username, password, role, digest);
    if Created(c, username, password, role, digest).1.Done? {
      var e := Entry(name, digest, role);
      ValidIsUsable(name);
      ListedAppend(c.entries, e, name);
      ListedAppend(c.entries, e, other);
      assert Legacy(Appended(c, e)) == Legacy(c);
      ListedIsTaken(c.entries, name);
      assert Listed(c.entries, name).None?;
    }
  }

  /** The pair under its own name gets the new hash; a valid name stays as it is. */
  lemma PairRotates(c: AuthConfig, password: string, name: string, digest: string)
    requires digest != "" && Get(Legacy(c), name).Some? && PasswordSet(c, password, name, digest, false).1.Done?
    requires Strip(name) == name
    ensures var c' := PasswordSet(c, password, name, digest, false).0;
      Legacy(c') == map[name := Account(digest, true)] && c'.entries == c.entries
  {
    assert LegacyName(c) == name && name != "";
    ValidIsUsable(ResolvedName(name));
  }

  /** A password change replaces the account's own hash, keeps its role, and changes no other account. */
  lemma RotationTakes(c: AuthConfig, username: string, password: string, digest: string, other: string)
    requires digest != ""
    ensures var (c', outcome) := AccountPasswordSet(c, username, password, digest);
      var name := Strip(username);
      outcome.Done? ==>
        && AccountOf(c, name).Some? && AccountOf(c', name) == Some(AccountOf(c, name).value.(hash := digest))
        && (other != name ==> AccountOf(c', other) == AccountOf(c, other))
  {
    var name := Strip(username);
    if AccountPasswordSet(c, username, password, digest).1.Done? {
      AccountsAgree(c, name);
      ListedIsInList(c.entries, name);
      if InList(c.entries, name) {
        assert Legacy(Rewritten(c, name, digest)) == Legacy(c);
        ListedRehashed(c.entries, name, digest, name);
        ListedRehashed(c.entries, name, digest, other);
      } else {
        PairRotates(c, password, name, digest);
      }
    }
  }

  predicate NamesDiffer(entries: seq<Entry>) {
    forall i, j :: 0 <= i < j < |entries| ==> Lower(Strip(entries[i].username)) != Lower(Strip(entries[j].username))
  }

  /** No two entries share a name in any letter case, and the list is within its cap. */
  predicate SoundList(entries: seq<Entry>) {
    |entries| <= 32 && NamesDiffer(entries)
  }

  lemma {:induction false} RehashedNames(entries: seq<Entry>, name: string, digest: string)
    ensures var out := Rehashed(entries, name, digest);
      |out| == |entries| && forall i :: 0 <= i < |out| ==> out[i].username == entries[i].username
  {
    if entries != [] {
      RehashedNames(entries[..|entries| - 1], name, digest);
    }
  }

  lemma {:induction false} WithoutMembers(entries: seq<Entry>, name: string)
    ensures forall e :: e in Without(entries, name) ==> e in entries
  {
    if entries != [] {
      WithoutMembers(entries[..|entries| - 1], name);
      assert forall e :: e in entries[..|entries| - 1] ==> e in entries;
    }
  }

  lemma AppendDiffers(before: seq<Entry>, entries: seq<Entry>, e: Entry)
    requires NamesDiffer(before) && NamesDiffer(entries + [e]) && forall b :: b in before ==> b in entries
    ensures NamesDiffer(before + [e])
  {
    forall i | 0 <= i < |before|
      ensures Lower(Strip(before[i].username)) != Lower(Strip(e.username))
    {
      assert before[i] in entries;
      var k :| 0 <= k < |entries| && entries[k] == before[i];
      assert (entries + [e])[k] == before[i] && (entries + [e])[|entries|] == e;
    }
  }

  lemma {:induction false} WithoutDiffers(entries: seq<Entry>, name: string)
    requires NamesDiffer(entries)
    ensures NamesDiffer(Without(entries, name))
  {
    if entries != [] {
      var n := |entries| - 1;
      WithoutDiffers(entries[..n], name);
      WithoutMembers(entries[..n], name);
      assert entries == entries[..n] + [entries[n]];
      AppendDiffers(Without(entries[..n], name), entries[..n], entries[n]);
    }
  }

  lemma WithoutIsSound(entries: seq<Entry>, name: string)
    requires SoundList(entries)
    ensures SoundList(Without(entries, name))
    ensures forall e :: e in Without(entries, name) ==> e in entries
  {
    WithoutDiffers(entries, name);
    WithoutMembers(entries, name);
    WithoutShrinks(entries, name);
  }

  lemma {:induction false} WithoutShrinks(entries: seq<Entry>, name: string)
    ensures |Without(entries, name)| <= |entries|
  {
    if entries != [] {
      WithoutShrinks(entries[..|entries| - 1], name);
    }
  }

  lemma CreatedIsSound(c: AuthConfig, username: string, password: string, role: string, digest: string)
    requires SoundList(c.entries)
    ensures SoundList(Created(c, username, password, role, digest).0.entries)
  {
    CreatedShape(c, username, password, role, digest);
    if Created(c, username, password, role, digest).1.Done? {
      var name := Strip(username);
      ValidIsUsable(name);
      forall i | 0 <= i < |c.entries|
        ensures Lower(Strip(c.entries[i].username)) != Lower(name)
      {
        assert Lower(Strip(c.entries[i].username)) in LoweredNames(c.entries);
      }
    }
  }

  lemma RotationIsSound(c: AuthConfig, username: string, password: string, digest: string)
    requires SoundList(c.entries)
    ensures SoundList(AccountPasswordSet(c, username, password, digest).0.entries)
  {
    RehashedNames(c.entries, Strip(username), digest);
  }

  /** Once an installation is claimed, nothing unclaims it, and no setup writes again. */
  lemma ClaimsAreFinal(c: AuthConfig, password: string, name: string, digest: string, role: string, only: bool)
    requires digest != ""
    ensures Claimed(c) ==>
      && Claimed(PasswordSet(c, password, name, digest, only).0)
      && Claimed(Created(c, name, password, role, digest).0)
      && Claimed(AccountPasswordSet(c, name, password, digest).0)
      && Claimed(Deleted(c, name).0) && Claimed(LoggedOut(c, name))
      && PasswordSet(c, password, name, digest, true).0 == c
    ensures PasswordSet(c, password, name, digest, only).1.Done? ==> Claimed(PasswordSet(c, password, name, digest, only).0)
  {
  }
}
