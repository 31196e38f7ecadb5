/**
 What the account operations accept (hub/auth.py), in the characters, numbers and reason
 codes a caller sees.
 */
module AccountRules {
  import opened Options
  import opened Text
  import opened Accounts
  import E = SessionEpochs

  // ---- names ---------------------------------------------------------------------------

  /** An ASCII letter or digit, by code point. */
  predicate LetterOrDigit(n: int) {
    48 <= n <= 57 || 65 <= n <= 90 || 97 <= n <= 122
  }

  /** One letter or digit, then up to 63 more, dots, underscores, at, plus and minus signs. */
  ghost predicate GoodName(name: string) {
    && 1 <= |name| <= 64 && LetterOrDigit(name[0] as int)
    && forall c :: c in name ==> LetterOrDigit(c as int) || c in "._@+-"
  }

  lemma NamesMatch(name: string)
    ensures ValidUsername(name) <==> GoodName(name)
  {
    assert forall c: char :: c in {'.', '_', '@', '+', '-'} <==> c in "._@+-";
    if GoodName(name) {
      forall i | 0 <= i < |name|
        ensures IsAlnum(name[i]) || name[i] in {'.', '_', '@', '+', '-'}
      {
        assert name[i] in name;
      }
    }
  }

  /** Two characters that differ at most in the case of an ASCII letter. */
  predicate SameLetter(a: char, b: char) {
    || a == b
    || (65 <= a as int <= 90 && b as int == a as int + 32)
    || (65 <= b as int <= 90 && a as int == b as int + 32)
  }

  predicate SameLetters(a: string, b: string) {
    |a| == |b| && forall i :: 0 <= i < |a| ==> SameLetter(a[i], b[i])
  }

  lemma {:induction false} LowerMeans(a: string, b: string)
    ensures Lower(a) == Lower(b) <==> SameLetters(a, b)
  {
    if a != "" && b != "" {
      LowerMeans(a[1..], b[1..]);
      LowerHead(a);
      LowerHead(b);
      if SameLetters(a, b) {
        assert SameLetter(a[0], b[0]);
        assert forall i :: 0 <= i < |a| - 1 ==> a[1..][i] == a[i + 1] && b[1..][i] == b[i + 1];
      }
      if SameLetter(a[0], b[0]) && SameLetters(a[1..], b[1..]) {
        assert forall i :: 0 < i < |a| ==> a[i] == a[1..][i - 1] && b[i] == b[1..][i - 1];
      }
    }
  }

  lemma LowerHead(s: string)
    requires s != ""
    ensures Lower(s) == [Lower(s)[0]] + Lower(s[1..]) && Lower(s)[1..] == Lower(s[1..])
    ensures forall c: char :: SameLetter(s[0], c) <==>
      Lower(s)[0] == if 'A' <= c <= 'Z' then ((c as int) + 32) as char else c
  {
  }

  /** An account of the list, or the pair, has that name in some letter case. */
  ghost predicate InUse(c: AuthConfig, name: string) {
    || (exists e :: e in c.entries && SameLetters(Strip(e.username), name))
    || (Strip(c.username) != "" && SameLetters(Strip(c.username), name))
  }

  lemma TakenMeans(c: AuthConfig, name: string)
    ensures Taken(c, name) <==> InUse(c, name)
  {
    LowerMeans(Strip(c.username), name);
    forall e | e in c.entries
      ensures Lower(Strip(e.username)) == Lower(name) <==> SameLetters(Strip(e.username), name)
    {
      LowerMeans(Strip(e.username), name);
    }
    if Lower(name) in LoweredNames(c.entries) {
      var i :| 0 <= i < |c.entries| && Lower(Strip(c.entries[i].username)) == Lower(name);
      assert c.entries[i] in c.entries;
    }
    if e :| e in c.entries && SameLetters(Strip(e.username), name) {
      var i :| 0 <= i < |c.entries| && c.entries[i] == e;
      assert Lower(Strip(c.entries[i].username)) in LoweredNames(c.entries);
    }
  }

  // ---- outcomes ---------------------------------------------------------------------------

  /** An installation with a hash, or a password that is not the one it ships with. */
  predicate InstallationIsClaimed(c: AuthConfig) {
    c.passwordHash != "" || (c.password != "" && c.password != "change-me")
  }

  /** Creating an account: each refusal with its reason, in the source's order, and nothing written on one. */
  lemma CreateOutcomes(c: AuthConfig, username: string, password: string, role: string, digest: string)
    ensures var (c', o) := Created(c, username, password, role, digest);
      var name, roleIsKnown := Strip(username), role == "admin" || role == "member";
      && (o == Refused("bad_username") <==> !GoodName(name))
      && (o == Refused("bad_role") <==> GoodName(name) && !roleIsKnown)
      && (o == Refused("password_too_short") <==> GoodName(name) && roleIsKnown && |password| < 10)
      && (o == Refused("exists") <==> GoodName(name) && roleIsKnown && |password| >= 10 && InUse(c, name))
      && (o == Refused("too_many") <==> GoodName(name) && roleIsKnown && |password| >= 10 && !InUse(c, name) && |c.entries| >= 32)
      && (o == Done <==> GoodName(name) && roleIsKnown && |password| >= 10 && !InUse(c, name) && |c.entries| < 32)
      && (o != Done ==> c' == c)
  {
    NamesMatch(Strip(username));
    TakenMeans(c, Strip(username));
  }

  /** Writing the pair: the same. */
  lemma PasswordOutcomes(c: AuthConfig, password: string, username: string, digest: string, onlyIfUnclaimed: bool)
    ensures var (c', o) := PasswordSet(c, password, username, digest, onlyIfUnclaimed);
      var name := if Strip(username) == "" then "admin" else Strip(username);
      && (o == Refused("password_too_short") <==> |password| < 10)
      && (o == Refused("bad_username") <==> |password| >= 10 && !GoodName(name))
      && (o == Unwritten <==> |password| >= 10 && GoodName(name) && onlyIfUnclaimed && InstallationIsClaimed(c))
      && (o == Done <==> |password| >= 10 && GoodName(name) && !(onlyIfUnclaimed && InstallationIsClaimed(c)))
      && (o == Done ==> c'.username == name && c'.passwordHash == digest && c'.password == "" && c'.entries == c.entries)
      && (o != Done ==> c' == c)
  {
    var name := if Strip(username) == "" then "admin" else Strip(username);
    assert Trimmed("") && Strip("") == "" && Trimmed("admin") && Strip("admin") == "admin";
    assert ResolvedName(username) == name;
    NamesMatch(name);
  }

  /** Changing an account's password, and deleting it. */
  lemma ChangeOutcomes(c: AuthConfig, username: string, password: string, digest: string)
    ensures var (c', o) := AccountPasswordSet(c, username, password, digest);
      && (o == Refused("not_found") <==> AccountOf(c, Strip(username)).None?)
      && (o == Refused("password_too_short") <==> AccountOf(c, Strip(username)).Some? && |password| < 10)
      && (o != Done ==> c' == c)
    ensures var (c', o) := Deleted(c, username);
      var account := AccountOf(c, Strip(username));
      && (o == Refused("not_found") <==> account.None?)
      && (o == Refused("not_member") <==> account.Some? && account.value.admin)
      && (o == Done <==> account.Some? && !account.value.admin)
      && (o != Done ==> c' == c)
  {
  }

  /** Whatever junk the file held, every write leaves one readable counter for each name. */
  lemma WritesAreClean(c: AuthConfig, username: string, password: string, role: string, digest: string, only: bool)
    ensures var (c', o) := Created(c, username, password, role, digest); o == Done ==> E.IsClean(c'.epochs)
    ensures var (c', o) := PasswordSet(c, password, username, digest, only); o == Done ==> E.IsClean(c'.epochs)
  {
    E.CleanIsClean(c.epochs);
  }

  lemma ChangesAreClean(c: AuthConfig, username: string, password: string, digest: string)
    ensures var (c', o) := AccountPasswordSet(c, username, password, digest); o == Done ==> E.IsClean(c'.epochs)
  {
    E.CleanIsClean(c.epochs);
  }

  lemma RemovalsAreClean(c: AuthConfig, username: string)
    ensures var (c', o) := Deleted(c, username); o == Done ==> E.IsClean(c'.epochs)
  {
    var counters := E.Clean(c.epochs);
    E.CleanIsClean(counters);
    E.RemoveKeepsClean(E.Clean(counters), Strip(username));
  }

  lemma LogoutsAreClean(c: AuthConfig, username: string)
    requires E.Normal(username)
    ensures E.IsClean(LoggedOut(c, username).epochs)
  {
    E.BumpIsClean(E.Clean(c.epochs), username);
  }

  /** Who has an account: a listed name with the hash and role of its last entry, else the pair, which is an administrator. */
  lemma AccountsAre(c: AuthConfig, name: string)
    ensures AccountOf(c, name).Some? ==> name != "" && ':' !in name
    ensures name != "" && ':' !in name ==>
      forall i :: 0 <= i < |c.entries| && Strip(c.entries[i].username) == name
                  && (forall k :: i < k < |c.entries| ==> Strip(c.entries[k].username) != name) ==>
        AccountOf(c, name) == Some(Account(c.entries[i].hash, c.entries[i].role == "admin"))
    ensures name != "" && ':' !in name && (forall e :: e in c.entries ==> Strip(e.username) != name) ==>
      var hash := if c.passwordHash != "" then c.passwordHash else c.password;
      AccountOf(c, name) == if name == (if Strip(c.username) == "" then "admin" else Strip(c.username)) && hash != ""
                            then Some(Account(hash, true)) else None
  {
    AccountsAgree(c, name);
    LacksMeans(name, ':');
    if name != "" && ':' !in name {
      forall i | 0 <= i < |c.entries| && Strip(c.entries[i].username) == name
                 && (forall k :: i < k < |c.entries| ==> Strip(c.entries[k].username) != name)
        ensures AccountOf(c, name) == Some(Account(c.entries[i].hash, c.entries[i].role == "admin"))
      {
        LastEntryIsListed(c.entries, name, i);
      }
      if forall e :: e in c.entries ==> Strip(e.username) != name {
        UnlistedIsNone(c.entries, name);
      }
    }
  }

  lemma LacksMeans(s: string, c: char)
    ensures Lacks(s, c) <==> c !in s
  {
  }

  lemma {:induction false} LastEntryIsListed(entries: seq<Entry>, name: string, i: nat)
    requires Usable(name) && i < |entries| && Strip(entries[i].username) == name
    requires forall k :: i < k < |entries| ==> Strip(entries[k].username) != name
    ensures Listed(entries, name) == Some(Account(entries[i].hash, entries[i].role == "admin"))
  {
    var n := |entries| - 1;
    if i < n {
      assert entries[..n][i] == entries[i];
      LastEntryIsListed(entries[..n], name, i);
    }
  }

  lemma {:induction false} UnlistedIsNone(entries: seq<Entry>, name: string)
    requires forall e :: e in entries ==> Strip(e.username) != name
    ensures Listed(entries, name).None?
  {
    if entries != [] {
      assert forall e :: e in entries[..|entries| - 1] ==> e in entries;
      assert entries[|entries| - 1] in entries;
      UnlistedIsNone(entries[..|entries| - 1], name);
    }
  }
}
