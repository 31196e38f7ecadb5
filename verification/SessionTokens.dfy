/**
 Signed tokens (hub/auth.py): session cookies and the short-lived proof of a password
 check.  Both are `payload . signature` in base64url; neither is stored anywhere.
 */
module SessionTokens {
  import opened Options
  import opened Text
  import B = Base64Url
  import E = SessionEpochs

  const SIG_LEN: nat := 32
  const DOT: B.Byte := 0x2E
  const SESSION_TTL: int := 604800
  const PENDING_TTL: int := 300
  const MARK := "totp-pending"

  /**
   The primitives the tokens are built from: the keyed MAC, the version stamp of a
   credential, UTF-8 both ways, and int() on text.
   */
  datatype Primitives = Primitives(
    mac: seq<B.Byte> -> seq<B.Byte>,
    stamp: string -> string,
    encode: string -> seq<B.Byte>,
    decode: seq<B.Byte> -> Option<string>,
    readInt: string -> Option<int>)

  /** A 32-byte MAC, stamps that do not collide and hold no separator, and readers that invert the writers. */
  ghost predicate Sound(p: Primitives) {
    && (forall m :: |p.mac(m)| == 32)
    && (forall x, y :: p.stamp(x) == p.stamp(y) ==> x == y)
    && (forall x :: Lacks(p.stamp(x), '|'))
    && (forall t :: p.decode(p.encode(t)) == Some(t))
    && (forall n :: p.readInt(Str(n)) == Some(n))
  }

  // ---- signature framing -----------------------------------------------------------

  /** `_split_signed` */
  function SplitSigned(raw: seq<B.Byte>): Option<(seq<B.Byte>, seq<B.Byte>)> {
    if |raw| < SIG_LEN + 1 || raw[|raw| - (SIG_LEN + 1)] != DOT then None
    else Some((raw[..|raw| - (SIG_LEN + 1)], raw[|raw| - SIG_LEN..]))
  }

  /** Splitting recovers exactly what was joined, whatever bytes payload and signature hold. */
  lemma SplitSignedExact(raw: seq<B.Byte>, payload: seq<B.Byte>, sig: seq<B.Byte>)
    requires |sig| == SIG_LEN
    ensures SplitSigned(raw) == Some((payload, sig)) <==> raw == payload + [DOT] + sig
  {
    if SplitSigned(raw) == Some((payload, sig)) {
      assert raw == payload + [DOT] + sig;
    }
    if raw == payload + [DOT] + sig {
      assert raw[..|raw| - (SIG_LEN + 1)] == payload && raw[|raw| - SIG_LEN..] == sig;
    }
  }

  // ---- payload framing -------------------------------------------------------------

  /** Where the last `c` is. */
  function RFind(s: string, c: char): (i: Option<nat>)
    ensures i.Some? ==> i.value < |s| && s[i.value] == c && Lacks(s[i.value + 1..], c)
    ensures i.None? ==> Lacks(s, c)
  {
    if s == "" then None
    else if s[|s| - 1] == c then Some(|s| - 1)
    else RFind(s[..|s| - 1], c)
  }

  /** rsplit("|", 2) into three fields; None where the source unpacks too few. */
  function RSplit(s: string): Option<(string, string, string)> {
    match RFind(s, '|')
    case None => None
    case Some(j) =>
      match RFind(s[..j], '|')
      case None => None
      case Some(i) => Some((s[..i], s[i + 1..j], s[j + 1..]))
  }

  function Fields(name: string, exp: string, version: string): string {
    name + "|" + exp + "|" + version
  }

  lemma {:induction false} RFindIs(s: string, c: char, i: nat)
    requires i < |s| && s[i] == c && Lacks(s[i + 1..], c)
    ensures RFind(s, c) == Some(i)
  {
    var n := |s| - 1;
    if i < n {
      assert s[i + 1..][n - i - 1] == s[n];
      assert s[..n][i + 1..] == s[i + 1..][..n - i - 1];
      RFindIs(s[..n], c, i);
    }
  }

  lemma LastSeparator(left: string, right: string)
    requires Lacks(right, '|')
    ensures RFind(left + "|" + right, '|') == Some(|left|)
  {
    assert (left + "|" + right)[|left| + 1..] == right;
    RFindIs(left + "|" + right, '|', |left|);
  }

  lemma SplitOfFields(name: string, exp: string, version: string)
    requires Lacks(exp, '|') && Lacks(version, '|')
    ensures RSplit(Fields(name, exp, version)) == Some((name, exp, version))
  {
    var s, left := Fields(name, exp, version), name + "|" + exp;
    LastSeparator(left, version);
    LastSeparator(name, exp);
    assert s[..|left|] == left && s[|left| + 1..] == version;
    assert s[..|name|] == name && s[|name| + 1..|left|] == exp;
  }

  /** Right-splitting is unambiguous: the two last fields hold no separator, the name may. */
  lemma RSplitExact(s: string, name: string, exp: string, version: string)
    ensures RSplit(s) == Some((name, exp, version)) <==>
            s == Fields(name, exp, version) && Lacks(exp, '|') && Lacks(version, '|')
  {
    if Lacks(exp, '|') && Lacks(version, '|') {
      SplitOfFields(name, exp, version);
    }
    if RSplit(s) == Some((name, exp, version)) {
      var j := RFind(s, '|').value;
      var i := RFind(s[..j], '|').value;
      CutAt(s, j);
      CutAt(s[..j], i);
      SliceOfPrefix(s, i, j);
    }
  }

  lemma CutAt(s: string, i: nat)
    requires i < |s| && s[i] == '|'
    ensures s == s[..i] + "|" + s[i + 1..]
  {
    assert s[i..] == "|" + s[i + 1..];
  }

  lemma SliceOfPrefix(s: string, i: nat, j: nat)
    requires i < j <= |s|
    ensures s[..j][..i] == s[..i] && s[..j][i + 1..] == s[i + 1..j]
  {
  }

  /** partition("|"): before and after the first separator; no separator leaves nothing after. */
  function Partition(s: string): (string, string) {
    if s == "" then ("", "")
    else if s[0] == '|' then ("", s[1..])
    else
      var (head, rest) := Partition(s[1..]);
      ([s[0]] + head, rest)
  }

  lemma {:induction false} PartitionExact(s: string, head: string, rest: string)
    requires Lacks(head, '|') && rest != ""
    ensures Partition(s) == (head, rest) <==> s == head + "|" + rest
  {
    if s == "" {
    } else if s[0] == '|' {
      if head == "" {
        assert s == "|" + s[1..];
      }
      assert head != "" ==> (head + "|" + rest)[0] == head[0];
      assert head == "" ==> (head + "|" + rest)[1..] == rest;
    } else if head == "" {
      assert (head + "|" + rest)[0] == '|';
    } else {
      PartitionExact(s[1..], head[1..], rest);
      assert head == [head[0]] + head[1..] && s == [s[0]] + s[1..];
      assert (head + "|" + rest)[1..] == head[1..] + "|" + rest;
      var (h, r) := Partition(s[1..]);
      if Partition(s) == (head, rest) {
        assert ([s[0]] + h)[1..] == h;
      }
    }
  }

  // ---- accounts and versions --------------------------------------------------------

  /** What a verifier reads from the configuration: each account's hash, and the counters. */
  datatype Registry = Registry(hashes: map<string, string>, epochs: seq<E.Row>)

  /** The credential part of a version; "legacy" stands in for a missing one. */
  function Basis(reg: Registry, name: string): string {
    var hash := Get(reg.hashes, name).GetOr("");
    if hash != "" then hash else "legacy"
  }

  /** `account_session_version`: the counter is appended only once it is not zero. */
  function Version(p: Primitives, reg: Registry, name: string): string {
    var epoch := E.Reading(reg.epochs, name);
    p.stamp(if epoch != 0 then Basis(reg, name) + "|" + Str(epoch) else Basis(reg, name))
  }

  /** Versions agree exactly when credential and counter both do. */
  lemma VersionMeans(p: Primitives, a: Registry, b: Registry, x: string, y: string)
    requires Sound(p) && Lacks(Basis(a, x), '|') && Lacks(Basis(b, y), '|')
    ensures Version(p, a, x) == Version(p, b, y) <==>
            Basis(a, x) == Basis(b, y) && E.Reading(a.epochs, x) == E.Reading(b.epochs, y)
  {
    var h, k := Basis(a, x), Basis(b, y);
    var m, n := E.Reading(a.epochs, x), E.Reading(b.epochs, y);
    StrFacts(m, n);
    var s, t := (if m != 0 then h + "|" + Str(m) else h), (if n != 0 then k + "|" + Str(n) else k);
    if s == t {
      FirstSeparator(h, m);
      FirstSeparator(k, n);
      assert |h| == |k|;
      assert s[..|h|] == h && t[..|k|] == k;
      if m != 0 {
        assert s[|h| + 1..] == Str(m);
      }
      if n != 0 {
        assert t[|k| + 1..] == Str(n);
      }
    }
  }

  /** A basis ends at the first separator, or at the end when no counter follows. */
  lemma FirstSeparator(h: string, n: int)
    requires Lacks(h, '|')
    ensures var s := if n != 0 then h + "|" + Str(n) else h;
      (n != 0 ==> s[|h|] == '|') && (n == 0 ==> Lacks(s, '|')) && forall i :: 0 <= i < |h| ==> s[i] != '|'
  {
  }

  // ---- sessions -----------------------------------------------------------------------

  /** int(time.time()) */
  function Seconds(now: real): int {
    if now >= 0.0 then now.Floor else -((-now).Floor)
  }

  function Sign(p: Primitives, text: string): string {
    var payload := p.encode(text);
    B.Encode(payload + [DOT] + p.mac(payload))
  }

  /** The text of a token whose signature holds. */
  function Opened(p: Primitives, token: string): Option<string> {
    match B.Decode(token)
    case None => None
    case Some(raw) =>
      match SplitSigned(raw)
      case None => None
      case Some((payload, sig)) => if sig == p.mac(payload) then p.decode(payload) else None
  }

  lemma SignedOpens(p: Primitives, text: string)
    requires Sound(p)
    ensures Opened(p, Sign(p, text)) == Some(text)
  {
    var payload := p.encode(text);
    var raw := payload + [DOT] + p.mac(payload);
    B.RoundTrip(raw);
    SplitSignedExact(raw, payload, p.mac(payload));
  }

  /** The checks both verifiers make once they know the account, the expiry and the version. */
  predicate Good(p: Primitives, reg: Registry, now: real, fields: (string, string, string)) {
    && fields.0 in reg.hashes
    && p.readInt(fields.1).Some?
    && p.readInt(fields.1).value as real > now
    && fields.2 == Version(p, reg, fields.0)
  }

  function CreateSession(p: Primitives, reg: Registry, now: real, name: string): string {
    Sign(p, Fields(name, Str(Seconds(now) + SESSION_TTL), Version(p, reg, name)))
  }

  predicate VerifySession(p: Primitives, reg: Registry, now: real, token: string) {
    SessionUsername(p, reg, now, token).Some?
  }

  /** The account a valid session names; None where the source answers "". */
  function SessionUsername(p: Primitives, reg: Registry, now: real, token: string): Option<string> {
    match Opened(p, token)
    case None => None
    case Some(text) =>
      match RSplit(text)
      case None => None
      case Some(fields) => if Good(p, reg, now, fields) then Some(fields.0) else None
  }

  function CreatePendingTotpToken(p: Primitives, reg: Registry, now: real, name: string): string {
    Sign(p, MARK + "|" + Fields(name, Str(Seconds(now) + PENDING_TTL), Version(p, reg, name)))
  }

  /** The account a valid proof of password names; None where the source answers "". */
  function PendingTotpUsername(p: Primitives, reg: Registry, now: real, token: string): Option<string> {
    match Opened(p, token)
    case None => None
    case Some(text) =>
      var (mark, rest) := Partition(text);
      if mark != MARK || rest == "" then None
      else
        match RSplit(rest)
        case None => None
        case Some(fields) => if Good(p, reg, now, fields) then Some(fields.0) else None
  }

  // ---- what passes, for every string ----------------------------------------------------

  /** The bytes of a token are a payload, a dot, and this server's MAC of that payload. */
  ghost predicate Carries(p: Primitives, token: string, payload: seq<B.Byte>) {
    B.Decode(token) == Some(payload + [0x2E] + p.mac(payload))
  }

  /** The text before two separator-free fields: an expiry still to come, and the account's current version. */
  ghost predicate Current(p: Primitives, reg: Registry, now: real, name: string, exp: string, version: string) {
    && Lacks(exp, '|') && Lacks(version, '|') && name in reg.hashes
    && p.readInt(exp).Some? && p.readInt(exp).value as real > now
    && version == Version(p, reg, name)
  }

  lemma OpenedMeans(p: Primitives, token: string, text: string)
    requires Sound(p)
    ensures Opened(p, token) == Some(text) <==> exists payload :: Carries(p, token, payload) && p.decode(payload) == Some(text)
  {
    if Opened(p, token) == Some(text) {
      var (payload, sig) := SplitSigned(B.Decode(token).value).value;
      SplitSignedExact(B.Decode(token).value, payload, sig);
      assert Carries(p, token, payload);
    }
    if payload :| Carries(p, token, payload) && p.decode(payload) == Some(text) {
      SplitSignedExact(B.Decode(token).value, payload, p.mac(payload));
    }
  }

  /** A string is a session of an account exactly when it holds this server's signature over a current claim. */
  lemma SessionMeans(p: Primitives, reg: Registry, now: real, token: string, name: string)
    requires Sound(p)
    ensures SessionUsername(p, reg, now, token) == Some(name) <==>
            exists payload, exp, version :: (Carries(p, token, payload)
              && p.decode(payload) == Some(name + "|" + exp + "|" + version)
              && Current(p, reg, now, name, exp, version))
  {
    if SessionUsername(p, reg, now, token) == Some(name) {
      var payload, exp, version := SessionHolds(p, reg, now, token, name);
    }
    forall payload, exp, version | (Carries(p, token, payload)
        && p.decode(payload) == Some(name + "|" + exp + "|" + version) && Current(p, reg, now, name, exp, version))
      ensures SessionUsername(p, reg, now, token) == Some(name)
    {
      SessionPasses(p, reg, now, token, name, payload, exp, version);
    }
  }

  lemma SessionHolds(p: Primitives, reg: Registry, now: real, token: string, name: string)
    returns (payload: seq<B.Byte>, exp: string, version: string)
    requires Sound(p) && SessionUsername(p, reg, now, token) == Some(name)
    ensures Carries(p, token, payload) && p.decode(payload) == Some(name + "|" + exp + "|" + version)
    ensures Current(p, reg, now, name, exp, version)
  {
    var text := Opened(p, token).value;
    OpenedMeans(p, token, text);
    payload :| Carries(p, token, payload) && p.decode(payload) == Some(text);
    exp, version := RSplit(text).value.1, RSplit(text).value.2;
    RSplitExact(text, name, exp, version);
  }

  lemma SessionPasses(p: Primitives, reg: Registry, now: real, token: string, name: string,
                      payload: seq<B.Byte>, exp: string, version: string)
    requires Sound(p) && Carries(p, token, payload) && Current(p, reg, now, name, exp, version)
    requires p.decode(payload) == Some(name + "|" + exp + "|" + version)
    ensures SessionUsername(p, reg, now, token) == Some(name)
  {
    OpenedMeans(p, token, Fields(name, exp, version));
    RSplitExact(Fields(name, exp, version), name, exp, version);
  }

  /** The same for a proof of password, whose claim stands behind the marker. */
  lemma PendingMeans(p: Primitives, reg: Registry, now: real, token: string, name: string)
    requires Sound(p)
    ensures PendingTotpUsername(p, reg, now, token) == Some(name) <==>
            exists payload, exp, version :: (Carries(p, token, payload)
              && p.decode(payload) == Some("totp-pending|" + (name + "|" + exp + "|" + version))
              && Current(p, reg, now, name, exp, version))
  {
    if PendingTotpUsername(p, reg, now, token) == Some(name) {
      var payload, exp, version := ProofHolds(p, reg, now, token, name);
    }
    forall payload, exp, version | (Carries(p, token, payload)
        && p.decode(payload) == Some("totp-pending|" + (name + "|" + exp + "|" + version)) && Current(p, reg, now, name, exp, version))
      ensures PendingTotpUsername(p, reg, now, token) == Some(name)
    {
      ProofPasses(p, reg, now, token, name, payload, exp, version);
    }
  }

  lemma ProofHolds(p: Primitives, reg: Registry, now: real, token: string, name: string)
    returns (payload: seq<B.Byte>, exp: string, version: string)
    requires Sound(p) && PendingTotpUsername(p, reg, now, token) == Some(name)
    ensures Carries(p, token, payload) && p.decode(payload) == Some("totp-pending|" + (name + "|" + exp + "|" + version))
    ensures Current(p, reg, now, name, exp, version)
  {
    var text := Opened(p, token).value;
    var rest := Partition(text).1;
    OpenedMeans(p, token, text);
    payload :| Carries(p, token, payload) && p.decode(payload) == Some(text);
    exp, version := RSplit(rest).value.1, RSplit(rest).value.2;
    RSplitExact(rest, name, exp, version);
    MarkIs(text, rest);
  }

  lemma ProofPasses(p: Primitives, reg: Registry, now: real, token: string, name: string,
                    payload: seq<B.Byte>, exp: string, version: string)
    requires Sound(p) && Carries(p, token, payload) && Current(p, reg, now, name, exp, version)
    requires p.decode(payload) == Some("totp-pending|" + (name + "|" + exp + "|" + version))
    ensures PendingTotpUsername(p, reg, now, token) == Some(name)
  {
    var rest := Fields(name, exp, version);
    OpenedMeans(p, token, "totp-pending|" + rest);
    MarkIs("totp-pending|" + rest, rest);
    RSplitExact(rest, name, exp, version);
  }

  lemma MarkIs(text: string, rest: string)
    requires rest != ""
    ensures Partition(text) == (MARK, rest) <==> text == "totp-pending|" + rest
  {
    PartitionExact(text, MARK, rest);
    assert MARK + "|" == "totp-pending|";
  }

  lemma MintedFields(p: Primitives, reg: Registry, name: string, exp: int)
    requires Sound(p)
    ensures var fields := (name, Str(exp), Version(p, reg, name));
      RSplit(Fields(fields.0, fields.1, fields.2)) == Some(fields) && p.readInt(fields.1) == Some(exp)
  {
    StrFacts(exp, exp);
    RSplitExact(Fields(name, Str(exp), Version(p, reg, name)), name, Str(exp), Version(p, reg, name));
  }

  /**
   A session verifies, at any later time and configuration, exactly when it has not
   expired, its account exists, and credential and counter are what they were.  It then
   names the account it was made for, whatever separators the name holds.
   */
  lemma SessionVerifiesIff(p: Primitives, minted: Registry, t0: real, name: string, current: Registry, now: real)
    requires Sound(p) && Lacks(Basis(minted, name), '|') && Lacks(Basis(current, name), '|')
    ensures var token := CreateSession(p, minted, t0, name);
      && (VerifySession(p, current, now, token) <==>
            && (Seconds(t0) + SESSION_TTL) as real > now
            && name in current.hashes
            && Basis(minted, name) == Basis(current, name)
            && E.Reading(minted.epochs, name) == E.Reading(current.epochs, name))
      && (VerifySession(p, current, now, token) ==> SessionUsername(p, current, now, token) == Some(name))
  {
    var exp := Seconds(t0) + SESSION_TTL;
    SignedOpens(p, Fields(name, Str(exp), Version(p, minted, name)));
    MintedFields(p, minted, name, exp);
    VersionMeans(p, minted, current, name, name);
  }

  /** The same for the proof of a password check, with its own lifetime. */
  lemma PendingVerifiesIff(p: Primitives, minted: Registry, t0: real, name: string, current: Registry, now: real)
    requires Sound(p) && Lacks(Basis(minted, name), '|') && Lacks(Basis(current, name), '|')
    ensures PendingTotpUsername(p, current, now, CreatePendingTotpToken(p, minted, t0, name)) ==
            if && (Seconds(t0) + PENDING_TTL) as real > now
               && name in current.hashes
               && Basis(minted, name) == Basis(current, name)
               && E.Reading(minted.epochs, name) == E.Reading(current.epochs, name)
            then Some(name) else None
  {
    var exp := Seconds(t0) + PENDING_TTL;
    var rest := Fields(name, Str(exp), Version(p, minted, name));
    MarkedOpens(p, rest);
    MintedFields(p, minted, name, exp);
    VersionMeans(p, minted, current, name, name);
  }

  /** What is signed behind the marker is found behind it again. */
  lemma MarkedOpens(p: Primitives, rest: string)
    requires Sound(p) && rest != ""
    ensures var signed := MARK + "|" + rest;
      Opened(p, Sign(p, signed)) == Some(signed) && Partition(signed) == (MARK, rest)
  {
    SignedOpens(p, MARK + "|" + rest);
    PartitionExact(MARK + "|" + rest, MARK, rest);
  }

  /** A session lasts a week and a proof five minutes, to within the second the clock is cut to. */
  lemma Lifetimes(p: Primitives, reg: Registry, t0: real, name: string, now: real)
    requires Sound(p) && name in reg.hashes && Lacks(Basis(reg, name), '|') && t0 >= 0.0
    ensures var session, proof := CreateSession(p, reg, t0, name), CreatePendingTotpToken(p, reg, t0, name);
      && (now <= t0 + 604799.0 ==> VerifySession(p, reg, now, session))
      && (now >= t0 + 604800.0 ==> !VerifySession(p, reg, now, session))
      && (now <= t0 + 299.0 ==> PendingTotpUsername(p, reg, now, proof) == Some(name))
      && (now >= t0 + 300.0 ==> PendingTotpUsername(p, reg, now, proof) == None)
  {
    SessionVerifiesIff(p, reg, t0, name, reg, now);
    PendingVerifiesIff(p, reg, t0, name, reg, now);
  }

  // ---- the two kinds of token -------------------------------------------------------------

  /** What the reader of password proofs accepts as a shape. */
  lemma MarkedExact(text: string, mark: string, v: string, exp: string, version: string)
    requires Lacks(mark, '|')
    ensures Partition(text).0 == mark && Partition(text).1 != "" && RSplit(Partition(text).1) == Some((v, exp, version))
            <==> RSplit(text) == Some((mark + "|" + v, exp, version))
  {
    var rest := Partition(text).1;
    var all := Fields(v, exp, version);
    RSplitExact(text, mark + "|" + v, exp, version);
    RSplitExact(rest, v, exp, version);
    assert mark + "|" + all == Fields(mark + "|" + v, exp, version);
    PartitionExact(text, mark, all);
    if rest != "" {
      PartitionExact(text, mark, rest);
    }
  }

  /**
   A byte string passes both verifiers exactly when it is a session of an account whose
   name is the marker, a separator and another account's name, and the two accounts'
   versions coincide.
   */
  lemma BothKindsIff(p: Primitives, reg: Registry, now: real, token: string, v: string)
    ensures VerifySession(p, reg, now, token) && PendingTotpUsername(p, reg, now, token) == Some(v) <==>
            && SessionUsername(p, reg, now, token) == Some(MARK + "|" + v)
            && v in reg.hashes && Version(p, reg, v) == Version(p, reg, MARK + "|" + v)
  {
    if Opened(p, token).Some? {
      var text := Opened(p, token).value;
      assert Lacks(MARK, '|');
      var rest := Partition(text).1;
      if RSplit(rest).Some? {
        var (name, exp, version) := RSplit(rest).value;
        MarkedExact(text, MARK, name, exp, version);
      }
      if RSplit(text).Some? {
        var (_, exp, version) := RSplit(text).value;
        MarkedExact(text, MARK, v, exp, version);
      }
    }
  }

  /** Whenever two such accounts share hash and counter, a session of one is a proof of the other's password. */
  lemma AlikeAccountsPassBoth(p: Primitives, reg: Registry, v: string, t0: real)
    requires Sound(p) && v in reg.hashes && MARK + "|" + v in reg.hashes && reg.hashes[v] == reg.hashes[MARK + "|" + v]
    requires Lacks(Basis(reg, v), '|') && E.Reading(reg.epochs, v) == E.Reading(reg.epochs, MARK + "|" + v)
    ensures var token := CreateSession(p, reg, t0, MARK + "|" + v);
      VerifySession(p, reg, t0, token) && PendingTotpUsername(p, reg, t0, token) == Some(v)
  {
    var other := MARK + "|" + v;
    assert (Seconds(t0) + SESSION_TTL) as real > t0;
    SessionVerifiesIff(p, reg, t0, other, reg, t0);
    BothKindsIff(p, reg, t0, CreateSession(p, reg, t0, other), v);
  }

  /** A hand-written file that has them: `bob`, and an account named after the marker and `bob`, with one hash. */
  function Twins(hash: string): Registry {
    Registry(map["bob" := hash, MARK + "|" + "bob" := hash], [])
  }

  lemma BothKindsHappen(p: Primitives, hash: string, t0: real)
    requires Sound(p) && hash != "" && Lacks(hash, '|')
    ensures var token := CreateSession(p, Twins(hash), t0, MARK + "|" + "bob");
      VerifySession(p, Twins(hash), t0, token) && PendingTotpUsername(p, Twins(hash), t0, token) == Some("bob")
  {
    AlikeAccountsPassBoth(p, Twins(hash), "bob", t0);
  }

  /** With separators kept out of account names, no byte string passes both verifiers. */
  lemma KindsAreDisjoint(p: Primitives, reg: Registry, now: real, token: string)
    requires forall name :: name in reg.hashes ==> Lacks(name, '|')
    ensures !(VerifySession(p, reg, now, token) && PendingTotpUsername(p, reg, now, token).Some?)
  {
    forall v: string
      ensures MARK + "|" + v !in reg.hashes
    {
      assert (MARK + "|" + v)[|MARK|] == '|';
    }
    if PendingTotpUsername(p, reg, now, token).Some? {
      BothKindsIff(p, reg, now, token, PendingTotpUsername(p, reg, now, token).value);
    }
  }
}
