/**
 What the audit trail can hold (hub/audit.py), in the names, lengths and depths of its own
 policy.
 */
module AuditRules {
  import opened Options
  import opened Audit

  // ---- names ----------------------------------------------------------------------------

  ghost predicate Occurs(text: string, part: string) {
    exists i: nat :: OccursAt(text, part, i)
  }

  predicate OccursAt(text: string, part: string, i: nat) {
    i + |part| <= |text| && text[i..i + |part|] == part
  }

  lemma {:induction false} ContainsMeans(text: string, part: string)
    ensures Contains(text, part) <==> Occurs(text, part)
  {
    if part <= text {
      assert OccursAt(text, part, 0);
    } else if text != "" {
      ContainsMeans(text[1..], part);
      OccursInRest(text, part);
    }
  }

  lemma OccursLater(text: string, part: string, i: nat)
    requires text != ""
    ensures OccursAt(text, part, i + 1) <==> OccursAt(text[1..], part, i)
  {
    if i + 1 + |part| <= |text| {
      assert text[i + 1..i + 1 + |part|] == text[1..][i..i + |part|];
    }
  }

  lemma OccursInRest(text: string, part: string)
    requires text != "" && !(part <= text)
    ensures Occurs(text, part) <==> Occurs(text[1..], part)
  {
    if i: nat :| OccursAt(text[1..], part, i) {
      OccursLater(text, part, i);
    }
    if i: nat :| OccursAt(text, part, i) {
      assert i > 0;
      OccursLater(text, part, i - 1);
    }
  }

  lemma {:induction false} LowerOfAscii(s: string)
    requires forall i :: 0 <= i < |s| ==> s[i] as int < 128
    ensures |Lower(s)| == |s|
    ensures forall i :: 0 <= i < |s| ==> Lower(s)[i] as int == if 65 <= s[i] as int <= 90 then s[i] as int + 32 else s[i] as int
  {
    if s != "" {
      assert forall i :: 0 <= i < |s| - 1 ==> s[1..][i] == s[i + 1];
      LowerOfAscii(s[1..]);
      var rest := Lower(s[1..]);
      assert Lower(s) == LowerChar(s[0]) + rest && |LowerChar(s[0])| == 1;
      forall i | 0 < i < |s|
        ensures Lower(s)[i] == rest[i - 1] && s[i] == s[1..][i - 1]
      {
      }
    }
  }

  /** Some word that marks a secret is in the name. */
  ghost predicate Marked(name: string) {
    exists word :: word in ["password", "token", "secret", "credential", "cookie", "session", "authorization", "passwd",
                            "api_key", "apikey", "key", "psk", "preshared", "passphrase", "private", "seed", "bearer"]
                   && Occurs(name, word)
  }

  ghost predicate NamesAPublicKey(name: string) {
    exists word :: word in ["pubkey", "public_key", "publickey"] && Occurs(name, word)
  }

  lemma ContainsAnyMeans(name: string, words: seq<string>)
    ensures ContainsAny(name, words) <==> exists word :: word in words && Occurs(name, word)
  {
    if k :| 0 <= k < |words| && Contains(name, words[k]) {
      ContainsMeans(name, words[k]);
      assert words[k] in words;
    }
    if word :| word in words && Occurs(name, word) {
      var k :| 0 <= k < |words| && words[k] == word;
      ContainsMeans(name, word);
    }
  }

  /** Which names the trail keeps out, whatever letter case they come in. */
  lemma SecretsAreMarked(name: string)
    ensures SecretName(TRAIL, name) <==> Marked(Lower(name)) && !NamesAPublicKey(Lower(name))
  {
    ContainsAnyMeans(Lower(name), TRAIL.hints);
    ContainsAnyMeans(Lower(name), TRAIL.exceptions);
  }

  // ---- lengths -----------------------------------------------------------------------------

  /** Up to 65536 characters are kept as they are; of a longer text the first 65536, with a note. */
  lemma TrailCaps(text: string)
    ensures |text| <= 65536 ==> Capped(TRAIL, text) == text
    ensures |text| > 65536 ==> Capped(TRAIL, text) == text[..65536] + " \U{2026}[truncated]"
  {
  }

  // ---- whole trees ---------------------------------------------------------------------------

  /** How many containers are nested in a value. */
  function Height(v: Value): nat
    decreases v
  {
    match v
    case Dict(entries) => 1 + EntriesHeight(entries)
    case List(items) => 1 + ItemsHeight(items)
    case _ => 0
  }

  function EntriesHeight(entries: seq<Entry>): nat
    decreases entries
  {
    if entries == [] then 0
    else
      var last := entries[|entries| - 1];
      var before, own := EntriesHeight(entries[..|entries| - 1]), EntryHeight(last);
      if own > before then own else before
  }

  function EntryHeight(e: Entry): nat
    decreases e
  {
    Height(e.value)
  }

  function ItemsHeight(items: seq<Value>): nat
    decreases items
  {
    if items == [] then 0
    else
      var before, own := ItemsHeight(items[..|items| - 1]), Height(items[|items| - 1]);
      if own > before then own else before
  }

  /** Every text and every name in a value is plain, at most so long, and no name is secret. */
  ghost predicate Fit(v: Value)
    decreases v
  {
    match v
    case Null => true
    case Bool(_) => true
    case Int(_) => true
    case Float(_) => true
    case Text(text) => |text| <= 65549
    case Dict(entries) =>
      forall i :: 0 <= i < |entries| ==>
        && entries[i].key.Name? && |entries[i].key.text| <= 65549
        && !(Marked(Lower(entries[i].key.text)) && !NamesAPublicKey(Lower(entries[i].key.text)))
        && Fit(entries[i].value)
    case List(items) => forall i :: 0 <= i < |items| ==> Fit(items[i])
    case _ => false
  }

  lemma CappedIsShort(text: string)
    requires Capped(TRAIL, text) == text
    ensures |text| <= 65549
  {
    assert |MARKER| == 13;
  }

  lemma {:induction false} NormalFits(v: Value, depth: nat)
    requires Normal(TRAIL, v, depth) && NoSecret(TRAIL, v)
    ensures Fit(v)
    decreases v
  {
    match v
    case Text(text) =>
      if depth <= DEPTH_CAP {
        CappedIsShort(text);
      }
    case Dict(entries) =>
      forall i | 0 <= i < |entries|
        ensures && entries[i].key.Name? && |entries[i].key.text| <= 65549
                && !(Marked(Lower(entries[i].key.text)) && !NamesAPublicKey(Lower(entries[i].key.text)))
                && Fit(entries[i].value)
      {
        CappedIsShort(entries[i].key.text);
        TrailCaps(entries[i].key.text);
        SecretsAreMarked(entries[i].key.text);
        NormalFits(entries[i].value, depth + 1);
      }
    case List(items) =>
      forall i | 0 <= i < |items|
        ensures Fit(items[i])
      {
        NormalFits(items[i], depth + 1);
      }
    case _ =>
  }

  lemma {:induction false} NormalIsShallow(v: Value, depth: nat)
    requires Normal(TRAIL, v, depth) && depth <= 33
    ensures Height(v) + depth <= 33
    decreases v
  {
    match v
    case Dict(entries) => EntriesAreShallow(entries, depth + 1);
    case List(items) => ItemsAreShallow(items, depth + 1);
    case _ =>
  }

  lemma {:induction false} EntriesAreShallow(entries: seq<Entry>, depth: nat)
    requires depth <= 33 && forall i :: 0 <= i < |entries| ==> Normal(TRAIL, entries[i].value, depth)
    ensures EntriesHeight(entries) + depth <= 33
    decreases entries
  {
    if entries != [] {
      EntriesAreShallow(entries[..|entries| - 1], depth);
      EntryIsShallow(entries[|entries| - 1], depth);
    }
  }

  lemma {:induction false} EntryIsShallow(e: Entry, depth: nat)
    requires Normal(TRAIL, e.value, depth) && depth <= 33
    ensures EntryHeight(e) + depth <= 33
    decreases e
  {
    NormalIsShallow(e.value, depth);
  }

  lemma {:induction false} ItemsAreShallow(items: seq<Value>, depth: nat)
    requires depth <= 33 && forall i :: 0 <= i < |items| ==> Normal(TRAIL, items[i], depth)
    ensures ItemsHeight(items) + depth <= 33
    decreases items
  {
    if items != [] {
      ItemsAreShallow(items[..|items| - 1], depth);
      NormalIsShallow(items[|items| - 1], depth);
    }
  }

  /**
   Whatever is handed over, the trail gets plain values nested at most 33 deep, no text or
   name over 65549 characters, and at no depth a name with a marked word that does not name
   a public key.
   */
  lemma TheTrailFits(v: Value)
    ensures Fit(Sanitised(TRAIL, v)) && Height(Sanitised(TRAIL, v)) <= 33
  {
    NothingSecretIsWritten(TRAIL, v);
    NormalFits(Sanitised(TRAIL, v), 0);
    NormalIsShallow(Sanitised(TRAIL, v), 0);
  }

  // ---- what arrives ------------------------------------------------------------------------------

  /** A text as the trail writes it. */
  function Shortened(text: string): string {
    if |text| <= 65536 then text else text[..65536] + " \U{2026}[truncated]"
  }

  /** A single value as the trail writes it: numbers that JSON has no text for are null, everything printed is text. */
  function Plain(v: Value): Value {
    match v
    case OverCap => Null
    case NotFinite => Null
    case Text(text) => Text(Shortened(text))
    case Bytes(text) => Text(Shortened(text))
    case Object(text) => Text(Shortened(text))
    case _ => v
  }

  /**
   A single value at most 32 names and indexes deep arrives in the trail as it is written
   there, at its own path, unless some name on the way has a marked word that names no public
   key, or shares its written form with another.
   */
  lemma ValuesArrive(v: Value, path: seq<Hop>, end: Value)
    requires Leads(TRAIL, v, path, end) && !end.Dict? && !end.List? && !end.Iso? && |path| <= 32
    requires forall name :: Field(name) in path ==> Marked(Lower(name)) ==> NamesAPublicKey(Lower(name))
    ensures Leads(TRAIL, Sanitised(TRAIL, v), Expanded(path), Plain(end))
  {
    forall i | 0 <= i < |path| && path[i].Field?
      ensures !SecretName(TRAIL, path[i].name)
    {
      assert Field(path[i].name) in path;
      SecretsAreMarked(path[i].name);
    }
    PublicFieldsAreKept(TRAIL, v, path, end);
    match end
    case Text(text) => TrailCaps(text);
    case Bytes(text) => TrailCaps(text);
    case Object(text) => TrailCaps(text);
    case _ =>
  }
}
