/**
 The audit trail's sanitiser (hub/audit.py): secret-named fields are dropped, leftovers
 are shaped into plain JSON values, and the shaped tree is searched for secrets again.
 */
module Audit {
  import opened Options

  const DEPTH_CAP: nat := 32
  const MARKER := " \U{2026}[truncated]"

  /** Which names are secret, and how long one string may be. */
  datatype Policy = Policy(hints: seq<string>, exceptions: seq<string>, cap: nat)

  const TRAIL := Policy(
    ["password", "token", "secret", "credential", "cookie", "session", "authorization", "passwd", "api_key",
     "apikey", "key", "psk", "preshared", "passphrase", "private", "seed", "bearer"],
    ["pubkey", "public_key", "publickey"],
    65536)

  /** A mapping key: text, bytes as they decode, or anything else as it prints ("" when it cannot). */
  datatype Key = Name(text: string) | Raw(text: string) | Printed(text: string)

  datatype Entry = Entry(key: Key, value: Value)

  /** A field a caller may hand over.  Tuples and sets are lists; Iso answers isoformat(). */
  datatype Value =
    | Null
    | Bool(b: bool)
    | Int(n: int)
    | OverCap
    | Float(x: real)
    | NotFinite
    | Text(text: string)
    | Bytes(decoded: string)
    | Dict(entries: seq<Entry>)
    | List(items: seq<Value>)
    | Iso(answer: Option<Value>)
    | Object(printed: string)

  // ---- names ---------------------------------------------------------------------------

  /** The cap of `_utf8_text`, by code point. */
  function Capped(p: Policy, text: string): string {
    if |text| > p.cap then text[..p.cap] + MARKER else text
  }

  /** Capping twice is capping once, although a capped text is over the cap again. */
  lemma CappedTwice(p: Policy, text: string)
    ensures Capped(p, Capped(p, text)) == Capped(p, text)
  {
    if |text| > p.cap {
      assert Capped(p, text)[..p.cap] == text[..p.cap];
    }
  }

  /** The name a key is written under. */
  function Rendered(p: Policy, k: Key): string {
    Capped(p, k.text)
  }

  /** str.lower(), exact for every letter an ASCII hint can hold. */
  function LowerChar(c: char): string {
    if 'A' <= c <= 'Z' then [((c as int) + 32) as char]
    else if c == '\U{212A}' then "k"
    else if c == '\U{0130}' then "i\U{0307}"
    else [c]
  }

  function Lower(s: string): string {
    if s == "" then "" else LowerChar(s[0]) + Lower(s[1..])
  }

  /** part in text */
  predicate Contains(text: string, part: string) {
    part <= text || (text != "" && Contains(text[1..], part))
  }

  predicate ContainsAny(text: string, parts: seq<string>) {
    exists k :: 0 <= k < |parts| && Contains(text, parts[k])
  }

  /** Whether a written name is secret. */
  predicate SecretName(p: Policy, name: string) {
    !ContainsAny(Lower(name), p.exceptions) && ContainsAny(Lower(name), p.hints)
  }

  /** `_is_secret_key`: the classifier reads the name the writer will write. */
  predicate IsSecretKey(p: Policy, k: Key) {
    SecretName(p, Rendered(p, k))
  }

  /** Classifier and writer agree: a key and the name it is written under are classified alike. */
  lemma WrittenNameIsClassifiedAlike(p: Policy, k: Key)
    ensures IsSecretKey(p, Name(Rendered(p, k))) <==> IsSecretKey(p, k)
  {
    CappedTwice(p, k.text);
  }

  lemma {:induction false} ContainsAt(text: string, part: string, i: nat)
    requires i + |part| <= |text| && text[i..i + |part|] == part
    ensures Contains(text, part)
  {
    if i > 0 {
      assert text[1..][i - 1..i - 1 + |part|] == part;
      ContainsAt(text[1..], part, i - 1);
    }
  }

  lemma ContainsInside(before: string, part: string, after: string)
    ensures Contains(before + part + after, part)
  {
    var text := before + part + after;
    assert text[|before|..|before| + |part|] == part;
    ContainsAt(text, part, |before|);
  }

  // ---- the two passes ------------------------------------------------------------------------

  /** `redact` */
  function Redact(p: Policy, v: Value, depth: nat): Value
    decreases v
  {
    if depth > DEPTH_CAP then Null
    else
      match v
      case Dict(entries) => Dict(RedactEntries(p, entries, depth + 1))
      case List(items) => List(RedactItems(p, items, depth + 1))
      case _ => v
  }

  function RedactEntries(p: Policy, entries: seq<Entry>, depth: nat): seq<Entry>
    decreases entries
  {
    if entries == [] then []
    else
      var e := entries[|entries| - 1];
      RedactEntries(p, entries[..|entries| - 1], depth)
      + if IsSecretKey(p, e.key) then [] else [Entry(e.key, RedactedValue(p, e, depth))]
  }

  function RedactedValue(p: Policy, e: Entry, depth: nat): Value
    decreases e
  {
    Redact(p, e.value, depth)
  }

  function RedactItems(p: Policy, items: seq<Value>, depth: nat): (out: seq<Value>)
    ensures |out| == |items|
    decreases items
  {
    if items == [] then []
    else RedactItems(p, items[..|items| - 1], depth) + [Redact(p, items[|items| - 1], depth)]
  }

  /** A key that prints as nothing costs its pair. */
  predicate Unnameable(p: Policy, k: Key) {
    k.Printed? && Rendered(p, k) == ""
  }

  /** out[name] = value */
  function Put(entries: seq<Entry>, name: string, value: Value): seq<Entry> {
    if entries == [] then [Entry(Name(name), value)]
    else if entries[0].key == Name(name) then [Entry(Name(name), value)] + entries[1..]
    else [entries[0]] + Put(entries[1..], name, value)
  }

  /** `_jsonable` */
  function Jsonable(p: Policy, v: Value, depth: nat): Value
    decreases v
  {
    if depth > DEPTH_CAP then Null
    else
      match v
      case OverCap => Null
      case NotFinite => Null
      case Text(text) => Text(Capped(p, text))
      case Bytes(text) => Text(Capped(p, text))
      case Object(text) => Text(Capped(p, text))
      case Dict(entries) => Dict(JsonEntries(p, entries, depth + 1))
      case List(items) => List(JsonItems(p, items, depth + 1))
      case Iso(answer) => (match answer
                           case None => Null
                           case Some(inner) => Jsonable(p, inner, depth + 1))
      case _ => v
  }

  function JsonEntries(p: Policy, entries: seq<Entry>, depth: nat): seq<Entry>
    decreases entries
  {
    if entries == [] then []
    else
      var e := entries[|entries| - 1];
      var before := JsonEntries(p, entries[..|entries| - 1], depth);
      if Unnameable(p, e.key) then before else Put(before, Rendered(p, e.key), JsonValue(p, e, depth))
  }

  function JsonValue(p: Policy, e: Entry, depth: nat): Value
    decreases e
  {
    Jsonable(p, e.value, depth)
  }

  function JsonItems(p: Policy, items: seq<Value>, depth: nat): (out: seq<Value>)
    ensures |out| == |items|
    decreases items
  {
    if items == [] then []
    else JsonItems(p, items[..|items| - 1], depth) + [Jsonable(p, items[|items| - 1], depth)]
  }

  /** What `record` does to a caller's fields. */
  function Sanitised(p: Policy, v: Value): Value {
    Redact(p, Jsonable(p, Redact(p, v, 0), 0), 0)
  }

  lemma {:induction false} RedactItemAt(p: Policy, items: seq<Value>, depth: nat, i: nat)
    requires i < |items|
    ensures RedactItems(p, items, depth)[i] == Redact(p, items[i], depth)
  {
    if i < |items| - 1 {
      RedactItemAt(p, items[..|items| - 1], depth, i);
    }
  }

  lemma {:induction false} JsonItemAt(p: Policy, items: seq<Value>, depth: nat, i: nat)
    requires i < |items|
    ensures JsonItems(p, items, depth)[i] == Jsonable(p, items[i], depth)
  {
    if i < |items| - 1 {
      JsonItemAt(p, items[..|items| - 1], depth, i);
    }
  }

  // ---- normal trees ------------------------------------------------------------------------------

  predicate Distinct(entries: seq<Entry>) {
    forall i, j :: 0 <= i < j < |entries| ==> entries[i].key != entries[j].key
  }

  /** A written name: text within the cap. */
  predicate Written(p: Policy, k: Key) {
    k.Name? && Capped(p, k.text) == k.text
  }

  /** Plain JSON: distinct written names, capped texts, nothing below the depth cap. */
  predicate Normal(p: Policy, v: Value, depth: nat)
    decreases v
  {
    if depth > DEPTH_CAP then v.Null?
    else
      match v
      case Null => true
      case Bool(_) => true
      case Int(_) => true
      case Float(_) => true
      case Text(text) => Capped(p, text) == text
      case Dict(entries) =>
        Distinct(entries) && forall i :: 0 <= i < |entries| ==> Written(p, entries[i].key) && Normal(p, entries[i].value, depth + 1)
      case List(items) => forall i :: 0 <= i < |items| ==> Normal(p, items[i], depth + 1)
      case _ => false
  }

  /** The entries of a normal dictionary. */
  predicate NormalEntries(p: Policy, entries: seq<Entry>, depth: nat) {
    Distinct(entries) && forall i :: 0 <= i < |entries| ==> Written(p, entries[i].key) && Normal(p, entries[i].value, depth)
  }

  /** No secret name at any depth. */
  predicate NoSecret(p: Policy, v: Value)
    decreases v
  {
    match v
    case Dict(entries) => forall i :: 0 <= i < |entries| ==> !IsSecretKey(p, entries[i].key) && NoSecret(p, entries[i].value)
    case List(items) => forall i :: 0 <= i < |items| ==> NoSecret(p, items[i])
    case _ => true
  }

  predicate NoSecretEntries(p: Policy, entries: seq<Entry>) {
    forall i :: 0 <= i < |entries| ==> !IsSecretKey(p, entries[i].key) && NoSecret(p, entries[i].value)
  }

  lemma {:induction false} NormalHigher(p: Policy, v: Value, depth: nat)
    requires Normal(p, v, depth + 1)
    ensures Normal(p, v, depth)
    decreases v
  {
    if depth + 1 <= DEPTH_CAP {
      match v
      case Dict(entries) =>
        forall i | 0 <= i < |entries| ensures Normal(p, entries[i].value, depth + 1) {
          NormalHigher(p, entries[i].value, depth + 1);
        }
      case List(items) =>
        forall i | 0 <= i < |items| ensures Normal(p, items[i], depth + 1) {
          NormalHigher(p, items[i], depth + 1);
        }
      case _ =>
    }
  }

  lemma {:induction false} PutKeys(entries: seq<Entry>, name: string, value: Value)
    ensures forall e :: e in Put(entries, name, value) ==> e in entries || e == Entry(Name(name), value)
    ensures Distinct(entries) ==> Distinct(Put(entries, name, value))
  {
    if entries != [] && entries[0].key != Name(name) {
      PutKeys(entries[1..], name, value);
      var rest := Put(entries[1..], name, value);
      if Distinct(entries) {
        assert Distinct(entries[1..]);
        forall j | 0 <= j < |rest| ensures rest[j].key != entries[0].key {
          assert rest[j] in rest;
          if rest[j] in entries[1..] {
            var k :| 0 <= k < |entries[1..]| && entries[1..][k] == rest[j];
            assert entries[k + 1] == rest[j];
          }
        }
      }
    }
  }

  lemma PutNormal(p: Policy, entries: seq<Entry>, name: string, value: Value, depth: nat)
    requires NormalEntries(p, entries, depth) && Capped(p, name) == name && Normal(p, value, depth)
    ensures NormalEntries(p, Put(entries, name, value), depth)
  {
    PutKeys(entries, name, value);
    var out := Put(entries, name, value);
    forall i | 0 <= i < |out|
      ensures Written(p, out[i].key) && Normal(p, out[i].value, depth)
    {
      assert out[i] in out;
    }
  }

  /** Shaping makes any value normal. */
  lemma {:induction false} JsonableIsNormal(p: Policy, v: Value, depth: nat)
    ensures Normal(p, Jsonable(p, v, depth), depth)
    decreases v
  {
    if depth <= DEPTH_CAP {
      match v
      case Text(text) => CappedTwice(p, text);
      case Bytes(text) => CappedTwice(p, text);
      case Object(text) => CappedTwice(p, text);
      case Dict(entries) => JsonEntriesAreNormal(p, entries, depth + 1);
      case List(items) => JsonItemsAreNormal(p, items, depth + 1);
      case Iso(answer) =>
        if answer.Some? {
          JsonableIsNormal(p, answer.value, depth + 1);
          NormalHigher(p, Jsonable(p, answer.value, depth + 1), depth);
        }
      case _ =>
    }
  }

  lemma {:induction false} JsonItemsAreNormal(p: Policy, items: seq<Value>, depth: nat)
    ensures forall i :: 0 <= i < |items| ==> Normal(p, JsonItems(p, items, depth)[i], depth)
    decreases items
  {
    if items != [] {
      JsonItemsAreNormal(p, items[..|items| - 1], depth);
      JsonableIsNormal(p, items[|items| - 1], depth);
    }
  }

  lemma {:induction false} JsonValueIsNormal(p: Policy, e: Entry, depth: nat)
    ensures Normal(p, JsonValue(p, e, depth), depth)
    decreases e
  {
    JsonableIsNormal(p, e.value, depth);
  }

  lemma {:induction false} JsonEntriesAreNormal(p: Policy, entries: seq<Entry>, depth: nat)
    ensures NormalEntries(p, JsonEntries(p, entries, depth), depth)
    decreases entries
  {
    if entries != [] {
      var n := |entries| - 1;
      var e := entries[n];
      JsonEntriesAreNormal(p, entries[..n], depth);
      JsonValueIsNormal(p, e, depth);
      CappedTwice(p, e.key.text);
      if !Unnameable(p, e.key) {
        PutNormal(p, JsonEntries(p, entries[..n], depth), Rendered(p, e.key), Jsonable(p, e.value, depth), depth);
      }
    }
  }

  /** Redacting a normal tree keeps it normal and leaves no secret name. */
  lemma {:induction false} RedactCleans(p: Policy, v: Value, depth: nat)
    requires Normal(p, v, depth)
    ensures Normal(p, Redact(p, v, depth), depth) && NoSecret(p, Redact(p, v, depth))
    decreases v
  {
    if depth <= DEPTH_CAP {
      match v
      case Dict(entries) => RedactEntriesClean(p, entries, depth + 1);
      case List(items) => RedactItemsClean(p, items, depth + 1);
      case _ =>
    }
  }

  lemma {:induction false} RedactItemsClean(p: Policy, items: seq<Value>, depth: nat)
    requires forall i :: 0 <= i < |items| ==> Normal(p, items[i], depth)
    ensures forall i :: 0 <= i < |items| ==>
      Normal(p, RedactItems(p, items, depth)[i], depth) && NoSecret(p, RedactItems(p, items, depth)[i])
    decreases items
  {
    if items != [] {
      RedactItemsClean(p, items[..|items| - 1], depth);
      RedactCleans(p, items[|items| - 1], depth);
    }
  }

  lemma {:induction false} RedactedValueCleans(p: Policy, e: Entry, depth: nat)
    requires Normal(p, e.value, depth)
    ensures Normal(p, RedactedValue(p, e, depth), depth) && NoSecret(p, RedactedValue(p, e, depth))
    decreases e
  {
    RedactCleans(p, e.value, depth);
  }

  /** Redaction adds no key. */
  lemma {:induction false} RedactEntriesKeys(p: Policy, entries: seq<Entry>, depth: nat)
    ensures forall e :: e in RedactEntries(p, entries, depth) ==> exists i :: 0 <= i < |entries| && entries[i].key == e.key
    ensures Distinct(entries) ==> Distinct(RedactEntries(p, entries, depth))
    decreases entries
  {
    if entries != [] {
      var n := |entries| - 1;
      RedactEntriesKeys(p, entries[..n], depth);
      var before := RedactEntries(p, entries[..n], depth);
      forall j | 0 <= j < |before|
        ensures exists i :: 0 <= i < n && entries[i].key == before[j].key
      {
        assert before[j] in before;
        var i :| 0 <= i < n && entries[..n][i].key == before[j].key;
        assert entries[i].key == before[j].key;
      }
      assert entries[n].key == entries[n].key;
    }
  }

  lemma {:induction false} RedactEntriesClean(p: Policy, entries: seq<Entry>, depth: nat)
    requires NormalEntries(p, entries, depth)
    ensures NormalEntries(p, RedactEntries(p, entries, depth), depth)
    ensures NoSecretEntries(p, RedactEntries(p, entries, depth))
    decreases entries
  {
    RedactEntriesKeys(p, entries, depth);
    if entries != [] {
      var n := |entries| - 1;
      RedactEntriesClean(p, entries[..n], depth);
      RedactedValueCleans(p, entries[n], depth);
    }
  }

  /** Nothing that reaches the trail has a secret name, at any depth, whatever was handed over. */
  lemma NothingSecretIsWritten(p: Policy, v: Value)
    ensures NoSecret(p, Sanitised(p, v)) && Normal(p, Sanitised(p, v), 0)
  {
    JsonableIsNormal(p, Redact(p, v, 0), 0);
    RedactCleans(p, Jsonable(p, Redact(p, v, 0), 0), 0);
  }

  /** A text in small ASCII letters, digits and underscores. */
  predicate Small(s: string) {
    forall i :: 0 <= i < |s| ==> 'a' <= s[i] <= 'z' || s[i] == '_' || '0' <= s[i] <= '9'
  }

  lemma {:induction false} SmallIsLower(s: string)
    requires Small(s)
    ensures Lower(s) == s
  {
    if s != "" {
      assert Small(s[1..]) by {
        assert forall i :: 0 <= i < |s| - 1 ==> s[1..][i] == s[i + 1];
      }
      SmallIsLower(s[1..]);
    }
  }

  lemma {:induction false} ContainsChars(text: string, part: string, c: char)
    requires Contains(text, part) && c in part
    ensures c in text
  {
    if !(part <= text) {
      ContainsChars(text[1..], part, c);
    }
  }

  /** A name with one of the trail's hints in it, at whatever place, is secret unless it holds a public key's name. */
  lemma HintedNamesAreSecret(before: string, k: nat, after: string)
    requires k < |TRAIL.hints| && Small(before) && Small(after) && Small(TRAIL.hints[k])
    requires !ContainsAny(before + TRAIL.hints[k] + after, TRAIL.exceptions)
    ensures SecretName(TRAIL, before + TRAIL.hints[k] + after)
  {
    var hint := TRAIL.hints[k];
    var name := before + hint + after;
    SmallIsLower(name);
    ContainsInside(before, hint, after);
  }

  /** No such field is ever in the trail, whatever was handed over. */
  lemma HintedFieldsAreNeverWritten(v: Value, before: string, k: nat, after: string)
    requires k < |TRAIL.hints| && Small(before) && Small(after) && Small(TRAIL.hints[k])
    requires !ContainsAny(before + TRAIL.hints[k] + after, TRAIL.exceptions)
    ensures var out := Sanitised(TRAIL, v);
      out.Dict? ==> forall i :: 0 <= i < |out.entries| ==> out.entries[i].key != Name(before + TRAIL.hints[k] + after)
  {
    HintedNamesAreSecret(before, k, after);
    NothingSecretIsWritten(TRAIL, v);
  }

  /** Every public exception is about a public key: a name without a b holds none. */
  lemma ExemptNamesHoldAB(name: string)
    requires 'b' !in name
    ensures !ContainsAny(name, TRAIL.exceptions)
  {
    forall k | 0 <= k < |TRAIL.exceptions|
      ensures !Contains(name, TRAIL.exceptions[k])
    {
      assert TRAIL.exceptions[k][2] == 'b';
      if Contains(name, TRAIL.exceptions[k]) {
        ContainsChars(name, TRAIL.exceptions[k], 'b');
      }
    }
  }

  /** Passwords, tokens and keys of any kind stay out: old_password, setup_token, wg_private_key. */
  lemma TheTrailKeepsSecretsOut(before: string, k: nat, after: string)
    requires k < |TRAIL.hints| && TRAIL.hints[k] in {"password", "token", "key"}
    requires Small(before) && Small(after) && 'b' !in before && 'b' !in after
    ensures SecretName(TRAIL, before + TRAIL.hints[k] + after)
  {
    ExemptNamesHoldAB(before + TRAIL.hints[k] + after);
    HintedNamesAreSecret(before, k, after);
  }

  /** A peer's public key stays in. */
  lemma TheTrailKeepsPeersIn(before: string, after: string)
    requires Small(before) && Small(after)
    ensures !SecretName(TRAIL, before + "pubkey" + after)
  {
    var name := before + "pubkey" + after;
    SmallIsLower(name);
    assert TRAIL.exceptions[0] == "pubkey";
    ContainsInside(before, "pubkey", after);
    assert Contains(name, TRAIL.exceptions[0]);
  }

  // ---- fixed point -----------------------------------------------------------------------------------

  lemma {:induction false} RedactFixes(p: Policy, v: Value, depth: nat)
    requires Normal(p, v, depth) && NoSecret(p, v)
    ensures Redact(p, v, depth) == v
    decreases v
  {
    if depth <= DEPTH_CAP {
      match v
      case Dict(entries) => RedactEntriesFixed(p, entries, depth + 1);
      case List(items) =>
        forall i | 0 <= i < |items| ensures RedactItems(p, items, depth + 1)[i] == items[i] {
          RedactItemAt(p, items, depth + 1, i);
          RedactFixes(p, items[i], depth + 1);
        }
      case _ =>
    }
  }

  lemma {:induction false} RedactedValueFixed(p: Policy, e: Entry, depth: nat)
    requires Normal(p, e.value, depth) && NoSecret(p, e.value)
    ensures RedactedValue(p, e, depth) == e.value
    decreases e
  {
    RedactFixes(p, e.value, depth);
  }

  lemma NormalPrefix(p: Policy, entries: seq<Entry>, depth: nat, n: nat)
    requires NormalEntries(p, entries, depth) && n <= |entries|
    ensures NormalEntries(p, entries[..n], depth)
  {
  }

  lemma EntriesSplit(p: Policy, entries: seq<Entry>, depth: nat)
    requires entries != [] && NormalEntries(p, entries, depth) && NoSecretEntries(p, entries)
    ensures var n := |entries| - 1;
      && NormalEntries(p, entries[..n], depth) && NoSecretEntries(p, entries[..n])
      && Normal(p, entries[n].value, depth) && NoSecret(p, entries[n].value) && !IsSecretKey(p, entries[n].key)
  {
    NormalPrefix(p, entries, depth, |entries| - 1);
  }

  lemma {:induction false} RedactEntriesFixed(p: Policy, entries: seq<Entry>, depth: nat)
    requires NormalEntries(p, entries, depth) && NoSecretEntries(p, entries)
    ensures RedactEntries(p, entries, depth) == entries
    decreases entries
  {
    if entries != [] {
      var n := |entries| - 1;
      var e := entries[n];
      EntriesSplit(p, entries, depth);
      RedactEntriesFixed(p, entries[..n], depth);
      RedactedValueFixed(p, e, depth);
      LastEntryFixed(p, entries, depth);
    }
  }

  lemma LastEntryFixed(p: Policy, entries: seq<Entry>, depth: nat)
    requires entries != [] && RedactEntries(p, entries[..|entries| - 1], depth) == entries[..|entries| - 1]
    requires var e := entries[|entries| - 1]; !IsSecretKey(p, e.key) && RedactedValue(p, e, depth) == e.value
    ensures RedactEntries(p, entries, depth) == entries
  {
    var n := |entries| - 1;
    assert Entry(entries[n].key, entries[n].value) == entries[n];
    assert entries == entries[..n] + [entries[n]];
  }

  lemma {:induction false} PutAppends(entries: seq<Entry>, name: string, value: Value)
    requires forall i :: 0 <= i < |entries| ==> entries[i].key != Name(name)
    ensures Put(entries, name, value) == entries + [Entry(Name(name), value)]
  {
    if entries != [] {
      PutAppends(entries[1..], name, value);
    }
  }

  lemma {:induction false} JsonFixes(p: Policy, v: Value, depth: nat)
    requires Normal(p, v, depth)
    ensures Jsonable(p, v, depth) == v
    decreases v
  {
    if depth <= DEPTH_CAP {
      match v
      case Dict(entries) => JsonEntriesFixed(p, entries, depth + 1);
      case List(items) =>
        forall i | 0 <= i < |items| ensures JsonItems(p, items, depth + 1)[i] == items[i] {
          JsonItemAt(p, items, depth + 1, i);
          JsonFixes(p, items[i], depth + 1);
        }
      case _ =>
    }
  }

  lemma {:induction false} JsonValueFixed(p: Policy, e: Entry, depth: nat)
    requires Normal(p, e.value, depth)
    ensures JsonValue(p, e, depth) == e.value
    decreases e
  {
    JsonFixes(p, e.value, depth);
  }

  lemma {:induction false} JsonEntriesFixed(p: Policy, entries: seq<Entry>, depth: nat)
    requires NormalEntries(p, entries, depth)
    ensures JsonEntries(p, entries, depth) == entries
    decreases entries
  {
    if entries != [] {
      var n := |entries| - 1;
      JsonEntriesFixed(p, entries[..n], depth);
      JsonValueFixed(p, entries[n], depth);
      PutAppends(entries[..n], entries[n].key.text, entries[n].value);
      assert entries == entries[..n] + [entries[n]];
    }
  }

  /** Sanitising again changes nothing. */
  lemma SanitisedIsFixed(p: Policy, v: Value)
    ensures Sanitised(p, Sanitised(p, v)) == Sanitised(p, v)
  {
    NothingSecretIsWritten(p, v);
    RedactFixes(p, Sanitised(p, v), 0);
    JsonFixes(p, Sanitised(p, v), 0);
  }

  // ---- what is kept ------------------------------------------------------------------------------------

  /** A step from a value to one inside it; Answer goes through isoformat(). */
  datatype Hop = Field(name: string) | Item(index: nat) | Answer

  /** Entry i is the only one written under that name. */
  predicate Named(p: Policy, entries: seq<Entry>, i: nat, name: string) {
    && i < |entries| && Rendered(p, entries[i].key) == name && (entries[i].key.Printed? ==> name != "")
    && forall j :: 0 <= j < |entries| && j != i ==> Rendered(p, entries[j].key) != name
  }

  /** The path leads from v to the value at its end, through names that nothing else is written under. */
  predicate Leads(p: Policy, v: Value, path: seq<Hop>, end: Value)
    decreases |path|
  {
    if path == [] then v == end
    else
      match path[0]
      case Field(name) =>
        v.Dict? && exists i: nat :: i < |v.entries| && Named(p, v.entries, i, name)
                               && Leads(p, v.entries[i].value, path[1..], end)
      case Item(i) => v.List? && i < |v.items| && Leads(p, v.items[i], path[1..], end)
      case Answer => v.Iso? && v.answer.Some? && Leads(p, v.answer.value, path[1..], end)
  }

  lemma LeadsByField(p: Policy, entries: seq<Entry>, i: nat, name: string, rest: seq<Hop>, end: Value)
    requires Named(p, entries, i, name) && Leads(p, entries[i].value, rest, end)
    ensures Leads(p, Dict(entries), [Field(name)] + rest, end)
  {
    assert ([Field(name)] + rest)[1..] == rest;
  }

  lemma LeadsByItem(p: Policy, items: seq<Value>, i: nat, rest: seq<Hop>, end: Value)
    requires i < |items| && Leads(p, items[i], rest, end)
    ensures Leads(p, List(items), [Item(i)] + rest, end)
  {
    assert ([Item(i)] + rest)[1..] == rest;
  }

  predicate Public(p: Policy, path: seq<Hop>) {
    forall i :: 0 <= i < |path| && path[i].Field? ==> !SecretName(p, path[i].name)
  }

  predicate Leaf(v: Value) {
    !v.Dict? && !v.List? && !v.Iso?
  }

  /** The same path once isoformat() answers have been put in place. */
  function Expanded(path: seq<Hop>): seq<Hop> {
    if path == [] then []
    else if path[0].Answer? then Expanded(path[1..])
    else [path[0]] + Expanded(path[1..])
  }

  lemma {:induction false} ExpandedFacts(p: Policy, path: seq<Hop>)
    ensures |Expanded(path)| <= |path|
    ensures Public(p, path) ==> Public(p, Expanded(path))
  {
    if path != [] {
      ExpandedFacts(p, path[1..]);
      if Public(p, path) {
        assert Public(p, path[1..]) by {
          forall i | 0 <= i < |path[1..]| && path[1..][i].Field? ensures !SecretName(p, path[1..][i].name) {
            assert path[i + 1].Field?;
          }
        }
        var out, rest := Expanded(path), Expanded(path[1..]);
        forall i | 0 <= i < |out| && out[i].Field? ensures !SecretName(p, out[i].name) {
          if !path[0].Answer? && i > 0 {
            assert out[i] == rest[i - 1];
          }
        }
      }
    }
  }

  lemma PublicRest(p: Policy, path: seq<Hop>)
    requires path != [] && Public(p, path)
    ensures Public(p, path[1..])
  {
    forall i | 0 <= i < |path[1..]| && path[1..][i].Field?
      ensures !SecretName(p, path[1..][i].name)
    {
      assert path[i + 1].Field?;
    }
  }

  lemma NamedAppend(p: Policy, entries: seq<Entry>, at: nat, name: string, e: Entry)
    requires Named(p, entries, at, name) && Rendered(p, e.key) != name
    ensures Named(p, entries + [e], at, name) && (entries + [e])[at] == entries[at]
  {
  }

  lemma NamedLast(p: Policy, entries: seq<Entry>, e: Entry, name: string)
    requires forall j :: 0 <= j < |entries| ==> Rendered(p, entries[j].key) != name
    requires Rendered(p, e.key) == name && !Unnameable(p, e.key)
    ensures Named(p, entries + [e], |entries|, name) && (entries + [e])[|entries|] == e
  {
  }

  lemma NamedPrefix(p: Policy, entries: seq<Entry>, i: nat, n: nat, name: string)
    requires Named(p, entries, i, name) && i < n <= |entries|
    ensures Named(p, entries[..n], i, name)
  {
  }

  /** A public entry survives redaction, alone under its name. */
  lemma {:induction false} RedactKeepsEntry(p: Policy, entries: seq<Entry>, depth: nat, i: nat, name: string) returns (at: nat)
    requires Named(p, entries, i, name) && !SecretName(p, name)
    ensures var out := RedactEntries(p, entries, depth);
      Named(p, out, at, name) && out[at].value == Redact(p, entries[i].value, depth)
    decreases entries
  {
    var n := |entries| - 1;
    var before := RedactEntries(p, entries[..n], depth);
    var last := Entry(entries[n].key, RedactedValue(p, entries[n], depth));
    if i < n {
      NamedPrefix(p, entries, i, n, name);
      at := RedactKeepsEntry(p, entries[..n], depth, i, name);
      NamedAppend(p, before, at, name, last);
      assert before + [] == before;
    } else {
      at := |before|;
      RedactAddsNoName(p, entries[..n], depth, name);
      NamedLast(p, before, last, name);
    }
  }

  lemma {:induction false} RedactAddsNoName(p: Policy, entries: seq<Entry>, depth: nat, name: string)
    requires forall j :: 0 <= j < |entries| ==> Rendered(p, entries[j].key) != name
    ensures forall j :: 0 <= j < |RedactEntries(p, entries, depth)| ==> Rendered(p, RedactEntries(p, entries, depth)[j].key) != name
    decreases entries
  {
    if entries != [] {
      RedactAddsNoName(p, entries[..|entries| - 1], depth, name);
    }
  }

  lemma {:induction false} RedactKeeps(p: Policy, v: Value, depth: nat, path: seq<Hop>, end: Value)
    requires Leads(p, v, path, end) && Leaf(end) && Public(p, path) && depth + |path| <= DEPTH_CAP
    ensures Leads(p, Redact(p, v, depth), path, end)
    decreases |path|, 1
  {
    if path != [] {
      PublicRest(p, path);
      var rest := path[1..];
      assert path == [path[0]] + rest;
      match path[0]
      case Field(name) => RedactKeepsField(p, v.entries, depth, name, rest, end);
      case Item(i) =>
        RedactItemAt(p, v.items, depth + 1, i);
        RedactKeeps(p, v.items[i], depth + 1, rest, end);
        LeadsByItem(p, RedactItems(p, v.items, depth + 1), i, rest, end);
      case Answer =>
    }
  }

  lemma {:induction false} RedactKeepsField(p: Policy, entries: seq<Entry>, depth: nat, name: string, rest: seq<Hop>, end: Value)
    requires exists i: nat :: i < |entries| && Named(p, entries, i, name) && Leads(p, entries[i].value, rest, end)
    requires Leaf(end) && Public(p, rest) && !SecretName(p, name) && depth + 1 + |rest| <= DEPTH_CAP
    ensures Leads(p, Dict(RedactEntries(p, entries, depth + 1)), [Field(name)] + rest, end)
    decreases |rest| + 1, 0
  {
    var i: nat :| i < |entries| && Named(p, entries, i, name) && Leads(p, entries[i].value, rest, end);
    var at := RedactKeepsEntry(p, entries, depth + 1, i, name);
    RedactKeeps(p, entries[i].value, depth + 1, rest, end);
    LeadsByField(p, RedactEntries(p, entries, depth + 1), at, name, rest, end);
  }

  lemma {:induction false} PutElsewhere(p: Policy, entries: seq<Entry>, other: string, value: Value, at: nat, name: string)
    requires Named(p, entries, at, name) && Capped(p, other) == other != name
    requires forall j :: 0 <= j < |entries| ==> Written(p, entries[j].key)
    ensures var out := Put(entries, other, value);
      Named(p, out, at, name) && out[at] == entries[at]
    decreases entries
  {
    if entries[0].key == Name(other) {
    } else if at == 0 {
      PutAddsName(p, entries[1..], other, value, name);
    } else {
      assert Named(p, entries[1..], at - 1, name);
      PutElsewhere(p, entries[1..], other, value, at - 1, name);
    }
  }

  lemma {:induction false} PutAddsName(p: Policy, entries: seq<Entry>, other: string, value: Value, name: string)
    requires Capped(p, other) == other != name
    requires forall j :: 0 <= j < |entries| ==> Rendered(p, entries[j].key) != name
    ensures forall j :: 0 <= j < |Put(entries, other, value)| ==> Rendered(p, Put(entries, other, value)[j].key) != name
  {
    PutKeys(entries, other, value);
    var out := Put(entries, other, value);
    forall j | 0 <= j < |out| ensures Rendered(p, out[j].key) != name {
      assert out[j] in out;
    }
  }

  lemma {:induction false} JsonAddsNoName(p: Policy, entries: seq<Entry>, depth: nat, name: string)
    requires forall j :: 0 <= j < |entries| ==> Rendered(p, entries[j].key) != name
    ensures forall j :: 0 <= j < |JsonEntries(p, entries, depth)| ==> Rendered(p, JsonEntries(p, entries, depth)[j].key) != name
    decreases entries
  {
    if entries != [] {
      var n := |entries| - 1;
      var e := entries[n];
      JsonAddsNoName(p, entries[..n], depth, name);
      CappedTwice(p, e.key.text);
      if !Unnameable(p, e.key) {
        PutAddsName(p, JsonEntries(p, entries[..n], depth), Rendered(p, e.key), Jsonable(p, e.value, depth), name);
      }
    }
  }

  /** An entry that alone has its name is written last when it comes last. */
  lemma JsonAppends(p: Policy, entries: seq<Entry>, depth: nat, name: string)
    requires entries != [] && Named(p, entries, |entries| - 1, name)
    ensures var n := |entries| - 1;
      && JsonEntries(p, entries, depth) == JsonEntries(p, entries[..n], depth) + [Entry(Name(name), Jsonable(p, entries[n].value, depth))]
      && forall j :: 0 <= j < |JsonEntries(p, entries[..n], depth)| ==> Rendered(p, JsonEntries(p, entries[..n], depth)[j].key) != name
  {
    var n := |entries| - 1;
    var before := JsonEntries(p, entries[..n], depth);
    JsonAddsNoName(p, entries[..n], depth, name);
    CappedTwice(p, entries[n].key.text);
    forall j | 0 <= j < |before|
      ensures before[j].key != Name(name)
    {
      assert Rendered(p, before[j].key) != name;
    }
    PutAppends(before, name, Jsonable(p, entries[n].value, depth));
  }

  lemma {:induction false} JsonKeepsEntry(p: Policy, entries: seq<Entry>, depth: nat, i: nat, name: string) returns (at: nat)
    requires Named(p, entries, i, name)
    ensures var out := JsonEntries(p, entries, depth);
      Named(p, out, at, name) && out[at].value == Jsonable(p, entries[i].value, depth)
    decreases entries
  {
    var n := |entries| - 1;
    var e := entries[n];
    var before := JsonEntries(p, entries[..n], depth);
    JsonEntriesAreNormal(p, entries[..n], depth);
    CappedTwice(p, e.key.text);
    if i < n {
      assert Named(p, entries[..n], i, name);
      at := JsonKeepsEntry(p, entries[..n], depth, i, name);
      if !Unnameable(p, e.key) {
        PutElsewhere(p, before, Rendered(p, e.key), Jsonable(p, e.value, depth), at, name);
      }
    } else {
      at := |before|;
      JsonAppends(p, entries, depth, name);
    }
  }

  lemma {:induction false} JsonKeeps(p: Policy, v: Value, depth: nat, path: seq<Hop>, end: Value)
    requires Leads(p, v, path, end) && Leaf(end) && depth + |path| <= DEPTH_CAP
    ensures Leads(p, Jsonable(p, v, depth), Expanded(path), Jsonable(p, end, 0))
    decreases |path|, 1
  {
    if path != [] {
      var rest := path[1..];
      match path[0]
      case Field(name) => JsonKeepsField(p, v.entries, depth, name, rest, end);
      case Item(i) =>
        JsonItemAt(p, v.items, depth + 1, i);
        JsonKeeps(p, v.items[i], depth + 1, rest, end);
        LeadsByItem(p, JsonItems(p, v.items, depth + 1), i, Expanded(rest), Jsonable(p, end, 0));
      case Answer =>
        JsonKeeps(p, v.answer.value, depth + 1, rest, end);
    }
  }

  lemma {:induction false} JsonKeepsField(p: Policy, entries: seq<Entry>, depth: nat, name: string, rest: seq<Hop>, end: Value)
    requires exists i: nat :: i < |entries| && Named(p, entries, i, name) && Leads(p, entries[i].value, rest, end)
    requires Leaf(end) && depth + 1 + |rest| <= DEPTH_CAP
    ensures Leads(p, Dict(JsonEntries(p, entries, depth + 1)), [Field(name)] + Expanded(rest), Jsonable(p, end, 0))
    decreases |rest| + 1, 0
  {
    var i: nat :| i < |entries| && Named(p, entries, i, name) && Leads(p, entries[i].value, rest, end);
    var at := JsonKeepsEntry(p, entries, depth + 1, i, name);
    JsonKeeps(p, entries[i].value, depth + 1, rest, end);
    LeadsByField(p, JsonEntries(p, entries, depth + 1), at, name, Expanded(rest), Jsonable(p, end, 0));
  }

  /**
   A leaf whose whole path of names is public, within the depth cap, is written: at the
   same path, as its JSON rendering.
   */
  lemma PublicFieldsAreKept(p: Policy, v: Value, path: seq<Hop>, end: Value)
    requires Leads(p, v, path, end) && Leaf(end) && Public(p, path) && |path| <= 32
    ensures Leads(p, Sanitised(p, v), Expanded(path), Jsonable(p, end, 0))
  {
    RedactKeeps(p, v, 0, path, end);
    JsonKeeps(p, Redact(p, v, 0), 0, path, end);
    ExpandedFacts(p, path);
    RedactKeeps(p, Jsonable(p, Redact(p, v, 0), 0), 0, Expanded(path), Jsonable(p, end, 0));
  }

  // ---- record -----------------------------------------------------------------------------------------------

  /** extra.pop(name, None) */
  function Popped(entries: seq<Entry>, name: string): seq<Entry> {
    if entries == [] then []
    else Popped(entries[..|entries| - 1], name)
         + if entries[|entries| - 1].key == Name(name) then [] else [entries[|entries| - 1]]
  }

  /** The entry `record` writes: its own stamp and event first, then the caller's fields. */
  function Recorded(p: Policy, stamp: string, event: string, fields: seq<Entry>): seq<Entry> {
    var shaped := Sanitised(p, Dict(fields));
    var extra := if shaped.Dict? then shaped.entries else [];
    [Entry(Name("ts"), Text(stamp)), Entry(Name("event"), Text(Capped(p, event)))] + Popped(Popped(extra, "ts"), "event")
  }

  lemma {:induction false} PoppedMeans(entries: seq<Entry>, name: string)
    ensures forall e :: e in Popped(entries, name) <==> e in entries && e.key != Name(name)
  {
    if entries != [] {
      var n := |entries| - 1;
      PoppedMeans(entries[..n], name);
      assert entries == entries[..n] + [entries[n]];
    }
  }

  lemma {:induction false} PoppedDistinct(entries: seq<Entry>, name: string)
    requires Distinct(entries)
    ensures Distinct(Popped(entries, name))
  {
    if entries != [] {
      var n := |entries| - 1;
      PoppedDistinct(entries[..n], name);
      PoppedMeans(entries[..n], name);
      var before := Popped(entries[..n], name);
      forall i | 0 <= i < |before| ensures before[i].key != entries[n].key {
        assert before[i] in before && before[i] in entries[..n];
        var k :| 0 <= k < n && entries[..n][k] == before[i];
        assert entries[k] == before[i];
      }
    }
  }

  /**
   An entry has one stamp and one event, its own, and of the caller's fields exactly the
   sanitised ones with other names; none of those is secret.
   */
  lemma EntryShape(p: Policy, stamp: string, event: string, fields: seq<Entry>)
    ensures var out := Recorded(p, stamp, event, fields);
      && Distinct(out)
      && out[0] == Entry(Name("ts"), Text(stamp)) && out[1] == Entry(Name("event"), Text(Capped(p, event)))
      && NoSecretEntries(p, out[2..])
      && (forall e :: e in out[2..] <==>
            Sanitised(p, Dict(fields)).Dict? && e in Sanitised(p, Dict(fields)).entries
            && e.key != Name("ts") && e.key != Name("event"))
  {
    var shaped := Sanitised(p, Dict(fields));
    NothingSecretIsWritten(p, Dict(fields));
    assert shaped.Dict?;
    var rest := Popped(Popped(shaped.entries, "ts"), "event");
    PoppedTwice(p, shaped.entries);
    var head := [Entry(Name("ts"), Text(stamp)), Entry(Name("event"), Text(Capped(p, event)))];
    assert Recorded(p, stamp, event, fields) == head + rest && (head + rest)[2..] == rest;
    HeadedDistinct(head[0], head[1], rest);
  }

  lemma HeadedDistinct(a: Entry, b: Entry, rest: seq<Entry>)
    requires Distinct(rest) && a.key != b.key && forall e :: e in rest ==> e.key != a.key && e.key != b.key
    ensures Distinct([a, b] + rest)
  {
    var out := [a, b] + rest;
    forall i, j | 0 <= i < j < |out|
      ensures out[i].key != out[j].key
    {
      if j >= 2 {
        assert out[j] == rest[j - 2] && rest[j - 2] in rest;
      }
    }
  }

  lemma PoppedTwice(p: Policy, entries: seq<Entry>)
    requires Distinct(entries) && NoSecretEntries(p, entries)
    ensures var rest := Popped(Popped(entries, "ts"), "event");
      && Distinct(rest) && NoSecretEntries(p, rest)
      && forall e :: e in rest <==> e in entries && e.key != Name("ts") && e.key != Name("event")
  {
    PoppedMeans(entries, "ts");
    PoppedMeans(Popped(entries, "ts"), "event");
    PoppedDistinct(entries, "ts");
    PoppedDistinct(Popped(entries, "ts"), "event");
    var rest := Popped(Popped(entries, "ts"), "event");
    forall i | 0 <= i < |rest|
      ensures !IsSecretKey(p, rest[i].key) && NoSecret(p, rest[i].value)
    {
      assert rest[i] in rest;
      assert rest[i] in entries;
    }
  }
}
