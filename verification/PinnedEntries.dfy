/**
 The entries of the accounts list that no deletion removes (hub/auth.py): those of an
 administrator, and those whose name nobody can sign in with.
 */
module PinnedEntries {
  import opened Options
  import opened Text
  import opened Accounts

  /** `delete_account` refuses that name. */
  predicate Pins(entries: seq<Entry>, name: string) {
    var listed := Listed(entries, name);
    listed.None? || listed.value.admin
  }

  /** The names of `part` that a list pins, in order. */
  function PinnedIn(entries: seq<Entry>, part: seq<Entry>): seq<string> {
    if part == [] then []
    else
      var name := Strip(part[|part| - 1].username);
      PinnedIn(entries, part[..|part| - 1]) + if Pins(entries, name) then [name] else []
  }

  function Pinned(entries: seq<Entry>): seq<string> {
    PinnedIn(entries, entries)
  }

  /** Whatever is deleted, `name` cannot be created: its letters are taken, or the list stays full. */
  predicate Bars(entries: seq<Entry>, name: string) {
    || |Pinned(entries)| >= MAX_ACCOUNTS
    || exists i :: 0 <= i < |Pinned(entries)| && Lower(Pinned(entries)[i]) == Lower(name)
  }

  lemma BarsStay(entries: seq<Entry>, entries': seq<Entry>, name: string)
    requires Pinned(entries) <= Pinned(entries')
    ensures Bars(entries, name) ==> Bars(entries', name)
  {
    var before, after := Pinned(entries), Pinned(entries');
    if i :| 0 <= i < |before| && Lower(before[i]) == Lower(name) {
      assert after[i] == before[i];
    }
  }

  lemma {:induction false} PinnedAreListed(entries: seq<Entry>, part: seq<Entry>)
    ensures |PinnedIn(entries, part)| <= |part|
    ensures forall i :: 0 <= i < |PinnedIn(entries, part)| ==> Lower(PinnedIn(entries, part)[i]) in LoweredNames(part)
  {
    if part != [] {
      var n := |part| - 1;
      PinnedAreListed(entries, part[..n]);
      assert Lower(Strip(part[n].username)) in LoweredNames(part);
      assert LoweredNames(part[..n]) <= LoweredNames(part) by {
        assert forall i :: 0 <= i < n ==> part[..n][i] == part[i];
      }
    }
  }

  lemma {:induction false} PinnedAlike(entries: seq<Entry>, entries': seq<Entry>, part: seq<Entry>)
    requires forall i :: 0 <= i < |part| ==>
      (Pins(entries, Strip(part[i].username)) <==> Pins(entries', Strip(part[i].username)))
    ensures PinnedIn(entries, part) == PinnedIn(entries', part)
  {
    if part != [] {
      PinnedAlike(entries, entries', part[..|part| - 1]);
    }
  }

  /** A new name unpins nothing. */
  lemma AppendPins(entries: seq<Entry>, e: Entry)
    requires Lower(Strip(e.username)) !in LoweredNames(entries)
    ensures Pinned(entries) <= Pinned(entries + [e])
  {
    var more := entries + [e];
    forall i | 0 <= i < |entries|
      ensures Pins(entries, Strip(entries[i].username)) <==> Pins(more, Strip(entries[i].username))
    {
      assert Lower(Strip(entries[i].username)) in LoweredNames(entries);
      ListedAppend(entries, e, Strip(entries[i].username));
    }
    PinnedAlike(entries, more, entries);
    assert more[..|entries|] == entries;
  }

  /** Deleting what can be deleted unpins nothing. */
  lemma {:induction false} WithoutPins(entries: seq<Entry>, name: string, part: seq<Entry>)
    requires !Pins(entries, name)
    ensures PinnedIn(Without(entries, name), Without(part, name)) == PinnedIn(entries, part)
  {
    if part != [] {
      var n := |part| - 1;
      var e := part[n];
      WithoutPins(entries, name, part[..n]);
      if Strip(e.username) == name {
        assert Without(part, name) == Without(part[..n], name);
      } else {
        ListedWithout(entries, name, Strip(e.username));
        assert Without(part, name)[..|Without(part, name)| - 1] == Without(part[..n], name);
      }
    }
  }

  /** A password change neither pins nor unpins. */
  lemma {:induction false} RehashPins(entries: seq<Entry>, name: string, digest: string, part: seq<Entry>)
    ensures PinnedIn(Rehashed(entries, name, digest), Rehashed(part, name, digest)) == PinnedIn(entries, part)
  {
    if part != [] {
      var n := |part| - 1;
      RehashPins(entries, name, digest, part[..n]);
      ListedRehashed(entries, name, digest, Strip(part[n].username));
      assert Rehashed(part, name, digest)[..n] == Rehashed(part[..n], name, digest) by {
        RehashedNames(part[..n], name, digest);
      }
    }
  }

  lemma PinnedLast(entries: seq<Entry>, part: seq<Entry>)
    requires part != [] && Pins(entries, Strip(part[|part| - 1].username))
    ensures PinnedIn(entries, part) == PinnedIn(entries, part[..|part| - 1]) + [Strip(part[|part| - 1].username)]
  {
  }

  /** A list on which every name is pinned. */
  lemma {:induction false} AllPinned(entries: seq<Entry>, part: seq<Entry>)
    requires forall i :: 0 <= i < |part| ==> Pins(entries, Strip(part[i].username))
    ensures |PinnedIn(entries, part)| == |part|
    ensures forall i :: 0 <= i < |part| ==> PinnedIn(entries, part)[i] == Strip(part[i].username)
  {
    if part != [] {
      var n := |part| - 1;
      AllPinned(entries, part[..n]);
      PinnedLast(entries, part);
    }
  }

  /** A deletion of an entry that is not pinned shortens the list. */
  lemma {:induction false} WithoutShortens(entries: seq<Entry>, i: nat)
    requires i < |entries|
    ensures |Without(entries, Strip(entries[i].username))| < |entries|
  {
    var n := |entries| - 1;
    if i < n {
      WithoutShortens(entries[..n], i);
    } else {
      WithoutShrinks(entries[..n], Strip(entries[n].username));
    }
  }
}
