/**
 Bind mounts of a stack (hub/backups.py, `_stack_mounts`): collected once each, and
 dropped when another collected bind already contains them.
 */
module Mounts {
  import opened Options

  /** One volume entry of a resolved compose file. */
  datatype Entry =
    | Bind(source: string, data: bool)
    | Volume(source: string, valid: bool)
    | Else

  /** rstrip("/") */
  function Strip(p: string): string {
    if p != "" && p[|p| - 1] == '/' then Strip(p[..|p| - 1]) else p
  }

  /** b is another path inside o. */
  predicate Under(b: string, o: string) {
    b != o && Strip(o) + "/" <= b
  }

  /** Two spellings of one directory that differ in trailing slashes only, each with at least one. */
  predicate Twins(b: string, o: string) {
    b != o && Strip(b) == Strip(o) && |b| > |Strip(b)| && |o| > |Strip(o)|
  }

  lemma {:induction false} StripShape(p: string)
    ensures Strip(p) <= p && (Strip(p) == "" || Strip(p)[|Strip(p)| - 1] != '/')
    ensures forall i :: |Strip(p)| <= i < |p| ==> p[i] == '/'
  {
    if p != "" && p[|p| - 1] == '/' {
      StripShape(p[..|p| - 1]);
    }
  }

  // ---- collection ----------------------------------------------------------------

  predicate NoDup(s: seq<string>) {
    forall i, j :: 0 <= i < j < |s| ==> s[i] != s[j]
  }

  predicate IsBind(e: Entry, source: string) {
    e.Bind? && e.source == source && "/" <= source && e.data
  }

  predicate Keeps(binds: seq<string>, b: string) {
    forall k :: 0 <= k < |binds| ==> !Under(b, binds[k])
  }

  /** The binds that lie in no other, in collection order. */
  function Outermost(binds: seq<string>, all: seq<string>): seq<string> {
    if binds == [] then []
    else
      var last := binds[|binds| - 1];
      Outermost(binds[..|binds| - 1], all) + if Keeps(all, last) then [last] else []
  }

  lemma {:induction false} OutermostMembers(binds: seq<string>, all: seq<string>)
    ensures forall b :: b in Outermost(binds, all) <==> b in binds && Keeps(all, b)
    ensures NoDup(binds) ==> NoDup(Outermost(binds, all))
  {
    if binds != [] {
      var n := |binds| - 1;
      OutermostMembers(binds[..n], all);
      assert binds == binds[..n] + [binds[n]];
      if NoDup(binds) {
        assert NoDup(binds[..n]);
        assert binds[n] !in binds[..n];
      }
    }
  }

  /** The loops of `_stack_mounts`; `names` maps declared volume keys to resolved names. */
  method StackMounts(entries: seq<Entry>, names: map<string, string>)
    returns (binds: seq<string>, volumes: seq<string>, ghost collected: seq<string>)
    ensures NoDup(collected) && forall b :: b in collected <==> exists i :: (0 <= i < |entries|
      && entries[i].Bind? && entries[i].source == b && "/" <= b && entries[i].data)
    ensures binds == Outermost(collected, collected)
    ensures NoDup(volumes)
    ensures forall v :: v in volumes <==>
      exists i :: 0 <= i < |entries| && entries[i].Volume? && entries[i].source != "" && entries[i].valid
             && Get(names, entries[i].source).GetOr(entries[i].source) == v
  {
    var all: seq<string> := [];
    volumes := [];
    var i := 0;
    while i < |entries|
      invariant 0 <= i <= |entries|
      invariant NoDup(all) && NoDup(volumes)
      invariant forall b :: b in all <==> exists k :: 0 <= k < i && IsBind(entries[k], b)
      invariant forall v :: v in volumes <==>
        exists k :: 0 <= k < i && entries[k].Volume? && entries[k].source != "" && entries[k].valid
               && Get(names, entries[k].source).GetOr(entries[k].source) == v
    {
      match entries[i] {
        case Bind(source, data) =>
          if "/" <= source && data && source !in all {
            all := all + [source];
          }
        case Volume(source, valid) =>
          var resolved := Get(names, source).GetOr(source);
          if source != "" && valid && resolved !in volumes {
            volumes := volumes + [resolved];
          }
        case Else =>
      }
      i := i + 1;
    }
    binds := [];
    var j := 0;
    while j < |all|
      invariant 0 <= j <= |all|
      invariant binds == Outermost(all[..j], all)
    {
      assert all[..j + 1][..j] == all[..j];
      if forall k :: 0 <= k < |all| ==> !Under(all[j], all[k]) {
        binds := binds + [all[j]];
      }
      j := j + 1;
    }
    assert all[..j] == all;
    collected := all;
  }

  // ---- coverage --------------------------------------------------------------------

  /** b is k, or lies inside it: archiving k archives b. */
  predicate Covers(k: string, b: string) {
    k == b || Under(b, k)
  }

  ghost predicate Covered(binds: seq<string>, b: string) {
    exists k :: k in Outermost(binds, binds) && Covers(k, b)
  }

  lemma CoversTransitive(k: string, o: string, b: string)
    requires Covers(k, o) && Covers(o, b)
    ensures Covers(k, b)
  {
    if k != o && o != b {
      StripShape(o);
      StripShape(k);
      var prefix := Strip(k) + "/";
      if |Strip(o)| >= |prefix| {
        assert prefix <= Strip(o) by {
          assert Strip(o) == o[..|Strip(o)|];
        }
      } else {
        assert Strip(k) <= o && Strip(o) <= o;
        assert |Strip(o)| <= |Strip(k)|;
        assert Strip(k) == o[..|Strip(k)|];
        if |Strip(o)| < |Strip(k)| {
          assert false;
        }
        assert Strip(o) == Strip(k);
      }
    }
  }

  /** How deep a path is; a trailing slash counts a little. */
  function Depth(p: string): nat {
    2 * |Strip(p)| + if |p| > |Strip(p)| then 1 else 0
  }

  lemma UnderDescends(b: string, o: string)
    requires Under(b, o)
    ensures Depth(o) < Depth(b) || Twins(b, o)
  {
    StripShape(b);
    StripShape(o);
    assert Strip(o) <= b && b[|Strip(o)|] == '/';
    if |Strip(b)| <= |Strip(o)| {
      assert Strip(o) == b[..|Strip(o)|];
      if |Strip(b)| < |Strip(o)| {
        assert false;
      }
      assert Strip(b) == Strip(o);
    }
  }

  /** Every twin lies inside some collected bind that is not its twin. */
  predicate TwinsSheltered(binds: seq<string>) {
    forall i, j :: 0 <= i < |binds| && 0 <= j < |binds| && Twins(binds[i], binds[j]) ==>
      exists k :: 0 <= k < |binds| && Under(binds[i], binds[k]) && !Twins(binds[i], binds[k])
  }

  lemma {:induction false} ShelteredIsCovered(binds: seq<string>, b: string)
    requires TwinsSheltered(binds) && b in binds
    ensures Covered(binds, b)
    decreases Depth(b)
  {
    OutermostMembers(binds, binds);
    if Keeps(binds, b) {
      assert b in Outermost(binds, binds) && Covers(b, b);
    } else {
      var k :| 0 <= k < |binds| && Under(b, binds[k]);
      var i :| 0 <= i < |binds| && binds[i] == b;
      if Twins(b, binds[k]) {
        assert Twins(binds[i], binds[k]);
        k :| 0 <= k < |binds| && Under(binds[i], binds[k]) && !Twins(binds[i], binds[k]);
      }
      UnderDescends(b, binds[k]);
      ShelteredIsCovered(binds, binds[k]);
      var top :| top in Outermost(binds, binds) && Covers(top, binds[k]);
      CoversTransitive(top, binds[k], b);
    }
  }

  /** Nothing collected is lost, exactly when no pair of twins is left to drop each other. */
  lemma EveryBindIsArchived(binds: seq<string>)
    ensures (forall b :: b in binds ==> Covered(binds, b)) <==> TwinsSheltered(binds)
  {
    OutermostMembers(binds, binds);
    if TwinsSheltered(binds) {
      forall b | b in binds ensures Covered(binds, b) {
        ShelteredIsCovered(binds, b);
      }
    }
    if forall b :: b in binds ==> Covered(binds, b) {
      forall i, j | 0 <= i < |binds| && 0 <= j < |binds| && Twins(binds[i], binds[j])
        ensures exists k :: 0 <= k < |binds| && Under(binds[i], binds[k]) && !Twins(binds[i], binds[k])
      {
        var b := binds[i];
        TwinsAreUnderEachOther(b, binds[j]);
        assert !Keeps(binds, b) && Covered(binds, b);
        var top :| top in Outermost(binds, binds) && Covers(top, b);
        var k :| 0 <= k < |binds| && binds[k] == top;
        if Twins(b, top) {
          TwinsAreUnderEachOther(top, b);
          assert false;
        }
      }
    }
  }

  lemma TwinsAreUnderEachOther(b: string, o: string)
    requires Twins(b, o)
    ensures Under(b, o)
  {
    StripShape(b);
    assert Strip(o) + "/" == b[..|Strip(b)| + 1];
  }

  /** Absolute and free of trailing slashes, except the root. */
  predicate Normal(p: string) {
    "/" <= p && (p == "/" || p[|p| - 1] != '/')
  }

  /** On normalised paths nothing is lost, and no kept bind lies inside another. */
  lemma NormalBindsAreArchived(binds: seq<string>)
    requires forall i :: 0 <= i < |binds| ==> Normal(binds[i])
    ensures forall b :: b in binds ==> Covered(binds, b)
    ensures forall x, y :: x in Outermost(binds, binds) && y in Outermost(binds, binds) ==> !Under(x, y)
  {
    forall i, j | 0 <= i < |binds| && 0 <= j < |binds|
      ensures !Twins(binds[i], binds[j])
    {
      assert binds[i] != "/" ==> Strip(binds[i]) == binds[i];
      assert binds[j] != "/" ==> Strip(binds[j]) == binds[j];
    }
    EveryBindIsArchived(binds);
    OutermostMembers(binds, binds);
  }

  // ---- path components ------------------------------------------------------------------

  /** What stands between the slashes. */
  function Parts(s: string): (parts: seq<string>)
    ensures parts != []
  {
    if s == "" then [""]
    else
      var rest := Parts(s[1..]);
      if s[0] == '/' then [""] + rest else [[s[0]] + rest[0]] + rest[1..]
  }

  /** The components of an absolute path; the root has none. */
  function Components(p: string): seq<string> {
    if p == "" || p == "/" then [] else Parts(p[1..])
  }

  ghost predicate ProperPrefix(a: seq<string>, b: seq<string>) {
    |a| < |b| && b[..|a|] == a
  }

  lemma {:induction false} PartsNest(o: string, b: string)
    ensures ProperPrefix(Parts(o), Parts(b)) <==> o + "/" <= b
  {
    if o == "" {
      if b != "" {
        assert Parts(b)[0] == "" <==> b[0] == '/';
      }
    } else if b != "" && o[0] == b[0] {
      PartsNest(o[1..], b[1..]);
      HeadsNest(o[0], Parts(o[1..]), Parts(b[1..]));
      assert o + "/" == [o[0]] + (o[1..] + "/") && b == [b[0]] + b[1..];
      assert o + "/" <= b <==> o[1..] + "/" <= b[1..];
    } else if b != "" {
      HeadsDiffer(o, b);
    }
  }

  /** One more character in front of both, or a slash, keeps how two lists of parts nest. */
  lemma HeadsNest(c: char, a: seq<string>, b: seq<string>)
    requires a != [] && b != []
    ensures ProperPrefix([""] + a, [""] + b) <==> ProperPrefix(a, b)
    ensures ProperPrefix([[c] + a[0]] + a[1..], [[c] + b[0]] + b[1..]) <==> ProperPrefix(a, b)
  {
    ConsNest("", a, "", b);
    ConsNest(a[0], a[1..], b[0], b[1..]);
    ConsNest([c] + a[0], a[1..], [c] + b[0], b[1..]);
    assert a == [a[0]] + a[1..] && b == [b[0]] + b[1..];
    assert ([c] + a[0])[1..] == a[0] && ([c] + b[0])[1..] == b[0];
  }

  lemma ConsNest(x: string, a: seq<string>, y: string, b: seq<string>)
    ensures ProperPrefix([x] + a, [y] + b) <==> x == y && ProperPrefix(a, b)
  {
    if |a| < |b| {
      assert ([y] + b)[..|a| + 1] == [y] + b[..|a|];
      assert ([x] + a)[0] == x && ([x] + a)[1..] == a && ([y] + b[..|a|])[0] == y && ([y] + b[..|a|])[1..] == b[..|a|];
    }
  }

  lemma HeadsDiffer(o: string, b: string)
    requires o != "" && b != "" && o[0] != b[0]
    ensures Parts(o)[0] != Parts(b)[0]
  {
    assert o[0] != '/' ==> Parts(o)[0] != "" && Parts(o)[0][0] == o[0];
    assert b[0] != '/' ==> Parts(b)[0] != "" && Parts(b)[0][0] == b[0];
  }

  /** On normalised paths, lying inside means having all the other's components, in order, and more. */
  lemma UnderMeansNested(b: string, o: string)
    requires Normal(b) && Normal(o)
    ensures Under(b, o) <==> ProperPrefix(Components(o), Components(b))
  {
    if o == "/" {
      assert Strip(o) == "";
    } else {
      assert Strip(o) == o && o == "/" + o[1..] && b == "/" + b[1..];
      PartsNest(o[1..], b[1..]);
      assert o + "/" == "/" + (o[1..] + "/");
      assert o + "/" <= b <==> o[1..] + "/" <= b[1..];
    }
  }

  /** Two spellings with trailing slashes drop each other, and nothing is archived. */
  lemma TwinsVanish()
    ensures Outermost(["/a/", "/a//"], ["/a/", "/a//"]) == []
  {
    assert Strip("/a/") == Strip("/a") == "/a";
    assert Strip("/a//") == Strip("/a/");
    TwinsAreUnderEachOther("/a/", "/a//");
    TwinsAreUnderEachOther("/a//", "/a/");
    var binds := ["/a/", "/a//"];
    assert !Keeps(binds, binds[1]) by { assert Under(binds[1], binds[0]); }
    assert !Keeps(binds, binds[0]) by { assert Under(binds[0], binds[1]); }
    assert binds[..1][0] == binds[0] && binds[..1][..0] == [];
    assert Outermost(binds[..1], binds) == [];
  }
}
