/**
 Which checks a disk trips (hub/alerts.py, `_smart_reasons`), and what a changing
 temperature does to its alerts.  Numbers are the ones already parsed out of smartctl's
 text; None is a field with no number in it.
 */
module SmartReasons {
  import opened Options
  import opened Text
  import opened AlertState
  import D = SmartAlerts

  datatype Attr = Attr(preFail: bool, name: string, value: Option<real>, thresh: Option<real>)

  datatype Smart = Smart(
    health: string,
    mediaErrors: Option<real>,
    pending: Option<real>,
    attrs: seq<Attr>,
    reallocated: Option<real>,
    criticalText: string,
    critical: Option<real>,
    temp: Option<real>,
    wear: Option<real>,
    spare: Option<real>)

  datatype Limits = Limits(temp: Option<real>, wear: Option<real>, spare: Option<real>)

  // ---- rendering ---------------------------------------------------------------------

  /** Nearest whole number, ties to even. */
  function Nearest(x: real): nat
    requires x >= 0.0
  {
    var below := x.Floor;
    var rest := x - below as real;
    if rest < 0.5 || (rest == 0.5 && below % 2 == 0) then below else below + 1
  }

  /** "{:.0f}" */
  function Show(x: real): string {
    if x < 0.0 then "-" + Decimal(Nearest(-x)) else Decimal(Nearest(x))
  }

  function UpperChar(c: char): char {
    if 'a' <= c <= 'z' then ((c as int) - 32) as char else c
  }

  function Upper(s: string): string {
    if s == "" then "" else [UpperChar(s[0])] + Upper(s[1..])
  }

  /** rstrip("!") */
  function Unbanged(s: string): string {
    if s != "" && s[|s| - 1] == '!' then Unbanged(s[..|s| - 1]) else s
  }

  predicate BadVerdict(health: string) {
    health != "" && Unbanged(Upper(health)) != "PASSED" && Unbanged(Upper(health)) != "OK"
  }

  predicate Positive(x: Option<real>) {
    x.Some? && x.value > 0.0
  }

  /** The vendor's own failure point has been reached; a threshold of zero declares none. */
  predicate Crossed(a: Attr) {
    a.preFail && a.value.Some? && a.thresh.Some? && a.thresh.value > 0.0 && a.value.value <= a.thresh.value
  }

  predicate AtLeast(x: Option<real>, limit: Option<real>) {
    x.Some? && limit.Some? && x.value >= limit.value
  }

  predicate AtMost(x: Option<real>, limit: Option<real>) {
    x.Some? && limit.Some? && x.value <= limit.value
  }

  // ---- the two lists -------------------------------------------------------------------

  function CountTokens(what: string, count: Option<real>): seq<string> {
    if Positive(count) then [what + Show(count.value)] else []
  }

  function PrefailToken(a: Attr): string
    requires a.value.Some? && a.thresh.Some?
  {
    a.name + " below vendor threshold (" + Show(a.value.value) + "\U{2264}" + Show(a.thresh.value) + ")"
  }

  function PrefailTokens(attrs: seq<Attr>): seq<string> {
    if attrs == [] then []
    else
      var a := attrs[|attrs| - 1];
      PrefailTokens(attrs[..|attrs| - 1]) + if Crossed(a) then [PrefailToken(a)] else []
  }

  function VerdictTokens(s: Smart): seq<string> {
    if BadVerdict(s.health) then ["health=" + s.health] else []
  }

  function CriticalTokens(s: Smart): seq<string> {
    if Positive(s.critical) then ["critical warning=" + s.criticalText] else []
  }

  function Fatal(s: Smart): seq<string> {
    VerdictTokens(s) + CountTokens("media errors=", s.mediaErrors) + CountTokens("pending sectors=", s.pending)
    + PrefailTokens(s.attrs) + CriticalTokens(s)
  }

  function TempToken(v: real, limit: real): string {
    "temp=" + Show(v) + "C" + ("\U{2265}" + Show(limit) + "C")
  }

  function TempTokens(v: Option<real>, limit: Option<real>): seq<string> {
    if AtLeast(v, limit) then [TempToken(v.value, limit.value)] else []
  }

  function ReallocatedTokens(s: Smart): seq<string> {
    CountTokens("reallocated sectors=", s.reallocated)
  }

  function WearTokens(s: Smart, th: Limits): seq<string> {
    (if AtLeast(s.wear, th.wear) then ["wear=" + Show(s.wear.value) + "%\U{2265}" + Show(th.wear.value) + "%"] else [])
    + (if AtMost(s.spare, th.spare) then ["spare=" + Show(s.spare.value) + "%\U{2264}" + Show(th.spare.value) + "%"] else [])
  }

  function Soft(s: Smart, th: Limits): seq<string> {
    ReallocatedTokens(s) + TempTokens(s.temp, th.temp) + WearTokens(s, th)
  }

  /** The attribute table: every pre-fail attribute at or below its vendor threshold. */
  method CrossedAttributes(attrs: seq<Attr>) returns (tokens: seq<string>)
    ensures tokens == PrefailTokens(attrs)
  {
    tokens := [];
    var i := 0;
    while i < |attrs|
      invariant 0 <= i <= |attrs| && tokens == PrefailTokens(attrs[..i])
    {
      assert attrs[..i + 1][..i] == attrs[..i];
      var a := attrs[i];
      if a.preFail && a.value.Some? && a.thresh.Some? && a.thresh.value > 0.0 {
        if a.value.value <= a.thresh.value {
          tokens := tokens + [PrefailToken(a)];
        }
      }
      i := i + 1;
    }
    assert attrs[..i] == attrs;
  }

  /** `_smart_reasons`: the tripped checks in order, fatal and soft. */
  method Reasons(s: Smart, th: Limits) returns (down: seq<string>, warn: seq<string>)
    ensures down == Fatal(s) && warn == Soft(s, th)
  {
    down := VerdictTokens(s);
    down := down + CountTokens("media errors=", s.mediaErrors);
    down := down + CountTokens("pending sectors=", s.pending);
    var crossed := CrossedAttributes(s.attrs);
    down := down + crossed;
    warn := CountTokens("reallocated sectors=", s.reallocated);
    down := down + CriticalTokens(s);
    warn := warn + TempTokens(s.temp, th.temp);
    warn := warn + WearTokens(s, th);
  }

  // ---- severity ----------------------------------------------------------------------------

  lemma {:induction false} PrefailIff(attrs: seq<Attr>)
    ensures PrefailTokens(attrs) != [] <==> exists i :: 0 <= i < |attrs| && Crossed(attrs[i])
  {
    if attrs != [] {
      var n := |attrs| - 1;
      PrefailIff(attrs[..n]);
      if i :| 0 <= i < n && Crossed(attrs[..n][i]) {
        assert Crossed(attrs[i]);
      }
      if i :| 0 <= i < |attrs| && Crossed(attrs[i]) {
        if i < n {
          assert Crossed(attrs[..n][i]);
        }
      }
    }
  }

  /** The verdict is a passing word in any letter case, with any number of exclamation marks. */
  ghost predicate Passing(health: string) {
    exists n: nat :: PassingUpTo(health, n)
  }

  predicate PassingUpTo(health: string, n: nat) {
    && n <= |health| && (forall i :: n <= i < |health| ==> health[i] == '!')
    && (InCapitals(health[..n], "PASSED") || InCapitals(health[..n], "OK"))
  }

  predicate InCapitals(s: string, word: string) {
    |s| == |word| && forall i :: 0 <= i < |s| ==>
      s[i] == word[i] || (97 <= s[i] as int <= 122 && s[i] as int - 32 == word[i] as int)
  }

  lemma {:induction false} UpperAt(s: string)
    ensures |Upper(s)| == |s| && forall i :: 0 <= i < |s| ==> Upper(s)[i] == UpperChar(s[i])
  {
    if s != "" {
      UpperAt(s[1..]);
      assert forall i :: 0 < i < |s| ==> Upper(s)[i] == Upper(s[1..])[i - 1] && s[i] == s[1..][i - 1];
    }
  }

  lemma UpperIs(s: string, word: string)
    requires forall i :: 0 <= i < |word| ==> 65 <= word[i] as int <= 90
    ensures Upper(s) == word <==> InCapitals(s, word)
  {
    UpperAt(s);
    if |s| == |word| {
      forall i | 0 <= i < |s|
        ensures Upper(s)[i] == word[i] <==> s[i] == word[i] || (97 <= s[i] as int <= 122 && s[i] as int - 32 == word[i] as int)
      {
      }
    }
  }

  lemma UpperOfPrefix(s: string, n: nat)
    requires n <= |s|
    ensures |Upper(s)| == |s| && Upper(s)[..n] == Upper(s[..n])
    ensures forall i :: 0 <= i < |s| ==> (Upper(s)[i] == '!' <==> s[i] == '!')
  {
    UpperAt(s);
    UpperAt(s[..n]);
  }

  lemma {:induction false} UnbangedMeans(s: string)
    ensures Unbanged(s) <= s && (Unbanged(s) == "" || Unbanged(s)[|Unbanged(s)| - 1] != '!')
    ensures forall i :: |Unbanged(s)| <= i < |s| ==> s[i] == '!'
  {
    if s != "" && s[|s| - 1] == '!' {
      UnbangedMeans(s[..|s| - 1]);
    }
  }

  lemma {:induction false} UnbangedIs(s: string, m: nat)
    requires 0 < m <= |s| && s[m - 1] != '!' && forall i :: m <= i < |s| ==> s[i] == '!'
    ensures Unbanged(s) == s[..m]
  {
    if m < |s| {
      UnbangedIs(s[..|s| - 1], m);
      assert s[..|s| - 1][..m] == s[..m];
    }
  }

  lemma VerdictMeans(health: string)
    ensures BadVerdict(health) <==> health != "" && !Passing(health)
  {
    var upper := Upper(health);
    var n := |Unbanged(upper)|;
    UpperAt(health);
    UnbangedMeans(upper);
    UpperOfPrefix(health, n);
    UpperIs(health[..n], "PASSED");
    UpperIs(health[..n], "OK");
    assert Unbanged(upper) == Upper(health[..n]);
    forall m: nat | PassingUpTo(health, m)
      ensures m == n
    {
      assert m > 0 && health[m - 1] != '!';
      UnbangedIs(upper, m);
    }
    assert PassingUpTo(health, n) <==> Unbanged(upper) == "PASSED" || Unbanged(upper) == "OK";
  }

  /** What makes a disk fatal, and what is only worth watching: a raw reallocation count never is fatal. */
  lemma SeverityIff(s: Smart, th: Limits)
    ensures Fatal(s) != [] <==>
      || (s.health != "" && !Passing(s.health))
      || (s.mediaErrors.Some? && s.mediaErrors.value > 0.0)
      || (s.pending.Some? && s.pending.value > 0.0)
      || (s.critical.Some? && s.critical.value > 0.0)
      || exists a :: a in s.attrs && a.preFail && a.value.Some? && a.thresh.Some? && 0.0 < a.thresh.value
                     && a.value.value <= a.thresh.value
    ensures Soft(s, th) != [] <==>
      || (s.reallocated.Some? && s.reallocated.value > 0.0)
      || (s.temp.Some? && th.temp.Some? && s.temp.value >= th.temp.value)
      || (s.wear.Some? && th.wear.Some? && s.wear.value >= th.wear.value)
      || (s.spare.Some? && th.spare.Some? && s.spare.value <= th.spare.value)
  {
    PrefailIff(s.attrs);
    VerdictMeans(s.health);
    if i :| 0 <= i < |s.attrs| && Crossed(s.attrs[i]) {
      assert s.attrs[i] in s.attrs;
    }
  }

  /** A number is shown as the nearest whole one, an even one when two are as near. */
  lemma ShowMeans(x: real)
    ensures x < 0.0 ==> exists n: nat :: NearestTo(-x, n) && Show(x) == "-" + Decimal(n)
    ensures x >= 0.0 ==> exists n: nat :: NearestTo(x, n) && Show(x) == Decimal(n)
  {
    if x < 0.0 {
      NearestIsNear(-x);
      assert NearestTo(-x, Nearest(-x)) && Show(x) == "-" + Decimal(Nearest(-x));
    } else {
      NearestIsNear(x);
    }
  }

  lemma NearestIsNear(x: real)
    requires x >= 0.0
    ensures NearestTo(x, Nearest(x))
  {
    var below := x.Floor;
    assert 0.0 <= x - below as real < 1.0;
    assert (below + 1) as real == below as real + 1.0;
  }

  predicate NearestTo(x: real, n: nat) {
    -0.5 <= n as real - x <= 0.5 && (n as real - x == 0.5 || n as real - x == -0.5 ==> n % 2 == 0)
  }

  /** The wording of each check. */
  lemma FatalTexts(s: Smart, t: string)
    ensures t in Fatal(s) <==>
      || (s.health != "" && !Passing(s.health) && t == "health=" + s.health)
      || (s.mediaErrors.Some? && s.mediaErrors.value > 0.0 && t == "media errors=" + Show(s.mediaErrors.value))
      || (s.pending.Some? && s.pending.value > 0.0 && t == "pending sectors=" + Show(s.pending.value))
      || (s.critical.Some? && s.critical.value > 0.0 && t == "critical warning=" + s.criticalText)
      || exists a :: a in s.attrs && a.preFail && a.value.Some? && a.thresh.Some? && 0.0 < a.thresh.value
                     && a.value.value <= a.thresh.value
                     && t == a.name + " below vendor threshold (" + Show(a.value.value) + "\U{2264}" + Show(a.thresh.value) + ")"
  {
    VerdictMeans(s.health);
    PrefailTexts(s.attrs, t);
  }

  lemma {:induction false} PrefailTexts(attrs: seq<Attr>, t: string)
    ensures t in PrefailTokens(attrs) <==> exists a :: a in attrs && Crossed(a) && t == PrefailToken(a)
  {
    if attrs != [] {
      var n := |attrs| - 1;
      PrefailTexts(attrs[..n], t);
      assert attrs == attrs[..n] + [attrs[n]];
    }
  }

  lemma SoftTexts(s: Smart, th: Limits, t: string)
    ensures t in Soft(s, th) <==>
      || (s.reallocated.Some? && s.reallocated.value > 0.0 && t == "reallocated sectors=" + Show(s.reallocated.value))
      || (s.temp.Some? && th.temp.Some? && s.temp.value >= th.temp.value
          && t == "temp=" + Show(s.temp.value) + "C" + ("\U{2265}" + Show(th.temp.value) + "C"))
      || (s.wear.Some? && th.wear.Some? && s.wear.value >= th.wear.value
          && t == "wear=" + Show(s.wear.value) + "%\U{2265}" + Show(th.wear.value) + "%")
      || (s.spare.Some? && th.spare.Some? && s.spare.value <= th.spare.value
          && t == "spare=" + Show(s.spare.value) + "%\U{2264}" + Show(th.spare.value) + "%")
  {
  }

  // ---- a temperature that moves ----------------------------------------------------------------

  lemma OnlyTemperatureIsRewritten(token: string)
    requires token != "" && token[0] != 't'
    ensures D.Stable(token) == token
  {
  }

  lemma StablesConcat(a: seq<string>, b: seq<string>)
    ensures D.Stables(a + b) == D.Stables(a) + D.Stables(b)
  {
  }

  /** The stable form of a temperature: without its reading, unless that is below zero. */
  lemma StableTemperature(v: real, limit: real)
    ensures var rest := "\U{2265}" + Show(limit) + "C";
      D.Stable(TempToken(v, limit)) == if v < 0.0 then "temp=" + Show(v) + "C" + rest else "temp" + rest
  {
    var rest := "\U{2265}" + Show(limit) + "C";
    if v < 0.0 {
      assert TempToken(v, limit)[5..][0] == '-';
    } else {
      assert D.Digits(Show(v)) by {
        assert AllDigits(Show(v)) && Show(v) != "";
      }
      D.TemperatureToken(Show(v), rest);
    }
  }

  /** Two readings are the same news exactly when neither is below zero, or they print alike. */
  lemma SameTemperatureNews(v: real, w: real, limit: real)
    ensures D.Stable(TempToken(v, limit)) == D.Stable(TempToken(w, limit)) <==>
            (v >= 0.0 && w >= 0.0) || Show(v) == Show(w)
  {
    StableTemperature(v, limit);
    StableTemperature(w, limit);
    var rest := "\U{2265}" + Show(limit) + "C";
    assert Show(v)[0] == '-' <==> v < 0.0;
    assert Show(w)[0] == '-' <==> w < 0.0;
    if v < 0.0 && w < 0.0 {
      TokenHoldsReading(Show(v), Show(w), rest);
    } else if v < 0.0 || w < 0.0 {
      assert ("temp" + rest)[4] == '\U{2265}';
      assert ("temp=" + Show(v) + "C" + rest)[4] == '=' && ("temp=" + Show(w) + "C" + rest)[4] == '=';
    }
  }

  lemma TokenHoldsReading(x: string, y: string, rest: string)
    ensures "temp=" + x + "C" + rest == "temp=" + y + "C" + rest ==> x == y
  {
    var s, t := "temp=" + x + "C" + rest, "temp=" + y + "C" + rest;
    assert s[5..5 + |x|] == x && t[5..5 + |y|] == y;
  }

  /** Tokens of the other soft checks start differently. */
  lemma OtherTokens(s: Smart, th: Limits, t: string)
    requires t in ReallocatedTokens(s) || t in WearTokens(s, th)
    ensures t != "" && t[0] != 't' && D.Stable(t) == t
  {
    assert t[0] in {'r', 'w', 's'};
    OnlyTemperatureIsRewritten(t);
  }

  lemma StableOthers(s: Smart, th: Limits)
    ensures D.Stables(ReallocatedTokens(s)) == ReallocatedTokens(s) && D.Stables(WearTokens(s, th)) == WearTokens(s, th)
    ensures forall t :: t in ReallocatedTokens(s) || t in WearTokens(s, th) ==> t != "" && t[0] != 't'
  {
    forall t | t in ReallocatedTokens(s) || t in WearTokens(s, th)
      ensures t != "" && t[0] != 't' && D.Stable(t) == t
    {
      OtherTokens(s, th, t);
    }
  }

  /** The stable soft tokens: those of the other checks, and the temperature's. */
  lemma StableSoft(s: Smart, th: Limits, t: string)
    ensures t in D.Stables(Soft(s, th)) <==>
      || t in ReallocatedTokens(s) || t in WearTokens(s, th)
      || (AtLeast(s.temp, th.temp) && t == D.Stable(TempToken(s.temp.value, th.temp.value)))
  {
    StableOthers(s, th);
    StablesConcat(ReallocatedTokens(s) + TempTokens(s.temp, th.temp), WearTokens(s, th));
    StablesConcat(ReallocatedTokens(s), TempTokens(s.temp, th.temp));
    if AtLeast(s.temp, th.temp) {
      assert D.Stables(TempTokens(s.temp, th.temp)) == [D.Stable(TempToken(s.temp.value, th.temp.value))];
    }
  }

  /** One reading of the disk, as the alert loop sees it. */
  predicate Reads(p: D.Probe, s: Smart, th: Limits) {
    p.Read? && p.down == Fatal(s) && p.warn == Soft(s, th)
  }

  lemma StartsWithT(v: real, limit: real)
    ensures D.Stable(TempToken(v, limit)) != "" && D.Stable(TempToken(v, limit))[0] == 't'
  {
    StableTemperature(v, limit);
  }

  /**
   A disk at the soft level whose readings differ from the last ones in temperature only:
   it pages exactly when the temperature newly reaches its limit, or when it is printed
   differently and one of the two readings is below zero, where the reading is not dropped.
   */
  lemma TemperatureAlone(h: D.History, n: nat, a: Smart, b: Smart, th: Limits)
    requires 1 <= n < |h| && D.DotFree(h[..n]) && Reads(h[n - 1], a, th) && Reads(h[n], b, th)
    requires b == a.(temp := b.temp) && Fatal(a) == [] && Soft(a, th) != [] && Soft(b, th) != []
    ensures D.EventAt(h, n) == Some(Problem(Warn)) <==>
      && AtLeast(b.temp, th.temp)
      && (AtLeast(a.temp, th.temp) ==>
            (a.temp.value < 0.0 || b.temp.value < 0.0) && Show(a.temp.value) != Show(b.temp.value))
  {
    D.WarnFiresOnNewsOnly(h, n);
    StableOthers(a, th);
    assert ReallocatedTokens(a) == ReallocatedTokens(b) && WearTokens(a, th) == WearTokens(b, th);
    forall t
      ensures t in D.Stables(Soft(a, th)) <==>
        || t in ReallocatedTokens(a) || t in WearTokens(a, th)
        || (AtLeast(a.temp, th.temp) && t == D.Stable(TempToken(a.temp.value, th.temp.value)))
      ensures t in D.Stables(Soft(b, th)) <==>
        || t in ReallocatedTokens(a) || t in WearTokens(a, th)
        || (AtLeast(b.temp, th.temp) && t == D.Stable(TempToken(b.temp.value, th.temp.value)))
    {
      StableSoft(a, th, t);
      StableSoft(b, th, t);
    }
    if AtLeast(b.temp, th.temp) {
      StartsWithT(b.temp.value, th.temp.value);
      if AtLeast(a.temp, th.temp) {
        SameTemperatureNews(a.temp.value, b.temp.value, th.temp.value);
      }
      assert D.Stable(TempToken(b.temp.value, th.temp.value)) in D.Stables(Soft(b, th));
    }
  }

  /** A disk of which only the temperature is known. */
  function Only(temp: real): Smart {
    Smart("", None, None, [], None, "", None, Some(temp), None, None)
  }

  function Reading(s: Smart, th: Limits): D.Probe {
    D.Read(0, 0, Fatal(s), Soft(s, th))
  }

  /** Below zero the deduplication does not see the reading: one degree more pages again. */
  lemma BelowZeroPagesAgain()
    ensures var th := Limits(Some(-10.0), None, None);
      D.EventAt([Reading(Only(-6.0), th), Reading(Only(-5.0), th)], 1) == Some(Problem(Warn))
  {
    var th := Limits(Some(-10.0), None, None);
    var a, b := Only(-6.0), Only(-5.0);
    var h := [Reading(a, th), Reading(b, th)];
    assert Soft(a, th) == [TempToken(-6.0, -10.0)] && Soft(b, th) == [TempToken(-5.0, -10.0)];
    assert Fatal(a) == [] && Fatal(b) == [];
    SixAndFive();
    ColdTokenIsDotFree();
    assert h[..1] == [h[0]];
    TemperatureAlone(h, 1, a, b, th);
  }

  lemma SixAndFive()
    ensures Show(-6.0) == "-6" && Show(-5.0) == "-5" && Show(-10.0) == "-10"
  {
    assert Nearest(6.0) == 6 && Nearest(5.0) == 5 && Nearest(10.0) == 10;
    assert Decimal(1) == "1" && Decimal(10) == Decimal(1) + "0";
  }

  lemma ColdTokenIsDotFree()
    ensures Lacks(TempToken(-6.0, -10.0), D.DOT)
  {
    SixAndFive();
    assert TempToken(-6.0, -10.0) == "temp=-6C\U{2265}-10C";
  }
}
