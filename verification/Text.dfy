/** Text helpers shared by several modules. */
module Text {
  import opened Options

  predicate Lacks(s: string, c: char) {
    forall i :: 0 <= i < |s| ==> s[i] != c
  }

  /** Index of the first occurrence of a nonempty `sep`. */
  function Find(s: string, sep: string): Option<nat>
    requires sep != ""
  {
    if s == "" then None
    else if sep <= s then Some(0)
    else
      match Find(s[1..], sep)
      case None => None
      case Some(i) => Some(i + 1)
  }

  lemma {:induction false} FindBound(s: string, sep: string)
    requires sep != ""
    ensures Find(s, sep).Some? ==> Find(s, sep).value + |sep| <= |s|
  {
    if s != "" && !(sep <= s) {
      FindBound(s[1..], sep);
    }
  }

  /** Splits at every occurrence, left to right; always at least one part. */
  function Split(s: string, sep: string): (parts: seq<string>)
    requires sep != ""
    ensures parts != []
    decreases |s|
  {
    FindBound(s, sep);
    match Find(s, sep)
    case None => [s]
    case Some(i) => [s[..i]] + Split(s[i + |sep|..], sep)
  }

  function Join(parts: seq<string>, sep: string): string {
    if |parts| == 0 then ""
    else if |parts| == 1 then parts[0]
    else parts[0] + sep + Join(parts[1..], sep)
  }

  /** In a text that starts with `t`, a separator whose second character is not in `t` is found after it. */
  lemma {:induction false} FindAfter(t: string, sep: string, rest: string)
    requires |sep| >= 2 && sep[0] != sep[1] && Lacks(t, sep[1])
    ensures Find(t + sep + rest, sep) == Some(|t|)
  {
    var s := t + sep + rest;
    if t == "" {
      assert s == sep + rest;
    } else {
      assert s[1] != sep[1] by {
        if |t| == 1 { assert s[1] == sep[0]; } else { assert s[1] == t[1]; }
      }
      assert !(sep <= s);
      assert s[1..] == t[1..] + sep + rest;
      FindAfter(t[1..], sep, rest);
    }
  }

  lemma {:induction false} FindNothing(t: string, sep: string)
    requires |sep| >= 2 && Lacks(t, sep[1])
    ensures Find(t, sep) == None
  {
    if t != "" {
      assert |t| >= |sep| ==> t[1] != sep[1];
      FindNothing(t[1..], sep);
    }
  }

  /** Reading back what Join stored, for parts free of the separator's middle character. */
  lemma {:induction false} SplitJoin(parts: seq<string>, sep: string)
    requires |sep| >= 2 && sep[0] != sep[1]
    requires parts != [] && forall i :: 0 <= i < |parts| ==> Lacks(parts[i], sep[1])
    ensures Split(Join(parts, sep), sep) == parts
  {
    if |parts| == 1 {
      FindNothing(parts[0], sep);
    } else {
      var rest := Join(parts[1..], sep);
      FindAfter(parts[0], sep, rest);
      var s := parts[0] + sep + rest;
      assert s[..|parts[0]|] == parts[0];
      assert s[|parts[0]| + |sep|..] == rest;
      SplitJoin(parts[1..], sep);
    }
  }

  // ---- decimal numerals ----------------------------------------------------------

  predicate IsDigit(c: char) {
    '0' <= c <= '9'
  }

  predicate AllDigits(s: string) {
    forall i :: 0 <= i < |s| ==> IsDigit(s[i])
  }

  function DigitValue(c: char): (d: nat)
    requires IsDigit(c)
    ensures d < 10
  {
    (c as int) - ('0' as int)
  }

  function Digit(d: nat): (c: char)
    requires d < 10
    ensures IsDigit(c) && DigitValue(c) == d
  {
    ['0', '1', '2', '3', '4', '5', '6', '7', '8', '9'][d]
  }

  /** The number a digit string reads as. */
  function Num(s: string): nat
    requires AllDigits(s)
  {
    if s == "" then 0 else 10 * Num(s[..|s| - 1]) + DigitValue(s[|s| - 1])
  }

  /** str() of a natural number. */
  function Decimal(n: nat): (s: string)
    ensures s != "" && AllDigits(s)
  {
    if n < 10 then [Digit(n)] else Decimal(n / 10) + [Digit(n % 10)]
  }

  lemma {:induction false} DecimalReadsBack(n: nat)
    ensures Num(Decimal(n)) == n
  {
    if n >= 10 {
      DecimalReadsBack(n / 10);
      assert Decimal(n)[..|Decimal(n)| - 1] == Decimal(n / 10);
    } else {
      assert Decimal(n)[..0] == "";
    }
  }

  /** str() of an integer. */
  function Str(n: int): string {
    if n < 0 then "-" + Decimal(-n) else Decimal(n)
  }

  lemma DecimalInjective(a: nat, b: nat)
    ensures Decimal(a) == Decimal(b) ==> a == b
  {
    DecimalReadsBack(a);
    DecimalReadsBack(b);
  }

  /** What an integer prints as: a sign when it is negative, and digits. */
  lemma StrShape(n: int)
    ensures Str(n) != "" && (Str(n)[0] == '-' <==> n < 0)
    ensures if n < 0 then Str(n)[1..] == Decimal(-n) else Str(n) == Decimal(n)
    ensures forall i :: 0 <= i < |Str(n)| ==> IsDigit(Str(n)[i]) || Str(n)[i] == '-'
  {
    var d := Decimal(if n < 0 then -n else n);
    assert AllDigits(d) && d != "" && IsDigit(d[0]);
  }

  /** Different integers print differently. */
  lemma StrInjective(a: int, b: int)
    ensures Str(a) == Str(b) ==> a == b
  {
    StrShape(a);
    StrShape(b);
    if a < 0 && b < 0 {
      DecimalInjective(-a, -b);
    } else if a >= 0 && b >= 0 {
      DecimalInjective(a, b);
    }
  }

  /** Different integers print differently, with no separator inside. */
  lemma StrFacts(a: int, b: int)
    ensures Str(a) == Str(b) ==> a == b
    ensures forall i :: 0 <= i < |Str(a)| ==> IsDigit(Str(a)[i]) || Str(a)[i] == '-'
    ensures Str(a) != ""
  {
    StrShape(a);
    StrInjective(a, b);
  }

  // ---- white space ---------------------------------------------------------------

  /** The characters str.strip() removes. */
  predicate IsSpace(c: char) {
    var n := c as int;
    || 0x09 <= n <= 0x0D || 0x1C <= n <= 0x20 || n == 0x85 || n == 0xA0 || n == 0x1680
    || 0x2000 <= n <= 0x200A || n == 0x2028 || n == 0x2029 || n == 0x202F || n == 0x205F || n == 0x3000
  }

  /** Neither end is white space. */
  predicate Trimmed(s: string) {
    s == "" || (!IsSpace(s[0]) && !IsSpace(s[|s| - 1]))
  }

  function Strip(s: string): (r: string)
    ensures Trimmed(r)
    ensures Trimmed(s) ==> r == s
  {
    if s == "" then ""
    else if IsSpace(s[0]) then Strip(s[1..])
    else if IsSpace(s[|s| - 1]) then Strip(s[..|s| - 1])
    else s
  }

  predicate AllSpace(s: string) {
    forall i :: 0 <= i < |s| ==> IsSpace(s[i])
  }

  /** White space, a text, white space. */
  predicate Padded(s: string, before: string, middle: string, after: string) {
    s == before + middle + after && AllSpace(before) && AllSpace(after)
  }

  /** What strip() takes away is white space at the ends. */
  lemma {:induction false} StripMeans(s: string) returns (before: string, after: string)
    ensures Padded(s, before, Strip(s), after)
    decreases |s|
  {
    if s != "" && IsSpace(s[0]) {
      before, after := StripMeans(s[1..]);
      PadFront(s, before, Strip(s), after);
      before := [s[0]] + before;
    } else if s != "" && IsSpace(s[|s| - 1]) {
      before, after := StripMeans(s[..|s| - 1]);
      PadBack(s, before, Strip(s), after);
      after := after + [s[|s| - 1]];
    } else {
      before, after := "", "";
    }
  }

  lemma PadFront(s: string, b: string, m: string, a: string)
    requires s != "" && IsSpace(s[0]) && Padded(s[1..], b, m, a)
    ensures Padded(s, [s[0]] + b, m, a)
  {
    assert s == [s[0]] + s[1..];
  }

  lemma PadBack(s: string, b: string, m: string, a: string)
    requires s != "" && IsSpace(s[|s| - 1]) && Padded(s[..|s| - 1], b, m, a)
    ensures Padded(s, b, m, a + [s[|s| - 1]])
  {
    assert s == s[..|s| - 1] + [s[|s| - 1]];
  }

  // ---- lexicographic order -------------------------------------------------------

  /** Text order by code point, as sorting compares names. */
  predicate LexLe(a: string, b: string) {
    a == "" || (b != "" && (a[0] < b[0] || (a[0] == b[0] && LexLe(a[1..], b[1..]))))
  }

  lemma {:induction false} LexTake(a: string, b: string, n: nat)
    requires LexLe(a, b) && n <= |a| && n <= |b|
    ensures LexLe(a[..n], b[..n])
  {
    if n > 0 && a[0] == b[0] {
      LexTake(a[1..], b[1..], n - 1);
      assert a[..n][1..] == a[1..][..n - 1] && b[..n][1..] == b[1..][..n - 1];
    }
  }

  lemma {:induction false} LexDropPrefix(p: string, a: string, b: string)
    ensures LexLe(p + a, p + b) <==> LexLe(a, b)
  {
    if p == "" {
      assert p + a == a && p + b == b;
    } else {
      assert (p + a)[1..] == p[1..] + a && (p + b)[1..] == p[1..] + b;
      LexDropPrefix(p[1..], a, b);
    }
  }

  /** The last character decides only between equal texts. */
  lemma {:induction false} LexLast(a: string, b: string)
    requires |a| == |b| > 0
    ensures var n := |a| - 1;
      LexLe(a, b) <==> if a[..n] == b[..n] then a[n] <= b[n] else LexLe(a[..n], b[..n])
  {
    var n := |a| - 1;
    if n > 0 {
      LexLast(a[1..], b[1..]);
      assert a[..n][1..] == a[1..][..n - 1] && b[..n][1..] == b[1..][..n - 1];
      assert a[..n] == [a[0]] + a[1..][..n - 1] && b[..n] == [b[0]] + b[1..][..n - 1];
    } else {
      assert a[1..] == "" && b[1..] == "";
    }
  }

  /** Fixed-width digit strings sort as the numbers they read as. */
  lemma {:induction false} LexIsNumeric(a: string, b: string)
    requires |a| == |b| && AllDigits(a) && AllDigits(b)
    ensures LexLe(a, b) <==> Num(a) <= Num(b)
    ensures Num(a) == Num(b) ==> a == b
  {
    if a != "" {
      var n := |a| - 1;
      LexIsNumeric(a[..n], b[..n]);
      LexLast(a, b);
      assert a == a[..n] + [a[n]] && b == b[..n] + [b[n]];
    }
  }

  /** A character both texts share at one position does not matter. */
  lemma {:induction false} LexSkip(a: string, b: string, i: nat)
    requires |a| == |b| && i < |a| && a[i] == b[i]
    ensures LexLe(a, b) <==> LexLe(a[..i] + a[i + 1..], b[..i] + b[i + 1..])
  {
    if i == 0 {
      assert a[..0] + a[1..] == a[1..] && b[..0] + b[1..] == b[1..];
    } else {
      LexSkip(a[1..], b[1..], i - 1);
      var x, y := a[..i] + a[i + 1..], b[..i] + b[i + 1..];
      assert x[1..] == a[1..][..i - 1] + a[1..][i..] && y[1..] == b[1..][..i - 1] + b[1..][i..];
    }
  }
}
