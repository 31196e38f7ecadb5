/**
 The token codec (hub/auth.py): base64url without padding on the way out, and the
 lenient reader of Python's base64 module on the way back in.
 */
module Base64Url {
  import opened Options

  type Byte = b: int | 0 <= b < 256

  /** The URL-safe alphabet: A-Z, a-z, 0-9, '-', '_'. */
  function Letter(v: nat): char
    requires v < 64
  {
    if v < 26 then (v + 65) as char
    else if v < 52 then (v + 71) as char
    else if v < 62 then (v - 4) as char
    else if v == 62 then '-'
    else '_'
  }

  predicate Ascii(s: string) {
    forall i :: 0 <= i < |s| ==> (s[i] as int) < 128
  }

  /** Three bytes as four letters of six bits. */
  function Group(a: Byte, b: Byte, c: Byte): (s: string)
    ensures |s| == 4 && Ascii(s)
  {
    [Letter(a / 4), Letter(a % 4 * 16 + b / 16), Letter(b % 16 * 4 + c / 64), Letter(c % 64)]
  }

  /** urlsafe_b64encode(...).rstrip("="): a tail of two bytes is three letters, of one byte two. */
  function Encode(data: seq<Byte>): (s: string)
    ensures Ascii(s)
  {
    if |data| == 0 then ""
    else if |data| == 1 then Group(data[0], 0, 0)[..2]
    else if |data| == 2 then Group(data[0], data[1], 0)[..3]
    else Group(data[0], data[1], data[2]) + Encode(data[3..])
  }

  /** The six bits of a letter.  Both the URL alphabet and the standard one are read. */
  function Sextet(c: char): (v: Option<nat>)
    ensures v.Some? ==> v.value < 64
  {
    var n := c as int;
    if 'A' <= c <= 'Z' then Some(n - 65)
    else if 'a' <= c <= 'z' then Some(n - 71)
    else if '0' <= c <= '9' then Some(n + 4)
    else if c == '-' || c == '+' then Some(62)
    else if c == '_' || c == '/' then Some(63)
    else None
  }

  /** What the bits left over from earlier letters can be. */
  predicate Partial(quad: nat, left: nat) {
    quad < 4 && left < (if quad == 1 then 64 else if quad == 2 then 16 else if quad == 3 then 4 else 1)
  }

  /**
   The reader's automaton: `quad` letters of the current group are read, `left` holds
   their bits that are not in the output yet.  Foreign characters are skipped, a
   completing pad ends the input, and an unfinished group is an error.
   */
  function Scan(s: string, quad: nat, left: nat, pads: nat): Option<seq<Byte>>
    requires Partial(quad, left)
    decreases |s|
  {
    if s == "" then
      if quad == 0 then Some([]) else None
    else if s[0] == '=' then
      if quad < 2 then Scan(s[1..], quad, left, pads)
      else if quad + pads + 1 >= 4 then Some([])
      else Scan(s[1..], quad, left, pads + 1)
    else
      match Sextet(s[0])
      case None => Scan(s[1..], quad, left, pads)
      case Some(v) =>
        match quad
        case 0 => Scan(s[1..], 1, v, 0)
        case 1 => Prepend(left * 4 + v / 16, Scan(s[1..], 2, v % 16, 0))
        case 2 => Prepend(left * 16 + v / 4, Scan(s[1..], 3, v % 4, 0))
        case _ => Prepend(left * 64 + v, Scan(s[1..], 0, 0, 0))
  }

  function Prepend(b: Byte, rest: Option<seq<Byte>>): Option<seq<Byte>> {
    match rest
    case None => None
    case Some(bytes) => Some([b] + bytes)
  }

  /** "=" repeated up to the next multiple of four. */
  function Padding(length: nat): string {
    match length % 4
    case 0 => ""
    case 1 => "==="
    case 2 => "=="
    case _ => "="
  }

  /** `_b64decode`: pad to a multiple of four, then read; text outside ASCII is an error. */
  function Decode(s: string): Option<seq<Byte>> {
    if Ascii(s) then Scan(s + Padding(|s|), 0, 0, 0) else None
  }

  lemma LetterReads(v: nat)
    requires v < 64
    ensures Sextet(Letter(v)) == Some(v) && Letter(v) != '='
  {
  }

  /** One letter of a group, read back. */
  lemma ScanLetter(v: nat, rest: string, quad: nat, left: nat)
    requires v < 64 && Partial(quad, left)
    ensures Scan([Letter(v)] + rest, quad, left, 0) ==
            if quad == 0 then Scan(rest, 1, v, 0)
            else if quad == 1 then Prepend(left * 4 + v / 16, Scan(rest, 2, v % 16, 0))
            else if quad == 2 then Prepend(left * 16 + v / 4, Scan(rest, 3, v % 4, 0))
            else Prepend(left * 64 + v, Scan(rest, 0, 0, 0))
  {
    LetterReads(v);
    assert ([Letter(v)] + rest)[1..] == rest;
  }

  /** The letters of a group, each six bits of its bytes. */
  lemma GroupBits(a: Byte, b: Byte, c: Byte)
    ensures a / 4 < 64 && a % 4 * 16 + b / 16 < 64 && b % 16 * 4 + c / 64 < 64
    ensures a / 4 * 4 + (a % 4 * 16 + b / 16) / 16 == a && (a % 4 * 16 + b / 16) % 16 == b / 16
    ensures b / 16 * 16 + (b % 16 * 4 + c / 64) / 4 == b && (b % 16 * 4 + c / 64) % 4 == c / 64
    ensures c / 64 * 64 + c % 64 == c
  {
  }

  /** A whole group yields its three bytes. */
  lemma ScanGroup(a: Byte, b: Byte, c: Byte, rest: string)
    ensures Scan(Group(a, b, c) + rest, 0, 0, 0) == Prepend(a, Prepend(b, Prepend(c, Scan(rest, 0, 0, 0))))
  {
    GroupBits(a, b, c);
    var v0, v1, v2, v3 := a / 4, a % 4 * 16 + b / 16, b % 16 * 4 + c / 64, c % 64;
    var s3 := [Letter(v3)] + rest;
    var s2 := [Letter(v2)] + s3;
    var s1 := [Letter(v1)] + s2;
    assert Scan(s3, 3, c / 64, 0) == Prepend(c, Scan(rest, 0, 0, 0)) by {
      ScanLetter(v3, rest, 3, c / 64);
    }
    assert Scan(s2, 2, b / 16, 0) == Prepend(b, Scan(s3, 3, c / 64, 0)) by {
      ScanLetter(v2, s3, 2, b / 16);
    }
    assert Scan(s1, 1, v0, 0) == Prepend(a, Scan(s2, 2, b / 16, 0)) by {
      ScanLetter(v1, s2, 1, v0);
    }
    assert Scan([Letter(v0)] + s1, 0, 0, 0) == Scan(s1, 1, v0, 0) by {
      ScanLetter(v0, s1, 0, 0);
    }
    assert Group(a, b, c) + rest == [Letter(v0)] + s1;
  }

  /** A last group of two bytes. */
  lemma ScanTwo(a: Byte, b: Byte)
    ensures Scan(Group(a, b, 0)[..3] + "=", 0, 0, 0) == Some([a, b])
  {
    GroupBits(a, b, 0);
    var v0, v1, v2 := a / 4, a % 4 * 16 + b / 16, b % 16 * 4;
    var s2 := [Letter(v2)] + "=";
    var s1 := [Letter(v1)] + s2;
    ScanLetter(v0, s1, 0, 0);
    ScanLetter(v1, s2, 1, v0);
    ScanLetter(v2, "=", 2, b / 16);
    LastPad(3, v2 % 4);
    assert [b] + [] == [b] && [a] + [b] == [a, b];
    assert Group(a, b, 0)[..3] + "=" == [Letter(v0)] + s1;
  }

  lemma LastPad(quad: nat, left: nat)
    requires Partial(quad, left) && quad >= 2
    ensures Scan("=", 3, if quad == 3 then left else 0, 0) == Some([])
    ensures quad == 2 ==> Scan("==", 2, left, 0) == Some([])
  {
    if quad == 2 {
      assert "=="[1..] == "=";
      assert Scan("=", 2, left, 1) == Some([]);
    }
  }

  /** A last group of one byte. */
  lemma ScanOne(a: Byte)
    ensures Scan(Group(a, 0, 0)[..2] + "==", 0, 0, 0) == Some([a])
  {
    GroupBits(a, 0, 0);
    var v0, v1 := a / 4, a % 4 * 16;
    ScanLetter(v0, [Letter(v1)] + "==", 0, 0);
    ScanLetter(v1, "==", 1, v0);
    LastPad(2, v1 % 16);
    assert [a] + [] == [a];
    assert Group(a, 0, 0)[..2] + "==" == [Letter(v0)] + ([Letter(v1)] + "==");
  }

  lemma PaddingRepeats(length: nat)
    ensures Padding(4 + length) == Padding(length)
  {
  }

  lemma ScanPrefix(data: seq<Byte>, pads: string)
    requires |data| >= 3 && Scan(Encode(data[3..]) + pads, 0, 0, 0) == Some(data[3..])
    ensures |Encode(data)| == 4 + |Encode(data[3..])|
    ensures Scan(Encode(data) + pads, 0, 0, 0) == Some(data)
  {
    var a, b, c, rest := data[0], data[1], data[2], data[3..];
    ScanGroup(a, b, c, Encode(rest) + pads);
    assert Encode(data) + pads == Group(a, b, c) + (Encode(rest) + pads);
    assert data == [a] + ([b] + ([c] + rest));
  }

  lemma ScanTail(data: seq<Byte>)
    requires |data| < 3
    ensures Scan(Encode(data) + Padding(|Encode(data)|), 0, 0, 0) == Some(data)
  {
    if |data| == 2 {
      var text := Encode(data);
      assert text == Group(data[0], data[1], 0)[..3] && Padding(3) == "=";
      ScanTwo(data[0], data[1]);
      assert data == [data[0], data[1]];
    } else if |data| == 1 {
      var text := Encode(data);
      assert text == Group(data[0], 0, 0)[..2] && Padding(2) == "==";
      ScanOne(data[0]);
      assert data == [data[0]];
    }
  }

  /** Reading the padded form of what was written gives the bytes back. */
  lemma {:induction false} ScanInverts(data: seq<Byte>)
    ensures Scan(Encode(data) + Padding(|Encode(data)|), 0, 0, 0) == Some(data)
  {
    if |data| < 3 {
      ScanTail(data);
    } else {
      ScanInverts(data[3..]);
      PaddingRepeats(|Encode(data[3..])|);
      ScanPrefix(data, Padding(|Encode(data[3..])|));
    }
  }

  /** Decoding inverts encoding on all byte strings. */
  lemma RoundTrip(data: seq<Byte>)
    ensures Decode(Encode(data)) == Some(data)
  {
    ScanInverts(data);
  }
}
