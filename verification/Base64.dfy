/** Base64 as in RFC 4648: the standard alphabet (section 4) and the URL- and filename-safe one (section 5). */
module Base64 {
  import opened Wrappers
  import Utf8

  type sextet = n: int | 0 <= n < 64

  const PAD: byte := 61

  // ----- octets and sextets -----

  /** The bits of `b` in groups of six, with zero bits at the end. */
  function Sextets(b: seq<byte>): seq<sextet> {
    if b == [] then []
    else if |b| == 1 then [b[0] / 4, b[0] % 4 * 16]
    else if |b| == 2 then [b[0] / 4, b[0] % 4 * 16 + b[1] / 16, b[1] % 16 * 4]
    else [b[0] / 4, b[0] % 4 * 16 + b[1] / 16, b[1] % 16 * 4 + b[2] / 64, b[2] % 64] + Sextets(b[3..])
  }

  /** The bits of `d` in groups of eight; bits left over at the end are dropped. */
  function Octets(d: seq<sextet>): seq<byte> {
    if |d| < 2 then []
    else if |d| == 2 then [Join(d[0], 4, d[1] / 16)]
    else if |d| == 3 then [Join(d[0], 4, d[1] / 16), Join(d[1] % 16, 16, d[2] / 4)]
    else [Join(d[0], 4, d[1] / 16), Join(d[1] % 16, 16, d[2] / 4), Join(d[2] % 4, 64, d[3])] + Octets(d[4..])
  }

  function Join(high: nat, factor: nat, low: nat): nat {
    high * factor + low
  }

  /** Whole octets, and nothing but zeros in the bits left over. */
  predicate Canonical(d: seq<sextet>) {
    if |d| >= 4 then Canonical(d[4..])
    else |d| == 0 || (|d| == 2 && d[1] % 16 == 0) || (|d| == 3 && d[2] % 4 == 0)
  }

  /** Four sextets give back the three bytes that they were cut from. */
  lemma BytesOfGroup(b0: byte, b1: byte, b2: byte)
    ensures Join(b0 / 4, 4, (b0 % 4 * 16 + b1 / 16) / 16) == b0
    ensures Join((b0 % 4 * 16 + b1 / 16) % 16, 16, (b1 % 16 * 4 + b2 / 64) / 4) == b1
    ensures Join((b1 % 16 * 4 + b2 / 64) % 4, 64, b2 % 64) == b2
    ensures (b1 % 16 * 4) / 4 == b1 % 16 && (b0 % 4 * 16) / 16 == b0 % 4 && (b0 % 4 * 16) % 16 == 0 && (b1 % 16 * 4) % 4 == 0
  {
  }

  lemma {:induction false} OctetsOfSextets(b: seq<byte>)
    ensures Octets(Sextets(b)) == b && Canonical(Sextets(b))
  {
    hide Join;
    if |b| >= 3 {
      OctetsOfSextets(b[3..]);
      BytesOfGroup(b[0], b[1], b[2]);
      var head, tail := Sextets(b)[..4], Sextets(b[3..]);
      assert (head + tail)[4..] == tail;
      assert b == [b[0], b[1], b[2]] + b[3..];
    } else if |b| == 2 {
      BytesOfGroup(b[0], b[1], 0);
    } else if |b| == 1 {
      BytesOfGroup(b[0], 0, 0);
    }
  }

  /** Three bytes give back the four sextets that they were joined from. */
  lemma SextetsOfGroup(d0: sextet, d1: sextet, d2: sextet, d3: sextet)
    ensures var b0, b1, b2 := Join(d0, 4, d1 / 16), Join(d1 % 16, 16, d2 / 4), Join(d2 % 4, 64, d3);
            && 0 <= b0 < 256 && 0 <= b1 < 256 && 0 <= b2 < 256
            && b0 / 4 == d0 && b0 % 4 == d1 / 16 && b1 / 16 == d1 % 16 && b1 % 16 == d2 / 4 && b2 / 64 == d2 % 4 && b2 % 64 == d3
  {
  }

  lemma {:induction false} SextetsOfOctets(d: seq<sextet>)
    requires Canonical(d)
    ensures Sextets(Octets(d)) == d
  {
    hide Join;
    if |d| >= 4 {
      SextetsOfOctets(d[4..]);
      SextetsOfGroup(d[0], d[1], d[2], d[3]);
      var head, tail := Octets(d)[..3], Octets(d[4..]);
      assert (head + tail)[3..] == tail;
      assert d == [d[0], d[1], d[2], d[3]] + d[4..];
    } else if |d| == 3 {
      SextetsOfGroup(d[0], d[1], d[2], 0);
    } else if |d| == 2 {
      SextetsOfGroup(d[0], d[1], 0, 0);
    }
  }

  /** Three bytes take four sextets, one byte two, two bytes three. */
  lemma {:induction false} SextetCount(b: seq<byte>)
    ensures |Sextets(b)| == |b| / 3 * 4 + (if |b| % 3 == 0 then 0 else |b| % 3 + 1)
  {
    if |b| >= 3 { SextetCount(b[3..]); }
  }

  /** The 24 bits of every three bytes are those of four sextets, the first of which has the highest. */
  lemma {:induction false} GroupsKeepBits(b: seq<byte>, i: nat)
    requires 3 * i + 2 < |b|
    ensures var s := Sextets(b);
            && |s| >= 4 * i + 4
            && b[3 * i] as int * 65536 + b[3 * i + 1] as int * 256 + b[3 * i + 2]
               == s[4 * i] as int * 262144 + s[4 * i + 1] as int * 4096 + s[4 * i + 2] as int * 64 + s[4 * i + 3]
  {
    if i > 0 {
      GroupsKeepBits(b[3..], i - 1);
    }
  }

  /** One or two bytes at the end are filled up with zero bits, to two or three sextets. */
  lemma {:induction false} LastGroupIsFilled(b: seq<byte>)
    ensures var s, n := Sextets(b), |b|;
            && (n % 3 == 1 ==> |s| >= 2 && s[|s| - 2] as int * 64 + s[|s| - 1] == b[n - 1] as int * 16)
            && (n % 3 == 2 ==>
                  && |s| >= 3
                  && s[|s| - 3] as int * 4096 + s[|s| - 2] as int * 64 + s[|s| - 1] == (b[n - 2] as int * 256 + b[n - 1]) * 4)
  {
    if |b| >= 3 {
      LastGroupIsFilled(b[3..]);
      var n, rest := |b|, b[3..];
      assert |rest| % 3 == n % 3;
      hide Sextets;
      assert n % 3 > 0 ==> rest[|rest| - 1] == b[n - 1];
      assert n % 3 == 2 ==> rest[|rest| - 2] == b[n - 2];
    }
  }

  // ----- the alphabet -----

  function Char(d: sextet): byte {
    if d < 26 then 65 + d
    else if d < 52 then 97 + (d - 26)
    else if d < 62 then 48 + (d - 52)
    else if d == 62 then 43
    else 47
  }

  function Digit(c: int): Option<sextet> {
    if 65 <= c < 91 then Some(c - 65)
    else if 97 <= c < 123 then Some(c - 97 + 26)
    else if 48 <= c < 58 then Some(c - 48 + 52)
    else if c == 43 then Some(62)
    else if c == 47 then Some(63)
    else None
  }

  const UPPER := "ABCDEFGHIJKLMNOPQRSTUVWXYZ"
  const LOWER := "abcdefghijklmnopqrstuvwxyz"
  const DECIMAL := "0123456789"

  /** The digits are numbered as in table 1 of RFC 4648, and padding is a `=`. */
  lemma CharIsTable(d: sextet)
    ensures |UPPER + LOWER + DECIMAL + "+/"| == 64 && Char(d) == (UPPER + LOWER + DECIMAL + "+/")[d] as int
    ensures PAD == '=' as int
  {
    assert |UPPER| == 26 && |LOWER| == 26 && |DECIMAL| == 10;
  }

  function Chars(d: seq<sextet>): (s: seq<byte>)
    ensures |s| == |d| && forall i | 0 <= i < |d| :: s[i] == Char(d[i])
  {
    if d == [] then [] else [Char(d[0])] + Chars(d[1..])
  }

  /** The digits of a text, if it has only digits. */
  function Digits(s: seq<int>): (r: Option<seq<sextet>>)
    ensures r.Some? ==> |r.value| == |s|
  {
    if s == [] then Some([])
    else
      match (Digit(s[0]), Digits(s[1..]))
      case (Some(d), Some(rest)) => Some([d] + rest)
      case _ => None
  }

  lemma DigitOfChar(d: sextet)
    ensures Digit(Char(d)) == Some(d) && Char(d) != PAD
  {
  }

  lemma CharsCons(d: seq<sextet>)
    requires d != []
    ensures Chars(d) == [Char(d[0])] + Chars(d[1..]) && d == [d[0]] + d[1..]
  {
    hide Char;
  }

  lemma DigitsCons(d: sextet, s: seq<int>)
    requires Digits(s).Some?
    ensures Digits([Char(d)] + s) == Some([d] + Digits(s).value)
  {
    DigitOfChar(d);
    hide Digit, Char;
    assert ([Char(d)] + s)[1..] == s;
  }

  lemma {:induction false} DigitsOfChars(d: seq<sextet>)
    ensures Digits(Chars(d)) == Some(d)
  {
    hide Digit, Char;
    if d == [] {
    } else {
      hide Digits, Chars;
      DigitsOfChars(d[1..]);
      CharsCons(d);
      DigitsCons(d[0], Chars(d[1..]));
    }
  }

  lemma {:induction false} CharsOfDigits(s: seq<byte>)
    requires Digits(s).Some?
    ensures Chars(Digits(s).value) == s
  {
    if s == [] {
    } else {
      CharsOfDigits(s[1..]);
      var rest := Digits(s[1..]).value;
      assert Digits(s).value[1..] == rest;
    }
  }

  // ----- the standard codec: `BASE64_STANDARD` -----

  /** The padding behind `n` digits. */
  function Padding(n: nat): seq<byte> {
    if n % 4 == 2 then [PAD, PAD] else if n % 4 == 3 then [PAD] else []
  }

  function Encode(b: seq<byte>): seq<byte> {
    Chars(Sextets(b)) + Padding(|Sextets(b)|)
  }

  /** How many padding characters end the text: none, one or two. */
  function PaddingLength(s: seq<byte>): (n: nat)
    ensures n <= |s|
  {
    if s == [] || s[|s| - 1] != PAD then 0
    else if |s| == 1 || s[|s| - 2] != PAD then 1
    else 2
  }

  /** Strict decoding: canonical padding is required, and stray bits at the end are refused. */
  function Decode(s: seq<byte>): Option<seq<byte>> {
    if |s| % 4 != 0 then None
    else
      match Digits(s[..|s| - PaddingLength(s)])
      case None => None
      case Some(d) => if Canonical(d) then Some(Octets(d)) else None
  }

  lemma {:induction false} CanonicalCount(d: seq<sextet>)
    requires Canonical(d)
    ensures |d| % 4 != 1
  {
    if |d| >= 4 { CanonicalCount(d[4..]); }
  }

  /** The end of the digits is found again behind which padding was put. */
  lemma PaddingFound(c: seq<byte>)
    requires |c| % 4 != 1 && (c != [] ==> c[|c| - 1] != PAD)
    ensures var s := c + Padding(|c|);
            |s| % 4 == 0 && PaddingLength(s) == |Padding(|c|)| && s[..|s| - PaddingLength(s)] == c
  {
    var s := c + Padding(|c|);
    if c != [] { assert s[|c| - 1] == c[|c| - 1]; }
    if |c| % 4 == 2 {
      assert s[|c|] == PAD && s[|c| + 1] == PAD;
    } else if |c| % 4 == 3 {
      assert s[|c|] == PAD;
    }
  }

  /** A text of whole groups, of which all but the last `n` characters are digits, ends in the padding of those. */
  lemma {:induction false} PaddingSplits(s: seq<byte>, n: nat)
    requires |s| % 4 == 0 && n == PaddingLength(s) && (|s| - n) % 4 != 1
    requires forall i | 0 <= i < |s| - n :: s[i] != PAD
    ensures s == s[..|s| - n] + Padding(|s| - n)
  {
    var m := |s| - n;
    assert s == s[..m] + s[m..];
    if n == 1 {
      assert m % 4 == 3 && s[m..] == [PAD];
    } else if n == 2 {
      assert m % 4 == 2 && s[m..] == [PAD, PAD];
    } else {
      assert s[m..] == [];
    }
  }

  /** Encoded bytes decode to themselves. */
  lemma EncodedDecodes(b: seq<byte>)
    ensures Decode(Encode(b)) == Some(b)
  {
    var d := Sextets(b);
    OctetsOfSextets(b);
    CanonicalCount(d);
    PaddingFound(Chars(d));
    DigitsOfChars(d);
  }

  /** A text that decodes consists of digits, whose bits are canonical, and of padding. */
  lemma DecodedParts(s: seq<byte>)
    requires Decode(s).Some?
    ensures var body := s[..|s| - PaddingLength(s)];
            && |s| % 4 == 0 && Digits(body).Some? && Canonical(Digits(body).value)
            && Decode(s).value == Octets(Digits(body).value)
  {
    hide Digits, Canonical, Octets, PaddingLength;
  }

  lemma CharsAreNotPadding(d: seq<sextet>)
    ensures PAD !in Chars(d)
  {
  }

  /** Whatever decodes is the encoding of what it decodes to. */
  lemma DecodedEncodes(s: seq<byte>)
    requires Decode(s).Some?
    ensures Encode(Decode(s).value) == s
  {
    hide Decode, Digits, Canonical, Octets, Sextets, Chars, PaddingLength, Padding;
    DecodedParts(s);
    var n := PaddingLength(s);
    var body := s[..|s| - n];
    var d := Digits(body).value;
    CharsOfDigits(body);
    SextetsOfOctets(d);
    CanonicalCount(d);
    CharsAreNotPadding(d);
    assert forall i | 0 <= i < |s| - n :: s[i] == body[i];
    PaddingSplits(s, n);
  }

  /** The decoder accepts exactly the encodings, and each gives back the bytes that were encoded. */
  lemma DecodeIffEncoded(s: seq<byte>, b: seq<byte>)
    ensures Decode(s) == Some(b) <==> s == Encode(b)
  {
    EncodedDecodes(b);
    if Decode(s).Some? { DecodedEncodes(s); }
  }

  /** Encoded text is ASCII, so it is a valid Rust string. */
  lemma EncodingIsText(b: seq<byte>)
    ensures Utf8.Valid(Encode(b))
  {
    Utf8.AsciiIsValid(Encode(b));
  }

  // ----- the buffer estimate -----

  /** `base64::decoded_len_estimate`: three bytes for every started group of four characters. */
  function DecodedLenEstimate(encodedLen: nat): nat {
    (encodedLen / 4 + if encodedLen % 4 > 0 then 1 else 0) * 3
  }

  /** Three for every group of four characters, the last of which may have only been started. */
  lemma EstimateCountsGroups(encodedLen: nat)
    ensures var e := DecodedLenEstimate(encodedLen); e % 3 == 0 && 3 * encodedLen <= 4 * e < 3 * encodedLen + 12
  {
  }

  /** The estimate is always enough, and never more than two bytes too much. */
  lemma EstimateIsTight(b: seq<byte>)
    ensures |b| <= DecodedLenEstimate(|Encode(b)|) <= |b| + 2
  {
    SextetCount(b);
  }
}
