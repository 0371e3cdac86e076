/** JavaScript strings and the browser's UTF-8 text codecs. */
module JsText {
  import opened Wrappers
  import Utf8

  /** A UTF-16 code unit. */
  type unit = n: int | 0 <= n < 0x10000

  type JsString = seq<unit>

  const BOM: unit := 0xFEFF
  const REPLACEMENT: int := 0xFFFD

  predicate High(u: int) {
    0xD800 <= u < 0xDC00
  }

  predicate Low(u: int) {
    0xDC00 <= u < 0xE000
  }

  predicate StartsWithPair(s: JsString) {
    |s| >= 2 && High(s[0]) && Low(s[1])
  }

  /** `isWellFormed`: every surrogate is part of a pair. */
  predicate WellFormed(s: JsString) {
    if s == [] then true
    else if StartsWithPair(s) then WellFormed(s[2..])
    else !High(s[0]) && !Low(s[0]) && WellFormed(s[1..])
  }

  /** The scalar values of a string; a lone surrogate counts as the replacement character. */
  function CodePoints(s: JsString): (cps: seq<int>)
    ensures forall cp <- cps :: Utf8.IsScalar(cp)
  {
    if s == [] then []
    else if StartsWithPair(s) then
      [0x10000 + (s[0] as int - 0xD800) * 0x400 + (s[1] as int - 0xDC00)] + CodePoints(s[2..])
    else [if High(s[0]) || Low(s[0]) then REPLACEMENT else s[0]] + CodePoints(s[1..])
  }

  /** The code units of scalar values. */
  function Units(cps: seq<int>): JsString
    requires forall cp <- cps :: Utf8.IsScalar(cp)
  {
    if cps == [] then []
    else UnitsOf(cps[0]) + Units(cps[1..])
  }

  function UnitsOf(cp: int): JsString
    requires Utf8.IsScalar(cp)
  {
    if cp < 0x10000 then [cp] else [0xD800 + (cp - 0x10000) / 0x400, 0xDC00 + (cp - 0x10000) % 0x400]
  }

  /** UTF-16, as in section 2.1 of RFC 2781: the bits above the first plane, ten in each surrogate. */
  lemma UnitsAreUtf16(cp: int)
    requires Utf8.IsScalar(cp)
    ensures var u := UnitsOf(cp);
            if cp < 0x10000 then u == [cp]
            else
              && |u| == 2 && 0xD800 <= u[0] < 0xDC00 && 0xDC00 <= u[1] < 0xE000
              && cp == 0x10000 + (u[0] as int - 0xD800) * 0x400 + (u[1] as int - 0xDC00)
  {
  }

  /** The unit at `i` is a surrogate without its other half. */
  predicate Lone(s: JsString, i: nat)
    requires i < |s|
  {
    || (0xD800 <= s[i] < 0xDC00 && !(i + 1 < |s| && 0xDC00 <= s[i + 1] < 0xE000))
    || (0xDC00 <= s[i] < 0xE000 && !(i > 0 && 0xD800 <= s[i - 1] < 0xDC00))
  }

  /** `TextEncoder.encode`. */
  function TextEncode(s: JsString): seq<byte> {
    Utf8.Encode(CodePoints(s))
  }

  /** `TextDecoder.decode`: a leading byte order mark is dropped. Malformed input is not part of this model. */
  function TextDecode(b: seq<byte>): Option<JsString> {
    match Utf8.Decode(b)
    case None => None
    case Some(cps) => Some(Units(if cps != [] && cps[0] == BOM then cps[1..] else cps))
  }

  lemma SurrogatesOf(hi: int, lo: int)
    requires 0 <= hi < 0x400 && 0 <= lo < 0x400
    ensures (hi * 0x400 + lo) / 0x400 == hi && (hi * 0x400 + lo) % 0x400 == lo
  {
  }

  /** Units and code points: the same length, and the same string exactly when no surrogate is alone. */
  lemma {:induction false} UnitsOfCodePoints(s: JsString)
    ensures |Units(CodePoints(s))| == |s|
    ensures Units(CodePoints(s)) == s <==> WellFormed(s)
  {
    if s == [] {
    } else if StartsWithPair(s) {
      UnitsOfCodePoints(s[2..]);
      PairRead(s);
      SameBehind([s[0], s[1]], Units(CodePoints(s[2..])), s[2..]);
    } else {
      UnitsOfCodePoints(s[1..]);
      UnitRead(s);
      SameBehind([s[0]], Units(CodePoints(s[1..])), s[1..]);
    }
  }

  /** A surrogate pair goes through a code point and comes back. */
  lemma PairRead(s: JsString)
    requires StartsWithPair(s)
    ensures Units(CodePoints(s)) == [s[0], s[1]] + Units(CodePoints(s[2..])) && s == [s[0], s[1]] + s[2..]
  {
    SurrogatesOf(s[0] as int - 0xD800, s[1] as int - 0xDC00);
    assert CodePoints(s)[1..] == CodePoints(s[2..]);
  }

  /** Any other unit comes back, unless it is a surrogate. */
  lemma UnitRead(s: JsString)
    requires s != [] && !StartsWithPair(s)
    ensures Units(CodePoints(s)) == [if High(s[0]) || Low(s[0]) then REPLACEMENT else s[0]] + Units(CodePoints(s[1..]))
    ensures s == [s[0]] + s[1..]
  {
    assert CodePoints(s)[1..] == CodePoints(s[1..]);
  }

  /** Unit by unit: a lone surrogate is read as the replacement character, and anything else as itself. */
  lemma {:induction false} LoneSurrogatesAreReplaced(s: JsString, i: nat)
    requires i < |s|
    ensures i < |Units(CodePoints(s))| && Units(CodePoints(s))[i] == if Lone(s, i) then 0xFFFD else s[i]
  {
    hide CodePoints, Units;
    if StartsWithPair(s) {
      PairRead(s);
      if i >= 2 {
        LoneSurrogatesAreReplaced(s[2..], i - 2);
      }
    } else {
      UnitRead(s);
      if i >= 1 {
        LoneSurrogatesAreReplaced(s[1..], i - 1);
      }
    }
  }

  /** A string is well formed if no surrogate is alone. */
  lemma WellFormedIffNoneAlone(s: JsString)
    ensures WellFormed(s) <==> forall i: nat | i < |s| :: !Lone(s, i)
  {
    UnitsOfCodePoints(s);
    var r := Units(CodePoints(s));
    forall i: nat | i < |s|
      ensures r[i] == if Lone(s, i) then 0xFFFD else s[i]
    {
      LoneSurrogatesAreReplaced(s, i);
    }
  }

  lemma SameBehind(head: JsString, a: JsString, b: JsString)
    ensures head + a == head + b <==> a == b
  {
    assert (head + a)[|head|..] == a && (head + b)[|head|..] == b;
  }

  /** What is read back: no lone surrogate, and no leading byte order mark. */
  function AsRead(s: JsString): JsString {
    var cps := CodePoints(s);
    Units(if cps != [] && cps[0] == BOM then cps[1..] else cps)
  }

  lemma ReadBack(s: JsString)
    ensures TextDecode(TextEncode(s)) == Some(AsRead(s))
  {
    Utf8.RoundTrip(CodePoints(s));
  }

  /** Text survives the codecs exactly when no surrogate is alone and it does not start with a byte order mark. */
  lemma TextRoundTrip(s: JsString)
    ensures TextDecode(TextEncode(s)) == Some(s) <==> WellFormed(s) && (s != [] ==> s[0] != 0xFEFF)
  {
    var cps := CodePoints(s);
    Utf8.RoundTrip(cps);
    UnitsOfCodePoints(s);
    if s != [] && s[0] == BOM {
      assert cps[0] == BOM && cps[1..] == CodePoints(s[1..]);
      UnitsOfCodePoints(s[1..]);
    } else if s != [] {
      assert cps[0] != BOM;
    }
  }
}
