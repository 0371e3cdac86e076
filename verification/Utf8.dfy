/** UTF-8 as defined by section 3 of RFC 3629: `std::str::from_utf8` and the browser's text codecs. */
module Utf8 {
  import opened Wrappers

  /** A Unicode scalar value: a code point that is not a surrogate. */
  ghost predicate IsScalar(cp: int) {
    0 <= cp < 0xD800 || 0xE000 <= cp < 0x110000
  }

  predicate Cont(b: byte) {
    0x80 <= b < 0xC0
  }

  /** The bytes of one scalar value. */
  function EncodeOne(cp: int): (b: seq<byte>)
    requires IsScalar(cp)
    ensures 1 <= |b| <= 4
  {
    if cp < 0x80 then [cp]
    else if cp < 0x800 then [0xC0 + cp / 64, 0x80 + cp % 64]
    else if cp < 0x10000 then [0xE0 + cp / 4096, 0x80 + cp / 64 % 64, 0x80 + cp % 64]
    else [0xF0 + cp / 262144, 0x80 + cp / 4096 % 64, 0x80 + cp / 64 % 64, 0x80 + cp % 64]
  }

  function Encode(cps: seq<int>): (b: seq<byte>)
    requires forall cp <- cps :: IsScalar(cp)
  {
    if cps == [] then [] else EncodeOne(cps[0]) + Encode(cps[1..])
  }

  /** The payload of a byte whose marker bits are worth `mark`. */
  function Bits(b: byte, mark: int): int {
    b - mark
  }

  /** The first scalar value of `b` and how many bytes it takes; overlong forms and surrogates are refused. */
  function DecodeOne(b: seq<byte>): (r: Option<(int, nat)>)
    requires b != []
    ensures r.Some? ==> 1 <= r.value.1 <= |b| && IsScalar(r.value.0)
  {
    if b[0] < 0x80 then Some((b[0], 1))
    else if 0xC2 <= b[0] < 0xE0 then
      if |b| >= 2 && Cont(b[1]) then Some((Bits(b[0], 0xC0) * 64 + Bits(b[1], 0x80), 2)) else None
    else if 0xE0 <= b[0] < 0xF0 then
      if |b| >= 3 && Cont(b[1]) && Cont(b[2]) then
        var cp := Bits(b[0], 0xE0) * 4096 + Bits(b[1], 0x80) * 64 + Bits(b[2], 0x80);
        if 0x800 <= cp < 0xD800 || 0xE000 <= cp then Some((cp, 3)) else None
      else None
    else if 0xF0 <= b[0] < 0xF5 then
      if |b| >= 4 && Cont(b[1]) && Cont(b[2]) && Cont(b[3]) then
        var cp := Bits(b[0], 0xF0) * 262144 + Bits(b[1], 0x80) * 4096 + Bits(b[2], 0x80) * 64 + Bits(b[3], 0x80);
        if 0x10000 <= cp < 0x110000 then Some((cp, 4)) else None
      else None
    else None
  }

  function Decode(b: seq<byte>): (r: Option<seq<int>>)
    ensures r.Some? ==> forall cp <- r.value :: IsScalar(cp)
  {
    if b == [] then Some([])
    else
      match DecodeOne(b)
      case None => None
      case Some((cp, n)) =>
        match Decode(b[n..])
        case None => None
        case Some(rest) => Some([cp] + rest)
  }

  /** `std::str::from_utf8(b).is_ok()`. */
  predicate Valid(b: seq<byte>) {
    Decode(b).Some?
  }

  lemma DigitsOf(cp: nat)
    ensures cp == cp / 64 * 64 + cp % 64
    ensures cp / 64 / 64 == cp / 4096 && cp / 64 / 64 / 64 == cp / 262144
  {
  }

  lemma TwoBytes(b0: int, b1: int)
    requires 0 <= b0 && 0 <= b1 < 64
    ensures (b0 * 64 + b1) / 64 == b0 && (b0 * 64 + b1) % 64 == b1
  {
  }

  lemma ThreeBytes(b0: int, b1: int, b2: int)
    requires 0 <= b0 && 0 <= b1 < 64 && 0 <= b2 < 64
    ensures var cp := b0 * 4096 + b1 * 64 + b2; cp / 4096 == b0 && cp / 64 % 64 == b1 && cp % 64 == b2
  {
    TwoBytes(b0, b1);
    TwoBytes(b0 * 64 + b1, b2);
    DigitsOf(b0 * 4096 + b1 * 64 + b2);
  }

  lemma FourBytes(b0: int, b1: int, b2: int, b3: int)
    requires 0 <= b0 && 0 <= b1 < 64 && 0 <= b2 < 64 && 0 <= b3 < 64
    ensures var cp := b0 * 262144 + b1 * 4096 + b2 * 64 + b3;
            cp / 262144 == b0 && cp / 4096 % 64 == b1 && cp / 64 % 64 == b2 && cp % 64 == b3
  {
    ThreeBytes(b0, b1, b2);
    TwoBytes(b0 * 4096 + b1 * 64 + b2, b3);
    DigitsOf(b0 * 262144 + b1 * 4096 + b2 * 64 + b3);
  }

  lemma DecodeOneEncodes(b: seq<byte>)
    requires b != [] && DecodeOne(b).Some?
    ensures var (cp, n) := DecodeOne(b).value; EncodeOne(cp) == b[..n]
  {
    var (_, n) := DecodeOne(b).value;
    if n == 2 {
      TwoBytes(b[0] - 0xC0, b[1] - 0x80);
    } else if n == 3 {
      ThreeBytes(b[0] - 0xE0, b[1] - 0x80, b[2] - 0x80);
    } else if n == 4 {
      FourBytes(b[0] - 0xF0, b[1] - 0x80, b[2] - 0x80, b[3] - 0x80);
    }
  }

  lemma EncodeOneDecodes(cp: int, rest: seq<byte>)
    requires IsScalar(cp)
    ensures DecodeOne(EncodeOne(cp) + rest) == Some((cp, |EncodeOne(cp)|))
  {
    var b := EncodeOne(cp);
    var s := b + rest;
    assert forall i | 0 <= i < |b| :: s[i] == b[i];
    DigitsOf(cp);
    DigitsOf(cp / 64);
    DigitsOf(cp / 4096);
  }

  /** Decoding undoes encoding. */
  lemma {:induction false} RoundTrip(cps: seq<int>)
    requires forall cp <- cps :: IsScalar(cp)
    ensures Decode(Encode(cps)) == Some(cps)
  {
    if cps == [] {
    } else {
      var head, tail := EncodeOne(cps[0]), Encode(cps[1..]);
      RoundTrip(cps[1..]);
      EncodeOneDecodes(cps[0], tail);
      assert (head + tail)[|head|..] == tail;
      assert cps == [cps[0]] + cps[1..];
    }
  }

  lemma {:induction false} EncodeCons(cp: int, rest: seq<int>)
    requires IsScalar(cp) && forall c <- rest :: IsScalar(c)
    ensures Encode([cp] + rest) == EncodeOne(cp) + Encode(rest)
  {
    assert ([cp] + rest)[1..] == rest;
  }

  /** The accepted byte strings are exactly the encodings: there is one encoding for each text. */
  lemma {:induction false} DecodeIsCanonical(b: seq<byte>)
    requires Valid(b)
    ensures Encode(Decode(b).value) == b
  {
    if b == [] {
    } else {
      var (cp, n) := DecodeOne(b).value;
      DecodeIsCanonical(b[n..]);
      EncodeCons(cp, Decode(b[n..]).value);
      assert EncodeOne(cp) == b[..n] by {
        DecodeOneEncodes(b);
      }
      assert b == b[..n] + b[n..];
    }
  }

  ghost predicate AllScalars(cps: seq<int>) {
    forall cp <- cps :: IsScalar(cp)
  }

  /** Text is what encodes some scalar values, and nothing else. */
  lemma ValidIffEncoding(b: seq<byte>)
    ensures Valid(b) <==> exists cps :: AllScalars(cps) && Encode(cps) == b
  {
    if Valid(b) {
      DecodeIsCanonical(b);
      assert AllScalars(Decode(b).value);
    }
    forall cps | AllScalars(cps) && Encode(cps) == b
      ensures Valid(b)
    {
      RoundTrip(cps);
    }
  }

  /** The table of RFC 3629: how many octets a range takes, their marker bits, and their payload, six bits at a time. */
  lemma EncodeOneIsTable(cp: int)
    requires IsScalar(cp)
    ensures var b := EncodeOne(cp);
            && (cp < 0x80 ==> b == [cp])
            && (0x80 <= cp < 0x800 ==> |b| == 2 && 0xC0 <= b[0] < 0xE0 && cp == (b[0] as int - 0xC0) * 64 + (b[1] as int - 0x80))
            && (0x800 <= cp < 0x10000 ==>
                  && |b| == 3 && 0xE0 <= b[0] < 0xF0
                  && cp == (b[0] as int - 0xE0) * 4096 + (b[1] as int - 0x80) * 64 + (b[2] as int - 0x80))
            && (0x10000 <= cp ==>
                  && |b| == 4 && 0xF0 <= b[0] < 0xF8
                  && cp == (b[0] as int - 0xF0) * 262144 + (b[1] as int - 0x80) * 4096 + (b[2] as int - 0x80) * 64 + (b[3] as int - 0x80))
            && forall i | 0 < i < |b| :: 0x80 <= b[i] < 0xC0
  {
    DigitsOf(cp);
    DigitsOf(cp / 64);
    DigitsOf(cp / 4096);
  }

  /** ASCII text, such as base64, is always valid. */
  lemma {:induction false} AsciiIsValid(b: seq<byte>)
    requires forall i | 0 <= i < |b| :: b[i] < 0x80
    ensures Valid(b)
  {
    if b == [] {
    } else {
      AsciiIsValid(b[1..]);
    }
  }
}
