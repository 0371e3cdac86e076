/** The playground's state in the URL (playground/src/urlState.ts). */
module UrlState {
  import opened Wrappers
  import opened JsText
  import opened Base64

  const MAX_DECOMPRESSED_SIZE := 5 * 1024 * 1024

  const PLUS: unit := 43
  const MINUS: unit := 45
  const SLASH: unit := 47
  const UNDERSCORE: unit := 95
  const EQUALS: unit := 61
  const AMPERSAND: unit := 38

  // ----- base64 in URLs -----

  /** `s.replaceAll(from, to)` for a single character. */
  function ReplaceAll(s: JsString, from: unit, to: JsString): JsString {
    if s == [] then [] else (if s[0] == from then to else [s[0]]) + ReplaceAll(s[1..], from, to)
  }

  function Base64ToUrlSafe(b64: JsString): JsString {
    ReplaceAll(ReplaceAll(ReplaceAll(b64, PLUS, [MINUS]), SLASH, [UNDERSCORE]), EQUALS, [])
  }

  function UrlSafeToBase64(urlSafe: JsString): JsString {
    ReplaceAll(ReplaceAll(urlSafe, MINUS, [PLUS]), UNDERSCORE, [SLASH])
  }

  /** The digits that `Buffer.from(s, "base64")` sees: up to the padding, either alphabet, other characters skipped. */
  function LenientDigits(s: JsString): seq<sextet> {
    if s == [] || s[0] == EQUALS then []
    else
      var c := if s[0] == MINUS then PLUS else if s[0] == UNDERSCORE then SLASH else s[0];
      match Digit(c)
      case None => LenientDigits(s[1..])
      case Some(d) => [d] + LenientDigits(s[1..])
  }

  /** `Buffer.from(s, "base64")`, which tolerates missing padding. */
  function BufferFrom(s: JsString): seq<byte> {
    Octets(LenientDigits(s))
  }

  /** The character of a digit in the URL- and filename-safe alphabet. */
  function UrlChar(d: sextet): unit {
    if d == 62 then MINUS else if d == 63 then UNDERSCORE else Char(d)
  }

  /** Table 2 of RFC 4648. */
  lemma UrlCharIsTable(d: sextet)
    ensures |UPPER + LOWER + DECIMAL + "-_"| == 64 && UrlChar(d) == (UPPER + LOWER + DECIMAL + "-_")[d] as int
  {
    assert |UPPER| == 26 && |LOWER| == 26 && |DECIMAL| == 10;
  }

  function UrlChars(d: seq<sextet>): JsString {
    if d == [] then [] else [UrlChar(d[0])] + UrlChars(d[1..])
  }

  lemma {:induction false} ReplaceAllConcat(a: JsString, b: JsString, from: unit, to: JsString)
    ensures ReplaceAll(a + b, from, to) == ReplaceAll(a, from, to) + ReplaceAll(b, from, to)
  {
    if a == [] {
      assert a + b == b;
    } else {
      assert (a + b)[1..] == a[1..] + b;
      ReplaceAllConcat(a[1..], b, from, to);
    }
  }

  lemma UrlSafeConcat(a: JsString, b: JsString)
    ensures Base64ToUrlSafe(a + b) == Base64ToUrlSafe(a) + Base64ToUrlSafe(b)
    ensures UrlSafeToBase64(a + b) == UrlSafeToBase64(a) + UrlSafeToBase64(b)
  {
    ReplaceAllConcat(a, b, PLUS, [MINUS]);
    var a1, b1 := ReplaceAll(a, PLUS, [MINUS]), ReplaceAll(b, PLUS, [MINUS]);
    ReplaceAllConcat(a1, b1, SLASH, [UNDERSCORE]);
    ReplaceAllConcat(ReplaceAll(a1, SLASH, [UNDERSCORE]), ReplaceAll(b1, SLASH, [UNDERSCORE]), EQUALS, []);
    ReplaceAllConcat(a, b, MINUS, [PLUS]);
    ReplaceAllConcat(ReplaceAll(a, MINUS, [PLUS]), ReplaceAll(b, MINUS, [PLUS]), UNDERSCORE, [SLASH]);
  }

  lemma ReplaceOne(c: unit, from: unit, to: JsString)
    ensures ReplaceAll([c], from, to) == if c == from then to else [c]
  {
    assert [c][1..] == [] && ReplaceAll([], from, to) == [];
  }

  lemma UrlSafeChar(d: sextet)
    ensures Base64ToUrlSafe([Char(d)]) == [UrlChar(d)]
    ensures UrlSafeToBase64([UrlChar(d)]) == [Char(d)]
  {
    var c := Char(d);
    ReplaceOne(c, PLUS, [MINUS]);
    ReplaceOne(if c == PLUS then MINUS else c, SLASH, [UNDERSCORE]);
    ReplaceOne(UrlChar(d), EQUALS, []);
    ReplaceOne(UrlChar(d), MINUS, [PLUS]);
    ReplaceOne(if UrlChar(d) == MINUS then PLUS else UrlChar(d), UNDERSCORE, [SLASH]);
  }

  lemma {:induction false} UrlSafeDigits(d: seq<sextet>)
    ensures Base64ToUrlSafe(Chars(d)) == UrlChars(d) && UrlSafeToBase64(UrlChars(d)) == Chars(d)
  {
    if d == [] {
    } else {
      UrlSafeDigits(d[1..]);
      UrlSafeChar(d[0]);
      UrlSafeConcat([Char(d[0])], Chars(d[1..]));
      UrlSafeConcat([UrlChar(d[0])], UrlChars(d[1..]));
    }
  }

  lemma {:induction false} LenientDigitsOfChars(d: seq<sextet>)
    ensures LenientDigits(Chars(d)) == d
  {
    if d == [] {
    } else {
      LenientDigitsOfChars(d[1..]);
      assert Chars(d)[1..] == Chars(d[1..]);
      assert Digit(Char(d[0])) == Some(d[0]);
      assert d == [d[0]] + d[1..];
    }
  }

  lemma PaddingVanishes(n: nat)
    ensures Base64ToUrlSafe(Padding(n)) == []
  {
    ReplaceOne(EQUALS, PLUS, [MINUS]);
    ReplaceOne(EQUALS, SLASH, [UNDERSCORE]);
    ReplaceOne(EQUALS, EQUALS, []);
    assert Base64ToUrlSafe([EQUALS]) == [];
    UrlSafeConcat([EQUALS], [EQUALS]);
    assert [EQUALS] + [EQUALS] == [PAD, PAD];
  }

  /** The URL form is the text in the URL-safe alphabet, without padding. */
  lemma UrlForm(b: seq<byte>)
    ensures Base64ToUrlSafe(Encode(b)) == UrlChars(Sextets(b))
  {
    var d := Sextets(b);
    UrlSafeConcat(Chars(d), Padding(|d|));
    UrlSafeDigits(d);
    PaddingVanishes(|d|);
  }

  /** Every byte string survives the trip through the URL alphabet, although the padding is gone. */
  lemma UrlBase64RoundTrip(b: seq<byte>)
    ensures BufferFrom(UrlSafeToBase64(Base64ToUrlSafe(Encode(b)))) == b
  {
    UrlForm(b);
    UrlSafeDigits(Sextets(b));
    LenientDigitsOfChars(Sextets(b));
    OctetsOfSextets(b);
  }

  // ----- compressed text -----

  /** The libraries: zstd with the size limit, and JSON. */
  datatype Codecs<!J> = Codecs(
    compress: seq<byte> -> seq<byte>,
    decompress: seq<byte> -> Option<seq<byte>>,
    stringify: J -> JsString,
    parse: JsString -> Option<J>)

  /** What the libraries promise. */
  ghost predicate Inverse<J(!new)>(c: Codecs<J>) {
    && (forall b :: c.compress(b) != [])
    && (forall b :: c.decompress(c.compress(b)) == if |b| <= MAX_DECOMPRESSED_SIZE then Some(b) else None)
    && (forall j :: c.parse(c.stringify(j)) == Some(j))
    && (forall j :: Restorable(c.stringify(j)) && c.stringify(j) != [])
  }

  /** Text that the browser's codecs keep. */
  predicate Restorable(s: JsString) {
    WellFormed(s) && (s != [] ==> s[0] != BOM)
  }

  predicate Fits(s: JsString) {
    |TextEncode(s)| <= MAX_DECOMPRESSED_SIZE
  }

  function CompressEncode<J>(c: Codecs<J>, value: JsString): JsString {
    if value == [] then [] else Base64ToUrlSafe(Encode(c.compress(TextEncode(value))))
  }

  /** `None` if decompression throws. */
  function UncompressDecode<J>(c: Codecs<J>, encoded: JsString): Option<JsString> {
    if encoded == [] then Some([])
    else
      var compressed := BufferFrom(UrlSafeToBase64(encoded));
      if compressed == [] then Some([])
      else
        match c.decompress(compressed)
        case None => None
        case Some(b) => TextDecode(b)
  }

  /** What goes into the URL: the compressed UTF-8 form, in the URL-safe alphabet and without padding. */
  lemma CompressedForm<J>(c: Codecs<J>, value: JsString)
    ensures CompressEncode(c, value) == if value == [] then [] else UrlChars(Sextets(c.compress(Utf8.Encode(CodePoints(value)))))
  {
    if value != [] {
      UrlForm(c.compress(TextEncode(value)));
    }
  }

  /** A string comes back exactly when it is empty, or fits the limit and survives the text codecs. */
  lemma CompressRoundTrip<J(!new)>(c: Codecs<J>, s: JsString)
    requires Inverse(c)
    ensures UncompressDecode(c, CompressEncode(c, s)) == Some(s)
            <==> WellFormed(s) && (s != [] ==> s[0] != 0xFEFF) && |TextEncode(s)| <= 5 * 1024 * 1024
    ensures |TextEncode(s)| > 5 * 1024 * 1024 ==> UncompressDecode(c, CompressEncode(c, s)) == None
  {
    TextRoundTrip(s);
    if s != [] {
      var b := c.compress(TextEncode(s));
      assert b != [];
      UrlForm(b);
      UrlBase64RoundTrip(b);
    } else {
      assert TextEncode(s) == [];
    }
  }

  // ----- query strings -----

  function Split(s: JsString, separator: unit): (r: seq<JsString>)
    ensures |r| > 0
  {
    if s == [] then [[]]
    else
      var rest := Split(s[1..], separator);
      if s[0] == separator then [[]] + rest else [[s[0]] + rest[0]] + rest[1..]
  }

  lemma {:induction false} SplitJoined(a: JsString, b: JsString, separator: unit)
    requires separator !in a
    ensures Split(a + [separator] + b, separator) == [a] + Split(b, separator)
  {
    var s := a + [separator] + b;
    if a == [] {
      assert s[1..] == b;
    } else {
      assert s[1..] == a[1..] + [separator] + b;
      SplitJoined(a[1..], b, separator);
      assert a == [a[0]] + a[1..];
    }
  }

  lemma {:induction false} SplitAlone(a: JsString, separator: unit)
    requires separator !in a
    ensures Split(a, separator) == [a]
  {
    if a == [] {
    } else {
      SplitAlone(a[1..], separator);
      assert a == [a[0]] + a[1..];
    }
  }

  function Join(parts: seq<JsString>, separator: unit): JsString {
    if parts == [] then []
    else if |parts| == 1 then parts[0]
    else parts[0] + [separator] + Join(parts[1..], separator)
  }

  /** The parts are what stands between the separators. */
  lemma {:induction false} SplitIs(s: JsString, separator: unit)
    ensures Join(Split(s, separator), separator) == s
    ensures forall part <- Split(s, separator) :: separator !in part
  {
    if s == [] {
    } else {
      SplitIs(s[1..], separator);
      var rest := Split(s[1..], separator);
      assert s == [s[0]] + s[1..];
      if s[0] == separator {
        assert ([[]] + rest)[1..] == rest;
      } else {
        assert ([[s[0]] + rest[0]] + rest[1..])[1..] == rest[1..];
      }
    }
  }

  /** The part of a field before the first `=`, and the part behind it. */
  function FieldName(s: JsString): JsString {
    if s == [] || s[0] == EQUALS then [] else [s[0]] + FieldName(s[1..])
  }

  function FieldValue(s: JsString): JsString {
    if s == [] then [] else if s[0] == EQUALS then s[1..] else FieldValue(s[1..])
  }

  function Field(name: JsString, value: JsString): JsString {
    name + [EQUALS] + value
  }

  lemma {:induction false} FieldParts(name: JsString, value: JsString)
    requires EQUALS !in name
    ensures FieldName(Field(name, value)) == name && FieldValue(Field(name, value)) == value
  {
    var s := Field(name, value);
    if name == [] {
      assert s[1..] == value;
    } else {
      assert s[1..] == Field(name[1..], value);
      FieldParts(name[1..], value);
      assert name == [name[0]] + name[1..];
    }
  }

  /** Without a `=`, a field is a name without a value. */
  lemma {:induction false} FieldWithoutValue(s: JsString)
    requires EQUALS !in s
    ensures FieldName(s) == s && FieldValue(s) == []
  {
    if s != [] {
      FieldWithoutValue(s[1..]);
      assert s == [s[0]] + s[1..];
    }
  }

  /** `URLSearchParams.get` on the fields of a query string. */
  function Get(fields: seq<JsString>, name: JsString): Option<JsString> {
    if fields == [] then None
    else if fields[0] != [] && FieldName(fields[0]) == name then Some(FieldValue(fields[0]))
    else Get(fields[1..], name)
  }

  /** The first field of this name is at `i`. */
  ghost predicate FirstNamed(fields: seq<JsString>, name: JsString, i: int) {
    0 <= i < |fields| && IsNamed(fields[i], name) && forall j | 0 <= j < i :: !IsNamed(fields[j], name)
  }

  predicate IsNamed(field: JsString, name: JsString) {
    field != [] && FieldName(field) == name
  }

  /** The value is that of the first field of this name. */
  lemma {:induction false} GetIsFirst(fields: seq<JsString>, name: JsString)
    ensures match Get(fields, name)
            case None => forall i | 0 <= i < |fields| :: !IsNamed(fields[i], name)
            case Some(v) => exists i :: FirstNamed(fields, name, i) && v == FieldValue(fields[i])
  {
    hide FieldName, FieldValue;
    if fields == [] {
    } else if IsNamed(fields[0], name) {
      assert FirstNamed(fields, name, 0);
    } else {
      var rest := fields[1..];
      GetIsFirst(rest, name);
      assert forall j | 0 < j < |fields| :: fields[j] == rest[j - 1];
      if Get(rest, name).Some? {
        var i :| FirstNamed(rest, name, i) && Get(rest, name) == Some(FieldValue(rest[i]));
        assert FirstNamed(fields, name, i + 1);
      }
    }
  }

  // ----- the state -----

  const V: JsString := [118]
  const CODE: JsString := [99, 111, 100, 101]
  const LAYOUT: JsString := [108, 97, 121, 111, 117, 116]
  const STATE_VERSION: JsString := [49]

  ghost predicate Spells(s: JsString, text: string) {
    |s| == |text| && forall i | 0 <= i < |s| :: s[i] == text[i] as int
  }

  lemma NamesAreSpelled()
    ensures Spells(V, "v") && Spells(CODE, "code") && Spells(LAYOUT, "layout") && Spells(STATE_VERSION, "1")
    ensures Spells([PLUS, MINUS, SLASH, UNDERSCORE, EQUALS, AMPERSAND], "+-/_=&")
  {
  }

  datatype Layout<+J> = Absent | NullLayout | Value(json: J)

  datatype State<+J> = State(code: JsString, layout: Layout<J>)

  datatype Outcome<+J> = Undefined | Throws | Decoded(state: State<J>)

  function SerializeState<J>(c: Codecs<J>, state: State<J>): JsString {
    var params := Field(V, STATE_VERSION) + [AMPERSAND] + Field(CODE, CompressEncode(c, state.code));
    if !state.layout.Value? then params
    else params + [AMPERSAND] + Field(LAYOUT, CompressEncode(c, c.stringify(state.layout.json)))
  }

  function DeserializeState<J>(c: Codecs<J>, serialized: JsString): Outcome<J> {
    if serialized == [] then Undefined
    else
      var fields := Split(serialized, AMPERSAND);
      if Get(fields, V) != Some(STATE_VERSION) then Throws
      else Restore(c, OrEmpty(Get(fields, CODE)), OrEmpty(Get(fields, LAYOUT)))
  }

  /** The state behind the two compressed fields. */
  function Restore<J>(c: Codecs<J>, code: JsString, layout: JsString): Outcome<J> {
    match (UncompressDecode(c, code), UncompressDecode(c, layout))
    case (Some(code), Some(layoutJson)) =>
      if layoutJson == [] then Decoded(State(code, Absent))
      else
        (match c.parse(layoutJson)
         case None => Throws
         case Some(j) => Decoded(State(code, Value(j))))
    case _ => Throws
  }

  function OrEmpty(s: Option<JsString>): JsString {
    if s.Some? then s.value else []
  }

  lemma {:induction false} UrlCharsAreSafe(d: seq<sextet>)
    ensures AMPERSAND !in UrlChars(d) && EQUALS !in UrlChars(d)
  {
    if d == [] {
    } else {
      UrlCharsAreSafe(d[1..]);
    }
  }

  lemma CompressedIsSafe<J>(c: Codecs<J>, s: JsString)
    ensures AMPERSAND !in CompressEncode(c, s)
  {
    if s != [] {
      var b := c.compress(TextEncode(s));
      UrlForm(b);
      UrlCharsAreSafe(Sextets(b));
    }
  }

  /** Some first field named `v` has the value `1`. */
  ghost predicate HasVersion(serialized: JsString) {
    var fields := Split(serialized, AMPERSAND);
    exists i :: FirstNamed(fields, V, i) && FieldValue(fields[i]) == STATE_VERSION
  }

  /** `value` is that of the first field of this name, or empty without one. */
  ghost predicate HasValue(fields: seq<JsString>, name: JsString, value: JsString) {
    && ((forall i | 0 <= i < |fields| :: !IsNamed(fields[i], name)) ==> value == [])
    && (forall i | FirstNamed(fields, name, i) :: value == FieldValue(fields[i]))
  }

  lemma OrEmptyIs(fields: seq<JsString>, name: JsString, value: JsString)
    requires HasValue(fields, name, value)
    ensures OrEmpty(Get(fields, name)) == value
  {
    GetIsFirst(fields, name);
  }

  /** Only an empty string is undefined; a string without a version, or with another than 1, is refused. */
  lemma VersionIsChecked<J>(c: Codecs<J>, serialized: JsString)
    ensures DeserializeState(c, serialized) == Undefined <==> serialized == []
    ensures serialized != [] && !HasVersion(serialized) ==> DeserializeState(c, serialized) == Throws
  {
    hide Split, FieldName, FieldValue, UncompressDecode;
    GetIsFirst(Split(serialized, AMPERSAND), V);
  }

  /** The state behind a string of this version: both fields must decompress, and a layout must be JSON. */
  lemma FieldsAreRead<J>(c: Codecs<J>, serialized: JsString, code: JsString, layout: JsString, state: State<J>)
    requires serialized != [] && HasVersion(serialized)
    requires HasValue(Split(serialized, AMPERSAND), CODE, code)
    requires HasValue(Split(serialized, AMPERSAND), LAYOUT, layout)
    ensures DeserializeState(c, serialized) == Decoded(state)
            <==> && UncompressDecode(c, code) == Some(state.code)
                 && match UncompressDecode(c, layout)
                    case None => false
                    case Some(text) =>
                      if text == [] then state.layout == Absent
                      else state.layout.Value? && c.parse(text) == Some(state.layout.json)
  {
    var fields := Split(serialized, AMPERSAND);
    GetIsFirst(fields, V);
    OrEmptyIs(fields, CODE, code);
    OrEmptyIs(fields, LAYOUT, layout);
    hide Split, FieldName, FieldValue, UncompressDecode, Get, HasValue;
  }

  lemma SplitTwo(f1: JsString, f2: JsString)
    requires AMPERSAND !in f1 && AMPERSAND !in f2
    ensures Split(f1 + [AMPERSAND] + f2, AMPERSAND) == [f1] + [f2]
  {
    SplitAlone(f2, AMPERSAND);
    SplitJoined(f1, f2, AMPERSAND);
  }

  lemma SplitThree(f1: JsString, f2: JsString, f3: JsString)
    requires AMPERSAND !in f1 && AMPERSAND !in f2 && AMPERSAND !in f3
    ensures Split(f1 + [AMPERSAND] + f2 + [AMPERSAND] + f3, AMPERSAND) == [f1] + ([f2] + [f3])
  {
    var rest := f2 + [AMPERSAND] + f3;
    Regroup(f1 + [AMPERSAND], f2, [AMPERSAND], f3);
    assert Split(rest, AMPERSAND) == [f2] + [f3] by {
      SplitTwo(f2, f3);
    }
    SplitJoined(f1, rest, AMPERSAND);
  }

  lemma Regroup(a: JsString, b: JsString, c: JsString, d: JsString)
    ensures a + b + c + d == a + (b + c + d)
  {
  }

  /** The fields of a serialized state. */
  lemma SerializedFields<J>(c: Codecs<J>, state: State<J>)
    ensures var fields := Split(SerializeState(c, state), AMPERSAND);
            && |fields| == (if state.layout.Value? then 3 else 2)
            && Get(fields, V) == Some(STATE_VERSION)
            && Get(fields, CODE) == Some(CompressEncode(c, state.code))
            && Get(fields, LAYOUT)
               == if state.layout.Value? then Some(CompressEncode(c, c.stringify(state.layout.json))) else None
  {
    var code := CompressEncode(c, state.code);
    var f1, f2 := Field(V, STATE_VERSION), Field(CODE, code);
    CompressedIsSafe(c, state.code);
    FieldParts(V, STATE_VERSION);
    FieldParts(CODE, code);
    if state.layout.Value? {
      var layout := CompressEncode(c, c.stringify(state.layout.json));
      var f3 := Field(LAYOUT, layout);
      CompressedIsSafe(c, c.stringify(state.layout.json));
      FieldParts(LAYOUT, layout);
      SplitThree(f1, f2, f3);
      ThreeFields(f1, f2, f3);
    } else {
      SplitTwo(f1, f2);
      TwoFields(f1, f2);
    }
  }

  lemma TwoFields(f1: JsString, f2: JsString)
    requires f1 != [] && f2 != [] && FieldName(f1) == V && FieldName(f2) == CODE
    ensures var fields := [f1] + [f2];
            Get(fields, V) == Some(FieldValue(f1)) && Get(fields, CODE) == Some(FieldValue(f2)) && Get(fields, LAYOUT) == None
  {
    var fields := [f1] + [f2];
    assert fields[1..] == [f2] && [f2][1..] == [];
    assert Get([], LAYOUT) == None;
    assert |V| == 1 && |CODE| == 4 && |LAYOUT| == 6;
  }

  lemma ThreeFields(f1: JsString, f2: JsString, f3: JsString)
    requires f1 != [] && f2 != [] && f3 != []
    requires FieldName(f1) == V && FieldName(f2) == CODE && FieldName(f3) == LAYOUT
    ensures var fields := [f1] + ([f2] + [f3]);
            && Get(fields, V) == Some(FieldValue(f1))
            && Get(fields, CODE) == Some(FieldValue(f2))
            && Get(fields, LAYOUT) == Some(FieldValue(f3))
  {
    var fields := [f1] + ([f2] + [f3]);
    assert fields[1..] == [f2] + [f3] && fields[1..][1..] == [f3];
    assert |V| == 1 && |CODE| == 4 && |LAYOUT| == 6;
    assert Get([f3], LAYOUT) == Some(FieldValue(f3));
  }

  lemma DeserializedFields<J>(c: Codecs<J>, state: State<J>)
    ensures DeserializeState(c, SerializeState(c, state))
            == Restore(c, CompressEncode(c, state.code),
                       if state.layout.Value? then CompressEncode(c, c.stringify(state.layout.json)) else [])
  {
    SerializedFields(c, state);
    assert SerializeState(c, state)[0] == V[0];
  }

  /** A state that the URL can carry. */
  predicate Representable<J>(c: Codecs<J>, state: State<J>) {
    && !state.layout.NullLayout?
    && Restorable(state.code) && Fits(state.code)
    && (state.layout.Value? ==> Fits(c.stringify(state.layout.json)))
  }

  /**
   Reading back a serialized state gives the same state exactly when its layout is not null, its code has no lone
   surrogate and no leading byte order mark, and both parts fit the decompression limit.
   */
  lemma StateRoundTrip<J(!new)>(c: Codecs<J>, state: State<J>)
    requires Inverse(c)
    ensures DeserializeState(c, SerializeState(c, state)) == Decoded(state) <==> Representable(c, state)
  {
    hide SerializeState, DeserializeState, CompressEncode, UncompressDecode, TextEncode, WellFormed, Inverse;
    DeserializedFields(c, state);
    CompressRoundTrip(c, state.code);
    NothingDecodes(c);
    if state.layout.Value? {
      LayoutReads(c, state.layout.json);
    }
  }

  lemma NothingDecodes<J>(c: Codecs<J>)
    ensures UncompressDecode(c, []) == Some([])
  {
  }

  /** A layout comes back as its JSON, unless that is too large. */
  lemma LayoutReads<J(!new)>(c: Codecs<J>, json: J)
    requires Inverse(c)
    ensures var text := c.stringify(json);
            && text != [] && c.parse(text) == Some(json)
            && UncompressDecode(c, CompressEncode(c, text)) == if Fits(text) then Some(text) else None
  {
    hide CompressEncode, UncompressDecode, TextEncode, WellFormed;
    CompressRoundTrip(c, c.stringify(json));
    assert Restorable(c.stringify(json)) && c.stringify(json) != [];
  }

  /** What the text codecs make of a string that fits. */
  lemma CompressReads<J(!new)>(c: Codecs<J>, s: JsString)
    requires Inverse(c) && Fits(s)
    ensures UncompressDecode(c, CompressEncode(c, s)) == Some(AsRead(s))
  {
    ReadBack(s);
    if s != [] {
      var b := c.compress(TextEncode(s));
      assert b != [];
      UrlForm(b);
      UrlBase64RoundTrip(b);
    }
  }

  /** A state without a layout, or with a null one, comes back with its code as the text codecs read it. */
  lemma CodeIsRead<J(!new)>(c: Codecs<J>, state: State<J>)
    requires Inverse(c) && Fits(state.code) && !state.layout.Value?
    ensures DeserializeState(c, SerializeState(c, state)) == Decoded(State(AsRead(state.code), Absent))
  {
    DeserializedFields(c, state);
    CompressReads(c, state.code);
  }

  /** A leading byte order mark is lost, a lone surrogate is replaced, and a null layout comes back as none. */
  lemma StatesThatAreLost<J(!new)>(c: Codecs<J>)
    requires Inverse(c)
    ensures DeserializeState(c, SerializeState(c, State([BOM], Absent))) == Decoded(State([], Absent))
    ensures DeserializeState(c, SerializeState(c, State([0xD800], Absent))) == Decoded(State([0xFFFD], Absent))
    ensures DeserializeState(c, SerializeState(c, State([], NullLayout))) == Decoded(State([], Absent))
  {
    assert Fits([]) && AsRead([]) == [];
    hide SerializeState, DeserializeState, AsRead, TextEncode, Inverse;
    OneUnitRead(BOM);
    OneUnitRead(0xD800);
    CodeIsRead(c, State([BOM], Absent));
    CodeIsRead(c, State([0xD800], Absent));
    CodeIsRead(c, State([], NullLayout));
  }

  lemma OneUnitRead(u: unit)
    ensures AsRead([u]) == if u == BOM then [] else if High(u) || Low(u) then [0xFFFD] else [u]
    ensures Fits([u])
  {
    var cps := CodePoints([u]);
    assert CodePoints([u][1..]) == [] && |cps| == 1 && cps[1..] == [];
    assert Units(cps[1..]) == [];
    assert Utf8.Encode(cps) == Utf8.EncodeOne(cps[0]) + Utf8.Encode(cps[1..]);
  }
}
