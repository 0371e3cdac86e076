/**
 Schema messages in their three forms. `CMsg` is what a C caller passes: null-or-valid pointers with separate
 counts. `Native` is the shallow Rust struct, whose vectors are addresses into memory. `Tree` is the message a
 reader of the native struct sees. Every generated message type is a list of fields, which the generator turns into
 code one field at a time, so one field list models them all (see Schemas for the concrete types).
 */
module Messages {
  import opened Wrappers
  import Utf8

  /** `size_of` and `align_of` of a native type. */
  datatype Layout = Layout(size: nat, align: nat) {
    predicate Valid() {
      size > 0 && align > 0
    }
  }

  /** A scalar, enum or C timestamp, copied as it is. */
  datatype Scalar = Number(bits: int) | Enum(tag: int) | Time(ptr: Option<(int, int)>)

  datatype CMsg = CMsg(fields: seq<CField>)

  /** A pointer to an array of nested messages, null or valid. */
  datatype CArray = Null | At(elems: seq<CMsg>)

  datatype CField =
    | Plain(value: Scalar)
    | Text(name: string, text: Option<seq<byte>>, len: nat)       // FoxgloveString
    | Raw(data: Option<seq<int>>, size: nat)                      // bytes, or an array of primitives
    | Sub(msg: Option<CMsg>)                                      // pointer to a nested message
    | Many(items: CArray, count: nat, elem: Layout)   // pointer and count of nested messages

  /** The native struct, as it lies in memory. */
  datatype Native = Native(fields: seq<NField>)

  datatype NField =
    | NPlain(value: Scalar)
    | NText(text: seq<byte>)
    | NRaw(data: seq<int>)
    | NSub(msg: Option<Native>)
    | NVec(ptr: nat, len: nat, capacity: nat, elem: Layout)

  /** The message itself. */
  datatype Tree = Tree(fields: seq<TField>)

  datatype TField =
    | TPlain(value: Scalar)
    | TText(text: seq<byte>)
    | TRaw(data: seq<int>)
    | TSub(msg: Option<Tree>)
    | TList(items: seq<Tree>)

  /** `FoxgloveError`, as far as a conversion can fail: the text of a UTF-8 error depends on the field and its bytes. */
  datatype Error = NullMessage | InvalidText(field: string, text: seq<byte>)

  /** What the C contract demands: a non-empty length or count comes with a valid pointer. */
  predicate Safe(m: CMsg) {
    forall f <- m.fields :: SafeField(f)
  }

  predicate SafeField(f: CField) {
    match f
    case Plain(_) => true
    case Text(_, text, len) => len > 0 ==> text.Some? && |text.value| == len
    case Raw(data, size) => size > 0 ==> data.Some? && |data.value| == size
    case Sub(msg) => msg.Some? ==> Safe(msg.value)
    case Many(items, count, elem) =>
      && elem.Valid()
      && (count > 0 ==> items.At? && |items.elems| == count && forall m <- items.elems :: Safe(m))
  }

  // ----- the specification: the simple recursive conversion -----

  /** `string_from_raw`. */
  function ConvertText(name: string, text: Option<seq<byte>>, len: nat): (r: Result<seq<byte>, Error>)
    requires SafeField(Text(name, text, len))
  {
    if len == 0 then Ok([])
    else if Utf8.Valid(text.value) then Ok(text.value)
    else Err(InvalidText(name, text.value))
  }

  function Convert(m: CMsg): (r: Result<Tree, Error>)
    requires Safe(m)
    decreases m, 0
  {
    match ConvertFields(m.fields)
    case Err(e) => Err(e)
    case Ok(fs) => Ok(Tree(fs))
  }

  function ConvertFields(fs: seq<CField>): (r: Result<seq<TField>, Error>)
    requires forall f <- fs :: SafeField(f)
    ensures r.Ok? ==> |r.value| == |fs|
    decreases fs, 1
  {
    if fs == [] then Ok([])
    else
      match ConvertField(fs[0])
      case Err(e) => Err(e)
      case Ok(t) => Prepend([t], ConvertFields(fs[1..]))
  }

  function ConvertField(f: CField): (r: Result<TField, Error>)
    requires SafeField(f)
    decreases f, 0
  {
    match f
    case Plain(v) => Ok(TPlain(v))
    case Text(name, text, len) =>
      (match ConvertText(name, text, len)
       case Err(e) => Err(e)
       case Ok(s) => Ok(TText(s)))
    case Raw(data, size) => Ok(TRaw(if size == 0 then [] else data.value))
    case Sub(None) => Ok(TSub(None))
    case Sub(Some(m)) =>
      (match Convert(m)
       case Err(e) => Err(e)
       case Ok(t) => Ok(TSub(Some(t))))
    case Many(items, count, _) =>
      if count == 0 then Ok(TList([]))
      else
        match ConvertList(items.elems)
        case Err(e) => Err(e)
        case Ok(ts) => Ok(TList(ts))
  }

  function ConvertList(ms: seq<CMsg>): (r: Result<seq<Tree>, Error>)
    requires forall m <- ms :: Safe(m)
    ensures r.Ok? ==> |r.value| == |ms|
    decreases ms, 1
  {
    if ms == [] then Ok([])
    else
      match Convert(ms[0])
      case Err(e) => Err(e)
      case Ok(t) => Prepend([t], ConvertList(ms[1..]))
  }

  function Prepend<T, E>(done: seq<T>, r: Result<seq<T>, E>): Result<seq<T>, E> {
    match r
    case Err(_) => r
    case Ok(rest) => Ok(done + rest)
  }

  lemma PrependNothing<T, E>(r: Result<seq<T>, E>)
    ensures Prepend([], r) == r
  {
    if r.Ok? {
      assert [] + r.value == r.value;
    }
  }

  /** A loop that has converted the first `i` fields to `ts` goes one field further. */
  lemma {:induction false} FieldsStep(fs: seq<CField>, ts: seq<TField>, i: nat)
    requires i < |fs| && forall f <- fs :: SafeField(f)
    requires ConvertFields(fs) == Prepend(ts, ConvertFields(fs[i..]))
    ensures match ConvertField(fs[i])
            case Err(e) => ConvertFields(fs) == Err(e)
            case Ok(t) => ConvertFields(fs) == Prepend(ts + [t], ConvertFields(fs[i + 1..]))
  {
    assert fs[i..][1..] == fs[i + 1..];
    var rest := ConvertFields(fs[i + 1..]);
    if ConvertField(fs[i]).Ok? && rest.Ok? {
      assert ts + ([ConvertField(fs[i]).value] + rest.value) == ts + [ConvertField(fs[i]).value] + rest.value;
    }
  }

  lemma {:induction false} ListStep(ms: seq<CMsg>, ts: seq<Tree>, i: nat)
    requires i < |ms| && forall m <- ms :: Safe(m)
    requires ConvertList(ms) == Prepend(ts, ConvertList(ms[i..]))
    ensures match Convert(ms[i])
            case Err(e) => ConvertList(ms) == Err(e)
            case Ok(t) => ConvertList(ms) == Prepend(ts + [t], ConvertList(ms[i + 1..]))
  {
    assert ms[i..][1..] == ms[i + 1..];
    var rest := ConvertList(ms[i + 1..]);
    if Convert(ms[i]).Ok? && rest.Ok? {
      assert ts + ([Convert(ms[i]).value] + rest.value) == ts + [Convert(ms[i]).value] + rest.value;
    }
  }

  // ----- which conversions fail, and how -----

  /** A string field met on the way. */
  datatype TextRef = TextRef(name: string, text: seq<byte>)

  /** Every non-empty string of the message, in depth-first field order. */
  function Texts(m: CMsg): seq<TextRef>
    requires Safe(m)
    decreases m, 0
  {
    TextsOfFields(m.fields)
  }

  function TextsOfFields(fs: seq<CField>): seq<TextRef>
    requires forall f <- fs :: SafeField(f)
    decreases fs, 1
  {
    if fs == [] then [] else TextsOfField(fs[0]) + TextsOfFields(fs[1..])
  }

  function TextsOfField(f: CField): seq<TextRef>
    requires SafeField(f)
    decreases f, 0
  {
    match f
    case Text(name, text, len) => if len == 0 then [] else [TextRef(name, text.value)]
    case Sub(Some(m)) => Texts(m)
    case Many(items, count, _) => if count == 0 then [] else TextsOfList(items.elems)
    case _ => []
  }

  function TextsOfList(ms: seq<CMsg>): seq<TextRef>
    requires forall m <- ms :: Safe(m)
    decreases ms, 1
  {
    if ms == [] then [] else Texts(ms[0]) + TextsOfList(ms[1..])
  }

  /** The error for the first string that is not UTF-8. */
  function FirstBad(ts: seq<TextRef>): Option<Error> {
    if ts == [] then None
    else if !Utf8.Valid(ts[0].text) then Some(InvalidText(ts[0].name, ts[0].text))
    else FirstBad(ts[1..])
  }

  function ErrorOf<T>(r: Result<T, Error>): Option<Error> {
    match r
    case Ok(_) => None
    case Err(e) => Some(e)
  }

  lemma {:induction false} FirstBadConcat(a: seq<TextRef>, b: seq<TextRef>)
    ensures FirstBad(a + b) == if FirstBad(a).Some? then FirstBad(a) else FirstBad(b)
  {
    if a == [] {
      assert a + b == b;
    } else {
      assert (a + b)[1..] == a[1..] + b;
      FirstBadConcat(a[1..], b);
    }
  }

  /** A conversion fails exactly when some string is not UTF-8, with the first such string in depth-first order. */
  lemma {:induction false} ConvertReportsFirstBadText(m: CMsg)
    requires Safe(m)
    ensures ErrorOf(Convert(m)) == FirstBad(Texts(m))
    decreases m, 0
  {
    FieldsReportFirstBad(m.fields);
  }

  lemma {:induction false} FieldsReportFirstBad(fs: seq<CField>)
    requires forall f <- fs :: SafeField(f)
    ensures ErrorOf(ConvertFields(fs)) == FirstBad(TextsOfFields(fs))
    decreases fs, 1
  {
    if fs == [] {
    } else {
      FieldReportsFirstBad(fs[0]);
      FieldsReportFirstBad(fs[1..]);
      FirstBadConcat(TextsOfField(fs[0]), TextsOfFields(fs[1..]));
    }
  }

  lemma {:induction false} FieldReportsFirstBad(f: CField)
    requires SafeField(f)
    ensures ErrorOf(ConvertField(f)) == FirstBad(TextsOfField(f))
    decreases f, 0
  {
    match f
    case Sub(Some(m)) => ConvertReportsFirstBadText(m);
    case Many(items, count, _) => if count > 0 { ListReportsFirstBad(items.elems); }
    case _ =>
  }

  lemma {:induction false} ListReportsFirstBad(ms: seq<CMsg>)
    requires forall m <- ms :: Safe(m)
    ensures ErrorOf(ConvertList(ms)) == FirstBad(TextsOfList(ms))
    decreases ms, 1
  {
    if ms == [] {
    } else {
      ConvertReportsFirstBadText(ms[0]);
      ListReportsFirstBad(ms[1..]);
      FirstBadConcat(Texts(ms[0]), TextsOfList(ms[1..]));
    }
  }

  /** The string at `i` is the first that is not text. */
  ghost predicate FirstBadAt(ts: seq<TextRef>, i: int) {
    0 <= i < |ts| && !Utf8.Valid(ts[i].text) && AllText(ts[..i])
  }

  /** `FirstBad` finds the first string that is not text, if there is one. */
  lemma {:induction false} FirstBadIs(ts: seq<TextRef>)
    ensures FirstBad(ts).None? <==> AllText(ts)
    ensures FirstBad(ts).Some? ==> exists i :: FirstBadAt(ts, i) && FirstBad(ts).value == InvalidText(ts[i].name, ts[i].text)
  {
    hide Utf8.Valid;
    if ts == [] {
    } else if !Utf8.Valid(ts[0].text) {
      assert FirstBadAt(ts, 0);
    } else {
      var rest := ts[1..];
      FirstBadIs(rest);
      assert ts == [ts[0]] + rest;
      if FirstBad(ts).Some? {
        var i :| FirstBadAt(rest, i) && FirstBad(rest).value == InvalidText(rest[i].name, rest[i].text);
        assert ts[..i + 1] == [ts[0]] + rest[..i] && ts[i + 1] == rest[i];
        assert FirstBadAt(ts, i + 1);
      }
    }
  }

  ghost predicate AllText(ts: seq<TextRef>) {
    forall r <- ts :: Utf8.Valid(r.text)
  }

  // ----- what a conversion says -----

  /** The native message says what the C struct says: the same values, bytes, lengths and nulls, field by field. */
  ghost predicate Says(m: CMsg, t: Tree) {
    |t.fields| == |m.fields| && forall i | 0 <= i < |m.fields| :: FieldSays(m.fields[i], t.fields[i])
  }

  ghost predicate FieldSays(f: CField, t: TField) {
    match f
    case Plain(v) => t.TPlain? && t.value == v
    case Text(_, text, len) => t.TText? && IsBehind(text, len, t.text)
    case Raw(data, size) => t.TRaw? && IsBehind(data, size, t.data)
    case Sub(msg) => t.TSub? && (t.msg.Some? <==> msg.Some?) && (msg.Some? && t.msg.Some? ==> Says(msg.value, t.msg.value))
    case Many(items, count, _) =>
      t.TList? && |t.items| == count && (items.At? ==> ElementsSay(items.elems, t.items))
  }

  /** Every element that both lists have says the same in both. */
  ghost predicate ElementsSay(ms: seq<CMsg>, ts: seq<Tree>) {
    forall i | 0 <= i < |ms| && i < |ts| :: Says(ms[i], ts[i])
  }

  /** `s` is the memory behind a pointer, whose length is given apart. */
  ghost predicate IsBehind<T>(data: Option<seq<T>>, len: nat, s: seq<T>) {
    |s| == len && (data.Some? ==> forall i | 0 <= i < |data.value| && i < len :: s[i] == data.value[i])
  }

  /** Conversion yields the one message that says what the C struct says, if all strings in it are text. */
  lemma {:induction false} ConvertSays(m: CMsg)
    requires Safe(m)
    ensures Convert(m).Ok? <==> AllText(Texts(m))
    ensures Convert(m).Ok? ==> forall t :: Says(m, t) <==> t == Convert(m).value
    decreases m, 0
  {
    ConvertReportsFirstBadText(m);
    FirstBadIs(Texts(m));
    if Convert(m).Ok? {
      forall t
        ensures Says(m, t) <==> t == Convert(m).value
      {
        FieldsSay(m.fields, t.fields);
      }
    }
  }

  lemma {:induction false} FieldsSay(fs: seq<CField>, ts: seq<TField>)
    requires (forall f <- fs :: SafeField(f)) && ConvertFields(fs).Ok?
    ensures (|ts| == |fs| && forall i | 0 <= i < |fs| :: FieldSays(fs[i], ts[i])) <==> ts == ConvertFields(fs).value
    decreases fs, 1
  {
    if fs == [] {
    } else if |ts| == |fs| {
      FieldSaysOne(fs[0], ts[0]);
      FieldsSay(fs[1..], ts[1..]);
      assert ts == [ts[0]] + ts[1..] && fs == [fs[0]] + fs[1..];
    }
  }

  lemma {:induction false} FieldSaysOne(f: CField, t: TField)
    requires SafeField(f) && ConvertField(f).Ok?
    ensures FieldSays(f, t) <==> t == ConvertField(f).value
    decreases f, 0
  {
    match f
    case Sub(Some(m)) => ConvertSays(m);
    case Many(items, count, _) =>
      if t.TList? && count > 0 { ListSays(items.elems, t.items); }
    case _ =>
  }

  lemma {:induction false} ListSays(ms: seq<CMsg>, ts: seq<Tree>)
    requires (forall m <- ms :: Safe(m)) && ConvertList(ms).Ok?
    ensures (|ts| == |ms| && ElementsSay(ms, ts)) <==> ts == ConvertList(ms).value
    decreases ms, 1
  {
    if ms == [] {
    } else if |ts| == |ms| {
      ConvertSays(ms[0]);
      ListSays(ms[1..], ts[1..]);
      assert ts == [ts[0]] + ts[1..] && ms == [ms[0]] + ms[1..];
    }
  }

  // ----- the strings of the native message -----

  /** Every non-empty string of a native message, in depth-first field order. */
  function StringsOf(t: Tree): seq<seq<byte>>
    decreases t, 0
  {
    StringsOfFields(t.fields)
  }

  function StringsOfFields(fs: seq<TField>): seq<seq<byte>>
    decreases fs, 1
  {
    if fs == [] then [] else StringsOfField(fs[0]) + StringsOfFields(fs[1..])
  }

  function StringsOfField(f: TField): seq<seq<byte>>
    decreases f, 0
  {
    match f
    case TText(text) => if text == [] then [] else [text]
    case TSub(Some(t)) => StringsOf(t)
    case TList(ts) => StringsOfList(ts)
    case _ => []
  }

  function StringsOfList(ts: seq<Tree>): seq<seq<byte>>
    decreases ts, 1
  {
    if ts == [] then [] else StringsOf(ts[0]) + StringsOfList(ts[1..])
  }

  /** The bytes of the strings met on the way. */
  function Strings(ts: seq<TextRef>): seq<seq<byte>> {
    seq(|ts|, i requires 0 <= i < |ts| => ts[i].text)
  }

  lemma StringsConcat(a: seq<TextRef>, b: seq<TextRef>)
    ensures Strings(a + b) == Strings(a) + Strings(b)
  {
  }

  /** Every string arrives with its bytes, in depth-first order, and nothing else does. */
  lemma {:induction false} StringsArrive(m: CMsg)
    requires Safe(m) && Convert(m).Ok?
    ensures StringsOf(Convert(m).value) == Strings(Texts(m))
    decreases m, 0
  {
    StringsOfFieldsArrive(m.fields);
  }

  lemma {:induction false} StringsOfFieldsArrive(fs: seq<CField>)
    requires (forall f <- fs :: SafeField(f)) && ConvertFields(fs).Ok?
    ensures StringsOfFields(ConvertFields(fs).value) == Strings(TextsOfFields(fs))
    decreases fs, 1
  {
    if fs == [] {
    } else {
      StringsOfFieldArrive(fs[0]);
      StringsOfFieldsArrive(fs[1..]);
      StringsConcat(TextsOfField(fs[0]), TextsOfFields(fs[1..]));
      assert ConvertFields(fs).value[1..] == ConvertFields(fs[1..]).value;
    }
  }

  lemma {:induction false} StringsOfFieldArrive(f: CField)
    requires SafeField(f) && ConvertField(f).Ok?
    ensures StringsOfField(ConvertField(f).value) == Strings(TextsOfField(f))
    decreases f, 0
  {
    match f
    case Sub(Some(m)) => StringsArrive(m);
    case Many(items, count, _) => if count > 0 { StringsOfListArrive(items.elems); }
    case _ =>
  }

  lemma {:induction false} StringsOfListArrive(ms: seq<CMsg>)
    requires (forall m <- ms :: Safe(m)) && ConvertList(ms).Ok?
    ensures StringsOfList(ConvertList(ms).value) == Strings(TextsOfList(ms))
    decreases ms, 1
  {
    if ms == [] {
    } else {
      StringsArrive(ms[0]);
      StringsOfListArrive(ms[1..]);
      StringsConcat(Texts(ms[0]), TextsOfList(ms[1..]));
      assert ConvertList(ms).value[1..] == ConvertList(ms[1..]).value;
    }
  }
}
