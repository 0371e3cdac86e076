/** Byte-array parameters: base64 in a string value (c/src/parameter.rs). */
module ParameterBytes {
  import opened Wrappers
  import opened CStrings
  import opened ParameterTree
  import opened ParameterHeap
  import opened ParameterNative
  import opened ParameterApi
  import Base64

  /** `get_byte_array_as_str`: the text, if the parameter has the type of byte arrays and its value is a string. */
  function ByteArrayText(n: Node): Option<seq<byte>>
    requires IsParam(n)
  {
    if n.value.Null? || n.ty != ByteArrayType || !n.value.inner.Str? then None else Some(n.value.inner.text)
  }

  /** The parameter has the type of byte arrays, and its value is the string `text`. */
  ghost predicate HasText(n: Node, text: seq<byte>) {
    n.Param? && n.ty == ByteArrayType && n.value.Box? && n.value.inner.Str? && n.value.inner.text == text
  }

  /** A clone, or any equal tree, holds the same text. */
  lemma SameTextWhenEqual(n: Node, n': Node)
    requires IsParam(n) && Erase(n) == Erase(n')
    ensures IsParam(n') && ByteArrayText(n') == ByteArrayText(n)
  {
    ErasedParams(n, n');
    assert Erase(n.value) == Erase(n'.value);
    if n.value.Box? { assert Erase(n.value.inner) == Erase(n'.value.inner); }
  }

  lemma TextIs(n: Node)
    requires IsParam(n)
    ensures forall text :: ByteArrayText(n) == Some(text) <==> HasText(n, text)
    ensures ByteArrayText(n).None? <==> forall text :: !HasText(n, text)
  {
    if ByteArrayText(n).Some? {
      assert HasText(n, ByteArrayText(n).value);
    }
  }

  /** Conversion to native and back keeps the text: `n'` is any parameter built from the native form of `n`. */
  lemma SameTextThroughNative(n: Node, n': Node)
    requires IsParam(n) && Erase(n') == FromParameter(ToParameter(n))
    ensures IsParam(n') && ByteArrayText(n') == ByteArrayText(n)
  {
    var p := ToParameter(n);
    var built := FromParameter(p);
    assert FromType(ToType(n.ty)) == n.ty == n'.ty;
    if p.value.Some? { NativeIsValue(p.value.value); }
    ErasedKind(n');
    assert Erase(n'.value) == built.value;
    if n.value.Box? {
      var v, v' := n.value.inner, n'.value.inner;
      assert Erase(v') == FromNative(ToNative(v));
      assert v.Str? <==> v'.Str?;
    }
  }

  lemma {:induction false} NativeIsValue(v: PValue)
    ensures IsValue(FromNative(v))
  {
    match v
    case PArray(vs) => forall i | 0 <= i < |vs| ensures IsValue(FromNatives(vs)[i]) { NativeIsValue(vs[i]); }
    case PDict(es) =>
      forall i | 0 <= i < |es| ensures IsEntry(FromPairs(es)[i]) {
        NativeIsValue(es[i].value);
      }
    case _ =>
  }

  /** `foxglove_parameter_create_byte_array`. */
  method CreateByteArray(lib: Library, out: bool, name: FoxgloveString, bytes: seq<byte>)
    returns (code: Code, p: nat, ghost n: Node)
    requires lib.Valid() && name.Valid()
    modifies lib`roots, lib.m
    ensures lib.Valid() && lib.m.faults == old(lib.m.faults)
    ensures code == if !out then ValueError else if name.AsUtf8().None? then Utf8Error else Success
    ensures code == Success ==>
              && p != 0 && n.Box? && n.at == p && lib.roots == old(lib.roots) + {n}
              && IsParam(n.inner) && n.inner.name.text == name.AsUtf8().value
              && ByteArrayText(n.inner) == Some(Base64.Encode(bytes)) && HasText(n.inner, Base64.Encode(bytes))
    ensures code != Success ==> lib.roots == old(lib.roots)
  {
    Base64.EncodingIsText(bytes);
    var value; ghost var v;
    value, v := lib.StringValue(Base64.Encode(bytes));
    code, p, n := lib.ParameterCreate(out, name, ByteArrayType, value, v);
  }

  /** Reads the text of a parameter's byte array from the heap. */
  method GetByteArray(m: Allocator, param: Cell, ghost n: Node) returns (text: Option<seq<byte>>)
    requires IsParam(n) && param == CellOf(n) && Single(n) && In(m.heap, n)
    ensures text == ByteArrayText(n)
  {
    ghost var v := n.value;
    assert Single(v) && In(m.heap, v) && param.value == CellOf(v);
    if param.value.ptr == 0 || param.ty != ByteArrayType {
      return None;
    }
    assert v.Box? && In(m.heap, v.inner);
    var value := m.heap[param.value.ptr].cell;
    if !value.StringCell? {
      return None;
    }
    text := Some(if value.len == 0 then [] else m.heap[value.ptr].bytes);
  }

  /** `foxglove_parameter_get_byte_array_decoded_size`: an estimate, written to `len`. */
  method GetDecodedSize(lib: Library, p: nat, len: SizeCell, ghost r: Node) returns (code: Code)
    requires lib.Valid() && lib.Holds(p, r) && (p != 0 ==> IsParam(r.inner))
    modifies len
    ensures var text := if p == 0 then None else ByteArrayText(r.inner);
            if text.None? then code == ValueError && len.value == old(len.value)
            else code == Success && len.value == Base64.DecodedLenEstimate(|text.value|)
    ensures code == ValueError <==> p == 0 || forall text :: !HasText(r.inner, text)
    ensures p != 0 ==> forall text | HasText(r.inner, text) :: len.value == Base64.DecodedLenEstimate(|text|)
  {
    if p == 0 {
      return ValueError;
    }
    TextIs(r.inner);
    var text := GetByteArray(lib.m, lib.m.heap[p].cell, r.inner);
    if text.None? {
      return ValueError;
    }
    len.value := Base64.DecodedLenEstimate(|text.value|);
    code := Success;
  }

  /** Writes the bytes at the start of the buffer. */
  method CopyInto(data: array<byte>, bytes: seq<byte>)
    requires |bytes| <= data.Length
    modifies data
    ensures data[..] == bytes + old(data[..])[|bytes|..]
  {
    forall i | 0 <= i < |bytes| {
      data[i] := bytes[i];
    }
  }

  /** Writes anything into the first `n` bytes. */
  method Scribble(data: array<byte>, n: nat)
    requires n <= data.Length
    modifies data
    ensures data[n..] == old(data[..])[n..]
  {
    for i := 0 to n
      invariant data[n..] == old(data[..])[n..]
    {
      data[i] := *;
    }
  }

  datatype Outcome = Returned(code: Code) | Panicked

  /** `foxglove_parameter_decode_byte_array`: `len` holds the capacity of `data`, and then the number of bytes written. */
  method DecodeByteArray(lib: Library, p: nat, data: array?<byte>, len: SizeCell, ghost r: Node) returns (o: Outcome)
    requires lib.Valid() && lib.Holds(p, r) && (p != 0 ==> IsParam(r.inner))
    requires data != null ==> len.value <= data.Length
    modifies len, data
    ensures var text := if p == 0 then None else ByteArrayText(r.inner);
            var capacity := old(len.value);
            if text.None? then o == Returned(ValueError)
            else if capacity < Base64.DecodedLenEstimate(|text.value|) then o == Returned(BufferTooShort)
            else
              match Base64.Decode(text.value)
              case None => o == Returned(Base64DecodeError) || (data == null && o == Panicked)
              case Some(bytes) =>
                if data == null && bytes != [] then o == Panicked
                else
                  && o == Returned(Success) && len.value == |bytes| <= capacity
                  && (data != null ==> data[..|bytes|] == bytes)
    // `*len` changes on success only, and nothing behind the decoded bytes does; a decoder that finds a bad character
    // may have written what came before it
    ensures o != Returned(Success) ==> len.value == old(len.value)
    ensures o == Returned(ValueError) <==> p == 0 || forall text :: !HasText(r.inner, text)
    ensures p != 0 ==> forall text | HasText(r.inner, text) :: ByteArrayText(r.inner) == Some(text)
    ensures data != null && o in {Returned(ValueError), Returned(BufferTooShort)} ==> data[..] == old(data[..])
    ensures data != null && o == Returned(Base64DecodeError) ==>
              old(len.value) <= data.Length && data[old(len.value)..] == old(data[..])[old(len.value)..]
    ensures data != null && o == Returned(Success) ==>
              len.value <= data.Length && data[len.value..] == old(data[..])[len.value..]
  {
    if p == 0 {
      return Returned(ValueError);
    }
    TextIs(r.inner);
    var text := GetByteArray(lib.m, lib.m.heap[p].cell, r.inner);
    if text.None? {
      return Returned(ValueError);
    }
    if len.value < Base64.DecodedLenEstimate(|text.value|) {
      return Returned(BufferTooShort);
    }
    var decoded := Base64.Decode(text.value);
    if decoded.None? {
      if data == null {
        // an empty slice is too small, or the bad character is seen first
        o :| o in {Panicked, Returned(Base64DecodeError)};
        return o;
      }
      Scribble(data, len.value);
      return Returned(Base64DecodeError);
    }
    var bytes := decoded.value;
    Base64.DecodeIffEncoded(text.value, bytes);
    Base64.EstimateIsTight(bytes);
    if data == null {
      if bytes != [] {
        return Panicked;
      }
    } else {
      CopyInto(data, bytes);
    }
    len.value := |bytes|;
    o := Returned(Success);
  }

  /**
   The round trip: create, clone, free the original, ask for the size, and decode into a buffer of that size. Every
   byte string comes back.
   */
  method RoundTrip(lib: Library, name: FoxgloveString, bytes: seq<byte>) returns (data: array<byte>, n: nat)
    requires lib.Valid() && name.Valid() && name.AsUtf8().Some?
    modifies lib`roots, lib.m
    ensures lib.Valid() && lib.m.faults == old(lib.m.faults)
    ensures n == |bytes| <= data.Length <= |bytes| + 2 && data[..n] == bytes
  {
    hide Forest, Base64.Encode;
    var code, p, q; ghost var r, c;
    code, p, r := CreateByteArray(lib, true, name, bytes);
    q, c := lib.CloneHandle(p, r);
    SameTextWhenEqual(r.inner, c.inner);
    lib.FreeHandle(p, r);
    data, n := SizeThenDecode(lib, q, bytes, c);
  }

  /** Asks for the size and decodes into a buffer of that size. */
  method SizeThenDecode(lib: Library, p: nat, ghost bytes: seq<byte>, ghost r: Node) returns (data: array<byte>, n: nat)
    requires lib.Valid() && p != 0 && lib.Holds(p, r) && IsParam(r.inner)
    requires ByteArrayText(r.inner) == Some(Base64.Encode(bytes))
    ensures n == |bytes| <= data.Length <= |bytes| + 2 && data[..n] == bytes && fresh(data)
  {
    var len := new SizeCell(0);
    var code := GetDecodedSize(lib, p, len, r);
    Base64.EstimateIsTight(bytes);
    Base64.EncodedDecodes(bytes);
    data := new byte[len.value](_ => 0);
    var o := DecodeByteArray(lib, p, data, len, r);
    n := len.value;
  }
}
