/** `foxglove_string`: a pointer and a length (c/src/lib.rs). */
module CStrings {
  import opened Wrappers
  import Utf8

  datatype FoxgloveString = FoxgloveString(data: Option<seq<byte>>, len: nat) {
    /** A non-null pointer is valid for `len` bytes. */
    predicate Valid() {
      data.Some? ==> |data.value| == len
    }

    /** `as_utf8_str`: null and empty strings are empty, and the rest must be UTF-8. */
    function AsUtf8(): Option<seq<byte>>
      requires Valid()
    {
      if data.None? || len == 0 then Some([])
      else if Utf8.Valid(data.value) then Some(data.value)
      else None
    }
  }

  /** A string is read as its bytes, which must encode some text; null is empty. */
  lemma ReadsItsBytes(s: FoxgloveString)
    requires s.Valid()
    ensures s.data.None? ==> s.AsUtf8() == Some([])
    ensures s.data.Some? ==> s.AsUtf8() in {None, s.data}
    ensures s.data.Some? ==> (s.AsUtf8().Some? <==> exists cps :: Utf8.AllScalars(cps) && Utf8.Encode(cps) == s.data.value)
  {
    if s.data.Some? {
      Utf8.ValidIffEncoding(s.data.value);
    }
  }
}
