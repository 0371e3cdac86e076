/** The two-call encode protocol of the generated `foxglove_*_encode` functions. */
module Encoding {
  import opened Wrappers
  import opened Messages
  import opened Memory
  import Denotation
  import Arenas

  /** The message cannot be converted: it is null, or some string in it is not UTF-8. */
  ghost predicate Refused(msg: Option<CMsg>)
    requires msg.Some? ==> Safe(msg.value)
  {
    msg.None? || !AllText(Texts(msg.value))
  }

  /** One call: converts in a fresh arena, encodes what the native struct in memory says, and drops the arena. */
  method EncodeMessage(machine: Machine, base: nat, encode: Tree -> seq<byte>, msg: Option<CMsg>,
                       buf: array?<byte>, len: nat, encodedLen: SizeCell?)
    returns (error: Code)
    requires machine.Valid() && (msg.Some? ==> Safe(msg.value))
    requires machine.stackStart <= base && base + Arenas.SIZE <= machine.stackStart + machine.stackBytes
    requires buf != null ==> len <= buf.Length
    modifies machine, buf, encodedLen
    ensures machine.Valid() && machine.live == old(machine.live)
    ensures error == EncodeError <==> Refused(msg)
    ensures error == EncodeError ==>
              && (encodedLen != null ==> encodedLen.value == old(encodedLen.value))
              && (buf != null ==> buf[..] == old(buf[..]))
    ensures forall t | msg.Some? && error != EncodeError && Says(msg.value, t) ::
              var n := |encode(t)|;
              && error == (if buf == null || len == 0 || len < n then BufferTooShort else Success)
              && (encodedLen != null ==> encodedLen.value == n)
              && (buf != null ==>
                    if error == Success then buf[..n] == encode(t) && buf[n..] == old(buf[..])[n..] else buf[..] == old(buf[..]))
  {
    hide Convert, Safe, Says, AllText, Texts;
    var arena := new Arenas.Arena(machine, base);
    if msg.None? {
      arena.Drop();
      return EncodeError;
    }
    var converted := arena.BorrowToNative(msg.value);
    ConvertSays(msg.value);
    if converted.Err? {
      arena.Drop();
      return EncodeError;
    }
    var data := encode(Denotation.Read(machine.mem, converted.value, Convert(msg.value).value));
    if len == 0 || buf == null {
      if encodedLen != null {
        encodedLen.value := |data|;
      }
      error := BufferTooShort;
    } else if len < |data| {
      if encodedLen != null {
        encodedLen.value := |data|;
      }
      error := BufferTooShort;
    } else {
      forall i | 0 <= i < |data| {
        buf[i] := data[i];
      }
      if encodedLen != null {
        encodedLen.value := |data|;
      }
      error := Success;
    }
    arena.Drop();
  }

  /**
   A call for the size, and a second one with any buffer. The second succeeds if and only if the buffer has room for the
   reported size, and for one byte at least; then the encoding is at its start and the rest of it is untouched. Either
   way the size is reported again, and a buffer that is too short is left alone.
   */
  method SizeThenEncode(machine: Machine, base: nat, encode: Tree -> seq<byte>, msg: Option<CMsg>, buf: array<byte>, len: nat)
    returns (error: Code, needed: nat, reported: nat)
    requires machine.Valid() && (msg.Some? ==> Safe(msg.value)) && len <= buf.Length
    requires machine.stackStart <= base && base + Arenas.SIZE <= machine.stackStart + machine.stackBytes
    modifies machine, buf
    ensures machine.Valid() && machine.live == old(machine.live)
    ensures error == EncodeError <==> Refused(msg)
    ensures error == EncodeError ==> buf[..] == old(buf[..])
    ensures error != EncodeError ==> error in {Success, BufferTooShort} && (error == Success <==> 0 < len && needed <= len)
    ensures forall t | msg.Some? && error != EncodeError && Says(msg.value, t) ::
              && needed == reported == |encode(t)|
              && if error == Success then buf[..needed] == encode(t) && buf[needed..] == old(buf[..])[needed..]
                 else buf[..] == old(buf[..])
  {
    SaysSomething(msg);
    var cell := new SizeCell(0);
    error := EncodeMessage(machine, base, encode, msg, null, 0, cell);
    needed := cell.value;
    error := EncodeMessage(machine, base, encode, msg, buf, len, cell);
    reported := cell.value;
  }

  /**
   The two calls in a row: one asks for the size, and the other fills a buffer of that size. The buffer then holds the
   encoding of the message, unless that is empty.
   */
  method TwoCalls(machine: Machine, base: nat, encode: Tree -> seq<byte>, msg: Option<CMsg>)
    returns (error: Code, buf: array<byte>)
    requires machine.Valid() && (msg.Some? ==> Safe(msg.value))
    requires machine.stackStart <= base && base + Arenas.SIZE <= machine.stackStart + machine.stackBytes
    modifies machine
    ensures machine.Valid() && machine.live == old(machine.live) && fresh(buf)
    ensures error == EncodeError <==> Refused(msg)
    ensures error == EncodeError ==> buf.Length == 0
    ensures forall t | msg.Some? && error != EncodeError && Says(msg.value, t) ::
              && buf[..] == encode(t)
              && error == if encode(t) == [] then BufferTooShort else Success
  {
    SaysSomething(msg);
    var needed := new SizeCell(0);
    error := EncodeMessage(machine, base, encode, msg, null, 0, needed);
    buf := new byte[needed.value](_ => 0);
    error := EncodeMessage(machine, base, encode, msg, buf, needed.value, needed);
  }

  /** A message that is not refused has one native form that says the same. */
  lemma SaysSomething(msg: Option<CMsg>)
    requires msg.Some? ==> Safe(msg.value)
    ensures !Refused(msg) ==> exists t :: Says(msg.value, t)
  {
    if !Refused(msg) {
      ConvertSays(msg.value);
      assert Says(msg.value, Convert(msg.value).value);
    }
  }

  /** A scene update without deletions or entities. */
  function EmptyScene(elem: Layout): CMsg {
    CMsg([Many(Null, 0, elem), Many(Null, 0, elem)])
  }

  lemma EmptySceneSays(elem: Layout)
    requires elem.Valid()
    ensures Safe(EmptyScene(elem)) && Texts(EmptyScene(elem)) == []
    ensures Says(EmptyScene(elem), Tree([TList([]), TList([])]))
  {
    var fs := EmptyScene(elem).fields;
    assert TextsOfFields(fs) == TextsOfField(fs[0]) + TextsOfFields(fs[1..]);
    assert TextsOfFields(fs[1..]) == TextsOfField(fs[1]) + TextsOfFields(fs[1..][1..]);
  }

  /** It encodes to nothing: the call with the reported size is refused. */
  method EmptyMessageIsRefused(machine: Machine, base: nat, encode: Tree -> seq<byte>, elem: Layout)
    returns (error: Code, buf: array<byte>)
    requires machine.Valid() && elem.Valid() && encode(Tree([TList([]), TList([])])) == []
    requires machine.stackStart <= base && base + Arenas.SIZE <= machine.stackStart + machine.stackBytes
    modifies machine
    ensures machine.Valid() && error == BufferTooShort && buf.Length == 0
  {
    EmptySceneSays(elem);
    error, buf := TwoCalls(machine, base, encode, Some(EmptyScene(elem)));
  }
}
