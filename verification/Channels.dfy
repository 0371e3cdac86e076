/** Creating, closing, logging on and freeing channels (c/src/channel.rs). */
module Channels {
  import opened Wrappers
  import opened CStrings
  import opened BTreeMap
  import opened Contexts
  import opened RegistrySteps
  import opened Registry
  import opened MetadataPairs

  /** `foxglove_schema`. */
  datatype CSchema = CSchema(name: FoxgloveString, encoding: FoxgloveString, data: Option<seq<byte>>, len: nat) {
    predicate Valid() {
      name.Valid() && encoding.Valid() && (data.Some? ==> |data.value| == len)
    }

    /** `to_native`. */
    function ToNative(): Option<Schema>
      requires Valid()
    {
      if name.AsUtf8().None? || encoding.AsUtf8().None? then None
      else Some(Schema(name.AsUtf8().value, encoding.AsUtf8().value, if data.None? then [] else data.value))
    }
  }

  /** `ChannelBuilder`: owns one count of its context. `base` is the state without it. */
  class ChannelBuilder {
    const rt: Runtime
    const topic: Key
    const encoding: seq<byte>
    const schema: Option<Schema>
    var metadata: Metadata
    var context: nat
    ghost const base: State

    ghost predicate Valid()
      reads this, rt
    {
      rt.Valid() && context in base.contexts && context in base.contextHeld && rt.S() == Borrowed(base, context)
    }

    /** The default context, until another is set. */
    constructor (rt: Runtime, default: nat, topic: Key, encoding: seq<byte>, schema: Option<Schema>)
      requires rt.Valid() && default in rt.contexts && default in rt.contextHeld
      modifies rt`contexts, rt`contextHeld
      ensures Valid() && this.rt == rt && base == old(rt.S()) && context == default && metadata == []
      ensures this.topic == topic && this.encoding == encoding && this.schema == schema
    {
      this.rt, this.topic, this.encoding, this.schema := rt, topic, encoding, schema;
      metadata, context, base := [], default, rt.S();
      new;
      rt.CloneContext(default);
    }

    method SetContext(c: nat)
      requires Valid() && c in base.contexts && c in base.contextHeld
      modifies this`context, rt`contexts, rt`channels, rt`held, rt`contextHeld
      ensures Valid() && context == c
    {
      hide Counted, Indexed, Numbered;
      BorrowedMoves(base, context, c);
      rt.CloneContext(c);
      rt.DropContext(context);
      context := c;
    }

    method AddMetadata(key: seq<byte>, value: seq<byte>)
      modifies this`metadata
      ensures metadata == Insert(old(metadata), key, value)
    {
      metadata := Insert(metadata, key, value);
    }

    /** `build_raw`: consumes the builder, whose count of the context goes back. */
    method BuildRaw() returns (p: nat)
      requires Valid()
      modifies rt
      ensures rt.Valid() && p != 0 && rt.held == More(base.held, p) && rt.contextHeld == base.contextHeld
      ensures rt.nextAddress > old(rt.nextAddress)
      ensures var d := Descriptor(topic, encoding, schema, metadata);
              if exists q :: OpenAs(base, context, d, q) then Reused(base, rt.S(), context, d, p)
              else Opened(base, rt.S(), context, d, p)
    {
      hide Counted, Indexed, Numbered, OpenAs, Opened, Reused;
      var d := Descriptor(topic, encoding, schema, metadata);
      p := rt.BuildRaw(context, d);
      BuiltInBorrowed(base, rt.S(), context, d, p);
      rt.DropContext(context);
    }

    /** The builder goes out of scope. */
    method Abandon()
      requires Valid()
      modifies rt`contexts, rt`channels, rt`held, rt`contextHeld
      ensures rt.Valid() && rt.S() == base
    {
      hide Counted, Indexed, Numbered;
      BorrowedReturned(base, context);
      rt.DropContext(context);
    }
  }

  // ----- the C functions -----

  /** Whether every string of the call is UTF-8. */
  predicate AllText(topic: FoxgloveString, encoding: FoxgloveString, schema: Option<CSchema>, items: seq<KeyValue>)
    requires topic.Valid() && encoding.Valid() && (schema.Some? ==> schema.value.Valid()) && AllValid(items)
  {
    && topic.AsUtf8().Some? && encoding.AsUtf8().Some?
    && (schema.Some? ==> schema.value.name.AsUtf8().Some? && schema.value.encoding.AsUtf8().Some?)
    && forall i | 0 <= i < |items| :: IsText(items[i])
  }

  /** The descriptor that the arguments describe. */
  function Described(topic: FoxgloveString, encoding: FoxgloveString, schema: Option<CSchema>, items: seq<KeyValue>): Descriptor
    requires topic.Valid() && encoding.Valid() && (schema.Some? ==> schema.value.Valid()) && AllValid(items)
    requires AllText(topic, encoding, schema, items)
  {
    PairsAre(items);
    Descriptor(topic.AsUtf8().value, encoding.AsUtf8().value,
               if schema.Some? then schema.value.ToNative() else None, Collect(Pairs(items).value))
  }

  /** Every part of the descriptor is that of the argument, and the metadata are the last values of the keys, in order. */
  ghost predicate Describes(d: Descriptor, topic: FoxgloveString, encoding: FoxgloveString, schema: Option<CSchema>,
                            items: seq<KeyValue>)
    requires topic.Valid() && encoding.Valid() && (schema.Some? ==> schema.value.Valid()) && AllValid(items)
  {
    && topic.AsUtf8() == Some(d.topic) && encoding.AsUtf8() == Some(d.encoding)
    && (match schema
        case None => d.schema == None
        case Some(c) =>
          && d.schema.Some? && c.name.AsUtf8() == Some(d.schema.value.name)
          && c.encoding.AsUtf8() == Some(d.schema.value.encoding)
          && d.schema.value.data == if c.data.Some? then c.data.value else [])
    && Sorted(d.metadata) && forall k, v :: Pair(k, v) in d.metadata <==> exists i :: IsLastItem(items, i, k, v)
  }

  lemma DescribedDescribes(topic: FoxgloveString, encoding: FoxgloveString, schema: Option<CSchema>, items: seq<KeyValue>)
    requires topic.Valid() && encoding.Valid() && (schema.Some? ==> schema.value.Valid()) && AllValid(items)
    requires AllText(topic, encoding, schema, items)
    ensures Describes(Described(topic, encoding, schema, items), topic, encoding, schema, items)
  {
    PairsAre(items);
    var es := Pairs(items).value;
    LastWriterWins(es, []);
    hide Pairs, Collect, IsLastItem, Sorted, FoxgloveString.AsUtf8;
    forall k, v
      ensures Pair(k, v) in Collect(es) <==> exists i :: IsLastItem(items, i, k, v)
    {
      CollectsLastItems(items, k, v);
    }
  }

  /** The caller has one more handle, on the channel that was open with this descriptor, or on a new one. */
  ghost predicate Handed(s: State, s': State, c: nat, d: Descriptor, p: nat)
    requires c in s.contexts
  {
    && p != 0 && s'.held == More(s.held, p) && s'.contextHeld == s.contextHeld
    && if exists q :: OpenAs(s, c, d, q) then Reused(s, s', c, d, p) else Opened(s, s', c, d, p)
  }

  /** The handle is on an open channel of the context, with this descriptor. */
  lemma HandedIsOpen(s: State, s': State, c: nat, d: Descriptor, p: nat)
    requires c in s.contexts && Handed(s, s', c, d, p)
    ensures p in s'.channels && s'.channels[p].descriptor == d && s'.channels[p].context == c && !s'.channels[p].closed
  {
    hide OpenAs;
  }

  lemma HandedKeepsSinks(s: State, s': State, c: nat, d: Descriptor, p: nat, next: nat)
    requires c in s.contexts && Handed(s, s', c, d, p)
    ensures SinksKept(s.contexts, next, s'.contexts)
  {
    hide OpenAs;
  }

  /**
   `foxglove_raw_channel_create`. The caller's context is borrowed, and null stands for the default one. On failure
   everything is as it was.
   */
  method RawChannelCreate(rt: Runtime, default: nat, out: bool, topic: FoxgloveString, encoding: FoxgloveString,
                          schema: Option<CSchema>, context: nat, items: seq<KeyValue>)
    returns (code: Code, p: nat)
    requires rt.Valid() && default in rt.contexts && default in rt.contextHeld
    requires context != 0 ==> context in rt.contexts && context in rt.contextHeld
    requires topic.Valid() && encoding.Valid() && (schema.Some? ==> schema.value.Valid()) && AllValid(items)
    modifies rt
    ensures rt.Valid() && rt.nextAddress >= old(rt.nextAddress)
    ensures SinksKept(old(rt.contexts), old(rt.nextAddress), rt.contexts)
    ensures code == if !out then ValueError else if AllText(topic, encoding, schema, items) then Success else Utf8Error
    ensures code != Success ==> p == 0 && rt.S() == old(rt.S())
    ensures code == Success ==>
              Handed(old(rt.S()), rt.S(), if context == 0 then default else context,
                     Described(topic, encoding, schema, items), p)
    ensures code == Success ==>
              && p in rt.channels && !rt.channels[p].closed
              && rt.channels[p].context == (if context == 0 then default else context)
              && Describes(rt.channels[p].descriptor, topic, encoding, schema, items)
  {
    hide Counted, Indexed, Numbered, Opened, Reused, OpenAs, Describes;
    PairsAre(items);
    ghost var s, next := rt.S(), rt.nextAddress;
    if !out {
      return ValueError, 0;
    }
    if topic.AsUtf8().None? || encoding.AsUtf8().None? {
      return Utf8Error, 0;
    }
    var native := None;
    if schema.Some? {
      native := schema.value.ToNative();
      if native.None? {
        return Utf8Error, 0;
      }
    }
    var builder := new ChannelBuilder(rt, default, topic.AsUtf8().value, encoding.AsUtf8().value, native);
    if context != 0 {
      // `ManuallyDrop(Arc::from_raw(context))`: the raw pointer is used without its count being given up
      builder.SetContext(context);
    }
    code := AddAllMetadata(builder, items);
    if code == Success {
      p := builder.BuildRaw();
      ghost var d := Described(topic, encoding, schema, items);
      HandedKeepsSinks(s, rt.S(), builder.context, d, p, next);
      HandedIsOpen(s, rt.S(), builder.context, d, p);
      DescribedDescribes(topic, encoding, schema, items);
    } else {
      builder.Abandon();
      p := 0;
    }
  }

  /** The metadata loop: stops at the first string that is not UTF-8. */
  method AddAllMetadata(builder: ChannelBuilder, items: seq<KeyValue>) returns (code: Code)
    requires builder.metadata == [] && AllValid(items)
    modifies builder`metadata
    ensures code == if Pairs(items).Some? then Success else Utf8Error
    ensures code == Success ==> builder.metadata == Collect(Pairs(items).value)
  {
    var i := 0;
    while i < |items|
      invariant 0 <= i <= |items|
      invariant Pairs(items[..i]).Some? && builder.metadata == Collect(Pairs(items[..i]).value)
    {
      var key := items[i].key.AsUtf8();
      var value := items[i].value.AsUtf8();
      PairsStep(items, i);
      if key.None? || value.None? {
        return Utf8Error;
      }
      builder.AddMetadata(key.value, value.value);
      i := i + 1;
    }
    assert items[..|items|] == items;
    code := Success;
  }

  /** The `foxglove_channel_create_*` functions, whose message types bring their encoding and schema along. */
  method ChannelCreate(rt: Runtime, default: nat, out: bool, topic: FoxgloveString, context: nat,
                       encoding: seq<byte>, schema: Option<Schema>)
    returns (code: Code, p: nat)
    requires rt.Valid() && default in rt.contexts && default in rt.contextHeld && topic.Valid()
    requires context != 0 ==> context in rt.contexts && context in rt.contextHeld
    modifies rt
    ensures rt.Valid() && rt.nextAddress >= old(rt.nextAddress)
    ensures SinksKept(old(rt.contexts), old(rt.nextAddress), rt.contexts)
    ensures code == if !out then ValueError else if topic.AsUtf8().Some? then Success else Utf8Error
    ensures code != Success ==> p == 0 && rt.S() == old(rt.S())
    ensures code == Success ==>
              Handed(old(rt.S()), rt.S(), if context == 0 then default else context,
                     Descriptor(topic.AsUtf8().value, encoding, schema, []), p)
    ensures code == Success ==>
              && p in rt.channels && !rt.channels[p].closed
              && rt.channels[p].context == (if context == 0 then default else context)
              && rt.channels[p].descriptor == Descriptor(topic.AsUtf8().value, encoding, schema, [])
  {
    hide Counted, Indexed, Numbered, Opened, Reused, OpenAs;
    ghost var s, next := rt.S(), rt.nextAddress;
    if !out {
      return ValueError, 0;
    }
    if topic.AsUtf8().None? {
      return Utf8Error, 0;
    }
    var builder := new ChannelBuilder(rt, default, topic.AsUtf8().value, encoding, schema);
    if context != 0 {
      builder.SetContext(context);
    }
    p := builder.BuildRaw();
    ghost var d := Descriptor(topic.AsUtf8().value, encoding, schema, []);
    HandedKeepsSinks(s, rt.S(), builder.context, d, p, next);
    HandedIsOpen(s, rt.S(), builder.context, d, p);
    code := Success;
  }

  /** `foxglove_channel_close`: the channel leaves its context; its handles stay. */
  method ChannelClose(rt: Runtime, p: nat)
    requires rt.Valid() && (p != 0 ==> p in rt.held)
    modifies rt`contexts, rt`channels, rt`held, rt`contextHeld
    ensures rt.Valid() && rt.held == old(rt.held) && rt.contextHeld == old(rt.contextHeld)
    ensures SinksKept(old(rt.contexts), rt.nextAddress, rt.contexts)
    ensures p != 0 ==> p in rt.channels && rt.channels[p].closed
    ensures p == 0 || old(p in rt.channels && rt.channels[p].closed) ==> rt.S() == old(rt.S())
    ensures p != 0 && old(p in rt.channels && !rt.channels[p].closed) ==>
              old(rt.channels)[p].context in old(rt.contexts) && Removed(old(rt.S()), rt.S(), old(rt.channels)[p].context, p)
  {
    hide Counted, Indexed, Numbered;
    HeldIsInChannels(rt.S());
    if p != 0 {
      rt.CloseChannel(p);
    }
  }

  /** `foxglove_channel_free`: gives up one handle. */
  method ChannelFree(rt: Runtime, p: nat)
    requires rt.Valid() && (p != 0 ==> p in rt.held)
    modifies rt`channels, rt`held
    ensures rt.Valid()
    ensures if p == 0 then rt.S() == old(rt.S())
            else p in old(rt.channels) && old(rt.channels)[p].strong > 0 && rt.S() == Dropped(old(rt.S()), p)
    ensures rt.contextHeld == old(rt.contextHeld)
    ensures rt.held == if p == 0 then old(rt.held) else Fewer(old(rt.held), p)
  {
    hide Counted, Indexed, Numbered, OwnersMatch;
    HeldIsInChannels(rt.S());
    if p != 0 {
      DroppedIsIndexed(rt.S(), p);
      FewerThenMore(rt.held, p);
      ghost var s := rt.S();
      var arc := rt.FromRaw(p);
      StaysNumbered(s, rt.S(), rt.nextAddress, rt.nextId);
      rt.DropLocal(arc);
    }
  }

  /**
   `foxglove_channel_log`: the handle's count is a local's for a moment, and is not given up with it. What a channel does
   with a message is not part of this model.
   */
  method ChannelLog(rt: Runtime, p: nat, data: Option<seq<byte>>) returns (code: Code)
    requires rt.Valid() && (p != 0 ==> p in rt.held)
    modifies rt`channels, rt`held
    ensures code == if p == 0 || data.None? || data == Some([]) then ValueError else Success
    ensures rt.Valid() && rt.S() == old(rt.S())
  {
    hide Counted, Indexed, Numbered;
    if p == 0 || data.None? || data.value == [] {
      return ValueError;
    }
    FewerThenMore(rt.held, p);
    // `ManuallyDrop(Arc::from_raw(channel))`
    var arc := rt.FromRaw(p);
    rt.Forget(arc);
    code := Success;
  }

  /** `log_msg_to_channel`, behind the `foxglove_channel_log_*` functions: the same, with a typed channel around the local. */
  method LogMessage(rt: Runtime, p: nat) returns (code: Code)
    requires rt.Valid() && (p != 0 ==> p in rt.held)
    modifies rt`channels, rt`held
    ensures code == if p == 0 then ValueError else Success
    ensures rt.Valid() && rt.S() == old(rt.S())
  {
    hide Counted, Indexed, Numbered;
    if p == 0 {
      return ValueError;
    }
    FewerThenMore(rt.held, p);
    // `ManuallyDrop(Arc::from_raw(channel))`
    var arc := rt.FromRaw(p);
    rt.Forget(arc);
    code := Success;
  }
}
