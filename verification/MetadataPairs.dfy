/** Channel metadata: the pairs given by C, and the two iterators (c/src/channel.rs, c/src/channel_descriptor.rs). */
module MetadataPairs {
  import opened Wrappers
  import opened CStrings
  import opened BTreeMap
  import opened Contexts
  import opened Registry

  datatype KeyValue = KeyValue(key: FoxgloveString, value: FoxgloveString)

  predicate AllValid(items: seq<KeyValue>) {
    forall i | 0 <= i < |items| :: items[i].key.Valid() && items[i].value.Valid()
  }

  /** The pairs of a C array, unless a key or value is not UTF-8. */
  function Pairs(items: seq<KeyValue>): (r: Option<Metadata>)
    requires AllValid(items)
  {
    if items == [] then Some([])
    else
      var last := items[|items| - 1];
      match (Pairs(items[..|items| - 1]), last.key.AsUtf8(), last.value.AsUtf8())
      case (Some(init), Some(k), Some(v)) => Some(init + [Pair(k, v)])
      case _ => None
  }

  lemma {:induction false} PairsPrefix(items: seq<KeyValue>, i: nat)
    requires i <= |items| && AllValid(items)
    requires Pairs(items[..i]).None?
    ensures Pairs(items).None?
  {
    if i == |items| {
      assert items[..i] == items;
    } else {
      assert items[..|items| - 1][..i] == items[..i];
      PairsPrefix(items[..|items| - 1], i);
    }
  }

  /** Both strings are text. */
  predicate IsText(item: KeyValue)
    requires item.key.Valid() && item.value.Valid()
  {
    item.key.AsUtf8().Some? && item.value.AsUtf8().Some?
  }

  /** Every item gives the pair of its own texts, and there are pairs if all items are text. */
  lemma {:induction false} PairsAre(items: seq<KeyValue>)
    requires AllValid(items)
    ensures Pairs(items).Some? <==> forall i | 0 <= i < |items| :: IsText(items[i])
    ensures Pairs(items).Some? ==>
              && |Pairs(items).value| == |items|
              && forall i | 0 <= i < |items| ::
                   && items[i].key.AsUtf8() == Some(Pairs(items).value[i].key)
                   && items[i].value.AsUtf8() == Some(Pairs(items).value[i].value)
  {
    hide FoxgloveString.AsUtf8;
    if items == [] {
    } else {
      var init := items[..|items| - 1];
      PairsAre(init);
      assert forall i | 0 <= i < |init| :: init[i] == items[i];
    }
  }

  /** The item at `i` is the last one with the key `k`, and has the value `v`. */
  ghost predicate IsLastItem(items: seq<KeyValue>, i: int, k: seq<byte>, v: seq<byte>)
    requires AllValid(items)
  {
    && 0 <= i < |items| && items[i].key.AsUtf8() == Some(k) && items[i].value.AsUtf8() == Some(v)
    && forall j | i < j < |items| :: items[j].key.AsUtf8() != Some(k)
  }

  /** What is collected of the items is each key with its last value. */
  lemma {:induction false} CollectsLastItems(items: seq<KeyValue>, k: seq<byte>, v: seq<byte>)
    requires AllValid(items) && Pairs(items).Some?
    ensures Pair(k, v) in Collect(Pairs(items).value) <==> exists i :: IsLastItem(items, i, k, v)
  {
    var es := Pairs(items).value;
    PairsAre(items);
    hide Pairs, Collect, FoxgloveString.AsUtf8;
    CollectsLastEntries(es, Pair(k, v));
    forall i
      ensures IsLast(es, i, Pair(k, v)) <==> IsLastItem(items, i, k, v)
    {
      SameLast(items, es, i, k, v);
    }
  }

  lemma {:induction false} SameLast(items: seq<KeyValue>, es: Metadata, i: int, k: seq<byte>, v: seq<byte>)
    requires AllValid(items) && |es| == |items|
    requires forall j | 0 <= j < |items| :: items[j].key.AsUtf8() == Some(es[j].key) && items[j].value.AsUtf8() == Some(es[j].value)
    ensures IsLast(es, i, Pair(k, v)) <==> IsLastItem(items, i, k, v)
  {
    hide FoxgloveString.AsUtf8;
  }

  /** One more pair: it is collected after the others, or it stops the loop. */
  lemma {:induction false} PairsStep(items: seq<KeyValue>, i: nat)
    requires i < |items| && AllValid(items)
    requires Pairs(items[..i]).Some?
    ensures match (items[i].key.AsUtf8(), items[i].value.AsUtf8())
            case (Some(k), Some(v)) =>
              && Pairs(items[..i + 1]).Some?
              && Collect(Pairs(items[..i + 1]).value) == Insert(Collect(Pairs(items[..i]).value), k, v)
            case _ => Pairs(items).None?
  {
    assert items[..i + 1][..i] == items[..i];
    if items[i].key.AsUtf8().None? || items[i].value.AsUtf8().None? {
      PairsPrefix(items, i + 1);
    } else {
      var init, last := Pairs(items[..i]).value, Pair(items[i].key.AsUtf8().value, items[i].value.AsUtf8().value);
      assert (init + [last])[..|init|] == init;
    }
  }

  /** `foxglove_channel_metadata_iterator`: a raw pointer to a channel, and an index into its sorted map. */
  class ChannelIterator {
    const rt: Runtime
    const channel: nat
    var index: nat

    constructor (rt: Runtime, channel: nat)
      ensures this.rt == rt && this.channel == channel && index == 0
    {
      this.rt, this.channel, index := rt, channel, 0;
    }

    /** `foxglove_channel_metadata_iter_next`, with `out` telling whether there is room for the pair. */
    method Next(out: bool) returns (found: bool, pair: Pair<seq<byte>>)
      requires channel in rt.channels
      modifies this`index
      ensures found == (out && old(index) < |rt.channels[channel].descriptor.metadata|)
      ensures found ==> pair == rt.channels[channel].descriptor.metadata[old(index)] && index == old(index) + 1
      ensures !found ==> index == old(index)
    {
      pair := Pair([], []);
      if !out {
        return false, pair;
      }
      var metadata := rt.channels[channel].descriptor.metadata;
      if index >= |metadata| {
        return false, pair;
      }
      pair := metadata[index];
      index := index + 1;
      found := true;
    }

    /** Calling `next` until it returns false gives every remaining pair once, in order; it then goes on returning false. */
    method Drain() returns (pairs: Metadata)
      requires channel in rt.channels && index <= |rt.channels[channel].descriptor.metadata|
      modifies this`index
      ensures pairs == rt.channels[channel].descriptor.metadata[old(index)..]
      ensures index == |rt.channels[channel].descriptor.metadata|
    {
      ghost var metadata := rt.channels[channel].descriptor.metadata;
      pairs := [];
      var found := true;
      while found
        invariant old(index) <= index <= |metadata|
        invariant pairs == metadata[old(index)..index]
        invariant !found ==> index == |metadata|
        decreases |metadata| - index, found
      {
        var pair;
        found, pair := Next(true);
        if found {
          pairs := pairs + [pair];
        }
      }
    }
  }

  /** `foxglove_channel_descriptor_metadata_iterator`: its descriptor lives as long as the callback that was given it. */
  class DescriptorIterator {
    const descriptor: Descriptor
    var index: nat

    constructor (descriptor: Descriptor)
      ensures this.descriptor == descriptor && index == 0
    {
      this.descriptor, index := descriptor, 0;
    }

    /** `foxglove_channel_descriptor_metadata_iter_next`. */
    method Next(out: bool) returns (found: bool, pair: Pair<seq<byte>>)
      modifies this`index
      ensures found == (out && old(index) < |descriptor.metadata|)
      ensures found ==> pair == descriptor.metadata[old(index)] && index == old(index) + 1
      ensures !found ==> index == old(index)
    {
      pair := Pair([], []);
      if !out || index >= |descriptor.metadata| {
        return false, pair;
      }
      pair := descriptor.metadata[index];
      index := index + 1;
      found := true;
    }

    method Drain() returns (pairs: Metadata)
      requires index <= |descriptor.metadata|
      modifies this`index
      ensures pairs == descriptor.metadata[old(index)..] && index == |descriptor.metadata|
    {
      pairs := [];
      var found := true;
      while found
        invariant old(index) <= index <= |descriptor.metadata|
        invariant pairs == descriptor.metadata[old(index)..index]
        invariant !found ==> index == |descriptor.metadata|
        decreases |descriptor.metadata| - index, found
      {
        var pair;
        found, pair := Next(true);
        if found {
          pairs := pairs + [pair];
        }
      }
    }
  }

  /** Both iterators show the same pairs of a channel. */
  method DrainBoth(rt: Runtime, channel: nat) returns (pairs: Metadata, same: Metadata)
    requires channel in rt.channels
    ensures pairs == same == rt.channels[channel].descriptor.metadata
  {
    var ofChannel := new ChannelIterator(rt, channel);
    var ofDescriptor := new DescriptorIterator(rt.channels[channel].descriptor);
    pairs := ofChannel.Drain();
    same := ofDescriptor.Drain();
  }

  /**
   What iteration shows of the pairs given at creation: each key exactly once, in order, with its last value.
   */
  lemma IterationIsComplete(es: Metadata)
    ensures Sorted(Collect(es))
    ensures forall i | 0 <= i < |Collect(es)| :: LastFor(es, Collect(es)[i].key) == Some(Collect(es)[i].value)
    ensures forall k | LastFor(es, k).Some? :: Pair(k, LastFor(es, k).value) in Collect(es)
  {
    LastWriterWins(es, []);
    forall i | 0 <= i < |Collect(es)|
      ensures LastFor(es, Collect(es)[i].key) == Some(Collect(es)[i].value)
    {
      LookupAt(Collect(es), i);
      LastWriterWins(es, Collect(es)[i].key);
    }
    forall k | LastFor(es, k).Some?
      ensures Pair(k, LastFor(es, k).value) in Collect(es)
    {
      LastWriterWins(es, k);
      var i := LookupFinds(Collect(es), k);
    }
  }
}
