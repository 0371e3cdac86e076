/**
 Contexts and channels behind their reference counts (rust/foxglove/src/context.rs, raw_channel.rs). An `Arc` is an
 address in one of two tables; it is there for as long as it has an owner. Weak pointers are addresses, which are never
 given out again.
 */
module Contexts {
  import opened Wrappers
  import opened BTreeMap

  type Metadata = seq<Pair<seq<byte>>>

  datatype Schema = Schema(name: seq<byte>, encoding: seq<byte>, data: seq<byte>)

  /** `ChannelDescriptor`, apart from the id: what `matches` compares. */
  datatype Descriptor = Descriptor(topic: Key, encoding: seq<byte>, schema: Option<Schema>, metadata: Metadata)

  /** An `Arc<RawChannel>`: its count, and a channel that knows its context by a weak pointer. */
  datatype ChannelBox = ChannelBox(strong: nat, id: nat, descriptor: Descriptor, context: nat, closed: bool)

  /** An `Arc<Context>`: its count, the two indexes that own channels, and the ids of its sinks. */
  datatype ContextBox = ContextBox(strong: nat, channels: map<nat, nat>, byTopic: map<Key, seq<nat>>, sinks: set<nat>)

  type positive = n: nat | n > 0 witness 1

  /** How many owners each address has, among those that are not in an index. */
  type Owners = map<nat, positive>

  function Count(o: Owners, a: nat): nat {
    if a in o then o[a] else 0
  }

  function More(o: Owners, a: nat): Owners {
    o[a := Count(o, a) + 1]
  }

  function Fewer(o: Owners, a: nat): Owners
    requires a in o
  {
    if o[a] == 1 then o - {a} else o[a := o[a] - 1]
  }

  lemma MoreThenFewer(o: Owners, a: nat)
    ensures a in More(o, a) && Fewer(More(o, a), a) == o
  {
    assert a !in o ==> o[a := 1] - {a} == o;
  }

  /**
   Everything that is live, and who owns it outside of the indexes: handles of the caller, statics and locals. `ids`
   says which channel was given an id, and `latest` which was the last to be advertised with a descriptor.
   */
  datatype State = State(contexts: map<nat, ContextBox>, channels: map<nat, ChannelBox>,
                         held: Owners, contextHeld: Owners,
                         ids: map<nat, nat>, latest: map<(nat, Descriptor), nat>)

  // ----- owners -----

  function Topic(box: ContextBox, topic: Key): seq<nat> {
    if topic in box.byTopic then box.byTopic[topic] else []
  }

  /** How many entries of the id index own the channel `p`. */
  ghost function IndexRefs(box: ContextBox, p: nat, ch: ChannelBox): nat {
    if ch.id in box.channels && box.channels[ch.id] == p then 1 else 0
  }

  /** How many entries of the topic index own it. */
  ghost function TopicRefs(box: ContextBox, p: nat, ch: ChannelBox): nat {
    multiset(Topic(box, ch.descriptor.topic))[p]
  }

  ghost function BoxRefs(box: ContextBox, p: nat, ch: ChannelBox): nat {
    IndexRefs(box, p, ch) + TopicRefs(box, p, ch)
  }

  /** The owners of `p` in the indexes. */
  ghost function Refs(contexts: map<nat, ContextBox>, p: nat, ch: ChannelBox): nat {
    if ch.context in contexts then BoxRefs(contexts[ch.context], p, ch) else 0
  }

  ghost predicate FiledUnderId(channels: map<nat, ChannelBox>, c: nat, id: nat, p: nat) {
    p in channels && channels[p].id == id && channels[p].context == c
  }

  ghost predicate FiledUnderTopic(channels: map<nat, ChannelBox>, c: nat, t: Key, p: nat) {
    p in channels && channels[p].descriptor.topic == t && channels[p].context == c
  }

  /** Every index entry owns a live channel of this context, with the id or the topic under which it is filed. */
  ghost predicate Filed(channels: map<nat, ChannelBox>, c: nat, box: ContextBox) {
    && (forall id | id in box.channels :: FiledUnderId(channels, c, id, box.channels[id]))
    && (forall t, p | p in Topic(box, t) :: FiledUnderTopic(channels, c, t, p))
  }

  /** Both contexts have the same entries for every channel but `p`. */
  ghost predicate OthersAgree(channels: map<nat, ChannelBox>, a: ContextBox, b: ContextBox, p: nat) {
    forall q | q in channels && q != p ::
      && IndexRefs(a, q, channels[q]) == IndexRefs(b, q, channels[q])
      && TopicRefs(a, q, channels[q]) == TopicRefs(b, q, channels[q])
  }

  ghost predicate OwnersMatch(s: State, p: nat)
    requires p in s.channels
  {
    0 < s.channels[p].strong == Count(s.held, p) + Refs(s.contexts, p, s.channels[p])
  }

  ghost predicate ContextsCounted(s: State) {
    && (forall c | c in s.contexts :: s.contexts[c].strong == Count(s.contextHeld, c))
    && (forall c | c in s.contextHeld :: c in s.contexts)
  }

  ghost predicate ChannelsCounted(s: State) {
    && (forall p | p in s.channels :: OwnersMatch(s, p))
    && (forall p | p in s.held :: p in s.channels)
  }

  ghost predicate IdsAreUnique(channels: map<nat, ChannelBox>, ids: map<nat, nat>) {
    forall p | p in channels :: channels[p].id in ids && ids[channels[p].id] == p
  }

  /** Every count is the number of owners, and what has an owner is live. */
  ghost predicate Counted(s: State) {
    && (forall c | c in s.contexts :: Filed(s.channels, c, s.contexts[c]))
    && ContextsCounted(s) && ChannelsCounted(s) && IdsAreUnique(s.channels, s.ids)
  }

  // ----- what one owner more or less does -----

  /** The same channel, whatever its count. */
  ghost predicate Alike(a: ChannelBox, b: ChannelBox) {
    a.id == b.id && a.descriptor == b.descriptor && a.context == b.context
  }

  /** The files of a context stay in order while no filed channel goes. */
  lemma {:induction false} FilesKept(channels: map<nat, ChannelBox>, channels': map<nat, ChannelBox>, c: nat, box: ContextBox, p: nat)
    requires Filed(channels, c, box) && p in channels
    requires forall q | q != p && q in channels :: q in channels' && channels'[q] == channels[q]
    requires if p in channels' then Alike(channels'[p], channels[p])
             else channels[p].context == c ==> BoxRefs(box, p, channels[p]) == 0
    ensures Filed(channels', c, box)
  {
    forall id | id in box.channels
      ensures FiledUnderId(channels', c, id, box.channels[id])
    {
      assert FiledUnderId(channels, c, id, box.channels[id]);
    }
    forall t, q | q in Topic(box, t)
      ensures FiledUnderTopic(channels', c, t, q)
    {
      assert FiledUnderTopic(channels, c, t, q);
    }
  }

  /** Counting again when one channel has gained or lost an owner that is in no index. */
  lemma {:induction false} Recounted(s: State, s': State, p: nat)
    requires Counted(s) && p in s.channels && s' == s.(channels := s'.channels, held := s'.held)
    requires forall q | q != p :: Count(s'.held, q) == Count(s.held, q)
    requires forall q | q != p :: q in s'.channels <==> q in s.channels
    requires forall q | q != p && q in s.channels :: s'.channels[q] == s.channels[q]
    requires p in s'.channels ==>
               && Alike(s'.channels[p], s.channels[p]) && s'.channels[p].strong > 0
               && s'.channels[p].strong - s.channels[p].strong == Count(s'.held, p) - Count(s.held, p)
    requires p !in s'.channels ==> s.channels[p].strong == Count(s.held, p) && Count(s'.held, p) == 0
    ensures Counted(s')
  {
    hide Filed;
    assert OwnersMatch(s, p);
    forall c | c in s'.contexts
      ensures Filed(s'.channels, c, s'.contexts[c])
    {
      FilesKept(s.channels, s'.channels, c, s.contexts[c], p);
    }
    ChannelsRecounted(s, s', p);
  }

  /** The channels other than `p` have the owners that they had. */
  lemma {:induction false} ChannelsRecounted(s: State, s': State, p: nat)
    requires ChannelsCounted(s)
    requires forall q | q != p :: Count(s'.held, q) == Count(s.held, q)
    requires forall q | q != p :: q in s'.channels <==> q in s.channels
    requires forall q | q != p && q in s.channels :: s'.channels[q] == s.channels[q]
    requires forall q | q != p && q in s.channels ::
               Refs(s'.contexts, q, s.channels[q]) == Refs(s.contexts, q, s.channels[q])
    requires p in s'.channels ==> OwnersMatch(s', p)
    requires p !in s'.channels ==> Count(s'.held, p) == 0
    ensures ChannelsCounted(s')
  {
    forall q | q in s'.channels
      ensures OwnersMatch(s', q)
    {
      assert q != p ==> OwnersMatch(s, q);
    }
    forall q | q in s'.held
      ensures q in s'.channels
    {
      assert Count(s'.held, q) > 0;
    }
  }

  function Cloned(s: State, p: nat): State
    requires p in s.channels
  {
    s.(channels := s.channels[p := s.channels[p].(strong := s.channels[p].strong + 1)], held := More(s.held, p))
  }

  lemma ClonedIsCounted(s: State, p: nat)
    requires Counted(s) && p in s.channels
    ensures Counted(Cloned(s, p))
  {
    Recounted(s, Cloned(s, p), p);
  }

  /** An `Arc` goes out of scope; with its last owner the channel is gone. */
  function Dropped(s: State, p: nat): State
    requires p in s.channels && s.channels[p].strong > 0 && p in s.held
  {
    var ch := s.channels[p];
    s.(channels := if ch.strong == 1 then s.channels - {p} else s.channels[p := ch.(strong := ch.strong - 1)],
       held := Fewer(s.held, p))
  }

  lemma DroppedIsCounted(s: State, p: nat)
    requires Counted(s) && p in s.held
    ensures Counted(Dropped(s, p))
  {
    assert OwnersMatch(s, p);
    Recounted(s, Dropped(s, p), p);
  }

  // ----- moving an owner into an index, or out of it -----

  /** The indexes of one context have changed, and an owner of `p` has moved into them or out of them. */
  function Moved(s: State, c: nat, box: ContextBox, held: Owners): State {
    s.(contexts := s.contexts[c := box], held := held)
  }

  lemma {:induction false} MovedIsCounted(s: State, c: nat, box: ContextBox, held: Owners, p: nat)
    requires Counted(s) && c in s.contexts && p in s.channels && s.channels[p].context == c
    requires box.strong == s.contexts[c].strong && Filed(s.channels, c, box)
    requires forall q | q != p :: Count(held, q) == Count(s.held, q)
    requires OthersAgree(s.channels, s.contexts[c], box, p)
    requires BoxRefs(box, p, s.channels[p]) + Count(held, p) == BoxRefs(s.contexts[c], p, s.channels[p]) + Count(s.held, p)
    ensures Counted(Moved(s, c, box, held))
  {
    hide Filed, OwnersMatch, BoxRefs;
    var s' := Moved(s, c, box, held);
    OwnersMoved(s, c, box, held, p);
    OtherRefs(s, c, box, p);
    ChannelsRecounted(s, s', p);
    assert ContextsCounted(s') by {
      SameOwnersOfContexts(s, c, box, held);
    }
  }

  lemma OwnersMoved(s: State, c: nat, box: ContextBox, held: Owners, p: nat)
    requires ChannelsCounted(s) && c in s.contexts && p in s.channels && s.channels[p].context == c
    requires BoxRefs(box, p, s.channels[p]) + Count(held, p) == BoxRefs(s.contexts[c], p, s.channels[p]) + Count(s.held, p)
    ensures OwnersMatch(Moved(s, c, box, held), p)
  {
    assert OwnersMatch(s, p);
  }

  lemma OtherRefs(s: State, c: nat, box: ContextBox, p: nat)
    requires c in s.contexts
    requires OthersAgree(s.channels, s.contexts[c], box, p)
    ensures forall q | q != p && q in s.channels ::
              Refs(s.contexts[c := box], q, s.channels[q]) == Refs(s.contexts, q, s.channels[q])
  {
  }

  lemma SameOwnersOfContexts(s: State, c: nat, box: ContextBox, held: Owners)
    requires ContextsCounted(s) && c in s.contexts && box.strong == s.contexts[c].strong
    ensures ContextsCounted(Moved(s, c, box, held))
  {
  }

  /** The id index without the entry for `id`. */
  lemma Unindexed(channels: map<nat, ChannelBox>, ids: map<nat, nat>, c: nat, box: ContextBox, id: nat)
    requires Filed(channels, c, box) && id in box.channels
    requires IdsAreUnique(channels, ids)
    ensures var p, box' := box.channels[id], box.(channels := box.channels - {id});
            && FiledUnderId(channels, c, id, p) && Filed(channels, c, box')
            && OthersAgree(channels, box, box', p)
            && BoxRefs(box', p, channels[p]) == BoxRefs(box, p, channels[p]) - 1
  {
    var p, box' := box.channels[id], box.(channels := box.channels - {id});
    assert FiledUnderId(channels, c, id, p);
    forall i | i in box'.channels
      ensures FiledUnderId(channels, c, i, box'.channels[i])
    {
      assert FiledUnderId(channels, c, i, box.channels[i]);
    }
    forall t, q | q in Topic(box', t)
      ensures FiledUnderTopic(channels, c, t, q)
    {
      assert q in Topic(box, t);
    }
  }

  /** The id index with a new entry for `p`. */
  lemma IndexedAs(channels: map<nat, ChannelBox>, ids: map<nat, nat>, c: nat, box: ContextBox, id: nat, p: nat)
    requires Filed(channels, c, box) && id !in box.channels && FiledUnderId(channels, c, id, p)
    requires IdsAreUnique(channels, ids)
    ensures var box' := box.(channels := box.channels[id := p]);
            && Filed(channels, c, box')
            && OthersAgree(channels, box, box', p)
            && BoxRefs(box', p, channels[p]) == BoxRefs(box, p, channels[p]) + 1
  {
    var box' := box.(channels := box.channels[id := p]);
    forall i | i in box'.channels
      ensures FiledUnderId(channels, c, i, box'.channels[i])
    {
      assert i != id ==> FiledUnderId(channels, c, i, box.channels[i]);
    }
    forall t, q | q in Topic(box', t)
      ensures FiledUnderTopic(channels, c, t, q)
    {
      assert q in Topic(box, t);
    }
  }

  /** A context with another list for a topic; an empty list is no entry. */
  function Relisted(box: ContextBox, t: Key, list: seq<nat>): ContextBox {
    box.(byTopic := if list == [] then box.byTopic - {t} else box.byTopic[t := list])
  }

  /** The list has changed in how often it has `p`. */
  lemma {:induction false} RelistedIsFiled(channels: map<nat, ChannelBox>, c: nat, box: ContextBox, t: Key, list: seq<nat>, p: nat)
    requires Filed(channels, c, box) && FiledUnderTopic(channels, c, t, p)
    requires forall q | q != p :: multiset(list)[q] == multiset(Topic(box, t))[q]
    ensures var box' := Relisted(box, t, list);
            && Filed(channels, c, box')
            && OthersAgree(channels, box, box', p)
            && BoxRefs(box', p, channels[p]) + multiset(Topic(box, t))[p] == BoxRefs(box, p, channels[p]) + multiset(list)[p]
  {
    var box' := Relisted(box, t, list);
    assert Topic(box', t) == list && forall u | u != t :: Topic(box', u) == Topic(box, u);
    forall u, q | q in Topic(box', u)
      ensures FiledUnderTopic(channels, c, u, q)
    {
      if u == t && q != p {
        assert multiset(list)[q] > 0;
        assert q in Topic(box, t);
      }
    }
    forall i | i in box'.channels
      ensures FiledUnderId(channels, c, i, box'.channels[i])
    {
      assert FiledUnderId(channels, c, i, box.channels[i]);
    }
  }

  // ----- what holds between calls -----

  /** The channel is advertised: its context has it in the index. */
  ghost predicate Registered(contexts: map<nat, ContextBox>, p: nat, ch: ChannelBox) {
    ch.context in contexts && IndexRefs(contexts[ch.context], p, ch) == 1
  }

  /** Both indexes have the channel, or none; it is open if they have it; and no other channel is advertised like it. */
  ghost predicate Settled(s: State, pending: bool, p: nat)
    requires p in s.channels
  {
    var ch := s.channels[p];
    && (ch.context in s.contexts ==>
          TopicRefs(s.contexts[ch.context], p, ch) == IndexRefs(s.contexts[ch.context], p, ch))
    && (!pending ==> (ch.closed <==> !Registered(s.contexts, p, ch)))
    && (Registered(s.contexts, p, ch) ==>
          (ch.context, ch.descriptor) in s.latest && s.latest[(ch.context, ch.descriptor)] == p)
  }

  ghost predicate Indexed(s: State, pending: set<nat>) {
    && (forall c | c in s.contexts :: s.contexts[c].strong > 0)
    && (forall c, t | c in s.contexts && t in s.contexts[c].byTopic :: s.contexts[c].byTopic[t] != [])
    && (forall p | p in s.channels :: Settled(s, p in pending, p))
  }

  /** Counts that change, and channels that go, leave the rest settled. */
  lemma {:induction false} StaysIndexed(s: State, s': State, pending: set<nat>)
    requires Indexed(s, pending) && s'.contexts == s.contexts && s'.latest == s.latest
    requires forall q | q in s'.channels ::
               q in s.channels && Alike(s'.channels[q], s.channels[q]) && s'.channels[q].closed == s.channels[q].closed
    ensures Indexed(s', pending)
  {
    forall q | q in s'.channels
      ensures Settled(s', q in pending, q)
    {
      assert Settled(s, q in pending, q);
    }
  }

  /** Everything is settled but for `p`, in whose context only its own entries have changed. */
  lemma {:induction false} SettledAgain(s: State, s': State, pending: set<nat>, c: nat, p: nat)
    requires Indexed(s, pending) && c in s.contexts && OnlyChanged(s, s', pending, c, p)
    requires OthersAgree(s.channels, s.contexts[c], s'.contexts[c], p)
    requires forall k | k in s.latest :: k in s'.latest && (s'.latest[k] == s.latest[k] || NoneAdvertised(s, p, k))
    requires p in s'.channels ==> Settled(s', false, p)
    ensures Indexed(s', {})
  {
    forall q | q in s'.channels
      ensures Settled(s', false, q)
    {
      if q != p {
        assert Settled(s, false, q);
        var ch := s.channels[q];
        assert Registered(s'.contexts, q, ch) <==> Registered(s.contexts, q, ch);
        assert Registered(s.contexts, q, ch) ==> !NoneAdvertised(s, p, (ch.context, ch.descriptor));
      }
    }
  }

  /** No other channel has changed, and no context but `c`, which is still alive. */
  ghost predicate OnlyChanged(s: State, s': State, pending: set<nat>, c: nat, p: nat)
    requires c in s.contexts
  {
    && c in s'.contexts && s'.contexts == s.contexts[c := s'.contexts[c]]
    && s'.contexts[c].strong > 0 && (forall t | t in s'.contexts[c].byTopic :: s'.contexts[c].byTopic[t] != [])
    && forall q | q in s'.channels && q != p :: q in s.channels && s'.channels[q] == s.channels[q] && q !in pending
  }

  /** No channel but `p` is advertised in this context with this descriptor. */
  ghost predicate NoneAdvertised(s: State, p: nat, k: (nat, Descriptor)) {
    forall q | q in s.channels && q != p && s.channels[q].context == k.0 && s.channels[q].descriptor == k.1 ::
      !Registered(s.contexts, q, s.channels[q])
  }
}
