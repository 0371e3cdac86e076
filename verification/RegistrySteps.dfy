/** What the single steps on contexts and channels do to the counts and to the indexes. */
module RegistrySteps {
  import opened BTreeMap
  import opened Contexts

  /** What is left of the heap when `c` has been cleared: its channels are closed, and those without a handle are gone. */
  ghost predicate Cleared(s: State, s': State, c: nat) {
    && s'.held == s.held
    && (forall p | p in s'.channels :: p in s.channels && Alike(s'.channels[p], s.channels[p]))
    && (forall p | p in s.channels && s.channels[p].context != c :: p in s'.channels && s'.channels[p] == s.channels[p])
    && (forall p | p in s'.channels && s'.channels[p].context == c :: s'.channels[p].closed)
    && (forall p | p in s.channels && s.channels[p].context == c :: p in s'.channels <==> p in s.held)
  }

  /** An owner of `c` is gone: its count is one less, or it was the last and the context is cleared. */
  ghost predicate ContextDropped(s: State, s': State, c: nat) {
    && c in s.contexts && s.contexts[c].strong > 0 && c in s.contextHeld && s'.contextHeld == Fewer(s.contextHeld, c)
    && if c in s'.contextHeld
       then s' == s.(contexts := s.contexts[c := s.contexts[c].(strong := s.contexts[c].strong - 1)], contextHeld := s'.contextHeld)
       else s'.contexts == s.contexts - {c} && Cleared(s, s', c)
  }

  /** The same, on the way. */
  ghost predicate Fading(s: State, s': State, c: nat)
    requires c in s.contexts
  {
    && s' == s.(contexts := s'.contexts, channels := s'.channels)
    && c in s'.contexts && s'.contexts == s.contexts[c := s'.contexts[c]] && s'.contexts[c].strong == s.contexts[c].strong
    && (forall p | p in s'.channels :: p in s.channels && Alike(s'.channels[p], s.channels[p]))
    && (forall p | p in s.channels && s.channels[p].context != c :: p in s'.channels && s'.channels[p] == s.channels[p])
  }

  /** The open channels of the context are in its id index, and no list is empty. */
  ghost predicate Quiet(s: State, c: nat)
    requires c in s.contexts
  {
    && (forall p | p in s.channels && s.channels[p].context == c && !s.channels[p].closed ::
          Registered(s.contexts, p, s.channels[p]))
    && (forall t | t in s.contexts[c].byTopic :: s.contexts[c].byTopic[t] != [])
  }

  /** `p` is a new channel in `c`, owned by its handle and by both indexes. */
  ghost predicate Opened(s: State, s': State, c: nat, d: Descriptor, p: nat)
    requires c in s.contexts
  {
    && p !in s.channels && p in s'.channels
    && s'.channels == s.channels[p := ChannelBox(3, s'.channels[p].id, d, c, false)]
    && s'.channels[p].id !in s.ids
    && var box := s.contexts[c];
    && s'.contexts == s.contexts[c := box.(channels := box.channels[s'.channels[p].id := p],
                                           byTopic := box.byTopic[d.topic := Topic(box, d.topic) + [p]])]
  }

  /** `p` is the channel that `c` had already advertised with this descriptor, with one more handle. */
  ghost predicate Reused(s: State, s': State, c: nat, d: Descriptor, p: nat) {
    && p in s.channels && s.channels[p].context == c && s.channels[p].descriptor == d && !s.channels[p].closed
    && s'.channels == s.channels[p := s.channels[p].(strong := s.channels[p].strong + 1)]
    && s'.contexts == s.contexts
  }

  /** Addresses and ids are not given out twice. */
  ghost predicate Numbered(s: State, nextAddress: nat, nextId: nat) {
    && nextAddress > 0
    && (forall p | p in s.channels :: 0 < p < nextAddress && s.channels[p].context < nextAddress)
    && (forall c | c in s.contexts :: 0 < c < nextAddress)
    && (forall id | id in s.ids :: id < nextId)
  }

  lemma AddressIsUsed(s: State, nextAddress: nat, nextId: nat, c: nat)
    requires Numbered(s, nextAddress, nextId) && c in s.contexts
    ensures 0 < c < nextAddress
  {
  }

  lemma HeldIsInChannels(s: State)
    requires Counted(s)
    ensures forall p | p in s.held :: p in s.channels && s.channels[p].strong > 0
  {
    forall p | p in s.held
      ensures s.channels[p].strong > 0
    {
      assert OwnersMatch(s, p);
    }
  }

  lemma ContextCount(s: State, c: nat)
    requires Counted(s) && Indexed(s, {}) && c in s.contexts
    ensures 0 < s.contexts[c].strong == Count(s.contextHeld, c)
  {
  }

  lemma AddressIsNotNull(s: State, nextAddress: nat, nextId: nat, p: nat)
    requires Numbered(s, nextAddress, nextId) && p in s.channels
    ensures p != 0
  {
  }

  lemma {:induction false} StaysNumbered(s: State, s': State, nextAddress: nat, nextId: nat)
    requires Numbered(s, nextAddress, nextId) && s'.ids == s.ids
    requires s'.channels.Keys <= s.channels.Keys && s'.contexts.Keys <= s.contexts.Keys
    requires forall p | p in s'.channels :: s'.channels[p].context == s.channels[p].context
    ensures Numbered(s', nextAddress, nextId)
  {
  }

  /** Every context is one that was there, with the sinks that it had, or has a new address. */
  ghost predicate SinksKept(contexts: map<nat, ContextBox>, next: nat, contexts': map<nat, ContextBox>) {
    forall c | c in contexts' :: if c in contexts then contexts'[c].sinks == contexts[c].sinks else c >= next
  }

  /** The context has advertised this channel with this descriptor. */
  ghost predicate OpenAs(s: State, c: nat, d: Descriptor, p: nat) {
    p in s.channels && s.channels[p].context == c && s.channels[p].descriptor == d && !s.channels[p].closed
  }

  lemma BuiltFresh(s: State, s1: State, c: nat, d: Descriptor, p: nat)
    requires Indexed(s, {}) && c in s.contexts && p !in s.channels && p !in s.held && p in s1.channels
    requires s1 == s.(channels := s.channels[p := ChannelBox(1, s1.channels[p].id, d, c, false)], held := s.held[p := 1],
                      ids := s1.ids)
    requires s1.channels[p].id !in s.ids && NoMatch(s1, c, d)
    ensures Opened(s, Enrolled(s1, c, p), c, d, p) && Enrolled(s1, c, p).held == More(s.held, p)
    ensures !exists q :: OpenAs(s, c, d, q)
  {
    forall q
      ensures !OpenAs(s, c, d, q)
    {
      hide Enrolled, Opened;
      if OpenAs(s, c, d, q) {
        OpenIsListed(s, c, d, q);
      }
    }
    hide Indexed, OpenAs, NoMatch;
    assert Topic(InIndex(s1, c, p).contexts[c], d.topic) == Topic(s.contexts[c], d.topic);
  }

  /** An open channel is in the list of its topic. */
  lemma OpenIsListed(s: State, c: nat, d: Descriptor, q: nat)
    requires Indexed(s, {}) && OpenAs(s, c, d, q)
    ensures c in s.contexts && q in Topic(s.contexts[c], d.topic)
  {
    assert Settled(s, false, q);
    assert q in multiset(Topic(s.contexts[c], d.topic));
  }

  lemma BuiltByReuse(s: State, s1: State, c: nat, d: Descriptor, made: nat, q: nat)
    requires Indexed(s, {}) && c in s.contexts && made !in s.channels && made !in s.held && made in s1.channels
    requires s1 == s.(channels := s.channels[made := ChannelBox(1, s1.channels[made].id, d, c, false)],
                      held := s.held[made := 1], ids := s1.ids)
    requires q != made && q in s.channels && s.channels[q].context == c && s.channels[q].descriptor == d
    requires q in Topic(s.contexts[c], d.topic)
    ensures Reused(s, Dropped(Cloned(s1, q), made), c, d, q) && Dropped(Cloned(s1, q), made).held == More(s.held, q)
    ensures OpenAs(s, c, d, q)
  {
    assert Settled(s, false, q);
    assert q in multiset(Topic(s.contexts[c], d.topic));
    var s2 := Dropped(Cloned(s1, q), made);
    assert s2.channels == s.channels[q := s.channels[q].(strong := s.channels[q].strong + 1)];
    assert s2.held == More(s.held, q);
  }

  // ----- leaving the indexes -----

  /** The channel has left the indexes; without a handle it is gone, and otherwise it is closed. */
  ghost predicate Removed(s: State, s': State, c: nat, p: nat)
    requires c in s.contexts
  {
    && s'.held == s.held && s'.contextHeld == s.contextHeld
    && c in s'.contexts && s'.contexts == s.contexts[c := s'.contexts[c]]
    && s'.contexts[c].strong == s.contexts[c].strong && s'.contexts[c].sinks == s.contexts[c].sinks
    && (forall q | q != p :: q in s'.channels <==> q in s.channels)
    && (forall q | q != p && q in s.channels :: s'.channels[q] == s.channels[q])
    && p in s.channels && (p in s'.channels <==> p in s.held)
    && (p in s'.channels ==> Alike(s'.channels[p], s.channels[p]) && s'.channels[p].closed)
  }

  /** The elements other than `p`. */
  function Without(list: seq<nat>, p: nat): seq<nat> {
    if list == [] then []
    else Without(list[..|list| - 1], p) + if list[|list| - 1] == p then [] else [list[|list| - 1]]
  }

  lemma CountOfSnoc(list: seq<nat>, init: seq<nat>, last: nat, q: nat)
    requires list == init + [last]
    ensures multiset(list)[q] == multiset(init)[q] + if last == q then 1 else 0
  {
    assert multiset(list) == multiset(init) + multiset{last};
  }

  lemma {:induction false} WithoutCounts(list: seq<nat>, p: nat, q: nat)
    ensures multiset(Without(list, p))[q] == if q == p then 0 else multiset(list)[q]
  {
    if list == [] {
    } else {
      var init, last := list[..|list| - 1], list[|list| - 1];
      WithoutCounts(init, p, q);
      CountOfSnoc(list, init, last, q);
      if last != p {
        CountOfSnoc(Without(list, p), Without(init, p), last, q);
      }
    }
  }

  function FromIndex(s: State, c: nat, id: nat): State
    requires c in s.contexts && id in s.contexts[c].channels
  {
    var box := s.contexts[c];
    s.(contexts := s.contexts[c := box.(channels := box.channels - {id})], held := More(s.held, box.channels[id]))
  }

  function FromTopic(s: State, c: nat, p: nat): State
    requires c in s.contexts && p in s.channels
  {
    var box, t := s.contexts[c], s.channels[p].descriptor.topic;
    s.(contexts := s.contexts[c := Relisted(box, t, Without(Topic(box, t), p))], held := More(s.held, p))
  }

  lemma FromIndexIsCounted(s: State, c: nat, id: nat)
    requires Counted(s) && c in s.contexts && id in s.contexts[c].channels
    ensures Counted(FromIndex(s, c, id))
    ensures FiledUnderId(s.channels, c, id, s.contexts[c].channels[id])
  {
    var box := s.contexts[c];
    assert Filed(s.channels, c, box) && IdsAreUnique(s.channels, s.ids);
    hide Counted, Filed;
    Unindexed(s.channels, s.ids, c, box, id);
    MovedIsCounted(s, c, box.(channels := box.channels - {id}), More(s.held, box.channels[id]), box.channels[id]);
  }

  lemma FromTopicIsCounted(s: State, c: nat, p: nat)
    requires Counted(s) && c in s.contexts && p in s.channels && s.channels[p].context == c
    requires TopicRefs(s.contexts[c], p, s.channels[p]) == 1
    ensures Counted(FromTopic(s, c, p))
  {
    var box, t := s.contexts[c], s.channels[p].descriptor.topic;
    assert Filed(s.channels, c, box);
    hide Counted, Filed, Without, Relisted;
    Retained(s.channels, c, box, t, p);
    MovedIsCounted(s, c, Relisted(box, t, Without(Topic(box, t), p)), More(s.held, p), p);
  }

  lemma RegisteredIsListed(s: State, c: nat, id: nat)
    requires Counted(s) && Indexed(s, {}) && c in s.contexts && id in s.contexts[c].channels
    ensures var p := s.contexts[c].channels[id];
            FiledUnderId(s.channels, c, id, p) && TopicRefs(s.contexts[c], p, s.channels[p]) == 1
  {
    var p := s.contexts[c].channels[id];
    assert Filed(s.channels, c, s.contexts[c]);
    assert FiledUnderId(s.channels, c, id, p);
    assert Settled(s, false, p);
  }

  /** What the indexes look like without `p`. */
  lemma RemovedEntries(s: State, c: nat, id: nat, p: nat)
    requires Counted(s) && Indexed(s, {}) && c in s.contexts && id in s.contexts[c].channels && p == s.contexts[c].channels[id]
    requires FiledUnderId(s.channels, c, id, p)
    ensures var box := FromTopic(FromIndex(s, c, id), c, p).contexts[c];
            && OthersAgree(s.channels, s.contexts[c], box, p) && BoxRefs(box, p, s.channels[p]) == 0
            && (forall t | t in box.byTopic :: box.byTopic[t] != [])
  {
    var box, t := s.contexts[c], s.channels[p].descriptor.topic;
    var box1 := box.(channels := box.channels - {id});
    assert IdsAreUnique(s.channels, s.ids);
    assert Filed(s.channels, c, box);
    hide Counted, Filed, Without, Relisted;
    Unindexed(s.channels, s.ids, c, box, id);
    assert Topic(box1, t) == Topic(box, t);
    hide OthersAgree, IndexRefs, TopicRefs, Topic;
    Retained(s.channels, c, box1, t, p);
    BothAgree(s.channels, box, box1, Relisted(box1, t, Without(Topic(box1, t), p)), p);
    ListsAreFull(s, c, id, p);
  }

  lemma BothAgree(channels: map<nat, ChannelBox>, a: ContextBox, b: ContextBox, c: ContextBox, p: nat)
    requires OthersAgree(channels, a, b, p) && OthersAgree(channels, b, c, p)
    ensures OthersAgree(channels, a, c, p)
  {
  }

  /** The topic index without `p`. */
  lemma Retained(channels: map<nat, ChannelBox>, c: nat, box: ContextBox, t: Key, p: nat)
    requires Filed(channels, c, box) && FiledUnderTopic(channels, c, t, p)
    ensures var box' := Relisted(box, t, Without(Topic(box, t), p));
            && Filed(channels, c, box') && OthersAgree(channels, box, box', p)
            && BoxRefs(box', p, channels[p]) + multiset(Topic(box, t))[p] == BoxRefs(box, p, channels[p])
  {
    hide Without, Filed, OthersAgree;
    var list := Without(Topic(box, t), p);
    forall q
      ensures multiset(list)[q] == if q == p then 0 else multiset(Topic(box, t))[q]
    {
      WithoutCounts(Topic(box, t), p, q);
    }
    RelistedIsFiled(channels, c, box, t, list, p);
  }

  lemma ListsAreFull(s: State, c: nat, id: nat, p: nat)
    requires Indexed(s, {}) && c in s.contexts && id in s.contexts[c].channels && p in s.channels
    ensures var box := FromTopic(FromIndex(s, c, id), c, p).contexts[c]; forall t | t in box.byTopic :: box.byTopic[t] != []
  {
    hide Settled, Without;
  }

  /** The channel is closed between two of its owners going out of scope. */
  function DroppedTwice(s: State, p: nat): State
    requires p in s.channels && p in s.held && 1 < s.held[p] == s.channels[p].strong
  {
    var s1 := Dropped(s, p);
    Dropped(s1.(channels := s1.channels[p := s1.channels[p].(closed := true)]), p)
  }

  /** A channel that is in no index has only the owners that are counted in `held`. */
  lemma UnlistedCount(s: State, c: nat, p: nat)
    requires Counted(s) && p in s.channels && s.channels[p].context == c && c in s.contexts
    requires BoxRefs(s.contexts[c], p, s.channels[p]) == 0
    ensures p in s.held && s.held[p] == s.channels[p].strong
  {
    assert OwnersMatch(s, p);
  }

  /** What two dropped owners leave of a channel that no index has any more. */
  lemma RemovedChannel(s: State, s': State, p: nat)
    requires p in s.channels && p in s.held && 1 < s.held[p] == s.channels[p].strong
    requires s' == DroppedTwice(s, p)
    ensures s'.contexts == s.contexts && s'.contextHeld == s.contextHeld && s'.ids == s.ids && s'.latest == s.latest
    ensures forall q | q != p :: q in s'.channels <==> q in s.channels
    ensures forall q | q != p && q in s.channels :: s'.channels[q] == s.channels[q]
    ensures p in s'.channels <==> s.held[p] > 2
    ensures p in s'.channels ==> Alike(s'.channels[p], s.channels[p]) && s'.channels[p].closed
    ensures s'.held == Fewer(Fewer(s.held, p), p)
  {
  }

  /** Only the one context has changed, and only its indexes. */
  ghost predicate SameButIndexes(s: State, s': State, c: nat)
    requires c in s.contexts
  {
    && s' == s.(contexts := s'.contexts, held := s'.held)
    && c in s'.contexts && s'.contexts == s.contexts[c := s'.contexts[c]]
    && s'.contexts[c].strong == s.contexts[c].strong && s'.contexts[c].sinks == s.contexts[c].sinks
  }

  lemma FromIndexShape(s: State, c: nat, id: nat)
    requires c in s.contexts && id in s.contexts[c].channels
    ensures var s1 := FromIndex(s, c, id);
            && SameButIndexes(s, s1, c) && s1.held == More(s.held, s.contexts[c].channels[id])
            && s1.contexts[c].byTopic == s.contexts[c].byTopic
  {
  }

  lemma FromTopicShape(s: State, c: nat, p: nat)
    requires c in s.contexts && p in s.channels
    ensures var s1 := FromTopic(s, c, p); SameButIndexes(s, s1, c) && s1.held == More(s.held, p)
  {
    hide Without, Topic;
  }

  lemma SameTwice(s: State, s1: State, s2: State, c: nat)
    requires c in s.contexts && SameButIndexes(s, s1, c) && SameButIndexes(s1, s2, c)
    ensures SameButIndexes(s, s2, c)
  {
  }

  /** The indexes after both entries have been taken out. */
  lemma UnlistedShape(s: State, c: nat, id: nat)
    requires Counted(s) && Indexed(s, {}) && c in s.contexts && id in s.contexts[c].channels
    ensures var p, s1 := s.contexts[c].channels[id], FromIndex(s, c, id);
            && FiledUnderId(s.channels, c, id, p) && c in s1.contexts && TopicRefs(s1.contexts[c], p, s.channels[p]) == 1
            && var s2 := FromTopic(s1, c, p);
            && SameButIndexes(s, s2, c) && s2.held == More(More(s.held, p), p)
  {
    var p, s1 := s.contexts[c].channels[id], FromIndex(s, c, id);
    RegisteredIsListed(s, c, id);
    hide Counted, Indexed, Settled, FromIndex, FromTopic;
    FromIndexShape(s, c, id);
    assert Topic(s1.contexts[c], s.channels[p].descriptor.topic) == Topic(s.contexts[c], s.channels[p].descriptor.topic);
    FromTopicShape(s1, c, p);
    assert SameButIndexes(s1, FromTopic(s1, c, p), c);
    SameTwice(s, s1, FromTopic(s1, c, p), c);
  }

  lemma ContextsAreOwned(s: State, c: nat)
    requires Indexed(s, {}) && c in s.contexts
    ensures s.contexts[c].strong > 0
  {
  }

  /** Taking a channel out of both indexes, closing it, and dropping the entries. */
  lemma RemovalSteps(s: State, c: nat, id: nat)
    requires Counted(s) && Indexed(s, {}) && c in s.contexts && id in s.contexts[c].channels
    ensures var p, s1 := s.contexts[c].channels[id], FromIndex(s, c, id);
            && FiledUnderId(s.channels, c, id, p) && c in s1.contexts && p in s1.channels
            && TopicRefs(s1.contexts[c], p, s1.channels[p]) == 1
            && var s2 := FromTopic(s1, c, p);
            && c in s2.contexts && p in s2.channels && p in s2.held && s2.held[p] > 1
            && s2.channels[p].context == c && BoxRefs(s2.contexts[c], p, s2.channels[p]) == 0
            && (s2.held[p] == s2.channels[p].strong ==>
                  Removed(s, DroppedTwice(s2, p), c, p) && Indexed(DroppedTwice(s2, p), {}))
  {
    UnlistedShape(s, c, id);
    var p := s.contexts[c].channels[id];
    RemovedEntries(s, c, id, p);
    var s2 := FromTopic(FromIndex(s, c, id), c, p);
    assert SameButIndexes(s, s2, c) && s2.held[p] > 1;
    ContextsAreOwned(s, c);
    hide Counted, Indexed, FromTopic, FromIndex, OthersAgree, BoxRefs, SameButIndexes, Removed;
    if s2.held[p] == s2.channels[p].strong {
      RemovedAfter(s, s2, c, p);
    }
  }

  lemma {:induction false} RemovedAfter(s: State, s2: State, c: nat, p: nat)
    requires Indexed(s, {}) && c in s.contexts && SameButIndexes(s, s2, c) && s2.held == More(More(s.held, p), p)
    requires s2.contexts[c].strong > 0 && OthersAgree(s.channels, s.contexts[c], s2.contexts[c], p)
    requires forall t | t in s2.contexts[c].byTopic :: s2.contexts[c].byTopic[t] != []
    requires p in s.channels && s.channels[p].context == c && BoxRefs(s2.contexts[c], p, s.channels[p]) == 0
    requires p in s2.held && 1 < s2.held[p] == s2.channels[p].strong
    ensures Removed(s, DroppedTwice(s2, p), c, p) && Indexed(DroppedTwice(s2, p), {})
  {
    MoreThenFewer(More(s.held, p), p);
    MoreThenFewer(s.held, p);
    hide Indexed, OthersAgree, BoxRefs;
    RemovedChannel(s2, DroppedTwice(s2, p), p);
    hide DroppedTwice;
    RemovedIsIndexed(s, DroppedTwice(s2, p), c, p);
  }

  lemma {:induction false} RemovedIsIndexed(s: State, s': State, c: nat, p: nat)
    requires Indexed(s, {}) && c in s.contexts && Removed(s, s', c, p) && s'.latest == s.latest
    requires s'.contexts[c].strong > 0 && OthersAgree(s.channels, s.contexts[c], s'.contexts[c], p)
    requires BoxRefs(s'.contexts[c], p, s.channels[p]) == 0 && s.channels[p].context == c
    requires forall t | t in s'.contexts[c].byTopic :: s'.contexts[c].byTopic[t] != []
    ensures Indexed(s', {})
  {
    SettledAgain(s, s', {}, c, p);
  }

  lemma ClosedIsCounted(s: State, s': State, p: nat)
    requires Counted(s) && p in s.channels
    requires s' == s.(channels := s.channels[p := s.channels[p].(closed := true)])
    ensures Counted(s')
  {
    assert OwnersMatch(s, p);
    Recounted(s, s', p);
  }

  /** A channel that nobody but its creator has. */
  ghost predicate IsNew(s: State, c: nat, p: nat) {
    && c in s.contexts && p in s.channels && p in s.held && s.held[p] == 1
    && s.channels[p].strong == 1 && s.channels[p].context == c && !s.channels[p].closed
  }

  ghost predicate NoMatch(s: State, c: nat, d: Descriptor)
    requires c in s.contexts
  {
    forall q | q in Topic(s.contexts[c], d.topic) :: q in s.channels && s.channels[q].descriptor != d
  }

  /** One more clone of `p`, in the id index. */
  function InIndex(s: State, c: nat, p: nat): State
    requires c in s.contexts && p in s.channels
  {
    var box, ch := s.contexts[c], s.channels[p];
    s.(contexts := s.contexts[c := box.(channels := box.channels[ch.id := p])],
       channels := s.channels[p := ch.(strong := ch.strong + 1)])
  }

  /** One more clone of `p`, in the list of its topic. */
  function InTopic(s: State, c: nat, p: nat): State
    requires c in s.contexts && p in s.channels
  {
    var box, ch := s.contexts[c], s.channels[p];
    s.(contexts := s.contexts[c := Relisted(box, ch.descriptor.topic, Topic(box, ch.descriptor.topic) + [p])],
       channels := s.channels[p := ch.(strong := ch.strong + 1)])
  }

  /** The new channel with clones in both indexes. */
  function Enrolled(s: State, c: nat, p: nat): State
    requires c in s.contexts && p in s.channels
  {
    InTopic(InIndex(s, c, p), c, p).(latest := s.latest[(c, s.channels[p].descriptor) := p])
  }

  lemma InIndexIsMoved(s: State, c: nat, p: nat)
    requires c in s.contexts && p in s.channels
    ensures var box := s.contexts[c];
            Moved(Cloned(s, p), c, box.(channels := box.channels[s.channels[p].id := p]), s.held) == InIndex(s, c, p)
  {
  }

  lemma InTopicIsMoved(s: State, c: nat, p: nat)
    requires c in s.contexts && p in s.channels
    ensures var box, t := s.contexts[c], s.channels[p].descriptor.topic;
            Moved(Cloned(s, p), c, Relisted(box, t, Topic(box, t) + [p]), s.held) == InTopic(s, c, p)
  {
    hide Relisted, Topic;
  }

  lemma InIndexIsCounted(s: State, c: nat, p: nat)
    requires Counted(s) && c in s.contexts && p in s.channels && s.channels[p].context == c
    requires s.channels[p].id !in s.contexts[c].channels
    ensures Counted(InIndex(s, c, p))
  {
    var s1, box := Cloned(s, p), s.contexts[c];
    var box' := box.(channels := box.channels[s.channels[p].id := p]);
    ClonedIsCounted(s, p);
    assert Filed(s1.channels, c, box) && IdsAreUnique(s1.channels, s1.ids);
    hide Counted, Filed, OwnersMatch, IdsAreUnique, InIndex;
    IndexedAs(s1.channels, s1.ids, c, box, s.channels[p].id, p);
    MovedIsCounted(s1, c, box', s.held, p);
    InIndexIsMoved(s, c, p);
  }

  lemma InTopicIsCounted(s: State, c: nat, p: nat)
    requires Counted(s) && c in s.contexts && p in s.channels && s.channels[p].context == c
    ensures Counted(InTopic(s, c, p))
  {
    var s1, box, t := Cloned(s, p), s.contexts[c], s.channels[p].descriptor.topic;
    var list := Topic(box, t) + [p];
    ClonedIsCounted(s, p);
    assert Filed(s1.channels, c, box);
    hide Counted, Filed, OwnersMatch, InTopic;
    RelistedIsFiled(s1.channels, c, box, t, list, p);
    MovedIsCounted(s1, c, Relisted(box, t, list), s.held, p);
    InTopicIsMoved(s, c, p);
  }

  lemma CountedAgain(s: State, s': State)
    requires Counted(s) && s' == s.(latest := s'.latest)
    ensures Counted(s')
  {
    forall p | p in s'.channels
      ensures OwnersMatch(s', p)
    {
      assert OwnersMatch(s, p);
    }
  }

  lemma EnrolledIsIndexed(s: State, c: nat, p: nat)
    requires Counted(s) && Indexed(s, {p}) && IsNew(s, c, p) && NoMatch(s, c, s.channels[p].descriptor)
    ensures Indexed(Enrolled(s, c, p), {})
  {
    assert IdsAreUnique(s.channels, s.ids);
    hide Counted, Indexed, Settled, Registered, OthersAgree, NoneAdvertised, IdsAreUnique, Enrolled, NoMatch, Topic, OnlyChanged;
    var s' := Enrolled(s, c, p);
    NewIsUnlisted(s, c, p);
    NewIsUnique(s, c, p);
    EnrolledEntries(s, c, p);
    EnrolledShape(s, c, p);
    SettledAgain(s, s', {p}, c, p);
  }

  lemma EnrolledShape(s: State, c: nat, p: nat)
    requires Indexed(s, {p}) && IsNew(s, c, p)
    ensures var s' := Enrolled(s, c, p);
            && OnlyChanged(s, s', {p}, c, p)
            && s'.latest == s.latest[(c, s.channels[p].descriptor) := p]
  {
    hide Settled;
  }

  /** What has no match is not advertised. */
  lemma NewIsUnique(s: State, c: nat, p: nat)
    requires Indexed(s, {p}) && IsNew(s, c, p) && NoMatch(s, c, s.channels[p].descriptor)
    ensures NoneAdvertised(s, p, (c, s.channels[p].descriptor))
  {
    var d := s.channels[p].descriptor;
    forall q | q in s.channels && q != p && s.channels[q].context == c && s.channels[q].descriptor == d
      ensures !Registered(s.contexts, q, s.channels[q])
    {
      assert Settled(s, false, q);
      assert q in multiset(Topic(s.contexts[c], d.topic)) <==> q in Topic(s.contexts[c], d.topic);
    }
  }

  /** The new channel is once in each index, and the other entries are as they were. */
  lemma EnrolledEntries(s: State, c: nat, p: nat)
    requires IsNew(s, c, p) && IdsAreUnique(s.channels, s.ids)
    requires s.channels[p].id !in s.contexts[c].channels && p !in Topic(s.contexts[c], s.channels[p].descriptor.topic)
    ensures OthersAgree(s.channels, s.contexts[c], Enrolled(s, c, p).contexts[c], p)
    ensures Settled(Enrolled(s, c, p), false, p)
  {
    hide Enrolled;
    EnrolledBox(s, c, p);
    var box, box', d := s.contexts[c], Enrolled(s, c, p).contexts[c], s.channels[p].descriptor;
    assert p !in multiset(Topic(box, d.topic));
    forall q | q in s.channels && q != p
      ensures IndexRefs(box, q, s.channels[q]) == IndexRefs(box', q, s.channels[q])
      ensures TopicRefs(box, q, s.channels[q]) == TopicRefs(box', q, s.channels[q])
    {
    }
  }

  lemma EnrolledBox(s: State, c: nat, p: nat)
    requires c in s.contexts && p in s.channels && s.channels[p].context == c
    ensures var s', ch := Enrolled(s, c, p), s.channels[p];
            && c in s'.contexts && p in s'.channels && s'.channels[p] == ch.(strong := ch.strong + 2)
            && (c, ch.descriptor) in s'.latest && s'.latest[(c, ch.descriptor)] == p
            && var box, box', t := s.contexts[c], s'.contexts[c], ch.descriptor.topic;
            && box'.channels == box.channels[ch.id := p]
            && forall u :: Topic(box', u) == if u == t then Topic(box, t) + [p] else Topic(box, u)
  {
  }

  /** A new channel is in no index. */
  lemma NewIsUnlisted(s: State, c: nat, p: nat)
    requires Counted(s) && IsNew(s, c, p)
    ensures s.channels[p].id !in s.contexts[c].channels && p !in Topic(s.contexts[c], s.channels[p].descriptor.topic)
  {
    var box := s.contexts[c];
    assert OwnersMatch(s, p) && Filed(s.channels, c, box) && IdsAreUnique(s.channels, s.ids);
    assert forall id | id in box.channels :: FiledUnderId(s.channels, c, id, box.channels[id]);
    assert multiset(Topic(box, s.channels[p].descriptor.topic))[p] == 0;
  }

  /** The pending channel is gone, and only counts have changed. */
  lemma {:induction false} PendingGone(s: State, s': State, p: nat)
    requires Indexed(s, {p}) && p !in s'.channels && s'.contexts == s.contexts && s'.latest == s.latest
    requires forall q | q in s'.channels ::
               q in s.channels && Alike(s'.channels[q], s.channels[q]) && s'.channels[q].closed == s.channels[q].closed
    ensures Indexed(s', {})
  {
    forall q | q in s'.channels
      ensures Settled(s', false, q)
    {
      assert Settled(s, false, q);
    }
  }

  lemma DroppedIsIndexed(s: State, p: nat)
    requires Counted(s) && Indexed(s, {}) && p in s.held && p in s.channels && s.channels[p].strong > 0
    ensures Indexed(Dropped(s, p), {})
  {
    hide Counted, Settled;
    StaysIndexed(s, Dropped(s, p), {});
  }

  /** The contexts of the channels have the same indexes. */
  lemma {:induction false} SameIndexes(s: State, s': State)
    requires ChannelsCounted(s) && s'.channels == s.channels && s'.held == s.held && s'.latest == s.latest
    requires forall p | p in s.channels :: Settled(s, false, p)
    requires forall p | p in s.channels ::
               var c := s.channels[p].context;
               && (c in s'.contexts <==> c in s.contexts)
               && (c in s.contexts ==>
                     s'.contexts[c].channels == s.contexts[c].channels && s'.contexts[c].byTopic == s.contexts[c].byTopic)
    ensures ChannelsCounted(s') && forall p | p in s.channels :: Settled(s', false, p)
  {
    forall p | p in s.channels
      ensures OwnersMatch(s', p) && Settled(s', false, p)
    {
      assert OwnersMatch(s, p) && Settled(s, false, p);
    }
  }

  lemma ListIds(s: State, c: nat, t: Key, p: nat)
    requires Counted(s) && c in s.contexts && p in s.channels
    ensures forall q | q in Topic(s.contexts[c], t) :: q in s.channels && (s.channels[q].id == s.channels[p].id <==> q == p)
  {
    assert IdsAreUnique(s.channels, s.ids);
    hide Counted;
    ListIsLive(s, c, t);
  }

  lemma ListIsLive(s: State, c: nat, t: Key)
    requires Counted(s) && c in s.contexts
    ensures forall q | q in Topic(s.contexts[c], t) :: q in s.channels && s.channels[q].context == c
  {
    assert Filed(s.channels, c, s.contexts[c]);
    assert forall q | q in Topic(s.contexts[c], t) :: FiledUnderTopic(s.channels, c, t, q);
  }

  lemma {:induction false} ContextAdded(s: State, s': State, c: nat)
    requires Counted(s) && Indexed(s, {}) && c !in s.contexts
    requires s' == s.(contexts := s.contexts[c := ContextBox(1, map[], map[], {})], contextHeld := More(s.contextHeld, c))
    requires forall p | p in s.channels :: s.channels[p].context != c
    ensures Counted(s') && Indexed(s', {})
  {
    hide Settled, OwnersMatch, Filed, ContextsCounted, ChannelsCounted, IdsAreUnique;
    SameIndexes(s, s');
    EmptyIsFiled(s'.channels, c);
    OneMoreContext(s, s', c);
  }

  lemma OneMoreContext(s: State, s': State, c: nat)
    requires ContextsCounted(s) && c !in s.contexts
    requires s'.contexts == s.contexts[c := ContextBox(1, map[], map[], {})] && s'.contextHeld == More(s.contextHeld, c)
    ensures ContextsCounted(s')
  {
  }

  lemma EmptyIsFiled(channels: map<nat, ChannelBox>, c: nat)
    ensures Filed(channels, c, ContextBox(1, map[], map[], {}))
  {
  }

  lemma {:induction false} ContextRecounted(s: State, s': State, c: nat)
    requires Counted(s) && Indexed(s, {}) && c in s.contexts && c in s'.contexts
    requires s'.contexts == s.contexts[c := s.contexts[c].(strong := s'.contexts[c].strong, sinks := s'.contexts[c].sinks)]
    requires s' == s.(contexts := s'.contexts, contextHeld := s'.contextHeld)
    requires 0 < s'.contexts[c].strong == Count(s'.contextHeld, c)
    requires forall d | d != c :: Count(s'.contextHeld, d) == Count(s.contextHeld, d)
    ensures Counted(s') && Indexed(s', {})
  {
    hide Settled, OwnersMatch, Filed, ContextsCounted, ChannelsCounted, IdsAreUnique;
    SameIndexes(s, s');
    SameFiles(s, s', c);
    SameContexts(s, s', c);
  }

  lemma {:induction false} SameContexts(s: State, s': State, c: nat)
    requires ContextsCounted(s) && c in s.contexts && c in s'.contexts
    requires s'.contexts == s.contexts[c := s'.contexts[c]] && s'.contexts[c].strong == Count(s'.contextHeld, c)
    requires forall d | d != c :: Count(s'.contextHeld, d) == Count(s.contextHeld, d)
    ensures ContextsCounted(s')
  {
    forall d | d in s'.contextHeld
      ensures d in s'.contexts
    {
      assert Count(s'.contextHeld, d) > 0;
    }
  }

  lemma {:induction false} SameFiles(s: State, s': State, c: nat)
    requires forall d | d in s.contexts :: Filed(s.channels, d, s.contexts[d])
    requires c in s.contexts && c in s'.contexts && s'.channels == s.channels
    requires s'.contexts == s.contexts[c := s.contexts[c].(strong := s'.contexts[c].strong, sinks := s'.contexts[c].sinks)]
    ensures forall d | d in s'.contexts :: Filed(s'.channels, d, s'.contexts[d])
  {
    assert Filed(s.channels, c, s.contexts[c]);
    assert forall t :: Topic(s'.contexts[c], t) == Topic(s.contexts[c], t);
  }

  lemma ChannelAdded(s: State, s': State, p: nat)
    requires Counted(s) && Indexed(s, {}) && p !in s.channels
    requires p in s'.channels && s'.channels[p].strong == 1 && s'.channels[p].id !in s.ids
    requires s' == s.(channels := s.channels[p := s'.channels[p]], held := s.held[p := 1],
                      ids := s.ids[s'.channels[p].id := p])
    ensures p !in s.held && Counted(s') && Indexed(s', {p})
  {
    hide Filed, BoxRefs;
    forall c | c in s'.contexts
      ensures Filed(s'.channels, c, s'.contexts[c]) && BoxRefs(s.contexts[c], p, s'.channels[p]) == 0
    {
      MoreChannels(s.channels, s'.channels, c, s.contexts[c], p);
    }
    NewOwnersMatch(s, s', p);
    NewIsPending(s, s', p);
  }

  lemma {:induction false} NewOwnersMatch(s: State, s': State, p: nat)
    requires ChannelsCounted(s) && p !in s.channels && p in s'.channels && s'.contexts == s.contexts
    requires s'.channels == s.channels[p := s'.channels[p]] && s'.held == s.held[p := 1] && s'.channels[p].strong == 1
    requires forall c | c in s.contexts :: BoxRefs(s.contexts[c], p, s'.channels[p]) == 0
    ensures ChannelsCounted(s')
  {
    hide BoxRefs;
    forall q | q in s'.channels
      ensures OwnersMatch(s', q)
    {
      assert q != p ==> OwnersMatch(s, q);
    }
  }

  lemma {:induction false} NewIsPending(s: State, s': State, p: nat)
    requires Indexed(s, {}) && p !in s.channels && p in s'.channels && s'.contexts == s.contexts
    requires s'.channels == s.channels[p := s'.channels[p]] && s'.latest == s.latest
    requires forall c | c in s.contexts :: BoxRefs(s.contexts[c], p, s'.channels[p]) == 0
    ensures Indexed(s', {p})
  {
    forall q | q in s'.channels
      ensures Settled(s', q in {p}, q)
    {
      assert q != p ==> Settled(s, false, q);
    }
  }

  /** A channel that was not there is in no file. */
  lemma MoreChannels(channels: map<nat, ChannelBox>, channels': map<nat, ChannelBox>, c: nat, box: ContextBox, p: nat)
    requires Filed(channels, c, box) && p !in channels && p in channels' && channels' == channels[p := channels'[p]]
    ensures Filed(channels', c, box) && BoxRefs(box, p, channels'[p]) == 0
  {
    forall id | id in box.channels
      ensures box.channels[id] != p && FiledUnderId(channels', c, id, box.channels[id])
    {
      assert FiledUnderId(channels, c, id, box.channels[id]);
    }
    forall t, q | q in Topic(box, t)
      ensures q != p && FiledUnderTopic(channels', c, t, q)
    {
      assert FiledUnderTopic(channels, c, t, q);
    }
    assert forall t :: p !in Topic(box, t);
    assert multiset(Topic(box, channels'[p].descriptor.topic))[p] == 0;
  }

  // ----- clearing a context -----

  lemma HeldContextIsCounted(s: State, c: nat)
    requires Counted(s) && c in s.contextHeld
    ensures c in s.contexts && s.contexts[c].strong == s.contextHeld[c]
  {
    assert Count(s.contextHeld, c) > 0;
  }

  /** The last owner of the context is gone; its indexes are still there. */
  lemma LastContext(s: State, s': State, c: nat)
    requires Counted(s) && Indexed(s, {}) && c in s.contexts && s.contexts[c].strong == 1 && c in s.contextHeld
    requires s' == s.(contexts := s.contexts[c := s.contexts[c].(strong := 0)], contextHeld := Fewer(s.contextHeld, c))
    ensures Counted(s') && Quiet(s', c)
  {
    hide Filed, OwnersMatch, Settled, ContextsCounted, ChannelsCounted, IdsAreUnique, Quiet;
    SameIndexes(s, s');
    SameFiles(s, s', c);
    SettledIsQuiet(s', c);
    HeldContextIsCounted(s, c);
    SameContexts(s, s', c);
  }

  lemma {:induction false} SettledIsQuiet(s: State, c: nat)
    requires c in s.contexts && forall p | p in s.channels :: Settled(s, false, p)
    requires forall t | t in s.contexts[c].byTopic :: s.contexts[c].byTopic[t] != []
    ensures Quiet(s, c)
  {
    forall p | p in s.channels && s.channels[p].context == c && !s.channels[p].closed
      ensures Registered(s.contexts, p, s.channels[p])
    {
      assert Settled(s, false, p);
    }
  }

  lemma NothingFades(s: State, c: nat)
    requires c in s.contexts
    ensures Fading(s, s, c)
  {
  }

  lemma FadingTransitive(s0: State, s1: State, s2: State, c: nat)
    requires c in s0.contexts && c in s1.contexts && Fading(s0, s1, c) && Fading(s1, s2, c)
    ensures Fading(s0, s2, c)
  {
  }

  /** One owner of `p` in the indexes of `c` is gone, which are `box` now. */
  function Lost(s: State, c: nat, box: ContextBox, p: nat, close: bool): State
    requires p in s.channels && s.channels[p].strong > 0
  {
    var ch := s.channels[p];
    s.(contexts := s.contexts[c := box],
       channels := if ch.strong == 1 then s.channels - {p}
                   else s.channels[p := ch.(strong := ch.strong - 1, closed := close || ch.closed)])
  }

  lemma LostIsFading(s: State, c: nat, box: ContextBox, p: nat, close: bool)
    requires c in s.contexts && p in s.channels && s.channels[p].strong > 0 && s.channels[p].context == c
    requires box.strong == s.contexts[c].strong
    ensures Fading(s, Lost(s, c, box, p, close), c)
  {
  }

  lemma DrainedIsFading(s: State, c: nat, id: nat)
    requires Counted(s) && c in s.contexts && Quiet(s, c) && id in s.contexts[c].channels
    ensures var p, box := s.contexts[c].channels[id], s.contexts[c];
            && p in s.channels && s.channels[p].strong > 0
            && var s' := Lost(s, c, box.(channels := box.channels - {id}), p, true);
            Fading(s, s', c) && Quiet(s', c)
  {
    var p, box := s.contexts[c].channels[id], s.contexts[c];
    assert Filed(s.channels, c, box) && IdsAreUnique(s.channels, s.ids);
    assert FiledUnderId(s.channels, c, id, p);
    assert OwnersMatch(s, p);
    LostIsFading(s, c, box.(channels := box.channels - {id}), p, true);
    hide Counted, Filed;
    DrainedIsQuiet(s, c, id, p);
  }

  lemma DrainedIsQuiet(s: State, c: nat, id: nat, p: nat)
    requires IdsAreUnique(s.channels, s.ids) && c in s.contexts && Quiet(s, c) && id in s.contexts[c].channels
    requires p in s.channels && s.channels[p].strong > 0 && s.channels[p].id == id
    ensures Quiet(Lost(s, c, s.contexts[c].(channels := s.contexts[c].channels - {id}), p, true), c)
  {
  }

  /** The list of `t` without its last entry. */
  function Shorter(box: ContextBox, t: Key): ContextBox
    requires Topic(box, t) != []
  {
    Relisted(box, t, Topic(box, t)[..|Topic(box, t)| - 1])
  }

  lemma PoppedIsFading(s: State, c: nat, t: Key, p: nat)
    requires c in s.contexts && Quiet(s, c) && Topic(s.contexts[c], t) != []
    requires p in s.channels && s.channels[p].strong > 0 && s.channels[p].context == c
    ensures var s' := Lost(s, c, Shorter(s.contexts[c], t), p, false); Fading(s, s', c) && Quiet(s', c)
  {
    LostIsFading(s, c, Shorter(s.contexts[c], t), p, false);
    hide Fading;
  }

  /** The last channel of a list. */
  lemma LastIsLive(s: State, c: nat, t: Key)
    requires Counted(s) && c in s.contexts && Quiet(s, c) && t in s.contexts[c].byTopic
    ensures var list := s.contexts[c].byTopic[t];
            && list != [] && list[|list| - 1] in s.channels
            && s.channels[list[|list| - 1]].context == c && s.channels[list[|list| - 1]].strong > 0
  {
    var list := s.contexts[c].byTopic[t];
    assert list[|list| - 1] in Topic(s.contexts[c], t);
    ListIsLive(s, c, t);
    assert OwnersMatch(s, list[|list| - 1]);
  }

  /** The last entry of a list becomes a local. */
  lemma LastIsCounted(s: State, c: nat, t: Key)
    requires Counted(s) && c in s.contexts && t in s.contexts[c].byTopic && s.contexts[c].byTopic[t] != []
    ensures var list := s.contexts[c].byTopic[t];
            Counted(Moved(s, c, Shorter(s.contexts[c], t), More(s.held, list[|list| - 1])))
  {
    hide Counted, Filed, BoxRefs, OthersAgree;
    var list, box := s.contexts[c].byTopic[t], s.contexts[c];
    var p, init := list[|list| - 1], list[..|list| - 1];
    assert list == init + [p] && p in Topic(box, t);
    ListIsFiled(s, c, t, p);
    RelistedIsFiled(s.channels, c, box, t, init, p);
    MovedIsCounted(s, c, Shorter(box, t), More(s.held, p), p);
  }

  lemma ListIsFiled(s: State, c: nat, t: Key, p: nat)
    requires Counted(s) && c in s.contexts && p in Topic(s.contexts[c], t)
    ensures Filed(s.channels, c, s.contexts[c]) && FiledUnderTopic(s.channels, c, t, p)
  {
  }

  /** When the indexes are empty, the context can go. */
  lemma ClearedIsValid(s: State, s1: State, s2: State, s3: State, c: nat)
    requires Counted(s) && Indexed(s, {}) && c in s.contexts
    requires s1 == s.(contexts := s.contexts[c := s.contexts[c].(strong := 0)], contextHeld := s1.contextHeld)
    requires c !in s1.contextHeld && Counted(s2) && Fading(s1, s2, c) && Quiet(s2, c)
    requires s2.contexts[c].channels == map[] && s2.contexts[c].byTopic == map[]
    requires s3 == s2.(contexts := s2.contexts - {c})
    ensures Counted(s3) && Indexed(s3, {}) && Cleared(s, s3, c) && s3.contexts == s.contexts - {c}
  {
    hide Filed, OwnersMatch, Settled, Fading, Cleared, Quiet, Refs;
    FadingContexts(s1, s2, c);
    ClearedRefs(s1, s2, s3, c);
    ClearedIsSettled(s, s1, s2, s3, c);
    ClearedChannels(s, s1, s2, s3, c);
    assert s3.contexts == s.contexts - {c};
    assert forall d | d in s3.contexts :: Filed(s3.channels, d, s3.contexts[d]);
    assert ContextsCounted(s3) && IdsAreUnique(s3.channels, s3.ids);
  }

  lemma FadingContexts(s1: State, s2: State, c: nat)
    requires c in s1.contexts && Fading(s1, s2, c)
    ensures c in s2.contexts && s2.contexts - {c} == s1.contexts - {c} && s2.contextHeld == s1.contextHeld
  {
  }

  lemma ClearedRefs(s1: State, s2: State, s3: State, c: nat)
    requires ChannelsCounted(s2) && c in s2.contexts
    requires s2.contexts[c].channels == map[] && s2.contexts[c].byTopic == map[]
    requires s3 == s2.(contexts := s2.contexts - {c})
    ensures ChannelsCounted(s3)
  {
    forall q | q in s3.channels
      ensures OwnersMatch(s3, q)
    {
      assert OwnersMatch(s2, q);
    }
  }

  lemma ClearedIsSettled(s: State, s1: State, s2: State, s3: State, c: nat)
    requires Indexed(s, {}) && c in s.contexts && c in s2.contexts
    requires s1 == s.(contexts := s1.contexts, contextHeld := s1.contextHeld) && s1.contexts - {c} == s.contexts - {c}
    requires c in s1.contexts && Fading(s1, s2, c) && Quiet(s2, c) && s2.contexts[c].channels == map[]
    requires s3 == s2.(contexts := s2.contexts - {c})
    ensures Indexed(s3, {})
  {
    FadingContexts(s1, s2, c);
    forall q | q in s3.channels
      ensures Settled(s3, false, q)
    {
      assert Settled(s, false, q);
      var d := s3.channels[q].context;
      assert d != c && d in s3.contexts ==> d in s.contexts - {c} && (s.contexts - {c})[d] == (s2.contexts - {c})[d];
    }
    forall d | d in s3.contexts
      ensures s3.contexts[d] == s.contexts[d]
    {
      assert d in s.contexts - {c} && (s.contexts - {c})[d] == (s2.contexts - {c})[d];
    }
  }

  lemma ClearedChannels(s: State, s1: State, s2: State, s3: State, c: nat)
    requires c in s1.contexts && c in s2.contexts && s1.channels == s.channels && s1.held == s.held
    requires Fading(s1, s2, c) && Quiet(s2, c) && s2.contexts[c].channels == map[]
    requires s3 == s2.(contexts := s2.contexts - {c}) && ChannelsCounted(s3)
    ensures Cleared(s, s3, c)
  {
    forall p | p in s3.channels && s3.channels[p].context == c
      ensures p in s3.held
    {
      assert OwnersMatch(s3, p);
    }
  }

  lemma OpenIsIndexed(s: State, p: nat)
    requires Counted(s) && Indexed(s, {}) && p in s.channels
    ensures !s.channels[p].closed ==>
              && s.channels[p].context in s.contexts && s.channels[p].id in s.contexts[s.channels[p].context].channels
              && s.contexts[s.channels[p].context].channels[s.channels[p].id] == p
              && s.channels[p].context in s.contextHeld
  {
    assert Settled(s, false, p);
  }

  /** The clone of the context is not its last owner. */
  lemma RemovedKeepsContext(s: State, s1: State, s2: State, c: nat, p: nat)
    requires c in s.contexts && c in s.contextHeld && s1 == Borrowed(s, c) && Removed(s1, s2, c, p)
    ensures c in s2.contexts && s2.contexts[c].strong > 0 && c in s2.contextHeld && c in Fewer(s2.contextHeld, c)
  {
    MoreThenFewer(s.contextHeld, c);
  }

  /** Removing a channel while its context has one more owner. */
  lemma RemovedInBorrowed(s: State, s1: State, s2: State, s3: State, c: nat, p: nat)
    requires c in s.contexts && c in s.contextHeld
    requires s1 == s.(contexts := s.contexts[c := s.contexts[c].(strong := s.contexts[c].strong + 1)],
                      contextHeld := More(s.contextHeld, c))
    requires Removed(s1, s2, c, p) && s2.contexts[c].strong > 0
    requires s3 == s2.(contexts := s2.contexts[c := s2.contexts[c].(strong := s2.contexts[c].strong - 1)],
                       contextHeld := Fewer(s2.contextHeld, c))
    ensures Removed(s, s3, c, p)
  {
    MoreThenFewer(s.contextHeld, c);
  }

  // ----- borrowing -----

  /** What has been taken from the owners goes back to them. */
  lemma FewerThenMore(o: Owners, a: nat)
    requires a in o
    ensures More(Fewer(o, a), a) == o
  {
  }

  /** `c` has one more owner: a builder. */
  function Borrowed(s: State, c: nat): State
    requires c in s.contexts
  {
    s.(contexts := s.contexts[c := s.contexts[c].(strong := s.contexts[c].strong + 1)],
       contextHeld := More(s.contextHeld, c))
  }

  function Returned(s: State, c: nat): State
    requires c in s.contexts && s.contexts[c].strong > 0 && c in s.contextHeld
  {
    s.(contexts := s.contexts[c := s.contexts[c].(strong := s.contexts[c].strong - 1)],
       contextHeld := Fewer(s.contextHeld, c))
  }

  /** The builder's count goes back, and nothing else has happened. */
  lemma BorrowedReturned(s: State, c: nat)
    requires c in s.contexts
    ensures Returned(Borrowed(s, c), c) == s
  {
    MoreThenFewer(s.contextHeld, c);
    assert s.contexts[c := s.contexts[c]] == s.contexts;
  }

  /** The builder moves from one context to another. */
  lemma BorrowedMoves(s: State, c: nat, d: nat)
    requires c in s.contexts && d in s.contexts
    ensures d in Borrowed(s, c).contexts && Returned(Borrowed(Borrowed(s, c), d), c) == Borrowed(s, d)
  {
    MoreThenFewer(s.contextHeld, c);
    MoreThenFewer(More(s.contextHeld, c), c);
    if c != d {
      assert Fewer(More(More(s.contextHeld, c), d), c) == More(s.contextHeld, d);
    }
    var s' := Returned(Borrowed(Borrowed(s, c), d), c);
    assert s'.contexts == Borrowed(s, d).contexts;
  }

  /** What was built in a borrowed context is there when the context has been given back. */
  lemma BuiltInBorrowed(s: State, s2: State, c: nat, d: Descriptor, p: nat)
    requires c in s.contexts && c in s.contextHeld && s2.contextHeld == Borrowed(s, c).contextHeld
    requires Reused(Borrowed(s, c), s2, c, d, p) || Opened(Borrowed(s, c), s2, c, d, p)
    ensures c in s2.contexts && s2.contexts[c].strong > 0 && c in s2.contextHeld && c in Fewer(s2.contextHeld, c)
    ensures (exists q :: OpenAs(Borrowed(s, c), c, d, q)) <==> (exists q :: OpenAs(s, c, d, q))
    ensures Returned(s2, c).contextHeld == s.contextHeld
    ensures Reused(Borrowed(s, c), s2, c, d, p) ==> Reused(s, Returned(s2, c), c, d, p)
    ensures Opened(Borrowed(s, c), s2, c, d, p) ==> Opened(s, Returned(s2, c), c, d, p)
  {
    MoreThenFewer(s.contextHeld, c);
    assert s.contexts[c := s.contexts[c]] == s.contexts;
    forall q
      ensures OpenAs(Borrowed(s, c), c, d, q) <==> OpenAs(s, c, d, q)
    {
    }
  }

  /** The sinks of a context have changed. */
  function WithSinks(s: State, c: nat, sinks: set<nat>): State
    requires c in s.contexts
  {
    s.(contexts := s.contexts[c := s.contexts[c].(sinks := sinks)])
  }

  lemma SinksInBorrowed(s: State, c: nat, sinks: set<nat>)
    requires c in s.contexts && c in s.contextHeld
    ensures var s2 := WithSinks(Borrowed(s, c), c, sinks);
            c in Fewer(s2.contextHeld, c) && Returned(s2, c) == WithSinks(s, c, sinks)
  {
    MoreThenFewer(s.contextHeld, c);
    assert Returned(WithSinks(Borrowed(s, c), c, sinks), c).contexts == WithSinks(s, c, sinks).contexts;
  }
}
