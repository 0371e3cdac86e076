/** The operations on contexts and channels (rust/foxglove/src/context.rs, raw_channel.rs, channel_builder.rs). */
module Registry {
  import opened Wrappers
  import opened BTreeMap
  import opened Contexts
  import opened RegistrySteps

  class Runtime {
    var contexts: map<nat, ContextBox>
    var channels: map<nat, ChannelBox>
    var nextAddress: nat
    var nextId: nat
    ghost var held: Owners
    ghost var contextHeld: Owners
    ghost var ids: map<nat, nat>
    ghost var latest: map<(nat, Descriptor), nat>

    ghost function S(): State
      reads this
    {
      State(contexts, channels, held, contextHeld, ids, latest)
    }

    ghost predicate Valid()
      reads this
    {
      Counted(S()) && Indexed(S(), {}) && Numbered(S(), nextAddress, nextId)
    }

    constructor ()
      ensures Valid() && S() == State(map[], map[], map[], map[], map[], map[])
    {
      contexts, channels, nextAddress, nextId := map[], map[], 1, 1;
      held, contextHeld, ids, latest := map[], map[], map[], map[];
    }

    /** `Context::new`: one count, for the caller. */
    method NewContext() returns (c: nat)
      requires Valid()
      modifies this`contexts, this`contextHeld, this`nextAddress
      ensures Valid() && c != 0 && c !in old(contexts) && old(nextAddress) <= c < nextAddress
      ensures S() == old(S()).(contexts := old(contexts)[c := ContextBox(1, map[], map[], {})],
                               contextHeld := More(old(contextHeld), c))
    {
      c := nextAddress;
      nextAddress := nextAddress + 1;
      contexts := contexts[c := ContextBox(1, map[], map[], {})];
      contextHeld := More(contextHeld, c);
      ContextAdded(old(S()), S(), c);
    }

    method CloneContext(c: nat)
      requires Valid() && c in contexts
      modifies this`contexts, this`contextHeld
      ensures Valid()
      ensures S() == old(S()).(contexts := old(contexts)[c := old(contexts)[c].(strong := old(contexts)[c].strong + 1)],
                               contextHeld := More(old(contextHeld), c))
    {
      hide Counted, Indexed, Numbered;
      ContextCount(S(), c);
      contexts := contexts[c := contexts[c].(strong := contexts[c].strong + 1)];
      contextHeld := More(contextHeld, c);
      ContextRecounted(old(S()), S(), c);
      StaysNumbered(old(S()), S(), nextAddress, nextId);
    }

    /** `Context::add_sink` and `remove_sink`. */
    method SetSinks(c: nat, sinks: set<nat>)
      requires Valid() && c in contexts
      modifies this`contexts
      ensures Valid() && S() == WithSinks(old(S()), c, sinks)
    {
      hide Counted, Indexed, Numbered;
      ContextCount(S(), c);
      contexts := contexts[c := contexts[c].(sinks := sinks)];
      ContextRecounted(old(S()), S(), c);
      StaysNumbered(old(S()), S(), nextAddress, nextId);
    }

    // ----- channels -----

    /** `RawChannel::new`: a channel that is not in its context yet, with one owner. */
    method NewChannel(c: nat, d: Descriptor) returns (p: nat)
      requires Valid() && c in contexts
      modifies this`channels, this`held, this`ids, this`nextAddress, this`nextId
      ensures Counted(S()) && Indexed(S(), {p}) && Numbered(S(), nextAddress, nextId) && nextAddress > old(nextAddress)
      ensures p != 0 && p !in old(channels) && p !in old(held) && p in channels && channels[p].id !in old(ids)
      ensures var ch := ChannelBox(1, channels[p].id, d, c, false);
              S() == old(S()).(channels := old(channels)[p := ch], held := old(held)[p := 1], ids := old(ids)[ch.id := p])
    {
      hide Counted, Indexed;
      p := nextAddress;
      channels := channels[p := ChannelBox(1, nextId, d, c, false)];
      held, ids := held[p := 1], ids[nextId := p];
      nextAddress, nextId := nextAddress + 1, nextId + 1;
      ChannelAdded(old(S()), S(), p);
    }

    /** `Arc::clone`. */
    method CloneChannel(p: nat)
      requires Counted(S()) && Numbered(S(), nextAddress, nextId) && p in channels
      modifies this`channels, this`held
      ensures Counted(S()) && Numbered(S(), nextAddress, nextId) && S() == Cloned(old(S()), p)
    {
      hide Counted, Numbered;
      ClonedIsCounted(S(), p);
      StaysNumbered(S(), Cloned(S(), p), nextAddress, nextId);
      channels := channels[p := channels[p].(strong := channels[p].strong + 1)];
      held := More(held, p);
    }

    /** An `Arc` goes out of scope. */
    method DropChannel(p: nat)
      requires Counted(S()) && Numbered(S(), nextAddress, nextId) && p in held
      modifies this`channels, this`held
      ensures Counted(S()) && Numbered(S(), nextAddress, nextId) && S() == Dropped(old(S()), p)
    {
      hide Counted, Numbered, OwnersMatch;
      HeldIsInChannels(S());
      DroppedIsCounted(S(), p);
      StaysNumbered(S(), Dropped(S(), p), nextAddress, nextId);
      if channels[p].strong == 1 {
        channels := channels - {p};
      } else {
        channels := channels[p := channels[p].(strong := channels[p].strong - 1)];
      }
      held := Fewer(held, p);
    }

    /** `Arc::from_raw`: what the pointer `p` has owned is owned by a local, which is not among the owners in `held`. */
    method FromRaw(p: nat) returns (arc: nat)
      requires p in held
      modifies this`held
      ensures arc == p && S() == old(S()).(held := Fewer(old(held), p))
    {
      arc := p;
      held := Fewer(held, p);
    }

    /** A `ManuallyDrop` goes out of scope: its count stays, and the raw pointer owns it again. */
    method Forget(arc: nat)
      modifies this`held
      ensures S() == old(S()).(held := More(old(held), arc))
    {
      held := More(held, arc);
    }

    /** Any other local goes out of scope. */
    method DropLocal(arc: nat)
      requires arc in channels && channels[arc].strong > 0
      requires Counted(S().(held := More(held, arc))) && Numbered(S(), nextAddress, nextId)
      modifies this`channels, this`held
      ensures Counted(S()) && Numbered(S(), nextAddress, nextId)
      ensures S() == Dropped(old(S()).(held := More(old(held), arc)), arc)
    {
      hide Counted, Numbered;
      ghost var s := S();
      held := More(held, arc);
      StaysNumbered(s, S(), nextAddress, nextId);
      DropChannel(arc);
    }

    /** The first channel of the topic with this descriptor. */
    method FindMatch(c: nat, d: Descriptor) returns (m: Option<nat>)
      requires Counted(S()) && c in contexts
      ensures m.Some? ==>
                m.value in Topic(contexts[c], d.topic) && m.value in channels
                && channels[m.value].descriptor == d && channels[m.value].context == c
      ensures m.None? ==> forall q | q in Topic(contexts[c], d.topic) :: q in channels && channels[q].descriptor != d
    {
      hide Counted;
      ListIsLive(S(), c, d.topic);
      var list := Topic(contexts[c], d.topic);
      for i := 0 to |list|
        invariant forall j | 0 <= j < i :: list[j] in channels && channels[list[j]].descriptor != d
      {
        assert list[i] in list;
        if channels[list[i]].descriptor == d {
          return Some(list[i]);
        }
      }
      m := None;
    }

    /**
     `Context::add_channel`: a channel that matches one of the context is dropped, and that one is cloned in its place;
     any other goes into both indexes.
     */
    method AddChannel(c: nat, p: nat) returns (q: nat)
      requires Counted(S()) && Indexed(S(), {p}) && Numbered(S(), nextAddress, nextId) && IsNew(S(), c, p)
      modifies this`contexts, this`channels, this`held, this`latest
      ensures Valid() && q in channels
      ensures if q == p then
                NoMatch(old(S()), c, old(channels)[p].descriptor) && S() == Enrolled(old(S()), c, p)
              else
                && q in old(channels) && q in Topic(old(contexts)[c], old(channels)[p].descriptor.topic)
                && old(channels)[q].descriptor == old(channels)[p].descriptor && old(channels)[q].context == c
                && S() == Dropped(Cloned(old(S()), q), p)
    {
      hide Counted, Indexed, Numbered;
      var matching := FindMatch(c, channels[p].descriptor);
      if matching.Some? {
        q := matching.value;
        NewIsUnlisted(S(), c, p);
        CloneChannel(q);
        // the argument goes out of scope
        DropChannel(p);
        PendingGone(old(S()), S(), p);
      } else {
        Enrol(c, p);
        q := p;
      }
    }

    /** Adds a channel to the indexes, each of which takes a clone. */
    method Enrol(c: nat, p: nat)
      requires Counted(S()) && Indexed(S(), {p}) && Numbered(S(), nextAddress, nextId) && IsNew(S(), c, p)
      requires NoMatch(S(), c, channels[p].descriptor)
      modifies this`contexts, this`channels, this`held, this`latest
      ensures Valid() && S() == Enrolled(old(S()), c, p)
    {
      hide Counted, Indexed, Topic, Relisted, Numbered, NoMatch, InIndex, InTopic;
      NewIsUnlisted(S(), c, p);
      EnrolledIsIndexed(S(), c, p);
      ghost var key := (c, channels[p].descriptor);
      InsertIntoIndex(c, p);
      PushToTopic(c, p);
      ghost var s := S();
      latest := latest[key := p];
      CountedAgain(s, S());
      StaysNumbered(s, S(), nextAddress, nextId);
    }

    /** `self.channels.insert(channel.id(), channel.clone())`. */
    method InsertIntoIndex(c: nat, p: nat)
      requires Counted(S()) && Numbered(S(), nextAddress, nextId) && c in contexts && p in held && p in channels && channels[p].context == c
      requires channels[p].id !in contexts[c].channels
      modifies this`contexts, this`channels, this`held
      ensures Counted(S()) && Numbered(S(), nextAddress, nextId) && S() == InIndex(old(S()), c, p)
      ensures c in contexts && p in channels && channels[p].context == c && held == old(held)
    {
      hide Counted, Numbered, More, Fewer;
      InIndexIsCounted(S(), c, p);
      StaysNumbered(S(), InIndex(S(), c, p), nextAddress, nextId);
      MoreThenFewer(held, p);
      CloneChannel(p);
      contexts := contexts[c := contexts[c].(channels := contexts[c].channels[channels[p].id := p])];
      held := Fewer(held, p);
    }

    /** `topic_channels.push(channel.clone())`. */
    method PushToTopic(c: nat, p: nat)
      requires Counted(S()) && Numbered(S(), nextAddress, nextId) && c in contexts && p in held && p in channels && channels[p].context == c
      modifies this`contexts, this`channels, this`held
      ensures Counted(S()) && Numbered(S(), nextAddress, nextId) && S() == InTopic(old(S()), c, p)
      ensures c in contexts && p in channels && channels[p].context == c && held == old(held)
    {
      hide Counted, Numbered, More, Fewer, Topic, Relisted;
      InTopicIsCounted(S(), c, p);
      StaysNumbered(S(), InTopic(S(), c, p), nextAddress, nextId);
      MoreThenFewer(held, p);
      CloneChannel(p);
      var topic := channels[p].descriptor.topic;
      contexts := contexts[c := Relisted(contexts[c], topic, Topic(contexts[c], topic) + [p])];
      held := Fewer(held, p);
    }

    /** `ChannelBuilder::build_raw`: a new channel, or the one that the context already has. */
    method BuildRaw(c: nat, d: Descriptor) returns (p: nat)
      requires Valid() && c in contexts
      modifies this
      ensures Valid() && p != 0 && held == More(old(held), p) && contextHeld == old(contextHeld)
      ensures nextAddress > old(nextAddress)
      ensures if exists q :: OpenAs(old(S()), c, d, q) then Reused(old(S()), S(), c, d, p) else Opened(old(S()), S(), c, d, p)
    {
      hide Counted, Indexed, Numbered;
      ghost var s := S();
      var made := NewChannel(c, d);
      ghost var s1 := S();
      p := AddChannel(c, made);
      if p == made {
        BuiltFresh(s, s1, c, d, p);
      } else {
        BuiltByReuse(s, s1, c, d, made, p);
      }
      AddressIsNotNull(S(), nextAddress, nextId, p);
    }

    /** `Context::remove_channel`: closes the channel, which loses its entries in both indexes. */
    method RemoveChannel(c: nat, id: nat) returns (found: bool)
      requires Valid() && c in contexts
      modifies this`contexts, this`channels, this`held
      ensures Valid() && found == (id in old(contexts)[c].channels)
      ensures if found then Removed(old(S()), S(), c, old(contexts)[c].channels[id]) else S() == old(S())
    {
      if id !in contexts[c].channels {
        return false;
      }
      RemoveListed(c, id);
      found := true;
    }

    method RemoveListed(c: nat, id: nat)
      requires Valid() && c in contexts && id in contexts[c].channels
      modifies this`contexts, this`channels, this`held
      ensures Valid() && Removed(old(S()), S(), c, old(contexts)[c].channels[id])
    {
      hide Counted, Indexed, Numbered, FromIndex, FromTopic, DroppedTwice, Removed;
      RegisteredIsListed(S(), c, id);
      RemovalSteps(S(), c, id);
      var p := TakeFromIndex(c, id);
      TakeFromTopic(c, p);
      UnlistedCount(S(), c, p);
      CloseUnlisted(p);
    }

    /** `self.channels.remove(&channel_id)`: the entry becomes a local. */
    method TakeFromIndex(c: nat, id: nat) returns (p: nat)
      requires Counted(S()) && Numbered(S(), nextAddress, nextId) && c in contexts && id in contexts[c].channels
      modifies this`contexts, this`held
      ensures Counted(S()) && Numbered(S(), nextAddress, nextId) && p == old(contexts)[c].channels[id]
      ensures S() == FromIndex(old(S()), c, id) && p in channels && channels[p].context == c && channels[p].id == id
    {
      hide Counted, Numbered;
      FromIndexIsCounted(S(), c, id);
      StaysNumbered(S(), FromIndex(S(), c, id), nextAddress, nextId);
      p := contexts[c].channels[id];
      contexts := contexts[c := contexts[c].(channels := contexts[c].channels - {id})];
      held := More(held, p);
    }

    /** `topic_channels.retain(..)`: the entry of `p` becomes a local; a list that gets empty is removed. */
    method TakeFromTopic(c: nat, p: nat)
      requires Counted(S()) && Numbered(S(), nextAddress, nextId) && c in contexts
      requires p in channels && channels[p].context == c && TopicRefs(contexts[c], p, channels[p]) == 1
      modifies this`contexts, this`held
      ensures Counted(S()) && Numbered(S(), nextAddress, nextId) && S() == FromTopic(old(S()), c, p)
    {
      hide Counted, Numbered;
      FromTopicIsCounted(S(), c, p);
      StaysNumbered(S(), FromTopic(S(), c, p), nextAddress, nextId);
      var topic := channels[p].descriptor.topic;
      var kept := Retain(c, topic, p);
      contexts := contexts[c := Relisted(contexts[c], topic, kept)];
      held := More(held, p);
    }

    method Retain(c: nat, topic: Key, p: nat) returns (kept: seq<nat>)
      requires Counted(S()) && c in contexts && p in channels
      ensures kept == Without(Topic(contexts[c], topic), p)
    {
      hide Counted;
      ListIds(S(), c, topic, p);
      var list := Topic(contexts[c], topic);
      kept := [];
      for i := 0 to |list|
        invariant kept == Without(list[..i], p)
      {
        assert list[i] in list && list[..i + 1][..i] == list[..i];
        if channels[list[i]].id != channels[p].id {
          kept := kept + [list[i]];
        }
      }
      assert list[..|list|] == list;
    }

    /** The end of `remove_channel`: the channel has left the indexes, whose two entries are locals now. */
    method CloseUnlisted(p: nat)
      requires Counted(S()) && Numbered(S(), nextAddress, nextId)
      requires p in channels && p in held && 1 < held[p] == channels[p].strong
      modifies this`channels, this`held
      ensures Counted(S()) && Numbered(S(), nextAddress, nextId) && S() == DroppedTwice(old(S()), p)
    {
      hide Counted, Numbered;
      // `retain` drops the entry of the topic
      DropChannel(p);
      Close(p);
      // the entry of the id index goes out of scope
      DropChannel(p);
    }

    /** `remove_from_context`. */
    method Close(p: nat)
      requires Counted(S()) && Numbered(S(), nextAddress, nextId) && p in channels
      modifies this`channels
      ensures Counted(S()) && Numbered(S(), nextAddress, nextId)
      ensures channels == old(channels)[p := old(channels)[p].(closed := true)]
    {
      hide Counted, Numbered;
      channels := channels[p := channels[p].(closed := true)];
      ClosedIsCounted(old(S()), S(), p);
      StaysNumbered(old(S()), S(), nextAddress, nextId);
    }

    // ----- contexts -----

    /** An `Arc<Context>` goes out of scope; the last one clears the context. */
    method DropContext(c: nat)
      requires Valid() && c in contextHeld
      modifies this`contexts, this`channels, this`held, this`contextHeld
      ensures Valid() && contextHeld == Fewer(old(contextHeld), c) && c in old(contexts) && held == old(held)
      ensures c in contextHeld ==>
                S() == old(S()).(contexts := old(contexts)[c := old(contexts)[c].(strong := old(contexts)[c].strong - 1)],
                                 contextHeld := contextHeld)
      ensures c !in contextHeld ==> contexts == old(contexts) - {c} && Cleared(old(S()), S(), c)
    {
      hide Counted, Indexed, Numbered;
      HeldContextIsCounted(S(), c);
      ghost var s := S();
      contexts := contexts[c := contexts[c].(strong := contexts[c].strong - 1)];
      contextHeld := Fewer(contextHeld, c);
      if contexts[c].strong > 0 {
        ContextRecounted(s, S(), c);
        StaysNumbered(s, S(), nextAddress, nextId);
      } else {
        LastContext(s, S(), c);
        StaysNumbered(s, S(), nextAddress, nextId);
        ghost var s1 := S();
        Clear(c);
        ghost var s2 := S();
        contexts := contexts - {c};
        ClearedIsValid(s, s1, s2, S(), c);
        StaysNumbered(s2, S(), nextAddress, nextId);
      }
    }

    /** `ContextInner::clear`: drains both indexes. */
    method Clear(c: nat)
      requires Counted(S()) && Numbered(S(), nextAddress, nextId) && c in contexts && Quiet(S(), c)
      modifies this`contexts, this`channels, this`held
      ensures Counted(S()) && Numbered(S(), nextAddress, nextId) && c in contexts
      ensures Quiet(S(), c) && Fading(old(S()), S(), c)
      ensures contexts[c].channels == map[] && contexts[c].byTopic == map[]
    {
      hide Counted, Numbered, Fading, Quiet;
      ghost var s := S();
      NothingFades(s, c);
      while contexts[c].channels != map[]
        invariant Counted(S()) && Numbered(S(), nextAddress, nextId) && c in contexts && Quiet(S(), c) && Fading(s, S(), c)
        decreases |contexts[c].channels.Keys|
      {
        var id :| id in contexts[c].channels;
        ghost var s1 := S();
        DrainOne(c, id);
        FadingTransitive(s, s1, S(), c);
      }
      while contexts[c].byTopic != map[]
        invariant Counted(S()) && Numbered(S(), nextAddress, nextId) && c in contexts && Quiet(S(), c) && Fading(s, S(), c)
        invariant contexts[c].channels == map[]
        decreases |contexts[c].byTopic.Keys|
      {
        var t :| t in contexts[c].byTopic;
        ghost var s1 := S();
        DropTopic(c, t);
        FadingTransitive(s, s1, S(), c);
      }
    }

    /** Drains one entry of the id index: the channel is closed, and the entry goes out of scope. */
    method DrainOne(c: nat, id: nat)
      requires Counted(S()) && Numbered(S(), nextAddress, nextId) && c in contexts && Quiet(S(), c)
      requires id in contexts[c].channels
      modifies this`contexts, this`channels, this`held
      ensures Counted(S()) && Numbered(S(), nextAddress, nextId) && c in contexts
      ensures Quiet(S(), c) && Fading(old(S()), S(), c)
      ensures contexts[c] == old(contexts)[c].(channels := old(contexts)[c].channels - {id})
    {
      hide Counted, Numbered, Fading, Quiet;
      ghost var s := S();
      var p := TakeFromIndex(c, id);
      MoreThenFewer(s.held, p);
      Close(p);
      DropChannel(p);
      DrainedIsFading(s, c, id);
      assert S() == Lost(s, c, s.contexts[c].(channels := s.contexts[c].channels - {id}), p, true);
    }

    /** Drops the list of a topic, entry by entry. */
    method DropTopic(c: nat, t: Key)
      requires Counted(S()) && Numbered(S(), nextAddress, nextId) && c in contexts && Quiet(S(), c)
      requires t in contexts[c].byTopic
      modifies this`contexts, this`channels, this`held
      ensures Counted(S()) && Numbered(S(), nextAddress, nextId) && c in contexts
      ensures Quiet(S(), c) && Fading(old(S()), S(), c)
      ensures contexts[c] == old(contexts)[c].(byTopic := old(contexts)[c].byTopic - {t})
    {
      hide Counted, Numbered, Fading, Quiet;
      ghost var s := S();
      NothingFades(s, c);
      while t in contexts[c].byTopic
        invariant Counted(S()) && Numbered(S(), nextAddress, nextId) && c in contexts && Quiet(S(), c) && Fading(s, S(), c)
        invariant contexts[c] == s.contexts[c].(byTopic := contexts[c].byTopic)
        invariant contexts[c].byTopic - {t} == s.contexts[c].byTopic - {t}
        decreases |Topic(contexts[c], t)|, t in contexts[c].byTopic
      {
        ghost var s1 := S();
        DropLast(c, t);
        FadingTransitive(s, s1, S(), c);
      }
    }

    method DropLast(c: nat, t: Key)
      requires Counted(S()) && Numbered(S(), nextAddress, nextId) && c in contexts && Quiet(S(), c)
      requires t in contexts[c].byTopic
      modifies this`contexts, this`channels, this`held
      ensures Counted(S()) && Numbered(S(), nextAddress, nextId) && c in contexts
      ensures Quiet(S(), c) && Fading(old(S()), S(), c)
      ensures var list := old(contexts)[c].byTopic[t];
              list != [] && contexts[c] == Relisted(old(contexts)[c], t, list[..|list| - 1])
    {
      hide Counted, Numbered, Fading, Quiet, Relisted;
      LastIsLive(S(), c, t);
      ghost var s := S();
      var list := contexts[c].byTopic[t];
      var p := list[|list| - 1];
      LastIsCounted(S(), c, t);
      MoreThenFewer(held, p);
      contexts := contexts[c := Relisted(contexts[c], t, list[..|list| - 1])];
      held := More(held, p);
      StaysNumbered(s, S(), nextAddress, nextId);
      DropChannel(p);
      PoppedIsFading(s, c, t, p);
      assert S() == Lost(s, c, Shorter(s.contexts[c], t), p, false);
    }

    /** `RawChannel::close`. */
    method CloseChannel(p: nat)
      requires Valid() && p in channels
      modifies this`contexts, this`channels, this`held, this`contextHeld
      ensures Valid()
      ensures old(channels)[p].closed ==> S() == old(S())
      ensures !old(channels)[p].closed ==>
                old(channels)[p].context in old(contexts) && Removed(old(S()), S(), old(channels)[p].context, p)
    {
      hide Counted, Indexed, Numbered, Removed;
      OpenIsIndexed(S(), p);
      if !channels[p].closed {
        // `Weak::upgrade`
        if channels[p].context in contexts {
          RemoveBorrowed(p, channels[p].context, channels[p].id);
        }
      }
    }

    /** Removes a channel through a clone of its context. */
    method RemoveBorrowed(p: nat, c: nat, id: nat)
      requires Valid() && c in contexts && c in contextHeld && id in contexts[c].channels && contexts[c].channels[id] == p
      modifies this`contexts, this`channels, this`held, this`contextHeld
      ensures Valid() && Removed(old(S()), S(), c, p)
    {
      hide Counted, Indexed, Numbered, Removed;
      ghost var s := S();
      CloneContext(c);
      ghost var s1 := S();
      var found := RemoveChannel(c, id);
      ghost var s2 := S();
      RemovedKeepsContext(s, s1, s2, c, p);
      DropContext(c);
      RemovedInBorrowed(s, s1, s2, S(), c, p);
    }
  }
}
