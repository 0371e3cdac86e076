/** Whole runs of a C program with contexts, channels and MCAP writers (c/src/channel.rs). */
module ChannelRuns {
  import opened Wrappers
  import opened CStrings
  import opened BTreeMap
  import opened Contexts
  import opened RegistrySteps
  import opened Registry
  import opened MetadataPairs
  import opened Channels
  import opened Mcap

  /** How often each address is in a list of pointers; null does not count. */
  ghost function Tally(ps: seq<nat>): Owners {
    if ps == [] then map[]
    else if ps[|ps| - 1] == 0 then Tally(ps[..|ps| - 1])
    else More(Tally(ps[..|ps| - 1]), ps[|ps| - 1])
  }

  lemma {:induction false} TallyCounts(ps: seq<nat>, p: nat)
    ensures Count(Tally(ps), p) == if p == 0 then 0 else multiset(ps)[p]
  {
    if ps == [] {
    } else {
      TallyCounts(ps[..|ps| - 1], p);
      assert ps == ps[..|ps| - 1] + [ps[|ps| - 1]];
    }
  }

  lemma TallySnoc(ps: seq<nat>, p: nat)
    ensures Tally(ps + [p]) == if p == 0 then Tally(ps) else More(Tally(ps), p)
  {
    assert (ps + [p])[..|ps|] == ps;
  }

  /** Nulling a pointer takes it off the tally. */
  lemma {:induction false} TallyNulled(ps: seq<nat>, i: nat)
    requires i < |ps| && ps[i] != 0
    ensures ps[i] in Tally(ps) && Tally(ps[i := 0]) == Fewer(Tally(ps), ps[i])
  {
    var init, last := ps[..|ps| - 1], ps[|ps| - 1];
    if i == |ps| - 1 {
      assert ps[i := 0][..i] == init;
      MoreThenFewer(Tally(init), last);
    } else {
      TallyNulled(init, i);
      assert ps[i := 0][..|ps| - 1] == init[i := 0];
      if last != 0 {
        MoreFewerCommute(Tally(init), last, ps[i]);
      }
    }
  }

  lemma MoreFewerCommute(o: Owners, a: nat, b: nat)
    requires b in o
    ensures b in More(o, a) && More(Fewer(o, b), a) == Fewer(More(o, a), b)
  {
    var l, r := More(Fewer(o, b), a), Fewer(More(o, a), b);
    assert forall x :: Count(l, x) == Count(r, x);
    assert forall x :: x in l <==> x in r;
  }

  lemma MoreCommutes(o: Owners, a: nat, b: nat)
    ensures More(More(o, a), b) == More(More(o, b), a)
  {
  }

  // ----- the owners of contexts and channels -----

  function At(ps: seq<nat>, i: nat): nat {
    if i < |ps| then ps[i] else 0
  }

  function Nulled(ps: seq<nat>, i: nat): seq<nat> {
    if i < |ps| then ps[i := 0] else ps
  }

  /** The owners outside of the indexes are the program's pointers and the static default context. */
  ghost predicate Tallied(held: Owners, contextHeld: Owners, channels: seq<nat>, contexts: seq<nat>, default: nat) {
    held == Tally(channels) && contextHeld == More(Tally(contexts), default)
  }

  lemma TalliedIsHeld(held: Owners, contextHeld: Owners, channels: seq<nat>, contexts: seq<nat>, default: nat, i: nat)
    requires Tallied(held, contextHeld, channels, contexts, default)
    ensures default in contextHeld
    ensures At(contexts, i) != 0 ==> At(contexts, i) in contextHeld
    ensures At(contexts, i) == default != 0 ==> contextHeld[default] > 1
    ensures At(channels, i) != 0 ==> At(channels, i) in held
  {
    TallyCounts(contexts, At(contexts, i));
    TallyCounts(channels, At(channels, i));
  }

  lemma ContextTallied(held: Owners, contextHeld: Owners, channels: seq<nat>, contexts: seq<nat>, default: nat, c: nat)
    requires Tallied(held, contextHeld, channels, contexts, default) && c != 0
    ensures Tallied(held, More(contextHeld, c), channels, contexts + [c], default)
  {
    hide More;
    TallySnoc(contexts, c);
    MoreCommutes(Tally(contexts), default, c);
  }

  lemma ContextUntallied(held: Owners, contextHeld: Owners, channels: seq<nat>, contexts: seq<nat>, default: nat, i: nat)
    requires Tallied(held, contextHeld, channels, contexts, default) && At(contexts, i) != 0 && contexts[i] in contextHeld
    ensures Tallied(held, Fewer(contextHeld, contexts[i]), channels, contexts[i := 0], default)
  {
    hide More, Fewer;
    TallyNulled(contexts, i);
    MoreFewerCommute(Tally(contexts), default, contexts[i]);
  }

  lemma ChannelTallied(held: Owners, contextHeld: Owners, channels: seq<nat>, contexts: seq<nat>, default: nat, p: nat)
    requires Tallied(held, contextHeld, channels, contexts, default)
    ensures Tallied(if p == 0 then held else More(held, p), contextHeld, channels + [p], contexts, default)
  {
    hide More;
    TallySnoc(channels, p);
  }

  lemma ChannelUntallied(held: Owners, contextHeld: Owners, channels: seq<nat>, contexts: seq<nat>, default: nat, i: nat)
    requires Tallied(held, contextHeld, channels, contexts, default) && At(channels, i) != 0 && channels[i] in held
    ensures Tallied(Fewer(held, channels[i]), contextHeld, channels[i := 0], contexts, default)
  {
    hide More, Fewer;
    TallyNulled(channels, i);
  }

  /** The id index of some live context has the channel. */
  ghost predicate Advertised(s: State, p: nat) {
    exists c, id :: c in s.contexts && id in s.contexts[c].channels && s.contexts[c].channels[id] == p
  }

  /**
   A channel is live exactly while the program has a pointer to it or its context advertises it, and its count is the
   number of those pointers, and two more for the indexes.
   */
  lemma ChannelIsLiveIffOwned(s: State, pointers: seq<nat>, p: nat)
    requires Counted(s) && Indexed(s, {}) && s.held == Tally(pointers) && p != 0
    ensures p in s.channels <==> p in pointers || Advertised(s, p)
    ensures p in s.channels ==>
              && s.channels[p].strong == multiset(pointers)[p] + (if Advertised(s, p) then 2 else 0)
              && (Advertised(s, p) <==> !s.channels[p].closed)
  {
    TallyCounts(pointers, p);
    if p in s.channels {
      var ch := s.channels[p];
      assert OwnersMatch(s, p) && Settled(s, false, p);
      AdvertisedByItsContext(s, p);
    } else {
      forall c, id | c in s.contexts && id in s.contexts[c].channels
        ensures s.contexts[c].channels[id] != p
      {
        assert Filed(s.channels, c, s.contexts[c]) && FiledUnderId(s.channels, c, id, s.contexts[c].channels[id]);
      }
      assert p !in s.held;
      assert p in pointers <==> p in multiset(pointers);
    }
  }

  lemma AdvertisedByItsContext(s: State, p: nat)
    requires Counted(s) && p in s.channels
    ensures Advertised(s, p) <==> Registered(s.contexts, p, s.channels[p])
  {
    forall c, id | c in s.contexts && id in s.contexts[c].channels && s.contexts[c].channels[id] == p
      ensures Registered(s.contexts, p, s.channels[p])
    {
      assert Filed(s.channels, c, s.contexts[c]) && FiledUnderId(s.channels, c, id, p);
    }
  }

  /** A context is live exactly while the program has a pointer to it, and the default one always is. */
  lemma ContextIsLiveIffOwned(s: State, pointers: seq<nat>, default: nat, c: nat)
    requires Counted(s) && Indexed(s, {}) && s.contextHeld == More(Tally(pointers), default) && c != 0 && default != 0
    ensures c in s.contexts <==> c in pointers || c == default
    ensures c in s.contexts ==> s.contexts[c].strong == multiset(pointers)[c] + (if c == default then 1 else 0)
  {
    TallyCounts(pointers, c);
    assert c in pointers <==> c in multiset(pointers);
    assert c in s.contexts ==> Count(s.contextHeld, c) > 0;
  }

  /** A program that has closed its channels, and nulled its pointers to them, has left no channel behind. */
  lemma {:induction false} NothingLeft(s: State, pointers: seq<nat>)
    requires Counted(s) && Indexed(s, {}) && s.held == Tally(pointers) && 0 !in s.channels
    requires forall p <- pointers :: p == 0
    requires forall p | p in s.channels :: s.channels[p].closed
    ensures s.channels == map[]
  {
    forall p | p in s.channels
      ensures false
    {
      ChannelIsLiveIffOwned(s, pointers, p);
    }
  }

  // ----- the boxes of the writers -----

  /** No two pointers have the same box, and every box has a pointer, but for those that nobody was told of. */
  ghost predicate Points(writers: seq<nat>, boxes: set<nat>, lost: set<nat>) {
    && lost <= boxes && 0 !in boxes
    && (forall i | 0 <= i < |writers| && writers[i] != 0 :: writers[i] in boxes && writers[i] !in lost)
    && (forall i, j | 0 <= i < j < |writers| && writers[i] != 0 :: writers[i] != writers[j])
    && (forall p | p in boxes && p !in lost :: p in writers)
  }

  lemma {:induction false} PointsMore(writers: seq<nat>, boxes: set<nat>, lost: set<nat>, p: nat, q: nat)
    requires Points(writers, boxes, lost) && q !in boxes && q != 0 && p in {0, q}
    ensures Points(writers + [p], boxes + {q}, if p == 0 then lost + {q} else lost)
  {
    assert q in writers + [q];
    assert forall r | r in writers :: r in writers + [p];
  }

  lemma {:induction false} PointsNone(writers: seq<nat>, boxes: set<nat>, lost: set<nat>)
    requires Points(writers, boxes, lost)
    ensures Points(writers + [0], boxes, lost)
  {
    assert forall r | r in writers :: r in writers + [0];
  }

  lemma {:induction false} PointsLess(writers: seq<nat>, boxes: set<nat>, lost: set<nat>, i: nat)
    requires Points(writers, boxes, lost) && At(writers, i) != 0
    ensures Points(writers[i := 0], boxes - {writers[i]}, lost)
  {
    forall r | r in writers && r != writers[i]
      ensures r in writers[i := 0]
    {
      var j :| 0 <= j < |writers| && writers[j] == r;
      assert writers[i := 0][j] == r;
    }
  }

  // ----- programs -----

  /** One call; handles are given by their places among the program's pointers. */
  datatype Call =
    | NewContext
    | FreeContext(context: nat)
    | CreateRaw(out: bool, topic: FoxgloveString, encoding: FoxgloveString, schema: Option<CSchema>, context: nat,
                items: seq<KeyValue>)
    | Create(out: bool, topic: FoxgloveString, context: nat, typeEncoding: seq<byte>, typeSchema: Option<Schema>)
    | Close(channel: nat)
    | Log(channel: nat, data: Option<seq<byte>>)
    | LogTyped(channel: nat)
    | Free(channel: nat)
    | OpenWriter(out: bool, options: Options, context: nat, fileOpened: bool, created: bool)
    | WriteMetadata(writer: nat, name: FoxgloveString, metadata: Option<seq<KeyValue>>, written: bool)
    | Attach(writer: nat, attachment: Attachment, written: bool)
    | CloseWriter(writer: nat, finished: bool)
  {
    predicate Valid() {
      match this
      case CreateRaw(_, topic, encoding, schema, _, items) =>
        topic.Valid() && encoding.Valid() && (schema.Some? ==> schema.value.Valid()) && AllValid(items)
      case Create(_, topic, _, _, _) => topic.Valid()
      case OpenWriter(_, options, _, _, _) => options.Valid()
      case WriteMetadata(_, name, metadata, _) => name.Valid() && (metadata.Some? ==> AllValid(metadata.value))
      case Attach(_, attachment, _) => attachment.Valid()
      case _ => true
    }

    predicate Writes(w: nat) {
      (WriteMetadata? || Attach?) && writer == w
    }

    /** What the call adds to the file of the writer at `w`, with this answer. */
    ghost function Adds(code: Code, w: nat): seq<Record>
      requires Valid()
    {
      if code != Success || !Writes(w) then []
      else if Attach? then
        if attachment.name.AsUtf8().Some? && attachment.mediaType.AsUtf8().Some?
           && (attachment.data.None? ==> attachment.dataLen == 0)
        then [attachment.Recorded()] else []
      else if name.AsUtf8().Some? && metadata.Some? && Pairs(metadata.value).Some?
      then MetadataRecords(name.AsUtf8().value, Collect(Pairs(metadata.value).value)) else []
    }
  }

  /** What the program knows of its writers. */
  datatype Writers = Writers(boxes: map<nat, Option<Handle>>, files: map<nat, Option<seq<Record>>>, pointers: seq<nat>) {
    /** What is in the file of the writer at `w`, if there is one. */
    ghost function Recorded(w: nat): seq<Record> {
      var p := At(pointers, w);
      if p != 0 && p in boxes && boxes[p].Some? && boxes[p].value.sink in files && files[boxes[p].value.sink].Some?
      then files[boxes[p].value.sink].value else []
    }

    predicate Closed(w: nat) {
      w < |pointers| && pointers[w] == 0
    }

    ghost predicate Valid(contexts: map<nat, ContextBox>, lost: set<nat>) {
      Writing(boxes, files, contexts) && Points(pointers, boxes.Keys, lost)
    }
  }

  /** Every file has what the call adds to it, and only that; a failed write may have torn its own. */
  ghost predicate Accounts(call: Call, code: Code, s: Writers, s': Writers)
    requires call.Valid()
  {
    forall w: nat | !s'.Closed(w) ::
      (code == McapError && call.Writes(w)) || s'.Recorded(w) == s.Recorded(w) + call.Adds(code, w)
  }

  lemma NothingAdded(call: Call, code: Code, s: Writers)
    requires call.Valid() && ((!call.WriteMetadata? && !call.Attach?) || code != Success)
    ensures Accounts(call, code, s, s)
  {
  }

  lemma FailedAccounts(call: Call, code: Code, s: Writers, s': Writers, lost: set<nat>)
    requires call.OpenWriter? && call.Valid() && s' == s.(pointers := s.pointers + [0])
    requires Points(s.pointers, s.boxes.Keys, lost)
    ensures Accounts(call, code, s, s') && Points(s'.pointers, s'.boxes.Keys, lost)
  {
    PointsNone(s.pointers, s.boxes.Keys, lost);
  }

  /** Writers at different places have different sinks. */
  lemma OtherSink(s: Writers, contexts: map<nat, ContextBox>, lost: set<nat>, i: nat, w: nat)
    requires s.Valid(contexts, lost) && At(s.pointers, i) != 0 && At(s.pointers, w) != 0 && w != i
    requires s.boxes[s.pointers[i]].Some?
    ensures s.pointers[w] != s.pointers[i]
    ensures s.boxes[s.pointers[w]].Some? ==> s.boxes[s.pointers[w]].value.sink != s.boxes[s.pointers[i]].value.sink
  {
    hide Writing;
    assert s.pointers[w] != s.pointers[i];
    OtherBox(s, contexts, s.pointers[i], s.pointers[w]);
  }

  lemma HasFile(s: Writers, contexts: map<nat, ContextBox>, lost: set<nat>, i: nat)
    requires s.Valid(contexts, lost) && At(s.pointers, i) != 0 && s.boxes[s.pointers[i]].Some?
    ensures s.pointers[i] in s.boxes
    ensures var sink := s.boxes[s.pointers[i]].value.sink; sink in s.files && s.files[sink].Some?
  {
  }

  lemma OtherBox(s: Writers, contexts: map<nat, ContextBox>, p: nat, q: nat)
    requires Writing(s.boxes, s.files, contexts) && p in s.boxes && q in s.boxes && p != q
    ensures s.boxes[p].Some? && s.boxes[q].Some? ==> s.boxes[p].value.sink != s.boxes[q].value.sink
  {
  }

  lemma OpenAccounts(call: Call, code: Code, s: Writers, s': Writers, contexts: map<nat, ContextBox>, lost: set<nat>,
                     p: nat, q: nat, h: Handle)
    requires call.OpenWriter? && call.Valid() && s.Valid(contexts, lost)
    requires q !in s.boxes && h.sink !in s.files && p in {0, q}
    requires q != 0 && s' == Writers(s.boxes[q := Some(h)], s.files[h.sink := Some([])], s.pointers + [p])
    ensures Accounts(call, code, s, s') && Points(s'.pointers, s'.boxes.Keys, if p == 0 then lost + {q} else lost)
  {
    hide Writing;
    PointsMore(s.pointers, s.boxes.Keys, lost, p, q);
    assert s'.boxes.Keys == s.boxes.Keys + {q};
    forall w: nat | !s'.Closed(w)
      ensures s'.Recorded(w) == s.Recorded(w)
    {
    }
  }

  lemma CloseAccounts(call: Call, code: Code, s: Writers, s': Writers, contexts: map<nat, ContextBox>, lost: set<nat>, i: nat)
    requires call.CloseWriter? && call.Valid() && s.Valid(contexts, lost)
    requires At(s.pointers, i) != 0 && s.boxes[s.pointers[i]].Some?
    requires s' == Writers(s.boxes - {s.pointers[i]}, s.files[s.boxes[s.pointers[i]].value.sink := None], s.pointers[i := 0])
    ensures Accounts(call, code, s, s') && Points(s'.pointers, s'.boxes.Keys, lost)
  {
    hide Writing;
    PointsLess(s.pointers, s.boxes.Keys, lost, i);
    assert s'.boxes.Keys == s.boxes.Keys - {s.pointers[i]};
    hide Points;
    forall w: nat | !s'.Closed(w)
      ensures s'.Recorded(w) == s.Recorded(w)
    {
      if w < |s.pointers| {
        OtherSink(s, contexts, lost, i, w);
      }
    }
  }

  lemma WriteAccounts(call: Call, code: Code, s: Writers, s': Writers, contexts: map<nat, ContextBox>, lost: set<nat>, i: nat)
    requires (call.WriteMetadata? || call.Attach?) && call.Valid() && call.writer == i && s.Valid(contexts, lost)
    requires s' == s.(files := s'.files) && At(s.pointers, i) != 0 && s.boxes[s.pointers[i]].Some?
    requires var sink := s.boxes[s.pointers[i]].value.sink;
             match code
             case Success => s'.files == s.files[sink := Some(s.files[sink].value + call.Adds(code, i))]
             case McapError => sink in s'.files && s'.files == s.files[sink := s'.files[sink]]
             case _ => s'.files == s.files
    ensures Accounts(call, code, s, s')
  {
    hide Writing, Points, MetadataRecords, Collect, Pairs;
    HasFile(s, contexts, lost, i);
    forall w: nat | !s'.Closed(w) && w != i
      ensures s'.Recorded(w) == s.Recorded(w)
    {
      if w < |s.pointers| {
        OtherSink(s, contexts, lost, i, w);
      }
    }
  }

  /** What a run adds to the file of the writer at `w`. */
  ghost function AllAdded(calls: seq<Call>, answers: seq<Code>, w: nat): seq<Record>
    requires |calls| == |answers| && AllCallsValid(calls)
  {
    if calls == [] then []
    else var n := |calls| - 1; AllAdded(calls[..n], answers[..n], w) + calls[n].Adds(answers[n], w)
  }

  ghost predicate AllCallsValid(calls: seq<Call>) {
    forall i | 0 <= i < |calls| :: calls[i].Valid()
  }

  /** Some write to the file of the writer at `w` has failed. */
  ghost predicate Torn(calls: seq<Call>, answers: seq<Code>, w: nat)
    requires |calls| == |answers|
  {
    exists i :: 0 <= i < |calls| && answers[i] == McapError && calls[i].Writes(w)
  }

  /** The same for a run: the writers that are open at its end have what was added since they were opened. */
  ghost predicate AllAccounted(calls: seq<Call>, answers: seq<Code>, s: Writers, s': Writers)
    requires |calls| == |answers| && AllCallsValid(calls)
  {
    forall w: nat | !s'.Closed(w) && !Torn(calls, answers, w) ::
      s'.Recorded(w) == s.Recorded(w) + AllAdded(calls, answers, w)
  }

  lemma NoneAccounted(s: Writers)
    ensures AllAccounted([], [], s, s)
  {
  }

  lemma {:induction false} TornSnoc(calls: seq<Call>, answers: seq<Code>, w: nat, call: Call, code: Code)
    requires |calls| == |answers| && !Torn(calls + [call], answers + [code], w)
    ensures !Torn(calls, answers, w) && !(code == McapError && call.Writes(w))
  {
    var calls', answers' := calls + [call], answers + [code];
    assert calls'[|calls|] == call && answers'[|calls|] == code;
    forall i | 0 <= i < |calls| && answers[i] == McapError
      ensures !calls[i].Writes(w)
    {
      assert answers'[i] == McapError && calls'[i] == calls[i];
    }
  }

  lemma {:induction false} AddedSnoc(calls: seq<Call>, answers: seq<Code>, w: nat, call: Call, code: Code)
    requires |calls| == |answers| && AllCallsValid(calls) && call.Valid()
    ensures AllCallsValid(calls + [call])
    ensures AllAdded(calls + [call], answers + [code], w) == AllAdded(calls, answers, w) + call.Adds(code, w)
  {
    assert (calls + [call])[..|calls|] == calls && (answers + [code])[..|answers|] == answers;
  }

  lemma {:induction false} AccountedSnoc(calls: seq<Call>, answers: seq<Code>, s: Writers, s1: Writers, s2: Writers,
                                         call: Call, code: Code)
    requires |calls| == |answers| && AllCallsValid(calls) && call.Valid()
    requires AllAccounted(calls, answers, s, s1) && Accounts(call, code, s1, s2)
    requires |s1.pointers| <= |s2.pointers|
    requires forall i | 0 <= i < |s1.pointers| :: s2.pointers[i] in {0, s1.pointers[i]}
    ensures AllCallsValid(calls + [call]) && AllAccounted(calls + [call], answers + [code], s, s2)
  {
    hide AllAdded, Torn, AllCallsValid, Call.Valid, Call.Writes, Call.Adds, Writers.Recorded;
    AddedSnoc(calls, answers, 0, call, code);
    forall w: nat | !s2.Closed(w) && !Torn(calls + [call], answers + [code], w)
      ensures s2.Recorded(w) == s.Recorded(w) + AllAdded(calls + [call], answers + [code], w)
    {
      TornSnoc(calls, answers, w, call, code);
      AddedSnoc(calls, answers, w, call, code);
    }
  }

  /**
   What a call answers and does to contexts and channels. `given` is the pointer that it is given, `p` the one that it
   returns; null stands for the default context.
   */
  ghost predicate Effect(call: Call, code: Code, s: State, s': State, default: nat, given: nat, p: nat)
    requires call.Valid()
  {
    var c := if given == 0 then default else given;
    match call
    case NewContext =>
      && p != 0 && p !in s.contexts
      && s' == s.(contexts := s.contexts[p := ContextBox(1, map[], map[], {})], contextHeld := More(s.contextHeld, p))
    case FreeContext(_) => if given == 0 then s' == s else ContextDropped(s, s', given)
    case CreateRaw(out, topic, encoding, schema, _, items) =>
      && code == (if !out then ValueError else if AllText(topic, encoding, schema, items) then Success else Utf8Error)
      && (code != Success ==> p == 0 && s' == s)
      && (code == Success ==>
            && c in s.contexts && Handed(s, s', c, Described(topic, encoding, schema, items), p)
            && p in s'.channels && Describes(s'.channels[p].descriptor, topic, encoding, schema, items))
    case Create(out, topic, _, encoding, schema) =>
      && code == (if !out then ValueError else if topic.AsUtf8().Some? then Success else Utf8Error)
      && (code != Success ==> p == 0 && s' == s)
      && (code == Success ==> c in s.contexts && Handed(s, s', c, Descriptor(topic.AsUtf8().value, encoding, schema, []), p))
    case Close(_) =>
      if given == 0 || (given in s.channels && s.channels[given].closed) then s' == s
      else given in s.channels && s.channels[given].context in s.contexts && Removed(s, s', s.channels[given].context, given)
    case Log(_, data) => s' == s && code == if given == 0 || data.None? || data == Some([]) then ValueError else Success
    case LogTyped(_) => s' == s && code == if given == 0 then ValueError else Success
    case Free(_) =>
      if given == 0 then s' == s
      else given in s.channels && s.channels[given].strong > 0 && given in s.held && s' == Dropped(s, given)
    case OpenWriter(out, o, _, fileOpened, created) =>
      && (code == Success <==> o.Acceptable() && (o.custom.Some? || fileOpened) && created)
      && (code != Success ==> p == 0 && s' == s)
      && (code == Success ==>
            && (p != 0 <==> out) && c in s.contexts
            && exists sink :: sink !in s.contexts[c].sinks && s' == WithSinks(s, c, s.contexts[c].sinks + {sink}))
    case WriteMetadata(_, name, metadata, written) =>
      && s' == s
      && code == if given == 0 then ValueError
                 else if name.AsUtf8().None? || (metadata.Some? && Pairs(metadata.value).None?) then Utf8Error
                 else if metadata.None? || metadata.value == [] || written then Success else McapError
    case Attach(_, a, written) =>
      && s' == s
      && code == if given == 0 then ValueError
                 else if a.name.AsUtf8().None? || a.mediaType.AsUtf8().None? then Utf8Error
                 else if a.data.None? && a.dataLen != 0 then ValueError
                 else if written then Success else McapError
    case CloseWriter(_, finished) =>
      && code == (if given == 0 then ValueError else if finished then Success else McapError)
      && (s' == s || exists c, sink :: c in s.contexts && s' == WithSinks(s, c, s.contexts[c].sinks - {sink}))
  }

  lemma SameAcceptable(o: Options, context: nat)
    requires o.Valid()
    ensures o.(context := context).Valid() && (o.(context := context).Acceptable() <==> o.Acceptable())
  {
  }

  lemma Opens(call: Call, s: State, default: nat, given: nat, p: nat, sink: nat)
    requires call.OpenWriter? && call.Valid()
    requires call.options.Acceptable() && (call.options.custom.Some? || call.fileOpened) && call.created
    requires p != 0 <==> call.out
    requires var c := if given == 0 then default else given; c in s.contexts && sink !in s.contexts[c].sinks
    ensures var c := if given == 0 then default else given;
            var s' := WithSinks(s, c, s.contexts[c].sinks + {sink});
            Effect(call, Success, s, s', default, given, p) && s'.held == s.held && s'.contextHeld == s.contextHeld
  {
    hide Options.Acceptable;
  }

  lemma OpensNothing(call: Call, code: Code, s: State, default: nat, given: nat)
    requires call.OpenWriter? && call.Valid() && code != Success
    requires !(call.options.Acceptable() && (call.options.custom.Some? || call.fileOpened) && call.created)
    ensures Effect(call, code, s, s, default, given, 0)
  {
    hide Options.Acceptable;
  }

  function Last(ps: seq<nat>): nat {
    if ps == [] then 0 else ps[|ps| - 1]
  }

  /** A program that keeps its pointers in three lists, and nulls those that it has given up. */
  class Program {
    const lib: Library
    var channels: seq<nat>
    var contexts: seq<nat>
    var writers: seq<nat>
    // writers whose address nobody was told
    ghost var lost: set<nat>

    ghost predicate Valid()
      reads this, lib, lib.rt
    {
      && lib.Valid() && lib.Intact() && lib.default != 0
      && Tallied(lib.rt.held, lib.rt.contextHeld, channels, contexts, lib.default) && Points(writers, lib.boxes.Keys, lost)
    }

    ghost function W(): Writers
      reads this, lib
    {
      Writers(lib.boxes, lib.files, writers)
    }

    /** The pointer that a call is given. */
    ghost function Argument(call: Call): nat
      reads this
    {
      match call
      case NewContext => 0
      case FreeContext(i) => At(contexts, i)
      case CreateRaw(_, _, _, _, i, _) => At(contexts, i)
      case Create(_, _, i, _, _) => At(contexts, i)
      case OpenWriter(_, _, i, _, _) => At(contexts, i)
      case Close(i) => At(channels, i)
      case Log(i, _) => At(channels, i)
      case LogTyped(i) => At(channels, i)
      case Free(i) => At(channels, i)
      case WriteMetadata(i, _, _, _) => At(writers, i)
      case Attach(i, _, _) => At(writers, i)
      case CloseWriter(i, _) => At(writers, i)
    }

    /** The pointer that it has returned. */
    ghost function Result(call: Call): nat
      reads this
    {
      match call
      case NewContext => Last(contexts)
      case CreateRaw(_, _, _, _, _, _) => Last(channels)
      case Create(_, _, _, _, _) => Last(channels)
      case OpenWriter(_, _, _, _, _) => Last(writers)
      case _ => 0
    }

    constructor ()
      ensures Valid() && channels == [] && contexts == [] && writers == [] && lost == {} && fresh(lib) && fresh(lib.rt)
    {
      var rt := new Runtime();
      var c := rt.NewContext();
      lib := new Library(rt, c);
      channels, contexts, writers, lost := [], [], [], {};
    }

    /** What the program points to is live. */
    lemma PointersAreLive(i: nat)
      requires Valid()
      ensures lib.default in lib.rt.contextHeld
      ensures At(contexts, i) != 0 ==> At(contexts, i) in lib.rt.contexts && At(contexts, i) in lib.rt.contextHeld
      ensures At(channels, i) != 0 ==> At(channels, i) in lib.rt.held
      ensures At(writers, i) != 0 ==> At(writers, i) in lib.boxes && lib.boxes[At(writers, i)].Some?
    {
      TalliedIsHeld(lib.rt.held, lib.rt.contextHeld, channels, contexts, lib.default, i);
      if At(contexts, i) != 0 {
        HeldContextIsCounted(lib.rt.S(), At(contexts, i));
      }
    }

    method AddContext()
      requires Valid()
      modifies this`contexts, lib.rt
      ensures Valid() && |contexts| == |old(contexts)| + 1 && contexts[..|old(contexts)|] == old(contexts)
      ensures Effect(Call.NewContext, Success, old(lib.rt.S()), lib.rt.S(), lib.default, old(Argument(Call.NewContext)), Result(Call.NewContext))
    {
      hide Counted, Indexed, Numbered, Tallied, Writing, Known, Points;
      PointersAreLive(0);
      ghost var s, next := lib.rt.S(), lib.rt.nextAddress;
      var c := lib.rt.NewContext();
      ContextTallied(s.held, s.contextHeld, channels, contexts, lib.default, c);
      lib.StaysValid(s.contexts, next);
      contexts := contexts + [c];
    }

    method FreeContext(i: nat)
      requires Valid()
      modifies this`contexts, lib.rt
      ensures Valid() && contexts == Nulled(old(contexts), i)
      ensures Effect(Call.FreeContext(i), Success, old(lib.rt.S()), lib.rt.S(), lib.default, old(Argument(Call.FreeContext(i))), Result(Call.FreeContext(i)))
    {
      hide Counted, Indexed, Numbered, Tallied, Writing, Known, Points, Fewer;
      PointersAreLive(i);
      TalliedIsHeld(lib.rt.held, lib.rt.contextHeld, channels, contexts, lib.default, i);
      if At(contexts, i) != 0 {
        ghost var s := lib.rt.S();
        lib.FreeContext(contexts[i]);
        ContextUntallied(s.held, s.contextHeld, channels, contexts, lib.default, i);
        contexts := contexts[i := 0];
      }
    }

    /** A channel for a descriptor, or for a message type. */
    method CreateRaw(out: bool, topic: FoxgloveString, encoding: FoxgloveString, schema: Option<CSchema>, context: nat,
                     items: seq<KeyValue>) returns (code: Code)
      requires Valid() && topic.Valid() && encoding.Valid() && (schema.Some? ==> schema.value.Valid()) && AllValid(items)
      modifies this`channels, lib.rt
      ensures Valid() && code != SinkClosed
      ensures Effect(Call.CreateRaw(out, topic, encoding, schema, context, items), code, old(lib.rt.S()), lib.rt.S(), lib.default, old(Argument(Call.CreateRaw(out, topic, encoding, schema, context, items))), Result(Call.CreateRaw(out, topic, encoding, schema, context, items)))
      ensures |channels| == |old(channels)| + 1 && channels[..|old(channels)|] == old(channels)
    {
      hide Counted, Indexed, Numbered, Tallied, Writing, Known, Points, Opened, Reused, OpenAs, SinksKept, AllText, AllValid;
      PointersAreLive(context);
      ghost var s, next := lib.rt.S(), lib.rt.nextAddress;
      var p;
      code, p := RawChannelCreate(lib.rt, lib.default, out, topic, encoding, schema, At(contexts, context), items);
      AddChannel(s, next, p);
    }

    method Create(out: bool, topic: FoxgloveString, context: nat, encoding: seq<byte>, schema: Option<Schema>) returns (code: Code)
      requires Valid() && topic.Valid()
      modifies this`channels, lib.rt
      ensures Valid() && code != SinkClosed
      ensures Effect(Call.Create(out, topic, context, encoding, schema), code, old(lib.rt.S()), lib.rt.S(), lib.default, old(Argument(Call.Create(out, topic, context, encoding, schema))), Result(Call.Create(out, topic, context, encoding, schema)))
      ensures |channels| == |old(channels)| + 1 && channels[..|old(channels)|] == old(channels)
    {
      hide Counted, Indexed, Numbered, Tallied, Writing, Known, Points, Opened, Reused, OpenAs, SinksKept;
      PointersAreLive(context);
      ghost var s, next := lib.rt.S(), lib.rt.nextAddress;
      var p;
      code, p := ChannelCreate(lib.rt, lib.default, out, topic, At(contexts, context), encoding, schema);
      AddChannel(s, next, p);
    }

    /** Keeps the pointer to a channel, or null. */
    method AddChannel(ghost s: State, ghost next: nat, p: nat)
      requires Tallied(s.held, s.contextHeld, channels, contexts, lib.default) && Points(writers, lib.boxes.Keys, lost)
      requires Writing(lib.boxes, lib.files, s.contexts) && Known(lib.boxes, next) && lib.Intact() && lib.default != 0
      requires lib.default in s.contextHeld
      requires lib.rt.Valid() && SinksKept(s.contexts, next, lib.rt.contexts) && next <= lib.rt.nextAddress
      requires lib.rt.contextHeld == s.contextHeld && lib.rt.held == if p == 0 then s.held else More(s.held, p)
      modifies this`channels
      ensures Valid() && channels == old(channels) + [p]
    {
      hide Counted, Indexed, Numbered, Tallied, Writing, Known, Points, SinksKept, More;
      ChannelTallied(s.held, s.contextHeld, channels, contexts, lib.default, p);
      lib.StaysValid(s.contexts, next);
      channels := channels + [p];
    }

    method Close(i: nat)
      requires Valid()
      modifies lib.rt
      ensures Valid()
      ensures Effect(Call.Close(i), Success, old(lib.rt.S()), lib.rt.S(), lib.default, old(Argument(Call.Close(i))), Result(Call.Close(i)))
      ensures var p := At(channels, i); p != 0 ==> p in lib.rt.channels && lib.rt.channels[p].closed
    {
      hide Counted, Indexed, Numbered, Tallied, Writing, Known, Points, Removed, SinksKept;
      PointersAreLive(i);
      HeldIsInChannels(lib.rt.S());
      ghost var contexts := lib.rt.contexts;
      ChannelClose(lib.rt, At(channels, i));
      lib.StaysValid(contexts, lib.rt.nextAddress);
    }

    method Log(i: nat, data: Option<seq<byte>>) returns (code: Code)
      requires Valid()
      modifies lib.rt
      ensures Valid() && lib.rt.S() == old(lib.rt.S()) && code != SinkClosed
      ensures Effect(Call.Log(i, data), code, old(lib.rt.S()), lib.rt.S(), lib.default, old(Argument(Call.Log(i, data))), Result(Call.Log(i, data)))
    {
      hide Counted, Indexed, Numbered, Writing, Known, Points, Tallied;
      PointersAreLive(i);
      code := ChannelLog(lib.rt, At(channels, i), data);
    }

    method LogTyped(i: nat) returns (code: Code)
      requires Valid()
      modifies lib.rt
      ensures Valid() && lib.rt.S() == old(lib.rt.S()) && code != SinkClosed
      ensures Effect(Call.LogTyped(i), code, old(lib.rt.S()), lib.rt.S(), lib.default, old(Argument(Call.LogTyped(i))), Result(Call.LogTyped(i)))
    {
      hide Counted, Indexed, Numbered, Writing, Known, Points, Tallied;
      PointersAreLive(i);
      code := LogMessage(lib.rt, At(channels, i));
    }

    method Free(i: nat)
      requires Valid()
      modifies this`channels, lib.rt
      ensures Valid() && channels == Nulled(old(channels), i)
      ensures Effect(Call.Free(i), Success, old(lib.rt.S()), lib.rt.S(), lib.default, old(Argument(Call.Free(i))), Result(Call.Free(i)))
    {
      hide Counted, Indexed, Numbered, Tallied, Writing, Known, Points, Fewer, Dropped;
      PointersAreLive(i);
      if At(channels, i) != 0 {
        ghost var s := lib.rt.S();
        ChannelFree(lib.rt, channels[i]);
        ChannelUntallied(s.held, s.contextHeld, channels, contexts, lib.default, i);
        channels := channels[i := 0];
      }
    }

    // ----- writers -----

    method OpenWriter(call: Call) returns (code: Code)
      requires Valid() && call.Valid() && call.OpenWriter?
      modifies this`writers, this`lost, lib, lib.rt
      ensures Valid() && code != SinkClosed && Accounts(call, code, old(W()), W())
      ensures Effect(call, code, old(lib.rt.S()), lib.rt.S(), lib.default, old(Argument(call)), Result(call))
      ensures |writers| == |old(writers)| + 1 && writers[..|old(writers)|] == old(writers)
      ensures call.out ==> lost == old(lost)
    {
      hide Counted, Indexed, Numbered, Tallied, Writing, Known, Points, Accounts, Effect, Options.Acceptable, WithSinks;
      PointersAreLive(call.context);
      ghost var w, c, s, given := W(), lib.rt.contexts, lib.rt.S(), At(contexts, call.context);
      SameAcceptable(call.options, given);
      var p; ghost var q;
      code, p, q := lib.Open(call.options.(context := At(contexts, call.context)), call.out, call.fileOpened, call.created);
      if code == Success {
        writers := writers + [p];
        OpenAccounts(call, code, w, W(), c, lost, p, q, lib.boxes[q].value);
        Opens(call, s, lib.default, given, p, lib.boxes[q].value.sink);
        lost := if p == 0 then lost + {q} else lost;
      } else {
        writers := writers + [0];
        FailedAccounts(call, code, w, W(), lost);
        OpensNothing(call, code, s, lib.default, given);
      }
    }

    method CloseWriter(call: Call) returns (code: Code)
      requires Valid() && call.Valid() && call.CloseWriter?
      modifies this`writers, lib, lib.rt
      ensures Valid() && code != SinkClosed && Accounts(call, code, old(W()), W())
      ensures Effect(call, code, old(lib.rt.S()), lib.rt.S(), lib.default, old(Argument(call)), Result(call))
      ensures writers == Nulled(old(writers), call.writer)
    {
      hide Counted, Indexed, Numbered, Tallied, Writing, Known, Points, Accounts;
      PointersAreLive(call.writer);
      ghost var w, c := W(), lib.rt.contexts;
      var i := call.writer;
      code := lib.Close(At(writers, i), call.finished);
      if At(writers, i) != 0 {
        writers := writers[i := 0];
        CloseAccounts(call, code, w, W(), c, lost, i);
      } else {
        NothingAdded(call, code, w);
      }
    }

    method WriteMetadata(call: Call) returns (code: Code)
      requires Valid() && call.Valid() && call.WriteMetadata?
      modifies lib
      ensures Valid() && code != SinkClosed && Accounts(call, code, old(W()), W())
      ensures Effect(call, code, old(lib.rt.S()), lib.rt.S(), lib.default, old(Argument(call)), Result(call))
    {
      hide Counted, Indexed, Numbered, Tallied, Writing, Known, Points, Accounts;
      PointersAreLive(call.writer);
      ghost var w := W();
      code := lib.WriteMetadata(At(writers, call.writer), call.name, call.metadata, call.written);
      if At(writers, call.writer) != 0 {
        WriteAccounts(call, code, w, W(), lib.rt.contexts, lost, call.writer);
      } else {
        NothingAdded(call, code, w);
      }
    }

    method Attach(call: Call) returns (code: Code)
      requires Valid() && call.Valid() && call.Attach?
      modifies lib
      ensures Valid() && code != SinkClosed && Accounts(call, code, old(W()), W())
      ensures Effect(call, code, old(lib.rt.S()), lib.rt.S(), lib.default, old(Argument(call)), Result(call))
    {
      hide Counted, Indexed, Numbered, Tallied, Writing, Known, Points, Accounts;
      PointersAreLive(call.writer);
      ghost var w := W();
      code := lib.Attach(At(writers, call.writer), call.attachment, call.written);
      if At(writers, call.writer) != 0 {
        WriteAccounts(call, code, w, W(), lib.rt.contexts, lost, call.writer);
      } else {
        NothingAdded(call, code, w);
      }
    }

    /** Makes one call. What it returns is a new pointer, null on failure; what it gives up is nulled. */
    method Make(call: Call) returns (code: Code)
      requires Valid() && call.Valid()
      modifies this, lib, lib.rt
      ensures Valid() && code != SinkClosed && Accounts(call, code, old(W()), W())
      ensures Effect(call, code, old(lib.rt.S()), lib.rt.S(), lib.default, old(Argument(call)), Result(call))
      ensures match call
              case CreateRaw(_, _, _, _, _, _) => |channels| == |old(channels)| + 1 && channels[..|old(channels)|] == old(channels)
              case Create(_, _, _, _, _) => |channels| == |old(channels)| + 1 && channels[..|old(channels)|] == old(channels)
              case Free(i) => channels == Nulled(old(channels), i)
              case _ => channels == old(channels)
      ensures match call
              case NewContext => |contexts| == |old(contexts)| + 1 && contexts[..|old(contexts)|] == old(contexts)
              case FreeContext(i) => contexts == Nulled(old(contexts), i)
              case _ => contexts == old(contexts)
      ensures match call
              case OpenWriter(_, _, _, _, _) => |writers| == |old(writers)| + 1 && writers[..|old(writers)|] == old(writers)
              case CloseWriter(i, _) => writers == Nulled(old(writers), i)
              case _ => writers == old(writers)
      ensures (call.OpenWriter? ==> call.out) ==> lost == old(lost)
      ensures call.Close? ==> var p := At(channels, call.channel); p != 0 ==> p in lib.rt.channels && lib.rt.channels[p].closed
    {
      hide Counted, Indexed, Numbered, Tallied, Writing, Known, Points, Accounts, Nulled, Effect;
      ghost var w := W();
      code := Success;
      match call {
        case NewContext => AddContext();
        case FreeContext(i) => FreeContext(i);
        case CreateRaw(out, topic, encoding, schema, i, items) => code := CreateRaw(out, topic, encoding, schema, i, items);
        case Create(out, topic, i, encoding, schema) => code := Create(out, topic, i, encoding, schema);
        case Close(i) => Close(i);
        case Log(i, data) => code := Log(i, data);
        case LogTyped(i) => code := LogTyped(i);
        case Free(i) => Free(i);
        case OpenWriter(_, _, _, _, _) => code := OpenWriter(call);
        case WriteMetadata(_, _, _, _) => code := WriteMetadata(call);
        case Attach(_, _, _) => code := Attach(call);
        case CloseWriter(_, _) => code := CloseWriter(call);
      }
      if !call.OpenWriter? && !call.WriteMetadata? && !call.Attach? && !call.CloseWriter? {
        NothingAdded(call, code, w);
      }
    }

    /**
     Every run, of any calls in any order. Writers that are not closed hold their sinks, none is ever found closed, and
     their files have what was written to them. Counts are the numbers of owners, and what has an owner is live.
     */
    method Run(calls: seq<Call>) returns (answers: seq<Code>)
      requires Valid() && AllCallsValid(calls)
      modifies this, lib, lib.rt
      ensures Valid() && lib.Valid() && lib.Intact()
      ensures |answers| == |calls| && SinkClosed !in answers
      ensures AllAccounted(calls, answers, old(W()), W())
      ensures (forall p | p in lib.boxes :: p in writers || p in lost)
      ensures (forall c <- calls :: c.OpenWriter? ==> c.out) ==> lost == old(lost)
      ensures forall p | p != 0 ::
                && (p in lib.rt.channels <==> p in channels || Advertised(lib.rt.S(), p))
                && (p in lib.rt.channels ==>
                      lib.rt.channels[p].strong == multiset(channels)[p] + (if Advertised(lib.rt.S(), p) then 2 else 0))
      ensures forall c | c != 0 ::
                && (c in lib.rt.contexts <==> c in contexts || c == lib.default)
                && (c in lib.rt.contexts ==>
                      lib.rt.contexts[c].strong == multiset(contexts)[c] + (if c == lib.default then 1 else 0))
    {
      hide Advertised, Counted, Indexed, Numbered, Tally, More, Writing, Known, Accounts, AllAccounted;
      answers := [];
      ghost var w := W();
      NoneAccounted(w);
      for i := 0 to |calls|
        invariant Valid() && |answers| == i && SinkClosed !in answers
        invariant AllAccounted(calls[..i], answers, w, W())
        invariant (forall c <- calls[..i] :: c.OpenWriter? ==> c.out) ==> lost == old(lost)
      {
        assert calls[..i + 1] == calls[..i] + [calls[i]];
        ghost var w1 := W();
        var code := Make(calls[i]);
        AccountedSnoc(calls[..i], answers, w, w1, W(), calls[i], code);
        answers := answers + [code];
      }
      assert calls[..|calls|] == calls;
      forall p | p != 0
        ensures p in lib.rt.channels <==> p in channels || Advertised(lib.rt.S(), p)
        ensures p in lib.rt.channels ==>
                  lib.rt.channels[p].strong == multiset(channels)[p] + (if Advertised(lib.rt.S(), p) then 2 else 0)
      {
        ChannelIsLiveIffOwned(lib.rt.S(), channels, p);
      }
      forall c | c != 0
        ensures c in lib.rt.contexts <==> c in contexts || c == lib.default
        ensures c in lib.rt.contexts ==>
                  lib.rt.contexts[c].strong == multiset(contexts)[c] + (if c == lib.default then 1 else 0)
      {
        ContextIsLiveIffOwned(lib.rt.S(), contexts, lib.default, c);
      }
    }
  }
}
