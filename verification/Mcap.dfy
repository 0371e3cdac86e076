/** MCAP writers: open, close, metadata and attachments (c/src/channel.rs), and the sinks behind them. */
module Mcap {
  import opened Wrappers
  import opened CStrings
  import opened BTreeMap
  import opened Contexts
  import opened RegistrySteps
  import opened Registry
  import opened MetadataPairs

  /** The callbacks of a custom destination that the caller has filled in. */
  datatype CustomWriter = CustomWriter(write: bool, flush: bool, seek: bool)

  datatype Options = Options(context: nat, path: FoxgloveString, profile: FoxgloveString,
                             disableSeeking: bool, custom: Option<CustomWriter>) {
    predicate Valid() {
      path.Valid() && profile.Valid()
    }

    /** The strings are text, and there is a usable destination. */
    predicate Acceptable()
      requires path.Valid() && profile.Valid()
    {
      && profile.AsUtf8().Some?
      && match custom
         case Some(w) => w.write && w.flush && (w.seek || disableSeeking)
         case None => path.AsUtf8().Some? && path.AsUtf8().value != []
    }
  }

  datatype Attachment = Attachment(logTime: nat, createTime: nat, name: FoxgloveString, mediaType: FoxgloveString,
                                   data: Option<seq<byte>>, dataLen: nat) {
    predicate Valid() {
      name.Valid() && mediaType.Valid() && (data.Some? ==> |data.value| == dataLen)
    }

    /** The record that stands for it in the file. */
    function Recorded(): Record
      requires Valid() && name.AsUtf8().Some? && mediaType.AsUtf8().Some? && (data.None? ==> dataLen == 0)
    {
      AttachmentRecord(logTime, createTime, name.AsUtf8().value, mediaType.AsUtf8().value, if data.None? then [] else data.value)
    }
  }

  datatype Record =
    | MetadataRecord(name: seq<byte>, metadata: Metadata)
    | AttachmentRecord(logTime: nat, createTime: nat, name: seq<byte>, mediaType: seq<byte>, data: seq<byte>)

  /** The record is the attachment, part by part; without a pointer its data are empty. */
  ghost predicate IsAttachment(r: Record, a: Attachment)
    requires a.Valid()
  {
    && r.AttachmentRecord? && r.logTime == a.logTime && r.createTime == a.createTime
    && a.name.AsUtf8() == Some(r.name) && a.mediaType.AsUtf8() == Some(r.mediaType)
    && r.data == if a.data.Some? then a.data.value else []
  }

  /** The record has this name, and each key once, in order, with its last value. */
  ghost predicate IsMetadata(r: Record, name: FoxgloveString, items: seq<KeyValue>)
    requires name.Valid() && AllValid(items)
  {
    && r.MetadataRecord? && name.AsUtf8() == Some(r.name)
    && Sorted(r.metadata) && forall k, v :: Pair(k, v) in r.metadata <==> exists i :: IsLastItem(items, i, k, v)
  }

  /** Exactly one record was appended. */
  ghost predicate OneMore(before: Option<seq<Record>>, after: Option<seq<Record>>, r: Record) {
    before.Some? && after == Some(before.value + [r])
  }

  lemma {:induction false} CollectedIsMetadata(name: FoxgloveString, items: seq<KeyValue>)
    requires name.Valid() && name.AsUtf8().Some? && AllValid(items) && Pairs(items).Some?
    ensures var m := Collect(Pairs(items).value);
            (m == [] <==> items == []) && IsMetadata(MetadataRecord(name.AsUtf8().value, m), name, items)
  {
    PairsAre(items);
    var es := Pairs(items).value;
    LastWriterWins(es, []);
    if es != [] {
      CollectsNothingOnlyFromNothing(es);
    }
    hide Pairs, Collect, IsLastItem, Sorted, FoxgloveString.AsUtf8;
    forall k, v
      ensures Pair(k, v) in Collect(es) <==> exists i :: IsLastItem(items, i, k, v)
    {
      CollectsLastItems(items, k, v);
    }
  }

  lemma CollectsNothingOnlyFromNothing(es: Metadata)
    requires es != []
    ensures Collect(es) != []
  {
  }

  /** `McapWriterHandle`: its sink, and a weak pointer to its context. */
  datatype Handle = Handle(sink: nat, context: nat)

  /** What `write_metadata` puts into the file: nothing for an empty map. */
  function MetadataRecords(name: seq<byte>, metadata: Metadata): seq<Record> {
    if metadata == [] then [] else [MetadataRecord(name, metadata)]
  }

  /** An address or id that is not taken. */
  method Unused(taken: set<nat>) returns (a: nat)
    ensures a != 0 && a !in taken
  {
    a := 1;
    var left := taken;
    while left != {}
      invariant left <= taken && a > 0
      invariant forall k | k in taken && k !in left :: k < a
    {
      var k :| k in left;
      a := if k >= a then k + 1 else a;
      left := left - {k};
    }
  }

  /** The metadata loop: the pairs go into a map, up to the first string that is not UTF-8. */
  method CollectMetadata(items: seq<KeyValue>) returns (code: Code, entries: Metadata)
    requires AllValid(items)
    ensures code == if Pairs(items).Some? then Success else Utf8Error
    ensures code == Success ==> entries == Collect(Pairs(items).value)
  {
    entries := [];
    for i := 0 to |items|
      invariant Pairs(items[..i]).Some? && entries == Collect(Pairs(items[..i]).value)
    {
      var key, value := items[i].key.AsUtf8(), items[i].value.AsUtf8();
      PairsStep(items, i);
      if key.None? || value.None? {
        return Utf8Error, [];
      }
      entries := Insert(entries, key.value, value.value);
    }
    assert items[..|items|] == items;
    code := Success;
  }

  /** Every writer that is held has an unfinished sink of its own, registered with its context while that lives. */
  ghost predicate Writing(boxes: map<nat, Option<Handle>>, files: map<nat, Option<seq<Record>>>,
                             contexts: map<nat, ContextBox>) {
    && (forall p | p in boxes && boxes[p].Some? ::
          var h := boxes[p].value;
          && h.sink in files && files[h.sink].Some?
          && (h.context in contexts ==> h.sink in contexts[h.context].sinks))
    && (forall p, q | p in boxes && q in boxes && p != q && boxes[p].Some? && boxes[q].Some? ::
          boxes[p].value.sink != boxes[q].value.sink)
  }

  /** The contexts of the writers, live or gone, have addresses that are not given out again. */
  ghost predicate Known(boxes: map<nat, Option<Handle>>, next: nat) {
    forall p | p in boxes && boxes[p].Some? :: boxes[p].value.context < next
  }

  /** Writers stay registered while contexts come and go, as long as the others keep their sinks. */
  lemma StaysWriting(boxes: map<nat, Option<Handle>>, files: map<nat, Option<seq<Record>>>,
                     contexts: map<nat, ContextBox>, next: nat, contexts': map<nat, ContextBox>)
    requires Writing(boxes, files, contexts) && Known(boxes, next) && SinksKept(contexts, next, contexts')
    ensures Writing(boxes, files, contexts')
  {
  }

  /** A context that a builder has is live, and has the sinks that it had. */
  lemma InBorrowed(s: State, s1: State, nextAddress: nat, nextId: nat, c: nat)
    requires c in s.contexts && s1 == Borrowed(s, c) && Numbered(s1, nextAddress, nextId)
    ensures 0 < c < nextAddress && c in s1.contexts && s1.contexts[c].sinks == s.contexts[c].sinks
  {
    assert c in s1.contexts;
    AddressIsUsed(s1, nextAddress, nextId, c);
  }

  lemma NewWriter(boxes: map<nat, Option<Handle>>, files: map<nat, Option<seq<Record>>>, contexts: map<nat, ContextBox>,
                  p: nat, c: nat, sink: nat)
    requires Writing(boxes, files, contexts) && p !in boxes && sink !in files && c in contexts
    ensures Writing(boxes[p := Some(Handle(sink, c))], files[sink := Some([])],
                    contexts[c := contexts[c].(sinks := contexts[c].sinks + {sink})])
  {
  }

  class Library {
    const rt: Runtime
    const default: nat
    // the boxed `FoxgloveMcapWriter`s, by address
    var boxes: map<nat, Option<Handle>>
    // what each sink has written, until it is finished
    var files: map<nat, Option<seq<Record>>>

    constructor (rt: Runtime, default: nat)
      requires rt.Valid() && default in rt.contexts && default in rt.contextHeld
      ensures this.rt == rt && this.default == default && boxes == map[] && files == map[] && Valid() && Intact()
    {
      this.rt, this.default, boxes, files := rt, default, map[], map[];
    }

    ghost predicate Valid()
      reads this, rt
    {
      && rt.Valid() && default in rt.contexts && default in rt.contextHeld
      && Writing(boxes, files, rt.contexts) && Known(boxes, rt.nextAddress)
    }

    /** The lifecycle invariant: every live box holds its writer. */
    ghost predicate Intact()
      reads this
    {
      forall p | p in boxes :: boxes[p].Some?
    }

    /** The calls on channels and contexts leave the writers alone. */
    lemma StaysValid(contexts: map<nat, ContextBox>, next: nat)
      requires Writing(boxes, files, contexts) && Known(boxes, next)
      requires SinksKept(contexts, next, rt.contexts) && next <= rt.nextAddress
      requires rt.Valid() && default in rt.contextHeld
      ensures Valid()
    {
      hide Counted, Indexed, Numbered, Writing, SinksKept;
      HeldContextIsCounted(rt.S(), default);
      StaysWriting(boxes, files, contexts, next, rt.contexts);
    }

    /**
     `foxglove_mcap_open`. `fileOpened` and `created` are the answers of the operating system and of the MCAP library,
     and `out` says whether there is room for the handle. The caller's context is borrowed, and only success leaves
     anything behind: one box `q`, whose sink is new and registered. Without room for the handle, nobody knows the box.
     */
    method Open(o: Options, out: bool, fileOpened: bool, created: bool) returns (code: Code, p: nat, ghost q: nat)
      requires Valid() && o.Valid() && (o.context != 0 ==> o.context in rt.contexts && o.context in rt.contextHeld)
      modifies this, rt`contexts, rt`channels, rt`held, rt`contextHeld
      ensures Valid() && (old(Intact()) ==> Intact())
      ensures code == Success <==> o.Acceptable() && (o.custom.Some? || fileOpened) && created
      ensures code in {Success, Utf8Error, ValueError, IoError, McapError}
      ensures code == Utf8Error <==> o.profile.AsUtf8().Some? && o.custom.None? && o.path.AsUtf8().None?
      ensures code == ValueError <==>
                || o.profile.AsUtf8().None?
                || (match o.custom
                    case Some(w) => !w.write || !w.flush || (!w.seek && !o.disableSeeking)
                    case None => o.path.AsUtf8() == Some([]))
      ensures code == IoError <==> o.Acceptable() && o.custom.None? && !fileOpened
      ensures code == McapError <==> o.Acceptable() && (o.custom.Some? || fileOpened) && !created
      ensures code != Success ==> p == 0 && boxes == old(boxes) && files == old(files) && rt.S() == old(rt.S())
      ensures code == Success ==> Created(q, if o.context == 0 then default else o.context) && p == if out then q else 0
    {
      hide Counted, Indexed, Numbered, Writing, Borrowed, Returned, WithSinks;
      p, q := 0, 0;
      if o.profile.AsUtf8().None? {
        return ValueError, 0, 0;
      }
      ghost var s := rt.S();
      var context := Borrow(o.context);
      code := Destination(o, fileOpened);
      if code == Success && !created {
        code := McapError;
      }
      if code == Success {
        var box := Create(s, context);
        p, q := if out then box else 0, box;
      } else {
        GiveBack(s, context);
      }
    }

    /** The builder owns a count of the default context, or of the one that it is given. */
    method Borrow(given: nat) returns (context: nat)
      requires Valid() && (given != 0 ==> given in rt.contexts && given in rt.contextHeld)
      modifies rt`contexts, rt`channels, rt`held, rt`contextHeld
      ensures context == (if given == 0 then default else given) && context in old(rt.contexts) && context in old(rt.contextHeld)
      ensures rt.Valid() && rt.S() == Borrowed(old(rt.S()), context)
    {
      hide Counted, Indexed, Numbered, Writing;
      context := default;
      if given != 0 {
        BorrowedMoves(rt.S(), default, given);
      }
      rt.CloneContext(default);
      if given != 0 {
        // the raw pointer is used without its count being given up
        rt.CloneContext(given);
        rt.DropContext(default);
        context := given;
      }
    }

    /** The builder goes out of scope. */
    method GiveBack(ghost s: State, c: nat)
      requires rt.Valid() && c in s.contexts && c in s.contextHeld && rt.S() == Borrowed(s, c)
      modifies rt`contexts, rt`channels, rt`held, rt`contextHeld
      ensures rt.Valid() && rt.S() == s
    {
      hide Counted, Indexed, Numbered;
      BorrowedReturned(s, c);
      rt.DropContext(c);
    }

    /**
     `McapWriter::create` and `Box::into_raw`: a new sink, registered with the context, behind a new box. The builder is
     consumed, and its count of the context goes back: the handle keeps a weak pointer only.
     */
    method Create(ghost s: State, c: nat) returns (p: nat)
      requires rt.Valid() && Writing(boxes, files, s.contexts)
      requires c in s.contexts && c in s.contextHeld && rt.S() == Borrowed(s, c)
      requires default in s.contexts && default in s.contextHeld
      requires Known(boxes, rt.nextAddress)
      modifies this, rt`contexts, rt`channels, rt`held, rt`contextHeld
      ensures Valid() && (old(Intact()) ==> Intact())
      ensures p != 0 && p !in old(boxes) && p in boxes && boxes[p].Some? && boxes[p].value.context == c
      ensures var h := boxes[p].value;
              && h.sink !in old(files) && h.sink !in s.contexts[c].sinks
              && boxes == old(boxes)[p := Some(h)] && files == old(files)[h.sink := Some([])]
              && rt.S() == WithSinks(s, c, s.contexts[c].sinks + {h.sink})
    {
      hide Counted, Indexed, Numbered, Writing, Borrowed, Returned;
      InBorrowed(s, rt.S(), rt.nextAddress, rt.nextId, c);
      var sink := Unused(files.Keys + rt.contexts[c].sinks);
      p := Unused(boxes.Keys);
      NewWriter(boxes, files, s.contexts, p, c, sink);
      boxes, files := boxes[p := Some(Handle(sink, c))], files[sink := Some([])];
      AddSink(s, c, sink);
    }

    /** `add_sink`, and the builder goes out of scope. */
    method AddSink(ghost s: State, c: nat, sink: nat)
      requires rt.Valid() && c in s.contexts && c in s.contextHeld && rt.S() == Borrowed(s, c)
      modifies rt`contexts, rt`channels, rt`held, rt`contextHeld
      ensures rt.Valid() && rt.S() == WithSinks(s, c, s.contexts[c].sinks + {sink})
    {
      hide Counted, Indexed, Numbered;
      SinksInBorrowed(s, c, s.contexts[c].sinks + {sink});
      rt.SetSinks(c, rt.contexts[c].sinks + {sink});
      rt.DropContext(c);
    }

    /** A new writer is behind the box at `p`, and nothing else has changed. */
    twostate predicate Created(p: nat, c: nat)
      requires c in old(rt.contexts)
      reads this, rt
    {
      && p != 0 && p !in old(boxes) && p in boxes && boxes[p].Some?
      && var h := boxes[p].value;
      && h.context == c && h.sink !in old(files) && h.sink !in old(rt.contexts)[c].sinks
      && boxes == old(boxes)[p := Some(h)] && files == old(files)[h.sink := Some([])]
      && rt.S() == WithSinks(old(rt.S()), c, old(rt.contexts)[c].sinks + {h.sink})
    }

    /** Checks the destination, and opens the file if that is what it is. */
    static method Destination(o: Options, fileOpened: bool) returns (code: Code)
      requires o.path.Valid() && o.profile.Valid() && o.profile.AsUtf8().Some?
      ensures code == if o.custom.None? && o.path.AsUtf8().None? then Utf8Error
                      else if !o.Acceptable() then ValueError
                      else if o.custom.None? && !fileOpened then IoError
                      else Success
    {
      if o.custom.Some? {
        if !o.custom.value.seek && !o.disableSeeking {
          return ValueError;
        }
        if !o.custom.value.write || !o.custom.value.flush {
          return ValueError;
        }
        return Success;
      }
      var path := o.path.AsUtf8();
      if path.None? {
        return Utf8Error;
      }
      if path.value == [] {
        return ValueError;
      }
      code := if fileOpened then Success else IoError;
    }

    /** `foxglove_context_free`: the caller gives up its count. Open writers go on without the context. */
    method FreeContext(c: nat)
      requires Valid() && (c != 0 ==> c in rt.contextHeld)
      requires c == default ==> rt.contextHeld[c] > 1
      modifies rt`contexts, rt`channels, rt`held, rt`contextHeld
      ensures Valid() && rt.held == old(rt.held)
      ensures if c == 0 then rt.S() == old(rt.S()) else ContextDropped(old(rt.S()), rt.S(), c)
    {
      hide Counted, Indexed, Numbered, Writing, Known;
      if c != 0 {
        ghost var contexts := rt.contexts;
        HeldContextIsCounted(rt.S(), c);
        ContextCount(rt.S(), c);
        rt.DropContext(c);
        StaysValid(contexts, rt.nextAddress);
      }
    }

    /** `foxglove_mcap_close`: the box is gone whatever happens, its sink is finished, and its context forgets it. */
    method Close(p: nat, finished: bool) returns (code: Code)
      requires Valid() && (p != 0 ==> p in boxes)
      modifies this, rt`contexts
      ensures Valid() && (old(Intact()) ==> Intact() && code != SinkClosed)
      ensures boxes == if p == 0 then old(boxes) else old(boxes) - {p}
      ensures code == ValueError <==> p == 0
      ensures code == SinkClosed <==> p != 0 && old(boxes[p].None?)
      ensures p == 0 || old(boxes[p].None?) ==> files == old(files) && rt.S() == old(rt.S())
      ensures p != 0 && old(boxes[p].Some?) ==>
                var h := old(boxes[p].value);
                && code == (if finished then Success else McapError)
                && files == old(files)[h.sink := None]
                && rt.S() == if h.context in old(rt.contexts)
                             then WithSinks(old(rt.S()), h.context, old(rt.contexts)[h.context].sinks - {h.sink})
                             else old(rt.S())
    {
      hide Counted, Indexed, Numbered;
      if p == 0 {
        return ValueError;
      }
      var taken := boxes[p];
      boxes := boxes - {p};
      if taken.None? {
        return SinkClosed;
      }
      var Handle(sink, context) := taken.value;
      // `Weak::upgrade`
      if context in rt.contexts {
        rt.SetSinks(context, rt.contexts[context].sinks - {sink});
      }
      files := files[sink := None];
      code := if finished then Success else McapError;
    }

    /**
     Appends a record to the file of a sink; `written` is the answer of the MCAP library. A failed write may have left
     anything in the file.
     */
    method Append(sink: nat, record: Record, written: bool) returns (code: Code)
      requires sink in files
      modifies this`files
      ensures code == if old(files)[sink].None? then SinkClosed else if written then Success else McapError
      ensures code == Success ==> files == old(files)[sink := Some(old(files)[sink].value + [record])]
      ensures code == SinkClosed ==> files == old(files)
      ensures code == McapError ==> sink in files && files[sink].Some? && files == old(files)[sink := files[sink]]
    {
      if files[sink].None? {
        return SinkClosed;
      }
      if !written {
        var torn: seq<Record> := *;
        files := files[sink := Some(torn)];
        return McapError;
      }
      files := files[sink := Some(files[sink].value + [record])];
      code := Success;
    }

    /** The files after `records` have been appended to the file of the writer at `p`. */
    ghost function Extended(p: nat, records: seq<Record>): map<nat, Option<seq<Record>>>
      requires Writing(boxes, files, rt.contexts) && p in boxes && boxes[p].Some?
      reads this, rt
    {
      files[boxes[p].value.sink := Some(files[boxes[p].value.sink].value + records)]
    }

    /**
     What a call leaves behind: the records are at the end of the writer's file. A failed write may have torn that one
     file, and any other failure has changed nothing.
     */
    twostate predicate Wrote(p: nat, records: seq<Record>, code: Code)
      requires Writing(old(boxes), old(files), old(rt.contexts))
      reads this, rt
    {
      && boxes == old(boxes)
      && match code
         case Success => p in old(boxes) && old(boxes[p].Some?) && files == old(Extended(p, records))
         case McapError =>
           && p in old(boxes) && old(boxes[p].Some?)
           && var sink := old(boxes)[p].value.sink;
           sink in files && files[sink].Some? && files == old(files)[sink := files[sink]]
         case _ => files == old(files)
    }

    /**
     `foxglove_mcap_write_metadata`: the pairs are collected into a map, and an empty map is not written. A live box
     takes them: `SinkClosed` is never the answer.
     */
    method WriteMetadata(p: nat, name: FoxgloveString, metadata: Option<seq<KeyValue>>, written: bool) returns (code: Code)
      requires Valid() && (p != 0 ==> p in boxes) && name.Valid()
      requires metadata.Some? ==> AllValid(metadata.value)
      modifies this`files
      ensures Valid() && (Intact() ==> code != SinkClosed)
      ensures var text := name.AsUtf8().Some? && (metadata.Some? ==> Pairs(metadata.value).Some?);
              var records := if !text || metadata.None? then []
                             else MetadataRecords(name.AsUtf8().value, Collect(Pairs(metadata.value).value));
              && (code == ValueError <==> p == 0)
              && (p != 0 && boxes[p].Some? ==>
                    code == if !text then Utf8Error else if records == [] || written then Success else McapError)
              && Wrote(p, records, code)
      ensures code == Success ==>
                && p in boxes && boxes[p].Some? && boxes[p].value.sink in files && boxes[p].value.sink in old(files)
                && var f0, f := old(files)[boxes[p].value.sink], files[boxes[p].value.sink];
                if metadata.None? || metadata.value == [] then f == f0
                else exists r :: OneMore(f0, f, r) && IsMetadata(r, name, metadata.value)
    {
      hide Counted, Indexed, Numbered, Collect, Pairs, IsMetadata;
      if p == 0 {
        return ValueError;
      }
      if name.AsUtf8().None? {
        return Utf8Error;
      }
      if boxes[p].None? {
        return SinkClosed;
      }
      assert Extended(p, []) == files by {
        assert files[boxes[p].value.sink].value + [] == files[boxes[p].value.sink].value;
      }
      if metadata.None? {
        return Success;
      }
      var entries;
      code, entries := CollectMetadata(metadata.value);
      if code != Success {
        return;
      }
      CollectedIsMetadata(name, metadata.value);
      if entries == [] {
        return;
      }
      code := Append(boxes[p].value.sink, MetadataRecord(name.AsUtf8().value, entries), written);
    }

    /** `foxglove_mcap_attach`. Null data are an empty attachment, unless they come with a length. */
    method Attach(p: nat, a: Attachment, written: bool) returns (code: Code)
      requires Valid() && (p != 0 ==> p in boxes) && a.Valid()
      modifies this`files
      ensures Valid() && (Intact() ==> code != SinkClosed)
      ensures p == 0 ==> code == ValueError
      ensures p != 0 && boxes[p].Some? ==>
                code == if a.name.AsUtf8().None? || a.mediaType.AsUtf8().None? then Utf8Error
                        else if a.data.None? && a.dataLen != 0 then ValueError
                        else if written then Success else McapError
      ensures code == Success ==> a.name.AsUtf8().Some? && a.mediaType.AsUtf8().Some? && (a.data.None? ==> a.dataLen == 0)
      ensures Wrote(p, if code == Success then [a.Recorded()] else [], code)
      ensures code == Success ==>
                && p in boxes && boxes[p].Some? && boxes[p].value.sink in files && boxes[p].value.sink in old(files)
                && exists r :: OneMore(old(files)[boxes[p].value.sink], files[boxes[p].value.sink], r) && IsAttachment(r, a)
    {
      if p == 0 {
        return ValueError;
      }
      var name, mediaType := a.name.AsUtf8(), a.mediaType.AsUtf8();
      if name.None? || mediaType.None? {
        return Utf8Error;
      }
      if boxes[p].None? {
        return SinkClosed;
      }
      var data := [];
      if a.data.None? || a.dataLen == 0 {
        if a.dataLen != 0 {
          return ValueError;
        }
      } else {
        data := a.data.value;
      }
      var record := AttachmentRecord(a.logTime, a.createTime, name.value, mediaType.value, data);
      assert IsAttachment(record, a);
      code := Append(boxes[p].value.sink, record, written);
      assert code == Success ==> OneMore(old(files)[boxes[p].value.sink], files[boxes[p].value.sink], record);
    }
  }
}
