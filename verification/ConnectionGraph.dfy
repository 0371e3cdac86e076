/**
 Connection graphs: the C setters (c/src/connection_graph.rs), and the updates that the server derives from them
 (rust/foxglove/src/websocket/connection_graph.rs).
 */
module ConnectionGraph {
  import opened Wrappers
  import opened CStrings

  type Name = seq<byte>

  type MapOfSets = map<Name, set<Name>>

  /** A C array of ids, and its length. */
  datatype Ids = Ids(data: Option<seq<FoxgloveString>>, count: nat) {
    predicate Valid() {
      data.Some? ==> |data.value| == count && forall s <- data.value :: s.Valid()
    }
  }

  /** The ids that the array names, or the error for the first bad one. */
  function ReadAll(ids: seq<FoxgloveString>): (r: Result<set<Name>, Code>)
    requires forall s <- ids :: s.Valid()
    ensures r.Err? ==> r.error != Success
  {
    if ids == [] then Ok({})
    else
      match ReadAll(ids[..|ids| - 1])
      case Err(e) => Err(e)
      case Ok(names) =>
        var last := ids[|ids| - 1];
        if last.data.None? then Err(ValueError)
        else if last.AsUtf8().None? then Err(Utf8Error)
        else Ok(names + {last.AsUtf8().value})
  }

  lemma {:induction false} ErrorStays(ids: seq<FoxgloveString>, i: nat)
    requires i <= |ids| && (forall s <- ids :: s.Valid()) && ReadAll(ids[..i]).Err?
    ensures ReadAll(ids) == ReadAll(ids[..i])
  {
    if i == |ids| {
      assert ids[..i] == ids;
    } else {
      assert ids[..|ids| - 1][..i] == ids[..i];
      ErrorStays(ids[..|ids| - 1], i);
    }
  }

  /** The id is text, and not a null pointer. */
  predicate Readable(id: FoxgloveString)
    requires id.Valid()
  {
    id.data.Some? && id.AsUtf8().Some?
  }

  /** The names are exactly the texts of the ids. */
  ghost predicate Named(names: set<Name>, ids: seq<FoxgloveString>) {
    forall n :: n in names <==> exists i :: 0 <= i < |ids| && ids[i].Valid() && Readable(ids[i]) && ids[i].AsUtf8().value == n
  }

  /** The id at `i` is the first that cannot be read. */
  ghost predicate FirstUnreadable(ids: seq<FoxgloveString>, i: int)
    requires forall s <- ids :: s.Valid()
  {
    0 <= i < |ids| && !Readable(ids[i]) && forall j | 0 <= j < i :: Readable(ids[j])
  }

  /** Ids are read completely, or the first bad one decides the error. */
  lemma {:induction false} ReadAllIs(ids: seq<FoxgloveString>)
    requires forall s <- ids :: s.Valid()
    ensures match ReadAll(ids)
            case Ok(names) => Named(names, ids) && forall i | 0 <= i < |ids| :: Readable(ids[i])
            case Err(e) => exists i :: FirstUnreadable(ids, i) && e == if ids[i].data.None? then ValueError else Utf8Error
  {
    hide Named, FoxgloveString.AsUtf8;
    if ids == [] {
      NothingNamed();
    } else {
      var init, last := ids[..|ids| - 1], ids[|ids| - 1];
      ReadAllIs(init);
      if ReadAll(init).Err? {
        var i :| FirstUnreadable(init, i) && ReadAll(init).error == if init[i].data.None? then ValueError else Utf8Error;
        assert FirstUnreadable(ids, i);
      } else if !Readable(last) {
        assert FirstUnreadable(ids, |init|);
      } else {
        NamedSnoc(ReadAll(init).value, init, last);
        assert ids == init + [last];
      }
    }
  }

  lemma NothingNamed()
    ensures Named({}, [])
  {
  }

  lemma NamedSnoc(names: set<Name>, ids: seq<FoxgloveString>, id: FoxgloveString)
    requires Named(names, ids) && id.Valid() && Readable(id)
    ensures Named(names + {id.AsUtf8().value}, ids + [id])
  {
    var all := ids + [id];
    forall n
      ensures n in names + {id.AsUtf8().value}
              <==> exists i :: 0 <= i < |all| && all[i].Valid() && Readable(all[i]) && all[i].AsUtf8().value == n
    {
      if n in names {
        var i :| 0 <= i < |ids| && ids[i].Valid() && Readable(ids[i]) && ids[i].AsUtf8().value == n;
        assert all[i] == ids[i];
      } else if n == id.AsUtf8().value {
        assert all[|ids|] == id;
      }
    }
  }

  // ----- the graph as a value -----

  datatype Kind = Published | Subscribed | Advertised

  datatype Graph = Graph(published: MapOfSets, subscribed: MapOfSets, advertised: MapOfSets) {
    function Of(kind: Kind): MapOfSets {
      match kind
      case Published => published
      case Subscribed => subscribed
      case Advertised => advertised
    }

    function With(kind: Kind, name: Name, ids: set<Name>): Graph {
      match kind
      case Published => this.(published := published[name := ids])
      case Subscribed => this.(subscribed := subscribed[name := ids])
      case Advertised => this.(advertised := advertised[name := ids])
    }
  }

  const EMPTY: Graph := Graph(map[], map[], map[])

  // ----- calls -----

  /** One call of a setter. */
  datatype Call = Call(kind: Kind, name: FoxgloveString, ids: Ids) {
    predicate Valid() {
      name.Valid() && ids.Valid()
    }

    /** What the call returns. */
    function Answer(): Code
      requires Valid()
    {
      if name.AsUtf8().None? then Utf8Error
      else if ids.count == 0 then Success
      else if ids.data.None? then ValueError
      else
        match ReadAll(ids.data.value)
        case Err(e) => e
        case Ok(_) => Success
    }

    /** Whether the call sets anything. */
    predicate Sets()
      requires Valid()
    {
      Answer() == Success && ids.count > 0
    }

    /** Whether it sets the ids of `name` in the map of this kind. */
    predicate SetsName(kind: Kind, name: Name)
      requires Valid()
    {
      Sets() && this.kind == kind && this.name.AsUtf8() == Some(name)
    }
  }

  /** The name is checked first, then the pointer of a non-empty array, then the ids in order. */
  lemma AnswerIs(c: Call)
    requires c.Valid()
    ensures c.name.AsUtf8().None? ==> c.Answer() == Utf8Error
    ensures c.name.AsUtf8().Some? && c.ids.count == 0 ==> c.Answer() == Success
    ensures c.name.AsUtf8().Some? && c.ids.count > 0 && c.ids.data.None? ==> c.Answer() == ValueError
    ensures c.name.AsUtf8().Some? && c.ids.count > 0 && c.ids.data.Some? ==>
              var ids := c.ids.data.value;
              && (c.Answer() == Success <==> forall i | 0 <= i < |ids| :: Readable(ids[i]))
              && (forall i | FirstUnreadable(ids, i) :: c.Answer() == if ids[i].data.None? then ValueError else Utf8Error)
  {
    if c.name.AsUtf8().Some? && c.ids.count > 0 && c.ids.data.Some? {
      ReadAllIs(c.ids.data.value);
      assert forall i, j | FirstUnreadable(c.ids.data.value, i) && FirstUnreadable(c.ids.data.value, j) :: i == j;
    }
  }

  /** The graph after a call that was answered in full or not at all. */
  function Step(g: Graph, c: Call): Graph
    requires c.Valid()
  {
    if c.Sets() then g.With(c.kind, c.name.AsUtf8().value, ReadAll(c.ids.data.value).value) else g
  }

  function Replay(g: Graph, calls: seq<Call>): Graph
    requires forall c <- calls :: c.Valid()
  {
    if calls == [] then g else Step(Replay(g, calls[..|calls| - 1]), calls[|calls| - 1])
  }

  /** The call at `i` is the last that sets `name` in the map of `kind`. */
  ghost predicate LastSets(calls: seq<Call>, kind: Kind, name: Name, i: int)
    requires forall c <- calls :: c.Valid()
  {
    && 0 <= i < |calls| && calls[i].SetsName(kind, name)
    && forall j | i < j < |calls| :: !calls[j].SetsName(kind, name)
  }

  /** After the last call that sets a name, its set has exactly the ids of that call. */
  lemma {:induction false} HistoryDecides(g: Graph, calls: seq<Call>, kind: Kind, name: Name, i: nat)
    requires (forall c <- calls :: c.Valid()) && LastSets(calls, kind, name, i)
    ensures var m := Replay(g, calls).Of(kind);
            calls[i].ids.data.Some? && name in m && Named(m[name], calls[i].ids.data.value)
  {
    var init, last := calls[..|calls| - 1], calls[|calls| - 1];
    SetsIds(Replay(g, init), last, kind, name);
    if i < |init| {
      assert forall j | 0 <= j < |init| :: init[j] == calls[j];
      HistoryDecides(g, init, kind, name, i);
    }
  }

  /** What no call sets stays as it was. */
  lemma {:induction false} OtherNamesStay(g: Graph, calls: seq<Call>, kind: Kind, name: Name)
    requires (forall c <- calls :: c.Valid()) && forall c <- calls :: !c.SetsName(kind, name)
    ensures var m := Replay(g, calls).Of(kind);
            (name in m <==> name in g.Of(kind)) && (name in m ==> m[name] == g.Of(kind)[name])
  {
    if calls == [] {
    } else {
      OtherNamesStay(g, calls[..|calls| - 1], kind, name);
      SetsIds(Replay(g, calls[..|calls| - 1]), calls[|calls| - 1], kind, name);
    }
  }

  /** What one call does to the set of a name. */
  lemma SetsIds(g: Graph, c: Call, kind: Kind, name: Name)
    requires c.Valid()
    ensures var m, m' := g.Of(kind), Step(g, c).Of(kind);
            if c.SetsName(kind, name) then c.ids.data.Some? && name in m' && Named(m'[name], c.ids.data.value)
            else (name in m' <==> name in m) && (name in m ==> m'[name] == m[name])
  {
    if c.Sets() {
      ReadAllIs(c.ids.data.value);
    }
  }

  function OnlySetting(calls: seq<Call>): (r: seq<Call>)
    requires forall c <- calls :: c.Valid()
    ensures forall c <- r :: c in calls && c.Valid() && c.Sets()
  {
    if calls == [] then []
    else
      OnlySetting(calls[..|calls| - 1]) + if calls[|calls| - 1].Sets() then [calls[|calls| - 1]] else []
  }

  /** Failed calls, and calls without ids, might as well not have been made. */
  lemma {:induction false} FailuresLeaveNoTrace(g: Graph, calls: seq<Call>)
    requires forall c <- calls :: c.Valid()
    ensures Replay(g, calls) == Replay(g, OnlySetting(calls))
  {
    if calls == [] {
    } else {
      var init, last := calls[..|calls| - 1], calls[|calls| - 1];
      FailuresLeaveNoTrace(g, init);
      if last.Sets() {
        assert (OnlySetting(init) + [last])[..|OnlySetting(init)|] == OnlySetting(init);
      } else {
        assert OnlySetting(init) + [] == OnlySetting(init);
      }
    }
  }

  // ----- updates -----

  /** `ConnectionGraphUpdate`, with the lists of named sets as maps. */
  datatype Update = Update(published: MapOfSets, subscribed: MapOfSets, advertised: MapOfSets,
                           removedTopics: set<Name>, removedServices: set<Name>) {
    function Of(kind: Kind): MapOfSets {
      Graph(published, subscribed, advertised).Of(kind)
    }
  }

  /** New and changed entries. */
  function Changes(before: MapOfSets, after: MapOfSets): MapOfSets {
    map name | name in after && !(name in before && before[name] == after[name]) :: after[name]
  }

  function Difference(before: Graph, after: Graph): Update {
    Update(
      Changes(before.published, after.published),
      Changes(before.subscribed, after.subscribed),
      Changes(before.advertised, after.advertised),
      set name | name in before.published.Keys + before.subscribed.Keys
                 && name !in after.published && name !in after.subscribed,
      set name | name in before.advertised && name !in after.advertised)
  }

  /** An update has the entries that are new or different, with their new sets, and the names that are nowhere any more. */
  lemma DifferenceIs(before: Graph, after: Graph, kind: Kind, name: Name)
    ensures var m, m', u := before.Of(kind), after.Of(kind), Difference(before, after);
            && (name in u.Of(kind) <==> name in m' && (name in m ==> m[name] != m'[name]))
            && (name in u.Of(kind) ==> u.Of(kind)[name] == m'[name])
            && (name in u.removedTopics <==>
                  && (name in before.published || name in before.subscribed)
                  && name !in after.published && name !in after.subscribed)
            && (name in u.removedServices <==> name in before.advertised && name !in after.advertised)
  {
  }

  /** What a subscriber is taken to make of an update: removals first, then the entries. */
  function Apply(g: Graph, u: Update): Graph {
    Graph(
      g.published - u.removedTopics + u.published,
      g.subscribed - u.removedTopics + u.subscribed,
      g.advertised - u.removedServices + u.advertised)
  }

  /** A topic that is no longer in this map, but still in the other. */
  predicate Lingers(before: MapOfSets, after: MapOfSets, other: MapOfSets) {
    exists name :: name in before && name !in after && name in other
  }

  lemma {:induction false} Patched(before: MapOfSets, after: MapOfSets, other: MapOfSets, removed: set<Name>)
    requires forall name | name in before :: name in removed <==> name !in after && name !in other
    requires forall name | name in removed :: name !in after
    ensures before - removed + Changes(before, after) == after <==> !Lingers(before, after, other)
  {
    var patched := before - removed + Changes(before, after);
    forall name | name in after
      ensures name in patched && patched[name] == after[name]
    {
    }
    if Lingers(before, after, other) {
      var name :| name in before && name !in after && name in other;
      assert name in patched;
    } else {
      forall name | name in patched
        ensures name in after
      {
      }
    }
  }

  /**
   A subscriber that applies the update that `diff` computes ends up with the new graph exactly when no topic leaves one
   of the two topic maps while it stays in the other.
   */
  lemma UpdateRestores(before: Graph, after: Graph)
    ensures Apply(before, Difference(before, after)) == after
            <==> && !Lingers(before.published, after.published, after.subscribed)
                 && !Lingers(before.subscribed, after.subscribed, after.published)
    ensures Apply(before, Difference(before, after)).advertised == after.advertised
  {
    var u := Difference(before, after);
    Patched(before.published, after.published, after.subscribed, u.removedTopics);
    Patched(before.subscribed, after.subscribed, after.published, u.removedTopics);
    Patched(before.advertised, after.advertised, map[], u.removedServices);
  }

  /** An update that removes every old name and sends every new entry. */
  function FullUpdate(before: Graph, after: Graph): Update {
    Update(after.published, after.subscribed, after.advertised,
           before.published.Keys + before.subscribed.Keys, before.advertised.Keys)
  }

  /** For any two graphs there is an update that leads from one to the other: what gets lost is lost by `diff`. */
  lemma SomeUpdateRestores(before: Graph, after: Graph)
    ensures Apply(before, FullUpdate(before, after)) == after
  {
    assert before.published - (before.published.Keys + before.subscribed.Keys) == map[];
    assert before.subscribed - (before.published.Keys + before.subscribed.Keys) == map[];
    assert before.advertised - before.advertised.Keys == map[];
  }

  /** The last publisher of a topic goes away while a subscriber stays: `diff` has nothing to say. */
  lemma LostPublisher(topic: Name, p: Name, s: Name)
    ensures var before := Graph(map[topic := {p}], map[topic := {s}], map[]);
            var after := Graph(map[], map[topic := {s}], map[]);
            && Difference(before, after) == Update(map[], map[], map[], {}, {})
            && Apply(before, Difference(before, after)) == before != after
            && Apply(before, Update(map[], map[topic := {s}], map[], {topic}, {})) == after
  {
    var before := Graph(map[topic := {p}], map[topic := {s}], map[]);
    var after := Graph(map[], map[topic := {s}], map[]);
    var u := Difference(before, after);
    assert u.removedTopics == {} && u.published == map[] && u.subscribed == map[];
    assert topic in before.published;
  }

  /** The initial update always gives the whole graph. */
  lemma InitialUpdateIsComplete(g: Graph)
    ensures Apply(EMPTY, Difference(EMPTY, g)) == g
  {
    UpdateRestores(EMPTY, g);
  }

  // ----- the objects -----

  class ConnectionGraph {
    var published: MapOfSets
    var subscribed: MapOfSets
    var advertised: MapOfSets
    var subscribers: set<nat>

    ghost function Value(): Graph
      reads this
    {
      Graph(published, subscribed, advertised)
    }

    constructor ()
      ensures Value() == EMPTY && subscribers == {}
    {
      published, subscribed, advertised, subscribers := map[], map[], map[], {};
    }

    /** `foxglove_connection_graph_set_published_topic`: all or nothing. */
    method SetPublishedTopic(topic: FoxgloveString, ids: Ids) returns (code: Code)
      requires topic.Valid() && ids.Valid()
      modifies this`published
      ensures code == Call(Published, topic, ids).Answer()
      ensures Value() == Step(old(Value()), Call(Published, topic, ids))
      ensures code == Success && ids.count > 0 ==>
                && topic.AsUtf8().Some? && ids.data.Some? && topic.AsUtf8().value in published
                && Named(published[topic.AsUtf8().value], ids.data.value)
    {
      var r := Validate(topic, ids);
      match r
      case Err(e) => code := e;
      case Ok(strings) =>
        if strings.Some? {
          published := published[topic.AsUtf8().value := strings.value];
        }
        code := Success;
    }

    /** `foxglove_connection_graph_set_subscribed_topic`. */
    method SetSubscribedTopic(topic: FoxgloveString, ids: Ids) returns (code: Code)
      requires topic.Valid() && ids.Valid()
      modifies this`subscribed
      ensures code == Call(Subscribed, topic, ids).Answer()
      ensures Value() == Step(old(Value()), Call(Subscribed, topic, ids))
      ensures code == Success && ids.count > 0 ==>
                && topic.AsUtf8().Some? && ids.data.Some? && topic.AsUtf8().value in subscribed
                && Named(subscribed[topic.AsUtf8().value], ids.data.value)
    {
      var r := Validate(topic, ids);
      match r
      case Err(e) => code := e;
      case Ok(strings) =>
        if strings.Some? {
          subscribed := subscribed[topic.AsUtf8().value := strings.value];
        }
        code := Success;
    }

    /** `foxglove_connection_graph_set_advertised_service`. */
    method SetAdvertisedService(service: FoxgloveString, ids: Ids) returns (code: Code)
      requires service.Valid() && ids.Valid()
      modifies this`advertised
      ensures code == Call(Advertised, service, ids).Answer()
      ensures Value() == Step(old(Value()), Call(Advertised, service, ids))
      ensures code == Success && ids.count > 0 ==>
                && service.AsUtf8().Some? && ids.data.Some? && service.AsUtf8().value in advertised
                && Named(advertised[service.AsUtf8().value], ids.data.value)
    {
      var r := Validate(service, ids);
      match r
      case Err(e) => code := e;
      case Ok(strings) =>
        if strings.Some? {
          advertised := advertised[service.AsUtf8().value := strings.value];
        }
        code := Success;
    }

    method Make(c: Call) returns (code: Code)
      requires c.Valid()
      modifies this`published, this`subscribed, this`advertised
      ensures code == c.Answer() && Value() == Step(old(Value()), c)
    {
      match c.kind
      case Published => code := SetPublishedTopic(c.name, c.ids);
      case Subscribed => code := SetSubscribedTopic(c.name, c.ids);
      case Advertised => code := SetAdvertisedService(c.name, c.ids);
    }

    /** Any sequence of calls leaves the graph that the successful ones describe. */
    method Run(calls: seq<Call>) returns (codes: seq<Code>)
      requires forall c <- calls :: c.Valid()
      modifies this`published, this`subscribed, this`advertised
      ensures Value() == Replay(old(Value()), calls)
      ensures |codes| == |calls| && forall i | 0 <= i < |calls| :: codes[i] == calls[i].Answer()
    {
      codes := [];
      for i := 0 to |calls|
        invariant Value() == Replay(old(Value()), calls[..i])
        invariant |codes| == i && forall j | 0 <= j < i :: codes[j] == calls[j].Answer()
      {
        assert calls[..i + 1][..i] == calls[..i];
        var code := Make(calls[i]);
        codes := codes + [code];
      }
      assert calls[..|calls|] == calls;
    }

    /** `ConnectionGraph::update`: takes over the maps of the new graph, and says what has changed. */
    method ReplaceWith(g: Graph) returns (u: Update)
      modifies this`published, this`subscribed, this`advertised
      ensures u == Difference(old(Value()), g) && Value() == g
    {
      var changedPublished := Changed(published, g.published);
      var changedSubscribed := Changed(subscribed, g.subscribed);
      var changedAdvertised := Changed(advertised, g.advertised);
      var removedServices := set name | name in advertised && name !in g.advertised;
      var removedTopics := set name | name in published.Keys + subscribed.Keys
                                      && name !in g.published && name !in g.subscribed;
      u := Update(changedPublished, changedSubscribed, changedAdvertised, removedTopics, removedServices);
      published, subscribed, advertised := g.published, g.subscribed, g.advertised;
    }
  }

  /** The checks that the three setters make before they touch the graph. `None` stands for a call without ids. */
  method Validate(name: FoxgloveString, ids: Ids) returns (r: Result<Option<set<Name>>, Code>)
    requires name.Valid() && ids.Valid()
    ensures r.Err? ==> r.error != Success && forall kind :: Call(kind, name, ids).Answer() == r.error
    ensures r.Ok? ==> name.AsUtf8().Some? && (r.value.Some? <==> ids.count > 0)
    ensures r.Ok? ==> forall kind :: Call(kind, name, ids).Answer() == Success
    ensures r.Ok? && r.value.Some? ==>
              ids.data.Some? && ReadAll(ids.data.value) == Ok(r.value.value) && Named(r.value.value, ids.data.value)
  {
    if name.AsUtf8().None? {
      return Err(Utf8Error);
    }
    if ids.count == 0 {
      return Ok(None);
    }
    if ids.data.None? {
      return Err(ValueError);
    }
    var strings := {};
    for i := 0 to ids.count
      invariant ReadAll(ids.data.value[..i]) == Ok(strings)
    {
      var id := ids.data.value[i];
      assert ids.data.value[..i + 1][..i] == ids.data.value[..i];
      if id.data.None? {
        ErrorStays(ids.data.value, i + 1);
        return Err(ValueError);
      }
      var text := id.AsUtf8();
      if text.None? {
        ErrorStays(ids.data.value, i + 1);
        return Err(Utf8Error);
      }
      strings := strings + {text.value};
    }
    assert ids.data.value[..ids.count] == ids.data.value;
    ReadAllIs(ids.data.value);
    r := Ok(Some(strings));
  }

  /** The loops of `diff` over new or changed entries. */
  method Changed(before: MapOfSets, after: MapOfSets) returns (changed: MapOfSets)
    ensures changed == Changes(before, after)
  {
    changed := map[];
    var left := after.Keys;
    while left != {}
      invariant left <= after.Keys
      invariant changed == map name | name in after && name !in left && !(name in before && before[name] == after[name])
                             :: after[name]
    {
      var name :| name in left;
      left := left - {name};
      if name in before && before[name] == after[name] {
        continue;
      }
      changed := changed[name := after[name]];
    }
  }
}
