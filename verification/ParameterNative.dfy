/** Parameters in native form, and what the conversions from and to the C form mean (c/src/parameter.rs). */
module ParameterNative {
  import opened Wrappers
  import opened ParameterTree
  import opened BTreeMap
  import Utf8

  /** `foxglove::websocket::ParameterValue`. */
  datatype PValue =
    | PScalar(value: Scalar)
    | PString(text: seq<byte>)
    | PArray(items: seq<PValue>)
    | PDict(entries: seq<Pair<PValue>>)

  datatype NativeType = ByteArray | Float64 | Float64Array

  datatype Parameter = Parameter(name: seq<byte>, ty: Option<NativeType>, value: Option<PValue>)

  /** Rust's own invariants: strings are UTF-8, and a `BTreeMap` is in key order. */
  predicate Proper(v: PValue) {
    match v
    case PScalar(_) => true
    case PString(s) => Utf8.Valid(s)
    case PArray(vs) => forall i | 0 <= i < |vs| :: Proper(vs[i])
    case PDict(es) => Sorted(es) && forall i | 0 <= i < |es| :: Utf8.Valid(es[i].key) && Proper(es[i].value)
  }

  // ----- C to native -----

  /** `into_native` of a value. */
  function ToNative(n: Node): PValue
    requires IsValue(n)
    decreases n, 0
  {
    match n
    case Leaf(s) => PScalar(s)
    case Str(_, text) => PString(text)
    case Vec(kind, _, _, items) => if kind == Array then PArray(ToNatives(items)) else PDict(Collect(ToPairs(items)))
  }

  function ToNatives(ns: seq<Node>): seq<PValue>
    requires forall i | 0 <= i < |ns| :: IsValue(ns[i])
    decreases ns, 1
  {
    seq(|ns|, i requires 0 <= i < |ns| && IsValue(ns[i]) => ToNative(ns[i]))
  }

  function ToPairs(ns: seq<Node>): seq<Pair<PValue>>
    requires forall i | 0 <= i < |ns| :: IsEntry(ns[i])
    decreases ns, 1
  {
    seq(|ns|, i requires 0 <= i < |ns| && IsEntry(ns[i]) => ToPair(ns[i]))
  }

  function ToPair(n: Node): Pair<PValue>
    requires IsEntry(n)
    decreases n, 0
  {
    Pair(n.key.text, ToNative(n.value.inner))
  }

  function ToType(t: ParamType): Option<NativeType> {
    match t
    case Untyped => None
    case ByteArrayType => Some(ByteArray)
    case Float64Type => Some(NativeType.Float64)
    case Float64ArrayType => Some(Float64Array)
  }

  function ToParameter(n: Node): Parameter
    requires IsParam(n)
  {
    Parameter(n.name.text, ToType(n.ty), if n.value.Null? then None else Some(ToNative(n.value.inner)))
  }

  function ToParameters(ns: seq<Node>): seq<Parameter>
    requires forall i | 0 <= i < |ns| :: IsParam(ns[i])
  {
    seq(|ns|, i requires 0 <= i < |ns| && IsParam(ns[i]) => ToParameter(ns[i]))
  }

  // ----- native to C, up to addresses and capacities -----

  function FromNative(v: PValue): Node
    decreases v, 0
  {
    match v
    case PScalar(s) => Leaf(s)
    case PString(s) => Str(0, s)
    case PArray(vs) => Vec(Array, 0, 0, FromNatives(vs))
    case PDict(es) => Vec(Dict, 0, 0, FromPairs(es))
  }

  function FromNatives(vs: seq<PValue>): seq<Node>
    decreases vs, 1
  {
    seq(|vs|, i requires 0 <= i < |vs| => FromNative(vs[i]))
  }

  function FromPairs(es: seq<Pair<PValue>>): seq<Node>
    decreases es, 1
  {
    seq(|es|, i requires 0 <= i < |es| => FromPair(es[i]))
  }

  function FromPair(e: Pair<PValue>): Node
    decreases e, 0
  {
    Entry(Str(0, e.key), Box(0, FromNative(e.value)))
  }

  function FromType(t: Option<NativeType>): ParamType {
    match t
    case None => Untyped
    case Some(ByteArray) => ByteArrayType
    case Some(Float64) => Float64Type
    case Some(Float64Array) => Float64ArrayType
  }

  function FromParameter(p: Parameter): Node {
    Param(Str(0, p.name), FromType(p.ty), if p.value.None? then Null else Box(0, FromNative(p.value.value)))
  }

  // ----- what a conversion reads -----

  /** The C types and the native ones have the same names. */
  lemma TypesAre(t: ParamType)
    ensures ToType(t) == None <==> t == Untyped
    ensures ToType(t) == Some(ByteArray) <==> t == ByteArrayType
    ensures ToType(t) == Some(NativeType.Float64) <==> t == Float64Type
    ensures ToType(t) == Some(Float64Array) <==> t == Float64ArrayType
    ensures FromType(ToType(t)) == t
  {
  }

  /** The native value has what the tree has: scalars, texts, elements in order, and the collected entries of a dict. */
  ghost predicate Reads(n: Node, v: PValue)
    decreases n, 0
  {
    match n
    case Leaf(s) => v == PScalar(s)
    case Str(_, text) => v == PString(text)
    case Vec(Array, _, _, items) => v.PArray? && |v.items| == |items| && forall i | 0 <= i < |items| :: Reads(items[i], v.items[i])
    case Vec(Dict, _, _, items) => v.PDict? && exists pairs :: v.entries == Collect(pairs) && EntriesRead(items, pairs)
    case _ => false
  }

  ghost predicate EntriesRead(items: seq<Node>, pairs: seq<Pair<PValue>>)
    decreases items, 1
  {
    |pairs| == |items| && forall i | 0 <= i < |items| :: EntryReads(items[i], pairs[i])
  }

  /** The key is the same, and the value reads the same. */
  ghost predicate EntryReads(e: Node, pair: Pair<PValue>)
    decreases e, 0
  {
    e.Entry? && e.key.Str? && e.value.Box? && pair.key == e.key.text && Reads(e.value.inner, pair.value)
  }

  lemma {:induction false} ToNativeReads(n: Node)
    requires IsValue(n)
    ensures Reads(n, ToNative(n))
  {
    match n
    case Vec(Array, _, _, items) =>
      forall i | 0 <= i < |items|
        ensures Reads(items[i], ToNatives(items)[i])
      {
        ToNativeReads(items[i]);
      }
    case Vec(Dict, _, _, items) =>
      forall i | 0 <= i < |items|
        ensures EntryReads(items[i], ToPairs(items)[i])
      {
        ToPairAt(items, i);
        ToNativeReads(items[i].value.inner);
      }
      assert EntriesRead(items, ToPairs(items));
    case _ =>
  }

  /** A native parameter has the name, type and value of the C one; a null value is none. */
  lemma ToParameterReads(n: Node)
    requires IsParam(n)
    ensures var p := ToParameter(n);
            && p.name == n.name.text && p.ty == ToType(n.ty) && (p.value.Some? <==> n.value.Box?)
            && (n.value.Box? && p.value.Some? ==> Reads(n.value.inner, p.value.value))
  {
    if n.value.Box? { ToNativeReads(n.value.inner); }
  }

  /** The parameters of an array, in order. */
  lemma {:induction false} ToParametersRead(ns: seq<Node>, i: nat)
    requires (forall j | 0 <= j < |ns| :: IsParam(ns[j])) && i < |ns|
    ensures |ToParameters(ns)| == |ns| && IsParam(ns[i])
    ensures var p := ToParameters(ns)[i];
            && p.name == ns[i].name.text && p.ty == ToType(ns[i].ty) && (p.value.Some? <==> ns[i].value.Box?)
            && (p.value.Some? && ns[i].value.Box? ==> Reads(ns[i].value.inner, p.value.value))
  {
    ToParameterReads(ns[i]);
  }

  // ----- round trips -----

  /** Native to C and back gives the same value. */
  lemma {:induction false} RoundTrip(v: PValue)
    requires Proper(v)
    ensures IsValue(FromNative(v)) && ToNative(FromNative(v)) == v
  {
    match v
    case PArray(vs) =>
      forall i | 0 <= i < |vs|
        ensures IsValue(FromNative(vs[i])) && ToNative(FromNative(vs[i])) == vs[i]
      {
        RoundTrip(vs[i]);
      }
      assert ToNatives(FromNatives(vs)) == vs;
    case PDict(es) =>
      forall i | 0 <= i < |es|
        ensures IsEntry(FromPair(es[i])) && ToPair(FromPair(es[i])) == es[i]
      {
        RoundTrip(es[i].value);
      }
      assert ToPairs(FromPairs(es)) == es;
      CollectSorted(es);
    case _ =>
  }

  lemma RoundTripParameter(p: Parameter)
    requires p.value.Some? ==> Proper(p.value.value)
    ensures IsParam(FromParameter(p)) && ToParameter(FromParameter(p)) == p
  {
    if p.value.Some? { RoundTrip(p.value.value); }
  }

  lemma {:induction false} ErasedKind(n: Node)
    ensures IsValue(Erase(n)) <==> IsValue(n)
    ensures IsEntry(Erase(n)) <==> IsEntry(n)
    ensures IsParam(Erase(n)) <==> IsParam(n)
  {
    match n
    case Vec(_, _, _, items) =>
      forall i | 0 <= i < |items|
        ensures IsValue(EraseAll(items)[i]) <==> IsValue(items[i])
        ensures IsEntry(EraseAll(items)[i]) <==> IsEntry(items[i])
      {
        ErasedKind(items[i]);
      }
    case Entry(_, value) => if value.Box? { ErasedKind(value.inner); }
    case Param(_, _, value) => if value.Box? { ErasedKind(value.inner); }
    case _ =>
  }

  /** Conversion does not depend on addresses and capacities: equal trees convert to equal values. */
  lemma {:induction false} ErasedConverts(n: Node)
    requires IsValue(n)
    ensures IsValue(Erase(n)) && ToNative(Erase(n)) == ToNative(n)
  {
    match n
    case Vec(Array, _, _, items) =>
      forall i | 0 <= i < |items|
        ensures IsValue(Erase(items[i])) && ToNative(Erase(items[i])) == ToNative(items[i])
      {
        ErasedConverts(items[i]);
      }
      assert ToNatives(EraseAll(items)) == ToNatives(items);
    case Vec(Dict, _, _, items) =>
      forall i | 0 <= i < |items|
        ensures IsEntry(Erase(items[i])) && ToPair(Erase(items[i])) == ToPair(items[i])
      {
        ErasedConverts(items[i].value.inner);
      }
      assert ToPairs(EraseAll(items)) == ToPairs(items);
    case _ =>
  }

  // ----- dictionaries -----

  /** A dict of C entries converts to the last-writer-wins map of its entries, however often a key repeats. */
  lemma DictIsLastWriterWins(d: Node, k: Key)
    requires IsValue(d) && d.Vec? && d.kind == Dict
    ensures var m := ToNative(d).entries;
            && Sorted(m)
            && Lookup(m, k) == LastFor(ToPairs(d.items), k)
  {
    LastWriterWins(ToPairs(d.items), k);
  }

  /** Inserting an entry is inserting into the map. */
  lemma DictInsertRefines(d: Node, e: Node)
    requires IsValue(d) && d.Vec? && d.kind == Dict && IsEntry(e)
    ensures var d' := d.(items := d.items + [e]);
            IsValue(d') && ToNative(d').entries == Insert(ToNative(d).entries, e.key.text, ToNative(e.value.inner))
  {
    assert ToPairs(d.items + [e]) == ToPairs(d.items) + [ToPair(e)];
  }

  /** In every dict of the tree the keys are distinct and in order. */
  predicate Tidy(n: Node)
    requires IsValue(n)
  {
    match n
    case Leaf(_) => true
    case Str(_, _) => true
    case Vec(Array, _, _, items) => forall i | 0 <= i < |items| :: Tidy(items[i])
    case Vec(Dict, _, _, items) =>
      && KeysInOrder(items)
      && (forall i | 0 <= i < |items| :: Tidy(items[i].value.inner))
    case _ => false
  }

  ghost predicate Returns(n: Node)
    requires IsValue(n)
  {
    FromNative(ToNative(n)) == Erase(n)
  }

  /** C to native and back gives the same tree exactly when no dict repeats a key or is out of order. */
  lemma {:induction false} NativeFormIsTidy(n: Node)
    requires IsValue(n)
    ensures FromNative(ToNative(n)) == Erase(n) <==> Tidy(n)
  {
    match n
    case Vec(Array, _, _, items) =>
      forall i | 0 <= i < |items|
        ensures Returns(items[i]) <==> Tidy(items[i])
      {
        NativeFormIsTidy(items[i]);
      }
      var back := FromNatives(ToNatives(items));
      assert forall i | 0 <= i < |items| :: back[i] == FromNative(ToNative(items[i]));
      if back == EraseAll(items) {
        forall i | 0 <= i < |items| ensures Returns(items[i]) { assert back[i] == EraseAll(items)[i]; }
      }
    case Vec(Dict, _, _, items) =>
      forall i | 0 <= i < |items|
        ensures Returns(items[i].value.inner) <==> Tidy(items[i].value.inner)
      {
        NativeFormIsTidy(items[i].value.inner);
      }
      DictFormIsTidy(items);
    case _ =>
  }

  predicate KeysInOrder(ns: seq<Node>)
    requires forall i | 0 <= i < |ns| :: ns[i].Entry? && ns[i].key.Str?
  {
    forall i, j | 0 <= i < j < |ns| :: Less(ns[i].key.text, ns[j].key.text)
  }

  lemma {:induction false} ToPairAt(items: seq<Node>, i: nat)
    requires forall i | 0 <= i < |items| :: IsEntry(items[i])
    requires i < |items|
    ensures IsEntry(items[i])
    ensures ToPairs(items)[i] == Pair(items[i].key.text, ToNative(items[i].value.inner))
    ensures EraseAll(items)[i] == Entry(Str(0, items[i].key.text), Box(0, Erase(items[i].value.inner)))
  {
    var e := items[i];
    assert IsEntry(e);
    assert Erase(e.key) == Str(0, e.key.text) && Erase(e.value) == Box(0, Erase(e.value.inner));
  }

  lemma {:induction false} SortedPairs(items: seq<Node>)
    requires forall i | 0 <= i < |items| :: items[i].Entry? && items[i].key.Str? && IsEntry(items[i])
    ensures KeysInOrder(items) <==> Sorted(ToPairs(items))
  {
    forall i | 0 <= i < |items|
      ensures IsEntry(items[i]) && ToPairs(items)[i].key == items[i].key.text
    {
      ToPairAt(items, i);
    }
    var pairs := ToPairs(items);
    if Sorted(pairs) {
      forall i, j | 0 <= i < j < |items|
        ensures Less(items[i].key.text, items[j].key.text)
      {
        assert Less(pairs[i].key, pairs[j].key);
      }
    }
  }

  /** The entries come back as they were if collecting them into a map did not change them. */
  lemma {:induction false} PairReturns(items: seq<Node>, m: seq<Pair<PValue>>, i: nat)
    requires forall i | 0 <= i < |items| :: IsEntry(items[i])
    requires i < |items| == |m|
    ensures FromPairs(m)[i] == EraseAll(items)[i]
            <==> m[i].key == ToPairs(items)[i].key && FromNative(m[i].value) == Erase(items[i].value.inner)
  {
    ToPairAt(items, i);
  }

  lemma {:induction false} DictFormIsTidy(items: seq<Node>)
    requires forall i | 0 <= i < |items| :: IsEntry(items[i])
    ensures FromPairs(Collect(ToPairs(items))) == EraseAll(items)
            <==> KeysInOrder(items) && forall i | 0 <= i < |items| :: Returns(items[i].value.inner)
  {
    var pairs := ToPairs(items);
    var m := Collect(pairs);
    SortedPairs(items);
    if FromPairs(m) == EraseAll(items) {
      assert |FromPairs(m)| == |EraseAll(items)|;
      forall i | 0 <= i < |items|
        ensures m[i].key == pairs[i].key && FromNative(m[i].value) == Erase(items[i].value.inner)
      {
        PairReturns(items, m, i);
      }
      LastWriterWins(pairs, []);
      SameKeysSorted(m, pairs);
      CollectSorted(pairs);
      forall i | 0 <= i < |items|
        ensures Returns(items[i].value.inner)
      {
        ToPairAt(items, i);
      }
    }
    if KeysInOrder(items) && forall i | 0 <= i < |items| :: Returns(items[i].value.inner) {
      CollectSorted(pairs);
      forall i | 0 <= i < |items|
        ensures FromPairs(m)[i] == EraseAll(items)[i]
      {
        ToPairAt(items, i);
        assert Returns(items[i].value.inner);
      }
      assert FromPairs(m) == EraseAll(items);
    }
  }

  lemma {:induction false} SameKeysSorted<V, W>(m: seq<Pair<V>>, m': seq<Pair<W>>)
    requires |m| == |m'| && Sorted(m) && forall i | 0 <= i < |m| :: m[i].key == m'[i].key
    ensures Sorted(m')
  {
  }
}
