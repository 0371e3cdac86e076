/** The conversions between heap parameters and native ones, as the code does them (c/src/parameter.rs). */
module ParameterConversion {
  import opened Wrappers
  import opened BTreeMap
  import opened ParameterTree
  import opened ParameterHeap
  import opened ParameterNative
  import Utf8

  // ----- what `into_native` does to the buffers of value arrays -----

  /**
   `FoxgloveParameterValueArray::into_native` rebuilds its vector with the length in place of the capacity. So the
   buffer of an empty array with capacity is never freed, and one that is partly full is freed with the wrong size.
   */
  ghost function Leaked(n: Node): set<nat> {
    match n
    case Vec(kind, at, capacity, items) =>
      (if kind == Array && items == [] && capacity > 0 then {at} else {}) + LeakedAll(items)
    case Entry(_, value) => Leaked(value)
    case Param(_, _, value) => Leaked(value)
    case Box(_, inner) => Leaked(inner)
    case _ => {}
  }

  ghost function LeakedAll(ns: seq<Node>): set<nat> {
    set i, a | 0 <= i < |ns| && a in Leaked(ns[i]) :: a
  }

  /** How many buffers are freed with the wrong size. */
  ghost function Misfits(n: Node): nat
    decreases n, 0
  {
    match n
    case Vec(kind, _, capacity, items) =>
      (if kind == Array && 0 < |items| < capacity then 1 else 0) + MisfitsAll(items)
    case Entry(_, value) => Misfits(value)
    case Param(_, _, value) => Misfits(value)
    case Box(_, inner) => Misfits(inner)
    case _ => 0
  }

  ghost function MisfitsAll(ns: seq<Node>): nat
    decreases ns, 1
  {
    if ns == [] then 0 else MisfitsAll(ns[..|ns| - 1]) + Misfits(ns[|ns| - 1])
  }

  /** Every value array of the tree is exactly full. */
  ghost predicate ExactFit(n: Node) {
    match n
    case Vec(kind, _, capacity, items) =>
      && (kind == Array ==> |items| == capacity)
      && forall i | 0 <= i < |items| :: ExactFit(items[i])
    case Entry(_, value) => ExactFit(value)
    case Param(_, _, value) => ExactFit(value)
    case Box(_, inner) => ExactFit(inner)
    case _ => true
  }

  /** The conversion frees everything correctly exactly when every value array is full. */
  lemma {:induction false} CleanIffExactFit(n: Node)
    requires Single(n)
    ensures Leaked(n) == {} && Misfits(n) == 0 <==> ExactFit(n)
    decreases n, 0
  {
    match n
    case Vec(_, _, _, items) => AllCleanIffExactFit(items);
    case Entry(_, value) => CleanIffExactFit(value);
    case Param(_, _, value) => CleanIffExactFit(value);
    case Box(_, inner) => CleanIffExactFit(inner);
    case _ =>
  }

  lemma {:induction false} AllCleanIffExactFit(ns: seq<Node>)
    requires forall i | 0 <= i < |ns| :: Single(ns[i])
    ensures LeakedAll(ns) == {} && MisfitsAll(ns) == 0 <==> forall i | 0 <= i < |ns| :: ExactFit(ns[i])
    decreases ns, 1
  {
    if ns == [] {
    } else {
      var init, last := ns[..|ns| - 1], ns[|ns| - 1];
      AllCleanIffExactFit(init);
      CleanIffExactFit(last);
      assert ns == init + [last];
      LeakedAllSnoc(init, last);
      assert (forall i | 0 <= i < |ns| :: ExactFit(ns[i])) <==> (forall i | 0 <= i < |init| :: ExactFit(init[i])) && ExactFit(last);
    }
  }

  /** The buffer of an array created for two values that got one is freed with the wrong size. */
  lemma HalfFullArrayMisfits(at: nat, v: Scalar)
    ensures var n := Vec(Array, at, 2, [Leaf(v)]); IsValue(n) && Single(n) && Misfits(n) == 1 && Leaked(n) == {}
  {
    assert [Leaf(v)][..0] == [] && Leaked([Leaf(v)][0]) == {};
    assert MisfitsAll([Leaf(v)]) == MisfitsAll([]) + Misfits(Leaf(v));
  }

  /** An array that was created with capacity but never filled is not freed. */
  lemma EmptyArrayLeaks(at: nat, capacity: nat)
    requires capacity > 0
    ensures var n := Vec(Array, at, capacity, []); IsValue(n) && Single(n) && Leaked(n) == Foot(n) == {at}
  {
  }

  lemma LeakedAllSnoc(ns: seq<Node>, n: Node)
    ensures LeakedAll(ns + [n]) == LeakedAll(ns) + Leaked(n)
    ensures MisfitsAll(ns + [n]) == MisfitsAll(ns) + Misfits(n)
  {
    var all := ns + [n];
    assert all[..|all| - 1] == ns;
    forall a | a in LeakedAll(ns) + Leaked(n)
      ensures a in LeakedAll(all)
    {
      if a in LeakedAll(ns) {
        var i :| 0 <= i < |ns| && a in Leaked(ns[i]);
        assert all[i] == ns[i];
      } else {
        assert all[|ns|] == n;
      }
    }
  }

  lemma {:induction false} LeakedIsOwned(n: Node)
    ensures Leaked(n) <= Foot(n)
  {
    match n
    case Vec(_, _, _, items) =>
      forall i | 0 <= i < |items| ensures Leaked(items[i]) <= Foot(items[i]) { LeakedIsOwned(items[i]); }
    case Entry(_, value) => LeakedIsOwned(value);
    case Param(_, _, value) => LeakedIsOwned(value);
    case Box(_, inner) => LeakedIsOwned(inner);
    case _ =>
  }

  lemma LeakedAllIsOwned(ns: seq<Node>)
    ensures LeakedAll(ns) <= FootAll(ns)
  {
    forall i | 0 <= i < |ns| ensures Leaked(ns[i]) <= Foot(ns[i]) { LeakedIsOwned(ns[i]); }
  }

  // ----- into_native -----

  /** `FoxgloveStringBuf::into_string`: the buffer passes to the native string. */
  method IntoString(m: Allocator, c: Cell, ghost n: Node) returns (text: seq<byte>)
    requires n.Str? && c == CellOf(n) && In(m.heap, n)
    modifies m
    ensures text == n.text && m.heap == old(m.heap) - Foot(n) && m.faults == old(m.faults)
  {
    if c.len == 0 {
      return [];
    }
    text := m.heap[c.ptr].bytes;
    m.Free(c.ptr, c.len);
  }

  method IntoNative(m: Allocator, c: Cell, ghost n: Node) returns (v: PValue)
    requires IsValue(n) && c == CellOf(n) && Single(n) && In(m.heap, n)
    modifies m
    ensures v == ToNative(n)
    ensures m.heap == old(m.heap) - (Foot(n) - Leaked(n)) && m.faults == old(m.faults) + Misfits(n)
    decreases n, 1
  {
    match c
    case ScalarCell(s) => v := PScalar(s);
    case StringCell(_, _) =>
      var text := IntoString(m, c, n);
      v := PString(text);
    case VecCell(kind, ptr, len, capacity) =>
      LeakedAllIsOwned(n.items);
      if kind == Array {
        var items := IntoNatives(m, ptr, len, n);
        if len > 0 {
          m.Free(ptr, len);
        }
        v := PArray(items);
      } else {
        var entries := IntoPairs(m, ptr, len, n);
        if capacity > 0 {
          m.Free(ptr, capacity);
        }
        v := PDict(Collect(entries));
      }
  }

  /** Converts the elements of a value array, in order. */
  method IntoNatives(m: Allocator, ptr: nat, len: nat, ghost n: Node) returns (vs: seq<PValue>)
    requires n.Vec? && n.kind == Array && IsValue(n) && ptr == n.at && len == |n.items|
    requires Single(n) && In(m.heap, n)
    modifies m
    ensures vs == ToNatives(n.items)
    ensures m.heap == old(m.heap) - (FootAll(n.items) - LeakedAll(n.items))
    ensures m.faults == old(m.faults) + MisfitsAll(n.items)
    decreases n, 0
  {
    vs := [];
    var cells := if len == 0 then [] else m.heap[ptr].cells;
    var i := 0;
    while i < len
      invariant 0 <= i <= len && vs == ToNatives(n.items[..i])
      invariant Consumed(old(m.heap), m.heap, n.items[..i])
      invariant m.faults == old(m.faults) + MisfitsAll(n.items[..i])
    {
      ConsumedStep(old(m.heap), m.heap, n.items, i);
      var v := IntoNative(m, cells[i], n.items[i]);
      assert n.items[..i] + [n.items[i]] == n.items[..i + 1];
      vs := vs + [v];
      i := i + 1;
    }
    assert n.items[..len] == n.items;
  }

  /** Converts the entries of a dict, in order. */
  method IntoPairs(m: Allocator, ptr: nat, len: nat, ghost n: Node) returns (es: seq<Pair<PValue>>)
    requires n.Vec? && n.kind == Dict && IsValue(n) && ptr == n.at && len == |n.items|
    requires Single(n) && In(m.heap, n)
    modifies m
    ensures es == ToPairs(n.items)
    ensures m.heap == old(m.heap) - (FootAll(n.items) - LeakedAll(n.items))
    ensures m.faults == old(m.faults) + MisfitsAll(n.items)
    decreases n, 0
  {
    es := [];
    var cells := if len == 0 then [] else m.heap[ptr].cells;
    var i := 0;
    while i < len
      invariant 0 <= i <= len && es == ToPairs(n.items[..i])
      invariant Consumed(old(m.heap), m.heap, n.items[..i])
      invariant m.faults == old(m.faults) + MisfitsAll(n.items[..i])
    {
      ConsumedStep(old(m.heap), m.heap, n.items, i);
      var e := IntoPair(m, cells[i], n.items[i]);
      assert n.items[..i] + [n.items[i]] == n.items[..i + 1];
      es := es + [e];
      i := i + 1;
    }
    assert n.items[..len] == n.items;
  }

  method IntoPair(m: Allocator, c: Cell, ghost n: Node) returns (e: Pair<PValue>)
    requires IsEntry(n) && c == CellOf(n) && Single(n) && In(m.heap, n)
    modifies m
    ensures e == ToPair(n)
    ensures m.heap == old(m.heap) - (Foot(n) - Leaked(n)) && m.faults == old(m.faults) + Misfits(n)
    decreases n, 1
  {
    var key := IntoString(m, c.key, n.key);
    Frame(old(m.heap), m.heap, n.value);
    var v := IntoNativeBox(m, c.value.ptr, n.value);
    LeakedIsOwned(n.value);
    e := Pair(key, v);
  }

  /** `from_raw(ptr).into_native()`: converts the contents and frees the box. */
  method IntoNativeBox(m: Allocator, ptr: nat, ghost n: Node) returns (v: PValue)
    requires n.Box? && IsValue(n.inner) && ptr == n.at && Single(n) && In(m.heap, n)
    modifies m
    ensures v == ToNative(n.inner)
    ensures m.heap == old(m.heap) - (Foot(n) - Leaked(n)) && m.faults == old(m.faults) + Misfits(n)
    decreases n, 0
  {
    LeakedIsOwned(n.inner);
    v := IntoNative(m, m.heap[ptr].cell, n.inner);
    m.Free(ptr, 1);
  }

  method IntoParameter(m: Allocator, c: Cell, ghost n: Node) returns (p: Parameter)
    requires IsParam(n) && c == CellOf(n) && Single(n) && In(m.heap, n)
    modifies m
    ensures p == ToParameter(n)
    ensures m.heap == old(m.heap) - (Foot(n) - Leaked(n)) && m.faults == old(m.faults) + Misfits(n)
  {
    var name := IntoString(m, c.name, n.name);
    Frame(old(m.heap), m.heap, n.value);
    if c.value.ptr == 0 {
      p := Parameter(name, ToType(c.ty), None);
    } else {
      var v := IntoNativeBox(m, c.value.ptr, n.value);
      LeakedIsOwned(n.value);
      p := Parameter(name, ToType(c.ty), Some(v));
    }
  }

  /** `FoxgloveParameterArray::into_native`, which does use the capacity. */
  method IntoParameters(m: Allocator, c: Cell, ghost n: Node) returns (ps: seq<Parameter>)
    requires IsParams(n) && c == CellOf(n) && Single(n) && In(m.heap, n)
    modifies m
    ensures ps == ToParameters(n.items)
    ensures m.heap == old(m.heap) - (Foot(n) - Leaked(n)) && m.faults == old(m.faults) + Misfits(n)
  {
    var VecCell(_, ptr, len, capacity) := c;
    ps := [];
    var cells := if len == 0 then [] else m.heap[ptr].cells;
    var i := 0;
    while i < len
      invariant 0 <= i <= len && ps == ToParameters(n.items[..i])
      invariant Consumed(old(m.heap), m.heap, n.items[..i])
      invariant m.faults == old(m.faults) + MisfitsAll(n.items[..i])
    {
      var p := ConsumeParameter(m, cells[i], old(m.heap), n, i);
      assert n.items[..i] + [n.items[i]] == n.items[..i + 1];
      ps := ps + [p];
      i := i + 1;
    }
    assert n.items[..len] == n.items;
    LeakedAllIsOwned(n.items);
    if capacity > 0 {
      m.Free(ptr, capacity);
    }
  }

  /** The body of the loop over a parameter array. */
  method ConsumeParameter(m: Allocator, c: Cell, ghost h: Heap, ghost n: Node, i: nat) returns (p: Parameter)
    requires IsParams(n) && Single(n) && In(h, n) && i < |n.items| && c == CellOf(n.items[i])
    requires Consumed(h, m.heap, n.items[..i])
    modifies m
    ensures p == ToParameter(n.items[i]) && Consumed(h, m.heap, n.items[..i + 1])
    ensures m.faults + MisfitsAll(n.items[..i]) == old(m.faults) + MisfitsAll(n.items[..i + 1])
  {
    assert Single(n.items[i]) && In(h, n.items[i]) && Disjoint(n.items) && IsParam(n.items[i]);
    hide Single, In, Consumed;
    ConsumedStep(h, m.heap, n.items, i);
    p := IntoParameter(m, c, n.items[i]);
  }

  /** The trees `ns` were converted, and the heap is otherwise as it was. */
  ghost predicate Consumed(h0: Heap, h: Heap, ns: seq<Node>) {
    h == h0 - (FootAll(ns) - LeakedAll(ns))
  }

  /** The next tree is still there, and converting it leaves the heap as the longer prefix says. */
  lemma ConsumedStep(h0: Heap, h: Heap, ns: seq<Node>, i: nat)
    requires i < |ns| && Disjoint(ns) && In(h0, ns[i]) && Consumed(h0, h, ns[..i])
    ensures In(h, ns[i])
    ensures Consumed(h0, h - (Foot(ns[i]) - Leaked(ns[i])), ns[..i + 1])
    ensures MisfitsAll(ns[..i + 1]) == MisfitsAll(ns[..i]) + Misfits(ns[i])
  {
    assert ns[..i] + [ns[i]] == ns[..i + 1];
    FootAllSnoc(ns[..i], ns[i]);
    LeakedAllSnoc(ns[..i], ns[i]);
    LeakedIsOwned(ns[i]);
    LeakedAllIsOwned(ns[..i]);
    Frame(h0, h, ns[i]);
  }

  // ----- from native -----

  /** `FoxgloveParameterValue::from`. */
  method FromValue(m: Allocator, v: PValue) returns (c: Cell, ghost n: Node)
    requires Proper(v)
    modifies m`heap
    ensures c == CellOf(n) && Single(n) && In(m.heap, n) && Erase(n) == FromNative(v)
    ensures Adds(old(m.heap), m.heap, Foot(n))
    decreases v, 1
  {
    match v
    case PScalar(s) => c, n := ScalarCell(s), Leaf(s);
    case PString(s) => c, n := m.NewString(s);
    case PArray(vs) =>
      var cells; ghost var items;
      cells, items := FromValues(m, vs, v);
      c, n := m.NewVec(Array, cells, |vs|, items);
    case PDict(es) =>
      var cells; ghost var items;
      cells, items := FromEntries(m, es, v);
      c, n := m.NewVec(Dict, cells, |es|, items);
  }

  method FromValues(m: Allocator, vs: seq<PValue>, ghost owner: PValue) returns (cells: seq<Cell>, ghost items: seq<Node>)
    requires owner == PArray(vs) && Proper(owner)
    modifies m`heap
    ensures cells == CellsOf(items) && Built(old(m.heap), m.heap, FromNatives(vs), items)
    decreases owner, 0
  {
    cells, items := [], [];
    for i := 0 to |vs|
      invariant cells == CellsOf(items) && |items| == i
      invariant Built(old(m.heap), m.heap, FromNatives(vs[..i]), items)
    {
      ghost var h := m.heap;
      var c1, n1 := FromValue(m, vs[i]);
      BuiltSnoc(old(m.heap), h, m.heap, FromNatives(vs[..i]), items, n1);
      assert FromNatives(vs[..i + 1]) == FromNatives(vs[..i]) + [FromNative(vs[i])];
      cells, items := cells + [c1], items + [n1];
    }
    assert vs[..|vs|] == vs;
  }

  method FromEntries(m: Allocator, es: seq<Pair<PValue>>, ghost owner: PValue) returns (cells: seq<Cell>, ghost items: seq<Node>)
    requires owner == PDict(es) && Proper(owner)
    modifies m`heap
    ensures cells == CellsOf(items) && Built(old(m.heap), m.heap, FromPairs(es), items)
    decreases owner, 0
  {
    cells, items := [], [];
    for i := 0 to |es|
      invariant cells == CellsOf(items) && |items| == i
      invariant Built(old(m.heap), m.heap, FromPairs(es[..i]), items)
    {
      ghost var h := m.heap;
      var c1, n1 := FromEntry(m, es[i]);
      BuiltSnoc(old(m.heap), h, m.heap, FromPairs(es[..i]), items, n1);
      assert FromPairs(es[..i + 1]) == FromPairs(es[..i]) + [FromPair(es[i])];
      cells, items := cells + [c1], items + [n1];
    }
    assert es[..|es|] == es;
  }

  /** `FoxgloveParameterValueDictEntry::from`: the value is boxed first, then the key is copied. */
  method FromEntry(m: Allocator, e: Pair<PValue>) returns (c: Cell, ghost n: Node)
    requires Utf8.Valid(e.key) && Proper(e.value)
    modifies m`heap
    ensures c == CellOf(n) && Single(n) && In(m.heap, n) && Erase(n) == FromPair(e)
    ensures Adds(old(m.heap), m.heap, Foot(n))
    decreases e, 0
  {
    var p; ghost var b;
    p, b := FromBoxed(m, e.value);
    ghost var h := m.heap;
    var key, k := m.NewString(e.key);
    FootIsAllocated(h, b);
    Frame(h, m.heap, b);
    c, n := EntryCell(key, Pointer(p)), Entry(k, b);
  }

  method FromBoxed(m: Allocator, v: PValue) returns (p: nat, ghost b: Node)
    requires Proper(v)
    modifies m`heap
    ensures b.Box? && b.at == p && Single(b) && In(m.heap, b) && Erase(b) == Box(0, FromNative(v))
    ensures Adds(old(m.heap), m.heap, Foot(b))
    decreases v, 2
  {
    var c, n := FromValue(m, v);
    FootIsAllocated(m.heap, n);
    p, b := m.NewBox(c, n);
  }

  /** `FoxgloveParameter::from`: the value first, then the name. */
  method FromOneParameter(m: Allocator, p: Parameter) returns (c: Cell, ghost n: Node)
    requires Utf8.Valid(p.name) && (p.value.Some? ==> Proper(p.value.value))
    modifies m`heap
    ensures c == CellOf(n) && Single(n) && In(m.heap, n) && Erase(n) == FromParameter(p)
    ensures Adds(old(m.heap), m.heap, Foot(n))
  {
    var ptr := 0;
    ghost var b := Null;
    if p.value.Some? {
      ptr, b := FromBoxed(m, p.value.value);
    }
    ghost var h := m.heap;
    var name, s := m.NewString(p.name);
    FootIsAllocated(h, b);
    Frame(h, m.heap, b);
    c, n := ParamCell(name, FromType(p.ty), Pointer(ptr)), Param(s, FromType(p.ty), b);
  }

  /** The trees built for a list of parameters. */
  ghost function FromParameters(ps: seq<Parameter>): seq<Node> {
    seq(|ps|, i requires 0 <= i < |ps| => FromParameter(ps[i]))
  }

  lemma FromParametersStep(ps: seq<Parameter>, i: nat)
    requires i < |ps|
    ensures FromParameters(ps[..i + 1]) == FromParameters(ps[..i]) + [FromParameter(ps[i])]
  {
  }

  /** `collect` into a parameter array. */
  method FromAllParameters(m: Allocator, ps: seq<Parameter>) returns (c: Cell, ghost n: Node)
    requires forall p <- ps :: Utf8.Valid(p.name) && (p.value.Some? ==> Proper(p.value.value))
    modifies m`heap
    ensures c == CellOf(n) && Single(n) && In(m.heap, n)
    ensures n.Vec? && n.kind == Params && EraseAll(n.items) == FromParameters(ps)
    ensures Adds(old(m.heap), m.heap, Foot(n))
  {
    var cells := [];
    ghost var items := [];
    for i := 0 to |ps|
      invariant cells == CellsOf(items) && |items| == i
      invariant Built(old(m.heap), m.heap, FromParameters(ps[..i]), items)
    {
      ghost var h := m.heap;
      var c1, n1 := FromOneParameter(m, ps[i]);
      BuiltSnoc(old(m.heap), h, m.heap, FromParameters(ps[..i]), items, n1);
      FromParametersStep(ps, i);
      cells, items := cells + [c1], items + [n1];
    }
    assert ps[..|ps|] == ps;
    c, n := m.NewVec(Params, cells, |ps|, items);
  }

  /** A freshly built tree converts back to the value it was built from. */
  lemma BuiltConvertsBack(v: PValue, n: Node)
    requires Proper(v) && Erase(n) == FromNative(v)
    ensures IsValue(n) && ToNative(n) == v
  {
    RoundTrip(v);
    ErasedKind(n);
    ErasedConverts(n);
  }
}
