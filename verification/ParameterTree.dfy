/**
 Parameter trees in C form (c/src/parameter.rs): shallow structs that own heap blocks through raw pointers. A `Node`
 is the tree behind one struct, annotated with the address and capacity of every block it owns. The predicates below
 say that a heap holds such a tree and that no block has two owners.
 */
module ParameterTree {
  import opened Wrappers
  import Utf8

  datatype Scalar = Float64(bits: int) | Integer(number: int) | Boolean(flag: bool)

  datatype ParamType = Untyped | ByteArrayType | Float64Type | Float64ArrayType

  /** Which of the three `(ptr, len, capacity)` structs a vector is. */
  datatype VecKind = Array | Dict | Params

  /** A struct as it lies in memory. `Pointer(0)` is null. */
  datatype Cell =
    | ScalarCell(scalar: Scalar)
    | StringCell(ptr: nat, len: nat)
    | VecCell(kind: VecKind, ptr: nat, len: nat, capacity: nat)
    | EntryCell(key: Cell, value: Cell)
    | ParamCell(name: Cell, ty: ParamType, value: Cell)
    | Pointer(ptr: nat)

  /** A heap block: a string buffer, a vector buffer, or a box. */
  datatype Block = Text(bytes: seq<byte>) | Cells(cells: seq<Cell>, capacity: nat) | Boxed(cell: Cell)

  type Heap = map<nat, Block>

  datatype Node =
    | Leaf(scalar: Scalar)
    | Str(at: nat, text: seq<byte>)
    | Vec(kind: VecKind, at: nat, capacity: nat, items: seq<Node>)
    | Entry(key: Node, value: Node)
    | Param(name: Node, ty: ParamType, value: Node)
    | Box(at: nat, inner: Node)
    | Null

  function CellOf(n: Node): Cell {
    match n
    case Leaf(v) => ScalarCell(v)
    case Str(at, text) => StringCell(at, |text|)
    case Vec(kind, at, capacity, items) => VecCell(kind, at, |items|, capacity)
    case Entry(key, value) => EntryCell(CellOf(key), CellOf(value))
    case Param(name, ty, value) => ParamCell(CellOf(name), ty, CellOf(value))
    case Box(at, _) => Pointer(at)
    case Null => Pointer(0)
  }

  ghost function CellsOf(ns: seq<Node>): seq<Cell> {
    seq(|ns|, i requires 0 <= i < |ns| => CellOf(ns[i]))
  }

  /** The blocks that a tree owns. An empty string and a vector without capacity own none. */
  ghost function Foot(n: Node): set<nat> {
    match n
    case Leaf(_) => {}
    case Str(at, text) => if text == [] then {} else {at}
    case Vec(_, at, capacity, items) => (if capacity == 0 then {} else {at}) + FootAll(items)
    case Entry(key, value) => Foot(key) + Foot(value)
    case Param(name, _, value) => Foot(name) + Foot(value)
    case Box(at, inner) => {at} + Foot(inner)
    case Null => {}
  }

  ghost function FootAll(ns: seq<Node>): set<nat> {
    set i, a | 0 <= i < |ns| && a in Foot(ns[i]) :: a
  }

  /** Every block has one owner within the tree, strings are UTF-8, and lengths fit capacities. */
  ghost predicate Single(n: Node) {
    match n
    case Leaf(_) => true
    case Str(_, text) => Utf8.Valid(text)
    case Vec(_, at, capacity, items) =>
      && |items| <= capacity
      && (forall i | 0 <= i < |items| :: Single(items[i]))
      && Disjoint(items)
      && (capacity > 0 ==> at !in FootAll(items))
    case Entry(key, value) => Single(key) && Single(value) && Foot(key) !! Foot(value)
    case Param(name, _, value) => Single(name) && Single(value) && Foot(name) !! Foot(value)
    case Box(at, inner) => at != 0 && Single(inner) && at !in Foot(inner)
    case Null => true
  }

  ghost predicate Disjoint(ns: seq<Node>) {
    forall i, j | 0 <= i < j < |ns| :: Foot(ns[i]) !! Foot(ns[j])
  }

  /** The heap holds the tree. */
  ghost predicate In(h: Heap, n: Node) {
    match n
    case Leaf(_) => true
    case Str(at, text) => text != [] ==> at in h && h[at] == Text(text)
    case Vec(_, at, capacity, items) =>
      && (capacity > 0 ==> at in h && h[at] == Cells(CellsOf(items), capacity))
      && forall i | 0 <= i < |items| :: In(h, items[i])
    case Entry(key, value) => In(h, key) && In(h, value)
    case Param(name, _, value) => In(h, name) && In(h, value)
    case Box(at, inner) => at in h && h[at] == Boxed(CellOf(inner)) && In(h, inner)
    case Null => true
  }

  /** The tree without addresses and capacities: what the C caller built. */
  function Erase(n: Node): Node {
    match n
    case Leaf(_) => n
    case Str(_, text) => Str(0, text)
    case Vec(kind, _, _, items) => Vec(kind, 0, 0, EraseAll(items))
    case Entry(key, value) => Entry(Erase(key), Erase(value))
    case Param(name, ty, value) => Param(Erase(name), ty, Erase(value))
    case Box(_, inner) => Box(0, Erase(inner))
    case Null => Null
  }

  function EraseAll(ns: seq<Node>): seq<Node> {
    seq(|ns|, i requires 0 <= i < |ns| => Erase(ns[i]))
  }

  // ----- which trees the API builds -----

  predicate IsValue(n: Node) {
    match n
    case Leaf(_) => true
    case Str(_, _) => true
    case Vec(Array, _, _, items) => forall i | 0 <= i < |items| :: IsValue(items[i])
    case Vec(Dict, _, _, items) => forall i | 0 <= i < |items| :: IsEntry(items[i])
    case _ => false
  }

  predicate IsEntry(n: Node): (r: bool)
    ensures r ==> n.Entry? && n.key.Str? && n.value.Box? && IsValue(n.value.inner)
  {
    n.Entry? && n.key.Str? && n.value.Box? && IsValue(n.value.inner)
  }

  predicate IsParam(n: Node) {
    n.Param? && n.name.Str? && (n.value.Null? || (n.value.Box? && IsValue(n.value.inner)))
  }

  predicate IsParams(n: Node) {
    n.Vec? && n.kind == Params && forall i | 0 <= i < |n.items| :: IsParam(n.items[i])
  }

  // ----- framing -----

  lemma {:induction false} FootIsAllocated(h: Heap, n: Node)
    requires In(h, n)
    ensures Foot(n) <= h.Keys
  {
    match n
    case Vec(_, _, _, items) =>
      forall i | 0 <= i < |items|
        ensures Foot(items[i]) <= h.Keys
      {
        FootIsAllocated(h, items[i]);
      }
    case Entry(key, value) => FootIsAllocated(h, key); FootIsAllocated(h, value);
    case Param(name, _, value) => FootIsAllocated(h, name); FootIsAllocated(h, value);
    case Box(_, inner) => FootIsAllocated(h, inner);
    case _ =>
  }

  /** Only the blocks of its footprint matter to a tree. */
  lemma {:induction false} Frame(h: Heap, h': Heap, n: Node)
    requires In(h, n)
    requires forall a | a in Foot(n) && a in h :: a in h' && h'[a] == h[a]
    ensures In(h', n)
  {
    match n
    case Vec(_, at, _, items) =>
      forall i | 0 <= i < |items|
        ensures In(h', items[i])
      {
        assert forall a | a in Foot(items[i]) :: a in FootAll(items);
        Frame(h, h', items[i]);
      }
    case Entry(key, value) => Frame(h, h', key); Frame(h, h', value);
    case Param(name, _, value) => Frame(h, h', name); Frame(h, h', value);
    case Box(_, inner) => Frame(h, h', inner);
    case _ =>
  }

  lemma {:induction false} FrameAll(h: Heap, h': Heap, ns: seq<Node>)
    requires forall i | 0 <= i < |ns| :: In(h, ns[i])
    requires forall a | a in FootAll(ns) && a in h :: a in h' && h'[a] == h[a]
    ensures forall i | 0 <= i < |ns| :: In(h', ns[i])
  {
    forall i | 0 <= i < |ns|
      ensures In(h', ns[i])
    {
      assert forall a | a in Foot(ns[i]) :: a in FootAll(ns);
      Frame(h, h', ns[i]);
    }
  }

  lemma FootAllSnoc(ns: seq<Node>, n: Node)
    ensures FootAll(ns + [n]) == FootAll(ns) + Foot(n)
  {
    var all := ns + [n];
    forall a | a in FootAll(ns) + Foot(n)
      ensures a in FootAll(all)
    {
      if a in FootAll(ns) {
        var i :| 0 <= i < |ns| && a in Foot(ns[i]);
        assert all[i] == ns[i];
      } else {
        assert all[|ns|] == n;
      }
    }
  }

  lemma DisjointSnoc(ns: seq<Node>, n: Node)
    requires Disjoint(ns) && FootAll(ns) !! Foot(n)
    ensures Disjoint(ns + [n])
  {
    forall i | 0 <= i < |ns|
      ensures Foot(ns[i]) <= FootAll(ns)
    {
    }
  }

  lemma EraseAllSnoc(ns: seq<Node>, n: Node)
    ensures EraseAll(ns + [n]) == EraseAll(ns) + [Erase(n)]
  {
  }
}
