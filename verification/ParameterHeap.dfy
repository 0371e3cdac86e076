/** The heap behind the parameter API, and the `Drop`, `Clone` and push operations on it (c/src/parameter.rs). */
module ParameterHeap {
  import opened Wrappers
  import opened ParameterTree
  import Utf8

  /** What the allocator must be told again when a block is freed. */
  function SizeOf(b: Block): nat {
    match b
    case Text(bytes) => |bytes|
    case Cells(_, capacity) => capacity
    case Boxed(_) => 1
  }

  /** `h'` is `h` with new blocks only at `foot`. */
  ghost predicate Adds(h: Heap, h': Heap, foot: set<nat>) {
    && foot !! h.Keys
    && h'.Keys == h.Keys + foot
    && forall a | a in h :: h'[a] == h[a]
  }

  /** The buffer of a vector, if it has one. */
  ghost function Buffer(n: Node): set<nat>
    requires n.Vec?
  {
    if n.capacity == 0 then {} else {n.at}
  }

  /** What a push leaves behind is the longer vector. */
  lemma Pushed(h: Heap, h': Heap, n: Node, e: Node, n': Node)
    requires n.Vec? && Single(n) && In(h, n) && Single(e) && In(h, e) && Foot(n) !! Foot(e)
    requires n'.Vec? && n'.items == n.items + [e] && |n'.items| <= n'.capacity
    requires n'.at in Buffer(n) || n'.at !in h
    requires h' == (h - Buffer(n))[n'.at := Cells(CellsOf(n'.items), n'.capacity)]
    ensures Single(n') && In(h', n')
    ensures Foot(n') == Foot(n) - Buffer(n) + {n'.at} + Foot(e)
  {
    FootAllSnoc(n.items, e);
    DisjointSnoc(n.items, e);
    FootIsAllocated(h, n);
    FootIsAllocated(h, e);
    FrameAll(h, h', n.items);
    Frame(h, h', e);
  }

  class Allocator {
    var heap: Heap
    // frees of blocks that are not there, or with a size they were not allocated with
    var faults: nat

    constructor ()
      ensures heap == map[] && faults == 0
    {
      heap, faults := map[], 0;
    }

    method Alloc(b: Block) returns (a: nat)
      modifies this`heap
      ensures a != 0 && a !in old(heap) && heap == old(heap)[a := b]
    {
      a := 1;
      var left := heap.Keys;
      while left != {}
        invariant left <= heap.Keys && a > 0
        invariant forall k | k in heap && k !in left :: k < a
      {
        var k :| k in left;
        a := if k >= a then k + 1 else a;
        left := left - {k};
      }
      heap := heap[a := b];
    }

    method Free(a: nat, size: nat)
      modifies this
      ensures heap == old(heap) - {a}
      ensures faults == old(faults) + if a in old(heap) && SizeOf(old(heap)[a]) == size then 0 else 1
    {
      if a !in heap || SizeOf(heap[a]) != size {
        faults := faults + 1;
      }
      heap := heap - {a};
    }

    /** Overwrites the struct in a box. */
    method Set(p: nat, c: Cell)
      modifies this`heap
      ensures heap == old(heap)[p := Boxed(c)]
    {
      heap := heap[p := Boxed(c)];
    }

    /** `FoxgloveStringBuf::new`, and `ManuallyDrop` of the string. */
    method NewString(text: seq<byte>) returns (c: Cell, ghost n: Node)
      requires Utf8.Valid(text)
      modifies this`heap
      ensures n.Str? && n.text == text && Single(n) && In(heap, n) && c == CellOf(n)
      ensures Adds(old(heap), heap, Foot(n))
    {
      if text == [] {
        return StringCell(1, 0), Str(1, []);
      }
      var a := Alloc(Text(text));
      c, n := StringCell(a, |text|), Str(a, text);
    }

    /** `Vec::with_capacity` and `collect`: some capacity that is large enough. */
    method NewVec(kind: VecKind, cells: seq<Cell>, atLeast: nat, ghost items: seq<Node>) returns (c: Cell, ghost n: Node)
      requires cells == CellsOf(items)
      requires forall i | 0 <= i < |items| :: Single(items[i]) && In(heap, items[i])
      requires Disjoint(items)
      modifies this`heap
      ensures n.Vec? && n.kind == kind && n.items == items && n.capacity >= atLeast && c == CellOf(n)
      ensures Single(n) && In(heap, n)
      ensures n.capacity > 0 ==> n.at !in old(heap)
      ensures heap == if n.capacity == 0 then old(heap) else old(heap)[n.at := Cells(cells, n.capacity)]
    {
      var capacity := if atLeast < |cells| then |cells| else atLeast;
      var a := 8;
      if capacity > 0 {
        AllAllocated(heap, items);
        a := Alloc(Cells(cells, capacity));
        FrameAll(old(heap), heap, items);
      }
      c, n := VecCell(kind, a, |cells|, capacity), Vec(kind, a, capacity, items);
    }

    /** `Box::into_raw(Box::new(..))`. */
    method NewBox(c: Cell, ghost n: Node) returns (p: nat, ghost b: Node)
      requires c == CellOf(n) && Single(n) && In(heap, n)
      modifies this`heap
      ensures b == Box(p, n) && Single(b) && In(heap, b)
      ensures p !in old(heap) && heap == old(heap)[p := Boxed(c)]
    {
      FootIsAllocated(heap, n);
      p := Alloc(Boxed(c));
      b := Box(p, n);
      Frame(old(heap), heap, n);
    }

    /** A named tree around the value `v`, which stays where it is: a dict entry or a parameter. */
    method NewNamed(name: seq<byte>, ghost v: Node) returns (c: Cell, ghost s: Node)
      requires Utf8.Valid(name) && Single(v) && In(heap, v)
      modifies this`heap
      ensures s.Str? && s.text == name && c == CellOf(s)
      ensures Single(Entry(s, v)) && In(heap, Entry(s, v)) && Adds(old(heap), heap, Foot(s))
    {
      FootIsAllocated(heap, v);
      c, s := NewString(name);
      Frame(old(heap), heap, v);
    }

    /** `FoxgloveParameter::new`, boxed. */
    method NewParameter(name: seq<byte>, ty: ParamType, value: nat, ghost v: Node) returns (p: nat, ghost n: Node, ghost s: Node)
      requires Utf8.Valid(name) && Single(v) && In(heap, v) && CellOf(v) == Pointer(value)
      modifies this`heap
      ensures p != 0 && n == Box(p, Param(s, ty, v)) && s.Str? && s.text == name
      ensures Single(n) && In(heap, n) && Adds(old(heap), heap, Foot(s) + {p})
    {
      var c;
      c, s := NewNamed(name, v);
      FootIsAllocated(heap, Entry(s, v));
      p, n := NewBox(ParamCell(c, ty, Pointer(value)), Param(s, ty, v));
    }

    /** `raw_vec_push`: grows a full buffer, then writes the element behind the others. */
    method Push(c: Cell, elem: Cell, ghost n: Node, ghost e: Node) returns (c': Cell, ghost n': Node)
      requires c.VecCell? && c == CellOf(n) && Single(n) && In(heap, n)
      requires elem == CellOf(e) && Single(e) && In(heap, e) && Foot(n) !! Foot(e)
      modifies this
      ensures n'.Vec? && n'.kind == n.kind && n'.items == n.items + [e]
      ensures c' == CellOf(n') && Single(n') && In(heap, n') && faults == old(faults)
      ensures n.capacity <= n'.capacity
      ensures heap == (old(heap) - Buffer(n))[n'.at := Cells(CellsOf(n'.items), n'.capacity)]
      ensures n'.at in Buffer(n) || n'.at !in old(heap)
      ensures Foot(n') == Foot(n) - Buffer(n) + {n'.at} + Foot(e)
    {
      var VecCell(kind, ptr, len, capacity) := c;
      var cells := if len == 0 then [] else heap[ptr].cells;
      var at, capacity' := ptr, capacity;
      assert cells + [elem] == CellsOf(n.items + [e]);
      if len == capacity {
        capacity' := if capacity < 2 then 4 else 2 * capacity;
        at := Alloc(Cells(cells + [elem], capacity'));
        if capacity > 0 {
          Free(ptr, capacity);
        }
      } else {
        heap := heap[at := Cells(cells + [elem], capacity)];
      }
      c', n' := VecCell(kind, at, len + 1, capacity'), Vec(n.kind, at, capacity', n.items + [e]);
      Pushed(old(heap), heap, n, e, n');
    }

    /** The `Drop` impls: every block of the tree goes, once and with its own size, and no other block does. */
    method Drop(c: Cell, ghost n: Node)
      requires c == CellOf(n) && Single(n) && In(heap, n)
      modifies this
      ensures heap == old(heap) - Foot(n) && faults == old(faults)
      decreases n, 1
    {
      match c
      case ScalarCell(_) =>
      case StringCell(ptr, len) =>
        if len > 0 {
          Free(ptr, len);
        }
      case VecCell(_, ptr, len, capacity) =>
        DropItems(ptr, len, capacity, n);
        if capacity > 0 {
          Free(ptr, capacity);
        }
      case EntryCell(key, value) =>
        Drop(key, n.key);
        Frame(old(heap), heap, n.value);
        Drop(value, n.value);
      case ParamCell(name, _, value) =>
        Drop(name, n.name);
        Frame(old(heap), heap, n.value);
        Drop(value, n.value);
      case Pointer(ptr) =>
        if ptr != 0 {
          Drop(heap[ptr].cell, n.inner);
          Free(ptr, 1);
        }
    }

    /** Drops the elements of a vector, in order. */
    method DropItems(ptr: nat, len: nat, capacity: nat, ghost n: Node)
      requires n.Vec? && ptr == n.at && len == |n.items| && capacity == n.capacity
      requires Single(n) && In(heap, n)
      modifies this
      ensures heap == old(heap) - FootAll(n.items) && faults == old(faults)
      decreases n, 0
    {
      if len == 0 {
        return;
      }
      var cells := heap[ptr].cells;
      var i := 0;
      while i < len
        invariant 0 <= i <= len
        invariant heap == old(heap) - FootAll(n.items[..i]) && faults == old(faults)
      {
        assert n.items[..i] + [n.items[i]] == n.items[..i + 1];
        FootAllSnoc(n.items[..i], n.items[i]);
        Frame(old(heap), heap, n.items[i]);
        Drop(cells[i], n.items[i]);
        i := i + 1;
      }
      assert n.items[..len] == n.items;
    }

    /** The `Clone` impls: an equal tree in blocks of its own; nothing that was there changes. */
    method Clone(c: Cell, ghost n: Node) returns (c': Cell, ghost n': Node)
      requires c == CellOf(n) && Single(n) && In(heap, n)
      modifies this`heap
      ensures c' == CellOf(n') && Single(n') && In(heap, n') && Erase(n') == Erase(n)
      ensures Adds(old(heap), heap, Foot(n'))
      decreases n, 1
    {
      match c
      case ScalarCell(_) => c', n' := c, n;
      case StringCell(ptr, len) =>
        c', n' := NewString(if len == 0 then [] else heap[ptr].bytes);
      case VecCell(kind, ptr, len, capacity) =>
        var cells; ghost var items;
        cells, items := CloneItems(ptr, len, n);
        c', n' := NewVec(kind, cells, len, items);
      case EntryCell(key, value) =>
        c', n' := ClonePair(key, value, n.key, n.value, n);
        c', n' := EntryCell(c'.key, c'.value), Entry(n'.key, n'.value);
      case ParamCell(name, ty, value) =>
        c', n' := ClonePair(name, value, n.name, n.value, n);
        c', n' := ParamCell(c'.key, ty, c'.value), Param(n'.key, n.ty, n'.value);
      case Pointer(ptr) =>
        if ptr == 0 {
          c', n' := c, n;
        } else {
          var inner, n1 := Clone(heap[ptr].cell, n.inner);
          FootIsAllocated(heap, n1);
          var p, b := NewBox(inner, n1);
          c', n' := Pointer(p), b;
        }
    }

    /** Cloning what a handle points to. */
    method CloneBox(p: nat, ghost n: Node) returns (p': nat, ghost n': Node)
      requires n.Box? && n.at == p && Single(n) && In(heap, n)
      modifies this`heap
      ensures p' != 0 && n'.Box? && n'.at == p' && Single(n') && In(heap, n') && Erase(n') == Erase(n)
      ensures Adds(old(heap), heap, Foot(n'))
    {
      var c;
      c, n' := Clone(Pointer(p), n);
      p' := c.ptr;
    }

    /** The loop of `raw_vec_clone`: clones the elements in order. */
    method CloneItems(ptr: nat, len: nat, ghost n: Node) returns (cells: seq<Cell>, ghost items: seq<Node>)
      requires n.Vec? && ptr == n.at && len == |n.items|
      requires Single(n) && In(heap, n)
      modifies this`heap
      ensures cells == CellsOf(items) && Built(old(heap), heap, EraseAll(n.items), items)
      decreases n, 0
    {
      cells, items := [], [];
      var i := 0;
      while i < len
        invariant 0 <= i <= len && |items| == i
        invariant cells == CellsOf(items) && Built(old(heap), heap, EraseAll(n.items[..i]), items)
      {
        FootIsAllocated(old(heap), n);
        Frame(old(heap), heap, n);
        ghost var h := heap;
        var c1, n1 := Clone(heap[ptr].cells[i], n.items[i]);
        BuiltSnoc(old(heap), h, heap, EraseAll(n.items[..i]), items, n1);
        assert EraseAll(n.items[..i + 1]) == EraseAll(n.items[..i]) + [Erase(n.items[i])];
        cells, items := cells + [c1], items + [n1];
        i := i + 1;
      }
      assert n.items[..len] == n.items;
    }

    /** Clones two structs that belong to one. */
    method ClonePair(c1: Cell, c2: Cell, ghost n1: Node, ghost n2: Node, ghost owner: Node)
      returns (c': Cell, ghost n': Node)
      requires n1 < owner && n2 < owner
      requires c1 == CellOf(n1) && c2 == CellOf(n2)
      requires Single(n1) && Single(n2) && In(heap, n1) && In(heap, n2)
      modifies this`heap
      ensures n'.Entry? && c' == CellOf(n') && Single(n') && In(heap, n')
      ensures Erase(n'.key) == Erase(n1) && Erase(n'.value) == Erase(n2)
      ensures Adds(old(heap), heap, Foot(n'))
      decreases owner, 0
    {
      var d1, m1 := Clone(c1, n1);
      FootIsAllocated(old(heap), n2);
      Frame(old(heap), heap, n2);
      FootIsAllocated(heap, m1);
      ghost var h := heap;
      var d2, m2 := Clone(c2, n2);
      Frame(h, heap, m1);
      c', n' := EntryCell(d1, d2), Entry(m1, m2);
    }
  }

  /** `ns` are separate trees of the given shapes that were added to `h0`. */
  ghost predicate Built(h0: Heap, h: Heap, shapes: seq<Node>, ns: seq<Node>) {
    && EraseAll(ns) == shapes
    && (forall j | 0 <= j < |ns| :: Single(ns[j]) && In(h, ns[j]))
    && Disjoint(ns)
    && Adds(h0, h, FootAll(ns))
  }

  lemma AddsTwice(h0: Heap, h: Heap, h': Heap, foot: set<nat>, more: set<nat>)
    requires Adds(h0, h, foot) && Adds(h, h', more)
    ensures Adds(h0, h', foot + more)
  {
  }

  lemma BuiltSnoc(h0: Heap, h: Heap, h': Heap, shapes: seq<Node>, ns: seq<Node>, n: Node)
    requires Built(h0, h, shapes, ns)
    requires Single(n) && In(h', n) && Adds(h, h', Foot(n))
    ensures Built(h0, h', shapes + [Erase(n)], ns + [n])
  {
    AddsTwice(h0, h, h', FootAll(ns), Foot(n));
    FootAllSnoc(ns, n);
    DisjointSnoc(ns, n);
    EraseAllSnoc(ns, n);
    FrameAll(h, h', ns);
  }

  lemma {:induction false} AllAllocated(h: Heap, ns: seq<Node>)
    requires forall i | 0 <= i < |ns| :: In(h, ns[i])
    ensures FootAll(ns) <= h.Keys
  {
    forall i | 0 <= i < |ns|
      ensures Foot(ns[i]) <= h.Keys
    {
      FootIsAllocated(h, ns[i]);
    }
  }
}
