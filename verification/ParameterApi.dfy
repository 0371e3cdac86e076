/**
 The C API for parameters (c/src/parameter.rs, c/src/server.rs). `roots` are the trees behind the handles that the
 caller holds. Every call keeps the heap a forest: each live block belongs to exactly one handle.
 */
module ParameterApi {
  import opened Wrappers
  import opened CStrings
  import opened ParameterTree
  import opened ParameterHeap
  import opened ParameterNative
  import Utf8

  /** A tree that a handle can stand for. */
  ghost predicate IsHandle(n: Node) {
    n.Box? && (IsValue(n.inner) || IsParam(n.inner) || IsParams(n.inner))
  }

  ghost function FootOf(ns: set<Node>): set<nat> {
    set n, a | n in ns && a in Foot(n) :: a
  }

  /** Every live block has exactly one owner: one handle, or nobody if it has been leaked. */
  ghost predicate Forest(h: Heap, roots: set<Node>, leaked: set<nat>) {
    && (forall r | r in roots :: IsHandle(r) && Single(r) && In(h, r))
    && (forall r, s | r in roots && s in roots && r != s :: Foot(r) !! Foot(s))
    && FootOf(roots) !! leaked
    && h.Keys == FootOf(roots) + leaked
  }

  /** The blocks `foot` of `h`, and new ones, have become the tree `n` of `h'`; the rest of the heap is as it was. */
  ghost predicate Absorbs(h: Heap, h': Heap, foot: set<nat>, n: Node) {
    && (forall a | a in Foot(n) :: a !in h || a in foot)
    && h'.Keys == h.Keys - foot + Foot(n)
    && (forall a | a in h && a !in foot :: a in h' && h'[a] == h[a])
  }

  /** Before the change, a box was freed whose contents the tree has absorbed. */
  lemma AbsorbsBox(h: Heap, h1: Heap, h': Heap, f1: set<nat>, f2: set<nat>, at: nat, n: Node)
    requires at in h && h1 == h - {at} && f1 + f2 <= h1.Keys
    requires Absorbs(h1, h', f1 + f2, n)
    ensures Absorbs(h, h', f1 + ({at} + f2), n)
  {
  }

  /** Before the change, blocks were added that the tree has absorbed. */
  lemma AbsorbsNew(h: Heap, h1: Heap, h': Heap, f1: set<nat>, f2: set<nat>, extra: set<nat>, n: Node)
    requires Adds(h, h1, extra) && f1 + f2 <= h.Keys
    requires Absorbs(h1, h', f1 + (extra + f2), n)
    ensures Absorbs(h, h', f1 + f2, n)
  {
  }

  /** Replacing some trees by one tree that was made of their blocks and of new ones. */
  lemma Replaced(h: Heap, h': Heap, roots: set<Node>, leaked: set<nat>, gone: set<Node>, foot: set<nat>, n: Node)
    requires Forest(h, roots, leaked) && gone <= roots && foot == FootOf(gone)
    requires IsHandle(n) && Single(n) && In(h', n) && Absorbs(h, h', foot, n)
    ensures Forest(h', roots - gone + {n}, leaked)
  {
    hide Single, In, IsHandle, Foot;
    Kept(h, h', roots, leaked, gone);
    FootOfSplit(roots, gone);
    FootOfPlus(roots - gone, n);
    assert FootOf(roots - gone) !! Foot(n);
    forall r | r in roots - gone
      ensures Foot(r) !! Foot(n)
    {
      RootFoot(roots - gone, r);
    }
  }

  /** The tree that was made is none of those that stay. */
  lemma AbsorbedIsNew(h: Heap, h': Heap, roots: set<Node>, leaked: set<nat>, gone: set<Node>, foot: set<nat>, n: Node)
    requires Forest(h, roots, leaked) && gone <= roots && foot == FootOf(gone)
    requires n.Box? && Absorbs(h, h', foot, n)
    ensures n !in roots - gone
  {
    assert n.at in Foot(n);
    if n in roots - gone {
      RootFoot(roots, n);
      Elsewhere(roots, gone, n);
    }
  }

  lemma FootOfPlus(roots: set<Node>, n: Node)
    ensures FootOf(roots + {n}) == FootOf(roots) + Foot(n)
  {
    forall a | a in Foot(n)
      ensures a in FootOf(roots + {n})
    {
      assert n in roots + {n};
    }
  }

  /** Removing trees; of their blocks, some may have been leaked. */
  lemma Removed(h: Heap, h': Heap, roots: set<Node>, leaked: set<nat>, gone: set<Node>, lost: set<nat>)
    requires Forest(h, roots, leaked) && gone <= roots && lost <= FootOf(gone)
    requires h' == h - (FootOf(gone) - lost)
    ensures Forest(h', roots - gone, leaked + lost)
  {
    Kept(h, h', roots, leaked, gone);
    FootOfSplit(roots, gone);
  }

  lemma {:induction false} Elsewhere(roots: set<Node>, gone: set<Node>, r: Node)
    requires forall r, s | r in roots && s in roots && r != s :: Foot(r) !! Foot(s)
    requires gone <= roots && r in roots - gone
    ensures Foot(r) !! FootOf(gone)
  {
  }

  lemma {:induction false} FootOfSplit(roots: set<Node>, gone: set<Node>)
    requires forall r, s | r in roots && s in roots && r != s :: Foot(r) !! Foot(s)
    requires gone <= roots
    ensures FootOf(roots) == FootOf(gone) + FootOf(roots - gone) && FootOf(gone) !! FootOf(roots - gone)
  {
    forall a | a in FootOf(roots)
      ensures a in FootOf(gone) + FootOf(roots - gone)
    {
      var r :| r in roots && a in Foot(r);
      assert r in gone || r in roots - gone;
    }
  }

  /** The trees that stay are untouched. */
  lemma {:induction false} Kept(h: Heap, h': Heap, roots: set<Node>, leaked: set<nat>, gone: set<Node>)
    requires Forest(h, roots, leaked) && gone <= roots
    requires forall a | a in h && a !in FootOf(gone) :: a in h' && h'[a] == h[a]
    ensures forall r | r in roots - gone :: In(h', r)
  {
    forall r | r in roots - gone
      ensures In(h', r)
    {
      Elsewhere(roots, gone, r);
      Frame(h, h', r);
    }
  }

  lemma RootFoot(roots: set<Node>, r: Node)
    requires r in roots
    ensures Foot(r) <= FootOf(roots)
  {
  }

  lemma FootOfOne(n: Node)
    ensures FootOf({n}) == Foot(n)
  {
  }

  lemma FootOfTwo(n: Node, m: Node)
    ensures FootOf({n, m}) == Foot(n) + Foot(m)
  {
  }

  /** What the forest says of two handles. */
  lemma TwoRoots(h: Heap, roots: set<Node>, leaked: set<nat>, r: Node, s: Node)
    requires Forest(h, roots, leaked) && r in roots && s in roots && r != s
    ensures Single(r) && In(h, r) && IsHandle(r) && Single(s) && In(h, s) && IsHandle(s)
    ensures Foot(r) !! Foot(s) && Foot(r) + Foot(s) <= h.Keys && FootOf({r, s}) == Foot(r) + Foot(s)
  {
    RootFoot(roots, r);
    RootFoot(roots, s);
    FootOfTwo(r, s);
  }

  /** A new tree in blocks of its own. */
  lemma Added(h: Heap, h': Heap, roots: set<Node>, leaked: set<nat>, n: Node)
    requires Forest(h, roots, leaked) && IsHandle(n) && Single(n) && In(h', n) && Adds(h, h', Foot(n))
    ensures Forest(h', roots + {n}, leaked)
  {
    assert FootOf({}) == {};
    Replaced(h, h', roots, leaked, {}, {}, n);
    assert roots - {} == roots;
  }

  /** A clone shares no block with any tree that was there, so that freeing or changing one leaves the others alone. */
  lemma CloneIsSeparate(h: Heap, h': Heap, roots: set<Node>, leaked: set<nat>, n: Node)
    requires Forest(h, roots, leaked) && Adds(h, h', Foot(n))
    ensures forall r | r in roots :: Foot(r) !! Foot(n)
    ensures forall r, h'' | r in roots && (forall a | a in Foot(r) :: a in h'' && h''[a] == h[a]) :: In(h'', r)
  {
    forall r | r in roots
      ensures Foot(r) !! Foot(n)
    {
      RootFoot(roots, r);
    }
    forall r, h'' | r in roots && (forall a | a in Foot(r) :: a in h'' && h''[a] == h[a])
      ensures In(h'', r)
    {
      Frame(h, h'', r);
    }
  }

  /** `e` is an element of the type that the vector holds. */
  ghost predicate Accepts(v: Node, e: Node)
    requires v.Vec?
  {
    match v.kind
    case Array => IsValue(e)
    case Dict => IsEntry(e)
    case Params => IsParam(e)
  }

  lemma AcceptsKeepsKind(v: Node, v': Node, e: Node)
    requires v.Vec? && v'.Vec? && v'.kind == v.kind && v'.items == v.items + [e] && Accepts(v, e)
    requires IsValue(v) || IsParam(v) || IsParams(v)
    ensures IsValue(v') || IsParams(v')
    ensures v.kind == Dict ==> IsValue(v')
  {
  }

  lemma SameHandle(r: Node, n: Node)
    requires IsHandle(r) && Erase(n) == Erase(r)
    ensures IsHandle(n)
  {
    assert n.Box? && Erase(n.inner) == Erase(r.inner);
    ErasedKind(r.inner);
    ErasedKind(n.inner);
    ErasedParams(r.inner, n.inner);
  }

  lemma CloneAdded(h: Heap, h': Heap, roots: set<Node>, leaked: set<nat>, r: Node, n: Node)
    requires Forest(h, roots, leaked) && r in roots
    requires Erase(n) == Erase(r) && Single(n) && In(h', n) && Adds(h, h', Foot(n))
    ensures Forest(h', roots + {n}, leaked) && forall s | s in roots :: Foot(s) !! Foot(n)
  {
    SameHandle(r, n);
    Added(h, h', roots, leaked, n);
    CloneIsSeparate(h, h', roots, leaked, n);
  }

  class Library {
    const m: Allocator
    ghost var roots: set<Node>
    ghost var leaked: set<nat>

    ghost predicate Valid()
      reads this, m
    {
      Forest(m.heap, roots, leaked)
    }

    /** `p` is null or the handle of the tree `r`. */
    ghost predicate Holds(p: nat, r: Node)
      reads this
    {
      p != 0 ==> r in roots && r.Box? && r.at == p
    }

    constructor ()
      ensures Valid() && roots == {} && leaked == {} && m.faults == 0 && fresh(m)
    {
      m := new Allocator();
      roots, leaked := {}, {};
    }

    // ----- values -----

    /** `foxglove_parameter_value_create_{float64,integer,boolean}`. */
    method ValueCreate(s: Scalar) returns (p: nat)
      requires Valid()
      modifies this`roots, m
      ensures Valid() && p != 0 && m.faults == old(m.faults)
      ensures roots == old(roots) + {Box(p, Leaf(s))} && Box(p, Leaf(s)) !in old(roots)
    {
      ghost var b;
      p, b := m.NewBox(ScalarCell(s), Leaf(s));
      Added(old(m.heap), m.heap, roots, leaked, b);
      NotYet(old(m.heap), roots, leaked, b);
      roots := roots + {b};
    }

    /** Boxes a string that is known to be UTF-8. */
    method StringValue(text: seq<byte>) returns (p: nat, ghost n: Node)
      requires Valid() && Utf8.Valid(text)
      modifies this`roots, m
      ensures Valid() && p != 0 && m.faults == old(m.faults)
      ensures n.Box? && n.at == p && n.inner.Str? && n.inner.text == text
      ensures n !in old(roots) && roots == old(roots) + {n}
    {
      var c, s := m.NewString(text);
      FootIsAllocated(m.heap, s);
      p, n := m.NewBox(c, s);
      Added(old(m.heap), m.heap, roots, leaked, n);
      NotYet(old(m.heap), roots, leaked, n);
      roots := roots + {n};
    }

    /** `foxglove_parameter_value_create_string`, with `out` telling whether the result pointer is not null. */
    method ValueCreateString(out: bool, text: FoxgloveString) returns (code: Code, p: nat, ghost n: Node)
      requires Valid() && text.Valid()
      modifies this`roots, m
      ensures Valid() && m.faults == old(m.faults)
      ensures code == if !out then ValueError else if text.AsUtf8().None? then Utf8Error else Success
      ensures code == Success ==>
                && p != 0 && n.Box? && n.at == p && n.inner.Str? && n.inner.text == text.AsUtf8().value
                && n !in old(roots) && roots == old(roots) + {n}
      ensures code != Success ==> roots == old(roots) && m.heap == old(m.heap)
    {
      p, n := 0, Null;
      if !out {
        return ValueError, p, n;
      }
      var s := text.AsUtf8();
      if s.None? {
        return Utf8Error, p, n;
      }
      p, n := StringValue(s.value);
      code := Success;
    }

    /** `foxglove_parameter_value_create_{array,dict}`: the struct moves out of its box into a value's box. */
    method ValueFromVec(vec: nat, ghost r: Node) returns (p: nat)
      requires Valid() && vec != 0 && Holds(vec, r) && IsValue(r.inner) && r.inner.Vec?
      modifies this`roots, m
      ensures Valid() && p != 0 && m.faults == old(m.faults)
      ensures Box(p, r.inner) !in old(roots) - {r} && roots == old(roots) - {r} + {Box(p, r.inner)}
    {
      ghost var h := m.heap;
      RootFoot(roots, r);
      FootOfOne(r);
      ghost var b;
      p, b := Rebox(vec, r);
      Replaced(h, m.heap, roots, leaked, {r}, Foot(r), b);
      AbsorbedIsNew(h, m.heap, roots, leaked, {r}, Foot(r), b);
      roots := roots - {r} + {b};
    }

    /** Moves a struct from one box to another. */
    method Rebox(ptr: nat, ghost r: Node) returns (p: nat, ghost b: Node)
      requires r.Box? && r.at == ptr && Single(r) && In(m.heap, r) && Foot(r) <= m.heap.Keys
      modifies m
      ensures m.faults == old(m.faults) && p != 0
      ensures b == Box(p, r.inner) && Single(b) && In(m.heap, b) && Absorbs(old(m.heap), m.heap, Foot(r), b)
    {
      ghost var h := m.heap;
      var c := m.heap[ptr].cell;
      m.Free(ptr, 1);
      Frame(h, m.heap, r.inner);
      p, b := m.NewBox(c, r.inner);
    }

    /** `foxglove_parameter_value_clone` and `foxglove_parameter_clone`. */
    method CloneHandle(p: nat, ghost r: Node) returns (q: nat, ghost n: Node)
      requires Valid() && Holds(p, r)
      modifies this`roots, m`heap
      ensures Valid()
      ensures p == 0 ==> q == 0 && roots == old(roots) && m.heap == old(m.heap)
      ensures p != 0 ==>
                && q != 0 && n.Box? && n.at == q && Erase(n) == Erase(r)
                && (forall s | s in old(roots) :: Foot(s) !! Foot(n))
                && roots == old(roots) + {n} && Adds(old(m.heap), m.heap, Foot(n))
    {
      if p == 0 {
        return 0, Null;
      }
      q, n := m.CloneBox(p, r);
      CloneAdded(old(m.heap), m.heap, roots, leaked, r, n);
      roots := roots + {n};
    }

    /** The `_free` functions. */
    method FreeHandle(p: nat, ghost r: Node)
      requires Valid() && Holds(p, r)
      modifies this`roots, m
      ensures Valid() && m.faults == old(m.faults)
      ensures roots == if p == 0 then old(roots) else old(roots) - {r}
      ensures m.heap == if p == 0 then old(m.heap) else old(m.heap) - Foot(r)
    {
      if p != 0 {
        m.Drop(Pointer(p), r);
        FootOfOne(r);
        Removed(old(m.heap), m.heap, roots, leaked, {r}, {});
        roots := roots - {r};
        assert leaked + {} == leaked;
      }
    }

    // ----- arrays, dicts and parameter arrays -----

    /** `foxglove_parameter_value_{array,dict}_create` and `foxglove_parameter_array_create`. */
    method VecCreate(kind: VecKind, capacity: nat) returns (p: nat, ghost n: Node)
      requires Valid()
      modifies this`roots, m
      ensures Valid() && p != 0 && m.faults == old(m.faults)
      ensures n.Box? && n.at == p && n.inner.Vec? && n.inner.kind == kind && n.inner.items == []
      ensures n.inner.capacity >= capacity
      ensures n !in old(roots) && roots == old(roots) + {n}
    {
      var c, v := m.NewVec(kind, [], capacity, []);
      FootIsAllocated(m.heap, v);
      p, n := m.NewBox(c, v);
      Added(old(m.heap), m.heap, roots, leaked, n);
      NotYet(old(m.heap), roots, leaked, n);
      roots := roots + {n};
    }

    /** `foxglove_parameter_value_array_push` and `foxglove_parameter_array_push`: the element is consumed in any case. */
    method VecPush(vec: nat, elem: nat, ghost rv: Node, ghost re: Node) returns (code: Code, ghost n: Node)
      requires Valid() && Holds(vec, rv) && Holds(elem, re) && (vec != 0 && elem != 0 ==> rv != re)
      requires vec != 0 ==> rv.inner.Vec? && rv.inner.kind != Dict
      requires vec != 0 && elem != 0 ==> Accepts(rv.inner, re.inner)
      modifies this`roots, m
      ensures Valid() && m.faults == old(m.faults)
      ensures code == if vec != 0 && elem != 0 then Success else ValueError
      ensures elem == 0 ==> roots == old(roots)
      ensures elem != 0 && vec == 0 ==> roots == old(roots) - {re}
      ensures code == Success ==>
                && roots == old(roots) - {rv, re} + {n}
                && n.Box? && n.at == vec && n.inner.Vec? && n.inner.kind == rv.inner.kind
                && n.inner.items == rv.inner.items + [re.inner] && n.inner.capacity >= rv.inner.capacity
    {
      n := Null;
      if elem == 0 {
        return ValueError, n;
      }
      if vec == 0 {
        FreeHandle(elem, re);
        return ValueError, n;
      }
      n := PushHandle(vec, elem, rv, re);
      code := Success;
    }

    /** The element moves out of its box into the vector. */
    method PushHandle(vec: nat, elem: nat, ghost rv: Node, ghost re: Node) returns (ghost n: Node)
      requires Valid() && rv in roots && re in roots && rv != re && rv.at == vec && re.at == elem
      requires rv.inner.Vec? && Accepts(rv.inner, re.inner)
      modifies this`roots, m
      ensures Valid() && m.faults == old(m.faults)
      ensures roots == old(roots) - {rv, re} + {n}
      ensures n.Box? && n.at == vec && n.inner.Vec? && n.inner.kind == rv.inner.kind
      ensures n.inner.items == rv.inner.items + [re.inner] && n.inner.capacity >= rv.inner.capacity
    {
      hide Forest, FootOf;
      TwoRoots(m.heap, roots, leaked, rv, re);
      ghost var h := m.heap;
      n := PushUnboxed(vec, elem, rv, re);
      AcceptsKeepsKind(rv.inner, n.inner, re.inner);
      Replaced(h, m.heap, roots, leaked, {rv, re}, Foot(rv) + Foot(re), n);
      roots := roots - {rv, re} + {n};
    }

    /** Frees the element's box and pushes what was in it. */
    method PushUnboxed(vec: nat, elem: nat, ghost rv: Node, ghost re: Node) returns (ghost n: Node)
      requires rv.Box? && rv.at == vec && rv.inner.Vec? && Single(rv) && In(m.heap, rv)
      requires re.Box? && re.at == elem && Single(re) && In(m.heap, re)
      requires Foot(rv) !! Foot(re) && Foot(rv) + Foot(re) <= m.heap.Keys
      modifies m
      ensures m.faults == old(m.faults)
      ensures n.Box? && n.at == vec && n.inner.Vec? && n.inner.kind == rv.inner.kind
      ensures n.inner.items == rv.inner.items + [re.inner] && n.inner.capacity >= rv.inner.capacity
      ensures Single(n) && In(m.heap, n) && Absorbs(old(m.heap), m.heap, Foot(rv) + Foot(re), n)
    {
      ghost var h := m.heap;
      var value := m.heap[elem].cell;
      m.Free(elem, 1);
      ghost var h1 := m.heap;
      Frame(h, h1, rv);
      Frame(h, h1, re.inner);
      n := PushCell(vec, value, rv, re.inner);
      AbsorbsBox(h, h1, m.heap, Foot(rv), Foot(re.inner), elem, n);
    }

    /** Pushes a struct, whose tree is `e`, into the vector behind `vec`, whose tree is `rv`. */
    method PushCell(vec: nat, value: Cell, ghost rv: Node, ghost e: Node) returns (ghost n: Node)
      requires rv.Box? && rv.at == vec && Single(rv) && In(m.heap, rv) && rv.inner.Vec?
      requires value == CellOf(e) && Single(e) && In(m.heap, e) && Foot(rv) !! Foot(e)
      modifies m
      ensures m.faults == old(m.faults)
      ensures n.Box? && n.at == vec && n.inner.Vec? && n.inner.kind == rv.inner.kind
      ensures n.inner.items == rv.inner.items + [e] && n.inner.capacity >= rv.inner.capacity
      ensures Single(n) && In(m.heap, n) && Absorbs(old(m.heap), m.heap, Foot(rv) + Foot(e), n)
    {
      var c, v := m.Push(m.heap[vec].cell, value, rv.inner, e);
      FootIsAllocated(old(m.heap), e);
      FootIsAllocated(old(m.heap), rv);
      n := Box(vec, v);
      ghost var h1 := m.heap;
      m.Set(vec, c);
      Frame(h1, m.heap, v);
    }

    /** `foxglove_parameter_value_dict_insert`: the value is consumed in any case. */
    method DictInsert(dict: nat, key: FoxgloveString, value: nat, ghost rd: Node, ghost rv: Node)
      returns (code: Code, ghost n: Node)
      requires Valid() && key.Valid() && Holds(dict, rd) && Holds(value, rv) && (dict != 0 && value != 0 ==> rd != rv)
      requires dict != 0 ==> rd.inner.Vec? && rd.inner.kind == Dict
      requires value != 0 ==> IsValue(rv.inner)
      modifies this`roots, m
      ensures Valid() && m.faults == old(m.faults)
      ensures code == if value == 0 || dict == 0 then ValueError else if key.AsUtf8().None? then Utf8Error else Success
      ensures value == 0 ==> roots == old(roots)
      ensures value != 0 && code != Success ==> roots == old(roots) - {rv}
      ensures code == Success ==>
                && roots == old(roots) - {rd, rv} + {n}
                && n.Box? && n.at == dict && n.inner.Vec? && n.inner.kind == Dict
                && |n.inner.items| == |rd.inner.items| + 1 && n.inner.items[..|rd.inner.items|] == rd.inner.items
                && EntryFor(n.inner.items[|rd.inner.items|], key.AsUtf8().value, rv)
    {
      n := Null;
      if value == 0 {
        return ValueError, n;
      }
      if dict == 0 {
        FreeHandle(value, rv);
        return ValueError, n;
      }
      var text := key.AsUtf8();
      if text.None? {
        FreeHandle(value, rv);
        return Utf8Error, n;
      }
      n := InsertEntry(dict, text.value, value, rd, rv);
      code := Success;
    }

    method InsertEntry(dict: nat, key: seq<byte>, value: nat, ghost rd: Node, ghost rv: Node) returns (ghost n: Node)
      requires Valid() && Utf8.Valid(key) && rd in roots && rv in roots && rd != rv && rd.at == dict && rv.at == value
      requires rd.inner.Vec? && rd.inner.kind == Dict && IsValue(rv.inner)
      modifies this`roots, m
      ensures Valid() && m.faults == old(m.faults)
      ensures roots == old(roots) - {rd, rv} + {n}
      ensures n.Box? && n.at == dict && n.inner.Vec? && n.inner.kind == Dict
      ensures |n.inner.items| == |rd.inner.items| + 1 && n.inner.items[..|rd.inner.items|] == rd.inner.items
      ensures EntryFor(n.inner.items[|rd.inner.items|], key, rv)
    {
      RootFoot(roots, rd);
      RootFoot(roots, rv);
      FootOfTwo(rd, rv);
      ghost var h := m.heap;
      n := PushNamed(dict, key, value, rd, rv);
      Replaced(h, m.heap, roots, leaked, {rd, rv}, Foot(rd) + Foot(rv), n);
      roots := roots - {rd, rv} + {n};
    }

    /** Copies the key and pushes the entry. */
    method PushNamed(dict: nat, key: seq<byte>, value: nat, ghost rd: Node, ghost rv: Node) returns (ghost n: Node)
      requires Utf8.Valid(key) && rd.Box? && rd.at == dict && rv.Box? && rv.at == value
      requires rd.inner.Vec? && rd.inner.kind == Dict && IsValue(rd.inner) && IsValue(rv.inner)
      requires Single(rd) && In(m.heap, rd) && Single(rv) && In(m.heap, rv) && Foot(rd) !! Foot(rv)
      requires Foot(rd) + Foot(rv) <= m.heap.Keys
      modifies m
      ensures m.faults == old(m.faults)
      ensures n.Box? && n.at == dict && n.inner.Vec? && n.inner.kind == Dict && IsValue(n.inner)
      ensures |n.inner.items| == |rd.inner.items| + 1 && n.inner.items[..|rd.inner.items|] == rd.inner.items
      ensures EntryFor(n.inner.items[|rd.inner.items|], key, rv)
      ensures Single(n) && In(m.heap, n) && Absorbs(old(m.heap), m.heap, Foot(rd) + Foot(rv), n)
    {
      ghost var h := m.heap;
      var c, k := m.NewNamed(key, rv);
      ghost var h1 := m.heap;
      Frame(h, h1, rd);
      n := PushCell(dict, EntryCell(c, Pointer(value)), rd, Entry(k, rv));
      AcceptsKeepsKind(rd.inner, n.inner, Entry(k, rv));
      AbsorbsNew(h, h1, m.heap, Foot(rd), Foot(rv), Foot(k), n);
    }

    // ----- parameters -----

    /** `foxglove_parameter_create`: the value is consumed in any case. */
    method ParameterCreate(out: bool, name: FoxgloveString, ty: ParamType, value: nat, ghost rv: Node)
      returns (code: Code, p: nat, ghost n: Node)
      requires Valid() && name.Valid() && Holds(value, rv) && (value != 0 ==> IsValue(rv.inner))
      modifies this`roots, m
      ensures Valid() && m.faults == old(m.faults)
      ensures code == if !out then ValueError else if name.AsUtf8().None? then Utf8Error else Success
      ensures var rest := if value == 0 then old(roots) else old(roots) - {rv};
              if code == Success then
                p != 0 && n !in rest && roots == rest + {n} && ParameterFor(n, p, name.AsUtf8().value, ty, if value == 0 then Null else rv)
              else roots == rest
    {
      p, n := 0, Null;
      var text := name.AsUtf8();
      if !out || text.None? {
        FreeHandle(value, rv);
        return if !out then ValueError else Utf8Error, p, n;
      }
      if value == 0 {
        p, n := BoxParameter(text.value, ty, 0, Null, {}, {});
      } else {
        FootOfOne(rv);
        p, n := BoxParameter(text.value, ty, value, rv, {rv}, Foot(rv));
      }
      code := Success;
    }

    /** `FoxgloveParameter::new`, boxed. `gone` is the value's tree, if there is a value. */
    method BoxParameter(name: seq<byte>, ty: ParamType, value: nat, ghost v: Node, ghost gone: set<Node>, ghost foot: set<nat>)
      returns (p: nat, ghost n: Node)
      requires Valid() && Utf8.Valid(name) && gone <= roots && foot == FootOf(gone) == Foot(v)
      requires Single(v) && In(m.heap, v) && CellOf(v) == Pointer(value) && (v.Null? || (v.Box? && IsValue(v.inner)))
      modifies this`roots, m
      ensures Valid() && m.faults == old(m.faults)
      ensures p != 0 && n !in old(roots) - gone && roots == old(roots) - gone + {n} && ParameterFor(n, p, name, ty, v)
    {
      ghost var h, s := m.heap, Null;
      p, n, s := m.NewParameter(name, ty, value, v);
      assert IsParam(n.inner);
      Extended(h, m.heap, roots, leaked, gone, foot, n, Foot(s) + {p});
      NotYet(h, roots, leaked, n);
      roots := roots - gone + {n};
    }
  }

  /** An entry of `key` that owns the value `v`. */
  ghost predicate EntryFor(e: Node, key: seq<byte>, v: Node) {
    e.Entry? && e.key.Str? && e.key.text == key && e.value == v
  }

  /** The parameter behind `p`. */
  ghost predicate ParameterFor(n: Node, p: nat, name: seq<byte>, ty: ParamType, v: Node) {
    n.Box? && n.at == p && n.inner.Param? && n.inner.name.Str? && n.inner.name.text == name && n.inner.ty == ty && n.inner.value == v
  }

  /** A new box is no handle of old. */
  lemma NotYet(h: Heap, roots: set<Node>, leaked: set<nat>, b: Node)
    requires Forest(h, roots, leaked) && b.Box? && b.at !in h
    ensures b !in roots
  {
    if b in roots { RootFoot(roots, b); }
  }

  lemma ErasedParams(n: Node, n': Node)
    requires Erase(n) == Erase(n')
    ensures IsParams(n) <==> IsParams(n')
    ensures IsParam(n) <==> IsParam(n')
    ensures IsValue(n) <==> IsValue(n')
  {
    ErasedKind(n);
    ErasedKind(n');
    if n.Vec? && n'.Vec? {
      assert |n.items| == |EraseAll(n.items)| == |n'.items|;
      forall i | 0 <= i < |n.items|
        ensures IsParam(n.items[i]) <==> IsParam(n'.items[i])
      {
        assert Erase(n.items[i]) == EraseAll(n.items)[i] == Erase(n'.items[i]);
        ErasedKind(n.items[i]);
        ErasedKind(n'.items[i]);
      }
    }
  }

  /** The forest after trees went into a larger tree with new blocks. */
  lemma Extended(h: Heap, h': Heap, roots: set<Node>, leaked: set<nat>, gone: set<Node>, foot: set<nat>, n: Node, extra: set<nat>)
    requires Forest(h, roots, leaked) && gone <= roots && foot == FootOf(gone)
    requires IsHandle(n) && Single(n) && In(h', n) && Foot(n) == foot + extra
    requires Adds(h, h', extra)
    ensures Forest(h', roots - gone + {n}, leaked)
  {
    FootOfSplit(roots, gone);
    Replaced(h, h', roots, leaked, gone, foot, n);
  }
}
