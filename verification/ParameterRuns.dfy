/** Whole runs of a C program that builds, moves, clones, frees and publishes parameters, and serves them (c/src). */
module ParameterRuns {
  import opened Wrappers
  import opened CStrings
  import opened ParameterTree
  import opened ParameterNative
  import opened ParameterConversion
  import opened ParameterApi
  import opened ParameterServer
  import opened ParameterModel

  /** A pointer of the program; it is null once it has been given up. */
  datatype Handle = Handle(p: nat, ty: HandleType)

  /** The trees that a pointer of this type can stand for. */
  predicate Fits(ty: HandleType, n: Node) {
    match ty
    case ValueHandle => IsValue(n)
    case ArrayHandle => IsValue(n) && n.Vec? && n.kind == Array
    case DictHandle => IsValue(n) && n.Vec? && n.kind == Dict
    case ParameterHandle => IsParam(n)
    case ParametersHandle => IsParams(n)
    case LentHandle => IsParams(n)
  }

  /** The pointer at `i` is null now. */
  function Nulled(hs: seq<Handle>, i: nat): seq<Handle> {
    if i < |hs| then hs[i := hs[i].(p := 0)] else hs
  }

  /** The tree `n` belongs to the pointer `h`. */
  ghost predicate Owns(h: Handle, n: Node) {
    h.p != 0 ==> n.Box? && n.at == h.p && Fits(h.ty, n.inner)
  }

  /** The trees of the pointers are all that the library knows, and no two pointers share one. */
  ghost predicate Tracks(hs: seq<Handle>, ns: seq<Node>, roots: set<Node>) {
    && |ns| == |hs|
    && (forall i | 0 <= i < |hs| :: Owns(hs[i], ns[i]))
    && (forall i, j | 0 <= i < j < |hs| && hs[i].p != 0 :: hs[i].p != hs[j].p)
    && (forall i | 0 <= i < |hs| && hs[i].p != 0 :: ns[i] in roots)
    && (forall r | r in roots :: exists i :: 0 <= i < |hs| && hs[i].p != 0 && ns[i] == r)
  }

  lemma {:induction false} TracksMore(hs: seq<Handle>, ns: seq<Node>, roots: set<Node>, h: Handle, n: Node)
    requires Tracks(hs, ns, roots) && Owns(h, n)
    requires h.p != 0 ==> forall i | 0 <= i < |hs| :: hs[i].p != h.p
    ensures Tracks(hs + [h], ns + [n], if h.p == 0 then roots else roots + {n})
  {
    var hs', ns' := hs + [h], ns + [n];
    forall r | r in roots
      ensures exists i :: 0 <= i < |hs'| && hs'[i].p != 0 && ns'[i] == r
    {
      var i :| 0 <= i < |hs| && hs[i].p != 0 && ns[i] == r;
      assert hs'[i].p != 0 && ns'[i] == r;
    }
    if h.p != 0 {
      assert hs'[|hs|].p != 0 && ns'[|hs|] == n;
    }
  }

  /** The pointer at `i` has another tree now, or none. */
  lemma TracksChange(hs: seq<Handle>, ns: seq<Node>, roots: set<Node>, i: nat, h: Handle, n: Node)
    requires Tracks(hs, ns, roots) && i < |hs| && hs[i].p != 0 && Owns(h, n) && h.p in {0, hs[i].p}
    ensures Tracks(hs[i := h], ns[i := n], if h.p == 0 then roots - {ns[i]} else roots - {ns[i]} + {n})
  {
    var hs', ns' := hs[i := h], ns[i := n];
    forall r | r in roots - {ns[i]}
      ensures exists j :: 0 <= j < |hs'| && hs'[j].p != 0 && ns'[j] == r
    {
      var j :| 0 <= j < |hs| && hs[j].p != 0 && ns[j] == r;
      assert hs'[j].p != 0 && ns'[j] == r;
    }
    if h.p != 0 {
      assert hs'[i].p != 0 && ns'[i] == n;
    }
    forall j | 0 <= j < |hs| && j != i && hs[j].p != 0
      ensures ns[j] != ns[i]
    {
      assert Owns(hs[j], ns[j]) && Owns(hs[i], ns[i]);
    }
  }

  /** Handles at the same address are the same. */
  lemma AddressIsUnique(h: Heap, roots: set<Node>, leaked: set<nat>, r: Node, s: Node)
    requires Forest(h, roots, leaked) && r in roots && s in roots && r.Box? && s.Box? && r.at == s.at
    ensures r == s
  {
  }

  /** What a pointer stands for. */
  ghost function SlotOf(h: Handle, n: Node): Slot {
    Slot(h.ty, if h.p != 0 && n.Box? then Some(Erase(n.inner)) else None)
  }

  ghost function SlotsOf(hs: seq<Handle>, ns: seq<Node>): seq<Slot> {
    seq(|hs|, i requires 0 <= i < |hs| => SlotOf(hs[i], if i < |ns| then ns[i] else Null))
  }

  lemma SlotsMore(hs: seq<Handle>, ns: seq<Node>, h: Handle, n: Node)
    requires |hs| == |ns|
    ensures SlotsOf(hs + [h], ns + [n]) == SlotsOf(hs, ns) + [SlotOf(h, n)]
  {
    hide SlotOf;
  }

  lemma SlotsChange(hs: seq<Handle>, ns: seq<Node>, i: nat, h: Handle, n: Node)
    requires i < |hs| == |ns|
    ensures SlotsOf(hs[i := h], ns[i := n]) == SlotsOf(hs, ns)[i := SlotOf(h, n)]
  {
    hide SlotOf;
  }

  /** One more element is one more in the tree without addresses. */
  lemma ErasedSnoc(v: Node, v': Node, e: Node)
    requires v.Vec? && v'.Vec? && v'.kind == v.kind && v'.items == v.items + [e]
    ensures Erase(v') == Vec(v.kind, 0, 0, EraseAll(v.items) + [Erase(e)])
  {
    EraseAllSnoc(v.items, e);
  }

  /** The native form of an array does not depend on addresses. */
  lemma ErasedList(n: Node)
    requires IsParams(n)
    ensures IsParams(Erase(n)) && ToParameters(Erase(n).items) == ToParameters(n.items)
  {
    forall i | 0 <= i < |n.items|
      ensures IsParam(Erase(n.items[i])) && ToParameter(Erase(n.items[i])) == ToParameter(n.items[i])
    {
      ErasedKind(n.items[i]);
      if n.items[i].value.Box? {
        ErasedConverts(n.items[i].value.inner);
      }
    }
  }

  /** What is leaked and misfreed is exactly what the conversion of the arrays that the server has taken does. */
  ghost predicate Accounted(leaked: set<nat>, faults: nat, taken: seq<Node>) {
    leaked == LeakedAll(taken) && faults == MisfitsAll(taken) && forall i | 0 <= i < |taken| :: Single(taken[i])
  }

  lemma {:induction false} AccountedMore(leaked: set<nat>, faults: nat, taken: seq<Node>, n: Node)
    requires Accounted(leaked, faults, taken) && Single(n)
    ensures Accounted(leaked + Leaked(n), faults + Misfits(n), taken + [n])
  {
    hide Leaked, Misfits, LeakedAll, MisfitsAll, Single;
    LeakedAllSnoc(taken, n);
  }

  lemma {:induction false} CleanIffAllFit(leaked: set<nat>, faults: nat, taken: seq<Node>)
    requires Accounted(leaked, faults, taken)
    ensures leaked == {} && faults == 0 <==> forall i | 0 <= i < |taken| :: ExactFit(taken[i])
  {
    hide Leaked, Misfits, LeakedAll, MisfitsAll, Single, ExactFit;
    AllCleanIffExactFit(taken);
  }

  /** A program that keeps all of its pointers, and nulls those that it has given up. */
  class Program {
    const lib: Library
    var handles: seq<Handle>
    ghost var nodes: seq<Node>
    // the parameters that the server was given, call by call
    var given: seq<seq<Parameter>>
    // the arrays that it has taken, in order
    ghost var taken: seq<Node>

    ghost predicate Valid()
      reads this, lib, lib.m
    {
      && lib.Valid() && |nodes| == |handles| && Tracks(handles, nodes, lib.roots)
      && Accounted(lib.leaked, lib.m.faults, taken)
    }

    constructor ()
      ensures Valid() && handles == [] && given == [] && taken == [] && fresh(lib) && fresh(lib.m)
    {
      lib := new Library();
      handles, nodes, given, taken := [], [], [], [];
    }

    /** The program as a value. */
    ghost function View(): World
      reads this
    {
      World(SlotsOf(handles, nodes), given)
    }

    /** The pointer at `i`, if it has this type; a call with any other does not compile. */
    function At(i: nat, ty: HandleType): nat
      reads this
    {
      if i < |handles| && handles[i].ty == ty then handles[i].p else 0
    }

    ghost function NodeAt(i: nat): Node
      reads this
    {
      if i < |nodes| then nodes[i] else Null
    }

    /** What the library asks of a pointer that it is given. */
    lemma PointerIsHeld(i: nat, ty: HandleType)
      requires Valid()
      ensures At(i, ty) != 0 ==>
                i < |handles| && lib.Holds(At(i, ty), NodeAt(i)) && NodeAt(i) in lib.roots && Fits(ty, NodeAt(i).inner)
      ensures View().At(i, ty) == if At(i, ty) == 0 then None else Some(Erase(NodeAt(i).inner))
    {
      if At(i, ty) != 0 {
        assert Owns(handles[i], nodes[i]);
      }
    }

    /** Pointers of different types have different trees. */
    lemma PointersDiffer(i: nat, ti: HandleType, j: nat, tj: HandleType)
      requires Valid() && ti != tj && At(i, ti) != 0 && At(j, tj) != 0
      ensures i < |handles| && j < |handles| && i != j && NodeAt(i) != NodeAt(j)
    {
      assert Owns(handles[i], nodes[i]) && Owns(handles[j], nodes[j]);
    }

    /** The tree of an array that the call gives to a server that takes it. */
    ghost function Taken(call: Call): seq<Node>
      reads this
    {
      match call
      case Publish(server, i) => if server.OpenServer? && At(i, ParametersHandle) != 0 then [NodeAt(i)] else []
      case GetParameters(handled, i) => if handled && At(i, ParametersHandle) != 0 then [NodeAt(i)] else []
      case EndSetParameters(lent, i) =>
        if At(lent, LentHandle) != 0 && At(i, ParametersHandle) != 0 then [NodeAt(i)] else []
      case _ => []
    }

    /** Keeps what a call has returned; `roots` are the other trees. */
    method Keep(p: nat, ty: HandleType, ghost n: Node, ghost roots: set<Node>)
      requires lib.Valid() && |nodes| == |handles| && Tracks(handles, nodes, roots) && Accounted(lib.leaked, lib.m.faults, taken)
      requires p == 0 ==> lib.roots == roots
      requires p != 0 ==> lib.roots == roots + {n} && n !in roots && n.Box? && n.at == p && Fits(ty, n.inner)
      modifies this`handles, this`nodes
      ensures Valid() && handles == old(handles) + [Handle(p, ty)]
      ensures View() == old(View()).With(ty, if p == 0 then None else Some(Erase(n.inner)))
    {
      hide Forest, Fits, Accounted;
      forall i | 0 <= i < |handles| && p != 0
        ensures handles[i].p != p
      {
        if handles[i].p == p {
          assert Owns(handles[i], nodes[i]);
          AddressIsUnique(lib.m.heap, lib.roots, lib.leaked, nodes[i], n);
        }
      }
      TracksMore(handles, nodes, roots, Handle(p, ty), n);
      SlotsMore(handles, nodes, Handle(p, ty), n);
      handles, nodes := handles + [Handle(p, ty)], nodes + [n];
    }

    /** Nulls a pointer whose tree the library has taken. */
    method Forget(i: nat, ghost roots: set<Node>)
      requires |nodes| == |handles| && Tracks(handles, nodes, roots) && i < |handles| && handles[i].p != 0
      modifies this`handles, this`nodes
      ensures handles == Nulled(old(handles), i) && nodes == old(nodes)
      ensures |nodes| == |handles| && Tracks(handles, nodes, roots - {nodes[i]}) && View() == old(View()).Without(i)
    {
      TracksChange(handles, nodes, roots, i, handles[i].(p := 0), nodes[i]);
      SlotsChange(handles, nodes, i, handles[i].(p := 0), nodes[i]);
      assert nodes[i := nodes[i]] == nodes;
      handles := handles[i := handles[i].(p := 0)];
    }

    /** The pointer stays, and its tree has changed. */
    ghost method Retrack(i: nat, n: Node, roots: set<Node>)
      requires |nodes| == |handles| && Tracks(handles, nodes, roots) && i < |handles| && handles[i].p != 0 && Owns(handles[i], n)
      modifies this`nodes
      ensures nodes == old(nodes)[i := n] && |nodes| == |handles| && Tracks(handles, nodes, roots - {old(nodes)[i]} + {n})
      ensures View() == old(View()).(slots := old(View()).slots[i := SlotOf(handles[i], n)])
    {
      TracksChange(handles, nodes, roots, i, handles[i], n);
      SlotsChange(handles, nodes, i, handles[i], n);
      nodes := nodes[i := n];
      assert handles[i := handles[i]] == handles;
    }

    method Create(s: Scalar)
      requires Valid()
      modifies this`handles, this`nodes, lib`roots, lib.m
      ensures Valid() && lib.m.faults == old(lib.m.faults)
      ensures View() == old(View()).Step(Call.CreateScalar(s))
      ensures |handles| == |old(handles)| + 1 && handles[..|old(handles)|] == old(handles)
    {
      hide Forest, Tracks, Accounted;
      ghost var roots := lib.roots;
      var p := lib.ValueCreate(s);
      Keep(p, ValueHandle, Box(p, Leaf(s)), roots);
    }

    method CreateString(out: bool, text: FoxgloveString)
      requires Valid() && text.Valid()
      modifies this`handles, this`nodes, lib`roots, lib.m
      ensures Valid() && lib.m.faults == old(lib.m.faults)
      ensures View() == old(View()).Step(Call.CreateString(out, text))
      ensures |handles| == |old(handles)| + 1 && handles[..|old(handles)|] == old(handles)
    {
      hide Forest, Tracks, Accounted;
      ghost var roots := lib.roots;
      var code, p; ghost var n;
      code, p, n := lib.ValueCreateString(out, text);
      Keep(if code == Success then p else 0, ValueHandle, n, roots);
    }

    method CreateVec(ty: HandleType, capacity: nat)
      requires Valid() && ty in {ArrayHandle, DictHandle, ParametersHandle}
      modifies this`handles, this`nodes, lib`roots, lib.m
      ensures Valid() && lib.m.faults == old(lib.m.faults)
      ensures View() == old(View()).Step(Call.CreateVec(ty, capacity))
      ensures |handles| == |old(handles)| + 1 && handles[..|old(handles)|] == old(handles)
    {
      hide Forest, Tracks, Accounted;
      ghost var roots := lib.roots;
      var p; ghost var n;
      p, n := lib.VecCreate(KindOf(ty), capacity);
      assert EraseAll(n.inner.items) == [];
      Keep(p, ty, n, roots);
    }

    /** An array or a dict moves into a value. */
    method ToValue(i: nat, ty: HandleType)
      requires Valid() && ty in {ArrayHandle, DictHandle} && i < |handles| && handles[i].ty == ty
      modifies this`handles, this`nodes, lib`roots, lib.m
      ensures Valid() && lib.m.faults == old(lib.m.faults)
      ensures View() == old(View()).Step(Call.ToValue(i))
      ensures old(At(i, ty)) == 0 ==> handles == old(handles)
      ensures old(At(i, ty)) != 0 ==>
                && i < |old(handles)| == |handles| - 1
                && handles[..|old(handles)|] == Nulled(old(handles), i)
    {
      hide Forest, Tracks, Accounted;
      PointerIsHeld(i, ty);
      if At(i, ty) != 0 {
        ghost var roots, r := lib.roots, NodeAt(i);
        var p := lib.ValueFromVec(handles[i].p, r);
        Forget(i, roots);
        Keep(p, ValueHandle, Box(p, r.inner), roots - {r});
      }
    }

    /** The element is given up, and its tree is in the vector, if there is one. */
    method Push(vec: nat, elem: nat, ty: HandleType)
      requires Valid() && ty in {ArrayHandle, ParametersHandle} && vec < |handles| && handles[vec].ty == ty
      modifies this`handles, this`nodes, lib`roots, lib.m
      ensures Valid() && lib.m.faults == old(lib.m.faults)
      ensures View() == old(View()).Step(Call.Push(vec, elem))
      ensures handles == if old(At(elem, ElementOf(ty))) == 0 then old(handles)
                         else Nulled(old(handles), elem)
    {
      hide Forest, Tracks, Accounted;
      PointerIsHeld(vec, ty);
      PointerIsHeld(elem, ElementOf(ty));
      ghost var roots, rv, re := lib.roots, NodeAt(vec), NodeAt(elem);
      var v, e := At(vec, ty), At(elem, ElementOf(ty));
      if v != 0 && e != 0 {
        PointersDiffer(vec, ty, elem, ElementOf(ty));
      }
      var code; ghost var n;
      code, n := lib.VecPush(v, e, rv, re);
      if e != 0 {
        Forget(elem, roots);
        if v != 0 {
          PushedFits(ty, rv.inner, n.inner, re.inner);
          ErasedSnoc(rv.inner, n.inner, re.inner);
          Retrack(vec, n, roots - {re});
          assert roots - {re} - {rv} + {n} == roots - {rv, re} + {n};
        }
      }
    }

    /** The value is given up, and its tree is the last entry of the dict, if there is one and the key is text. */
    method Insert(dict: nat, key: FoxgloveString, value: nat)
      requires Valid() && key.Valid()
      modifies this`handles, this`nodes, lib`roots, lib.m
      ensures Valid() && lib.m.faults == old(lib.m.faults)
      ensures View() == old(View()).Step(Call.Insert(dict, key, value))
      ensures handles == if old(At(value, ValueHandle)) == 0 then old(handles)
                         else Nulled(old(handles), value)
    {
      hide Forest, Tracks, Accounted;
      PointerIsHeld(dict, DictHandle);
      PointerIsHeld(value, ValueHandle);
      ghost var roots, rd, rv := lib.roots, NodeAt(dict), NodeAt(value);
      var d, v := At(dict, DictHandle), At(value, ValueHandle);
      if d != 0 && v != 0 {
        PointersDiffer(dict, DictHandle, value, ValueHandle);
      }
      var code; ghost var n;
      code, n := lib.DictInsert(d, key, v, rd, rv);
      if v != 0 {
        Forget(value, roots);
        if code == Success {
          InsertedFits(rd.inner, n.inner, key.AsUtf8().value, rv);
          ErasedEntry(rd.inner, n.inner, key.AsUtf8().value, rv);
          Retrack(dict, n, roots - {rv});
          assert roots - {rv} - {rd} + {n} == roots - {rd, rv} + {n};
        }
      }
    }

    /** The value is given up, and its tree is in the new parameter, if there is one. */
    method CreateParameter(out: bool, name: FoxgloveString, paramType: ParamType, value: nat)
      requires Valid() && name.Valid()
      modifies this`handles, this`nodes, lib`roots, lib.m
      ensures Valid() && lib.m.faults == old(lib.m.faults)
      ensures View() == old(View()).Step(Call.CreateParameter(out, name, paramType, value))
      ensures |handles| == |old(handles)| + 1
      ensures handles[..|old(handles)|] == if old(At(value, ValueHandle)) == 0 then old(handles)
                                           else Nulled(old(handles), value)
    {
      hide Forest, Tracks, Accounted;
      PointerIsHeld(value, ValueHandle);
      ghost var roots, rv := lib.roots, NodeAt(value);
      var v := At(value, ValueHandle);
      var code, p; ghost var n;
      code, p, n := lib.ParameterCreate(out, name, paramType, v, rv);
      if v != 0 {
        Forget(value, roots);
        roots := roots - {rv};
      }
      Keep(if code == Success then p else 0, ParameterHandle, n, roots);
    }

    /** A value or a parameter is cloned; both pointers are good from then on. */
    method Clone(i: nat, ty: HandleType)
      requires Valid() && ty in {ValueHandle, ParameterHandle} && i < |handles| && handles[i].ty == ty
      modifies this`handles, this`nodes, lib`roots, lib.m
      ensures Valid() && lib.m.faults == old(lib.m.faults)
      ensures View() == old(View()).Step(Call.Clone(i))
      ensures |handles| == |old(handles)| + 1 && handles[..|old(handles)|] == old(handles)
    {
      hide Forest, Tracks, Accounted;
      PointerIsHeld(i, ty);
      ghost var roots, r := lib.roots, NodeAt(i);
      var q; ghost var n;
      q, n := lib.CloneHandle(At(i, ty), r);
      if q != 0 {
        ErasedParams(r.inner, n.inner);
        assert n.at in Foot(n);
      }
      Keep(q, ty, n, roots);
    }

    /** The `_free` functions. */
    method Free(i: nat, ty: HandleType)
      requires Valid() && i < |handles| && handles[i].ty == ty != LentHandle
      modifies this`handles, this`nodes, lib`roots, lib.m
      ensures Valid() && lib.m.faults == old(lib.m.faults)
      ensures View() == old(View()).Step(Call.Free(i))
      ensures handles == if old(At(i, ty)) == 0 then old(handles) else Nulled(old(handles), i)
    {
      hide Forest, Tracks, Accounted;
      PointerIsHeld(i, ty);
      ghost var roots := lib.roots;
      if At(i, ty) != 0 {
        lib.FreeHandle(handles[i].p, NodeAt(i));
        Forget(i, roots);
      }
    }

    // ----- servers -----

    /** The tree of a pointer has no block twice. */
    lemma PointerIsSingle(i: nat, ty: HandleType)
      requires Valid()
      ensures At(i, ty) != 0 ==> Single(NodeAt(i))
    {
    }

    /** A parameter array is given up to the server, open or not. */
    method Publish(server: Server, i: nat)
      requires Valid()
      modifies this, lib`roots, lib`leaked, lib.m
      ensures Valid() && taken == old(taken) + old(Taken(Call.Publish(server, i)))
      ensures View() == old(View()).Step(Call.Publish(server, i))
      ensures handles == if old(At(i, ParametersHandle)) == 0 then old(handles)
                         else Nulled(old(handles), i)
    {
      hide Forest, Tracks, Accounted, Leaked, Misfits, Single;
      PointerIsHeld(i, ParametersHandle);
      PointerIsSingle(i, ParametersHandle);
      ghost var roots, r, leaked, faults := lib.roots, NodeAt(i), lib.leaked, lib.m.faults;
      var p := At(i, ParametersHandle);
      var code, published := PublishParameterValues(lib, server, p, r);
      assert code != Success ==> lib.leaked == leaked;
      if p != 0 {
        Forget(i, roots);
        if code == Success {
          AccountedMore(leaked, faults, taken, r);
          ErasedList(r.inner);
          given, taken := given + [published.value], taken + [r];
        }
      }
    }

    /** The server asks for parameters; what the program's callback returns is given up. */
    method GetParameters(handled: bool, i: nat)
      requires Valid()
      modifies this, lib`roots, lib`leaked, lib.m
      ensures Valid() && taken == old(taken) + old(Taken(Call.GetParameters(handled, i)))
      ensures View() == old(View()).Step(Call.GetParameters(handled, i))
      ensures handles == if !handled || old(At(i, ParametersHandle)) == 0 then old(handles)
                         else Nulled(old(handles), i)
    {
      hide Forest, Tracks, Accounted, Leaked, Misfits, Single;
      PointerIsHeld(i, ParametersHandle);
      PointerIsSingle(i, ParametersHandle);
      ghost var roots, r, leaked, faults := lib.roots, NodeAt(i), lib.leaked, lib.m.faults;
      var p := At(i, ParametersHandle);
      var ps := OnGetParameters(lib, handled, p, r);
      assert !handled || p == 0 ==> lib.leaked == leaked;
      if handled && p != 0 {
        Forget(i, roots);
        AccountedMore(leaked, faults, taken, r);
        ErasedList(r.inner);
        taken := taken + [r];
      }
      given := given + [ps];
    }

    /** The server sets parameters: the program's callback, if there is one, is lent an array. */
    method BeginSetParameters(handled: bool, native: seq<Parameter>)
      requires Valid() && AllProper(native)
      modifies this`handles, this`nodes, lib`roots, lib.m
      ensures Valid() && lib.m.faults == old(lib.m.faults)
      ensures View() == old(View()).Step(Call.BeginSetParameters(handled, native))
      ensures |handles| == |old(handles)| + 1 && handles[..|old(handles)|] == old(handles)
      ensures handles[|old(handles)|].ty == LentHandle && (handles[|old(handles)|].p != 0 <==> handled)
    {
      hide Forest, Tracks, Accounted;
      ghost var roots := lib.roots;
      var p; ghost var n;
      p, n := ParameterServer.BeginSetParameters(lib, handled, native);
      Keep(p, LentHandle, n, roots);
    }

    /** The callback returns an array: it is given up, and so is the one that was lent. */
    method EndSetParameters(lent: nat, i: nat)
      requires Valid()
      modifies this, lib`roots, lib`leaked, lib.m
      ensures Valid() && taken == old(taken) + old(Taken(Call.EndSetParameters(lent, i)))
      ensures View() == old(View()).Step(Call.EndSetParameters(lent, i))
      ensures handles == if old(At(lent, LentHandle)) == 0 then old(handles)
                         else var hs := Nulled(old(handles), lent);
                              if old(At(i, ParametersHandle)) == 0 then hs else Nulled(hs, i)
    {
      hide Forest, Tracks, Accounted, Leaked, Misfits, Single;
      PointerIsHeld(lent, LentHandle);
      PointerIsHeld(i, ParametersHandle);
      PointerIsSingle(i, ParametersHandle);
      ghost var roots, n, r, leaked, faults := lib.roots, NodeAt(lent), NodeAt(i), lib.leaked, lib.m.faults;
      var l, p := At(lent, LentHandle), At(i, ParametersHandle);
      if l != 0 && p != 0 {
        PointersDiffer(lent, LentHandle, i, ParametersHandle);
      }
      var ps := ParameterServer.EndSetParameters(lib, l, p, n, r);
      assert l == 0 || p == 0 ==> lib.leaked == leaked && lib.roots == if l == 0 then roots else roots - {n};
      if l != 0 {
        Forget(lent, roots);
        if p != 0 {
          Forget(i, roots - {n});
          AccountedMore(leaked, faults, taken, r);
          ErasedList(r.inner);
          taken := taken + [r];
        }
      }
      given := given + [ps];
    }

    /** Makes one call, if it compiles. */
    method Make(call: Call)
      requires Valid() && call.Valid()
      modifies this, lib`roots, lib`leaked, lib.m
      ensures Valid() && taken == old(taken) + old(Taken(call))
      ensures View() == old(View()).Step(call)
    {
      hide Forest, Tracks, Fits, Accounted;
      match call
      case CreateScalar(s) => Create(s);
      case CreateString(out, text) => CreateString(out, text);
      case CreateVec(ty, capacity) => CreateVec(ty, capacity);
      case ToValue(i) => if i < |handles| && handles[i].ty in {ArrayHandle, DictHandle} { ToValue(i, handles[i].ty); }
      case Push(vec, elem) =>
        if vec < |handles| && handles[vec].ty in {ArrayHandle, ParametersHandle} { Push(vec, elem, handles[vec].ty); }
      case Insert(dict, key, value) => Insert(dict, key, value);
      case CreateParameter(out, name, paramType, value) => CreateParameter(out, name, paramType, value);
      case Clone(i) => if i < |handles| && handles[i].ty in {ValueHandle, ParameterHandle} { Clone(i, handles[i].ty); }
      case Free(i) => if i < |handles| && handles[i].ty != LentHandle { Free(i, handles[i].ty); }
      case Publish(server, i) => Publish(server, i);
      case GetParameters(handled, i) => GetParameters(handled, i);
      case BeginSetParameters(handled, native) => BeginSetParameters(handled, native);
      case EndSetParameters(lent, i) => EndSetParameters(lent, i);
    }

    /**
     Every run, of any calls in any order: each live block has exactly one owner among the pointers, unless it was leaked.
     What is leaked, and how often a buffer is freed with a wrong size, is exactly what converting the arrays does that
     the server has taken: nothing, if and only if all of their value arrays were exactly full.
     */
    method Run(calls: seq<Call>)
      requires Valid() && AllValid(calls)
      modifies this, lib`roots, lib`leaked, lib.m
      ensures Valid() && View() == Replay(old(View()), calls)
      ensures forall a | a in lib.m.heap && a !in lib.leaked :: exists i :: OnlyOwner(handles, nodes, i, a)
      ensures (forall i | 0 <= i < |handles| :: handles[i].p == 0) ==> lib.m.heap.Keys == lib.leaked
      ensures lib.leaked == LeakedAll(taken) && lib.m.faults == MisfitsAll(taken)
      ensures lib.leaked == {} && lib.m.faults == 0 <==> forall i | 0 <= i < |taken| :: ExactFit(taken[i])
      ensures |old(taken)| <= |taken| && taken[..|old(taken)|] == old(taken)
      ensures (forall c <- calls :: !c.Publish? && !c.GetParameters? && !c.EndSetParameters?) ==> taken == old(taken)
    {
      hide Forest, Tracks, Accounted, ExactFit, LeakedAll, MisfitsAll;
      for i := 0 to |calls|
        invariant Valid() && View() == Replay(old(View()), calls[..i])
        invariant |old(taken)| <= |taken| && taken[..|old(taken)|] == old(taken)
        invariant (forall c <- calls[..i] :: !c.Publish? && !c.GetParameters? && !c.EndSetParameters?) ==> taken == old(taken)
      {
        assert calls[..i + 1] == calls[..i] + [calls[i]] && calls[..i + 1][..i] == calls[..i];
        assert calls[i] in calls[..i + 1];
        Make(calls[i]);
      }
      assert calls[..|calls|] == calls;
      AccountIs(lib.leaked, lib.m.faults, taken);
      CleanIffAllFit(lib.leaked, lib.m.faults, taken);
      PointersOwn(lib.m.heap, lib.leaked, handles, nodes, lib.roots);
    }
  }

  lemma AccountIs(leaked: set<nat>, faults: nat, taken: seq<Node>)
    requires Accounted(leaked, faults, taken)
    ensures leaked == LeakedAll(taken) && faults == MisfitsAll(taken)
  {
  }

  /** The block belongs to the tree of the pointer at `i`, and to no other. */
  ghost predicate OnlyOwner(hs: seq<Handle>, ns: seq<Node>, i: int, a: nat)
    requires |hs| == |ns|
  {
    && 0 <= i < |hs| && hs[i].p != 0 && a in Foot(ns[i])
    && forall j | 0 <= j < |hs| && hs[j].p != 0 && a in Foot(ns[j]) :: j == i
  }

  /** What the forest means for the pointers. */
  lemma PointersOwn(h: Heap, leaked: set<nat>, hs: seq<Handle>, ns: seq<Node>, roots: set<Node>)
    requires Forest(h, roots, leaked) && Tracks(hs, ns, roots)
    ensures forall a | a in h && a !in leaked :: exists i :: OnlyOwner(hs, ns, i, a)
    ensures (forall i | 0 <= i < |hs| :: hs[i].p == 0) ==> h.Keys == leaked
  {
    forall a | a in h && a !in leaked
      ensures exists i :: OnlyOwner(hs, ns, i, a)
    {
      var r :| r in roots && a in Foot(r);
      var i :| 0 <= i < |hs| && hs[i].p != 0 && ns[i] == r;
      forall j | 0 <= j < |hs| && hs[j].p != 0 && a in Foot(ns[j])
        ensures j == i
      {
        assert Owns(hs[i], ns[i]) && Owns(hs[j], ns[j]);
      }
      assert OnlyOwner(hs, ns, i, a);
    }
    if forall i | 0 <= i < |hs| :: hs[i].p == 0 {
      assert roots == {};
    }
  }

  lemma ErasedEntry(d: Node, d': Node, key: seq<byte>, v: Node)
    requires d.Vec? && d'.Vec? && d'.kind == d.kind && v.Box?
    requires |d'.items| == |d.items| + 1 && d'.items[..|d.items|] == d.items && EntryFor(d'.items[|d.items|], key, v)
    ensures Erase(d') == Vec(d.kind, 0, 0, EraseAll(d.items) + [Entry(Str(0, key), Box(0, Erase(v.inner)))])
  {
    assert d'.items == d.items + [d'.items[|d.items|]];
    ErasedSnoc(d, d', d'.items[|d.items|]);
  }

  lemma InsertedFits(d: Node, d': Node, key: seq<byte>, v: Node)
    requires Fits(DictHandle, d) && d'.Vec? && d'.kind == Dict && v.Box? && IsValue(v.inner)
    requires |d'.items| == |d.items| + 1 && d'.items[..|d.items|] == d.items && EntryFor(d'.items[|d.items|], key, v)
    ensures Fits(DictHandle, d')
  {
    assert forall i | 0 <= i < |d.items| :: d'.items[i] == d'.items[..|d.items|][i];
  }

  lemma PushedFits(ty: HandleType, v: Node, v': Node, e: Node)
    requires ty in {ArrayHandle, ParametersHandle} && Fits(ty, v) && v.Vec? && v'.Vec?
    requires v'.kind == v.kind && v'.items == v.items + [e] && Fits(ElementOf(ty), e)
    ensures Fits(ty, v')
  {
    AcceptsKeepsKind(v, v', e);
  }
}
