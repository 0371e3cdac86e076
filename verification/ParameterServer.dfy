/** Parameter arrays handed over to the server and back (c/src/server.rs). */
module ParameterServer {
  import opened Wrappers
  import opened ParameterTree
  import opened ParameterHeap
  import opened ParameterNative
  import opened ParameterConversion
  import opened ParameterApi
  import Utf8

  datatype Server = NullServer | ClosedServer | OpenServer

  /** Names are text, and so are the strings in the values: the native types say so. */
  predicate AllProper(params: seq<Parameter>) {
    forall p <- params :: Utf8.Valid(p.name) && (p.value.Some? ==> Proper(p.value.value))
  }

  /** `from_raw(ptr).into_native()` of a whole array: the handle is gone, and with it all that was not leaked. */
  method TakeNative(lib: Library, p: nat, ghost r: Node) returns (ps: seq<Parameter>)
    requires lib.Valid() && p != 0 && lib.Holds(p, r) && IsParams(r.inner)
    modifies lib`roots, lib`leaked, lib.m
    ensures lib.Valid() && ps == ToParameters(r.inner.items)
    ensures lib.roots == old(lib.roots) - {r}
    ensures lib.leaked == old(lib.leaked) + Leaked(r) && lib.m.faults == old(lib.m.faults) + Misfits(r)
  {
    ghost var h := lib.m.heap;
    LeakedIsOwned(r.inner);
    FootOfOne(r);
    ps := IntoParametersBox(lib.m, p, r);
    Removed(h, lib.m.heap, lib.roots, lib.leaked, {r}, Leaked(r));
    lib.roots, lib.leaked := lib.roots - {r}, lib.leaked + Leaked(r);
  }

  method IntoParametersBox(m: Allocator, p: nat, ghost r: Node) returns (ps: seq<Parameter>)
    requires r.Box? && r.at == p && IsParams(r.inner) && Single(r) && In(m.heap, r)
    modifies m
    ensures ps == ToParameters(r.inner.items)
    ensures m.heap == old(m.heap) - (Foot(r) - Leaked(r)) && m.faults == old(m.faults) + Misfits(r)
  {
    LeakedIsOwned(r.inner);
    ps := IntoParameters(m, m.heap[p].cell, r.inner);
    m.Free(p, 1);
  }

  /** `foxglove_server_publish_parameter_values`: the array is consumed in any case. */
  method PublishParameterValues(lib: Library, server: Server, params: nat, ghost r: Node)
    returns (code: Code, published: Option<seq<Parameter>>)
    requires lib.Valid() && lib.Holds(params, r) && (params != 0 ==> IsParams(r.inner))
    modifies lib`roots, lib`leaked, lib.m
    ensures lib.Valid()
    ensures code == if params == 0 || server.NullServer? then ValueError else if server.ClosedServer? then SinkClosed else Success
    ensures lib.roots == if params == 0 then old(lib.roots) else old(lib.roots) - {r}
    ensures published == if code == Success then Some(ToParameters(r.inner.items)) else None
    ensures lib.leaked == old(lib.leaked) + if code == Success then Leaked(r) else {}
    ensures lib.m.faults == old(lib.m.faults) + if code == Success then Misfits(r) else 0
  {
    if params == 0 {
      return ValueError, None;
    }
    if server.NullServer? {
      lib.FreeHandle(params, r);
      return ValueError, None;
    }
    if server.ClosedServer? {
      lib.FreeHandle(params, r);
      return SinkClosed, None;
    }
    var ps := TakeNative(lib, params, r);
    return Success, Some(ps);
  }

  /** `on_get_parameters`: the callback's array is consumed; null stands for none. */
  method OnGetParameters(lib: Library, handled: bool, reply: nat, ghost rr: Node) returns (ps: seq<Parameter>)
    requires lib.Valid() && lib.Holds(reply, rr) && (reply != 0 ==> IsParams(rr.inner))
    modifies lib`roots, lib`leaked, lib.m
    ensures lib.Valid()
    ensures var taken := handled && reply != 0;
            && ps == (if taken then ToParameters(rr.inner.items) else [])
            && lib.roots == (if taken then old(lib.roots) - {rr} else old(lib.roots))
            && lib.leaked == old(lib.leaked) + (if taken then Leaked(rr) else {})
            && lib.m.faults == old(lib.m.faults) + (if taken then Misfits(rr) else 0)
  {
    if !handled || reply == 0 {
      return [];
    }
    ps := TakeNative(lib, reply, rr);
  }

  /**
   `on_set_parameters` up to the callback: without a handler there is nothing to do, and otherwise the callback is lent
   an array that says what the parameters say. The callback may then make any calls of its own.
   */
  method BeginSetParameters(lib: Library, handled: bool, params: seq<Parameter>) returns (lent: nat, ghost n: Node)
    requires lib.Valid()
    requires AllProper(params)
    modifies lib`roots, lib.m
    ensures lib.Valid() && lib.m.faults == old(lib.m.faults)
    ensures !handled ==> lent == 0 && lib.roots == old(lib.roots)
    ensures handled ==>
              && lent != 0 && n.Box? && n.at == lent && n !in old(lib.roots) && lib.roots == old(lib.roots) + {n}
              && IsParams(n.inner) && ToParameters(n.inner.items) == params && EraseAll(n.inner.items) == FromParameters(params)
  {
    lent, n := 0, Null;
    if handled {
      lent, n := Lend(lib, params);
    }
  }

  /**
   `on_set_parameters` after the callback, which has returned `reply`: takes the lent array back, and consumes the array
   that was returned, whether the callback made it before or after the other was lent.
   */
  method EndSetParameters(lib: Library, lent: nat, reply: nat, ghost n: Node, ghost rr: Node) returns (ps: seq<Parameter>)
    requires lib.Valid() && lib.Holds(lent, n) && lib.Holds(reply, rr)
    requires lent != 0 && reply != 0 ==> n != rr
    requires (lent != 0 ==> IsParams(n.inner)) && (reply != 0 ==> IsParams(rr.inner))
    modifies lib`roots, lib`leaked, lib.m
    ensures lib.Valid()
    ensures var taken := lent != 0 && reply != 0;
            && ps == (if taken then ToParameters(rr.inner.items) else [])
            && lib.roots == old(lib.roots) - (if lent != 0 then {n} else {}) - (if taken then {rr} else {})
            && lib.leaked == old(lib.leaked) + (if taken then Leaked(rr) else {})
            && lib.m.faults == old(lib.m.faults) + (if taken then Misfits(rr) else 0)
  {
    if lent == 0 {
      return [];
    }
    lib.FreeHandle(lent, n);
    ps := OnGetParameters(lib, true, reply, rr);
  }

  /** Builds the array that the callback is shown: it says what the native parameters say. */
  method Lend(lib: Library, params: seq<Parameter>) returns (p: nat, ghost n: Node)
    requires lib.Valid()
    requires AllProper(params)
    modifies lib`roots, lib.m
    ensures lib.Valid() && lib.m.faults == old(lib.m.faults)
    ensures p != 0 && n.Box? && n.at == p && n !in old(lib.roots) && lib.roots == old(lib.roots) + {n}
    ensures IsParams(n.inner) && ToParameters(n.inner.items) == params && EraseAll(n.inner.items) == FromParameters(params)
  {
    ghost var h := lib.m.heap;
    var c; ghost var v;
    c, v := FromAllParameters(lib.m, params);
    FootIsAllocated(lib.m.heap, v);
    p, n := lib.m.NewBox(c, v);
    LentParameters(params, v);
    Added(h, lib.m.heap, lib.roots, lib.leaked, n);
    NotYet(h, lib.roots, lib.leaked, n);
    lib.roots := lib.roots + {n};
  }

  lemma {:induction false} LentParameters(params: seq<Parameter>, v: Node)
    requires AllProper(params)
    requires v.Vec? && v.kind == Params
    requires EraseAll(v.items) == FromParameters(params)
    ensures IsParams(v) && ToParameters(v.items) == params
  {
    assert |v.items| == |EraseAll(v.items)| == |params|;
    forall i | 0 <= i < |v.items|
      ensures IsParam(v.items[i]) && ToParameter(v.items[i]) == params[i]
    {
      assert Erase(v.items[i]) == EraseAll(v.items)[i] == FromParameter(params[i]);
      ParameterConvertsBack(params[i], v.items[i]);
    }
  }

  /** A parameter that was built from a native one converts back to it. */
  lemma ParameterConvertsBack(p: Parameter, n: Node)
    requires p.value.Some? ==> Proper(p.value.value)
    requires Erase(n) == FromParameter(p)
    ensures IsParam(n) && ToParameter(n) == p
  {
    RoundTripParameter(p);
    ErasedKind(n);
    if p.value.Some? {
      BuiltConvertsBack(p.value.value, n.value.inner);
    }
  }
}
