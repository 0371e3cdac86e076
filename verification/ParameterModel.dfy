/** What the calls of a parameter program mean, without a heap: values in slots, and the parameters that the server gets. */
module ParameterModel {
  import opened Wrappers
  import opened CStrings
  import opened ParameterTree
  import opened ParameterNative
  import opened ParameterConversion
  import opened ParameterServer

  /** The C types of handles, which the C compiler checks. What is lent is a pointer to const, and cannot be given up. */
  datatype HandleType = ValueHandle | ArrayHandle | DictHandle | ParameterHandle | ParametersHandle | LentHandle

  function KindOf(ty: HandleType): VecKind {
    match ty
    case DictHandle => Dict
    case ParametersHandle => Params
    case _ => Array
  }

  /** The type of the elements that can be pushed. */
  function ElementOf(ty: HandleType): HandleType {
    if ty == ParametersHandle then ParameterHandle else ValueHandle
  }

  /** One call; handles are given by their places among the program's pointers. */
  datatype Call =
    | CreateScalar(scalar: Scalar)
    | CreateString(out: bool, text: FoxgloveString)
    | CreateVec(ty: HandleType, capacity: nat)
    | ToValue(vec: nat)
    | Push(vec: nat, elem: nat)
    | Insert(dict: nat, key: FoxgloveString, value: nat)
    | CreateParameter(out: bool, name: FoxgloveString, paramType: ParamType, value: nat)
    | Clone(handle: nat)
    | Free(handle: nat)
    | Publish(server: Server, params: nat)
    | GetParameters(handled: bool, reply: nat)
    | BeginSetParameters(handled: bool, native: seq<Parameter>)
    | EndSetParameters(lent: nat, reply: nat)
  {
    predicate Valid() {
      match this
      case CreateString(_, text) => text.Valid()
      case CreateVec(ty, _) => ty in {ArrayHandle, DictHandle, ParametersHandle}
      case Insert(_, key, _) => key.Valid()
      case CreateParameter(_, name, _, _) => name.Valid()
      case BeginSetParameters(_, native) => AllProper(native)
      case _ => true
    }
  }

  /** A pointer of the program as a value: what it stands for, without addresses and capacities, or nothing if it is null. */
  datatype Slot = Slot(ty: HandleType, tree: Option<Node>)

  /** The program's pointers, and every list of parameters that the server was given. */
  datatype World = World(slots: seq<Slot>, given: seq<seq<Parameter>>) {
    /** What the pointer at `i` stands for, if it has this type. */
    function At(i: nat, ty: HandleType): Option<Node> {
      if i < |slots| && slots[i].ty == ty then slots[i].tree else None
    }

    /** One more pointer. */
    function With(ty: HandleType, tree: Option<Node>): World {
      this.(slots := slots + [Slot(ty, tree)])
    }

    /** The pointer at `i` is given up. */
    function Without(i: nat): World {
      if i < |slots| then this.(slots := slots[i := slots[i].(tree := None)]) else this
    }

    /** The vector at `i` has one more element. */
    function Appending(i: nat, e: Node): World {
      if i < |slots| && slots[i].tree.Some? && slots[i].tree.value.Vec?
      then this.(slots := slots[i := slots[i].(tree := Some(slots[i].tree.value.(items := slots[i].tree.value.items + [e])))])
      else this
    }

    /** The server is given these parameters. */
    function Giving(ps: seq<Parameter>): World {
      this.(given := given + [ps])
    }

    /** The parameters of an array. */
    function Native(list: Node): seq<Parameter> {
      if IsParams(list) then ToParameters(list.items) else []
    }

    /** What one call does. */
    ghost function Step(call: Call): World
      requires call.Valid()
    {
      match call
      case CreateScalar(s) => With(ValueHandle, Some(Leaf(s)))
      case CreateString(out, text) =>
        With(ValueHandle, if out && text.AsUtf8().Some? then Some(Str(0, text.AsUtf8().value)) else None)
      case CreateVec(ty, _) => With(ty, Some(Vec(KindOf(ty), 0, 0, [])))
      case ToValue(i) =>
        if i < |slots| && slots[i].ty in {ArrayHandle, DictHandle} && slots[i].tree.Some?
        then Without(i).With(ValueHandle, slots[i].tree) else this
      case Push(vec, elem) =>
        if vec < |slots| && slots[vec].ty in {ArrayHandle, ParametersHandle} then
          var e := At(elem, ElementOf(slots[vec].ty));
          if e.None? then this else Without(elem).Appending(vec, e.value)
        else this
      case Insert(dict, key, value) =>
        var v := At(value, ValueHandle);
        if v.None? then this
        else if At(dict, DictHandle).None? || key.AsUtf8().None? then Without(value)
        else Without(value).Appending(dict, Entry(Str(0, key.AsUtf8().value), Box(0, v.value)))
      case CreateParameter(out, name, ty, value) =>
        var v := At(value, ValueHandle);
        (if v.Some? then Without(value) else this).With(
          ParameterHandle,
          if out && name.AsUtf8().Some?
          then Some(Param(Str(0, name.AsUtf8().value), ty, if v.Some? then Box(0, v.value) else Null)) else None)
      case Clone(i) =>
        if i < |slots| && slots[i].ty in {ValueHandle, ParameterHandle} then With(slots[i].ty, slots[i].tree) else this
      case Free(i) => if i < |slots| && slots[i].ty != LentHandle then Without(i) else this
      case Publish(server, i) =>
        var list := At(i, ParametersHandle);
        if list.None? then this
        else if server.OpenServer? then Without(i).Giving(Native(list.value))
        else Without(i)
      case GetParameters(handled, i) =>
        var list := At(i, ParametersHandle);
        if handled && list.Some? then Without(i).Giving(Native(list.value)) else Giving([])
      case BeginSetParameters(handled, native) =>
        With(LentHandle, if handled then Some(Vec(Params, 0, 0, FromParameters(native))) else None)
      case EndSetParameters(lent, i) =>
        var list := At(i, ParametersHandle);
        if At(lent, LentHandle).None? then Giving([])
        else if list.None? then Without(lent).Giving([])
        else Without(lent).Without(i).Giving(Native(list.value))
    }
  }

  predicate AllValid(calls: seq<Call>) {
    forall i | 0 <= i < |calls| :: calls[i].Valid()
  }

  /** What a run does. */
  ghost function Replay(w: World, calls: seq<Call>): World
    requires AllValid(calls)
  {
    if calls == [] then w else Replay(w, calls[..|calls| - 1]).Step(calls[|calls| - 1])
  }
}
