/** What a native struct in memory says: the message that a reader following its pointers sees. */
module Denotation {
  import opened Wrappers
  import opened Messages
  import opened Memory

  /** The struct `v`, read in `mem`, is the message `t`. */
  ghost predicate Denotes(mem: Bytes, v: Native, t: Tree)
    decreases t, 1
  {
    |v.fields| == |t.fields| && forall i | 0 <= i < |t.fields| :: DenotesField(mem, v.fields[i], t.fields[i])
  }

  ghost predicate DenotesField(mem: Bytes, f: NField, t: TField)
    decreases t, 0
  {
    match t
    case TPlain(v) => f == NPlain(v)
    case TText(s) => f == NText(s)
    case TRaw(d) => f == NRaw(d)
    case TSub(None) => f == NSub(None)
    case TSub(Some(m)) => f.NSub? && f.msg.Some? && Denotes(mem, f.msg.value, m)
    case TList(ts) =>
      && f.NVec? && f.len == f.capacity == |ts|
      && forall i | 0 <= i < |ts| :: SlotDenotes(mem, Slot(f.ptr, i, f.elem.size), f.elem.size, ts[i])
  }

  /** A whole struct lies at `addr` and says `t`. */
  ghost predicate SlotDenotes(mem: Bytes, addr: nat, size: nat, t: Tree)
    decreases t, 2
  {
    Intact(mem, addr, size) && Denotes(mem, mem[addr].value, t)
  }

  /** Address of element `i` of an array. */
  function Slot(start: nat, i: nat, size: nat): nat {
    start + i * size
  }

  lemma SlotOrder(start: nat, i: nat, j: nat, size: nat)
    requires i < j
    ensures Slot(start, i, size) + size <= Slot(start, j, size)
  {
    MulMonotone(i + 1, j, size);
  }

  /** Writing elsewhere does not change what a struct says. */
  lemma {:induction false} DenotesExtends(m0: Bytes, m1: Bytes, v: Native, t: Tree)
    requires Extends(m0, m1) && Denotes(m0, v, t)
    ensures Denotes(m1, v, t)
    decreases t, 1
  {
    forall i | 0 <= i < |t.fields|
      ensures DenotesField(m1, v.fields[i], t.fields[i])
    {
      FieldExtends(m0, m1, v.fields[i], t.fields[i]);
    }
  }

  lemma {:induction false} FieldExtends(m0: Bytes, m1: Bytes, f: NField, t: TField)
    requires Extends(m0, m1) && DenotesField(m0, f, t)
    ensures DenotesField(m1, f, t)
    decreases t, 0
  {
    match t
    case TSub(Some(m)) => DenotesExtends(m0, m1, f.msg.value, m);
    case TList(ts) =>
      forall i | 0 <= i < |ts|
        ensures SlotDenotes(m1, Slot(f.ptr, i, f.elem.size), f.elem.size, ts[i])
      {
        SlotExtends(m0, m1, Slot(f.ptr, i, f.elem.size), f.elem.size, ts[i]);
      }
    case _ =>
  }

  lemma {:induction false} FieldsExtend(m0: Bytes, m1: Bytes, fs: seq<NField>, ts: seq<TField>)
    requires Extends(m0, m1) && |fs| == |ts|
    requires forall i | 0 <= i < |ts| :: DenotesField(m0, fs[i], ts[i])
    ensures forall i | 0 <= i < |ts| :: DenotesField(m1, fs[i], ts[i])
  {
    forall i | 0 <= i < |ts|
      ensures DenotesField(m1, fs[i], ts[i])
    {
      FieldExtends(m0, m1, fs[i], ts[i]);
    }
  }

  lemma {:induction false} SlotExtends(m0: Bytes, m1: Bytes, addr: nat, size: nat, t: Tree)
    requires Extends(m0, m1) && SlotDenotes(m0, addr, size, t)
    ensures SlotDenotes(m1, addr, size, t)
    decreases t, 2
  {
    DenotesExtends(m0, m1, m0[addr].value, t);
  }

  // ----- the reader -----

  /** Reads the message back by following the pointers; it always finds the one message that the struct denotes. */
  function Read(mem: Bytes, v: Native, ghost t: Tree): (r: Tree)
    requires Denotes(mem, v, t)
    ensures r == t
    decreases t, 1
  {
    Tree(ReadFields(mem, v.fields, t.fields))
  }

  function ReadFields(mem: Bytes, fs: seq<NField>, ghost ts: seq<TField>): (r: seq<TField>)
    requires |fs| == |ts| && forall i | 0 <= i < |ts| :: DenotesField(mem, fs[i], ts[i])
    ensures r == ts
    decreases ts, 1
  {
    if fs == [] then [] else [ReadField(mem, fs[0], ts[0])] + ReadFields(mem, fs[1..], ts[1..])
  }

  function ReadField(mem: Bytes, f: NField, ghost t: TField): (r: TField)
    requires DenotesField(mem, f, t)
    ensures r == t
    decreases t, 0
  {
    match f
    case NPlain(v) => TPlain(v)
    case NText(s) => TText(s)
    case NRaw(d) => TRaw(d)
    case NSub(None) => TSub(None)
    case NSub(Some(m)) => TSub(Some(Read(mem, m, t.msg.value)))
    case NVec(ptr, len, _, elem) => TList(ReadList(mem, ptr, 0, len, elem.size, t.items))
  }

  function ReadList(mem: Bytes, ptr: nat, i: nat, len: nat, size: nat, ghost ts: seq<Tree>): (r: seq<Tree>)
    requires i <= len && |ts| == len - i
    requires forall k | 0 <= k < |ts| :: SlotDenotes(mem, Slot(ptr, i + k, size), size, ts[k])
    ensures r == ts
    decreases ts, 1
  {
    if i == len then []
    else
      assert SlotDenotes(mem, Slot(ptr, i + 0, size), size, ts[0]);
      assert forall k | 0 <= k < |ts[1..]| :: ts[1..][k] == ts[k + 1] && SlotDenotes(mem, Slot(ptr, i + (k + 1), size), size, ts[k + 1]);
      [Read(mem, mem[Slot(ptr, i, size)].value, ts[0])] + ReadList(mem, ptr, i + 1, len, size, ts[1..])
  }
}
