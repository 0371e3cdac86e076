/** The bump arena and the conversions that allocate from it (c/src/arena.rs, c/src/generated_types.rs). */
module Arenas {
  import opened Wrappers
  import opened Messages
  import opened Memory
  import opened Denotation
  import Utf8

  const SIZE: nat := 128 * 1024

  /** One answer of `alloc`. */
  datatype Region = Region(addr: nat, bytes: nat, align: nat, inline: bool)

  ghost predicate AllDisjoint(rs: seq<Region>) {
    forall i, j | 0 <= i < j < |rs| :: Apart(rs[i].addr, rs[i].bytes, rs[j].addr, rs[j].bytes)
  }

  /** Where the last inline region ends, relative to the buffer. */
  ghost function InlineEnd(base: nat, rs: seq<Region>): int {
    if rs == [] then 0
    else
      var last := rs[|rs| - 1];
      if last.inline then last.addr + last.bytes - base else InlineEnd(base, rs[..|rs| - 1])
  }

  /** The most that these requests can take from the buffer, padding included. */
  ghost function Budget(rs: seq<Region>): int {
    if rs == [] then 0
    else Budget(rs[..|rs| - 1]) + rs[|rs| - 1].bytes + rs[|rs| - 1].align - 1
  }

  /** The part of the state that decides which bytes the arena has handed out. */
  datatype Snapshot = Snapshot(base: nat, offset: nat, overflow: seq<(nat, Block)>, mem: Bytes)

  ghost predicate Owned(s: Snapshot, a: int) {
    || Inside(a, s.base, s.offset)
    || exists e | e in s.overflow :: Inside(a, e.0, e.1.bytes)
  }

  /** `s1` comes after `s0`: no initialised byte has changed, and every byte written since was then unallotted. */
  ghost predicate Grown(s0: Snapshot, s1: Snapshot) {
    && s0.base == s1.base
    && s0.offset <= s1.offset
    && s0.overflow <= s1.overflow
    && Extends(s0.mem, s1.mem)
    && forall a | a in s1.mem && a !in s0.mem :: !Owned(s0, a)
  }

  lemma OwnedGrows(s0: Snapshot, s1: Snapshot, a: int)
    requires Grown(s0, s1) && Owned(s0, a)
    ensures Owned(s1, a)
  {
  }

  lemma GrownTransitive(s0: Snapshot, s1: Snapshot, s2: Snapshot)
    requires Grown(s0, s1) && Grown(s1, s2)
    ensures Grown(s0, s2)
  {
    forall a | a in s2.mem && a !in s0.mem
      ensures !Owned(s0, a)
    {
      if Owned(s0, a) {
        OwnedGrows(s0, s1, a);
      }
    }
  }

  /** The heap holds the overflow blocks, with the layouts on record, and the blocks of others. */
  ghost predicate OverflowIsLive(overflow: seq<(nat, Block)>, live: map<nat, Block>, others: map<nat, Block>) {
    && (forall i | 0 <= i < |overflow| :: overflow[i].0 in live && live[overflow[i].0] == overflow[i].1)
    && (forall i, j | 0 <= i < j < |overflow| :: overflow[i].0 != overflow[j].0)
    && (forall i | 0 <= i < |overflow| :: overflow[i].0 !in others)
    && (forall p | p in others :: p in live && live[p] == others[p])
    && (forall p | p in live && p !in others :: exists i :: 0 <= i < |overflow| && overflow[i].0 == p)
  }

  /** What holds of the regions handed out over the whole life of an arena. */
  ghost predicate History(base: nat, offset: nat, overflow: seq<(nat, Block)>, regions: seq<Region>) {
    && AllDisjoint(regions)
    && (forall r | r in regions :: r.bytes > 0 && r.align > 0 && r.addr % r.align == 0)
    && (forall r | r in regions && r.inline :: base <= r.addr && r.addr + r.bytes <= base + offset)
    && (forall r | r in regions && !r.inline :: (r.addr, Block(r.bytes, r.align)) in overflow)
    && offset == InlineEnd(base, regions)
    && offset <= Budget(regions)
    && (Budget(regions) <= SIZE ==> overflow == [])
  }

  lemma {:induction false} HistoryInline(base: nat, offset: nat, overflow: seq<(nat, Block)>, regions: seq<Region>, r: Region)
    requires History(base, offset, overflow, regions)
    requires r.inline && r.bytes > 0 && r.align > 0 && r.addr % r.align == 0
    requires base + offset <= r.addr < base + offset + r.align
    requires forall e | e in overflow :: Apart(e.0, e.1.bytes, r.addr, r.bytes)
    ensures History(base, r.addr + r.bytes - base, overflow, regions + [r])
  {
    assert (regions + [r])[..|regions|] == regions;
  }

  lemma {:induction false} HistoryOverflow(base: nat, offset: nat, overflow: seq<(nat, Block)>, regions: seq<Region>, r: Region)
    requires History(base, offset, overflow, regions)
    requires !r.inline && r.bytes > 0 && r.align > 0 && r.addr % r.align == 0
    requires offset + r.bytes + r.align - 1 > SIZE
    requires Apart(r.addr, r.bytes, base, offset)
    requires forall e | e in overflow :: Apart(r.addr, r.bytes, e.0, e.1.bytes)
    ensures History(base, offset, overflow + [(r.addr, Block(r.bytes, r.align))], regions + [r])
  {
    var overflow' := overflow + [(r.addr, Block(r.bytes, r.align))];
    assert overflow'[|overflow|] == (r.addr, Block(r.bytes, r.align));
    assert (regions + [r])[..|regions|] == regions;
  }

  lemma OverflowPushed(overflow: seq<(nat, Block)>, live: map<nat, Block>, others: map<nat, Block>, p: nat, layout: Block)
    requires OverflowIsLive(overflow, live, others) && p !in live
    ensures OverflowIsLive(overflow + [(p, layout)], live[p := layout], others)
  {
    var overflow', live' := overflow + [(p, layout)], live[p := layout];
    forall q | q in live' && q !in others
      ensures exists i :: 0 <= i < |overflow'| && overflow'[i].0 == q
    {
      if q == p {
        assert overflow'[|overflow|].0 == q;
      } else {
        var i :| 0 <= i < |overflow| && overflow[i].0 == q;
        assert overflow'[i].0 == q;
      }
    }
  }

  lemma OverflowPopped(overflow: seq<(nat, Block)>, live: map<nat, Block>, others: map<nat, Block>)
    requires OverflowIsLive(overflow, live, others) && overflow != []
    ensures OverflowIsLive(overflow[1..], live - {overflow[0].0}, others)
  {
    forall q | q in live && q != overflow[0].0 && q !in others
      ensures exists i :: 0 <= i < |overflow[1..]| && overflow[1..][i].0 == q
    {
      var i :| 0 <= i < |overflow| && overflow[i].0 == q;
      assert overflow[1..][i - 1].0 == q;
    }
  }

  /** `bytes` at `p` were handed out between `s0` and `s1`, and are still unwritten. */
  ghost predicate HandsOut(s0: Snapshot, s1: Snapshot, p: nat, bytes: nat) {
    && Grown(s0, s1)
    && forall a | Inside(a, p, bytes) :: a !in s1.mem && !Owned(s0, a) && Owned(s1, a)
  }

  lemma {:induction false} HandsOutInline(s0: Snapshot, p: nat, bytes: nat)
    requires s0.base + s0.offset <= p && p + bytes <= s0.base + SIZE
    requires forall a | s0.base + s0.offset <= a < s0.base + SIZE :: a !in s0.mem
    requires forall e | e in s0.overflow :: Apart(e.0, e.1.bytes, s0.base, SIZE)
    ensures HandsOut(s0, s0.(offset := p + bytes - s0.base), p, bytes)
  {
  }

  lemma {:induction false} HandsOutOverflow(s0: Snapshot, p: nat, layout: Block)
    requires Apart(p, layout.bytes, s0.base, s0.offset)
    requires forall e | e in s0.overflow :: Apart(p, layout.bytes, e.0, e.1.bytes)
    requires forall a | Inside(a, p, layout.bytes) :: a !in s0.mem
    ensures HandsOut(s0, s0.(overflow := s0.overflow + [(p, layout)]), p, layout.bytes)
  {
    var s1 := s0.(overflow := s0.overflow + [(p, layout)]);
    assert s1.overflow[|s0.overflow|] == (p, layout);
  }

  /** Filling an unwritten slot changes nothing that was written before. */
  lemma {:induction false} SlotWritten(s0: Snapshot, s1: Snapshot, addr: nat, size: nat, v: Native)
    requires Grown(s0, s1)
    requires forall a | Inside(a, addr, size) :: a !in s1.mem && !Owned(s0, a)
    ensures Grown(s0, s1.(mem := Write(s1.mem, addr, size, v)))
  {
  }

  lemma SlotInside(p: nat, i: nat, n: nat, size: nat)
    requires i < n
    ensures p <= Slot(p, i, size) && Slot(p, i, size) + size <= p + n * size
  {
    SlotOrder(p, i, n, size);
  }

  /** The first `i` elements of the array at `p` are in place, and the rest of it is unwritten. */
  ghost predicate Filled(mem: Bytes, p: nat, size: nat, ts: seq<Tree>, i: nat, n: nat) {
    && |ts| == i <= n
    && (forall j | 0 <= j < i :: SlotDenotes(mem, Slot(p, j, size), size, ts[j]))
    && (forall a | Slot(p, i, size) <= a < Slot(p, n, size) :: a !in mem)
  }

  lemma {:induction false} FilledExtends(s0: Snapshot, s1: Snapshot, p: nat, size: nat, ts: seq<Tree>, i: nat, n: nat)
    requires Grown(s0, s1) && Filled(s0.mem, p, size, ts, i, n)
    requires forall a | Slot(p, 0, size) <= a < Slot(p, n, size) :: Owned(s0, a)
    ensures Filled(s1.mem, p, size, ts, i, n)
  {
    forall j | 0 <= j < i
      ensures SlotDenotes(s1.mem, Slot(p, j, size), size, ts[j])
    {
      SlotExtends(s0.mem, s1.mem, Slot(p, j, size), size, ts[j]);
    }
    MulMonotone(0, i, size);
  }

  lemma FilledNext(mem: Bytes, p: nat, size: nat, v: Native, ts: seq<Tree>, t: Tree, i: nat, n: nat)
    requires Filled(mem, p, size, ts, i, n) && i < n && size > 0
    requires Denotes(mem, v, t)
    ensures Filled(Write(mem, Slot(p, i, size), size, v), p, size, ts + [t], i + 1, n)
  {
    var at := Slot(p, i, size);
    var mem' := Write(mem, at, size, v);
    SlotOrder(p, i, i + 1, size);
    SlotOrder(p, i, n, size);
    assert forall a | Inside(a, at, size) :: a !in mem;
    assert Inside(at, at, size);
    DenotesExtends(mem, mem', v, t);
    forall j | 0 <= j < i
      ensures SlotDenotes(mem', Slot(p, j, size), size, ts[j])
    {
      SlotExtends(mem, mem', Slot(p, j, size), size, ts[j]);
    }
  }

  /** The state of `map` after `i` elements: those are in place, and the rest of the array is its own to write. */
  ghost predicate Mapping(s0: Snapshot, s: Snapshot, src: CField, p: nat, ts: seq<Tree>, i: nat)
    requires src.Many? && src.count > 0 && SafeField(src)
  {
    && i <= src.count
    && Grown(s0, s)
    && (forall a | Inside(a, p, src.count * src.elem.size) :: !Owned(s0, a) && Owned(s, a))
    && Filled(s.mem, p, src.elem.size, ts, i, src.count)
    && ConvertList(src.items.elems) == Prepend(ts, ConvertList(src.items.elems[i..]))
  }

  /** Whatever the conversion of the next element allocates and writes, the array stays as it is. */
  lemma MappingGrows(s0: Snapshot, s1: Snapshot, s2: Snapshot, src: CField, p: nat, ts: seq<Tree>, i: nat)
    requires src.Many? && src.count > 0 && SafeField(src)
    requires Mapping(s0, s1, src, p, ts, i) && Grown(s1, s2)
    ensures Mapping(s0, s2, src, p, ts, i)
  {
    GrownTransitive(s0, s1, s2);
    FilledExtends(s1, s2, p, src.elem.size, ts, i, src.count);
    forall a | Inside(a, p, src.count * src.elem.size)
      ensures Owned(s2, a)
    {
      OwnedGrows(s1, s2, a);
    }
  }

  /** Writing the next element. */
  lemma MappingNext(s0: Snapshot, s: Snapshot, src: CField, p: nat, ts: seq<Tree>, i: nat, v: Native, t: Tree)
    requires src.Many? && src.count > 0 && SafeField(src) && i < src.count
    requires Mapping(s0, s, src, p, ts, i) && Denotes(s.mem, v, t)
    requires ConvertList(src.items.elems) == Prepend(ts + [t], ConvertList(src.items.elems[i + 1..]))
    ensures Mapping(s0, s.(mem := Write(s.mem, Slot(p, i, src.elem.size), src.elem.size, v)), src, p, ts + [t], i + 1)
    ensures forall a | Inside(a, Slot(p, i, src.elem.size), src.elem.size) :: Owned(s, a)
  {
    var size := src.elem.size;
    SlotInside(p, i, src.count, size);
    FilledNext(s.mem, p, size, v, ts, t, i, src.count);
    SlotOrder(p, i, src.count, size);
    SlotWritten(s0, s, Slot(p, i, size), size, v);
  }

  /** The state of `borrow_to_native` after `i` fields. */
  ghost predicate Borrowing(s0: Snapshot, s: Snapshot, m: CMsg, fs: seq<NField>, ts: seq<TField>, i: nat)
    requires Safe(m) && i <= |m.fields|
  {
    && |fs| == |ts| == i
    && Grown(s0, s)
    && (forall j | 0 <= j < i :: DenotesField(s.mem, fs[j], ts[j]))
    && ConvertFields(m.fields) == Prepend(ts, ConvertFields(m.fields[i..]))
  }

  lemma BorrowingNext(s0: Snapshot, s1: Snapshot, s2: Snapshot, m: CMsg,
                      fs: seq<NField>, ts: seq<TField>, i: nat, f: NField, t: TField)
    requires Safe(m) && i < |m.fields|
    requires Borrowing(s0, s1, m, fs, ts, i) && Grown(s1, s2) && DenotesField(s2.mem, f, t)
    requires ConvertFields(m.fields) == Prepend(ts + [t], ConvertFields(m.fields[i + 1..]))
    ensures Borrowing(s0, s2, m, fs + [f], ts + [t], i + 1)
  {
    GrownTransitive(s0, s1, s2);
    FieldsExtend(s1.mem, s2.mem, fs, ts);
  }

  class Arena {
    const machine: Machine
    const base: nat
    var offset: nat
    var overflow: seq<(nat, Block)>
    // every answer of `alloc` so far, and the heap blocks of everybody else
    ghost var regions: seq<Region>
    ghost const others: map<nat, Block>

    ghost function Snap(): Snapshot
      reads this, machine
    {
      Snapshot(base, offset, overflow, machine.mem)
    }

    ghost predicate Valid()
      reads this, machine
    {
      && machine.Valid()
      && machine.stackStart <= base && base + SIZE <= machine.stackStart + machine.stackBytes
      && offset <= SIZE
      && (forall a | base + offset <= a < base + SIZE :: a !in machine.mem)
      && OverflowIsLive(overflow, machine.live, others)
      && History(base, offset, overflow, regions)
    }

    /** `Arena::new`, pinned on the stack at an address of the compiler's choice. */
    constructor (machine: Machine, base: nat)
      requires machine.Valid()
      requires machine.stackStart <= base && base + SIZE <= machine.stackStart + machine.stackBytes
      modifies machine`mem
      ensures Valid() && this.machine == machine && this.base == base
      ensures offset == 0 && overflow == [] && regions == [] && others == machine.live
    {
      this.machine, this.base := machine, base;
      offset, overflow, regions := 0, [], [];
      others := machine.live;
      new;
      // the buffer starts out uninitialised
      machine.mem := map a | a in machine.mem && !Inside(a, base, SIZE) :: machine.mem[a];
    }

    /** Where the next inline region would start. */
    function Aligned(align: nat): nat
      requires align > 0
      reads this
    {
      NextMultipleOfIsAligned(base + offset, align);
      NextMultipleOf(base + offset, align) - base
    }

    /** `alloc`: the next aligned bytes of the buffer, or a heap block when the rest of the buffer is too short. */
    method Alloc(n: nat, elem: Layout) returns (p: nat)
      requires Valid() && n > 0 && elem.Valid()
      modifies this`offset, this`overflow, this`regions, machine`live
      ensures Valid()
      ensures var inline := old(Aligned(elem.align)) + n * elem.size <= SIZE;
              && regions == old(regions) + [Region(p, n * elem.size, elem.align, inline)]
              && (if inline then
                    && p == base + old(Aligned(elem.align))
                    && offset == p + n * elem.size - base
                    && overflow == old(overflow) && machine.live == old(machine.live)
                  else
                    && offset == old(offset)
                    && overflow == old(overflow) + [(p, Block(n * elem.size, elem.align))]
                    && machine.live == old(machine.live)[p := Block(n * elem.size, elem.align)])
      ensures HandsOut(old(Snap()), Snap(), p, n * elem.size)
    {
      var bytes := n * elem.size;
      MulMonotone(1, n, elem.size);
      if Aligned(elem.align) + bytes > SIZE {
        p := AllocOverflow(Block(bytes, elem.align));
      } else {
        p := AllocInline(bytes, elem.align);
      }
    }

    method AllocOverflow(layout: Block) returns (p: nat)
      requires Valid() && layout.bytes > 0 && layout.align > 0
      requires Aligned(layout.align) + layout.bytes > SIZE
      modifies this`overflow, this`regions, machine`live
      ensures Valid()
      ensures regions == old(regions) + [Region(p, layout.bytes, layout.align, false)]
      ensures overflow == old(overflow) + [(p, layout)] && machine.live == old(machine.live)[p := layout]
      ensures HandsOut(old(Snap()), Snap(), p, layout.bytes)
    {
      p := machine.HeapAlloc(layout);
      ghost var r := Region(p, layout.bytes, layout.align, false);
      NextMultipleOfIsAligned(base + offset, layout.align);
      HistoryOverflow(base, offset, overflow, regions, r);
      OverflowPushed(overflow, old(machine.live), others, p, layout);
      HandsOutOverflow(Snap(), p, layout);
      overflow := overflow + [(p, layout)];
      regions := regions + [r];
    }

    method AllocInline(bytes: nat, align: nat) returns (p: nat)
      requires Valid() && bytes > 0 && align > 0
      requires Aligned(align) + bytes <= SIZE
      modifies this`offset, this`regions
      ensures Valid()
      ensures p == base + old(Aligned(align)) && offset == p + bytes - base
      ensures regions == old(regions) + [Region(p, bytes, align, true)]
      ensures HandsOut(old(Snap()), Snap(), p, bytes)
    {
      p := base + Aligned(align);
      ghost var r := Region(p, bytes, align, true);
      NextMultipleOfIsAligned(base + offset, align);
      HistoryInline(base, offset, overflow, regions, r);
      HandsOutInline(Snap(), p, bytes);
      offset := p + bytes - base;
      regions := regions + [r];
    }

    /** Writes one struct where the arena has handed out space. */
    method Place(addr: nat, size: nat, value: Native)
      requires Valid()
      requires forall a | Inside(a, addr, size) :: Owned(Snap(), a)
      modifies machine`mem
      ensures Valid() && Snap() == old(Snap()).(mem := Write(old(machine.mem), addr, size, value))
    {
      forall e | e in overflow
        ensures Apart(e.0, e.1.bytes, base, SIZE)
      {
        var k :| 0 <= k < |overflow| && overflow[k] == e;
      }
      machine.Store(addr, size, value);
    }

    /** `Arena::map`: converts every element into one array, while the conversions allocate arrays of their own. */
    method Map(src: CField) returns (r: Result<NField, Error>)
      requires Valid() && src.Many? && SafeField(src)
      modifies this`offset, this`overflow, this`regions, machine
      ensures Valid() && Grown(old(Snap()), Snap())
      ensures match ConvertField(src)
              case Err(e) => r == Err(e)
              case Ok(t) => r.Ok? && DenotesField(machine.mem, r.value, t)
      decreases src, 1
    {
      var Many(items, len, elem) := src;
      if len == 0 {
        return Ok(NVec(elem.align, 0, 0, elem));
      }
      ghost var s0 := Snap();
      var result := Alloc(len, elem);
      ghost var ts := [];
      var i := 0;
      PrependNothing(ConvertList(items.elems));
      assert items.elems[0..] == items.elems;
      while i < len
        invariant Valid() && Mapping(s0, Snap(), src, result, ts, i)
      {
        var failure;
        failure, ts := MapElement(s0, src, result, ts, i);
        if failure.Some? {
          return Err(failure.value);
        }
        i := i + 1;
      }
      r := Ok(NVec(result, len, len, elem));
    }

    /** The body of the loop of `map`. */
    method MapElement(ghost s0: Snapshot, src: CField, p: nat, ghost ts: seq<Tree>, i: nat)
      returns (failure: Option<Error>, ghost ts': seq<Tree>)
      requires src.Many? && src.count > 0 && SafeField(src) && i < src.count
      requires Valid() && Mapping(s0, Snap(), src, p, ts, i)
      modifies this`offset, this`overflow, this`regions, machine
      ensures Valid() && Grown(s0, Snap())
      ensures match failure
              case None => Mapping(s0, Snap(), src, p, ts', i + 1)
              case Some(e) => ConvertList(src.items.elems) == Err(e)
      decreases src, 0
    {
      ts' := ts;
      ListStep(src.items.elems, ts, i);
      ghost var s1 := Snap();
      var converted := BorrowToNative(src.items.elems[i]);
      MappingGrows(s0, s1, Snap(), src, p, ts, i);
      if converted.Err? {
        return Some(converted.error), ts';
      }
      ghost var t := Convert(src.items.elems[i]).value;
      MappingNext(s0, Snap(), src, p, ts, i, converted.value, t);
      Place(Slot(p, i, src.elem.size), src.elem.size, converted.value);
      failure, ts' := None, ts + [t];
    }

    /** `borrow_to_native`: one field at a time, stopping at the first error. */
    method BorrowToNative(m: CMsg) returns (r: Result<Native, Error>)
      requires Valid() && Safe(m)
      modifies this`offset, this`overflow, this`regions, machine
      ensures Valid() && Grown(old(Snap()), Snap())
      ensures match Convert(m)
              case Err(e) => r == Err(e)
              case Ok(t) => r.Ok? && Denotes(machine.mem, r.value, t)
      decreases m, 0
    {
      ghost var s0 := Snap();
      ghost var ts := [];
      var fs := [];
      var i := 0;
      PrependNothing(ConvertFields(m.fields));
      assert m.fields[0..] == m.fields;
      while i < |m.fields|
        invariant Valid() && i <= |m.fields| && Borrowing(s0, Snap(), m, fs, ts, i)
      {
        ghost var s1 := Snap();
        FieldsStep(m.fields, ts, i);
        var converted := BorrowField(m.fields[i]);
        if converted.Err? {
          GrownTransitive(s0, s1, Snap());
          return Err(converted.error);
        }
        ghost var t := ConvertField(m.fields[i]).value;
        BorrowingNext(s0, s1, Snap(), m, fs, ts, i, converted.value, t);
        fs, ts := fs + [converted.value], ts + [t];
        i := i + 1;
      }
      r := Ok(Native(fs));
    }

    /** The code generated for one field. */
    method BorrowField(f: CField) returns (r: Result<NField, Error>)
      requires Valid() && SafeField(f)
      modifies this`offset, this`overflow, this`regions, machine
      ensures Valid() && Grown(old(Snap()), Snap())
      ensures match ConvertField(f)
              case Err(e) => r == Err(e)
              case Ok(t) => r.Ok? && DenotesField(machine.mem, r.value, t)
      decreases f, 2
    {
      match f
      case Plain(v) => r := Ok(NPlain(v));
      case Text(name, text, len) =>
        if len == 0 {
          r := Ok(NText([]));
        } else if Utf8.Valid(text.value) {
          r := Ok(NText(text.value));
        } else {
          r := Err(InvalidText(name, text.value));
        }
      case Raw(data, size) => r := Ok(NRaw(if size == 0 then [] else data.value));
      case Sub(None) => r := Ok(NSub(None));
      case Sub(Some(m)) =>
        var converted := BorrowToNative(m);
        r := match converted case Err(e) => Err(e) case Ok(v) => Ok(NSub(Some(v)));
      case Many(_, _, _) => r := Map(f);
    }

    /** `Drop`: every overflow block goes back to the allocator once, with the layout it was allocated with. */
    method Drop()
      requires Valid()
      modifies this`overflow, machine
      ensures machine.Valid() && machine.live == others && overflow == []
    {
      while overflow != []
        invariant machine.Valid() && OverflowIsLive(overflow, machine.live, others)
        decreases |overflow|
      {
        var (ptr, layout) := overflow[0];
        OverflowPopped(overflow, machine.live, others);
        machine.HeapFree(ptr, layout);
        overflow := overflow[1..];
      }
    }
  }
}
