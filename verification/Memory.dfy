/** Process memory: bytes, heap blocks and address arithmetic. */
module Memory {
  import opened Messages

  /** Byte `k` of the native struct `value`. A struct can be read back only while all of its bytes are in place. */
  datatype Fragment = Fragment(value: Native, k: int)

  type Bytes = map<nat, Fragment>

  /** `std::alloc::Layout` of a heap block. */
  datatype Block = Block(bytes: nat, align: nat)

  predicate Inside(a: int, start: nat, bytes: nat) {
    start <= a < start + bytes
  }

  /** No byte belongs to both ranges. */
  ghost predicate Apart(p: nat, m: nat, q: nat, n: nat) {
    p + m <= q || q + n <= p
  }

  /** `*addr = value`: every byte of the range is overwritten. */
  function Write(mem: Bytes, addr: nat, size: nat, value: Native): Bytes {
    mem + map a | addr <= a < addr + size && Inside(a, addr, size) :: Fragment(value, a - addr)
  }

  /** All the bytes of one struct are in place at `addr`. */
  ghost predicate Intact(mem: Bytes, addr: nat, size: nat) {
    addr in mem && forall a | Inside(a, addr, size) :: a in mem && mem[a] == Fragment(mem[addr].value, a - addr)
  }

  /** Everything initialised in `m0` is still there, unchanged, in `m1`. */
  ghost predicate Extends(m0: Bytes, m1: Bytes) {
    forall a | a in m0 :: a in m1 && m1[a] == m0[a]
  }

  /** The system allocator and the memory of the process. The stack holds the arena. */
  class Machine {
    const stackStart: nat
    const stackBytes: nat
    var mem: Bytes
    var live: map<nat, Block>

    ghost predicate Valid()
      reads this
    {
      && (forall p | p in live :: Apart(p, live[p].bytes, stackStart, stackBytes) && live[p].bytes > 0)
      && (forall p, q | p in live && q in live && p != q :: Apart(p, live[p].bytes, q, live[q].bytes))
    }

    ghost predicate FreeAt(p: nat, bytes: nat)
      reads this
    {
      && Apart(p, bytes, stackStart, stackBytes)
      && (forall q | q in live :: Apart(p, bytes, q, live[q].bytes))
      && (forall a | Inside(a, p, bytes) :: a !in mem)
    }

    constructor (stackStart: nat, stackBytes: nat)
      ensures Valid() && mem == map[] && live == map[]
      ensures this.stackStart == stackStart && this.stackBytes == stackBytes
    {
      this.stackStart, this.stackBytes := stackStart, stackBytes;
      mem, live := map[], map[];
    }

    /** `std::alloc::alloc(layout)`: some aligned block that nothing else uses, not initialised. */
    method HeapAlloc(layout: Block) returns (p: nat)
      requires Valid() && layout.bytes > 0 && layout.align > 0
      modifies this`live
      ensures Valid()
      ensures p % layout.align == 0 && old(FreeAt(p, layout.bytes))
      ensures p !in old(live) && live == old(live)[p := layout]
    {
      p := FindFree(layout);
      live := live[p := layout];
    }

    method FindFree(layout: Block) returns (p: nat)
      requires Valid() && layout.bytes > 0 && layout.align > 0
      ensures p % layout.align == 0 && FreeAt(p, layout.bytes) && p !in live
    {
      var top := stackStart + stackBytes;
      var blocks := live.Keys;
      while blocks != {}
        invariant blocks <= live.Keys && top >= stackStart + stackBytes
        invariant forall q | q in live && q !in blocks :: q + live[q].bytes <= top
      {
        var q :| q in blocks;
        top := if q + live[q].bytes > top then q + live[q].bytes else top;
        blocks := blocks - {q};
      }
      var cells := mem.Keys;
      while cells != {}
        invariant cells <= mem.Keys && top >= stackStart + stackBytes
        invariant forall q | q in live :: q + live[q].bytes <= top
        invariant forall a | a in mem && a !in cells :: a < top
      {
        var a :| a in cells;
        top := if a >= top then a + 1 else top;
        cells := cells - {a};
      }
      p := NextMultipleOf(top, layout.align);
      NextMultipleOfIsAligned(top, layout.align);
    }

    /** `std::alloc::dealloc(p, layout)`: legal once, and only with the layout of the allocation. */
    method HeapFree(p: nat, layout: Block)
      requires Valid() && p in live && live[p] == layout
      modifies this
      ensures Valid() && live == old(live) - {p}
      ensures mem == map a | a in old(mem) && !Inside(a, p, layout.bytes) :: old(mem)[a]
    {
      live := live - {p};
      mem := map a | a in mem && !(p <= a < p + layout.bytes) :: mem[a];
    }

    /** Writes one struct. */
    method Store(addr: nat, size: nat, value: Native)
      modifies this`mem
      ensures mem == Write(old(mem), addr, size, value)
    {
      mem := Write(mem, addr, size, value);
    }
  }

  /** `usize::next_multiple_of`. */
  function NextMultipleOf(x: nat, align: nat): nat
    requires align > 0
  {
    if x % align == 0 then x else x + (align - x % align)
  }

  lemma MulMonotone(a: nat, b: nat, c: nat)
    requires a <= b
    ensures a * c <= b * c
  {
  }

  lemma DivisionIsUnique(align: nat, q: nat, r: nat, q': nat, r': nat)
    requires r < align && r' < align && q * align + r == q' * align + r'
    ensures q == q' && r == r'
  {
    if q < q' {
      MulMonotone(q + 1, q', align);
    } else if q' < q {
      MulMonotone(q' + 1, q, align);
    }
  }

  lemma MultipleIsAligned(k: nat, align: nat)
    requires align > 0
    ensures k * align % align == 0
  {
    var x := k * align;
    assert x == x / align * align + x % align;
    DivisionIsUnique(align, k, 0, x / align, x % align);
  }

  /** The result is aligned and less than one alignment away. */
  lemma NextMultipleOfIsAligned(x: nat, align: nat)
    requires align > 0
    ensures NextMultipleOf(x, align) % align == 0 && x <= NextMultipleOf(x, align) < x + align
  {
    if x % align != 0 {
      var q := x / align;
      assert x == q * align + x % align;
      assert NextMultipleOf(x, align) == (q + 1) * align;
      MultipleIsAligned(q + 1, align);
    }
  }

  lemma NextAfter(align: nat, q: nat, k: nat)
    requires q * align < k * align
    ensures (q + 1) * align <= k * align
  {
    if k <= q {
      MulMonotone(k, q, align);
    } else {
      MulMonotone(q + 1, k, align);
    }
  }

  /** No aligned address lies in the gap that an allocation skips. */
  lemma NextMultipleOfIsLeast(x: nat, align: nat, m: nat)
    requires align > 0 && m % align == 0 && x <= m
    ensures NextMultipleOf(x, align) <= m
  {
    NextMultipleOfIsAligned(x, align);
    if m < NextMultipleOf(x, align) {
      var q, k := x / align, m / align;
      assert m == k * align;
      assert x == q * align + x % align;
      NextAfter(align, q, k);
    }
  }
}
