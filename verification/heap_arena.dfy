/** The static arena behind the legacy tables: the per-table size macros,
    `TABLE_HEAP_SIZE`, the bump pointer `_heap_pointer` and `heap_alloc`.
    Blocks are never freed.  The arena is modelled by its pointer alone; a
    granted block is named by its offset into `_3DTable_heap`. */
module HeapArena {

  /** `TABLE3D_SIZE_n`: n*n cells, two bytes per entry on each axis, and two
      bytes per row pointer. */
  const Table3DSize16: nat := 16 * 16 + 32 + 32 + 32
  const Table3DSize12: nat := 12 * 12 + 24 + 24 + 24
  const Table3DSize8: nat := 8 * 8 + 16 + 16 + 16
  const Table3DSize6: nat := 6 * 6 + 12 + 12 + 12
  const Table3DSize4: nat := 4 * 4 + 8 + 8 + 8

  /** Room for five 16x16, four 8x8 and four 6x6 tables, plus one byte. */
  const TableHeapSize: nat := (5 * Table3DSize16) + (4 * Table3DSize8) + (4 * Table3DSize6) + 1

  /** The bytes a table of side `n` occupies when pointers are two bytes. */
  function Footprint(n: nat): nat {
    n * n + 6 * n
  }

  lemma SizeMacrosAreFootprints()
    ensures Table3DSize16 == Footprint(16) && Table3DSize12 == Footprint(12)
    ensures Table3DSize8 == Footprint(8) && Table3DSize6 == Footprint(6) && Table3DSize4 == Footprint(4)
    ensures TableHeapSize == 2497
  {
  }

  /** A pointer returned by `heap_alloc`: null, or an offset into the arena. */
  datatype Ptr = Null | At(offset: nat)

  /** `_heap_pointer`: the offset of the first free byte. */
  datatype Arena = Arena(pointer: nat)

  /** `_heap_pointer` starts at zero. */
  const InitialArena: Arena := Arena(0)

  predicate Valid(h: Arena) {
    h.pointer <= TableHeapSize
  }

  datatype Alloc = Alloc(arena: Arena, block: Ptr)

  /** `heap_alloc(size)`: grants `size` bytes at the bump pointer only when
      `size` is strictly below the free space; otherwise returns null and
      leaves the arena as it was. */
  function HeapAlloc(h: Arena, size: nat): (r: Alloc)
    requires Valid(h) && size < 0x1_0000
    ensures Valid(r.arena) && h.pointer <= r.arena.pointer
    ensures r.block.At? <==> size < TableHeapSize - h.pointer
    ensures r.block.At? ==> r.block.offset == h.pointer && r.arena.pointer == h.pointer + size
    ensures r.block.Null? ==> r.arena == h
  {
    if size < TableHeapSize - h.pointer then Alloc(Arena(h.pointer + size), At(h.pointer))
    else Alloc(h, Null)
  }

  /** A request that would fill the arena to its last byte is refused: the
      comparison is strict, which is what the spare byte of
      `TABLE_HEAP_SIZE` pays for. */
  lemma ExactFillRefused(h: Arena, size: nat)
    requires Valid(h) && size < 0x1_0000 && h.pointer + size == TableHeapSize
    ensures HeapAlloc(h, size).block == Null
  {
  }

  predicate Uint16s(sizes: seq<nat>) {
    forall i :: 0 <= i < |sizes| ==> sizes[i] < 0x1_0000
  }

  datatype Allocs = Allocs(arena: Arena, blocks: seq<Ptr>)

  /** A run of `heap_alloc` calls, one per requested size, in order.  Every
      granted block lies between the starting pointer and the final one. */
  function AllocAll(h: Arena, sizes: seq<nat>): (r: Allocs)
    requires Valid(h) && Uint16s(sizes)
    ensures Valid(r.arena) && h.pointer <= r.arena.pointer && |r.blocks| == |sizes|
    ensures forall i :: 0 <= i < |sizes| && r.blocks[i].At? ==>
              h.pointer <= r.blocks[i].offset && r.blocks[i].offset + sizes[i] <= r.arena.pointer
    decreases |sizes|
  {
    if |sizes| == 0 then Allocs(h, [])
    else
      var first := HeapAlloc(h, sizes[0]);
      var rest := AllocAll(first.arena, sizes[1..]);
      Allocs(rest.arena, [first.block] + rest.blocks)
  }

  /** Every granted block ends at or before the start of any later granted one. */
  predicate Disjoint(blocks: seq<Ptr>, sizes: seq<nat>)
    requires |blocks| == |sizes|
  {
    forall i, j {:trigger blocks[i], blocks[j]} :: 0 <= i < j < |sizes| && blocks[i].At? && blocks[j].At? ==>
      blocks[i].offset + sizes[i] <= blocks[j].offset
  }

  /** Granted blocks never overlap: an earlier one ends at or before the
      start of a later one. */
  lemma {:induction false} AllocationsDisjoint(h: Arena, sizes: seq<nat>)
    requires Valid(h) && Uint16s(sizes)
    ensures Disjoint(AllocAll(h, sizes).blocks, sizes)
    decreases |sizes|
  {
    if |sizes| > 0 {
      var first := HeapAlloc(h, sizes[0]);
      AllocationsDisjoint(first.arena, sizes[1..]);
      var r := AllocAll(h, sizes);
      var rest := AllocAll(first.arena, sizes[1..]);
      assert r.blocks == [first.block] + rest.blocks;
      forall i, j | 0 <= i < j < |sizes| && r.blocks[i].At? && r.blocks[j].At?
        ensures r.blocks[i].offset + sizes[i] <= r.blocks[j].offset
      {
        assert r.blocks[j] == rest.blocks[j - 1] && sizes[1..][j - 1] == sizes[j];
        if i > 0 {
          assert r.blocks[i] == rest.blocks[i - 1] && sizes[1..][i - 1] == sizes[i];
          assert 0 <= i - 1 < j - 1 < |sizes[1..]| && rest.blocks[i - 1].At? && rest.blocks[j - 1].At?;
          assert rest.blocks[i - 1].offset + sizes[1..][i - 1] <= rest.blocks[j - 1].offset;
        } else {
          assert r.blocks[0] == first.block;
          assert first.arena.pointer == h.pointer + sizes[0];
          assert rest.blocks[j - 1].offset >= first.arena.pointer;
        }
      }
    }
  }

  /** Blocks are contiguous: request `j` is served at the pointer left by the
      requests before it, so a granted block starts exactly where the
      previous granted one ended. */
  lemma {:induction false} AllocationsContiguous(h: Arena, sizes: seq<nat>, j: nat)
    requires Valid(h) && Uint16s(sizes) && j < |sizes|
    ensures AllocAll(h, sizes).blocks[j] == HeapAlloc(AllocAll(h, sizes[..j]).arena, sizes[j]).block
    decreases j
  {
    var first := HeapAlloc(h, sizes[0]);
    if j > 0 {
      AllocationsContiguous(first.arena, sizes[1..], j - 1);
      assert sizes[..j][1..] == sizes[1..][..j - 1];
      assert sizes[..j][0] == sizes[0];
    } else {
      assert sizes[..0] == [];
    }
  }

  function Sum(s: seq<nat>): nat
    decreases |s|
  {
    if |s| == 0 then 0 else s[0] + Sum(s[1..])
  }

  lemma {:induction false} SumAppend(a: seq<nat>, b: seq<nat>)
    ensures Sum(a + b) == Sum(a) + Sum(b)
    decreases |a|
  {
    if |a| > 0 {
      assert (a + b)[1..] == a[1..] + b;
      assert (a + b)[0] == a[0];
      SumAppend(a[1..], b);
      assert Sum(a + b) == a[0] + Sum(a[1..] + b);
    } else {
      assert a + b == b;
    }
  }

  /** Requests whose total stays strictly below the free space are all
      granted, and the pointer advances by exactly that total. */
  lemma {:induction false} AllGranted(h: Arena, sizes: seq<nat>)
    requires Valid(h) && Uint16s(sizes) && Sum(sizes) < TableHeapSize - h.pointer
    ensures var r := AllocAll(h, sizes);
            (forall i :: 0 <= i < |sizes| ==> r.blocks[i].At?) && r.arena.pointer == h.pointer + Sum(sizes)
    decreases |sizes|
  {
    if |sizes| > 0 {
      var first := HeapAlloc(h, sizes[0]);
      AllGranted(first.arena, sizes[1..]);
      var r := AllocAll(h, sizes);
      var rest := AllocAll(first.arena, sizes[1..]);
      forall i | 0 <= i < |sizes|
        ensures r.blocks[i].At?
      {
        if i > 0 {
          assert r.blocks[i] == rest.blocks[i - 1];
        }
      }
    }
  }

  /** Running two batches of requests one after the other is running their
      concatenation. */
  lemma {:induction false} AllocAllAppend(h: Arena, a: seq<nat>, b: seq<nat>)
    requires Valid(h) && Uint16s(a) && Uint16s(b)
    ensures Uint16s(a + b)
    ensures var ra := AllocAll(h, a);
            var rb := AllocAll(ra.arena, b);
            AllocAll(h, a + b) == Allocs(rb.arena, ra.blocks + rb.blocks)
    decreases |a|
  {
    assert Uint16s(a + b);
    if |a| == 0 {
      assert a + b == b;
    } else {
      var first := HeapAlloc(h, a[0]);
      assert (a + b)[1..] == a[1..] + b;
      assert (a + b)[0] == a[0];
      AllocAllAppend(first.arena, a[1..], b);
      var ra := AllocAll(first.arena, a[1..]);
      var rb := AllocAll(ra.arena, b);
      assert [first.block] + (ra.blocks + rb.blocks) == ([first.block] + ra.blocks) + rb.blocks;
    }
  }
}
