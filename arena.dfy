/** The bump allocator of the compiler (src/arena.hpp), with the buffer
    reduced to byte offsets: `alloc` hands out the block that starts at the
    current offset and moves the offset past it, or stops the compiler when
    the block would run past the end of the buffer. */
module Arena {
  import opened Outcomes

  const OutOfMemory: string := "Arena allocator out of memory!"

  /** The bytes `[start, start + len)` of the buffer. */
  datatype Region = Region(start: nat, len: nat) {
    function End(): nat { start + len }
  }

  /** `rs` are laid out back to back from `lo` and end exactly at `hi`. */
  ghost predicate Tiles(rs: seq<Region>, lo: nat, hi: nat)
    decreases |rs|
  {
    if rs == [] then lo == hi
    else rs[0].start == lo && Tiles(rs[1..], rs[0].End(), hi)
  }

  /** Back-to-back regions lie within `[lo, hi]`, in increasing order, each
      one starting where the previous one ends, so no two of them overlap. */
  lemma {:induction false} TilesOrdered(rs: seq<Region>, lo: nat, hi: nat)
    requires Tiles(rs, lo, hi)
    ensures lo <= hi
    ensures forall k :: 0 <= k < |rs| ==> lo <= rs[k].start && rs[k].End() <= hi
    ensures forall k :: 0 < k < |rs| ==> rs[k].start == rs[k - 1].End()
    ensures forall j, k :: 0 <= j < k < |rs| ==> rs[j].End() <= rs[k].start
    decreases |rs|
  {
    if rs != [] {
      TilesOrdered(rs[1..], rs[0].End(), hi);
      forall j, k | 0 <= j < k < |rs| ensures rs[j].End() <= rs[k].start {
        if 0 < j {
          assert rs[1..][j - 1] == rs[j] && rs[1..][k - 1] == rs[k];
        } else {
          assert rs[1..][k - 1] == rs[k];
        }
      }
      forall k | 0 < k < |rs| ensures rs[k].start == rs[k - 1].End() {
        if 1 < k {
          assert rs[1..][k - 2] == rs[k - 1] && rs[1..][k - 1] == rs[k];
        }
      }
    }
  }

  /** A block carved at the end of the tiled part extends the tiling. */
  lemma {:induction false} TilesExtend(rs: seq<Region>, lo: nat, hi: nat, n: nat)
    requires Tiles(rs, lo, hi)
    ensures Tiles(rs + [Region(hi, n)], lo, hi + n)
    decreases |rs|
  {
    if rs == [] {
      assert Tiles([Region(hi, n)][1..], hi + n, hi + n);
    } else {
      TilesExtend(rs[1..], rs[0].End(), hi, n);
      assert (rs + [Region(hi, n)])[1..] == rs[1..] + [Region(hi, n)];
    }
  }

  class ArenaAlloc {
    const size: nat
    var offset: nat
    /** Every block handed out so far, oldest first. */
    ghost var blocks: seq<Region>

    ghost predicate Valid()
      reads this
    {
      offset <= size && Tiles(blocks, 0, offset)
    }

    /** A fresh arena of `bytes` bytes: the offset is at the start of the buffer. */
    constructor (bytes: nat)
      ensures Valid()
      ensures size == bytes && offset == 0 && blocks == []
    {
      size := bytes;
      offset := 0;
      blocks := [];
    }

    /** `alloc<T>()` with `n` = sizeof(T). */
    method Alloc(n: nat) returns (r: Result<nat>)
      requires Valid()
      modifies this
      ensures Valid()
      ensures r.Ok? <==> old(offset) + n <= size
      ensures r.Ok? ==> r.value == old(offset) && offset == old(offset) + n
      ensures r.Ok? ==> blocks == old(blocks) + [Region(old(offset), n)]
      ensures r.Fatal? ==> r.msg == OutOfMemory && offset == old(offset) && blocks == old(blocks)
    {
      if offset + n > size {
        return Fatal(OutOfMemory);
      }
      var start := offset;
      offset := offset + n;
      TilesExtend(blocks, 0, start, n);
      blocks := blocks + [Region(start, n)];
      return Ok(start);
    }
  }

  /** A usage example, not an operation of the allocator: it shows what a
      caller can rely on from the contract of `Alloc` alone. Two successful
      allocations return adjacent, non-overlapping blocks inside the buffer,
      and a request that does not fit changes nothing. */
  method ClientOfArena(a: nat, b: nat, c: nat)
  {
    var arena := new ArenaAlloc(a + b);
    var x := arena.Alloc(a);
    var y := arena.Alloc(b);
    assert x == Ok(0) && y == Ok(a);
    var z := arena.Alloc(c + 1);
    assert z.Fatal? && arena.offset == a + b;
    TilesOrdered(arena.blocks, 0, arena.offset);
    assert arena.blocks == [Region(0, a), Region(a, b)];
  }
}
