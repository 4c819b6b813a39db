/** Bytes by address, copied between blocks by the allocators. */
module RawMemory {

  /** The byte at `x`; one never written has some value. */
  function ByteAt(cells: map<nat, int>, x: nat): int {
    if x in cells then cells[x] else 0
  }

  /** The `n` bytes at `src` before are at `dst` now. */
  ghost predicate CopiedTo(cells: map<nat, int>, cells': map<nat, int>, src: nat, dst: nat, n: nat) {
    forall x: nat :: dst <= x < dst + n ==> ByteAt(cells', x) == ByteAt(cells, src + (x - dst))
  }

  /** No other byte than the `n` ones at `dst` changed. */
  ghost predicate SameOutside(cells: map<nat, int>, cells': map<nat, int>, dst: nat, n: nat) {
    forall x: nat :: !(dst <= x < dst + n) ==> ByteAt(cells', x) == ByteAt(cells, x)
  }

  class Memory {
    var cells: map<nat, int>

    constructor ()
    {
      cells := map[];
    }

    /** `rt_memcpy` between two separate stretches. */
    method Copy(dst: nat, src: nat, n: nat)
      requires dst + n <= src || src + n <= dst
      modifies this
      ensures CopiedTo(old(cells), cells, src, dst, n) && SameOutside(old(cells), cells, dst, n)
    {
      var k: nat := 0;
      while k < n
        invariant 0 <= k <= n
        invariant CopiedTo(old(cells), cells, src, dst, k) && SameOutside(old(cells), cells, dst, k)
      {
        CopyStep(old(cells), cells, src, dst, k);
        cells := cells[dst + k := ByteAt(cells, src + k)];
        k := k + 1;
      }
    }
  }

  lemma CopyStep(cells: map<nat, int>, cells': map<nat, int>, src: nat, dst: nat, k: nat)
    requires CopiedTo(cells, cells', src, dst, k) && SameOutside(cells, cells', dst, k) && (dst + k < src || src + k < dst)
    ensures var last := cells'[dst + k := ByteAt(cells', src + k)];
            CopiedTo(cells, last, src, dst, k + 1) && SameOutside(cells, last, dst, k + 1)
  {
    var last := cells'[dst + k := ByteAt(cells', src + k)];
    forall x: nat | dst <= x < dst + k + 1 ensures ByteAt(last, x) == ByteAt(cells, src + (x - dst)) {
      assert x < dst + k ==> ByteAt(cells', x) == ByteAt(cells, src + (x - dst));
      assert ByteAt(cells', src + k) == ByteAt(cells, src + k);
    }
    forall x: nat | !(dst <= x < dst + k + 1) ensures ByteAt(last, x) == ByteAt(cells, x) {
      assert ByteAt(cells', x) == ByteAt(cells, x);
    }
  }
}
