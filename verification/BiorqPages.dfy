/** mount_slash/io.c: the pages attached to a request on a bmap. */
module BiorqPages {
  import opened Common

  /** `pages` are the offsets of consecutive pages that take in [off, off + len). */
  predicate Paged(off: nat, len: nat, pages: seq<nat>) {
    var n := |pages|;
    && 0 < n && (forall i :: 0 <= i < n ==> pages[i] == Align(off) + i * BUFSZ)
    && Align(off) + (n - 1) * BUFSZ < off + len <= Align(off) + n * BUFSZ
  }

  /** They are exactly the pages that overlap the range. */
  lemma PagedExact(off: nat, len: nat, pages: seq<nat>, p: nat)
    requires Paged(off, len, pages) && len > 0 && p % BUFSZ == 0
    ensures p in pages <==> p < off + len && off < p + BUFSZ
  {
    var i := (p - Align(off)) / BUFSZ;
    assert p == Align(off) + i * BUFSZ;
    if p < off + len && off < p + BUFSZ {
      assert 0 <= i < |pages|;
      assert pages[i] == p;
    }
  }

  /** The part of msl_biorq_build() that computes the page offsets. */
  method Build(off: nat, len: nat) returns (pages: seq<nat>)
    requires 0 < len && off + len <= BMAP_SIZE
    ensures Paged(off, len, pages)
  {
    var aoff := Align(off);
    var alen := len + off % BUFSZ;
    var npages := alen / BUFSZ;
    if alen % BUFSZ != 0 {
      npages := npages + 1;
    }
    pages := [];
    for i := 0 to npages
      invariant |pages| == i && forall k :: 0 <= k < i ==> pages[k] == aoff + k * BUFSZ
    {
      pages := pages + [aoff + i * BUFSZ];
    }
  }
}
