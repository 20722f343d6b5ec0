/** What the flusher sends is what the file holds: the vectors of an RPC, read through the cached
    pages of its bmap, are the bytes of the flat file. */
module FlushedFile {
  import opened Common
  import opened FlatPages
  import CoalesceMap

  /** The pages of one bmap. */
  ghost function BmapPages(m: Pages, bno: nat): CoalesceMap.Cache {
    map k | k in m && k.bno == bno :: k.off := m[k]
  }

  lemma ByteIsFile(m: Pages, bno: nat, x: nat, c: int)
    requires Good(m) && x < BMAP_SIZE && CoalesceMap.ByteAt(BmapPages(m, bno), x, c)
    ensures Has(m, bno * BMAP_SIZE + x) && At(m, bno * BMAP_SIZE + x) == c
  {
    PageOfBmap(bno, x);
    var k := Key(bno, Align(x));
    assert KeyOf(bno * BMAP_SIZE + x) == k;
    assert k in m && BmapPages(m, bno)[k.off] == m[k];
  }

  /** The bytes of an RPC are the bytes of the file in the range of its group. */
  lemma SentIsFile(m: Pages, bno: nat, iovs: seq<CoalesceMap.Iov>, soff: nat, size: nat)
    requires Good(m) && soff + size <= BMAP_SIZE && CoalesceMap.Mapped(BmapPages(m, bno), iovs, soff, size)
    ensures Reads(m, bno * BMAP_SIZE + soff, CoalesceMap.Gather(BmapPages(m, bno), iovs))
  {
    var off, sent := bno * BMAP_SIZE + soff, CoalesceMap.Gather(BmapPages(m, bno), iovs);
    forall x: nat | In(x, off, |sent|) ensures Has(m, x) && At(m, x) == sent[x - off] {
      assert CoalesceMap.ByteAt(BmapPages(m, bno), soff + (x - off), sent[x - off]);
      ByteIsFile(m, bno, soff + (x - off), sent[x - off]);
    }
  }

  /** So a write that was flushed arrives: where the range of the RPC meets that of the write,
      the RPC carries the data of the write. */
  lemma WriteArrives(m0: Pages, m: Pages, off: nat, data: seq<int>, bno: nat, iovs: seq<CoalesceMap.Iov>,
                     soff: nat, size: nat, x: nat)
    requires Wrote(m0, m, off, data) && soff + size <= BMAP_SIZE
    requires CoalesceMap.Mapped(BmapPages(m, bno), iovs, soff, size)
    requires In(x, off, |data|) && In(x, bno * BMAP_SIZE + soff, size)
    ensures CoalesceMap.Gather(BmapPages(m, bno), iovs)[x - (bno * BMAP_SIZE + soff)] == data[x - off]
  {
    SentIsFile(m, bno, iovs, soff, size);
  }
}
