/** mount_slash/io.c: the pages a read has to fetch are grouped into read RPCs.  Pages are
    given by their offsets; which launch fails, if any, is an input. */
module ReadBatch {
  import opened Common

  /** An RPC for the pages [start, start + n) of the list. */
  datatype Rpc = Rpc(start: nat, n: nat)

  /** Each page follows the one before it. */
  predicate Contiguous(pages: seq<nat>, lo: nat, hi: nat) {
    && lo <= hi <= |pages|
    && (hi <= lo + 1 || (Contiguous(pages, lo, hi - 1) && pages[hi - 1] == pages[hi - 2] + BUFSZ))
  }

  /** The pages of an RPC are a range of the bmap without a hole. */
  lemma {:induction false} ContiguousAt(pages: seq<nat>, lo: nat, hi: nat, k: nat)
    requires Contiguous(pages, lo, hi) && lo <= k < hi
    ensures pages[k] == pages[lo] + (k - lo) * BUFSZ
    decreases hi
  {
    if k < hi - 1 {
      ContiguousAt(pages, lo, hi - 1, k);
    } else if lo < k {
      ContiguousAt(pages, lo, hi - 1, k - 1);
    }
  }

  /** The RPC cannot be longer: it is full, the list ends or the next page does not follow. */
  predicate Maximal(pages: seq<nat>, lo: nat, hi: nat) {
    0 < hi <= |pages| && (hi - lo == MAX_RPC_BUFS || hi == |pages| || pages[hi] != pages[hi - 1] + BUFSZ)
  }

  predicate RpcOk(pages: seq<nat>, c: Rpc) {
    && 0 < c.n <= MAX_RPC_BUFS && Contiguous(pages, c.start, c.start + c.n)
    && Maximal(pages, c.start, c.start + c.n)
  }

  /** The RPCs are consecutive and take up the first `upto` pages. */
  ghost predicate Batches(pages: seq<nat>, rpcs: seq<Rpc>, upto: nat) {
    if rpcs == [] then upto == 0 else
      var c := rpcs[|rpcs| - 1];
      RpcOk(pages, c) && c.start + c.n == upto && Batches(pages, rpcs[..|rpcs| - 1], c.start)
  }

  lemma BatchesMore(pages: seq<nat>, rpcs: seq<Rpc>, c: Rpc)
    requires Batches(pages, rpcs, c.start) && RpcOk(pages, c)
    ensures Batches(pages, rpcs + [c], c.start + c.n)
  {
    assert (rpcs + [c])[..|rpcs|] == rpcs;
  }

  ghost predicate In(c: Rpc, k: nat) {
    c.start <= k < c.start + c.n
  }

  /** So every one of those pages is in exactly one RPC. */
  lemma {:induction false} InOne(pages: seq<nat>, rpcs: seq<Rpc>, upto: nat, k: nat)
    requires Batches(pages, rpcs, upto)
    ensures k < upto <==> exists i :: 0 <= i < |rpcs| && In(rpcs[i], k)
    ensures forall i, j :: 0 <= i < j < |rpcs| && In(rpcs[i], k) ==> !In(rpcs[j], k)
  {
    if rpcs != [] {
      var n := |rpcs| - 1;
      var p, c := rpcs[..n], rpcs[n];
      InOne(pages, p, c.start, k);
      if k < c.start {
        var i :| 0 <= i < n && In(p[i], k);
        assert In(rpcs[i], k);
      } else if k < upto {
        assert In(c, k);
      }
      assert forall i :: 0 <= i < n ==> p[i] == rpcs[i];
    }
  }

  /** msl_launch_read_rpcs(), its second and third loop.  `failAt` is the number of the launch
      that fails.  The pages from `eio` on are marked failed. */
  method Launch(pages: seq<nat>, failAt: nat) returns (rpcs: seq<Rpc>, eio: nat)
    ensures Batches(pages, rpcs, eio) && eio <= |pages|
    ensures |rpcs| <= failAt && (|rpcs| < failAt ==> eio == |pages|)
  {
    rpcs := [];
    var i, j, off := 0, 0, 0;
    while i < |pages|
      invariant j <= i <= |pages| && i - j < MAX_RPC_BUFS && (i == |pages| ==> j == i)
      invariant Batches(pages, rpcs, j) && Contiguous(pages, j, i) && |rpcs| <= failAt
      invariant 0 < i ==> off == pages[i - 1] + BUFSZ
    {
      var e := pages[i];
      if i > j && e != off {
        if |rpcs| == failAt {
          return rpcs, j;
        }
        BatchesMore(pages, rpcs, Rpc(j, i - j));
        rpcs := rpcs + [Rpc(j, i - j)];
        j := i;
      }
      if i - j + 1 == MAX_RPC_BUFS || i == |pages| - 1 {
        if |rpcs| == failAt {
          return rpcs, j;
        }
        BatchesMore(pages, rpcs, Rpc(j, i - j + 1));
        rpcs := rpcs + [Rpc(j, i - j + 1)];
        j := i + 1;
      }
      off := e + BUFSZ;
      i := i + 1;
    }
    eio := |pages|;
  }
}
