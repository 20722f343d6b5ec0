/** mount_slash/bflush.c: from a group of requests to the pages and I/O vectors of one RPC.
    The assertions of the source are kept as assertions. */
module CoalesceMap {
  import opened Common
  import opened BiorqPages
  import opened Coalesce

  ghost predicate AllPaged(rs: seq<Req>) {
    forall i :: 0 <= i < |rs| ==> rs[i].len > 0 && Paged(rs[i].off, rs[i].len, rs[i].pages)
  }

  /** The first `n` entries are the pages of [soff, end). */
  ghost predicate Listed(bmpces: array<nat>, n: nat, soff: nat, end: nat)
    reads bmpces
  {
    && 0 < n <= bmpces.Length && (forall k :: 0 <= k < n ==> bmpces[k] == Align(soff) + k * BUFSZ)
    && Align(soff) + (n - 1) * BUFSZ < end <= Align(soff) + n * BUFSZ
  }

  /** A page that takes in the bytes before `off` is added if it is not there. */
  method AddPage(bmpces: array<nat>, n: nat, bmpce: nat, ghost soff: nat, ghost end: nat, ghost off: nat)
    returns (n': nat)
    requires bmpces.Length == MAX_IOV && bmpce % BUFSZ == 0 && bmpce < off <= bmpce + BUFSZ && off <= soff + MTU
    requires if n == 0 then bmpce == Align(soff) && end <= off
             else Listed(bmpces, n, soff, end) && bmpce <= Align(soff) + n * BUFSZ
    modifies bmpces
    ensures Listed(bmpces, n', soff, Max(end, off))
  {
    n' := n;
    if n == 0 {
      bmpces[0] := bmpce;
      n' := 1;
    } else if bmpces[n - 1] < bmpce {
      assert bmpce - BUFSZ == bmpces[n - 1];
      bmpces[n] := bmpce;
      n' := n + 1;
    }
  }

  /** The inner loop of bmap_flush_coalesce_prep(): the pages of one more request. */
  method AddPages(bmpces: array<nat>, n: nat, r: Req, ghost soff: nat, ghost end: nat) returns (n': nat)
    requires bmpces.Length == MAX_IOV && r.len > 0 && Paged(r.off, r.len, r.pages)
    requires Voff(r) <= soff + MTU && soff <= r.off <= end
    requires if n == 0 then r.off == soff == end else Listed(bmpces, n, soff, end)
    modifies bmpces
    ensures Listed(bmpces, n', soff, Max(end, Voff(r)))
  {
    n' := n;
    var off: nat, reqsz: nat := r.off, r.len;
    for j := 0 to |r.pages|
      invariant off + reqsz == Voff(r) && (reqsz == 0 <==> j == |r.pages|)
      invariant off == if j == 0 then r.off else if j == |r.pages| then Voff(r) else Align(r.off) + j * BUFSZ
      invariant if j == 0 && n == 0 then n' == 0
                else Listed(bmpces, n', soff, Max(end, off))
    {
      var bmpce := r.pages[j];
      assert bmpce == if j == 0 then Align(r.off) else off;
      var room := if j == 0 then BUFSZ - (off - bmpce) else BUFSZ;
      var tlen := if reqsz < room then reqsz else room;
      ghost var was := off;
      off := off + tlen;
      reqsz := reqsz - tlen;
      n' := AddPage(bmpces, n', bmpce, soff, Max(end, was), off);
    }
    assert reqsz == 0;
  }

  lemma {:induction false} EndsGrow(rs: seq<Req>, i: nat, n: nat)
    requires 0 < i <= n <= |rs| && NoHole(rs, 0, n)
    ensures NoHole(rs, 0, i) && rs[0].off <= rs[i - 1].off && End(rs, 0, i) <= End(rs, 0, n)
    ensures i < n ==> rs[i - 1].off <= rs[i].off <= End(rs, 0, i) && Voff(rs[i]) <= End(rs, 0, n)
    decreases n, i
  {
    if i < n {
      EndsGrow(rs, i, n - 1);
    } else if 1 < i {
      EndsGrow(rs, i - 1, i - 1);
    }
  }

  /** bmap_flush_coalesce_prep(): the pages listed are those of the range of the group. */
  method Prep(g: Group, bmpces: array<nat>) returns (nbmpces: nat)
    requires GroupOk(g) && g.size <= MTU && AllPaged(g.reqs) && bmpces.Length == MAX_IOV
    modifies bmpces
    ensures nbmpces <= MAX_IOV && Paged(g.soff, g.size, bmpces[..nbmpces])
  {
    var n, e, loff := |g.reqs|, g.reqs[0], g.reqs[0].off;
    EndsGrow(g.reqs, 1, n);
    nbmpces := AddPages(bmpces, 0, e, g.soff, g.soff);
    for i := 1 to n
      invariant Listed(bmpces, nbmpces, g.soff, End(g.reqs, 0, i))
      invariant Voff(e) == End(g.reqs, 0, i) && loff == g.reqs[i - 1].off
    {
      var r := g.reqs[i];
      EndsGrow(g.reqs, i, n);
      assert r.off >= loff;
      assert r.off <= Voff(e);
      nbmpces := AddPages(bmpces, nbmpces, r, g.soff, End(g.reqs, 0, i));
      if Voff(r) > Voff(e) {
        e := r;
      }
      loff := r.off;
    }
    assert g.size == (e.off - g.reqs[0].off) + e.len;
  }

  // ----- The I/O vectors -----

  type Cache = map<nat, seq<int>>

  /** A part of one cached page. */
  datatype Iov = Iov(page: nat, start: nat, len: nat)

  /** The pages of a range are cached in full. */
  ghost predicate Cached(cache: Cache, pages: seq<nat>) {
    forall i :: 0 <= i < |pages| ==> pages[i] in cache && |cache[pages[i]]| == BUFSZ
  }

  ghost predicate IovOk(cache: Cache, v: Iov) {
    v.page in cache && 0 < v.len && v.start + v.len <= |cache[v.page]|
  }

  ghost function Bytes(cache: Cache, v: Iov): seq<int> {
    if IovOk(cache, v) then cache[v.page][v.start..v.start + v.len] else []
  }

  ghost function Gather(cache: Cache, iovs: seq<Iov>): seq<int> {
    if iovs == [] then [] else Gather(cache, iovs[..|iovs| - 1]) + Bytes(cache, iovs[|iovs| - 1])
  }

  /** The byte the cache holds for an offset. */
  ghost predicate ByteAt(cache: Cache, x: nat, c: int) {
    Align(x) in cache && x % BUFSZ < |cache[Align(x)]| && cache[Align(x)][x % BUFSZ] == c
  }

  /** `s` is what the cache holds from `off` on. */
  ghost predicate Image(cache: Cache, off: nat, s: seq<int>) {
    forall k :: 0 <= k < |s| ==> ByteAt(cache, off + k, s[k])
  }

  /** One vector more. */
  lemma ImageMore(cache: Cache, off: nat, s: seq<int>, v: Iov)
    requires Image(cache, off, s) && IovOk(cache, v) && v.page % BUFSZ == 0 && v.start + v.len <= BUFSZ
    requires off + |s| == v.page + v.start
    ensures Image(cache, off, s + Bytes(cache, v)) && |Bytes(cache, v)| == v.len
  {
    var t := s + Bytes(cache, v);
    forall k | 0 <= k < |t| ensures ByteAt(cache, off + k, t[k]) {
      if k >= |s| {
        var x := off + k;
        assert x == v.page + (v.start + (k - |s|)) && Align(x) == v.page;
      }
    }
  }

  /** The vectors made so far hold the first bytes of the range. */
  ghost predicate Mapped(cache: Cache, iovs: seq<Iov>, soff: nat, done: nat) {
    && (forall k :: 0 <= k < |iovs| ==> IovOk(cache, iovs[k]))
    && |Gather(cache, iovs)| == done && Image(cache, soff, Gather(cache, iovs))
  }

  lemma MappedMore(cache: Cache, iovs: seq<Iov>, soff: nat, done: nat, v: Iov)
    requires Mapped(cache, iovs, soff, done) && IovOk(cache, v)
    requires v.page % BUFSZ == 0 && v.start + v.len <= BUFSZ && soff + done == v.page + v.start
    ensures Mapped(cache, iovs + [v], soff, done + v.len)
  {
    assert (iovs + [v])[..|iovs|] == iovs;
    ImageMore(cache, soff, Gather(cache, iovs), v);
  }

  /** A page of the range of a group is a page of one of its requests. */
  lemma PageCached(g: Group, cache: Cache, p: nat)
    requires GroupOk(g) && AllPaged(g.reqs) && p % BUFSZ == 0 && p < g.soff + g.size && g.soff < p + BUFSZ
    requires forall i :: 0 <= i < |g.reqs| ==> Cached(cache, g.reqs[i].pages)
    ensures p in cache && |cache[p]| == BUFSZ
  {
    var x := if p < g.soff then g.soff else p;
    GroupCovers(g, x);
    var k :| 0 <= k < |g.reqs| && Holds(g.reqs[k], x);
    var r := g.reqs[k];
    PagedExact(r.off, r.len, r.pages, p);
    var j :| 0 <= j < |r.pages| && r.pages[j] == p;
    assert Cached(cache, r.pages);
  }

  lemma GroupCached(g: Group, cache: Cache, pages: seq<nat>)
    requires GroupOk(g) && AllPaged(g.reqs) && Paged(g.soff, g.size, pages)
    requires forall i :: 0 <= i < |g.reqs| ==> Cached(cache, g.reqs[i].pages)
    ensures g.size > 0 && Cached(cache, pages)
  {
    EndsGrow(g.reqs, 1, |g.reqs|);
    forall i | 0 <= i < |pages| ensures pages[i] in cache && |cache[pages[i]]| == BUFSZ {
      PageCached(g, cache, pages[i]);
    }
  }

  /** What is left of the range before page `i`. */
  function Left(pages: seq<nat>, soff: nat, size: nat, i: nat): int
    requires i <= |pages|
  {
    if i == 0 then size else if i == |pages| then 0 else soff + size - pages[i]
  }

  /** The vector of page `i`. */
  method IovOf(pages: seq<nat>, soff: nat, size: nat, i: nat, tot: nat, ghost cache: Cache) returns (v: Iov)
    requires Paged(soff, size, pages) && size > 0 && Cached(cache, pages) && i < |pages|
    requires tot == Left(pages, soff, size, i)
    ensures IovOk(cache, v) && v.page == pages[i] && v.page % BUFSZ == 0 && v.start + v.len <= BUFSZ
    ensures soff + (size - tot) == v.page + v.start && v.len <= tot <= size
    ensures tot - v.len == Left(pages, soff, size, i + 1)
  {
    var bmpce := pages[i];
    var start := if i != 0 then 0 else soff - bmpce;
    var room := BUFSZ - start;
    v := Iov(bmpce, start, if tot < room then tot else room);
  }

  /** The loop of bmap_flush_coalesce_map(). */
  method MapPages(pages: seq<nat>, soff: nat, size: nat, iovs: array<Iov>, ghost cache: Cache)
    requires Paged(soff, size, pages) && size > 0 && Cached(cache, pages) && |pages| <= iovs.Length
    modifies iovs
    ensures Mapped(cache, iovs[..|pages|], soff, size)
    ensures forall k :: 0 <= k < |pages| ==> iovs[k].page == pages[k]
  {
    var tot: nat := size;
    for i := 0 to |pages|
      invariant forall k :: 0 <= k < i ==> iovs[k].page == pages[k]
      invariant tot == Left(pages, soff, size, i) && tot <= size && Mapped(cache, iovs[..i], soff, size - tot)
    {
      var v := IovOf(pages, soff, size, i, tot, cache);
      MappedMore(cache, iovs[..i], soff, size - tot, v);
      iovs[i] := v;
      assert iovs[..i + 1] == iovs[..i] + [v];
      tot := tot - v.len;
    }
    assert tot == 0;
  }

  /** bmap_flush_coalesce_map(): one non-empty vector a page, and together they hold
      exactly the cached bytes of the range of the group, however the requests overlap. */
  method Map(g: Group, bmpces: array<nat>, iovs: array<Iov>, ghost cache: Cache) returns (niovs: nat)
    requires GroupOk(g) && g.size <= MTU && AllPaged(g.reqs) && bmpces.Length == iovs.Length == MAX_IOV
    requires forall i :: 0 <= i < |g.reqs| ==> Cached(cache, g.reqs[i].pages)
    modifies bmpces, iovs
    ensures niovs <= MAX_IOV && Paged(g.soff, g.size, bmpces[..niovs])
    ensures forall k :: 0 <= k < niovs ==> iovs[k].page == bmpces[k]
    ensures Mapped(cache, iovs[..niovs], g.soff, g.size)
  {
    niovs := Prep(g, bmpces);
    var pages := bmpces[..niovs];
    GroupCached(g, cache, pages);
    assert g.soff == g.reqs[0].off;
    MapPages(pages, g.soff, g.size, iovs, cache);
    assert bmpces[..niovs] == pages;
  }
}
