/** mount_slash/io.c: reads and writes of a file through its cached pages.  A request is split
    over bmaps, then over pages; what a page does not hold is fetched before it is read. */
module PagedIo {
  import opened Common
  import opened BiorqPages
  import opened FlatPages
  import opened ValidRegion

  /** MAX_BMAPS_REQ */
  const MAX_BMAPS: nat := 2

  /** The limit of off_t, and that of size_t. */
  const OFF_LIMIT: nat := 0x8000_0000_0000_0000
  const SIZE_LIMIT: nat := 0x1_0000_0000_0000_0000

  /** A piece of a request that lies in one bmap; `off` is relative to the bmap. */
  datatype Part = Part(bno: nat, off: nat, len: nat)

  predicate PartOk(p: Part) {
    0 < p.len && p.off + p.len <= BMAP_SIZE
  }

  function PartOff(p: Part): nat {
    p.bno * BMAP_SIZE + p.off
  }

  function PartEnd(p: Part): nat {
    PartOff(p) + p.len
  }

  /** The parts are the consecutive pieces of [off, off + size); each but the first starts a bmap. */
  predicate Tiles(ps: seq<Part>, off: nat, size: nat) {
    if ps == [] then size == 0 else
      var l := ps[|ps| - 1];
      && PartOk(l) && l.len <= size && PartOff(l) + l.len == off + size && (|ps| > 1 ==> l.off == 0)
      && Tiles(ps[..|ps| - 1], off, size - l.len)
  }

  /** How much of [off, off + size) lies before the end of the file. */
  function Clipped(off: nat, size: nat, fsz: nat): nat {
    if fsz <= off then 0 else if fsz < off + size then fsz - off else size
  }

  /** The number of bmaps a non-empty range touches. */
  function Spanned(off: nat, size: nat): int
    requires size > 0
  {
    (off + size - 1) / BMAP_SIZE - off / BMAP_SIZE + 1
  }

  /** What is read of a request: exactly its bytes before the end of the file. */
  lemma ClippedIff(off: nat, size: nat, fsz: nat, x: nat)
    ensures In(x, off, Clipped(off, size, fsz)) <==> In(x, off, size) && x < fsz
  {
  }

  /** The bmaps of a range: exactly those that hold one of its bytes. */
  lemma SpannedIff(off: nat, size: nat, b: nat)
    requires size > 0
    ensures off / BMAP_SIZE <= b < off / BMAP_SIZE + Spanned(off, size) <==>
            exists x: nat :: In(x, off, size) && x / BMAP_SIZE == b
  {
    var lo, hi := off / BMAP_SIZE, (off + size - 1) / BMAP_SIZE;
    if lo <= b <= hi {
      var x := Max(off, b * BMAP_SIZE);
      assert In(x, off, size) && x / BMAP_SIZE == b;
    }
    forall x: nat | In(x, off, size) ensures lo <= x / BMAP_SIZE <= hi {
    }
  }

  lemma TilesMore(ps: seq<Part>, off: nat, size: nat, p: Part)
    requires Tiles(ps, off, size) && PartOk(p) && PartOff(p) == off + size && (ps != [] ==> p.off == 0)
    ensures Tiles(ps + [p], off, size + p.len)
  {
    assert (ps + [p])[..|ps|] == ps;
  }

  /** What the loop of msl_io() knows before part `i`: `tsize` bytes are left, the part starts
      at `roff`, relative to the first bmap, and takes `tlen` of them. */
  predicate Next(start: nat, i: nat, roff: nat, tsize: nat, tlen: int, off: nat, size: nat) {
    && 0 < tsize <= size && start * BMAP_SIZE + roff + tsize == off + size
    && 0 <= roff - i * BMAP_SIZE < BMAP_SIZE && (i > 0 ==> roff == i * BMAP_SIZE)
    && tlen == if BMAP_SIZE - (roff - i * BMAP_SIZE) < tsize then BMAP_SIZE - (roff - i * BMAP_SIZE) else tsize
  }

  /** The last part takes all that is left; any other ends with its bmap. */
  lemma NextPart(start: nat, i: nat, roff: nat, tsize: nat, tlen: int, off: nat, size: nat)
    requires size > 0 && Next(start, i, roff, tsize, tlen, off, size)
    ensures tlen == tsize <==> (off + size - 1) / BMAP_SIZE <= start + i
    ensures tlen < tsize ==> roff + tlen == (i + 1) * BMAP_SIZE
  {
    var e := (off + size - 1) / BMAP_SIZE;
    assert e * BMAP_SIZE <= off + size - 1 < (e + 1) * BMAP_SIZE;
  }

  /** The splitting of msl_io(): EINVAL when the range touches more than two bmaps. */
  method Split(off: nat, size: nat) returns (parts: Option<seq<Part>>)
    requires size > 0
    ensures parts.None? <==> Spanned(off, size) > MAX_BMAPS
    ensures parts.Some? ==> Tiles(parts.value, off, size) && |parts.value| == Spanned(off, size)
  {
    var start := off / BMAP_SIZE;
    var end := (off + size - 1) / BMAP_SIZE;
    var nr := end - start + 1;
    if nr > MAX_BMAPS {
      return None;
    }
    var tsize: nat := size;
    var roff: nat := off - start * BMAP_SIZE;
    assert roff < BMAP_SIZE;
    var tlen := if BMAP_SIZE - roff < tsize then BMAP_SIZE - roff else tsize;
    var ps := [];
    var i := 0;
    while i < nr
      invariant i <= nr && |ps| == i
      invariant i == nr ==> Tiles(ps, off, size)
      invariant i < nr ==> Next(start, i, roff, tsize, tlen, off, size) && Tiles(ps, off, size - tsize)
    {
      assert tsize > 0;
      NextPart(start, i, roff, tsize, tlen, off, size);
      var p := Part(start + i, roff - i * BMAP_SIZE, tlen);
      TilesMore(ps, off, size - tsize, p);
      ps := ps + [p];
      i := i + 1;
      if i < nr {
        roff := roff + tlen;
        tsize := tsize - tlen;
        tlen := if BMAP_SIZE < tsize then BMAP_SIZE else tsize;
      }
    }
    parts := Some(ps);
  }

  /** The parts follow each other from one end of the range to the other. */
  lemma {:induction false} TilesAt(ps: seq<Part>, off: nat, size: nat, i: nat)
    requires Tiles(ps, off, size) && i < |ps|
    ensures PartOk(ps[i]) && off <= PartOff(ps[i]) && PartOff(ps[i]) + ps[i].len <= off + size
    ensures PartOff(ps[i]) == if i == 0 then off else PartOff(ps[i - 1]) + ps[i - 1].len
    ensures i == |ps| - 1 ==> PartOff(ps[i]) + ps[i].len == off + size
    ensures i > 0 ==> ps[i].off == 0
  {
    var n := |ps| - 1;
    if i < n {
      TilesAt(ps[..n], off, size - ps[n].len, i);
    } else if 0 < n {
      TilesAt(ps[..n], off, size - ps[n].len, n - 1);
    }
  }

  function Total(ps: seq<Part>): nat {
    if ps == [] then 0 else Total(ps[..|ps| - 1]) + ps[|ps| - 1].len
  }

  /** The parts have as many bytes as the request. */
  lemma {:induction false} TilesTotal(ps: seq<Part>, off: nat, size: nat)
    requires Tiles(ps, off, size)
    ensures Total(ps) == size
  {
    if ps != [] {
      TilesTotal(ps[..|ps| - 1], off, size - ps[|ps| - 1].len);
    }
  }

  /** Where the first `i` parts end. */
  function Upto(ps: seq<Part>, off: nat, i: nat): nat
    requires i <= |ps|
  {
    if i == 0 then off else PartOff(ps[i - 1]) + ps[i - 1].len
  }

  lemma UptoIs(ps: seq<Part>, off: nat, size: nat, i: nat)
    requires Tiles(ps, off, size) && i < |ps|
    ensures PartOk(ps[i]) && off <= Upto(ps, off, i) == PartOff(ps[i])
    ensures PartOff(ps[i]) <= PartEnd(ps[i]) == Upto(ps, off, i + 1) <= off + size
    ensures i + 1 == |ps| ==> Upto(ps, off, i + 1) == off + size
    ensures off == Upto(ps, off, i) || PartOff(ps[i]) % BUFSZ == 0
  {
    TilesAt(ps, off, size, i);
    PageOfBmap(ps[i].bno, 0);
  }

  /** A request on one bmap with its pages; `buf` is the user's data of a write. */
  datatype Biorq = Biorq(part: Part, buf: seq<int>, pages: seq<nat>)

  ghost predicate BiorqOk(r: Biorq) {
    PartOk(r.part) && Paged(r.part.off, r.part.len, r.pages)
  }

  lemma PageOverlaps(p: Part, pages: seq<nat>, i: nat)
    requires PartOk(p) && Paged(p.off, p.len, pages) && i < |pages|
    ensures KeyOk(Key(p.bno, pages[i])) && Overlaps(Key(p.bno, pages[i]), PartOff(p), p.len)
  {
    var e, a := pages[i], Align(p.off);
    assert e == a + i * BUFSZ && a % BUFSZ == 0;
    assert e % BUFSZ == 0;
    assert e < p.off + p.len <= BMAP_SIZE;
  }

  /** How much of the page at `e` the next step of a copy takes, and from where. */
  method Chunk(i: nat, toff: nat, tsize: nat, e: nat) returns (start: nat, nbytes: nat)
    requires e <= toff < e + BUFSZ && (i != 0 ==> toff == e)
    ensures start == toff - e && nbytes == if BUFSZ - start < tsize then BUFSZ - start else tsize
  {
    start := 0;
    if i == 0 && toff > e {
      start := toff - e;
      nbytes := if BUFSZ - start < tsize then BUFSZ - start else tsize;
    } else {
      nbytes := if BUFSZ < tsize then BUFSZ else tsize;
    }
  }

  /** Where a copy is once `i` of the pages of [off, off + len) are done. */
  function Reached(off: nat, len: nat, i: nat): nat {
    var a := Align(off) + i * BUFSZ;
    if a <= off then off else if a < off + len then a else off + len
  }

  /** Where the part of page `i` starts in the request. */
  function From(r: Biorq, i: nat): nat {
    Reached(r.part.off, r.part.len, i)
  }

  /** Where the part of page `i` starts, in the file. */
  function Mid(r: Biorq, i: nat): nat {
    r.part.bno * BMAP_SIZE + From(r, i)
  }

  lemma FromIn(r: Biorq, i: nat)
    requires BiorqOk(r) && i < |r.pages|
    ensures r.pages[i] <= From(r, i) < From(r, i + 1) <= r.pages[i] + BUFSZ
    ensures PartOff(r.part) <= Mid(r, i) < Mid(r, i + 1)
    ensures i == 0 ==> From(r, i) == r.part.off && Mid(r, i) == PartOff(r.part)
    ensures i > 0 ==> From(r, i) == r.pages[i] && Mid(r, i) % BUFSZ == 0
    ensures i + 1 == |r.pages| ==> Mid(r, i + 1) == PartEnd(r.part)
  {
    assert KeyOk(Key(r.part.bno, r.pages[i]));
    PageOfBmap(r.part.bno, r.pages[i]);
  }

  /** The chunk of page `i`, for a copy of the whole request. */
  method ChunkOf(r: Biorq, i: nat, toff: nat, tsize: nat) returns (start: nat, nbytes: nat)
    requires BiorqOk(r) && i < |r.pages| && toff == From(r, i) && toff + tsize == r.part.off + r.part.len
    ensures start == toff - r.pages[i] && 0 < nbytes <= tsize && start + nbytes <= BUFSZ
    ensures toff + nbytes == From(r, i + 1)
    ensures toff >= r.part.off && FileOff(Key(r.part.bno, r.pages[i])) + start == PartOff(r.part) + (toff - r.part.off)
  {
    FromIn(r, i);
    start, nbytes := Chunk(i, toff, tsize, r.pages[i]);
  }

  /** The first `n` pages of a part are cached. */
  ghost predicate PagesIn(m: Pages, p: Part, offs: seq<nat>, n: nat) {
    n <= |offs| && forall i :: 0 <= i < n ==> Key(p.bno, offs[i]) in m
  }

  lemma PagesMore(m0: Pages, m1: Pages, m2: Pages, p: Part, offs: seq<nat>, n: nat)
    requires n < |offs| && PagesIn(m1, p, offs, n) && Key(p.bno, offs[n]) in m2
    requires Grew(m0, m1, PartOff(p), p.len) && Grew(m1, m2, PartOff(p), p.len)
    ensures Grew(m0, m2, PartOff(p), p.len) && PagesIn(m2, p, offs, n + 1)
  {
  }

  ghost predicate Loaded(m: Pages, r: Biorq) {
    PagesIn(m, r.part, r.pages, |r.pages|)
  }

  ghost predicate HereIn(m: Pages, r: Biorq) {
    BiorqOk(r) && Loaded(m, r)
  }

  /** A write has the data of its range. */
  ghost predicate Sized(r: Biorq) {
    |r.buf| == r.part.len
  }

  /** The pages of a request have their marks. */
  ghost predicate MarksHere(ms: Marks, r: Biorq) {
    BiorqOk(r) && forall i :: 0 <= i < |r.pages| ==> Key(r.part.bno, r.pages[i]) in ms.at
  }

  lemma HereStays(m: Pages, m': Pages, r: Biorq)
    requires Loaded(m, r) && m.Keys <= m'.Keys
    ensures Loaded(m', r)
  {
  }

  ghost predicate AllLoaded(m: Pages, rs: seq<Biorq>) {
    forall i :: 0 <= i < |rs| ==> Loaded(m, rs[i])
  }

  lemma LoadedStays(m: Pages, m': Pages, rs: seq<Biorq>)
    requires AllLoaded(m, rs) && m.Keys == m'.Keys
    ensures AllLoaded(m', rs)
  {
    forall i | 0 <= i < |rs| ensures Loaded(m', rs[i]) {
      HereStays(m, m', rs[i]);
    }
  }

  /** The part of a buffer, if there is one, that belongs to a part of [off, off + |buf|). */
  function Slice(buf: seq<int>, off: nat, p: Part): seq<int>
    requires buf == [] || (off <= PartOff(p) && PartOff(p) + p.len <= off + |buf|)
  {
    if buf == [] then [] else buf[PartOff(p) - off..PartOff(p) - off + p.len]
  }

  /** The request of a part is built. */
  ghost predicate BuiltAt(m: Pages, r: Biorq, p: Part, off: nat, buf: seq<int>) {
    && r.part == p && HereIn(m, r) && (buf == [] || (off <= PartOff(p) && PartOff(p) + p.len <= off + |buf|))
    && r.buf == Slice(buf, off, p)
  }

  ghost predicate Built(m: Pages, rs: seq<Biorq>, ps: seq<Part>, off: nat, buf: seq<int>) {
    |rs| <= |ps| && forall i :: 0 <= i < |rs| ==> BuiltAt(m, rs[i], ps[i], off, buf)
  }

  lemma BuiltMore(m0: Pages, m1: Pages, m2: Pages, rs: seq<Biorq>, ps: seq<Part>, off: nat, size: nat, buf: seq<int>,
                  r: Biorq)
    requires |rs| < |ps| && Built(m1, rs, ps, off, buf) && BuiltAt(m2, r, ps[|rs|], off, buf)
    requires Grew(m0, m1, off, size) && Grew(m1, m2, PartOff(r.part), r.part.len)
    requires off <= PartOff(r.part) && PartOff(r.part) + r.part.len <= off + size
    ensures Grew(m0, m2, off, size) && Built(m2, rs + [r], ps, off, buf)
  {
    GrewWithin(m0, m1, m2, off, size, PartOff(r.part), r.part.len);
    forall i | 0 <= i < |rs| ensures BuiltAt(m2, rs[i], ps[i], off, buf) {
      assert BuiltAt(m1, rs[i], ps[i], off, buf);
    }
  }

  lemma BuiltMarked(m: Pages, ms: Marks, rs: seq<Biorq>, ps: seq<Part>, off: nat, buf: seq<int>)
    requires Built(m, rs, ps, off, buf) && |rs| == |ps| && m.Keys == ms.at.Keys
    ensures AllMarked(ms, rs) && SameParts(rs, ps) && AllLoaded(m, rs)
  {
    forall i | 0 <= i < |rs| ensures Loaded(m, rs[i]) && rs[i].part == ps[i] && MarksHere(ms, rs[i]) {
      assert BuiltAt(m, rs[i], ps[i], off, buf);
    }
  }

  lemma BuiltStays(m: Pages, m': Pages, rs: seq<Biorq>, ps: seq<Part>, off: nat, buf: seq<int>)
    requires Built(m, rs, ps, off, buf) && m.Keys == m'.Keys
    ensures Built(m', rs, ps, off, buf)
  {
    forall i | 0 <= i < |rs| ensures BuiltAt(m', rs[i], ps[i], off, buf) {
      assert BuiltAt(m, rs[i], ps[i], off, buf);
    }
  }

  lemma {:induction false} NextSlice(m: Pages, rs: seq<Biorq>, ps: seq<Part>, off: nat, buf: seq<int>, i: nat)
    requires buf != [] && Tiles(ps, off, |buf|) && i < |rs| == |ps| && Built(m, rs, ps, off, buf)
    ensures off <= Upto(ps, off, i) == PartOff(ps[i]) <= Upto(ps, off, i + 1) <= off + |buf|
    ensures buf[..Upto(ps, off, i + 1) - off] == buf[..Upto(ps, off, i) - off] + rs[i].buf
    ensures i + 1 == |ps| ==> Upto(ps, off, i + 1) == off + |buf|
    ensures rs[i].part == ps[i] && HereIn(m, rs[i]) && |rs[i].buf| == ps[i].len
  {
    UptoIs(ps, off, |buf|, i);
    assert BuiltAt(m, rs[i], ps[i], off, buf);
    NextBuf(m, rs[i], ps[i], off, buf, Upto(ps, off, i) - off, Upto(ps, off, i + 1) - off);
  }

  lemma NextBuf(m: Pages, r: Biorq, p: Part, off: nat, buf: seq<int>, from: nat, to: nat)
    requires buf != [] && BuiltAt(m, r, p, off, buf) && off + from == PartOff(p) && to == from + p.len <= |buf|
    ensures buf[..to] == buf[..from] + r.buf && |r.buf| == p.len
  {
    assert r.buf == buf[from..to];
  }

  // ----- The regions, page by page -----

  /** The marks after page `i` of a write was copied. */
  ghost function NotedPage(ms: Marks, r: Biorq, i: nat): Marks
    requires MarksHere(ms, r) && i < |r.pages|
  {
    FromIn(r, i);
    var k := Key(r.part.bno, r.pages[i]);
    Marks(ms.at[k := Noted(ms.at[k], k.off, From(r, i), From(r, i + 1) - From(r, i))])
  }

  ghost function NotedPages(ms: Marks, r: Biorq, i: nat): (ms': Marks)
    requires MarksHere(ms, r) && i <= |r.pages|
    ensures ms'.at.Keys == ms.at.Keys
  {
    if i == 0 then ms else NotedPage(NotedPages(ms, r, i - 1), r, i - 1)
  }

  lemma NotedPageIs(ms: Marks, r: Biorq, i: nat, lo: nat, hi: nat)
    requires MarksOk(ms) && MarksHere(ms, r) && i < |r.pages| && lo == Mid(r, i) && hi == Mid(r, i + 1)
    ensures lo <= hi && NotedPage(ms, r, i) == NotedAll(ms, lo, hi)
  {
    FromIn(r, i);
    NotedOne(ms, Key(r.part.bno, r.pages[i]), From(r, i), From(r, i + 1) - From(r, i), lo, hi);
  }

  /** Where the pages of a request start in the file, and where the last one ends. */
  ghost function Places(r: Biorq): (at: seq<nat>)
    ensures |at| == |r.pages| + 1 && forall i :: 0 <= i <= |r.pages| ==> at[i] == Mid(r, i)
  {
    seq(|r.pages| + 1, i requires 0 <= i <= |r.pages| => Mid(r, i))
  }

  lemma {:induction false} PlacesCut(r: Biorq)
    requires BiorqOk(r)
    ensures Cuts(Places(r)) && Places(r)[0] == PartOff(r.part) && Places(r)[|r.pages|] == PartEnd(r.part)
  {
    var at := Places(r);
    forall i: nat ensures CutOk(at, i) {
      if i < |r.pages| {
        FromIn(r, i);
      }
    }
    FromIn(r, 0);
    FromIn(r, |r.pages| - 1);
  }

  ghost function PageMarks(ms: Marks, r: Biorq): (mss: seq<Marks>)
    requires MarksHere(ms, r)
    ensures |mss| == |r.pages| + 1 && forall i :: 0 <= i <= |r.pages| ==> mss[i] == NotedPages(ms, r, i)
  {
    seq(|r.pages| + 1, i requires 0 <= i <= |r.pages| => NotedPages(ms, r, i))
  }

  lemma {:induction false} NotedLinks(ms: Marks, r: Biorq, mss: seq<Marks>)
    requires MarksHere(ms, r) && |mss| == |r.pages| + 1
    requires forall i :: 0 <= i <= |r.pages| ==> mss[i] == NotedPages(ms, r, i)
    ensures forall i: nat :: NotedLink(mss, Places(r), i)
  {
    var at := Places(r);
    forall i: nat ensures NotedLink(mss, at, i) {
      if i < |r.pages| && MarksOk(mss[i]) {
        NotedPageIs(mss[i], r, i, Mid(r, i), Mid(r, i + 1));
      }
    }
  }

  lemma {:induction false} NotedPart(ms: Marks, r: Biorq)
    requires MarksOk(ms) && MarksHere(ms, r)
    ensures NotedPages(ms, r, |r.pages|) == NotedAll(ms, PartOff(r.part), PartEnd(r.part))
  {
    var mss := PageMarks(ms, r);
    NotedLinks(ms, r, mss);
    PlacesCut(r);
    NotedFromTo(mss, Places(r), PartOff(r.part), PartEnd(r.part));
  }

  /** The pages of all requests have marks. */
  ghost predicate AllMarked(ms: Marks, rs: seq<Biorq>) {
    forall i :: 0 <= i < |rs| ==> MarksHere(ms, rs[i])
  }

  ghost predicate SameParts(rs: seq<Biorq>, ps: seq<Part>) {
    |rs| == |ps| && forall i :: 0 <= i < |rs| ==> rs[i].part == ps[i]
  }

  /** The marks before and after each request of a write. */
  ghost predicate MarkStep(mss: seq<Marks>, rs: seq<Biorq>, i: nat) {
    i < |rs| && i + 1 < |mss| ==>
      MarksHere(mss[i], rs[i]) && mss[i + 1] == NotedPages(mss[i], rs[i], |rs[i].pages|)
  }

  ghost predicate MarkSteps(mss: seq<Marks>, rs: seq<Biorq>) {
    |mss| == |rs| + 1 && forall i: nat :: MarkStep(mss, rs, i)
  }

  /** There are such marks. */
  lemma MarksFrom(ms: Marks, rs: seq<Biorq>) returns (mss: seq<Marks>)
    requires AllMarked(ms, rs)
    ensures MarkSteps(mss, rs) && mss[0] == ms
  {
    mss := [ms];
    for n := 0 to |rs|
      invariant |mss| == n + 1 && mss[0] == ms && mss[n].at.Keys == ms.at.Keys && forall i: nat :: MarkStep(mss, rs, i)
    {
      var was := mss;
      mss := mss + [NotedPages(mss[n], rs[n], |rs[n].pages|)];
      forall i: nat ensures MarkStep(mss, rs, i) {
        assert MarkStep(was, rs, i);
      }
    }
  }

  /** Where the parts of a request start, and where the last one ends. */
  ghost function PartPlaces(ps: seq<Part>, off: nat): (at: seq<nat>)
    ensures |at| == |ps| + 1 && forall i :: 0 <= i <= |ps| ==> at[i] == Upto(ps, off, i)
  {
    seq(|ps| + 1, i requires 0 <= i <= |ps| => Upto(ps, off, i))
  }

  lemma {:induction false} PartPlacesCut(ps: seq<Part>, off: nat, size: nat)
    requires Tiles(ps, off, size) && ps != []
    ensures Cuts(PartPlaces(ps, off)) && PartPlaces(ps, off)[0] == off && PartPlaces(ps, off)[|ps|] == off + size
  {
    var at := PartPlaces(ps, off);
    forall i: nat ensures CutOk(at, i) {
      if i < |ps| {
        UptoIs(ps, off, size, i);
        if i > 0 {
          TilesAt(ps, off, size, i);
          PageOfBmap(ps[i].bno, 0);
        }
      }
    }
    UptoIs(ps, off, size, |ps| - 1);
  }

  lemma {:induction false} NotedPartLinks(mss: seq<Marks>, rs: seq<Biorq>, ps: seq<Part>, off: nat, size: nat)
    requires MarkSteps(mss, rs) && SameParts(rs, ps) && Tiles(ps, off, size)
    ensures forall i: nat :: NotedLink(mss, PartPlaces(ps, off), i)
  {
    var at := PartPlaces(ps, off);
    forall i: nat ensures NotedLink(mss, at, i) {
      if i < |ps| && MarksOk(mss[i]) {
        assert MarkStep(mss, rs, i) && rs[i].part == ps[i];
        UptoIs(ps, off, size, i);
        NotedPart(mss[i], rs[i]);
      }
    }
  }

  /** The marks after a write, part by part and page by page. */
  lemma {:induction false} NotedPartsAre(mss: seq<Marks>, rs: seq<Biorq>, ps: seq<Part>, off: nat, size: nat)
    requires MarkSteps(mss, rs) && MarksOk(mss[0]) && SameParts(rs, ps) && Tiles(ps, off, size) && ps != []
    ensures mss[|rs|] == NotedAll(mss[0], off, off + size)
  {
    NotedPartLinks(mss, rs, ps, off, size);
    PartPlacesCut(ps, off, size);
    NotedFromTo(mss, PartPlaces(ps, off), off, off + size);
  }

  lemma NotedEntered(ms0: Marks, ms: Marks, ms': Marks, off: nat, size: nat, hi: nat)
    requires MarksOk(ms) && Entered(ms0, ms, off, size) && hi == off + size && ms' == NotedAll(ms, off, hi)
    ensures NotedBy(ms0, ms', off, size) && ms'.at.Keys == ms.at.Keys
  {
    NotedAllOk(ms, off, hi);
    EnteredNoted(ms0, ms, ms', off, size, hi);
  }

  lemma {:induction false} NotedWrite(ms0: Marks, mss: seq<Marks>, rs: seq<Biorq>, ps: seq<Part>, off: nat, size: nat)
    requires MarkSteps(mss, rs) && MarksOk(mss[0]) && SameParts(rs, ps) && Tiles(ps, off, size) && ps != []
    requires Entered(ms0, mss[0], off, size)
    ensures NotedBy(ms0, mss[|rs|], off, size) && mss[|rs|].at.Keys == mss[0].at.Keys
  {
    NotedPartsAre(mss, rs, ps, off, size);
    NotedEntered(ms0, mss[0], mss[|rs|], off, size, off + size);
  }

  /** The cache after page `i` of a read was looked at. */
  ghost function FetchedPage(c: Cached, r: Biorq, i: nat, ios: nat -> int): Cached
    requires MarksHere(c.ms, r) && i < |r.pages|
  {
    var k := Key(r.part.bno, r.pages[i]);
    if Covers(c.ms.at[k], From(r, i), From(r, i + 1)) then c else Fetched(c, ios, k)
  }

  ghost function FetchedPages(c: Cached, r: Biorq, i: nat, ios: nat -> int): (c': Cached)
    requires MarksHere(c.ms, r) && i <= |r.pages|
    ensures c'.ms.at.Keys == c.ms.at.Keys
  {
    if i == 0 then c else FetchedPage(FetchedPages(c, r, i - 1, ios), r, i - 1, ios)
  }

  lemma FetchedPageIs(c: Cached, r: Biorq, i: nat, ios: nat -> int, lo: nat, hi: nat)
    requires CachedOk(c) && MarksHere(c.ms, r) && i < |r.pages| && lo == Mid(r, i) && hi == Mid(r, i + 1)
    ensures lo <= hi && FetchedPage(c, r, i, ios) == Refresh(c, ios, lo, hi)
  {
    FromIn(r, i);
    var k := Key(r.part.bno, r.pages[i]);
    if Covers(c.ms.at[k], From(r, i), From(r, i + 1)) {
      ReadNone(c, ios, k, From(r, i), lo, hi);
    } else {
      ReadOne(c, ios, k, From(r, i), lo, hi);
    }
  }

  ghost function PageStates(c: Cached, r: Biorq, ios: nat -> int): (cs: seq<Cached>)
    requires MarksHere(c.ms, r)
    ensures |cs| == |r.pages| + 1 && forall i :: 0 <= i <= |r.pages| ==> cs[i] == FetchedPages(c, r, i, ios)
  {
    seq(|r.pages| + 1, i requires 0 <= i <= |r.pages| => FetchedPages(c, r, i, ios))
  }

  lemma {:induction false} ReadLinks(c: Cached, r: Biorq, ios: nat -> int, cs: seq<Cached>)
    requires MarksHere(c.ms, r) && |cs| == |r.pages| + 1
    requires forall i :: 0 <= i <= |r.pages| ==> cs[i] == FetchedPages(c, r, i, ios)
    ensures forall i: nat :: ReadLink(cs, ios, Places(r), i)
  {
    var at := Places(r);
    forall i: nat ensures ReadLink(cs, ios, at, i) {
      if i < |r.pages| && CachedOk(cs[i]) {
        FetchedPageIs(cs[i], r, i, ios, Mid(r, i), Mid(r, i + 1));
      }
    }
  }

  lemma {:induction false} FetchedPart(c: Cached, r: Biorq, ios: nat -> int)
    requires CachedOk(c) && MarksHere(c.ms, r)
    ensures FetchedPages(c, r, |r.pages|, ios) == Refresh(c, ios, PartOff(r.part), PartEnd(r.part))
  {
    var cs := PageStates(c, r, ios);
    ReadLinks(c, r, ios, cs);
    PlacesCut(r);
    ReadFromTo(cs, ios, Places(r), PartOff(r.part), PartEnd(r.part));
  }

  /** The cache before and after each request of a read. */
  ghost predicate CacheStep(cs: seq<Cached>, rs: seq<Biorq>, ios: nat -> int, i: nat) {
    i < |rs| && i + 1 < |cs| ==>
      MarksHere(cs[i].ms, rs[i]) && cs[i + 1] == FetchedPages(cs[i], rs[i], |rs[i].pages|, ios)
  }

  ghost predicate CacheSteps(cs: seq<Cached>, rs: seq<Biorq>, ios: nat -> int) {
    |cs| == |rs| + 1 && forall i: nat :: CacheStep(cs, rs, ios, i)
  }

  /** There are such states. */
  lemma StatesFrom(c: Cached, rs: seq<Biorq>, ios: nat -> int) returns (cs: seq<Cached>)
    requires AllMarked(c.ms, rs)
    ensures CacheSteps(cs, rs, ios) && cs[0] == c
  {
    cs := [c];
    for n := 0 to |rs|
      invariant |cs| == n + 1 && cs[0] == c && cs[n].ms.at.Keys == c.ms.at.Keys
      invariant forall i: nat :: CacheStep(cs, rs, ios, i)
    {
      var was := cs;
      cs := cs + [FetchedPages(cs[n], rs[n], |rs[n].pages|, ios)];
      forall i: nat ensures CacheStep(cs, rs, ios, i) {
        assert CacheStep(was, rs, ios, i);
      }
    }
  }

  lemma {:induction false} ReadPartLinks(cs: seq<Cached>, rs: seq<Biorq>, ps: seq<Part>, off: nat, size: nat,
                                         ios: nat -> int)
    requires CacheSteps(cs, rs, ios) && SameParts(rs, ps) && Tiles(ps, off, size)
    ensures forall i: nat :: ReadLink(cs, ios, PartPlaces(ps, off), i)
  {
    var at := PartPlaces(ps, off);
    forall i: nat ensures ReadLink(cs, ios, at, i) {
      if i < |ps| && CachedOk(cs[i]) {
        assert CacheStep(cs, rs, ios, i) && rs[i].part == ps[i];
        UptoIs(ps, off, size, i);
        FetchedPart(cs[i], rs[i], ios);
      }
    }
  }

  /** The cache after a read, part by part and page by page. */
  lemma {:induction false} FetchedPartsAre(cs: seq<Cached>, rs: seq<Biorq>, ps: seq<Part>, off: nat, size: nat,
                                           ios: nat -> int)
    requires CacheSteps(cs, rs, ios) && CachedOk(cs[0]) && SameParts(rs, ps) && Tiles(ps, off, size) && ps != []
    ensures cs[|rs|] == Refresh(cs[0], ios, off, off + size)
  {
    var at, hi := PartPlaces(ps, off), off + size;
    assert |cs| == |at| && Cuts(at) && at[0] == off && at[|at| - 1] == hi by {
      PartPlacesCut(ps, off, size);
    }
    assert forall i: nat :: ReadLink(cs, ios, at, i) by {
      ReadPartLinks(cs, rs, ps, off, size, ios);
    }
    ReadFromTo(cs, ios, at, off, hi);
  }

  lemma RefreshRead(m: Pages, ms: Marks, c: Cached, d: Cached, off: nat, size: nat, hi: nat, ios: nat -> int)
    requires CachedOk(c) && size > 0 && hi == off + size && d == Refresh(c, ios, off, hi)
    requires m.Keys == ms.at.Keys && Grew(m, c.m, off, size) && Entered(ms, c.ms, off, size)
    ensures CachedOk(d) && NoneStale(d.ms, off, size) && Refilled(m, d.m, ms, d.ms, ios, off, size)
  {
    RefreshOk(c, ios, off, hi);
    EnteredRefilled(m, ms, c, ios, off, size);
  }

  lemma {:induction false} FetchedRead(m: Pages, ms: Marks, cs: seq<Cached>, rs: seq<Biorq>, ps: seq<Part>, off: nat,
                                       size: nat, ios: nat -> int)
    requires CacheSteps(cs, rs, ios) && CachedOk(cs[0]) && SameParts(rs, ps)
    requires Tiles(ps, off, size) && ps != [] && size > 0
    requires m.Keys == ms.at.Keys && Grew(m, cs[0].m, off, size) && Entered(ms, cs[0].ms, off, size)
    ensures var d := cs[|rs|];
            CachedOk(d) && NoneStale(d.ms, off, size) && Refilled(m, d.m, ms, d.ms, ios, off, size)
  {
    FetchedPartsAre(cs, rs, ps, off, size, ios);
    RefreshRead(m, ms, cs[0], cs[|rs|], off, size, off + size, ios);
  }

  /** Which bytes of the pages hold data: bmpce_start, bmpce_len and BMPCEF_DATARDY. */
  class Regions {
    var marks: Marks

    constructor ()
      ensures marks == Marks(map[])
    {
      marks := Marks(map[]);
    }

    method Enter(k: Key, ghost off: nat, ghost len: nat)
      requires MarksOk(marks) && KeyOk(k) && Overlaps(k, off, len)
      modifies this
      ensures MarksOk(marks) && marks.at.Keys == old(marks).at.Keys + {k}
      ensures Entered(old(marks), marks, off, len)
    {
      if k !in marks.at {
        marks := Marks(marks.at[k := Mark(false, k.off, 0)]);
      }
    }

    /** [toff, toff + n) of a page was written.  The region never outgrows the page. */
    method Note(k: Key, toff: nat, n: nat)
      requires MarksOk(marks) && k in marks.at && 0 < n && k.off <= toff && toff + n <= k.off + BUFSZ
      modifies this
      ensures MarksOk(marks) && marks == Marks(old(marks).at[k := Noted(old(marks).at[k], k.off, toff, n)])
    {
      var e := marks.at[k];
      JoinsIff(e, k.off, toff, n);
      if toff == k.off && n == BUFSZ {
        marks := Marks(marks.at[k := e.(ready := true)]);
      } else if e.len == 0 {
        marks := Marks(marks.at[k := e.(start := toff, len := n)]);
      } else if toff + n >= e.start || e.start + e.len >= toff {
        var start := if toff < e.start then toff else e.start;
        var end := if toff + n > e.start + e.len then toff + n else e.start + e.len;
        assert end - start <= BUFSZ;
        marks := Marks(marks.at[k := e.(start := start, len := end - start)]);
      }
    }

    /** The regions of all pages of a write. */
    method NoteAll(r: Biorq)
      requires MarksOk(marks) && MarksHere(marks, r)
      modifies this
      ensures MarksOk(marks) && marks == NotedPages(old(marks), r, |r.pages|)
    {
      var toff: nat, tsize: nat := r.part.off, r.part.len;
      for i := 0 to |r.pages|
        invariant toff == From(r, i) && toff + tsize == r.part.off + r.part.len
        invariant MarksOk(marks) && marks == NotedPages(old(marks), r, i)
      {
        toff, tsize := NoteNext(r, i, toff, tsize, old(marks));
      }
    }

    method NoteNext(r: Biorq, i: nat, toff: nat, tsize: nat, ghost ms: Marks) returns (toff': nat, tsize': nat)
      requires MarksHere(ms, r) && i < |r.pages| && toff == From(r, i) && toff + tsize == r.part.off + r.part.len
      requires MarksOk(marks) && marks == NotedPages(ms, r, i)
      modifies this
      ensures toff' == From(r, i + 1) && toff' + tsize' == r.part.off + r.part.len
      ensures MarksOk(marks) && marks == NotedPages(ms, r, i + 1)
    {
      var start, nbytes := ChunkOf(r, i, toff, tsize);
      toff', tsize' := toff + nbytes, tsize - nbytes;
      Note(Key(r.part.bno, r.pages[i]), toff, nbytes);
    }

    method Drop(k: Key)
      modifies this
      ensures marks == Marks(old(marks).at - {k})
    {
      marks := Marks(marks.at - {k});
    }

    method SetReady(k: Key)
      requires k in marks.at
      modifies this
      ensures marks == Marks(old(marks).at[k := old(marks).at[k].(ready := true)])
    {
      marks := Marks(marks.at[k := marks.at[k].(ready := true)]);
    }

    /** msl_biorq_page_valid(): whether the page claims to hold its part of the request. */
    method PageValid(r: Biorq, idx: nat) returns (valid: bool)
      requires BiorqOk(r) && idx < |r.pages| && Key(r.part.bno, r.pages[idx]) in marks.at
      ensures var k := Key(r.part.bno, r.pages[idx]);
              valid <==> Covers(marks.at[k], From(r, idx), From(r, idx + 1))
    {
      var toff: nat, tsize: nat := r.part.off, r.part.len;
      var nbytes: nat;
      var start;
      var i := 0;
      while i < idx
        invariant i <= idx && toff == From(r, i) && toff + tsize == r.part.off + r.part.len
      {
        start, nbytes := ChunkOf(r, i, toff, tsize);
        toff := toff + nbytes;
        tsize := tsize - nbytes;
        i := i + 1;
      }
      start, nbytes := ChunkOf(r, i, toff, tsize);
      var e := marks.at[Key(r.part.bno, r.pages[idx])];
      valid := e.ready || (toff >= e.start && toff + nbytes <= e.start + e.len);
    }
  }

  method CopyTo(e: array<int>, start: nat, src: seq<int>)
    requires start + |src| <= e.Length
    modifies e
    ensures e[..] == Spliced(old(e[..]), start, src)
  {
    ghost var was := e[..];
    for i := 0 to |src|
      invariant forall j :: 0 <= j < e.Length ==>
                  e[j] == if start <= j < start + i then src[j - start] else was[j]
    {
      e[start + i] := src[i];
    }
  }

  method Receive(e: array<int>, off: nat, ios: nat -> int)
    modifies e
    ensures forall i :: 0 <= i < e.Length ==> e[i] == ios(off + i)
  {
    for i := 0 to e.Length
      invariant forall j :: 0 <= j < i ==> e[j] == ios(off + j)
    {
      e[i] := ios(off + i);
    }
  }

  /** The buffers of the cached pages. */
  class PageStore {
    var pages: map<Key, array<int>>

    /** No buffer serves two pages. */
    ghost var owner: map<array<int>, Key>

    /** All buffers. */
    ghost var bufs: set<array<int>>

    ghost var contents: Pages

    constructor ()
      ensures Valid() && contents == map[] && bufs == {}
    {
      pages, owner, bufs, contents := map[], map[], {}, map[];
    }

    ghost predicate Valid()
      reads this, pages.Values
    {
      && contents.Keys == pages.Keys
      && forall k :: k in pages ==> && KeyOk(k) && pages[k].Length == BUFSZ && contents[k] == pages[k][..]
                                    && pages[k] in bufs && pages[k] in owner && owner[pages[k]] == k
    }

    method Enter(k: Key, ghost off: nat, ghost len: nat)
      requires Valid() && KeyOk(k) && Overlaps(k, off, len)
      modifies this
      ensures Valid() && contents.Keys == old(contents).Keys + {k} && Grew(old(contents), contents, off, len)
      ensures fresh(bufs - old(bufs))
    {
      if k !in pages {
        var e := new int[BUFSZ];
        pages, owner, bufs, contents := pages[k := e], owner[e := k], bufs + {e}, contents[k := e[..]];
      }
    }

    /** memcpy() into a page. */
    method Memcpy(k: Key, start: nat, src: seq<int>)
      requires Valid() && k in contents && start + |src| <= BUFSZ
      modifies `contents, bufs
      ensures Valid() && contents == old(contents)[k := Spliced(old(contents)[k], start, src)]
    {
      CopyTo(pages[k], start, src);
      contents := contents[k := Spliced(contents[k], start, src)];
    }

    /** A read RPC fills a page. */
    method Fill(k: Key, ios: nat -> int)
      requires Valid() && k in contents
      modifies `contents, bufs
      ensures Valid() && contents == old(contents)[k := Served(ios, k)]
    {
      Receive(pages[k], FileOff(k), ios);
      assert pages[k][..] == Served(ios, k);
      contents := contents[k := Served(ios, k)];
    }

    method Drop(k: Key)
      requires Valid()
      modifies this
      ensures Valid() && contents == old(contents) - {k} && bufs == old(bufs)
    {
      pages, contents := pages - {k}, contents - {k};
    }

    method Load(k: Key, start: nat, n: nat) returns (d: seq<int>)
      requires Valid() && k in contents && start + n <= BUFSZ
      ensures |d| == n && Reads(contents, FileOff(k) + start, d)
    {
      PageReads(contents, k, start, n);
      d := pages[k][start..start + n];
    }
  }

  class FileCache {
    const store: PageStore
    const regions: Regions

    constructor ()
      ensures Valid() && fresh(store) && fresh(regions) && store.bufs == {}
      ensures store.contents == map[] && regions.marks == Marks(map[])
    {
      store := new PageStore();
      regions := new Regions();
    }

    ghost predicate Valid()
      reads this, store, store.pages.Values, regions
    {
      store.Valid() && InStep()
    }

    /** Every page has its region. */
    ghost predicate InStep()
      reads this, store, regions
    {
      regions.marks.at.Keys == store.contents.Keys && MarksOk(regions.marks)
    }

    /** bmpce_lookup(): the page is found, or a new one is entered. */
    method Lookup(k: Key, ghost off: nat, ghost len: nat)
      requires Valid() && KeyOk(k) && Overlaps(k, off, len)
      modifies store, regions
      ensures Valid() && k in store.contents && Grew(old(store.contents), store.contents, off, len)
      ensures Entered(old(regions.marks), regions.marks, off, len)
      ensures fresh(store.bufs - old(store.bufs))
    {
      store.Enter(k, off, len);
      regions.Enter(k, off, len);
    }

    /** The bytes `done` from `off` on were copied since `m`; these are the next ones. */
    method Store(k: Key, start: nat, src: seq<int>, ghost m: Pages, ghost off: nat, ghost done: seq<int>)
      requires store.Valid() && k in store.contents && start + |src| <= BUFSZ
      requires Wrote(m, store.contents, off, done) && off + |done| == FileOff(k) + start
      modifies store`contents, store.bufs
      ensures store.Valid() && Wrote(m, store.contents, off, done + src)
    {
      ghost var m1 := store.contents;
      SplicedWrote(m1, k, start, src);
      WroteThen(m, m1, m1[k := Spliced(m1[k], start, src)], off, done, src);
      store.Memcpy(k, start, src);
    }

    /** msl_biorq_build() */
    method BiorqBuild(p: Part, buf: seq<int>) returns (r: Biorq)
      requires Valid() && PartOk(p)
      modifies store, regions
      ensures Valid() && HereIn(store.contents, r) && r.part == p && r.buf == buf
      ensures Grew(old(store.contents), store.contents, PartOff(p), p.len)
      ensures Entered(old(regions.marks), regions.marks, PartOff(p), p.len)
      ensures fresh(store.bufs - old(store.bufs))
    {
      var offs := Build(p.off, p.len);
      r := Biorq(p, buf, offs);
      ghost var m, ms := store.contents, regions.marks;
      for i := 0 to |offs|
        invariant Valid() && Grew(m, store.contents, PartOff(p), p.len)
        invariant PagesIn(store.contents, p, offs, i)
        invariant Entered(ms, regions.marks, PartOff(p), p.len)
        invariant fresh(store.bufs - old(store.bufs))
      {
        PageOverlaps(p, offs, i);
        ghost var m1, ms1 := store.contents, regions.marks;
        Lookup(Key(p.bno, offs[i]), PartOff(p), p.len);
        ghost var m2 := store.contents;
        PagesMore(m, m1, m2, p, offs, i);
        EnteredWithin(ms, ms1, regions.marks, PartOff(p), p.len, PartOff(p), p.len);
      }
    }

    /** The first `i` pages of a write have their data; the copy stands at `toff`. */
    ghost predicate CopiedTo(r: Biorq, i: nat, toff: nat, m: Pages)
      requires Sized(r)
      reads this, store, store.pages.Values
    {
      && store.Valid() && toff == From(r, i)
      && Wrote(m, store.contents, PartOff(r.part), r.buf[..toff - r.part.off])
    }

    method CopyInPage(r: Biorq, i: nat, toff: nat, tsize: nat, ghost m: Pages) returns (toff': nat, tsize': nat)
      requires Sized(r) && HereIn(m, r) && i < |r.pages|
      requires CopiedTo(r, i, toff, m) && toff + tsize == r.part.off + r.part.len
      modifies store`contents, store.bufs
      ensures CopiedTo(r, i + 1, toff', m) && toff' + tsize' == r.part.off + r.part.len
    {
      var p := r.part;
      var start, nbytes := ChunkOf(r, i, toff, tsize);
      assert tsize > 0;
      var k := Key(p.bno, r.pages[i]);
      toff', tsize' := toff + nbytes, tsize - nbytes;
      ghost var done := r.buf[..toff - p.off];
      var src := r.buf[toff - p.off..toff' - p.off];
      assert r.buf[..toff' - p.off] == done + src;
      assert k in store.contents;
      Store(k, start, src, m, PartOff(p), done);
    }

    lemma CopyStart(r: Biorq)
      requires store.Valid() && Sized(r)
      ensures CopiedTo(r, 0, r.part.off, store.contents)
    {
      WroteNothing(store.contents, PartOff(r.part));
      assert r.buf[..0] == [];
    }

    lemma CopyEnd(r: Biorq, toff: nat, m: Pages)
      requires BiorqOk(r) && Sized(r) && CopiedTo(r, |r.pages|, toff, m)
      ensures toff == r.part.off + r.part.len && Wrote(m, store.contents, PartOff(r.part), r.buf)
    {
      assert r.buf[..|r.buf|] == r.buf;
    }

    /** The copying of msl_pages_copyin(). */
    method CopyBytes(r: Biorq)
      requires store.Valid() && HereIn(store.contents, r) && Sized(r)
      modifies store`contents, store.bufs
      ensures store.Valid() && Wrote(old(store.contents), store.contents, PartOff(r.part), r.buf)
    {
      ghost var m := store.contents;
      var toff: nat, tsize: nat := r.part.off, r.part.len;
      CopyStart(r);
      for i := 0 to |r.pages|
        invariant toff + tsize == r.part.off + r.part.len && CopiedTo(r, i, toff, m)
      {
        toff, tsize := CopyInPage(r, i, toff, tsize, m);
      }
      CopyEnd(r, toff, m);
      assert tsize == 0;
    }

    /** msl_pages_copyin(): the data, then the regions. */
    method CopyIn(r: Biorq)
      requires store.Valid() && Loaded(store.contents, r) && Sized(r)
      requires MarksOk(regions.marks) && MarksHere(regions.marks, r)
      modifies store`contents, regions, store.bufs
      ensures store.Valid() && Wrote(old(store.contents), store.contents, PartOff(r.part), r.buf)
      ensures MarksOk(regions.marks) && regions.marks == NotedPages(old(regions.marks), r, |r.pages|)
    {
      CopyBytes(r);
      regions.NoteAll(r);
    }

    ghost function Now(): Cached
      reads this, store, regions
    {
      Cached(store.contents, regions.marks)
    }

    method FetchPage(r: Biorq, i: nat, ios: nat -> int, ghost c: Cached)
      requires store.Valid() && MarksHere(c.ms, r) && i < |r.pages| && Key(r.part.bno, r.pages[i]) in store.pages
      requires Now() == FetchedPages(c, r, i, ios)
      modifies store`contents, regions, store.bufs
      ensures store.Valid() && Now() == FetchedPages(c, r, i + 1, ios)
      ensures store.contents.Keys == old(store.contents).Keys
    {
      var k := Key(r.part.bno, r.pages[i]);
      var valid := regions.PageValid(r, i);
      if !valid {
        store.Fill(k, ios);
        regions.SetReady(k);
      }
    }

    /** msl_pages_fetch(): the pages that do not hold their part of the request are fetched. */
    method PagesFetch(r: Biorq, ios: nat -> int)
      requires store.Valid() && MarksHere(regions.marks, r)
      requires forall i :: 0 <= i < |r.pages| ==> Key(r.part.bno, r.pages[i]) in store.pages
      modifies store`contents, regions, store.bufs
      ensures store.Valid() && Now() == FetchedPages(old(Now()), r, |r.pages|, ios)
      ensures store.contents.Keys == old(store.contents).Keys
    {
      ghost var c := Now();
      for i := 0 to |r.pages|
        invariant store.Valid() && Now() == FetchedPages(c, r, i, ios) && store.contents.Keys == c.m.Keys
      {
        FetchPage(r, i, ios, c);
      }
    }

    /** One turn of the loop of msl_pages_copyout(), with its assertion on the page. */
    method CopyOutPage(r: Biorq, i: nat, start: nat, nbytes: nat) returns (d: seq<int>)
      requires Valid() && HereIn(store.contents, r) && NoneStale(regions.marks, PartOff(r.part), r.part.len)
      requires i < |r.pages| && start + nbytes <= BUFSZ
      ensures |d| == nbytes && Reads(store.contents, r.part.bno * BMAP_SIZE + r.pages[i] + start, d)
    {
      var k := Key(r.part.bno, r.pages[i]);
      assert k in regions.marks.at;
      var valid := regions.PageValid(r, i);
      assert valid by {
        FromIn(r, i);
        assert !Stale(regions.marks.at[k], k, PartOff(r.part), r.part.len);
      }
      d := store.Load(k, start, nbytes);
    }

    /** msl_pages_copyout(): what lies before the end of the file.  If the file ends before the
        bmap the unsigned difference wraps around and nothing is clipped. */
    method CopyOut(r: Biorq, fsize: nat) returns (data: seq<int>)
      requires Valid() && HereIn(store.contents, r) && NoneStale(regions.marks, PartOff(r.part), r.part.len)
      requires fsize < OFF_LIMIT && PartOff(r.part) + r.part.len < OFF_LIMIT
      ensures Reads(store.contents, PartOff(r.part), data)
      ensures var off, len := PartOff(r.part), r.part.len;
              |data| == if fsize >= off + len || fsize < r.part.bno * BMAP_SIZE then len
                        else if fsize <= off then 0 else fsize - off
    {
      var p := r.part;
      data := [];
      var rflen := fsize - p.bno * BMAP_SIZE;
      if rflen < 0 {
        rflen := rflen + SIZE_LIMIT;
      }
      var tsize := if p.off + p.len > rflen then rflen - p.off else p.len;
      if tsize <= 0 {
        return;
      }
      ghost var m := store.contents;
      ghost var total := tsize;
      var toff := p.off;
      var i := 0;
      while i < |r.pages| && tsize > 0
        invariant i <= |r.pages| && toff == Reached(p.off, total, i) && toff + tsize == p.off + total
        invariant |data| == toff - p.off && Reads(m, PartOff(p), data)
      {
        var start, nbytes := Chunk(i, toff, tsize, r.pages[i]);
        var d := CopyOutPage(r, i, start, nbytes);
        ReadsThen(m, PartOff(p), data, d);
        data := data + d;
        toff := toff + nbytes;
        tsize := tsize - nbytes;
        i := i + 1;
      }
      assert tsize == 0;
    }

    /** Step 1 of msl_io(): the requests on the bmaps are built. */
    method BuildAll(ps: seq<Part>, off: nat, size: nat, buf: seq<int>) returns (rs: seq<Biorq>)
      requires Valid() && Tiles(ps, off, size) && (buf == [] || |buf| == size)
      modifies store, regions
      ensures Valid() && Grew(old(store.contents), store.contents, off, size)
      ensures Entered(old(regions.marks), regions.marks, off, size)
      ensures fresh(store.bufs - old(store.bufs))
      ensures |rs| == |ps| && Built(store.contents, rs, ps, off, buf)
    {
      rs := [];
      ghost var m, ms := store.contents, regions.marks;
      for i := 0 to |ps|
        invariant Valid() && Grew(m, store.contents, off, size) && fresh(store.bufs - old(store.bufs))
        invariant Entered(ms, regions.marks, off, size)
        invariant |rs| == i && Built(store.contents, rs, ps, off, buf)
      {
        TilesAt(ps, off, size, i);
        ghost var m1, ms1 := store.contents, regions.marks;
        var r := BiorqBuild(ps[i], Slice(buf, off, ps[i]));
        BuiltMore(m, m1, store.contents, rs, ps, off, size, buf, r);
        EnteredWithin(ms, ms1, regions.marks, off, size, PartOff(ps[i]), ps[i].len);
        rs := rs + [r];
      }
    }

    /** The first `i` requests of a write are complete. */
    ghost predicate PartsTo(ps: seq<Part>, off: nat, buf: seq<int>, i: nat, m: Pages)
      reads this, store, store.pages.Values
    {
      && store.Valid() && i <= |ps| && off <= Upto(ps, off, i) <= off + |buf|
      && Wrote(m, store.contents, off, buf[..Upto(ps, off, i) - off])
    }

    /** The bytes `done` from `off` on were copied since `m`; this request has the next ones. */
    method CopyInNext(r: Biorq, ghost m: Pages, ghost off: nat, ghost done: seq<int>)
      requires store.Valid() && Loaded(m, r) && Sized(r)
      requires MarksOk(regions.marks) && MarksHere(regions.marks, r)
      requires Wrote(m, store.contents, off, done) && off + |done| == PartOff(r.part)
      modifies store`contents, regions, store.bufs
      ensures store.Valid() && Wrote(m, store.contents, off, done + r.buf)
      ensures MarksOk(regions.marks) && regions.marks == NotedPages(old(regions.marks), r, |r.pages|)
    {
      ghost var m1 := store.contents;
      HereStays(m, m1, r);
      CopyIn(r);
      WroteThen(m, m1, store.contents, off, done, r.buf);
    }

    method CopyInPart(rs: seq<Biorq>, ps: seq<Part>, off: nat, buf: seq<int>, i: nat, ghost m: Pages)
      requires buf != [] && Tiles(ps, off, |buf|) && i < |rs| == |ps| && Built(m, rs, ps, off, buf)
      requires PartsTo(ps, off, buf, i, m) && MarksOk(regions.marks) && MarksHere(regions.marks, rs[i])
      modifies store`contents, regions, store.bufs
      ensures PartsTo(ps, off, buf, i + 1, m)
      ensures MarksOk(regions.marks) && regions.marks == NotedPages(old(regions.marks), rs[i], |rs[i].pages|)
    {
      NextSlice(m, rs, ps, off, buf, i);
      CopyInNext(rs[i], m, off, buf[..Upto(ps, off, i) - off]);
    }

    lemma PartsEnd(ps: seq<Part>, off: nat, buf: seq<int>, m: Pages)
      requires buf != [] && Tiles(ps, off, |buf|) && PartsTo(ps, off, buf, |ps|, m)
      ensures Wrote(m, store.contents, off, buf)
    {
      UptoIs(ps, off, |buf|, |ps| - 1);
      assert buf[..|buf|] == buf;
    }

    /** The requests of a write complete. */
    method CopyInAll(rs: seq<Biorq>, ps: seq<Part>, off: nat, buf: seq<int>, ghost mss: seq<Marks>)
      requires store.Valid() && MarksOk(regions.marks) && MarkSteps(mss, rs) && regions.marks == mss[0]
      requires buf != [] && Tiles(ps, off, |buf|) && |rs| == |ps| && Built(store.contents, rs, ps, off, buf)
      modifies store`contents, regions, store.bufs
      ensures store.Valid() && Wrote(old(store.contents), store.contents, off, buf)
      ensures MarksOk(regions.marks) && regions.marks == mss[|rs|]
    {
      ghost var m := store.contents;
      WroteNothing(m, off);
      assert buf[..0] == [];
      for i := 0 to |ps|
        invariant PartsTo(ps, off, buf, i, m)
        invariant MarksOk(regions.marks) && regions.marks == mss[i]
      {
        assert MarkStep(mss, rs, i);
        CopyInPart(rs, ps, off, buf, i, m);
      }
      PartsEnd(ps, off, buf, m);
    }

    /** What msl_io() does with the parts of a write. */
    method WriteParts(ps: seq<Part>, off: nat, buf: seq<int>)
      requires Valid() && buf != [] && Tiles(ps, off, |buf|)
      modifies store, regions, store.bufs
      ensures Valid() && Wrote(old(store.contents), store.contents, off, buf)
      ensures NotedBy(old(regions.marks), regions.marks, off, |buf|)
      ensures fresh(store.bufs - old(store.bufs))
    {
      ghost var m0, ms0 := store.contents, regions.marks;
      var rs := BuildAll(ps, off, |buf|, buf);
      ghost var m1 := store.contents;
      BuiltMarked(m1, regions.marks, rs, ps, off, buf);
      ghost var mss := MarksFrom(regions.marks, rs);
      NotedWrite(ms0, mss, rs, ps, off, |buf|);
      CopyInAll(rs, ps, off, buf, mss);
      GrewWrote(m0, m1, store.contents, off, |buf|, buf);
    }

    /** msl_io() for a write: EINVAL, or exactly the bytes of the range change, and are noted. */
    method Write(off: nat, buf: seq<int>) returns (ok: bool)
      requires Valid() && buf != []
      modifies store, regions, store.bufs
      ensures Valid() && (ok <==> Spanned(off, |buf|) <= MAX_BMAPS)
      ensures if ok then Wrote(old(store.contents), store.contents, off, buf)
              else store.contents == old(store.contents)
      ensures if ok then NotedBy(old(regions.marks), regions.marks, off, |buf|)
              else regions.marks == old(regions.marks)
      ensures fresh(store.bufs - old(store.bufs))
    {
      var parts := Split(off, |buf|);
      ok := parts.Some?;
      if ok {
        WriteParts(parts.value, off, buf);
      }
    }

    /** What the pages do not hold is fetched for all requests of a read; `cs` are the states on the
        way. */
    method FetchAll(rs: seq<Biorq>, ios: nat -> int, ghost cs: seq<Cached>)
      requires CacheSteps(cs, rs, ios)
      requires store.Valid() && Now() == cs[0] && AllLoaded(store.contents, rs)
      modifies store`contents, regions, store.bufs
      ensures store.Valid() && Now() == cs[|rs|] && store.contents.Keys == old(store.contents).Keys
    {
      ghost var keys := store.contents.Keys;
      for i := 0 to |rs|
        invariant store.Valid() && Now() == cs[i] && store.contents.Keys == keys && AllLoaded(store.contents, rs)
      {
        assert CacheStep(cs, rs, ios, i);
        FetchNext(rs[i], ios, i, rs, cs);
      }
    }

    method FetchNext(r: Biorq, ios: nat -> int, ghost i: nat, ghost rs: seq<Biorq>, ghost cs: seq<Cached>)
      requires store.Valid() && CacheStep(cs, rs, ios, i) && i < |rs| && i + 1 < |cs| && r == rs[i]
      requires Now() == cs[i] && AllLoaded(store.contents, rs)
      modifies store`contents, regions, store.bufs
      ensures store.Valid() && Now() == cs[i + 1] && store.contents.Keys == old(store.contents).Keys
      ensures AllLoaded(store.contents, rs)
    {
      ghost var m := store.contents;
      assert Loaded(m, r);
      PagesFetch(r, ios);
      LoadedStays(m, store.contents, rs);
    }

    /** The requests of a read complete. */
    method CopyOutAll(rs: seq<Biorq>, ps: seq<Part>, off: nat, size: nat, fsz: nat) returns (d: seq<int>)
      requires Valid() && Tiles(ps, off, size) && |rs| == |ps| && Built(store.contents, rs, ps, off, [])
      requires 0 < size && off + size <= fsz < OFF_LIMIT && NoneStale(regions.marks, off, size)
      ensures |d| == size && Reads(store.contents, off, d)
    {
      d := [];
      ghost var m := store.contents;
      for i := 0 to |ps|
        invariant off <= Upto(ps, off, i) <= off + size && (i == |ps| ==> Upto(ps, off, i) == off + size)
        invariant |d| == Upto(ps, off, i) - off && Reads(m, off, d)
      {
        var part := CopyOutNext(rs, ps, off, size, fsz, i);
        ReadsThen(m, off, d, part);
        d := d + part;
      }
    }

    method CopyOutNext(rs: seq<Biorq>, ps: seq<Part>, off: nat, size: nat, fsz: nat, i: nat) returns (d: seq<int>)
      requires Valid() && Tiles(ps, off, size) && i < |rs| == |ps| && Built(store.contents, rs, ps, off, [])
      requires off + size <= fsz < OFF_LIMIT && NoneStale(regions.marks, off, size)
      ensures off <= Upto(ps, off, i) && Upto(ps, off, i) + |d| == Upto(ps, off, i + 1) <= off + size
      ensures i + 1 == |ps| ==> Upto(ps, off, i + 1) == off + size
      ensures Reads(store.contents, Upto(ps, off, i), d)
    {
      UptoIs(ps, off, size, i);
      assert BuiltAt(store.contents, rs[i], ps[i], off, []);
      NoneStaleWithin(regions.marks, off, size, PartOff(ps[i]), ps[i].len);
      d := CopyOut(rs[i], fsz);
    }

    /** What msl_io() does with the parts of a read. */
    method ReadParts(ps: seq<Part>, off: nat, size: nat, fsz: nat, ios: nat -> int) returns (d: seq<int>)
      requires Valid() && Tiles(ps, off, size) && 0 < size && off + size <= fsz < OFF_LIMIT
      modifies store, regions, store.bufs
      ensures Valid() && |d| == size && Reads(store.contents, off, d)
      ensures Refilled(old(store.contents), store.contents, old(regions.marks), regions.marks, ios, off, size)
      ensures fresh(store.bufs - old(store.bufs))
    {
      ghost var m, ms := store.contents, regions.marks;
      var rs := BuildAll(ps, off, size, []);
      ghost var c := Now();
      BuiltMarked(c.m, c.ms, rs, ps, off, []);
      ghost var cs := StatesFrom(c, rs, ios);
      FetchedRead(m, ms, cs, rs, ps, off, size, ios);
      FetchAll(rs, ios, cs);
      BuiltStays(c.m, store.contents, rs, ps, off, []);
      d := CopyOutAll(rs, ps, off, size, fsz);
    }

    /** msl_io() for a read, with `ios` what the I/O server answers: EINVAL, or the bytes of the
        range that lie before the end of the file.  Exactly the pages are fetched that do not
        claim to hold their part of it. */
    method Read(off: nat, size: nat, fsz: nat, ios: nat -> int) returns (data: Option<seq<int>>)
      requires Valid() && fsz < OFF_LIMIT
      modifies store, regions, store.bufs
      ensures Valid()
      ensures fresh(store.bufs - old(store.bufs))
      ensures var n := Clipped(off, size, fsz);
              if n > 0 && Spanned(off, n) > MAX_BMAPS
              then data.None? && store.contents == old(store.contents) && regions.marks == old(regions.marks)
              else && data.Some? && |data.value| == n && Reads(store.contents, off, data.value)
                   && Refilled(old(store.contents), store.contents, old(regions.marks), regions.marks, ios, off, n)
    {
      var n := if off + size > fsz then fsz - off else size;
      if n <= 0 {
        return Some([]);
      }
      var parts := Split(off, n);
      if parts.None? {
        return None;
      }
      var d := ReadParts(parts.value, off, n, fsz, ios);
      data := Some(d);
    }

    /** bmpce_free(): a page nobody uses leaves the cache. */
    method Evict(k: Key)
      requires Valid()
      modifies store, regions
      ensures Valid() && store.bufs == old(store.bufs)
      ensures store.contents == old(store.contents) - {k} && regions.marks == Marks(old(regions.marks).at - {k})
    {
      store.Drop(k);
      regions.Drop(k);
    }
  }
}
