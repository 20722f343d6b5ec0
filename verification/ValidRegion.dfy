/** mount_slash/io.c: which bytes of a cached page are bytes of the file.

    A page is ready once all of it was written or fetched.  Until then it records one region
    (bmpce_start, bmpce_len), which a write enlarges.  A read is served from the page if the
    region takes in what it asks for; else the page is fetched. */
module ValidRegion {
  import opened Common
  import opened FlatPages

  /** BMPCEF_DATARDY and the region; offsets are relative to the bmap. */
  datatype Mark = Mark(ready: bool, start: nat, len: nat)

  /** The marks of the cached pages. */
  datatype Marks = Marks(at: map<Key, Mark>)

  /** The region lies in the page at `off`. */
  predicate MarkOk(e: Mark, off: nat) {
    off <= e.start && e.start + e.len <= off + BUFSZ
  }

  /** The page claims to hold a byte. */
  predicate Known(e: Mark, x: int) {
    e.ready || e.start <= x < e.start + e.len
  }

  /** msl_biorq_page_valid(): it claims to hold [lo, hi). */
  predicate Covers(e: Mark, lo: int, hi: int) {
    e.ready || (lo >= e.start && hi <= e.start + e.len)
  }

  // ----- One page -----

  /** The mark of the page at `off` after [toff, toff + n) of it was written. */
  function Noted(e: Mark, off: nat, toff: nat, n: nat): Mark {
    if toff == off && n == BUFSZ then e.(ready := true)
    else if e.len == 0 then e.(start := toff, len := n)
    else if toff + n >= e.start || e.start + e.len >= toff then
      var start := if toff < e.start then toff else e.start;
      e.(start := start, len := Max(toff + n, e.start + e.len) - start)
    else e
  }

  /** The write leaves no hole between itself and the region. */
  predicate Joins(e: Mark, off: nat, toff: nat, n: nat) {
    || e.ready || e.len == 0 || (toff == off && n == BUFSZ)
    || (toff <= e.start + e.len && e.start <= toff + n)
  }

  /** The new mark claims what the old one did and what was written; it claims nothing else iff
      the write leaves no hole. */
  lemma JoinsIff(e: Mark, off: nat, toff: nat, n: nat)
    requires MarkOk(e, off) && off <= toff && 0 < n && toff + n <= off + BUFSZ
    ensures MarkOk(Noted(e, off, toff, n), off)
    ensures forall x :: off <= x < off + BUFSZ && (Known(e, x) || toff <= x < toff + n) ==>
                          Known(Noted(e, off, toff, n), x)
    ensures Joins(e, off, toff, n) <==>
            forall x :: off <= x < off + BUFSZ && Known(Noted(e, off, toff, n), x) ==>
                          Known(e, x) || toff <= x < toff + n
  {
    if !Joins(e, off, toff, n) {
      var x := if toff > e.start + e.len then e.start + e.len else toff + n;
      assert Known(Noted(e, off, toff, n), x) && !Known(e, x);
    }
  }

  // ----- All pages -----

  /** The first byte of [off, off + len) in a page, and the end of the last one. */
  function Lo(k: Key, off: nat): nat {
    Max(FileOff(k), off) - k.bno * BMAP_SIZE
  }

  function Hi(k: Key, off: nat, len: nat): int {
    (if FileOff(k) + BUFSZ < off + len then FileOff(k) + BUFSZ else off + len) - k.bno * BMAP_SIZE
  }

  predicate Meets(k: Key, off: nat, len: nat) {
    len > 0 && Overlaps(k, off, len)
  }

  lemma MeetsIn(k: Key, off: nat, len: nat, x: nat)
    requires Meets(k, off, len)
    ensures k.off <= Lo(k, off) < Hi(k, off, len) <= k.off + BUFSZ
    ensures FileOff(k) <= x < FileOff(k) + BUFSZ ==>
              (In(x, off, len) <==> Lo(k, off) <= x - k.bno * BMAP_SIZE < Hi(k, off, len))
  {
  }

  /** A page that is not there would be entered with an empty region. */
  function MarkOf(ms: Marks, k: Key): Mark {
    if k in ms.at then ms.at[k] else Mark(false, k.off, 0)
  }

  function After(e: Mark, k: Key, off: nat, len: nat): Mark {
    if Meets(k, off, len) then MeetsIn(k, off, len, 0); Noted(e, k.off, Lo(k, off), Hi(k, off, len) - Lo(k, off)) else e
  }

  ghost predicate MarksOk(ms: Marks) {
    forall k :: k in ms.at ==> KeyOk(k) && MarkOk(ms.at[k], k.off)
  }

  /** A write of [off, off + len) was noted in its pages, some of which may have come in for it. */
  ghost predicate NotedBy(ms: Marks, ms': Marks, off: nat, len: nat) {
    && ms.at.Keys <= ms'.at.Keys
    && (forall k :: k in ms'.at ==>
          ms'.at[k] == After(MarkOf(ms, k), k, off, len) && (k in ms.at || Overlaps(k, off, len)))
  }

  lemma AfterOk(e: Mark, k: Key, off: nat, len: nat)
    requires MarkOk(e, k.off)
    ensures MarkOk(After(e, k, off, len), k.off)
  {
    if Meets(k, off, len) {
      MeetsIn(k, off, len, 0);
      JoinsIff(e, k.off, Lo(k, off), Hi(k, off, len) - Lo(k, off));
    }
  }

  /** Pages do not overlap. */
  lemma NotBoth(j: Key, k: Key)
    requires KeyOk(j) && KeyOk(k) && j != k
    ensures FileOff(j) + BUFSZ <= FileOff(k) || FileOff(k) + BUFSZ <= FileOff(j)
  {
    KeyOfByte(j, 0);
    KeyOfByte(k, 0);
    Multiples(FileOff(j), FileOff(k));
  }

  lemma Multiples(x: nat, y: nat)
    requires x % BUFSZ == 0 && y % BUFSZ == 0 && x != y
    ensures x + BUFSZ <= y || y + BUFSZ <= x
  {
    var p, q := x / BUFSZ, y / BUFSZ;
    assert x == p * BUFSZ && y == q * BUFSZ;
    assert p < q || q < p;
  }

  lemma PageAligned(k: Key, x: nat)
    requires KeyOk(k) && x % BUFSZ == 0 && FileOff(k) < x
    ensures FileOff(k) + BUFSZ <= x
  {
    PageOfBmap(k.bno, k.off);
    Multiples(FileOff(k), x);
  }

  /** A page is met by at most one of two ranges that meet at the start of a page. */
  lemma MeetsOne(k: Key, off: nat, l1: nat, l2: nat)
    requires KeyOk(k) && (l1 == 0 || l2 == 0 || (off + l1) % BUFSZ == 0)
    ensures Meets(k, off, l1) ==>
              !Meets(k, off + l1, l2) && Meets(k, off, l1 + l2) && Hi(k, off, l1) == Hi(k, off, l1 + l2)
    ensures Meets(k, off + l1, l2) ==> Meets(k, off, l1 + l2) && Lo(k, off + l1) == Lo(k, off)
    ensures Meets(k, off, l1 + l2) ==> Meets(k, off, l1) || Meets(k, off + l1, l2)
  {
    if l1 > 0 && l2 > 0 && FileOff(k) < off + l1 {
      PageAligned(k, off + l1);
    }
  }

  lemma AfterThen(e: Mark, k: Key, off: nat, l1: nat, l2: nat)
    requires KeyOk(k) && (l1 == 0 || l2 == 0 || (off + l1) % BUFSZ == 0)
    ensures After(After(e, k, off, l1), k, off + l1, l2) == After(e, k, off, l1 + l2)
  {
    MeetsOne(k, off, l1, l2);
  }

  /** Pages of [off, off + len) have come in, with empty regions. */
  ghost predicate Entered(ms: Marks, ms': Marks, off: nat, len: nat) {
    && ms.at.Keys <= ms'.at.Keys
    && forall k :: k in ms'.at ==> ms'.at[k] == MarkOf(ms, k) && (k in ms.at || Overlaps(k, off, len))
  }

  lemma EnteredWithin(ms: Marks, ms1: Marks, ms2: Marks, off: nat, len: nat, o: nat, l: nat)
    requires Entered(ms, ms1, off, len) && Entered(ms1, ms2, o, l) && off <= o && o + l <= off + len
    ensures Entered(ms, ms2, off, len)
  {
  }

  /** The marks after a write of [lo, hi) whose pages are all there. */
  ghost function NotedAll(ms: Marks, lo: nat, hi: nat): Marks
    requires lo <= hi
  {
    Marks(map k | k in ms.at :: After(ms.at[k], k, lo, hi - lo))
  }

  lemma NotedNothing(ms: Marks, lo: nat, hi: nat)
    requires lo == hi
    ensures NotedAll(ms, lo, hi) == ms
  {
    assert NotedAll(ms, lo, hi).at == ms.at;
  }

  lemma NotedAllOk(ms: Marks, lo: nat, hi: nat)
    requires MarksOk(ms) && lo <= hi
    ensures MarksOk(NotedAll(ms, lo, hi)) && NotedAll(ms, lo, hi).at.Keys == ms.at.Keys
  {
    forall k | k in ms.at ensures MarkOk(After(ms.at[k], k, lo, hi - lo), k.off) {
      AfterOk(ms.at[k], k, lo, hi - lo);
    }
  }

  /** Two writes that meet at the start of a page are noted as one. */
  lemma NotedThen(ms: Marks, lo: nat, mid: nat, hi: nat)
    requires MarksOk(ms) && lo <= mid <= hi && (lo == mid || mid == hi || mid % BUFSZ == 0)
    ensures NotedAll(NotedAll(ms, lo, mid), mid, hi) == NotedAll(ms, lo, hi)
  {
    var ms2, d := NotedAll(NotedAll(ms, lo, mid), mid, hi), NotedAll(ms, lo, hi);
    forall k | k in ms.at ensures ms2.at[k] == d.at[k] {
      AfterThen(ms.at[k], k, lo, mid - lo, hi - mid);
    }
    assert ms2.at == d.at;
  }

  /** Places that cut a range, all but the outer ones at the start of a page. */
  ghost predicate CutOk(at: seq<nat>, i: nat) {
    i + 1 < |at| ==> at[i] <= at[i + 1] && (i > 0 ==> at[i] % BUFSZ == 0)
  }

  ghost predicate Cuts(at: seq<nat>) {
    |at| > 0 && forall i: nat :: CutOk(at, i)
  }

  /** From one place to the next the range between them is noted. */
  ghost predicate NotedLink(mss: seq<Marks>, at: seq<nat>, i: nat) {
    i + 1 < |at| == |mss| && MarksOk(mss[i]) && mss[i].at.Keys == mss[0].at.Keys && at[i] <= at[i + 1] ==>
      mss[i + 1] == NotedAll(mss[i], at[i], at[i + 1])
  }

  /** Noting a range piece by piece is noting it at once. */
  lemma {:induction false} NotedChain(mss: seq<Marks>, at: seq<nat>, n: nat)
    requires |mss| == |at| && n < |at| && Cuts(at) && MarksOk(mss[0]) && forall i: nat :: NotedLink(mss, at, i)
    ensures at[0] <= at[n] && mss[n] == NotedAll(mss[0], at[0], at[n])
  {
    if n == 0 {
      NotedNothing(mss[0], at[0], at[0]);
    } else {
      NotedChain(mss, at, n - 1);
      assert CutOk(at, n - 1) && NotedLink(mss, at, n - 1);
      NotedAllOk(mss[0], at[0], at[n - 1]);
      NotedThen(mss[0], at[0], at[n - 1], at[n]);
    }
  }

  lemma NotedFromTo(mss: seq<Marks>, at: seq<nat>, lo: nat, hi: nat)
    requires |mss| == |at| && Cuts(at) && MarksOk(mss[0]) && forall i: nat :: NotedLink(mss, at, i)
    requires lo == at[0] && hi == at[|at| - 1]
    ensures lo <= hi && mss[|at| - 1] == NotedAll(mss[0], lo, hi)
  {
    NotedChain(mss, at, |at| - 1);
  }

  lemma EnteredNoted(ms: Marks, ms1: Marks, ms2: Marks, off: nat, len: nat, hi: nat)
    requires Entered(ms, ms1, off, len) && hi == off + len && ms2 == NotedAll(ms1, off, hi)
    ensures NotedBy(ms, ms2, off, len)
  {
  }

  /** What is written in one page is noted there and nowhere else. */
  lemma NotedOne(ms: Marks, k: Key, toff: nat, n: nat, lo: nat, hi: nat)
    requires MarksOk(ms) && k in ms.at && lo == k.bno * BMAP_SIZE + toff && lo < hi <= FileOff(k) + BUFSZ
    requires k.off <= toff && n == hi - lo
    ensures NotedAll(ms, lo, hi) == Marks(ms.at[k := Noted(ms.at[k], k.off, toff, n)])
  {
    var ms', d := NotedAll(ms, lo, hi), Marks(ms.at[k := Noted(ms.at[k], k.off, toff, n)]);
    forall j | j in ms.at ensures ms'.at[j] == d.at[j] {
      if j != k {
        NotBoth(j, k);
      }
    }
    assert ms'.at == d.at;
  }

  // ----- Claims that are true -----

  ghost predicate KnownAt(ms: Marks, x: nat) {
    KeyOf(x) in ms.at && Known(ms.at[KeyOf(x)], x - KeyOf(x).bno * BMAP_SIZE)
  }

  /** Every byte a page claims to hold is the byte of the file. */
  ghost predicate Sound(m: Pages, ms: Marks, file: nat -> int) {
    forall x: nat :: KnownAt(ms, x) ==> Has(m, x) && At(m, x) == file(x)
  }

  /** The file after a write. */
  function Over(file: nat -> int, off: nat, data: seq<int>): nat -> int {
    (x: nat) => if off <= x < off + |data| then data[x - off] else file(x)
  }

  /** In every page the write leaves no hole. */
  ghost predicate JoinsAll(ms: Marks, off: nat, len: nat) {
    forall k :: k in ms.at && Meets(k, off, len) ==> JoinsPage(ms.at[k], k, off, len)
  }

  predicate JoinsPage(e: Mark, k: Key, off: nat, len: nat)
    requires Meets(k, off, len)
  {
    MeetsIn(k, off, len, 0);
    Joins(e, k.off, Lo(k, off), Hi(k, off, len) - Lo(k, off))
  }

  lemma KnownAfter(ms: Marks, ms': Marks, off: nat, len: nat, x: nat)
    requires MarksOk(ms) && NotedBy(ms, ms', off, len) && JoinsAll(ms, off, len)
    requires KnownAt(ms', x) && !In(x, off, len)
    ensures KnownAt(ms, x)
  {
    var k := KeyOf(x);
    FileOffOfByte(x);
    if Meets(k, off, len) {
      MeetsIn(k, off, len, x);
      JoinsIff(MarkOf(ms, k), k.off, Lo(k, off), Hi(k, off, len) - Lo(k, off));
    }
  }

  lemma WriteSound(m: Pages, m': Pages, ms: Marks, ms': Marks, file: nat -> int, off: nat, data: seq<int>)
    requires MarksOk(ms) && Sound(m, ms, file) && JoinsAll(ms, off, |data|)
    requires Wrote(m, m', off, data) && NotedBy(ms, ms', off, |data|)
    ensures Sound(m', ms', Over(file, off, data))
  {
    forall x: nat | KnownAt(ms', x) ensures Has(m', x) && At(m', x) == Over(file, off, data)(x) {
      if !In(x, off, |data|) {
        KnownAfter(ms, ms', off, |data|, x);
      }
    }
  }

  lemma KnownByte(ms: Marks, k: Key, y: nat)
    requires MarksOk(ms) && k in ms.at && k.off <= y < k.off + BUFSZ
    ensures KeyOf(k.bno * BMAP_SIZE + y) == k
    ensures KnownAt(ms, k.bno * BMAP_SIZE + y) <==> Known(ms.at[k], y)
  {
    KeyOfByte(k, y - k.off);
  }

  /** A hole that a write leaves is claimed from then on. */
  lemma HoleIsClaimed(ms: Marks, ms': Marks, off: nat, len: nat, k: Key) returns (x: nat)
    requires MarksOk(ms) && NotedBy(ms, ms', off, len) && k in ms.at && Meets(k, off, len)
    requires !JoinsPage(ms.at[k], k, off, len)
    ensures KnownAt(ms', x) && !KnownAt(ms, x) && !In(x, off, len)
  {
    MeetsIn(k, off, len, 0);
    var e, lo, n := ms.at[k], Lo(k, off), Hi(k, off, len) - Lo(k, off);
    JoinsIff(e, k.off, lo, n);
    var y: nat :| k.off <= y < k.off + BUFSZ && Known(Noted(e, k.off, lo, n), y) && !Known(e, y) && !(lo <= y < lo + n);
    x := k.bno * BMAP_SIZE + y;
    KnownByte(ms, k, y);
    MeetsIn(k, off, len, x);
  }

  /** A page of zeros in which a write of `data` at `off` was done. */
  function Filled(k: Key, off: nat, data: seq<int>): seq<int> {
    seq(BUFSZ, i requires 0 <= i < BUFSZ =>
      if off <= FileOff(k) + i < off + |data| then data[FileOff(k) + i - off] else 0)
  }

  ghost function AllFilled(ks: set<Key>, off: nat, data: seq<int>): Pages {
    map k | k in ks :: Filled(k, off, data)
  }

  /** The pages of a range. */
  ghost function Hit(off: nat, len: nat): set<Key> {
    set x: nat | off <= x < off + len :: KeyOf(x)
  }

  lemma FilledWrote(ks: set<Key>, off: nat, data: seq<int>)
    requires forall k :: k in ks ==> KeyOk(k)
    ensures Wrote(AllFilled(ks, off, []), AllFilled(ks + Hit(off, |data|), off, data), off, data)
    ensures forall x: nat :: KeyOf(x) in ks ==> Has(AllFilled(ks, off, []), x) && At(AllFilled(ks, off, []), x) == 0
  {
    var m, m' := AllFilled(ks, off, []), AllFilled(ks + Hit(off, |data|), off, data);
    forall x: nat | In(x, off, |data|) || Has(m, x)
      ensures Has(m', x) && At(m', x) == if In(x, off, |data|) then data[x - off] else 0
    {
      FileOffOfByte(x);
    }
  }

  /** A file that agrees with pages of zeros just where they claim to hold it. */
  ghost function Doubtful(ms: Marks): nat -> int {
    (x: nat) => if KnownAt(ms, x) then 0 else 1
  }

  /** Then there are cached pages and a file that agree before the write and not after it. */
  lemma HoleBreaks(ms: Marks, ms': Marks, off: nat, data: seq<int>, k: Key)
    returns (m: Pages, m': Pages, file: nat -> int)
    requires MarksOk(ms) && NotedBy(ms, ms', off, |data|) && k in ms.at && Meets(k, off, |data|)
    requires !JoinsPage(ms.at[k], k, off, |data|)
    ensures Sound(m, ms, file) && Wrote(m, m', off, data) && !Sound(m', ms', Over(file, off, data))
  {
    var x := HoleIsClaimed(ms, ms', off, |data|, k);
    m, m', file := AllFilled(ms.at.Keys, off, []), AllFilled(ms.at.Keys + Hit(off, |data|), off, data), Doubtful(ms);
    FilledWrote(ms.at.Keys, off, data);
    assert Over(file, off, data)(x) == 1;
    assert Has(m, x) ==> At(m', x) == At(m, x) == 0;
  }

  /** Whatever the pages and the file hold: a write keeps the claims true iff it leaves no hole. */
  lemma WriteSoundIff(ms: Marks, ms': Marks, off: nat, data: seq<int>)
    requires MarksOk(ms) && NotedBy(ms, ms', off, |data|)
    ensures JoinsAll(ms, off, |data|) <==>
            forall m, m', file: nat -> int :: Sound(m, ms, file) && Wrote(m, m', off, data) ==>
                                                Sound(m', ms', Over(file, off, data))
  {
    if JoinsAll(ms, off, |data|) {
      forall m, m', file: nat -> int | Sound(m, ms, file) && Wrote(m, m', off, data)
        ensures Sound(m', ms', Over(file, off, data))
      {
        WriteSound(m, m', ms, ms', file, off, data);
      }
    } else {
      var k :| k in ms.at && Meets(k, off, |data|) && !JoinsPage(ms.at[k], k, off, |data|);
      var m, m', file := HoleBreaks(ms, ms', off, data, k);
    }
  }

  // ----- Reads -----

  /** A read of [off, off + len) has the page fetched. */
  predicate Stale(e: Mark, k: Key, off: nat, len: nat) {
    Meets(k, off, len) && !Covers(e, Lo(k, off), Hi(k, off, len))
  }

  /** A page as the I/O server has it. */
  function Served(file: nat -> int, k: Key): seq<int> {
    seq(BUFSZ, i requires 0 <= i < BUFSZ => file(FileOff(k) + i))
  }

  /** A read had exactly the pages fetched that do not claim to hold its part of them. */
  ghost predicate Refilled(m: Pages, m': Pages, ms: Marks, ms': Marks, file: nat -> int, off: nat, len: nat) {
    && m.Keys == ms.at.Keys && m'.Keys == ms'.at.Keys && ms.at.Keys <= ms'.at.Keys
    && (forall k :: k in ms'.at ==>
          if Stale(MarkOf(ms, k), k, off, len)
          then ms'.at[k] == MarkOf(ms, k).(ready := true) && m'[k] == Served(file, k)
          else k in ms.at && ms'.at[k] == ms.at[k] && m'[k] == m[k])
  }

  function ReadMark(e: Mark, k: Key, off: nat, len: nat): Mark {
    if Stale(e, k, off, len) then e.(ready := true) else e
  }

  /** The cached pages and their marks. */
  datatype Cached = Cached(m: Pages, ms: Marks)

  ghost predicate CachedOk(c: Cached) {
    c.m.Keys == c.ms.at.Keys && MarksOk(c.ms)
  }

  /** After a read of [lo, hi) whose pages are all there. */
  ghost function Refresh(c: Cached, file: nat -> int, lo: nat, hi: nat): Cached
    requires CachedOk(c) && lo <= hi
  {
    Cached(ReadPages(c, file, lo, hi), Marks(ReadMarks(c.ms.at, lo, hi)))
  }

  ghost function ReadPages(c: Cached, file: nat -> int, lo: nat, hi: nat): Pages
    requires CachedOk(c) && lo <= hi
  {
    map k | k in c.m :: ReadPage(c, file, k, lo, hi - lo)
  }

  ghost function ReadPage(c: Cached, file: nat -> int, k: Key, off: nat, len: nat): seq<int>
    requires CachedOk(c) && k in c.m
  {
    if Stale(c.ms.at[k], k, off, len) then Served(file, k) else c.m[k]
  }

  ghost function ReadMarks(at: map<Key, Mark>, lo: nat, hi: nat): map<Key, Mark>
    requires lo <= hi
  {
    map k | k in at :: ReadMark(at[k], k, lo, hi - lo)
  }

  lemma RefreshOk(c: Cached, file: nat -> int, lo: nat, hi: nat)
    requires CachedOk(c) && lo <= hi
    ensures CachedOk(Refresh(c, file, lo, hi)) && Refresh(c, file, lo, hi).m.Keys == c.m.Keys
    ensures NoneStale(Refresh(c, file, lo, hi).ms, lo, hi - lo)
  {
  }

  lemma ReadNothing(c: Cached, file: nat -> int, lo: nat, hi: nat)
    requires CachedOk(c) && lo == hi
    ensures Refresh(c, file, lo, hi) == c
  {
    assert Refresh(c, file, lo, hi).m == c.m && Refresh(c, file, lo, hi).ms.at == c.ms.at;
  }

  /** Only the page at `k` is met by [toff, toff + n). */
  lemma StaleOne(e: Mark, j: Key, k: Key, toff: nat, n: nat)
    requires KeyOk(j) && KeyOk(k) && 0 < n && k.off <= toff && toff + n <= k.off + BUFSZ
    ensures Stale(e, j, k.bno * BMAP_SIZE + toff, n) <==> j == k && !Covers(e, toff, toff + n)
  {
    if j != k {
      NotBoth(j, k);
    }
  }

  ghost function Fetched(c: Cached, file: nat -> int, k: Key): Cached
    requires k in c.ms.at
  {
    Cached(c.m[k := Served(file, k)], Marks(c.ms.at[k := c.ms.at[k].(ready := true)]))
  }

  lemma StaleOnly(c: Cached, k: Key, toff: nat, n: nat)
    requires CachedOk(c) && k in c.ms.at && 0 < n && k.off <= toff && toff + n <= k.off + BUFSZ
    ensures forall j :: j in c.ms.at ==>
              (Stale(c.ms.at[j], j, k.bno * BMAP_SIZE + toff, n) <==> j == k && !Covers(c.ms.at[j], toff, toff + n))
  {
    forall j | j in c.ms.at
      ensures Stale(c.ms.at[j], j, k.bno * BMAP_SIZE + toff, n) <==> j == k && !Covers(c.ms.at[j], toff, toff + n)
    {
      StaleOne(c.ms.at[j], j, k, toff, n);
    }
  }

  lemma ReadNonePages(c: Cached, file: nat -> int, k: Key, toff: nat, lo: nat, hi: nat)
    requires CachedOk(c) && k in c.ms.at && lo == k.bno * BMAP_SIZE + toff && lo < hi <= FileOff(k) + BUFSZ
    requires k.off <= toff && Covers(c.ms.at[k], toff, toff + (hi - lo))
    ensures ReadPages(c, file, lo, hi) == c.m
  {
    StaleOnly(c, k, toff, hi - lo);
  }

  lemma ReadNoneMarks(c: Cached, k: Key, toff: nat, lo: nat, hi: nat)
    requires CachedOk(c) && k in c.ms.at && lo == k.bno * BMAP_SIZE + toff && lo < hi <= FileOff(k) + BUFSZ
    requires k.off <= toff && Covers(c.ms.at[k], toff, toff + (hi - lo))
    ensures ReadMarks(c.ms.at, lo, hi) == c.ms.at
  {
    StaleOnly(c, k, toff, hi - lo);
  }

  /** If the page holds the bytes nothing happens. */
  lemma ReadNone(c: Cached, file: nat -> int, k: Key, toff: nat, lo: nat, hi: nat)
    requires CachedOk(c) && k in c.ms.at && lo == k.bno * BMAP_SIZE + toff && lo < hi <= FileOff(k) + BUFSZ
    requires k.off <= toff && Covers(c.ms.at[k], toff, toff + (hi - lo))
    ensures Refresh(c, file, lo, hi) == c
  {
    ReadNonePages(c, file, k, toff, lo, hi);
    ReadNoneMarks(c, k, toff, lo, hi);
  }

  lemma ReadOnePages(c: Cached, file: nat -> int, k: Key, toff: nat, lo: nat, hi: nat)
    requires CachedOk(c) && k in c.ms.at && lo == k.bno * BMAP_SIZE + toff && lo < hi <= FileOff(k) + BUFSZ
    requires k.off <= toff && !Covers(c.ms.at[k], toff, toff + (hi - lo))
    ensures ReadPages(c, file, lo, hi) == c.m[k := Served(file, k)]
  {
    StaleOnly(c, k, toff, hi - lo);
  }

  lemma ReadOneMarks(c: Cached, k: Key, toff: nat, lo: nat, hi: nat)
    requires CachedOk(c) && k in c.ms.at && lo == k.bno * BMAP_SIZE + toff && lo < hi <= FileOff(k) + BUFSZ
    requires k.off <= toff && !Covers(c.ms.at[k], toff, toff + (hi - lo))
    ensures ReadMarks(c.ms.at, lo, hi) == c.ms.at[k := c.ms.at[k].(ready := true)]
  {
    StaleOnly(c, k, toff, hi - lo);
  }

  /** Else the page is fetched. */
  lemma ReadOne(c: Cached, file: nat -> int, k: Key, toff: nat, lo: nat, hi: nat)
    requires CachedOk(c) && k in c.ms.at && lo == k.bno * BMAP_SIZE + toff && lo < hi <= FileOff(k) + BUFSZ
    requires k.off <= toff && !Covers(c.ms.at[k], toff, toff + (hi - lo))
    ensures Refresh(c, file, lo, hi) == Fetched(c, file, k)
  {
    ReadOnePages(c, file, k, toff, lo, hi);
    ReadOneMarks(c, k, toff, lo, hi);
  }

  lemma StaleThen(e: Mark, k: Key, off: nat, l1: nat, l2: nat)
    requires KeyOk(k) && (l1 == 0 || l2 == 0 || (off + l1) % BUFSZ == 0)
    ensures Stale(e, k, off, l1 + l2) <==> Stale(e, k, off, l1) || Stale(ReadMark(e, k, off, l1), k, off + l1, l2)
    ensures ReadMark(ReadMark(e, k, off, l1), k, off + l1, l2) == ReadMark(e, k, off, l1 + l2)
  {
    MeetsOne(k, off, l1, l2);
  }

  lemma ReadMarksThen(ms: Marks, lo: nat, mid: nat, hi: nat)
    requires MarksOk(ms) && lo <= mid <= hi && (lo == mid || mid == hi || mid % BUFSZ == 0)
    ensures ReadMarks(ReadMarks(ms.at, lo, mid), mid, hi) == ReadMarks(ms.at, lo, hi)
  {
    var at1, at2 := ReadMarks(ms.at, lo, mid), ReadMarks(ms.at, lo, hi);
    forall k | k in ms.at ensures ReadMark(at1[k], k, mid, hi - mid) == at2[k] {
      StaleThen(ms.at[k], k, lo, mid - lo, hi - mid);
    }
  }

  lemma ReadPagesThen(c: Cached, file: nat -> int, lo: nat, mid: nat, hi: nat)
    requires CachedOk(c) && lo <= mid <= hi && (lo == mid || mid == hi || mid % BUFSZ == 0)
    requires CachedOk(Refresh(c, file, lo, mid))
    ensures ReadPages(Refresh(c, file, lo, mid), file, mid, hi) == ReadPages(c, file, lo, hi)
  {
    var c1 := Refresh(c, file, lo, mid);
    assert c1.m.Keys == c.m.Keys;
    forall k | k in c.m ensures ReadPage(c1, file, k, mid, hi - mid) == ReadPage(c, file, k, lo, hi - lo) {
      ReadPageThen(c, c1, file, k, lo, mid, hi);
    }
  }

  lemma ReadPageThen(c: Cached, c1: Cached, file: nat -> int, k: Key, lo: nat, mid: nat, hi: nat)
    requires CachedOk(c) && lo <= mid <= hi && (lo == mid || mid == hi || mid % BUFSZ == 0) && k in c.m
    requires CachedOk(c1) && k in c1.m && c1.m[k] == ReadPage(c, file, k, lo, mid - lo)
    requires c1.ms.at[k] == ReadMark(c.ms.at[k], k, lo, mid - lo)
    ensures ReadPage(c1, file, k, mid, hi - mid) == ReadPage(c, file, k, lo, hi - lo)
  {
    StaleThen(c.ms.at[k], k, lo, mid - lo, hi - mid);
  }

  /** Two reads that meet at the start of a page are one. */
  lemma ReadThen(c: Cached, file: nat -> int, lo: nat, mid: nat, hi: nat)
    requires CachedOk(c) && lo <= mid <= hi && (lo == mid || mid == hi || mid % BUFSZ == 0)
    ensures CachedOk(Refresh(c, file, lo, mid))
    ensures Refresh(Refresh(c, file, lo, mid), file, mid, hi) == Refresh(c, file, lo, hi)
  {
    RefreshOk(c, file, lo, mid);
    ReadPagesThen(c, file, lo, mid, hi);
    ReadMarksThen(c.ms, lo, mid, hi);
  }

  /** From one place to the next the range between them is read. */
  ghost predicate ReadLink(cs: seq<Cached>, file: nat -> int, at: seq<nat>, i: nat) {
    i + 1 < |at| == |cs| && CachedOk(cs[i]) && cs[i].m.Keys == cs[0].m.Keys && at[i] <= at[i + 1] ==>
      cs[i + 1] == Refresh(cs[i], file, at[i], at[i + 1])
  }

  /** Reading a range piece by piece is reading it at once. */
  lemma {:induction false} ReadChain(cs: seq<Cached>, file: nat -> int, at: seq<nat>, n: nat)
    requires |cs| == |at| && n < |at| && Cuts(at) && CachedOk(cs[0]) && forall i: nat :: ReadLink(cs, file, at, i)
    ensures at[0] <= at[n] && cs[n] == Refresh(cs[0], file, at[0], at[n])
  {
    if n == 0 {
      ReadNothing(cs[0], file, at[0], at[0]);
    } else {
      ReadChain(cs, file, at, n - 1);
      assert CutOk(at, n - 1) && ReadLink(cs, file, at, n - 1);
      RefreshOk(cs[0], file, at[0], at[n - 1]);
      ReadThen(cs[0], file, at[0], at[n - 1], at[n]);
    }
  }

  lemma ReadFromTo(cs: seq<Cached>, file: nat -> int, at: seq<nat>, lo: nat, hi: nat)
    requires |cs| == |at| && Cuts(at) && CachedOk(cs[0]) && forall i: nat :: ReadLink(cs, file, at, i)
    requires lo == at[0] && hi == at[|at| - 1]
    ensures lo <= hi && cs[|at| - 1] == Refresh(cs[0], file, lo, hi)
  {
    ReadChain(cs, file, at, |at| - 1);
  }

  /** Pages that came in for the read are among those that are fetched. */
  lemma EnteredRefilled(m: Pages, ms: Marks, c: Cached, file: nat -> int, off: nat, len: nat)
    requires m.Keys == ms.at.Keys && CachedOk(c) && len > 0
    requires Grew(m, c.m, off, len) && Entered(ms, c.ms, off, len)
    ensures var d := Refresh(c, file, off, off + len); Refilled(m, d.m, ms, d.ms, file, off, len)
  {
  }

  /** Nothing is left to fetch. */
  ghost predicate NoneStale(ms: Marks, off: nat, len: nat) {
    forall k :: k in ms.at ==> !Stale(ms.at[k], k, off, len)
  }

  lemma NoneStaleWithin(ms: Marks, off: nat, len: nat, o: nat, l: nat)
    requires NoneStale(ms, off, len) && off <= o && o + l <= off + len
    ensures NoneStale(ms, o, l)
  {
  }

  /** If the claims are true and the server has the file, they stay true, and what the read
      finds is the file. */
  lemma RefilledSound(m: Pages, m': Pages, ms: Marks, ms': Marks, file: nat -> int, off: nat, len: nat)
    requires Refilled(m, m', ms, ms', file, off, len) && Sound(m, ms, file)
    ensures Sound(m', ms', file)
    ensures forall x: nat :: In(x, off, len) && Has(m', x) ==> At(m', x) == file(x)
  {
    forall x: nat | KeyOf(x) in m'
      ensures KnownAt(ms', x) || In(x, off, len) ==> Has(m', x) && At(m', x) == file(x)
    {
      RefilledAt(m, m', ms, ms', file, off, len, x);
    }
  }

  lemma RefilledAt(m: Pages, m': Pages, ms: Marks, ms': Marks, file: nat -> int, off: nat, len: nat, x: nat)
    requires Refilled(m, m', ms, ms', file, off, len) && Sound(m, ms, file) && KeyOf(x) in m'
    ensures KnownAt(ms', x) || In(x, off, len) ==> Has(m', x) && At(m', x) == file(x)
  {
    var k := KeyOf(x);
    FileOffOfByte(x);
    if !Stale(MarkOf(ms, k), k, off, len) {
      if In(x, off, len) {
        MeetsIn(k, off, len, x);
        assert KnownAt(ms, x);
      }
      assert KnownAt(ms, x) ==> Has(m, x);
    }
  }

  // ----- Runs -----

  /** The cached pages of a file, their marks, and the file as its readers should see it. */
  datatype State = State(m: Pages, ms: Marks, file: nat -> int)

  /** A write, a read, or a page that leaves the cache. */
  datatype Step = WriteStep(off: nat, data: seq<int>) | ReadStep(off: nat, len: nat) | EvictStep(k: Key)

  ghost predicate Did(s: State, s': State, v: Step) {
    && Good(s'.m) && s'.m.Keys == s'.ms.at.Keys
    && match v
       case WriteStep(off, data) =>
         Wrote(s.m, s'.m, off, data) && NotedBy(s.ms, s'.ms, off, |data|) && s'.file == Over(s.file, off, data)
       case ReadStep(off, len) =>
         Refilled(s.m, s'.m, s.ms, s'.ms, s.file, off, len) && s'.file == s.file
       case EvictStep(k) =>
         s' == State(s.m - {k}, Marks(s.ms.at - {k}), s.file)
  }

  /** From an empty cache. */
  ghost predicate IsRun(ss: seq<State>, vs: seq<Step>) {
    && |ss| == |vs| + 1 && ss[0].m == map[] && ss[0].ms == Marks(map[])
    && forall i :: 0 <= i < |vs| ==> Did(ss[i], ss[i + 1], vs[i])
  }

  ghost predicate Holeless(ms: Marks, v: Step) {
    v.WriteStep? ==> JoinsAll(ms, v.off, |v.data|)
  }

  /** No write before step `n` leaves a hole. */
  ghost predicate NoHoles(ss: seq<State>, vs: seq<Step>, n: nat)
    requires n <= |vs| && n <= |ss|
  {
    forall i :: 0 <= i < n ==> Holeless(ss[i].ms, vs[i])
  }

  lemma StepSound(s: State, s': State, v: Step)
    requires MarksOk(s.ms) && Sound(s.m, s.ms, s.file) && Did(s, s', v)
    requires Holeless(s.ms, v)
    ensures MarksOk(s'.ms) && Sound(s'.m, s'.ms, s'.file)
  {
    match v
    case WriteStep(off, data) =>
      WriteSound(s.m, s'.m, s.ms, s'.ms, s.file, off, data);
      forall k | k in s'.ms.at ensures MarkOk(s'.ms.at[k], k.off) {
        AfterOk(MarkOf(s.ms, k), k, off, |data|);
      }
    case ReadStep(off, len) =>
      RefilledSound(s.m, s'.m, s.ms, s'.ms, s.file, off, len);
    case EvictStep(k) => EvictSound(s, s', k);
  }

  lemma EvictSound(s: State, s': State, k: Key)
    requires MarksOk(s.ms) && Sound(s.m, s.ms, s.file) && Did(s, s', EvictStep(k))
    ensures MarksOk(s'.ms) && Sound(s'.m, s'.ms, s'.file)
  {
    forall x: nat | KnownAt(s'.ms, x) ensures Has(s'.m, x) && At(s'.m, x) == s'.file(x) {
      assert KnownAt(s.ms, x);
    }
  }

  lemma {:induction false} RunSound(ss: seq<State>, vs: seq<Step>, i: nat)
    requires IsRun(ss, vs) && i <= |vs| && NoHoles(ss, vs, i)
    ensures MarksOk(ss[i].ms) && Sound(ss[i].m, ss[i].ms, ss[i].file)
  {
    if i > 0 {
      RunSound(ss, vs, i - 1);
      StepSound(ss[i - 1], ss[i], vs[i - 1]);
    }
  }

  /** A read before which no write left a hole gives the bytes of the file, with all writes
      before it. */
  lemma ReadsAreFile(ss: seq<State>, vs: seq<Step>, i: nat, data: seq<int>)
    requires IsRun(ss, vs) && i < |vs| && NoHoles(ss, vs, i) && vs[i].ReadStep? && |data| <= vs[i].len
    requires Reads(ss[i + 1].m, vs[i].off, data)
    ensures forall j :: 0 <= j < |data| ==> data[j] == ss[i].file(vs[i].off + j)
  {
    RunSound(ss, vs, i);
    RefilledSound(ss[i].m, ss[i + 1].m, ss[i].ms, ss[i + 1].ms, ss[i].file, vs[i].off, vs[i].len);
    forall j | 0 <= j < |data| ensures data[j] == ss[i].file(vs[i].off + j) {
      assert In(vs[i].off + j, vs[i].off, |data|) && In(vs[i].off + j, vs[i].off, vs[i].len);
    }
  }

  const FIRST: Key := Key(0, 0)

  /** One byte was written in the first page. */
  lemma OneWrite(file: nat -> int) returns (s0: State, s1: State)
    ensures s0 == State(map[], Marks(map[]), file) && Did(s0, s1, WriteStep(0, [5]))
    ensures s1.m == map[FIRST := Filled(FIRST, 0, [5])] && s1.ms == Marks(map[FIRST := Mark(false, 0, 1)])
    ensures s1.file == Over(file, 0, [5])
  {
    s0 := State(map[], Marks(map[]), file);
    var m1: Pages := map[FIRST := Filled(FIRST, 0, [5])];
    FilledWrote({}, 0, [5]);
    assert Hit(0, 1) == {FIRST} by {
      assert KeyOf(0) == FIRST;
    }
    assert AllFilled({}, 0, []) == map[] && AllFilled({} + Hit(0, 1), 0, [5]) == m1;
    s1 := State(m1, Marks(map[FIRST := Mark(false, 0, 1)]), Over(file, 0, [5]));
  }

  /** Then another, with a hole between them. */
  lemma TwoWrites(file: nat -> int) returns (s0: State, s1: State, s2: State)
    ensures s0 == State(map[], Marks(map[]), file)
    ensures Did(s0, s1, WriteStep(0, [5])) && Did(s1, s2, WriteStep(2, [6]))
    ensures s2.ms == Marks(map[FIRST := Mark(false, 0, 3)]) && FIRST in s2.m && s2.m[FIRST][1] == 0
    ensures s2.file == Over(Over(file, 0, [5]), 2, [6])
  {
    s0, s1 := OneWrite(file);
    SplicedWrote(s1.m, FIRST, 2, [6]);
    var m2 := s1.m[FIRST := Spliced(s1.m[FIRST], 2, [6])];
    s2 := State(m2, Marks(map[FIRST := Mark(false, 0, 3)]), Over(s1.file, 2, [6]));
  }

  /** A read of the hole is served from the page, and is not the file. */
  lemma HoleIsRead() returns (ss: seq<State>, file: nat -> int)
    ensures |ss| == 3 && ss[0] == State(map[], Marks(map[]), file)
    ensures Did(ss[0], ss[1], WriteStep(0, [5])) && Did(ss[1], ss[2], WriteStep(2, [6]))
    ensures Did(ss[2], ss[2], ReadStep(1, 1)) && Reads(ss[2].m, 1, [0]) && ss[2].file(1) == file(1) == 1
  {
    file := (x: nat) => 1;
    var s0, s1, s2 := TwoWrites(file);
    ss := [s0, s1, s2];
    assert KeyOf(1) == FIRST;
  }
}
