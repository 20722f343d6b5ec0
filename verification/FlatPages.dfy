/** The cached pages of a file, one tree of pages per bmap, read as one flat array of bytes. */
module FlatPages {
  import opened Common

  /** A page: its bmap and its offset in that bmap. */
  datatype Key = Key(bno: nat, off: nat)

  type Pages = map<Key, seq<int>>

  /** The file offset of a page. */
  function FileOff(k: Key): nat {
    k.bno * BMAP_SIZE + k.off
  }

  predicate KeyOk(k: Key) {
    k.off < BMAP_SIZE && k.off % BUFSZ == 0
  }

  ghost predicate Good(m: Pages) {
    forall k :: k in m ==> KeyOk(k) && |m[k]| == BUFSZ
  }

  /** The page that holds a byte of the file. */
  function KeyOf(x: nat): Key {
    Key(x / BMAP_SIZE, Align(x % BMAP_SIZE))
  }

  /** A bmap is a whole number of pages. */
  lemma PageOfBmap(q: nat, r: nat)
    requires r < BMAP_SIZE
    ensures (q * BMAP_SIZE + r) / BMAP_SIZE == q && (q * BMAP_SIZE + r) % BMAP_SIZE == r
    ensures (q * BMAP_SIZE + r) % BUFSZ == r % BUFSZ
  {
    var p, i := r / BUFSZ, r % BUFSZ;
    var x := q * BMAP_SIZE + r;
    assert x == (q * (BMAP_SIZE / BUFSZ) + p) * BUFSZ + i;
  }

  /** A byte of a page. */
  lemma KeyOfByte(k: Key, i: nat)
    requires KeyOk(k) && i < BUFSZ
    ensures KeyOf(FileOff(k) + i) == k && (FileOff(k) + i) % BUFSZ == i
  {
    assert k.off + i < BMAP_SIZE && (k.off + i) % BUFSZ == i;
    PageOfBmap(k.bno, k.off + i);
  }

  lemma FileOffOfByte(x: nat)
    ensures x == FileOff(KeyOf(x)) + x % BUFSZ
  {
    var q, r := x / BMAP_SIZE, x % BMAP_SIZE;
    PageOfBmap(q, r);
    assert x == q * BMAP_SIZE + r && r == Align(r) + r % BUFSZ;
  }

  lemma KeyOfIs(x: nat, k: Key, i: nat)
    requires KeyOk(k) && i < BUFSZ
    ensures x == FileOff(k) + i <==> KeyOf(x) == k && x % BUFSZ == i
  {
    KeyOfByte(k, i);
    FileOffOfByte(x);
  }

  ghost predicate Has(m: Pages, x: nat) {
    KeyOf(x) in m && |m[KeyOf(x)]| == BUFSZ
  }

  ghost function At(m: Pages, x: nat): int
    requires Has(m, x)
  {
    m[KeyOf(x)][x % BUFSZ]
  }

  /** A page overlaps a range of the file. */
  predicate Overlaps(k: Key, off: nat, len: nat) {
    FileOff(k) < off + len && off < FileOff(k) + BUFSZ
  }

  ghost predicate In(x: nat, off: nat, len: nat) {
    off <= x < off + len
  }

  /** Exactly the bytes of [off, off + |data|) have changed, to `data`; other pages may have
      come into the cache. */
  ghost predicate Wrote(m: Pages, m': Pages, off: nat, data: seq<int>) {
    && Good(m') && m.Keys <= m'.Keys
    && (forall x: nat :: In(x, off, |data|) ==> Has(m', x) && At(m', x) == data[x - off])
    && (forall x: nat :: Has(m, x) && !In(x, off, |data|) ==> Has(m', x) && At(m', x) == At(m, x))
  }

  function Spliced(s: seq<int>, start: nat, d: seq<int>): seq<int>
    requires start + |d| <= |s|
  {
    s[..start] + d + s[start + |d|..]
  }

  lemma SplicedWrote(m: Pages, k: Key, start: nat, d: seq<int>)
    requires Good(m) && k in m && start + |d| <= BUFSZ
    ensures Wrote(m, m[k := Spliced(m[k], start, d)], FileOff(k) + start, d)
  {
    var off, m' := FileOff(k) + start, m[k := Spliced(m[k], start, d)];
    forall x: nat | In(x, off, |d|) ensures Has(m', x) && At(m', x) == d[x - off] {
      KeyOfIs(x, k, x - FileOff(k));
    }
    forall x: nat | Has(m, x) && !In(x, off, |d|) ensures Has(m', x) && At(m', x) == At(m, x) {
      KeyOfIs(x, k, x % BUFSZ);
    }
  }

  lemma WroteNothing(m: Pages, off: nat)
    requires Good(m)
    ensures Wrote(m, m, off, [])
  {
  }

  lemma WroteThen(m0: Pages, m1: Pages, m2: Pages, off: nat, d1: seq<int>, d2: seq<int>)
    requires Wrote(m0, m1, off, d1) && Wrote(m1, m2, off + |d1|, d2)
    ensures Wrote(m0, m2, off, d1 + d2)
  {
    forall x: nat | In(x, off, |d1 + d2|) ensures Has(m2, x) && At(m2, x) == (d1 + d2)[x - off] {
      assert In(x, off, |d1|) || In(x, off + |d1|, |d2|);
    }
    forall x: nat | Has(m0, x) && !In(x, off, |d1 + d2|) ensures Has(m2, x) && At(m2, x) == At(m0, x) {
      assert !In(x, off, |d1|) && !In(x, off + |d1|, |d2|);
    }
  }

  /** `data` is what the cache holds from `off` on. */
  ghost predicate Reads(m: Pages, off: nat, data: seq<int>) {
    forall x: nat :: In(x, off, |data|) ==> Has(m, x) && At(m, x) == data[x - off]
  }

  lemma PageReads(m: Pages, k: Key, start: nat, n: nat)
    requires Good(m) && k in m && start + n <= BUFSZ
    ensures Reads(m, FileOff(k) + start, m[k][start..start + n])
  {
    var off := FileOff(k) + start;
    forall x: nat | In(x, off, n) ensures Has(m, x) && At(m, x) == m[k][start..start + n][x - off] {
      KeyOfIs(x, k, x - FileOff(k));
    }
  }

  lemma ReadsThen(m: Pages, off: nat, d1: seq<int>, d2: seq<int>)
    requires Reads(m, off, d1) && Reads(m, off + |d1|, d2)
    ensures Reads(m, off, d1 + d2)
  {
    forall x: nat | In(x, off, |d1 + d2|) ensures Has(m, x) && At(m, x) == (d1 + d2)[x - off] {
      assert In(x, off, |d1|) || In(x, off + |d1|, |d2|);
    }
  }

  /** What was written is what is read, and a read of other bytes does not see the write. */
  lemma WriteThenRead(m: Pages, m': Pages, off: nat, data: seq<int>, from: nat, got: seq<int>)
    requires Wrote(m, m', off, data) && Reads(m', from, got)
    ensures forall x: nat :: In(x, from, |got|) && In(x, off, |data|) ==> got[x - from] == data[x - off]
    ensures forall x: nat :: In(x, from, |got|) && !In(x, off, |data|) && Has(m, x) ==> got[x - from] == At(m, x)
  {
    forall x: nat | In(x, from, |got|) && !In(x, off, |data|) && Has(m, x) ensures got[x - from] == At(m, x) {
      assert At(m', x) == got[x - from];
    }
  }

  /** Only pages of [off, off + len) have come into the cache. */
  ghost predicate Grew(m: Pages, m': Pages, off: nat, len: nat) {
    && Good(m') && (forall k :: k in m ==> k in m' && m'[k] == m[k])
    && (forall k :: k in m' && k !in m ==> Overlaps(k, off, len))
  }

  lemma GrewWrote(m0: Pages, m1: Pages, m2: Pages, off: nat, len: nat, data: seq<int>)
    requires Grew(m0, m1, off, len) && Wrote(m1, m2, off, data)
    ensures Wrote(m0, m2, off, data)
  {
    forall x: nat | Has(m0, x) && !In(x, off, |data|) ensures Has(m2, x) && At(m2, x) == At(m0, x) {
      assert Has(m1, x);
    }
  }

  lemma GrewWithin(m0: Pages, m1: Pages, m2: Pages, off: nat, len: nat, o: nat, l: nat)
    requires Grew(m0, m1, off, len) && Grew(m1, m2, o, l) && off <= o && o + l <= off + len
    ensures Grew(m0, m2, off, len)
  {
  }
}
