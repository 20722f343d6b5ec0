/** share/adler32.c: the checksum with its modulo deferred to the end of a block.  Bytes are
    read as 0..255. */
module Adler32 {
  const BASE: nat := 65521
  const NMAX: nat := 5552

  type Byte = x: int | 0 <= x < 256
  type Word = x: int | 0 <= x < 0x1_0000_0000

  // ----- Section 8.2 of RFC 1950: both sums are reduced after every byte -----

  datatype Sums = Sums(s1: nat, s2: nat)

  function Reference(seed: Sums, data: seq<Byte>): Sums {
    if data == [] then seed else
      var n := |data| - 1;
      var p := Reference(seed, data[..n]);
      var s1 := (p.s1 + data[n]) % BASE;
      Sums(s1, (p.s2 + s1) % BASE)
  }

  // ----- Sums that are not reduced -----

  /** The sums over data[lo..hi]. */
  function Raw(data: seq<Byte>, lo: nat, hi: nat, seed: Sums): Sums
    requires lo <= hi <= |data|
    decreases hi
  {
    if lo == hi then seed else
      var p := Raw(data, lo, hi - 1, seed);
      Sums(p.s1 + data[hi - 1], p.s2 + (p.s1 + data[hi - 1]))
  }

  /** What s2 can reach after n bytes, starting from two 16-bit halves. */
  function Top(n: nat): nat {
    if n == 0 then 65535 else Top(n - 1) + 65535 + 255 * n
  }

  lemma {:induction false} TopIs(n: nat)
    ensures 2 * Top(n) == 2 * 65535 * (n + 1) + 255 * (n * (n + 1))
  {
    if n > 0 {
      TopIs(n - 1);
      assert n * (n + 1) == (n - 1) * n + 2 * n;
    }
  }

  lemma {:induction false} TopGrows(m: nat, n: nat)
    requires m <= n
    ensures Top(m) <= Top(n)
    decreases n
  {
    if m < n {
      TopGrows(m, n - 1);
    }
  }

  /** No sum within a block is more than 32 bits, whatever the seed. */
  lemma {:induction false} RawFits(data: seq<Byte>, lo: nat, hi: nat, seed: Sums)
    requires lo <= hi <= |data| && hi - lo <= NMAX && seed.s1 < 65536 && seed.s2 < 65536
    ensures var r := Raw(data, lo, hi, seed);
            r.s1 <= 65535 + 255 * (hi - lo) && r.s2 <= Top(hi - lo) && r.s1 < 0x1_0000_0000 && r.s2 < 0x1_0000_0000
    decreases hi
  {
    if lo < hi {
      RawFits(data, lo, hi - 1, seed);
    }
    TopGrows(hi - lo, NMAX);
    TopIs(NMAX);
  }

  lemma MulGrows(a: nat, b: nat, c: nat)
    requires a <= b
    ensures a * c <= b * c
  {
  }

  /** NMAX is the largest n for which the bound of the source holds (here doubled). */
  lemma NmaxIsLargest(n: nat)
    ensures 255 * (n * (n + 1)) + 2 * (BASE - 1) * (n + 1) <= 2 * 0xffff_ffff <==> n <= NMAX
  {
    if n <= NMAX {
      MulGrows(n, NMAX, n + 1);
    } else {
      MulGrows(NMAX + 1, n, n + 1);
    }
  }

  lemma ModIs(a: nat, q: nat, r: nat)
    requires a == BASE * q + r && r < BASE
    ensures a % BASE == r
  {
  }

  lemma ModSum(x: nat, y: nat, c: nat)
    requires x % BASE == y % BASE
    ensures (x + c) % BASE == (y + c) % BASE
  {
    var r := x % BASE;
    var q, z := (r + c) / BASE, (r + c) % BASE;
    ModIs(x + c, x / BASE + q, z);
    ModIs(y + c, y / BASE + q, z);
  }

  predicate Same(a: Sums, b: Sums) {
    a.s1 % BASE == b.s1 % BASE && a.s2 % BASE == b.s2 % BASE
  }

  lemma SameStep(r: Sums, p: Sums, c: nat)
    requires Same(r, p)
    ensures var s1 := (p.s1 + c) % BASE;
            Same(Sums(r.s1 + c, r.s2 + (r.s1 + c)), Sums(s1, (p.s2 + s1) % BASE))
  {
    var s1 := (p.s1 + c) % BASE;
    ModSum(r.s1, p.s1, c);
    ModSum(r.s2, p.s2, r.s1 + c);
    ModSum(r.s1 + c, s1, p.s2);
  }

  /** Reducing at the end of a block is reducing after every byte. */
  lemma {:induction false} RawIsReference(data: seq<Byte>, lo: nat, hi: nat, seed: Sums, at: Sums)
    requires lo <= hi <= |data| && Same(at, Reference(seed, data[..lo]))
    ensures Same(Raw(data, lo, hi, at), Reference(seed, data[..hi]))
    decreases hi
  {
    if lo < hi {
      RawIsReference(data, lo, hi - 1, seed, at);
      assert data[..hi][..hi - 1] == data[..hi - 1];
      var r, p := Raw(data, lo, hi - 1, at), Reference(seed, data[..hi - 1]);
      SameStep(r, p, data[hi - 1]);
    }
  }

  lemma ReferenceReduced(seed: Sums, data: seq<Byte>)
    requires data != []
    ensures Reference(seed, data).s1 < BASE && Reference(seed, data).s2 < BASE
  {
  }

  // ----- The divide-free form of MOD -----

  /** 1 << j */
  function Pow2(j: nat): nat {
    if j == 0 then 1 else 2 * Pow2(j - 1)
  }

  /** The steps for BASE << j down to BASE. */
  function Chain(a: nat, j: nat): nat {
    var b := if a >= BASE * Pow2(j) then a - BASE * Pow2(j) else a;
    if j == 0 then b else Chain(b, j - 1)
  }

  function NoDivide(a: nat): nat {
    Chain(a, 16)
  }

  lemma {:induction false} ChainIsMod(a: nat, j: nat)
    requires a < 2 * (BASE * Pow2(j))
    ensures Chain(a, j) == a % BASE
  {
    var p := Pow2(j);
    var b := if a >= BASE * p then a - BASE * p else a;
    assert b % BASE == a % BASE by {
      if a >= BASE * p {
        ModIs(a, b / BASE + p, b % BASE);
      }
    }
    if j > 0 {
      ChainIsMod(b, j - 1);
    }
  }

  /** On every 32-bit value it is the remainder. */
  lemma NoDivideIsMod(a: Word)
    ensures NoDivide(a) == a % BASE
  {
    assert Pow2(4) == 16 && Pow2(8) == 256 && Pow2(12) == 4096 && Pow2(16) == 65536;
    ChainIsMod(a, 16);
  }

  // ----- The code -----

  /** Where a block stands: it began at `lo` with the sums `seed`. */
  ghost predicate Block(data: seq<Byte>, lo: nat, pos: nat, seed: Sums, s1: Word, s2: Word) {
    && lo <= pos <= |data| && pos - lo <= NMAX && seed.s1 < 65536 && seed.s2 < 65536
    && Sums(s1, s2) == Raw(data, lo, pos, seed)
  }

  method Do1(buf: seq<Byte>, i: nat, s1: Word, s2: Word, ghost lo: nat, ghost seed: Sums) returns (t1: Word, t2: Word)
    requires Block(buf, lo, i, seed, s1, s2) && i < |buf| && i - lo < NMAX
    ensures Block(buf, lo, i + 1, seed, t1, t2)
  {
    RawFits(buf, lo, i + 1, seed);
    t1 := s1 + buf[i];
    t2 := s2 + t1;
  }

  method Do2(buf: seq<Byte>, i: nat, s1: Word, s2: Word, ghost lo: nat, ghost seed: Sums) returns (t1: Word, t2: Word)
    requires Block(buf, lo, i, seed, s1, s2) && i + 2 <= |buf| && i + 2 - lo <= NMAX
    ensures Block(buf, lo, i + 2, seed, t1, t2)
  {
    t1, t2 := Do1(buf, i, s1, s2, lo, seed);
    t1, t2 := Do1(buf, i + 1, t1, t2, lo, seed);
  }

  method Do4(buf: seq<Byte>, i: nat, s1: Word, s2: Word, ghost lo: nat, ghost seed: Sums) returns (t1: Word, t2: Word)
    requires Block(buf, lo, i, seed, s1, s2) && i + 4 <= |buf| && i + 4 - lo <= NMAX
    ensures Block(buf, lo, i + 4, seed, t1, t2)
  {
    t1, t2 := Do2(buf, i, s1, s2, lo, seed);
    t1, t2 := Do2(buf, i + 2, t1, t2, lo, seed);
  }

  method Do8(buf: seq<Byte>, i: nat, s1: Word, s2: Word, ghost lo: nat, ghost seed: Sums) returns (t1: Word, t2: Word)
    requires Block(buf, lo, i, seed, s1, s2) && i + 8 <= |buf| && i + 8 - lo <= NMAX
    ensures Block(buf, lo, i + 8, seed, t1, t2)
  {
    t1, t2 := Do4(buf, i, s1, s2, lo, seed);
    t1, t2 := Do4(buf, i + 4, t1, t2, lo, seed);
  }

  method Do16(buf: seq<Byte>, i: nat, s1: Word, s2: Word, ghost lo: nat, ghost seed: Sums) returns (t1: Word, t2: Word)
    requires Block(buf, lo, i, seed, s1, s2) && i + 16 <= |buf| && i + 16 - lo <= NMAX
    ensures Block(buf, lo, i + 16, seed, t1, t2)
  {
    t1, t2 := Do8(buf, i, s1, s2, lo, seed);
    t1, t2 := Do8(buf, i + 8, t1, t2, lo, seed);
  }

  /** One block: all its bytes are summed up, sixteen at a time as long as that goes. */
  method SumBlock(buf: seq<Byte>, lo: nat, n: nat, s1: Word, s2: Word) returns (t1: Word, t2: Word)
    requires lo + n <= |buf| && n <= NMAX && s1 < 65536 && s2 < 65536
    ensures Block(buf, lo, lo + n, Sums(s1, s2), t1, t2)
  {
    ghost var seed := Sums(s1, s2);
    t1, t2 := s1, s2;
    var pos, k := lo, n;
    while k >= 16
      invariant pos + k == lo + n && lo <= pos && Block(buf, lo, pos, seed, t1, t2)
    {
      t1, t2 := Do16(buf, pos, t1, t2, lo, seed);
      pos, k := pos + 16, k - 16;
    }
    while k != 0
      invariant pos + k == lo + n && lo <= pos && Block(buf, lo, pos, seed, t1, t2)
    {
      t1, t2 := Do1(buf, pos, t1, t2, lo, seed);
      pos, k := pos + 1, k - 1;
    }
  }

  lemma Reduced(x: Sums, y: Sums)
    requires Same(x, y) && y.s1 < BASE && y.s2 < BASE
    ensures Sums(x.s1 % BASE, x.s2 % BASE) == y
  {
    ModIs(y.s1, 0, y.s1);
    ModIs(y.s2, 0, y.s2);
  }

  /** One turn of the outer loop. */
  method DoBlock(buf: seq<Byte>, lo: nat, n: nat, s1: Word, s2: Word, ghost seed: Sums) returns (t1: Word, t2: Word)
    requires 0 < n <= NMAX && lo + n <= |buf| && s1 < 65536 && s2 < 65536
    requires Sums(s1, s2) == Reference(seed, buf[..lo])
    ensures t1 < 65536 && t2 < 65536 && Sums(t1, t2) == Reference(seed, buf[..lo + n])
  {
    t1, t2 := SumBlock(buf, lo, n, s1, s2);
    RawIsReference(buf, lo, lo + n, seed, Sums(s1, s2));
    ReferenceReduced(seed, buf[..lo + n]);
    Reduced(Sums(t1, t2), Reference(seed, buf[..lo + n]));
    t1, t2 := t1 % BASE, t2 % BASE;
  }

  /** adler32(): for every seed and every length, the sums reduced after every byte. */
  method Adler(adler: Word, buf: seq<Byte>) returns (r: Word)
    ensures var s := Reference(Sums(adler % 65536, adler / 65536 % 65536), buf);
            r == s.s2 * 65536 + s.s1
  {
    var s1: Word, s2: Word := adler % 65536, adler / 65536 % 65536;
    ghost var seed := Sums(s1, s2);
    var pos: nat, len: nat := 0, |buf|;
    assert buf[..0] == [];
    while len > 0
      invariant pos + len == |buf| && s1 < 65536 && s2 < 65536
      invariant Sums(s1, s2) == Reference(seed, buf[..pos])
    {
      var k := if len < NMAX then len else NMAX;
      len := len - k;
      s1, s2 := DoBlock(buf, pos, k, s1, s2, seed);
      pos := pos + k;
    }
    assert buf[..|buf|] == buf;
    r := s2 * 65536 + s1;
  }
}
