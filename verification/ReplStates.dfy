/** include/bmap.h: the 3-bit replica states of a bmap, packed into bytes.  A state may straddle
    two bytes.  The source works on bytes promoted to int; only the low eight bits of each
    result are kept, so eight bits are enough here. */
module ReplStates {
  /** SL_BITS_PER_REPLICA and SL_REPLICA_MASK */
  const BITS: nat := 3
  const MASK: bv8 := 7

  /** SL_REPL_GET_BMAP_IOS_STAT of a slot at bit `s` of `lo`; `hi` is the byte after. */
  function Get(s: nat, lo: bv8, hi: bv8): bv8
    requires s < 8
  {
    MASK & ((lo >> s) | if s + BITS > 8 then hi << (BITS - (s + BITS - 8)) else 0)
  }

  /** The first byte SL_REPL_SET_BMAP_IOS_STAT writes. */
  function SetLo(s: nat, lo: bv8, v: bv8): bv8
    requires s < 8
  {
    (lo & !(MASK << s)) | (v << s)
  }

  /** The second one, if the slot goes on in it. */
  function SetHi(s: nat, hi: bv8, v: bv8): bv8
    requires s < 8
  {
    if s + BITS > 8 then
      var j := BITS - (s + BITS - 8);
      (hi & !(MASK >> j)) | (v >> j)
    else hi
  }

  lemma GetSet(s: nat, lo: bv8, hi: bv8, v: bv8)
    requires s < 8 && v <= MASK
    ensures Get(s, SetLo(s, lo, v), SetHi(s, hi, v)) == v
  {
    if s == 0 {
    } else if s == 1 {
    } else if s == 2 {
    } else if s == 3 {
    } else if s == 4 {
    } else if s == 5 {
    } else if s == 6 {
    } else {
      assert s == 7;
    }
  }

  /** A slot above, in the same byte. */
  lemma AboveLo(s: nat, t: nat, lo: bv8, hi: bv8, v: bv8)
    requires s + BITS <= t < 8 && v <= MASK
    ensures Get(t, SetLo(s, lo, v), hi) == Get(t, lo, hi)
  {
    if s == 0 {
      assert SetLo(0, lo, v) >> 3 == lo >> 3;
    } else if s == 1 {
    } else if s == 2 {
    } else if s == 3 {
    } else {
      assert s == 4 && t == 7;
    }
  }

  lemma HighBits(x: bv8, y: bv8, t: nat)
    requires (x >> 1 == y >> 1 && 1 <= t < 8) || (x >> 2 == y >> 2 && 2 <= t < 8)
    ensures x >> t == y >> t
  {
    if t == 1 {
    } else if t == 2 {
    } else if t == 3 {
    } else if t == 4 {
    } else if t == 5 {
    } else if t == 6 {
    } else {
      assert t == 7;
    }
  }

  /** A slot above, that starts in the byte where this one ends. */
  lemma AboveHi(s: nat, t: nat, lo: bv8, hi: bv8, v: bv8)
    requires s < 8 && s + BITS <= t + 8 && t < 8 && v <= MASK
    ensures Get(t, SetHi(s, lo, v), hi) == Get(t, lo, hi)
  {
    if s == 6 {
      assert SetHi(6, lo, v) >> 1 == lo >> 1;
      HighBits(SetHi(6, lo, v), lo, t);
    } else if s == 7 {
      assert SetHi(7, lo, v) >> 2 == lo >> 2;
      HighBits(SetHi(7, lo, v), lo, t);
    }
  }

  /** A slot below, in the same byte. */
  lemma BelowLo(s: nat, t: nat, lo: bv8, hi: bv8, v: bv8)
    requires t + BITS <= s < 8 && v <= MASK
    ensures Get(t, SetLo(s, lo, v), hi) == Get(t, lo, hi)
  {
    if t == 0 {
    } else if t == 1 {
    } else if t == 2 {
    } else if t == 3 {
    } else {
      assert t == 4 && s == 7;
    }
  }

  /** A slot below, that ends in the byte where this one starts. */
  lemma BelowHi(s: nat, t: nat, lo: bv8, hi: bv8, v: bv8)
    requires s < 8 && t < 8 && t + BITS <= s + 8 && v <= MASK
    ensures Get(t, lo, SetLo(s, hi, v)) == Get(t, lo, hi)
  {
    if t == 6 {
      assert 1 <= s;
    } else if t == 7 {
      assert 2 <= s;
    }
  }

  // ----- The packed array -----

  type Packed = seq<bv8>

  predicate Slot(d: Packed, k: nat) {
    BITS * k + BITS <= 8 * |d|
  }

  /** The state of replica `k`. */
  function Stat(d: Packed, k: nat): bv8
    requires Slot(d, k)
  {
    var b, s := BITS * k / 8, BITS * k % 8;
    Get(s, d[b], if s + BITS > 8 then d[b + 1] else 0)
  }

  /** All bytes after replica `k` is set. */
  function Put(d: Packed, k: nat, v: bv8): Packed
    requires Slot(d, k)
  {
    var b, s := BITS * k / 8, BITS * k % 8;
    var e := d[b := SetLo(s, d[b], v)];
    if s + BITS > 8 then e[b + 1 := SetHi(s, d[b + 1], v)] else e
  }

  /** SL_REPL_SET_BMAP_IOS_STAT, in place. */
  method SetStat(data: array<bv8>, k: nat, v: bv8)
    requires Slot(data[..], k)
    modifies data
    ensures data[..] == Put(old(data[..]), k, v)
  {
    var b, s := BITS * k / 8, BITS * k % 8;
    data[b] := (data[b] & !(MASK << s)) | (v << s);
    var j := s + BITS - 8;
    if j > 0 {
      j := BITS - j;
      data[b + 1] := (data[b + 1] & !(MASK >> j)) | (v >> j);
    }
  }

  /** The array refines an array of 3-bit values: the slot that is set has the value, every
      other slot keeps its own, also where two slots share a byte. */
  lemma PutStat(d: Packed, k: nat, v: bv8, i: nat)
    requires Slot(d, k) && Slot(d, i) && v <= MASK
    ensures |Put(d, k, v)| == |d| && Stat(Put(d, k, v), i) == if i == k then v else Stat(d, i)
  {
    var b, s := BITS * k / 8, BITS * k % 8;
    var c, t := BITS * i / 8, BITS * i % 8;
    var hi := if t + BITS > 8 then d[c + 1] else 0;
    if i == k {
      GetSet(s, d[b], if s + BITS > 8 then d[b + 1] else 0, v);
    } else if k < i {
      assert BITS * k + BITS <= BITS * i;
      if c == b {
        AboveLo(s, t, d[b], hi, v);
      } else if c == b + 1 {
        AboveHi(s, t, d[c], hi, v);
      }
    } else {
      assert BITS * i + BITS <= BITS * k;
      if c == b {
        BelowLo(s, t, d[b], hi, v);
      } else if c + 1 == b {
        BelowHi(s, t, d[c], d[b], v);
      }
    }
  }

  // ----- Where the bits are -----

  predicate Bit(x: bv8, i: nat)
    requires i < 8
  {
    (x >> i) & 1 == 1
  }

  lemma GetBit(s: nat, lo: bv8, hi: bv8, j: nat)
    requires s < 8 && j < BITS
    ensures Bit(Get(s, lo, hi), j) <==> if s + j < 8 then Bit(lo, s + j) else Bit(hi, s + j - 8)
  {
    if s == 0 {
      GetBitAt0(lo, hi, j);
    } else if s <= 5 {
      GetBitLow(s, lo, hi, j);
    } else {
      GetBitHigh(s, lo, hi, j);
    }
  }

  lemma GetBitAt0(lo: bv8, hi: bv8, j: nat)
    requires j < BITS
    ensures Bit(Get(0, lo, hi), j) <==> Bit(lo, j)
  {
    if j == 0 {
    } else if j == 1 {
    } else {
      assert j == 2;
    }
  }

  lemma GetBitLow(s: nat, lo: bv8, hi: bv8, j: nat)
    requires 1 <= s <= 5 && j < BITS
    ensures Bit(Get(s, lo, hi), j) <==> Bit(lo, s + j)
  {
    GetBitAt0(lo >> s, 0, j);
    if s == 1 {
      ShiftBit(lo, 1, j);
    } else if s == 2 {
      ShiftBit(lo, 2, j);
    } else if s == 3 {
      ShiftBit(lo, 3, j);
    } else if s == 4 {
      ShiftBit(lo, 4, j);
    } else {
      ShiftBit(lo, 5, j);
    }
  }

  lemma ShiftBit(x: bv8, s: nat, j: nat)
    requires 1 <= s <= 5 && j < BITS
    ensures Bit(x >> s, j) <==> Bit(x, s + j)
  {
    assert (x >> s) >> j == x >> (s + j);
  }

  lemma GetBitHigh(s: nat, lo: bv8, hi: bv8, j: nat)
    requires 6 <= s < 8 && j < BITS
    ensures Bit(Get(s, lo, hi), j) <==> if s + j < 8 then Bit(lo, s + j) else Bit(hi, s + j - 8)
  {
    if s == 6 {
      if j == 0 {
      } else if j == 1 {
      } else {
        assert j == 2;
      }
    } else {
      if j == 0 {
      } else if j == 1 {
      } else {
        assert j == 2;
      }
    }
  }

  /** The state of replica `k` is in bits 3k to 3k + 2 of the array, counted from the lowest bit of
      the first byte. */
  lemma StatBit(d: Packed, k: nat, j: nat)
    requires Slot(d, k) && j < 3
    ensures (3 * k + j) / 8 < |d| && (Bit(Stat(d, k), j) <==> Bit(d[(3 * k + j) / 8], (3 * k + j) % 8))
  {
    var b, s := BITS * k / 8, BITS * k % 8;
    GetBit(s, d[b], if s + BITS > 8 then d[b + 1] else 0, j);
    assert (3 * k + j) / 8 == (if s + j < 8 then b else b + 1);
  }

  datatype Set = Set(k: nat, v: bv8)

  ghost predicate SetsOk(d: Packed, ops: seq<Set>) {
    forall i :: 0 <= i < |ops| ==> Slot(d, ops[i].k) && ops[i].v <= MASK
  }

  /** The array after a sequence of SETs. */
  function Run(d: Packed, ops: seq<Set>): Packed
    requires SetsOk(d, ops)
    ensures |Run(d, ops)| == |d|
  {
    if ops == [] then d else
      var n := |ops| - 1;
      Put(Run(d, ops[..n]), ops[n].k, ops[n].v)
  }

  /** The last value set at a slot, or the one that was there. */
  function Last(d: Packed, ops: seq<Set>, k: nat): bv8
    requires Slot(d, k)
  {
    if ops == [] then Stat(d, k)
    else if ops[|ops| - 1].k == k then ops[|ops| - 1].v
    else Last(d, ops[..|ops| - 1], k)
  }

  /** After any sequence of SETs, GET returns the last value set at the slot. */
  lemma {:induction false} GetsLast(d: Packed, ops: seq<Set>, k: nat)
    requires SetsOk(d, ops) && Slot(d, k)
    ensures Stat(Run(d, ops), k) == Last(d, ops, k)
  {
    if ops != [] {
      var n := |ops| - 1;
      GetsLast(d, ops[..n], k);
      PutStat(Run(d, ops[..n]), ops[n].k, ops[n].v, k);
    }
  }

  /** A translation of states, indexed by state; -1 leaves a state alone. */
  ghost predicate TractOk(tract: seq<int>) {
    |tract| == 8 && forall v :: 0 <= v < 8 ==> -1 <= tract[v] < 8
  }

  function Translate(tract: seq<int>, v: bv8): bv8
    requires |tract| == 8 && v <= MASK && -1 <= tract[v as int] < 8
  {
    if tract[v as int] == -1 then v else tract[v as int] as bv8
  }

  lemma StatSmall(d: Packed, k: nat)
    requires Slot(d, k)
    ensures Stat(d, k) <= MASK && Stat(d, k) as int < 8
  {
  }

  /** mds_repl_bmap_walk_all(): the states of the first `n` replicas are translated in place,
      the others stay. */
  method WalkAll(data: array<bv8>, n: nat, tract: seq<int>)
    requires BITS * n <= 8 * data.Length && TractOk(tract)
    modifies data
    ensures forall k: nat :: Slot(data[..], k) ==>
              && Slot(old(data[..]), k) && Stat(old(data[..]), k) <= MASK && Stat(old(data[..]), k) as int < 8
              && Stat(data[..], k) == if k < n then Translate(tract, Stat(old(data[..]), k)) else Stat(old(data[..]), k)
  {
    ghost var was := data[..];
    forall k: nat | Slot(was, k) ensures Stat(was, k) <= MASK && Stat(was, k) as int < 8 {
      StatSmall(was, k);
    }
    for i := 0 to n
      invariant forall k: nat :: Slot(was, k) ==>
                  Stat(data[..], k) == if k < i then Translate(tract, Stat(was, k)) else Stat(was, k)
    {
      var b, s := BITS * i / 8, BITS * i % 8;
      var val := Get(s, data[b], if s + BITS > 8 then data[b + 1] else 0);
      ghost var d := data[..];
      assert Slot(was, i) && val == Stat(d, i) == Stat(was, i);
      if tract[val as int] != -1 {
        var v := tract[val as int] as bv8;
        SetStat(data, i, v);
        forall k: nat | Slot(was, k) ensures Stat(data[..], k) == if k == i then v else Stat(d, k) {
          PutStat(d, i, v, k);
        }
      }
    }
  }
}
