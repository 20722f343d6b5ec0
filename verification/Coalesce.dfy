/** mount_slash/bflush.c: grouping the sorted pending writes of a bmap into RPCs.  Whether a
    request has expired is an input that does not change during a pass. */
module Coalesce {
  import opened Common

  /** `pages` are the offsets of the cached pages attached to the request. */
  datatype Req = Req(off: nat, len: nat, expired: bool, pages: seq<nat>)

  datatype Group = Group(soff: nat, size: nat, reqs: seq<Req>)

  /** biorq_voff_get() */
  function Voff(r: Req): nat {
    r.off + r.len
  }

  predicate InOrder(rs: seq<Req>, i: nat) {
    i + 1 < |rs| ==> rs[i].off <= rs[i + 1].off
  }

  ghost predicate Sorted(rs: seq<Req>) {
    forall i: nat :: InOrder(rs, i)
  }

  predicate Fits(rs: seq<Req>, i: nat) {
    i < |rs| ==> rs[i].len <= MTU
  }

  ghost predicate Small(rs: seq<Req>) {
    forall i: nat :: Fits(rs, i)
  }

  /** The largest end of the requests from `lo` to before `hi`. */
  function End(rs: seq<Req>, lo: nat, hi: nat): nat
    requires lo < hi <= |rs|
    decreases hi
  {
    var v := Voff(rs[hi - 1]);
    if lo + 1 == hi || v > End(rs, lo, hi - 1) then v else End(rs, lo, hi - 1)
  }

  /** Offsets do not decrease, and each request starts at or before the end reached so far. */
  predicate NoHole(rs: seq<Req>, lo: nat, hi: nat)
    requires lo < hi <= |rs|
    decreases hi
  {
    lo + 1 == hi || (NoHole(rs, lo, hi - 1) && rs[hi - 2].off <= rs[hi - 1].off <= End(rs, lo, hi - 1))
  }

  predicate Holds(r: Req, x: nat) {
    r.off <= x < Voff(r)
  }

  /** A group is what the coalescer promises prep: requests in offset order without a hole.  It is
      longer than an RPC may be only if its first request is. */
  predicate GroupOk(g: Group) {
    var n := |g.reqs|;
    && n > 0 && NoHole(g.reqs, 0, n) && g.soff == g.reqs[0].off && g.soff + g.size == End(g.reqs, 0, n)
    && g.size <= Max(MTU, g.reqs[0].len)
  }

  predicate AnyExpired(rs: seq<Req>, lo: nat, hi: nat)
    requires hi <= |rs|
  {
    lo < hi && (rs[hi - 1].expired || AnyExpired(rs, lo, hi - 1))
  }

  lemma {:induction false} ExpiredIff(rs: seq<Req>, lo: nat, hi: nat)
    requires hi <= |rs|
    ensures AnyExpired(rs, lo, hi) <==> exists k :: lo <= k < hi && rs[k].expired
  {
    if lo < hi {
      ExpiredIff(rs, lo, hi - 1);
    }
  }

  /** A slice of the requests reaches as far and has no hole exactly as the range does. */
  lemma {:induction false} SliceIs(rs: seq<Req>, lo: nat, hi: nat, top: nat)
    requires lo < hi <= top <= |rs|
    ensures End(rs[lo..top], 0, hi - lo) == End(rs, lo, hi)
    ensures NoHole(rs[lo..top], 0, hi - lo) <==> NoHole(rs, lo, hi)
    decreases hi
  {
    if lo + 1 < hi {
      SliceIs(rs, lo, hi - 1, top);
    }
  }

  /** The bytes of the requests of a group are exactly the range of the group. */
  lemma {:induction false} Covers(rs: seq<Req>, n: nat, x: nat)
    requires 0 < n <= |rs| && NoHole(rs, 0, n)
    ensures rs[0].off <= rs[n - 1].off
    ensures rs[0].off <= x < End(rs, 0, n) <==> exists k :: 0 <= k < n && Holds(rs[k], x)
  {
    if n > 1 {
      Covers(rs, n - 1, x);
      assert Holds(rs[n - 1], x) <==> rs[n - 1].off <= x < Voff(rs[n - 1]);
    } else {
      assert Holds(rs[0], x) <==> rs[0].off <= x < Voff(rs[0]);
    }
  }

  lemma GroupCovers(g: Group, x: nat)
    requires GroupOk(g)
    ensures g.soff <= x < g.soff + g.size <==> exists k :: 0 <= k < |g.reqs| && Holds(g.reqs[k], x)
  {
    Covers(g.reqs, |g.reqs|, x);
  }

  /** The requests from `start` to before `next` form a group; `last` is the one that reaches
      furthest. */
  predicate Held(rs: seq<Req>, start: nat, next: nat, soff: nat, size: nat, last: Req) {
    && start < next <= |rs| && NoHole(rs, start, next) && soff == rs[start].off
    && size <= Max(MTU, rs[start].len)
    && Voff(last) == soff + size == End(rs, start, next) && last.off <= rs[next - 1].off
  }

  lemma HeldOne(rs: seq<Req>, i: nat)
    requires i < |rs|
    ensures Held(rs, i, i + 1, rs[i].off, rs[i].len, rs[i]) && rs[i..i + 1] == [rs[i]]
  {
  }

  lemma HeldMore(rs: seq<Req>, start: nat, next: nat, soff: nat, size: nat, last: Req)
    requires Held(rs, start, next, soff, size, last) && next < |rs|
    requires rs[next - 1].off <= rs[next].off <= Voff(last) && Voff(rs[next]) <= Max(Voff(last), soff + MTU)
    ensures var sz := Voff(rs[next]) - Voff(last);
            Held(rs, start, next + 1, soff, if sz > 0 then size + sz else size, if sz < 0 then last else rs[next])
    ensures rs[start..next + 1] == rs[start..next] + [rs[next]]
  {
  }

  lemma HeldGroup(rs: seq<Req>, start: nat, next: nat, soff: nat, size: nat, last: Req)
    requires Held(rs, start, next, soff, size, last)
    ensures GroupOk(Group(soff, size, rs[start..next]))
  {
    SliceIs(rs, start, next, next);
  }

  // ----- What is left behind -----

  lemma {:induction false} NoHolePrefix(rs: seq<Req>, lo: nat, mid: nat, hi: nat)
    requires lo < mid <= hi <= |rs| && NoHole(rs, lo, hi)
    ensures NoHole(rs, lo, mid) && End(rs, lo, mid) <= End(rs, lo, hi)
    decreases hi
  {
    if mid < hi {
      NoHolePrefix(rs, lo, mid, hi - 1);
    }
  }

  lemma {:induction false} EndShrinks(rs: seq<Req>, lo: nat, mid: nat, hi: nat)
    requires lo <= mid < hi <= |rs|
    ensures End(rs, mid, hi) <= End(rs, lo, hi)
    decreases hi
  {
    if mid + 1 < hi {
      EndShrinks(rs, lo, mid, hi - 1);
    }
  }

  lemma {:induction false} OffsetsRise(rs: seq<Req>, lo: nat, hi: nat)
    requires Sorted(rs) && lo <= hi < |rs|
    ensures rs[lo].off <= rs[hi].off
    decreases hi
  {
    if lo < hi {
      OffsetsRise(rs, lo, hi - 1);
      assert InOrder(rs, hi - 1);
    }
  }

  /** The requests from `k` to `at` have no hole. */
  predicate Touches(rs: seq<Req>, k: nat, at: nat) {
    k < at < |rs| && NoHole(rs, k, at + 1)
  }

  /** There is a hole between each request from `lo` on and request `at`. */
  ghost predicate Cut(rs: seq<Req>, lo: nat, at: nat) {
    forall k :: lo <= k ==> !Touches(rs, k, at)
  }

  /** A stretch without a hole that fits into one RPC. */
  predicate Light(rs: seq<Req>, lo: nat, hi: nat)
    requires lo < hi <= |rs|
  {
    NoHole(rs, lo, hi) ==> End(rs, lo, hi) <= rs[lo].off + MTU
  }

  ghost predicate AllLight(rs: seq<Req>, lo: nat, hi: nat)
    requires hi <= |rs|
  {
    forall i, j :: lo <= i < j <= hi ==> Light(rs, i, j)
  }

  lemma CutMore(rs: seq<Req>, lo: nat, at: nat, soff: nat, size: nat, last: Req, next: nat)
    requires Held(rs, at, next, soff, size, last) && Cut(rs, lo, at)
    requires next < |rs| && rs[next].off > Voff(last)
    ensures Cut(rs, lo, next)
  {
    forall k | lo <= k ensures !Touches(rs, k, next) {
      if Touches(rs, k, next) {
        if k < at {
          assert !Touches(rs, k, at);
          NoHolePrefix(rs, k, at + 1, next + 1);
        } else {
          EndShrinks(rs, at, k, next);
        }
        assert false;
      }
    }
  }

  lemma LightMore(rs: seq<Req>, lo: nat, at: nat, soff: nat, size: nat, last: Req, next: nat)
    requires Sorted(rs) && Small(rs) && lo <= at
    requires Held(rs, at, next, soff, size, last) && Cut(rs, lo, at) && AllLight(rs, lo, at)
    ensures AllLight(rs, lo, next)
  {
    assert Fits(rs, at);
    forall i, j | lo <= i < j <= next ensures Light(rs, i, j) {
      if j > at && NoHole(rs, i, j) {
        if i < at {
          assert !Touches(rs, i, at);
          NoHolePrefix(rs, i, at + 1, j);
          assert false;
        } else {
          EndShrinks(rs, at, i, j);
          NoHolePrefix(rs, at, j, next);
          OffsetsRise(rs, at, i);
        }
      }
    }
  }

  /** The group is sent because the next request, which touches it, is too much for one RPC, or
      because a request of it or the next one, behind a hole, has expired. */
  ghost predicate Due(rs: seq<Req>, g: Group, start: nat, next: nat)
    requires start < next <= |rs|
  {
    if next < |rs| && rs[next].off <= g.soff + g.size then Voff(rs[next]) > g.soff + Max(MTU, g.size)
    else exists k :: start <= k <= next && k < |rs| && rs[k].expired
  }

  /** bmap_flush_trycoalesce().  The group is the slice [start, next) of the requests.  All that
      is skipped before it, or all if there is no group, has not expired, is cut off from the
      group by a hole and cannot fill an RPC. */
  method TryCoalesce(rs: seq<Req>, index: nat) returns (bwc: Option<Group>, next: nat, ghost start: nat)
    requires Sorted(rs) && index < |rs|
    ensures index < next <= |rs|
    ensures if bwc.Some? then index <= start < next else start == next == |rs|
    ensures bwc.Some? ==> bwc.value.reqs == rs[start..next] && GroupOk(bwc.value) && Due(rs, bwc.value, start, next)
    ensures !AnyExpired(rs, index, start) && Cut(rs, index, start) && (Small(rs) ==> AllLight(rs, index, start))
  {
    HeldOne(rs, index);
    var large, expired, last := false, rs[index].expired, rs[index];
    var soff: nat, size: nat, reqs := last.off, last.len, [last];
    next, start := index + 1, index;
    while next < |rs|
      invariant index <= start && Held(rs, start, next, soff, size, last) && !large && reqs == rs[start..next]
      invariant !AnyExpired(rs, index, start) && (expired <==> AnyExpired(rs, index, next))
      invariant Cut(rs, index, start) && (Small(rs) ==> AllLight(rs, index, start))
    {
      var curr := rs[next];
      expired := expired || curr.expired;
      assert InOrder(rs, next - 1);
      assert curr.off >= last.off;
      if curr.off <= Voff(last) {
        var sz := Voff(curr) - Voff(last);
        if sz > 0 && sz + size > MTU {
          large := true;
          break;
        }
        HeldMore(rs, start, next, soff, size, last);
        size := if sz > 0 then size + sz else size;
        reqs := reqs + [curr];
        last := if sz < 0 then last else curr;
      } else if expired {
        break;
      } else {
        CutMore(rs, index, start, soff, size, last, next);
        if Small(rs) {
          LightMore(rs, index, start, soff, size, last, next);
        }
        HeldOne(rs, next);
        soff, size, reqs, last := curr.off, curr.len, [curr], curr;
        start := next;
      }
      next := next + 1;
    }
    HeldGroup(rs, start, next, soff, size, last);
    ExpiredIff(rs, index, start);
    ExpiredIff(rs, index, next);
    if large || expired {
      bwc := Some(Group(soff, size, reqs));
    } else {
      if Small(rs) {
        LightMore(rs, index, start, soff, size, last, next);
      }
      bwc, start := None, next;
    }
  }

  /** The groups are consecutive disjoint slices of the requests. */
  ghost predicate Slices(rs: seq<Req>, gs: seq<Group>, starts: seq<nat>, ends: seq<nat>) {
    && |starts| == |ends| == |gs|
    && (forall i :: 0 <= i < |gs| ==>
          starts[i] < ends[i] <= |rs| && gs[i].reqs == rs[starts[i]..ends[i]] && GroupOk(gs[i]))
    && (forall i, j :: 0 <= i < j < |gs| ==> ends[i] <= starts[j])
  }

  ghost predicate InGroup(starts: seq<nat>, ends: seq<nat>, i: nat, k: nat) {
    i < |starts| && i < |ends| && starts[i] <= k < ends[i]
  }

  ghost predicate ExpiredSent(rs: seq<Req>, starts: seq<nat>, ends: seq<nat>, hi: nat)
    requires hi <= |rs|
  {
    forall k :: 0 <= k < hi && rs[k].expired ==> exists i :: InGroup(starts, ends, i, k)
  }

  lemma SentMore(rs: seq<Req>, starts: seq<nat>, ends: seq<nat>, j: nat, start: nat, next: nat)
    requires |starts| == |ends| && j <= start < next <= |rs|
    requires ExpiredSent(rs, starts, ends, j) && !AnyExpired(rs, j, start)
    ensures ExpiredSent(rs, starts + [start], ends + [next], next)
  {
    ExpiredIff(rs, j, start);
    forall k | 0 <= k < next && rs[k].expired
      ensures exists i :: InGroup(starts + [start], ends + [next], i, k)
    {
      if k < j {
        var i :| InGroup(starts, ends, i, k);
        assert InGroup(starts + [start], ends + [next], i, k);
      } else {
        assert InGroup(starts + [start], ends + [next], |starts|, k);
      }
    }
  }

  /** If no request is longer than an RPC may be, no group is. */
  lemma GroupsFit(rs: seq<Req>, gs: seq<Group>, starts: seq<nat>, ends: seq<nat>)
    requires Slices(rs, gs, starts, ends)
    ensures Small(rs) ==> forall i :: 0 <= i < |gs| ==> gs[i].size <= MTU
  {
    forall i | Small(rs) && 0 <= i < |gs| ensures gs[i].size <= MTU {
      assert gs[i].reqs[0] == rs[starts[i]] && Fits(rs, starts[i]);
    }
  }

  ghost predicate Unsent(starts: seq<nat>, ends: seq<nat>, k: nat) {
    forall i :: !InGroup(starts, ends, i, k)
  }

  /** Request `k` is left behind rightly: no group follows it without a hole, and what follows it
      without a hole, up to `hi`, cannot fill an RPC. */
  ghost predicate LeftOk(rs: seq<Req>, starts: seq<nat>, hi: nat, k: nat)
    requires k < hi <= |rs|
  {
    && (forall i :: 0 <= i < |starts| ==> !Touches(rs, k, starts[i]))
    && (Small(rs) ==> forall m :: k < m <= hi ==> Light(rs, k, m))
  }

  ghost predicate AllLeftOk(rs: seq<Req>, starts: seq<nat>, ends: seq<nat>, hi: nat)
    requires hi <= |rs|
  {
    forall k :: 0 <= k < hi && Unsent(starts, ends, k) ==> LeftOk(rs, starts, hi, k)
  }

  /** The groups so far end at `j`. */
  ghost predicate EndAt(starts: seq<nat>, ends: seq<nat>, j: nat) {
    && |starts| == |ends| && (forall i :: 0 <= i < |ends| ==> starts[i] < ends[i] <= j)
    && (if |ends| > 0 then ends[|ends| - 1] == j else j == 0)
  }

  lemma LeftSkip(rs: seq<Req>, starts: seq<nat>, ends: seq<nat>, j: nat, start: nat, k: nat)
    requires EndAt(starts, ends, j) && j <= start <= |rs| && AllLeftOk(rs, starts, ends, j)
    requires Cut(rs, j, start) && (Small(rs) ==> AllLight(rs, j, start))
    requires k < start && Unsent(starts, ends, k)
    ensures LeftOk(rs, starts, start, k) && !Touches(rs, k, start)
  {
    if k < j {
      var n := |ends| - 1;
      assert !InGroup(starts, ends, n, k);
      assert !Touches(rs, k, starts[n]);
      forall m | starts[n] < m <= |rs| ensures !NoHole(rs, k, m) {
        if NoHole(rs, k, m) {
          NoHolePrefix(rs, k, starts[n] + 1, m);
          assert false;
        }
      }
    }
  }

  lemma LeftMore(rs: seq<Req>, starts: seq<nat>, ends: seq<nat>, j: nat, start: nat, next: nat)
    requires EndAt(starts, ends, j) && j <= start < next <= |rs| && AllLeftOk(rs, starts, ends, j)
    requires Cut(rs, j, start) && (Small(rs) ==> AllLight(rs, j, start))
    ensures AllLeftOk(rs, starts + [start], ends + [next], next)
  {
    var ss, es := starts + [start], ends + [next];
    forall k | 0 <= k < next && Unsent(ss, es, k) ensures LeftOk(rs, ss, next, k) {
      assert !InGroup(ss, es, |starts|, k);
      forall i ensures !InGroup(starts, ends, i, k) {
        assert !InGroup(ss, es, i, k);
      }
      LeftSkip(rs, starts, ends, j, start, k);
      forall m | start < m <= next ensures Light(rs, k, m) {
        if NoHole(rs, k, m) {
          NoHolePrefix(rs, k, start + 1, m);
          assert false;
        }
      }
    }
  }

  ghost predicate AllDue(rs: seq<Req>, gs: seq<Group>, starts: seq<nat>, ends: seq<nat>)
    requires Slices(rs, gs, starts, ends)
  {
    forall i :: 0 <= i < |gs| ==> Due(rs, gs[i], starts[i], ends[i])
  }

  /** What the pass has done with the requests before `j`. */
  ghost predicate PassTo(rs: seq<Req>, gs: seq<Group>, starts: seq<nat>, ends: seq<nat>, j: nat)
    requires j <= |rs|
  {
    && Slices(rs, gs, starts, ends) && AllDue(rs, gs, starts, ends)
    && ExpiredSent(rs, starts, ends, j) && AllLeftOk(rs, starts, ends, j)
  }

  lemma PassMore(rs: seq<Req>, gs: seq<Group>, starts: seq<nat>, ends: seq<nat>, j: nat,
                 g: Group, start: nat, next: nat)
    requires j <= start < next <= |rs| && EndAt(starts, ends, j) && PassTo(rs, gs, starts, ends, j)
    requires g.reqs == rs[start..next] && GroupOk(g) && Due(rs, g, start, next)
    requires !AnyExpired(rs, j, start) && Cut(rs, j, start) && (Small(rs) ==> AllLight(rs, j, start))
    ensures EndAt(starts + [start], ends + [next], next)
    ensures PassTo(rs, gs + [g], starts + [start], ends + [next], next)
  {
    SentMore(rs, starts, ends, j, start, next);
    LeftMore(rs, starts, ends, j, start, next);
  }

  lemma PassEnds(rs: seq<Req>, gs: seq<Group>, starts: seq<nat>, ends: seq<nat>, j: nat)
    requires j <= |rs| && EndAt(starts, ends, j) && PassTo(rs, gs, starts, ends, j)
    requires !AnyExpired(rs, j, |rs|) && (Small(rs) ==> AllLight(rs, j, |rs|))
    ensures PassTo(rs, gs, starts, ends, |rs|)
  {
    ExpiredIff(rs, j, |rs|);
    forall k | 0 <= k < |rs| && Unsent(starts, ends, k) ensures LeftOk(rs, starts, |rs|, k) {
      LeftSkip(rs, starts, ends, j, |rs|, k);
    }
  }

  lemma OneGroup(rs: seq<Req>, gs: seq<Group>, starts: seq<nat>, ends: seq<nat>)
    requires Slices(rs, gs, starts, ends)
    ensures forall i, j, k :: InGroup(starts, ends, i, k) && InGroup(starts, ends, j, k) ==> i == j
  {
  }

  /** The inner loop of bmap_flush(): one pass over the pending writes of a bmap. */
  method FlushPass(rs: seq<Req>) returns (gs: seq<Group>, ghost starts: seq<nat>, ghost ends: seq<nat>)
    requires Sorted(rs)
    ensures forall i :: 0 <= i < |gs| ==> GroupOk(gs[i]) && (Small(rs) ==> gs[i].size <= MTU)
    ensures PassTo(rs, gs, starts, ends, |rs|)
    ensures forall i, j, k :: InGroup(starts, ends, i, k) && InGroup(starts, ends, j, k) ==> i == j
  {
    gs, starts, ends := [], [], [];
    var j := 0;
    while j < |rs|
      invariant j <= |rs| && EndAt(starts, ends, j) && PassTo(rs, gs, starts, ends, j)
    {
      ghost var start;
      var bwc, next;
      bwc, next, start := TryCoalesce(rs, j);
      if bwc.None? {
        PassEnds(rs, gs, starts, ends, j);
        GroupsFit(rs, gs, starts, ends);
        OneGroup(rs, gs, starts, ends);
        return;
      }
      PassMore(rs, gs, starts, ends, j, bwc.value, start, next);
      gs, starts, ends := gs + [bwc.value], starts + [start], ends + [next];
      j := next;
    }
    GroupsFit(rs, gs, starts, ends);
    OneGroup(rs, gs, starts, ends);
  }

  // ----- What a pass does with a stretch of requests without a hole -----

  /** If a request stays behind, so does all that follows it without a hole; none of it has
      expired, and together it fits into one RPC. */
  lemma LeftIsTail(rs: seq<Req>, gs: seq<Group>, starts: seq<nat>, ends: seq<nat>, lo: nat, hi: nat)
    requires PassTo(rs, gs, starts, ends, |rs|) && lo < hi <= |rs| && NoHole(rs, lo, hi) && Unsent(starts, ends, lo)
    ensures forall k :: lo <= k < hi ==> Unsent(starts, ends, k) && !rs[k].expired
    ensures Small(rs) ==> End(rs, lo, hi) <= rs[lo].off + MTU
  {
    assert LeftOk(rs, starts, |rs|, lo);
    assert Light(rs, lo, hi) <== Small(rs);
    forall k: nat, i: nat | lo <= k < hi ensures !InGroup(starts, ends, i, k) {
      if InGroup(starts, ends, i, k) {
        assert !InGroup(starts, ends, i, lo);
        assert !Touches(rs, lo, starts[i]);
        NoHolePrefix(rs, lo, starts[i] + 1, hi);
        assert false;
      }
    }
  }

  /** Where a group that starts such a stretch ends. */
  lemma GroupExtent(rs: seq<Req>, g: Group, lo: nat, next: nat, hi: nat)
    requires lo < next <= |rs| && g.reqs == rs[lo..next] && GroupOk(g) && g.size <= MTU && Due(rs, g, lo, next)
    requires lo < hi < |rs| && NoHole(rs, lo, hi + 1) && End(rs, lo, hi) <= rs[lo].off + MTU < End(rs, lo, hi + 1)
    ensures next == hi
  {
    SliceIs(rs, lo, next, next);
    if next > hi {
      NoHolePrefix(rs, lo, hi + 1, next);
    } else if next < hi {
      NoHolePrefix(rs, lo, next + 1, hi);
    }
  }

  lemma GroupStart(rs: seq<Req>, g: Group, start: nat, next: nat, lo: nat)
    requires start <= lo < next <= |rs| && g.reqs == rs[start..next] && GroupOk(g) && Cut(rs, 0, lo)
    ensures start == lo
  {
    SliceIs(rs, start, next, next);
    if start < lo {
      assert !Touches(rs, start, lo);
      NoHolePrefix(rs, start, lo + 1, next);
    }
  }

  /** A stretch that begins behind a hole and is too long for one RPC: exactly the requests
      before the one that exceeds it are a group. */
  lemma FullSent(rs: seq<Req>, gs: seq<Group>, starts: seq<nat>, ends: seq<nat>, lo: nat, hi: nat)
    requires PassTo(rs, gs, starts, ends, |rs|) && Small(rs) && lo < hi < |rs|
    requires Cut(rs, 0, lo) && NoHole(rs, lo, hi + 1)
    requires End(rs, lo, hi) <= rs[lo].off + MTU < End(rs, lo, hi + 1)
    ensures exists i :: 0 <= i < |gs| && starts[i] == lo && ends[i] == hi
  {
    if Unsent(starts, ends, lo) {
      LeftIsTail(rs, gs, starts, ends, lo, hi + 1);
      assert false;
    }
    var i: nat :| InGroup(starts, ends, i, lo);
    GroupStart(rs, gs[i], starts[i], ends[i], lo);
    GroupsFit(rs, gs, starts, ends);
    GroupExtent(rs, gs[i], lo, ends[i], hi);
  }

  /** Of any stretch without a hole that is too long for one RPC at least the first request is sent. */
  lemma LongIsSent(rs: seq<Req>, gs: seq<Group>, starts: seq<nat>, ends: seq<nat>, lo: nat, hi: nat)
    requires PassTo(rs, gs, starts, ends, |rs|) && Small(rs) && lo < hi <= |rs| && NoHole(rs, lo, hi)
    requires End(rs, lo, hi) > rs[lo].off + MTU
    ensures !Unsent(starts, ends, lo)
  {
    if Unsent(starts, ends, lo) {
      LeftIsTail(rs, gs, starts, ends, lo, hi);
    }
  }

  /** Four writes in a row, each three eighths of an RPC. */
  const FOUR := [Req(0, 0x6_0000, false, []), Req(0x6_0000, 0x6_0000, false, []),
                 Req(0xc_0000, 0x6_0000, false, []), Req(0x12_0000, 0x6_0000, false, [])]

  lemma FourIs()
    ensures Small(FOUR) && Cut(FOUR, 0, 0) && NoHole(FOUR, 0, 3) && NoHole(FOUR, 1, 4)
    ensures End(FOUR, 0, 2) == 0xc_0000 && End(FOUR, 0, 3) == 0x12_0000
    ensures End(FOUR, 1, 3) == 0x12_0000 && End(FOUR, 1, 4) == 0x18_0000
  {
    assert NoHole(FOUR, 0, 2) && NoHole(FOUR, 1, 3);
  }

  lemma ThirdStays(gs: seq<Group>, starts: seq<nat>, ends: seq<nat>, i: nat, j: nat)
    requires Slices(FOUR, gs, starts, ends) && AllDue(FOUR, gs, starts, ends)
    requires i < |gs| && starts[i] == 0 && ends[i] == 2
    ensures !InGroup(starts, ends, j, 2)
  {
    if InGroup(starts, ends, j, 2) {
      NotDue(gs[j], starts[j], ends[j]);
    }
  }

  /** The first two are sent.  The last three are too long for one RPC, but they do not begin behind
      a hole, and the third one stays although the fourth exceeds the RPC. */
  lemma MiddleStays(gs: seq<Group>, starts: seq<nat>, ends: seq<nat>)
    requires PassTo(FOUR, gs, starts, ends, 4)
    ensures NoHole(FOUR, 1, 4) && End(FOUR, 1, 3) <= FOUR[1].off + MTU < End(FOUR, 1, 4)
    ensures !Unsent(starts, ends, 0) && !Unsent(starts, ends, 1) && Unsent(starts, ends, 2)
  {
    FourIs();
    FullSent(FOUR, gs, starts, ends, 0, 2);
    var i :| 0 <= i < |gs| && starts[i] == 0 && ends[i] == 2;
    assert InGroup(starts, ends, i, 0) && InGroup(starts, ends, i, 1);
    forall j: nat ensures !InGroup(starts, ends, j, 2) {
      ThirdStays(gs, starts, ends, i, j);
    }
  }

  lemma NotDue(g: Group, start: nat, next: nat)
    requires start == 2 && 2 < next <= 4 && g.reqs == FOUR[start..next] && GroupOk(g)
    ensures !Due(FOUR, g, start, next)
  {
    SliceIs(FOUR, 2, next, next);
  }
}
