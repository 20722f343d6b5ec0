/** mount_slash/bflush.c: what one visit of the flush thread does with the dirty requests of a
    bmap, when no other thread comes in between. */
module FlushRun {
  import opened Common
  import C = Coalesce
  import opened DirtyQueue

  /** The requests as the coalescer sees them; their pages play no part in it. */
  function Views(reqs: Reqs, rs: seq<Rid>, expired: set<Rid>): (v: seq<C.Req>)
    requires forall k :: 0 <= k < |rs| ==> rs[k] in reqs
  {
    seq(|rs|, k requires 0 <= k < |rs| => C.Req(reqs[rs[k]].off, reqs[rs[k]].len, rs[k] in expired, []))
  }

  lemma ViewsSorted(reqs: Reqs, rs: seq<Rid>, expired: set<Rid>)
    requires Ordered(reqs, rs)
    ensures C.Sorted(Views(reqs, rs, expired))
  {
    TreeSorted(reqs, rs, Views(reqs, rs, expired));
  }

  lemma {:induction false} OrderedDistinct(reqs: Reqs, rs: seq<Rid>, lo: nat, hi: nat)
    requires Ordered(reqs, rs) && lo <= hi <= |rs|
    ensures Distinct(rs[lo..hi])
    decreases hi - lo
  {
    if lo < hi {
      OrderedDistinct(reqs, rs, lo + 1, hi);
      assert rs[lo..hi] == [rs[lo]] + rs[lo + 1..hi];
      forall k | lo < k < hi ensures rs[k] != rs[lo] {
        assert Before(reqs, rs[lo], rs[k]);
      }
    }
  }

  /** The requests in the groups. */
  ghost function Taken(rs: seq<Rid>, starts: seq<nat>, ends: seq<nat>): set<Rid> {
    set k | 0 <= k < |rs| && !C.Unsent(starts, ends, k) :: rs[k]
  }

  lemma UnsentMore(starts: seq<nat>, ends: seq<nat>, start: nat, next: nat, k: nat)
    requires |starts| == |ends|
    ensures C.Unsent(starts + [start], ends + [next], k) <==> C.Unsent(starts, ends, k) && !(start <= k < next)
  {
    var ss, es := starts + [start], ends + [next];
    assert C.InGroup(ss, es, |starts|, k) <==> start <= k < next;
    assert forall i: nat :: i != |starts| ==> (C.InGroup(ss, es, i, k) <==> C.InGroup(starts, ends, i, k));
  }

  lemma TakenMore(rs: seq<Rid>, starts: seq<nat>, ends: seq<nat>, start: nat, next: nat)
    requires |starts| == |ends| && start <= next <= |rs|
    ensures Taken(rs, starts + [start], ends + [next]) == Taken(rs, starts, ends) + Members(rs[start..next])
  {
    forall k: nat | k < |rs|
      ensures C.Unsent(starts + [start], ends + [next], k) <==> C.Unsent(starts, ends, k) && !(start <= k < next)
    {
      UnsentMore(starts, ends, start, next, k);
    }
    forall r ensures r in Members(rs[start..next]) <==> exists k :: start <= k < next && rs[k] == r {
      if r in rs[start..next] {
        var m :| 0 <= m < next - start && rs[start..next][m] == r;
        assert rs[start + m] == r;
      }
      forall k | start <= k < next && rs[k] == r ensures r in rs[start..next] {
        assert rs[start..next][k - start] == r;
      }
    }
  }

  lemma NotTaken(reqs: Reqs, rs: seq<Rid>, starts: seq<nat>, ends: seq<nat>, j: nat, start: nat, next: nat)
    requires Ordered(reqs, rs) && C.EndAt(starts, ends, j) && j <= start <= next <= |rs|
    ensures Members(rs[start..next]) <= Members(rs) - Taken(rs, starts, ends)
  {
    forall r | r in Members(rs[start..next]) ensures r in Members(rs) - Taken(rs, starts, ends) {
      var m :| 0 <= m < next - start && rs[start..next][m] == r;
      forall k | 0 <= k < |rs| && !C.Unsent(starts, ends, k) ensures rs[k] != r {
        assert k < j;
        assert Before(reqs, rs[k], rs[start + m]);
      }
    }
  }

  lemma SentTwice(rs: Reqs, a: set<Rid>, b: set<Rid>)
    ensures Sent(Sent(rs, a), b) == Sent(rs, a + b)
  {
  }

  /** Of the requests `reqs` that were queued as `rs`, those in the groups have been sent. */
  ghost predicate SentTo(q: Bmpc, reqs: Reqs, rs: seq<Rid>, starts: seq<nat>, ends: seq<nat>)
    reads q
  {
    && q.Valid() && q.reqs == Sent(reqs, Taken(rs, starts, ends))
    && q.batch == Members(rs) - Taken(rs, starts, ends)
  }

  method SendGroup(q: Bmpc, ghost reqs: Reqs, rs: seq<Rid>, start: nat, next: nat,
                   ghost starts: seq<nat>, ghost ends: seq<nat>, ghost j: nat)
    requires Ordered(reqs, rs) && C.EndAt(starts, ends, j) && j <= start <= next <= |rs|
    requires SentTo(q, reqs, rs, starts, ends)
    modifies q`reqs, q`tree, q`exp, q`batch
    ensures SentTo(q, reqs, rs, starts + [start], ends + [next])
  {
    OrderedDistinct(reqs, rs, start, next);
    NotTaken(reqs, rs, starts, ends, j, start, next);
    TakenMore(rs, starts, ends, start, next);
    SentTwice(reqs, Taken(rs, starts, ends), Members(rs[start..next]));
    q.SendRpcs(rs[start..next]);
  }

  /** What has been done with the requests before `j`. */
  ghost predicate Progress(q: Bmpc, reqs: Reqs, rs: seq<Rid>, v: seq<C.Req>, gs: seq<C.Group>,
                           starts: seq<nat>, ends: seq<nat>, j: nat)
    requires j <= |v|
    reads q
  {
    C.EndAt(starts, ends, j) && C.PassTo(v, gs, starts, ends, j) && SentTo(q, reqs, rs, starts, ends)
  }

  /** One turn of the loop: if there is a group it is sent. */
  method SendNext(q: Bmpc, ghost reqs: Reqs, rs: seq<Rid>, v: seq<C.Req>, j: nat,
                  ghost gs: seq<C.Group>, ghost starts: seq<nat>, ghost ends: seq<nat>)
    returns (bwc: Option<C.Group>, next: nat, ghost start: nat)
    requires Ordered(reqs, rs) && |v| == |rs| && C.Sorted(v) && j < |v|
    requires Progress(q, reqs, rs, v, gs, starts, ends, j)
    modifies q`reqs, q`tree, q`exp, q`batch
    ensures bwc.None? ==> C.PassTo(v, gs, starts, ends, |v|) && SentTo(q, reqs, rs, starts, ends)
    ensures bwc.Some? ==>
              j < next <= |v| && Progress(q, reqs, rs, v, gs + [bwc.value], starts + [start], ends + [next], next)
  {
    bwc, next, start := C.TryCoalesce(v, j);
    if bwc.None? {
      C.PassEnds(v, gs, starts, ends, j);
    } else {
      var from := next - |bwc.value.reqs|;
      assert from == start;
      SendGroup(q, reqs, rs, from, next, starts, ends, j);
      C.PassMore(v, gs, starts, ends, j, bwc.value, start, next);
    }
  }

  /** The loop over the groups. */
  method SendGroups(q: Bmpc, rs: seq<Rid>, v: seq<C.Req>)
    returns (gs: seq<C.Group>, ghost starts: seq<nat>, ghost ends: seq<nat>)
    requires q.Valid() && Ordered(q.reqs, rs) && q.batch == Members(rs) && |v| == |rs| && C.Sorted(v)
    modifies q`reqs, q`tree, q`exp, q`batch
    ensures SentTo(q, old(q.reqs), rs, starts, ends) && C.PassTo(v, gs, starts, ends, |v|)
  {
    gs, starts, ends := [], [], [];
    ghost var reqs := q.reqs;
    assert Taken(rs, [], []) == {} && Sent(reqs, {}) == reqs;
    var j := 0;
    while j < |v|
      invariant j <= |v| && Progress(q, reqs, rs, v, gs, starts, ends, j)
    {
      ghost var start;
      var bwc, next;
      bwc, next, start := SendNext(q, reqs, rs, v, j, gs, starts, ends);
      if bwc.None? {
        return;
      }
      gs, starts, ends, j := gs + [bwc.value], starts + [start], ends + [next], next;
    }
  }

  lemma OtherPlace(reqs: Reqs, rs: seq<Rid>, k: nat, m: nat)
    requires Ordered(reqs, rs) && k < m < |rs|
    ensures rs[k] != rs[m]
  {
    assert Before(reqs, rs[k], rs[m]);
  }

  /** Request `k` of the tree is queued afterwards exactly if it is in no group. */
  lemma QueuedIff(reqs: Reqs, rs: seq<Rid>, starts: seq<nat>, ends: seq<nat>, k: nat)
    requires Ordered(reqs, rs) && SameElements(rs, reqs) && k < |rs|
    ensures var reqs' := Sent(reqs, Taken(rs, starts, ends));
            rs[k] in reqs' && (reqs'[rs[k]].ontree <==> C.Unsent(starts, ends, k))
  {
    assert rs[k] in rs;
    if rs[k] in Taken(rs, starts, ends) {
      var m :| 0 <= m < |rs| && !C.Unsent(starts, ends, m) && rs[m] == rs[k];
      if m < k {
        OtherPlace(reqs, rs, m, k);
      } else if k < m {
        OtherPlace(reqs, rs, k, m);
      }
    }
  }

  /** What a visit does with the queued requests `rs`: those in the groups of the coalescer leave
      the tree, all expired ones among them, and the others stay. */
  ghost predicate Flushed(reqs: Reqs, reqs': Reqs, rs: seq<Rid>, expired: set<Rid>,
                          gs: seq<C.Group>, starts: seq<nat>, ends: seq<nat>)
  {
    && Ordered(reqs, rs) && C.PassTo(Views(reqs, rs, expired), gs, starts, ends, |rs|)
    && reqs' == Sent(reqs, Taken(rs, starts, ends))
    && (forall k :: 0 <= k < |rs| ==> rs[k] in reqs' && (reqs'[rs[k]].ontree <==> C.Unsent(starts, ends, k)))
    && (forall r :: r in reqs' && r in expired ==> !reqs'[r].ontree)
  }

  lemma FlushedIs(reqs: Reqs, rs: seq<Rid>, expired: set<Rid>, gs: seq<C.Group>, starts: seq<nat>, ends: seq<nat>)
    requires Ordered(reqs, rs) && SameElements(rs, reqs)
    requires C.PassTo(Views(reqs, rs, expired), gs, starts, ends, |rs|)
    ensures Flushed(reqs, Sent(reqs, Taken(rs, starts, ends)), rs, expired, gs, starts, ends)
  {
    var reqs' := Sent(reqs, Taken(rs, starts, ends));
    forall k | 0 <= k < |rs| ensures rs[k] in reqs' && (reqs'[rs[k]].ontree <==> C.Unsent(starts, ends, k)) {
      QueuedIff(reqs, rs, starts, ends, k);
    }
    forall r | r in reqs' && r in expired ensures !reqs'[r].ontree {
      if reqs[r].ontree {
        assert r in rs;
        var k :| 0 <= k < |rs| && rs[k] == r;
        assert Views(reqs, rs, expired)[k].expired;
      }
    }
  }

  method FlushQueued(q: Bmpc, expired: set<Rid>)
    returns (gs: seq<C.Group>, ghost starts: seq<nat>, ghost ends: seq<nat>)
    requires q.Valid() && q.sched && q.batch == {}
    modifies q`reqs, q`tree, q`exp, q`batch
    ensures q.Valid() && Flushed(old(q.reqs), q.reqs, old(q.tree), expired, gs, starts, ends)
  {
    ghost var reqs := q.reqs;
    var rs := q.Snapshot();
    ViewsSorted(reqs, rs, expired);
    gs, starts, ends := SendGroups(q, rs, Views(q.reqs, rs, expired));
    FlushedIs(reqs, rs, expired, gs, starts, ends);
  }

  /** bmap_flush() for one bmap; `failed` if the bmap is to be freed or lost its lease.  Nothing
      is done if another thread works on it, and all queued requests go if it has failed. */
  method Flush(q: Bmpc, expired: set<Rid>, failed: bool)
    returns (gs: seq<C.Group>, ghost starts: seq<nat>, ghost ends: seq<nat>)
    requires q.Valid()
    modifies q
    ensures q.Valid() && q.sched == old(q.sched)
    ensures old(q.sched) || failed ==> gs == []
    ensures if old(q.sched) then q.reqs == old(q.reqs)
            else if failed then q.reqs.Keys == old(q.reqs).Keys
                                && forall r :: r in q.reqs ==> q.reqs[r] == old(q.reqs)[r].(ontree := false)
            else Flushed(old(q.reqs), q.reqs, old(q.tree), expired, gs, starts, ends)
  {
    gs, starts, ends := [], [], [];
    var mine := q.BeginFlush();
    if !mine {
      return;
    }
    if failed {
      q.EndFlush();
      var _ := q.DestroyAll();
    } else {
      gs, starts, ends := FlushQueued(q, expired);
      q.EndFlush();
    }
  }
}
