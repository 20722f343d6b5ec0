/** The dirty requests of one bmap: the offset tree, the expiry list, the count of pending
    writes and the place on the flush queue (mount_slash/io.c, bflush.c, pgcache.c).  Each
    method is a section run under the bmap lock.  The tree is kept as the sequence its
    in-order walk gives. */
module DirtyQueue {
  import opened Common
  import Coalesce

  type Rid = nat

  /** A request on the bmap: BIORQ_FLUSHRDY and BIORQ_ONTREE. */
  datatype Dirty = Dirty(off: nat, len: nat, ready: bool, ontree: bool)

  type Reqs = map<Rid, Dirty>

  /** bmpc_biorq_cmp(): by offset, then by length, then by identity. */
  predicate Before(rs: Reqs, a: Rid, b: Rid)
    requires a in rs && b in rs
  {
    || rs[a].off < rs[b].off
    || (rs[a].off == rs[b].off && (rs[a].len < rs[b].len || (rs[a].len == rs[b].len && a < b)))
  }

  /** In the order of the tree, without repetition. */
  ghost predicate Ordered(rs: Reqs, t: seq<Rid>) {
    && (forall i :: 0 <= i < |t| ==> t[i] in rs)
    && (forall i, j :: 0 <= i < j < |t| ==> Before(rs, t[i], t[j]))
  }

  ghost predicate SameElements(s: seq<Rid>, rs: Reqs) {
    forall r :: r in s <==> r in rs && rs[r].ontree
  }

  ghost function Ready(rs: Reqs): set<Rid> {
    set r | r in rs && rs[r].ready
  }

  /** A strict order in which any two requests can be compared. */
  lemma BeforeIsOrder(rs: Reqs, a: Rid, b: Rid, c: Rid)
    requires a in rs && b in rs && c in rs
    ensures !Before(rs, a, a) && (a != b ==> (Before(rs, a, b) <==> !Before(rs, b, a)))
    ensures Before(rs, a, b) && Before(rs, b, c) ==> Before(rs, a, c)
  {
  }

  /** The tree goes by offset, among requests at the same offset by length. */
  lemma TreeOrder(rs: Reqs, t: seq<Rid>, i: nat, j: nat)
    requires Ordered(rs, t) && i < j < |t|
    ensures rs[t[i]].off <= rs[t[j]].off
    ensures rs[t[i]].off == rs[t[j]].off ==> rs[t[i]].len <= rs[t[j]].len
    ensures rs[t[i]].off == rs[t[j]].off && rs[t[i]].len == rs[t[j]].len ==> t[i] < t[j]
  {
    assert Before(rs, t[i], t[j]);
  }

  /** What the coalescer gets from the tree is sorted by offset. */
  lemma TreeSorted(rs: Reqs, t: seq<Rid>, reqs: seq<Coalesce.Req>)
    requires Ordered(rs, t) && |reqs| == |t| && forall i :: 0 <= i < |t| ==> reqs[i].off == rs[t[i]].off
    ensures Coalesce.Sorted(reqs)
  {
    forall i: nat ensures Coalesce.InOrder(reqs, i) {
      assert i + 1 < |t| ==> Before(rs, t[i], t[i + 1]);
    }
  }

  function Insert(rs: Reqs, t: seq<Rid>, r: Rid): seq<Rid>
    requires r in rs && forall i :: 0 <= i < |t| ==> t[i] in rs
  {
    if t == [] then [r] else if Before(rs, r, t[0]) then [r] + t else [t[0]] + Insert(rs, t[1..], r)
  }

  lemma {:induction false} InsertOk(rs: Reqs, t: seq<Rid>, r: Rid)
    requires Ordered(rs, t) && r in rs && r !in t
    ensures Ordered(rs, Insert(rs, t, r)) && forall x :: x in Insert(rs, t, r) <==> x in t || x == r
  {
    if t != [] && !Before(rs, r, t[0]) {
      InsertOk(rs, t[1..], r);
      var u := Insert(rs, t[1..], r);
      assert forall x :: x in t <==> x == t[0] || x in t[1..];
      forall i | 0 <= i < |u| ensures Before(rs, t[0], u[i]) {
        assert u[i] in u;
        if u[i] != r {
          var k :| 0 <= k < |t[1..]| && t[1..][k] == u[i];
          assert t[k + 1] == u[i];
        }
      }
    } else {
      forall i | 0 <= i < |t| ensures Before(rs, r, t[i]) {
      }
    }
  }

  lemma {:induction false} RemoveOrdered(rs: Reqs, t: seq<Rid>, r: Rid)
    requires Ordered(rs, t)
    ensures Ordered(rs, Remove(t, r)) && forall x :: x in Remove(t, r) <==> x in t && x != r
  {
    if t != [] {
      assert forall x :: x in t <==> x == t[0] || x in t[1..];
      if t[0] != r {
        RemoveOrdered(rs, t[1..], r);
        var u := Remove(t[1..], r);
        forall i | 0 <= i < |u| ensures Before(rs, t[0], u[i]) {
          assert u[i] in u && u[i] in t[1..];
          var k :| 0 <= k < |t[1..]| && t[1..][k] == u[i];
          assert t[k + 1] == u[i];
        }
      }
    }
  }

  lemma OrderedSame(rs: Reqs, rs': Reqs, t: seq<Rid>)
    requires Ordered(rs, t)
    requires forall i :: 0 <= i < |t| ==> t[i] in rs' && rs'[t[i]].off == rs[t[i]].off && rs'[t[i]].len == rs[t[i]].len
    ensures Ordered(rs', t)
  {
  }

  /** The tree and the expiry list hold exactly the requests marked ONTREE, each once; all
      of them are ready to be flushed. */
  ghost predicate ListsOk(rs: Reqs, tree: seq<Rid>, exp: seq<Rid>) {
    && Ordered(rs, tree) && Distinct(exp) && SameElements(tree, rs) && SameElements(exp, rs)
    && forall r :: r in rs && rs[r].ontree ==> rs[r].ready
  }

  lemma BothEmpty(rs: Reqs, tree: seq<Rid>, exp: seq<Rid>)
    requires ListsOk(rs, tree, exp)
    ensures tree == [] <==> exp == []
  {
    assert tree != [] ==> tree[0] in tree && tree[0] in exp;
    assert exp != [] ==> exp[0] in exp && exp[0] in tree;
  }

  /** A request goes on the tree and the list. */
  lemma QueueOk(rs: Reqs, tree: seq<Rid>, exp: seq<Rid>, r: Rid)
    requires ListsOk(rs, tree, exp) && r in rs && !rs[r].ontree
    ensures var rs' := rs[r := rs[r].(ready := true, ontree := true)];
            ListsOk(rs', Insert(rs', tree, r), exp + [r])
  {
    var rs' := rs[r := rs[r].(ready := true, ontree := true)];
    OrderedSame(rs, rs', tree);
    InsertOk(rs', tree, r);
    AppendDistinct(exp, r);
  }

  /** A request leaves both. */
  lemma UnqueueOk(rs: Reqs, tree: seq<Rid>, exp: seq<Rid>, r: Rid)
    requires ListsOk(rs, tree, exp) && r in rs
    ensures ListsOk(rs[r := rs[r].(ontree := false)], Remove(tree, r), Remove(exp, r))
  {
    var rs' := rs[r := rs[r].(ontree := false)];
    RemoveOrdered(rs, tree, r);
    RemoveDistinct(exp, r);
    OrderedSame(rs, rs', Remove(tree, r));
  }

  lemma ForgetOk(rs: Reqs, tree: seq<Rid>, exp: seq<Rid>, r: Rid)
    requires ListsOk(rs, tree, exp) && r in rs && !rs[r].ontree
    ensures ListsOk(rs - {r}, tree, exp)
  {
    OrderedSame(rs, rs - {r}, tree);
  }

  lemma ReadyMore(rs: Reqs, r: Rid, d: Dirty)
    requires (r in rs ==> !rs[r].ready) && d.ready
    ensures |Ready(rs[r := d])| == |Ready(rs)| + 1
  {
    assert r !in Ready(rs) && Ready(rs[r := d]) == Ready(rs) + {r};
  }

  lemma ReadySame(rs: Reqs, r: Rid, d: Dirty)
    requires d.ready <==> r in rs && rs[r].ready
    ensures Ready(rs[r := d]) == Ready(rs)
  {
  }

  lemma ReadyLess(rs: Reqs, r: Rid)
    requires r in rs
    ensures |Ready(rs - {r})| == |Ready(rs)| - if rs[r].ready then 1 else 0
  {
    assert Ready(rs - {r}) == Ready(rs) - {r};
    assert rs[r].ready <==> r in Ready(rs);
  }

  /** A request that is off the queues can go. */
  lemma GoneOk(rs: Reqs, tree: seq<Rid>, exp: seq<Rid>, batch: set<Rid>, r: Rid)
    requires ListsOk(rs, tree, exp) && BatchOk(rs, batch) && r in rs && !rs[r].ontree
    ensures ListsOk(rs - {r}, tree, exp) && BatchOk(rs - {r}, batch)
    ensures |Ready(rs - {r})| == |Ready(rs)| - if rs[r].ready then 1 else 0
  {
    ForgetOk(rs, tree, exp, r);
    ReadyLess(rs, r);
  }

  lemma UpdateGone(rs: Reqs, r: Rid, d: Dirty)
    ensures rs[r := d] - {r} == rs - {r}
  {
  }

  /** The requests of a batch are queued. */
  ghost predicate BatchOk(rs: Reqs, batch: set<Rid>) {
    forall r :: r in batch ==> r in rs && rs[r].ontree
  }

  ghost function Members(s: seq<Rid>): set<Rid> {
    set r | r in s
  }

  ghost function First(s: seq<Rid>, i: nat): set<Rid>
    requires i <= |s|
  {
    Members(s[..i])
  }

  lemma NextMember(s: seq<Rid>, i: nat)
    requires Distinct(s) && i < |s|
    ensures s[i] in Members(s) - First(s, i) && First(s, i + 1) == First(s, i) + {s[i]}
  {
    NotBefore(s, i);
    assert s[..i + 1] == s[..i] + [s[i]];
  }

  lemma AllMembers(s: seq<Rid>)
    ensures First(s, 0) == {} && First(s, |s|) == Members(s)
  {
    assert s[..|s|] == s;
  }

  /** Only ONTREE marks differ. */
  ghost predicate OffTree(rs: Reqs, rs': Reqs) {
    rs'.Keys == rs.Keys && forall r :: r in rs ==> rs'[r] == rs[r].(ontree := rs'[r].ontree)
  }

  /** The requests once those in `ids` are off the tree. */
  ghost function Sent(rs: Reqs, ids: set<Rid>): Reqs {
    map r | r in rs :: rs[r].(ontree := rs[r].ontree && r !in ids)
  }

  lemma SentMore(rs: Reqs, ids: set<Rid>, r: Rid)
    requires r in rs
    ensures Sent(rs, ids)[r := Sent(rs, ids)[r].(ontree := false)] == Sent(rs, ids + {r})
  {
  }

  class Bmpc {
    var reqs: Reqs
    var tree: seq<Rid>
    var exp: seq<Rid>
    var pndgWrites: int
    var flushq: bool

    /** BMAPF_SCHED: a flush thread works on the bmap. */
    var sched: bool

    /** The requests this thread took from the tree and has not dealt with. */
    ghost var batch: set<Rid>

    ghost predicate Valid()
      reads this
    {
      && ListsOk(reqs, tree, exp) && pndgWrites == |Ready(reqs)| && (flushq <==> pndgWrites > 0)
      && BatchOk(reqs, batch) && (batch != {} ==> sched)
    }

    constructor ()
      ensures Valid() && reqs == map[] && tree == exp == [] && !sched
    {
      reqs, tree, exp, pndgWrites, flushq := map[], [], [], 0, false;
      sched, batch := false, {};
    }

    /** bmpc_biorq_new() */
    method New(r: Rid, off: nat, len: nat)
      requires Valid() && r !in reqs
      modifies this`reqs
      ensures Valid() && reqs == old(reqs)[r := Dirty(off, len, false, false)]
    {
      OrderedSame(reqs, reqs[r := Dirty(off, len, false, false)], tree);
      ReadySame(reqs, r, Dirty(off, len, false, false));
      reqs := reqs[r := Dirty(off, len, false, false)];
    }

    /** msl_pages_schedflush() */
    method Schedflush(r: Rid)
      requires Valid() && r in reqs && !reqs[r].ready
      modifies this`reqs, this`tree, this`exp, this`pndgWrites, this`flushq
      ensures Valid() && reqs == old(reqs)[r := old(reqs)[r].(ready := true, ontree := true)]
      ensures pndgWrites == old(pndgWrites) + 1 && exp == old(exp) + [r]
    {
      QueueOk(reqs, tree, exp, r);
      ReadyMore(reqs, r, reqs[r].(ready := true, ontree := true));
      reqs := reqs[r := reqs[r].(ready := true, ontree := true)];
      pndgWrites := pndgWrites + 1;
      tree := Insert(reqs, tree, r);
      exp := exp + [r];
      if !flushq {
        flushq := true;
      }
    }

    /** A request that is in no batch leaves the tree and the expiry list. */
    method Unqueue(r: Rid)
      requires Valid() && r in reqs && reqs[r].ontree && r !in batch
      modifies this`reqs, this`tree, this`exp
      ensures Valid() && reqs == old(reqs)[r := old(reqs)[r].(ontree := false)]
      ensures tree == Remove(old(tree), r) && exp == Remove(old(exp), r)
    {
      UnqueueOk(reqs, tree, exp, r);
      ReadySame(reqs, r, reqs[r].(ontree := false));
      reqs := reqs[r := reqs[r].(ontree := false)];
      tree := Remove(tree, r);
      exp := Remove(exp, r);
    }

    // ----- The flush thread -----

    /** The first section of bmap_flush(): another thread may have the bmap already. */
    method BeginFlush() returns (mine: bool)
      requires Valid()
      modifies this`sched
      ensures Valid() && sched && mine == !old(sched) && (mine ==> batch == {})
    {
      mine := !sched;
      sched := true;
    }

    /** All queued requests are taken, in the order of the tree. */
    method Snapshot() returns (rs: seq<Rid>)
      requires Valid() && sched && batch == {}
      modifies this`batch
      ensures Valid() && rs == tree && Ordered(reqs, rs) && batch == Members(rs)
      ensures forall r :: r in rs <==> r in reqs && reqs[r].ontree
    {
      rs := tree;
      batch := Members(tree);
    }

    ghost method LeaveBatch(r: Rid)
      requires Valid()
      modifies this`batch
      ensures Valid() && batch == old(batch) - {r}
    {
      batch := batch - {r};
    }

    /** One request of the batch goes; `sent` of the requests `rs` are gone already. */
    method SendOne(r: Rid, ghost rs: Reqs, ghost sent: set<Rid>)
      requires Valid() && r in batch && reqs == Sent(rs, sent)
      modifies this`reqs, this`tree, this`exp, this`batch
      ensures Valid() && batch == old(batch) - {r} && reqs == Sent(rs, sent + {r})
    {
      SentMore(rs, sent, r);
      LeaveBatch(r);
      Unqueue(r);
    }

    method SendNext(group: seq<Rid>, i: nat, ghost all: set<Rid>, ghost rs: Reqs)
      requires Valid() && Distinct(group) && Members(group) <= all && i < |group|
      requires batch == all - First(group, i) && reqs == Sent(rs, First(group, i))
      modifies this`reqs, this`tree, this`exp, this`batch
      ensures Valid() && batch == all - First(group, i + 1) && reqs == Sent(rs, First(group, i + 1))
    {
      NextMember(group, i);
      SendOne(group[i], rs, First(group, i));
    }

    /** The locked section of bmap_flush_send_rpcs(): the group is from the batch.  That its
        requests are still queued follows. */
    method SendRpcs(group: seq<Rid>)
      requires Valid() && Distinct(group) && Members(group) <= batch
      modifies this`reqs, this`tree, this`exp, this`batch
      ensures Valid() && batch == old(batch) - Members(group)
      ensures reqs == Sent(old(reqs), Members(group))
    {
      ghost var all, rs := batch, reqs;
      AllMembers(group);
      assert Sent(rs, {}) == rs;
      for i := 0 to |group|
        invariant Valid() && batch == all - First(group, i) && reqs == Sent(rs, First(group, i))
      {
        SendNext(group, i, all, rs);
      }
    }

    /** The last section of bmap_flush(): what was not sent stays queued. */
    method EndFlush()
      requires Valid() && sched
      modifies this`sched, this`batch
      ensures Valid() && !sched
    {
      sched, batch := false, {};
    }

    /** bmap_flush_resched(), after an RPC or an attempt at one failed: the request is queued
        again, unless it is given up. */
    method Resched(r: Rid, giveUp: bool)
      requires Valid() && r in reqs && reqs[r].ready
      modifies this`reqs, this`tree, this`exp
      ensures Valid() && reqs == old(reqs)[r := old(reqs)[r].(ontree := old(reqs)[r].ontree || !giveUp)]
    {
      if giveUp {
        return;
      }
      if !reqs[r].ontree {
        QueueOk(reqs, tree, exp, r);
        ReadySame(reqs, r, reqs[r].(ontree := true));
        reqs := reqs[r := reqs[r].(ontree := true)];
        tree := Insert(reqs, tree, r);
        exp := exp + [r];
      }
    }

    /** bmpc_biorqs_destroy_locked(), called by the flush thread once it has cleared BMAPF_SCHED:
        all are unqueued, in the order of the tree. */
    method DestroyAll() returns (a: seq<Rid>)
      requires Valid() && !sched
      modifies this`reqs, this`tree, this`exp
      ensures Valid() && tree == exp == [] && a == old(tree)
      ensures reqs.Keys == old(reqs.Keys)
      ensures forall r :: r in reqs ==> reqs[r] == old(reqs)[r].(ontree := false)
    {
      a := [];
      while tree != []
        invariant Valid() && !sched && a + tree == old(tree) && OffTree(old(reqs), reqs)
        decreases |tree|
      {
        var r := DestroyOne();
        a := a + [r];
      }
      BothEmpty(reqs, tree, exp);
    }

    method DestroyOne() returns (r: Rid)
      requires Valid() && !sched && tree != []
      modifies this`reqs, this`tree, this`exp
      ensures Valid() && old(tree) == [r] + tree && OffTree(old(reqs), reqs)
    {
      r := tree[0];
      assert r in tree;
      assert reqs[r].ready;
      assert Remove(tree, r) == tree[1..];
      Unqueue(r);
    }

    /** The request is off the queues. */
    method Forget(r: Rid)
      requires Valid() && r in reqs && !reqs[r].ontree
      modifies this`reqs, this`pndgWrites, this`flushq
      ensures Valid() && reqs == old(reqs) - {r}
      ensures pndgWrites == old(pndgWrites) - if old(reqs)[r].ready then 1 else 0
    {
      var ready := reqs[r].ready;
      GoneOk(reqs, tree, exp, batch, r);
      assert |Ready(reqs - {r})| == pndgWrites - if ready then 1 else 0;
      reqs := reqs - {r};
      if ready {
        Uncount();
      }
    }

    /** msl_biorq_del(), when the last reference is gone.  If the request was given up while a
        flush thread had it in its batch it leaves the batch. */
    method Del(r: Rid)
      requires Valid() && r in reqs
      modifies this`reqs, this`tree, this`exp, this`pndgWrites, this`flushq, this`batch
      ensures Valid() && reqs == old(reqs) - {r} && batch == old(batch) - {r}
      ensures pndgWrites == old(pndgWrites) - (if old(reqs)[r].ready then 1 else 0)
    {
      LeaveBatch(r);
      if reqs[r].ontree {
        UpdateGone(reqs, r, reqs[r].(ontree := false));
        Unqueue(r);
      }
      Forget(r);
    }

    /** One ready request less. */
    method Uncount()
      requires ListsOk(reqs, tree, exp) && BatchOk(reqs, batch) && (batch != {} ==> sched)
      requires pndgWrites == |Ready(reqs)| + 1 && flushq
      modifies this`pndgWrites, this`flushq
      ensures Valid() && pndgWrites == old(pndgWrites) - 1
    {
      assert pndgWrites > 0;
      assert flushq;
      pndgWrites := pndgWrites - 1;
      if pndgWrites == 0 {
        flushq := false;
      }
    }
  }
}
