/** bmi_leases: the list of ring heads of one bmap, and what mds.c does to it. */
module LeaseTable {
  import opened Common
  import opened BmapLease
  import opened LeaseCounts
  import opened LeaseRing

  type Rings = map<Client, seq<Lease>>
  type Live = map<LeaseId, Lease>

  ghost function Recs(live: Live): map<LeaseId, Rec>
    reads live.Values
  {
    map i | i in live :: live[i].rec.(client := live[i].client)
  }

  ghost function IdRings(rings: Rings): map<Client, seq<LeaseId>> {
    map c | c in rings :: Ids(rings[c])
  }

  ghost function RingIn(rings: Rings, c: Client): seq<Lease> {
    if c in rings then rings[c] else []
  }

  lemma OneRecord(m: map<LeaseId, Rec>, m': map<LeaseId, Rec>, l: LeaseId)
    requires l in m && m'.Keys == m.Keys
    requires forall i :: i in m && i != l ==> m'[i] == m[i]
    ensures m' == m[l := m'[l]]
  {
  }

  /** The rings consist of live leases of their clients, each once. */
  ghost predicate Mapped(live: Live, rings: Rings) {
    && (forall i :: i in live ==> live[i].id == i)
    && (forall c :: c in rings ==> Distinct(Ids(rings[c])))
    && (forall c, k :: c in rings && 0 <= k < |rings[c]| ==>
          rings[c][k].id in live && live[rings[c][k].id] == rings[c][k] && rings[c][k].client == c)
  }

  /** The list holds exactly the heads of the rings, one per client. */
  ghost predicate Listed(leases: seq<Lease>, rings: Rings) {
    && (forall c :: c in rings ==> rings[c] != [] && rings[c][0].client == c && rings[c][0] in leases)
    && (forall i :: 0 <= i < |leases| ==>
          leases[i].client in rings && rings[leases[i].client] != [] && leases[i] == rings[leases[i].client][0])
    && (forall i, j :: 0 <= i < j < |leases| ==> leases[i].client != leases[j].client)
  }

  lemma ListedAppend(leases: seq<Lease>, rings: Rings, bml: Lease)
    requires Listed(leases, rings) && bml.client in rings
    ensures Listed(leases, rings[bml.client := rings[bml.client] + [bml]])
  {
  }

  lemma ListedNew(leases: seq<Lease>, rings: Rings, bml: Lease)
    requires Listed(leases, rings) && bml.client !in rings
    ensures Listed(leases + [bml], rings[bml.client := [bml]])
  {
  }

  /** A lease that is not the head leaves its ring. */
  lemma ListedShorter(leases: seq<Lease>, rings: Rings, c: Client, r: seq<Lease>)
    requires Listed(leases, rings) && c in rings && r != [] && r[0] == rings[c][0]
    ensures Listed(leases, rings[c := r])
  {
  }

  /** A head leaves the list, and its ring vanishes. */
  lemma ListedGone(leases: seq<Lease>, rings: Rings, i: nat)
    requires Listed(leases, rings) && i < |leases|
    ensures Listed(leases[..i] + leases[i + 1..], rings - {leases[i].client})
  {
    var ls, g := leases[..i] + leases[i + 1..], rings - {leases[i].client};
    assert forall k :: 0 <= k < |ls| ==> ls[k] == leases[if k < i then k else k + 1];
    forall c | c in g ensures g[c][0] in ls {
      var k :| 0 <= k < |leases| && leases[k] == rings[c][0];
      assert leases[k].client != leases[i].client;
      assert ls[if k < i then k else k - 1] == leases[k];
    }
  }

  /** A head leaves the list, and the lease after it is listed at the end. */
  lemma ListedSuccessor(leases: seq<Lease>, rings: Rings, i: nat, r: seq<Lease>)
    requires Listed(leases, rings) && i < |leases| && r != [] && r[0].client == leases[i].client
    ensures Listed(leases[..i] + leases[i + 1..] + [r[0]], rings[leases[i].client := r])
  {
    var c, ls := leases[i].client, leases[..i] + leases[i + 1..];
    ListedGone(leases, rings, i);
    ListedNew(ls, rings - {c}, r[0]);
    ListedShorter(ls + [r[0]], (rings - {c})[c := [r[0]]], c, r);
    assert (rings - {c})[c := [r[0]]][c := r] == rings[c := r];
  }

  ghost function WithoutAt(rings: Rings, c: Client, j: nat): Rings
    requires c in rings && j < |rings[c]|
  {
    if |rings[c]| == 1 then rings - {c} else rings[c := rings[c][..j] + rings[c][j + 1..]]
  }

  lemma MappedAppend(live: Live, rings: Rings, bml: Lease)
    requires Mapped(live, rings) && bml.id in live && live[bml.id] == bml
    requires bml !in RingIn(rings, bml.client)
    ensures Mapped(live, rings[bml.client := RingIn(rings, bml.client) + [bml]])
    ensures IdRings(rings[bml.client := RingIn(rings, bml.client) + [bml]])
            == IdRings(rings)[bml.client := Ids(RingIn(rings, bml.client)) + [bml.id]]
  {
    var r := RingIn(rings, bml.client);
    assert Ids(r + [bml]) == Ids(r) + [bml.id];
    AppendFacts(Ids(r), bml.id, map[]);
  }

  lemma {:induction false} RemoveAt(r: seq<LeaseId>, j: nat)
    requires Distinct(r) && j < |r|
    ensures Remove(r, r[j]) == r[..j] + r[j + 1..]
  {
    if j > 0 {
      RemoveAt(r[1..], j - 1);
      assert r[j] == r[1..][j - 1];
      assert r[1..][..j - 1] == r[1..j] && r[1..][j..] == r[j + 1..];
    }
  }

  lemma RemoveIds(r: seq<Lease>, j: nat)
    requires Distinct(Ids(r)) && j < |r|
    ensures Ids(r[..j] + r[j + 1..]) == Remove(Ids(r), r[j].id) && Distinct(Ids(r[..j] + r[j + 1..]))
  {
    RemoveAt(Ids(r), j);
    assert Ids(r[..j] + r[j + 1..]) == Ids(r)[..j] + Ids(r)[j + 1..];
    RemoveFacts(Ids(r), r[j].id, map[]);
  }

  lemma MappedWithout(live: Live, rings: Rings, c: Client, j: nat)
    requires Mapped(live, rings) && c in rings && j < |rings[c]|
    ensures Mapped(live, WithoutAt(rings, c, j))
  {
    RemoveIds(rings[c], j);
  }

  /** The rings of identities once a lease is gone. */
  lemma WithoutIds(live: Live, rings: Rings, bml: Lease, j: nat)
    requires Mapped(live, rings) && bml.client in rings && j < |rings[bml.client]| && rings[bml.client][j] == bml
    ensures var r := Remove(Ids(rings[bml.client]), bml.id);
            IdRings(WithoutAt(rings, bml.client, j))
            == if r == [] then IdRings(rings) - {bml.client} else IdRings(rings)[bml.client := r]
  {
    RemoveIds(rings[bml.client], j);
  }

  ghost function IdSet(r: seq<Lease>): set<LeaseId> {
    set l | l in Ids(r)
  }

  ghost predicate AnyIn(m: map<LeaseId, Rec>, s: set<LeaseId>, c: Client, onlyNew: bool) {
    exists l :: l in s && l in m && Blocks(m[l], m[l].client, c) && !(onlyNew && m[l].diocb)
  }

  /** The leases on the first `n` listed rings. */
  ghost function DoneIds(g: Rings, ls: seq<Lease>, n: nat): set<LeaseId>
    requires n <= |ls|
  {
    if n == 0 then {} else DoneIds(g, ls, n - 1) + IdSet(RingIn(g, ls[n - 1].client))
  }

  lemma {:induction false} DoneFacts(live: Live, g: Rings, ls: seq<Lease>, n: nat)
    requires Mapped(live, g) && n <= |ls| && forall i :: 0 <= i < |ls| ==> ls[i].client in g
    ensures forall l :: l in DoneIds(g, ls, n) ==>
              && l in live && live[l] in RingIn(g, live[l].client)
              && exists k :: 0 <= k < n && ls[k].client == live[l].client
  {
    if n > 0 {
      DoneFacts(live, g, ls, n - 1);
      forall l | l in IdSet(RingIn(g, ls[n - 1].client))
        ensures l in live && live[l] in RingIn(g, live[l].client) && ls[n - 1].client == live[l].client
      {
        var k :| 0 <= k < |g[ls[n - 1].client]| && Ids(g[ls[n - 1].client])[k] == l;
      }
    }
  }

  /** The rings are listed once each: a ring further on is not among those done. */
  lemma DoneDisjoint(live: Live, g: Rings, ls: seq<Lease>, n: nat)
    requires Mapped(live, g) && Listed(ls, g) && n < |ls|
    ensures IdSet(g[ls[n].client]) !! DoneIds(g, ls, n)
  {
    DoneFacts(live, g, ls, n);
    forall l | l in IdSet(g[ls[n].client]) ensures l !in DoneIds(g, ls, n) {
      var k :| 0 <= k < |g[ls[n].client]| && Ids(g[ls[n].client])[k] == l;
      assert live[l].client == ls[n].client;
    }
  }

  lemma {:induction false} DoneCovers(g: Rings, ls: seq<Lease>, n: nat, k: nat)
    requires k < n <= |ls|
    ensures IdSet(RingIn(g, ls[k].client)) <= DoneIds(g, ls, n)
  {
    if k < n - 1 {
      DoneCovers(g, ls, n - 1, k);
    }
  }

  /** At the end every lease on a ring is done. */
  lemma DoneAll(live: Live, g: Rings, ls: seq<Lease>)
    requires Mapped(live, g) && Listed(ls, g)
    ensures forall d, k :: d in g && 0 <= k < |g[d]| ==> g[d][k].id in DoneIds(g, ls, |ls|)
  {
    forall d, k | d in g && 0 <= k < |g[d]| ensures g[d][k].id in DoneIds(g, ls, |ls|) {
      var i :| 0 <= i < |ls| && ls[i] == g[d][0];
      assert ls[i].client == d;
      DoneCovers(g, ls, |ls|, i);
      assert Ids(g[d])[k] in Ids(g[d]);
    }
  }

  ghost predicate AnyForeign(ls: seq<Lease>, n: nat, c: Client)
    requires n <= |ls|
  {
    n > 0 && (ls[n - 1].client != c || AnyForeign(ls, n - 1, c))
  }

  lemma {:induction false} AnyForeignExists(ls: seq<Lease>, n: nat, c: Client)
    requires n <= |ls|
    ensures AnyForeign(ls, n, c) <==> exists k :: 0 <= k < n && ls[k].client != c
  {
    if n > 0 {
      AnyForeignExists(ls, n - 1, c);
    }
  }

  lemma ForeignRing(g: Rings, ls: seq<Lease>, c: Client)
    requires Listed(ls, g)
    ensures AnyForeign(ls, |ls|, c) <==> exists d :: d in g && d != c
  {
    AnyForeignExists(ls, |ls|, c);
    forall d | d in g ensures exists k :: 0 <= k < |ls| && ls[k].client == d {
      var k :| 0 <= k < |ls| && ls[k] == g[d][0];
      assert ls[k].client == d;
    }
  }

  lemma WalkStep(g: Rings, ls: seq<Lease>, n: nat, c: Client)
    requires n < |ls| && ls[n].client in g
    ensures DoneIds(g, ls, n + 1) == DoneIds(g, ls, n) + IdSet(g[ls[n].client])
    ensures AnyForeign(ls, n + 1, c) <==> AnyForeign(ls, n, c) || ls[n].client != c
  {
  }

  lemma AnyUnion(m: map<LeaseId, Rec>, s: set<LeaseId>, t: set<LeaseId>, c: Client, onlyNew: bool)
    ensures AnyIn(m, s + t, c, onlyNew) <==> AnyIn(m, s, c, onlyNew) || AnyIn(m, t, c, onlyNew)
  {
  }

  lemma AnyRing(m: map<LeaseId, Rec>, r: seq<Lease>, o: seq<Rec>, d: Client, c: Client, onlyNew: bool)
    requires |o| == |r| && forall k :: 0 <= k < |r| ==> r[k].id in m && m[r[k].id] == o[k].(client := d)
    ensures AnyBlocks(o, d, c, onlyNew) <==> AnyIn(m, IdSet(r), c, onlyNew)
  {
    AnyBlocksExists(o, d, c, onlyNew);
    forall k | 0 <= k < |r| ensures r[k].id in IdSet(r) {
      assert Ids(r)[k] in Ids(r);
    }
  }

  /** Attach() among all rings of a table: the others are left alone. */
  method AttachIn(head: Lease?, bml: Lease, n: nat, ghost g: Rings, ghost r: seq<Lease>)
    requires if r == [] then head == null else Closed(r) && Distinct(Ids(r)) && head == r[0]
    requires bml !in r && bml.client in g && g[bml.client] == r + [bml]
    requires forall d :: d in g && d != bml.client ==> Closed(g[d])
    requires forall d, k :: d in g && 0 <= k < |g[d]| ==> g[d][k].client == d
    modifies r`chain, bml`chain, bml`chained, bml`rec
    ensures forall d :: d in g ==> Closed(g[d])
    ensures bml.rec == old(bml.rec).(linked := true, seqno := n)
  {
    assert forall k :: 0 <= k < |r| ==> r[k] == g[bml.client][k];
    bml.rec := bml.rec.(linked := true, seqno := n);
    Attach(head, bml, r);
    forall d | d in g && d != bml.client ensures Closed(g[d]) {
      ClosedKept(g[d]);
    }
  }

  method DetachIn(head: Lease, bml: Lease, ghost g: Rings, ghost j: nat)
    requires bml.client in g && forall d :: d in g ==> Closed(g[d])
    requires forall d, k :: d in g && 0 <= k < |g[d]| ==> g[d][k].client == d
    requires Distinct(Ids(g[bml.client])) && j < |g[bml.client]| && bml == g[bml.client][j] && head == g[bml.client][0]
    modifies g[bml.client]`chain, g[bml.client]`chained, bml`rec
    ensures forall d :: d in g && d != bml.client ==> Closed(g[d])
    ensures |g[bml.client]| > 1 ==> Closed(g[bml.client][..j] + g[bml.client][j + 1..])
    ensures bml.rec == old(bml.rec).(linked := false)
  {
    bml.rec := bml.rec.(linked := false);
    Detach(head, bml, g[bml.client], j);
    forall d | d in g && d != bml.client ensures Closed(g[d]) {
      ClosedKept(g[d]);
    }
  }

  function GainRef(r: Rec): Rec { r.(refcnt := r.refcnt + 1) }

  /** AskRing() among all rings of a table; chains are left alone. */
  method AskIn(head: Lease, c: Client, ghost g: Rings, ghost m: map<LeaseId, Rec>, ghost o: seq<Rec>)
    returns (wait: bool, asks: bool)
    requires head.client in g && forall d :: d in g ==> Closed(g[d])
    requires g[head.client] != [] && head == g[head.client][0]
    requires Distinct(Ids(g[head.client])) && |o| == |g[head.client]|
    requires forall k :: 0 <= k < |o| ==>
               var l := g[head.client][k];
               l.client == head.client && l.rec == o[k] && l.id in m && m[l.id] == o[k].(client := head.client)
    modifies g[head.client]`rec
    ensures forall d :: d in g ==> Closed(g[d])
    ensures forall k :: 0 <= k < |o| ==> g[head.client][k].rec == Asked(o[k], head.client, c)
    ensures wait <==> AnyIn(m, IdSet(g[head.client]), c, false)
    ensures asks <==> AnyIn(m, IdSet(g[head.client]), c, true)
  {
    ghost var r := g[head.client];
    AnyRing(m, r, o, head.client, c, false);
    AnyRing(m, r, o, head.client, c, true);
    wait, asks := AskRing(head, c, head.client, r, o);
    forall d | d in g ensures Closed(g[d]) {
      ClosedKept(g[d]);
    }
  }

  /** AskIn() as a change of the records. */
  method AskLive(head: Lease, c: Client, ghost g: Rings, ghost lv: Live, ghost m: map<LeaseId, Rec>)
    returns (wait: bool, asks: bool)
    requires Mapped(lv, g) && head.client in g && forall d :: d in g ==> Closed(g[d])
    requires g[head.client] != [] && head == g[head.client][0] && m == Recs(lv)
    modifies g[head.client]`rec
    ensures forall d :: d in g ==> Closed(g[d])
    ensures forall l :: l in lv ==>
              lv[l].rec.(client := lv[l].client)
              == if l in IdSet(g[head.client]) then Asked(m[l], m[l].client, c) else m[l]
    ensures wait <==> AnyIn(m, IdSet(g[head.client]), c, false)
    ensures asks <==> AnyIn(m, IdSet(g[head.client]), c, true)
  {
    ghost var r := g[head.client];
    ghost var o := seq(|r|, k requires 0 <= k < |r| reads r => r[k].rec);
    forall k | 0 <= k < |r| ensures r[k].id in IdSet(r) {
      assert Ids(r)[k] in Ids(r);
    }
    wait, asks := AskIn(head, c, g, m, o);
    forall l | l in lv
      ensures lv[l].rec.(client := lv[l].client) == if l in IdSet(r) then Asked(m[l], m[l].client, c) else m[l]
    {
      if l in IdSet(r) {
        var k :| 0 <= k < |r| && r[k].id == l;
      } else {
        assert lv[l] !in r;
      }
    }
  }

  /** The records once the walk of mds_bmap_directio() has the leases in `done` behind it; `m`
      are the records before it. */
  ghost predicate WalkedTo(m: map<LeaseId, Rec>, m': map<LeaseId, Rec>, c: Client, done: set<LeaseId>) {
    && m.Keys == m'.Keys
    && forall l :: l in m ==> m'[l] == if l in done then Asked(m[l], m[l].client, c) else m[l]
  }

  lemma AnySame(m: map<LeaseId, Rec>, m': map<LeaseId, Rec>, ids: set<LeaseId>, c: Client, onlyNew: bool)
    requires m.Keys == m'.Keys && forall l :: l in ids && l in m ==> m[l] == m'[l]
    ensures AnyIn(m, ids, c, onlyNew) <==> AnyIn(m', ids, c, onlyNew)
  {
  }

  /** One ring more. */
  lemma WalkedMore(m: map<LeaseId, Rec>, m1: map<LeaseId, Rec>, m2: map<LeaseId, Rec>, c: Client,
                   done: set<LeaseId>, ids: set<LeaseId>)
    requires WalkedTo(m, m1, c, done) && ids !! done && m1.Keys == m2.Keys
    requires forall l :: l in m1 ==> m2[l] == if l in ids then Asked(m1[l], m1[l].client, c) else m1[l]
    ensures WalkedTo(m, m2, c, done + ids)
  {
  }

  class Table {
    var leases: seq<Lease>
    ghost var rings: Rings
    ghost var live: Live

    constructor ()
      ensures Ok() && live == map[] && rings == map[]
    {
      leases, rings, live := [], map[], map[];
    }

    ghost predicate ListOk()
      reads this
    {
      Mapped(live, rings) && Listed(leases, rings)
    }

    /** List, pointers and flags represent the ghost rings. */
    ghost predicate Ok()
      reads this, live.Values
    {
      ListOk() && forall c :: c in rings ==> Closed(rings[c])
    }

    ghost predicate Owns(l: Lease)
      reads this
    {
      l.id in live && live[l.id] == l
    }

    /** The listed lease of a client. */
    method FindHead(c: Client) returns (head: Lease?)
      requires ListOk()
      ensures head == null <==> c !in rings
      ensures head != null ==> rings[c] != [] && head == rings[c][0]
    {
      head := null;
      for i := 0 to |leases|
        invariant head == null ==> forall j :: 0 <= j < i ==> leases[j].client != c
        invariant head != null ==> exists j :: 0 <= j < i && head == leases[j] && leases[j].client == c
      {
        if leases[i].client == c {
          assert head == null;
          head := leases[i];
        }
      }
    }

    /** mds_bmap_dupls_find(): the head of a client's ring and the kinds of its leases. */
    method DuplsFind(c: Client) returns (head: Lease?, wlease: nat, rlease: nat)
      requires Ok()
      ensures head == null <==> c !in rings
      ensures head != null ==> rings[c] != [] && head == rings[c][0]
      ensures wlease == CountW(Ids(RingIn(rings, c)), Recs(live))
      ensures wlease + rlease == |RingIn(rings, c)|
    {
      wlease, rlease := 0, 0;
      head := FindHead(c);
      if head != null {
        ghost var r, rec := rings[c], Recs(live);
        wlease, rlease := WalkRing(head, r, rec);
        assert Recs(live) == rec;
      }
    }

    /** The list part of mds_bmap_bml_add(). */
    method Enlist(bml: Lease) returns (head: Lease?)
      requires ListOk() && Owns(bml) && bml !in RingIn(rings, bml.client)
      modifies this`leases, this`rings
      ensures ListOk() && rings == old(rings)[bml.client := RingIn(old(rings), bml.client) + [bml]]
      ensures if bml.client in old(rings) then old(rings)[bml.client] != [] && head == old(rings)[bml.client][0]
              else head == null
    {
      ghost var r := RingIn(rings, bml.client);
      MappedAppend(live, rings, bml);
      head := FindHead(bml.client);
      if head == null {
        ListedNew(leases, rings, bml);
        leases := leases + [bml];
      } else {
        ListedAppend(leases, rings, bml);
      }
      rings := rings[bml.client := r + [bml]];
    }

    /** The pointer part of mds_bmap_bml_add(); the list is up to date already. */
    method ChainPointers(head: Lease?, bml: Lease, n: nat, ghost r: seq<Lease>)
      requires ListOk() && bml.client in rings && rings[bml.client] == r + [bml] && bml !in r
      requires if r == [] then head == null else Closed(r) && Distinct(Ids(r)) && head == r[0]
      requires forall d :: d in rings && d != bml.client ==> Closed(rings[d])
      modifies r`chain, bml`chain, bml`chained, bml`rec
      ensures Ok() && rings == old(rings) && live == old(live)
      ensures bml.rec == old(bml.rec).(linked := true, seqno := n)
    {
      ghost var g := rings;
      AttachIn(head, bml, n, g, r);
      assert rings == g;
    }

    method Chain(bml: Lease, n: nat)
      requires Ok() && Owns(bml) && bml !in RingIn(rings, bml.client)
      modifies this`leases, this`rings, RingIn(rings, bml.client)`chain, bml`chain, bml`chained, bml`rec
      ensures Ok() && live == old(live)
      ensures rings == old(rings)[bml.client := RingIn(old(rings), bml.client) + [bml]]
      ensures bml.rec == old(bml.rec).(linked := true, seqno := n)
    {
      ghost var r := RingIn(rings, bml.client);
      var head := Enlist(bml);
      ghost var g := rings;
      forall d | d in g && d != bml.client ensures Closed(g[d]) {
        ClosedKept(g[d]);
      }
      ChainPointers(head, bml, n, r);
      assert rings == g;
    }

    /** mds_bmap_bml_add(): the lease joins the ring of its client, or starts one. */
    method LinkLease(bml: Lease, n: nat)
      requires Ok() && Owns(bml) && bml !in RingIn(rings, bml.client)
      modifies this`leases, this`rings, RingIn(rings, bml.client)`chain, bml`chain, bml`chained, bml`rec
      ensures Ok() && live == old(live)
      ensures Recs(live) == old(Recs(live))[bml.id := LinkRec(old(Recs(live))[bml.id], n)]
      ensures IdRings(rings) == old(IdRings(rings))[bml.client := Ids(RingIn(old(rings), bml.client)) + [bml.id]]
    {
      ghost var m := Recs(live);
      MappedAppend(live, rings, bml);
      Chain(bml, n);
      OneRecord(m, Recs(live), bml.id);
    }

    /** The lease is linked; what its client held before is counted. */
    method AddLease(bml: Lease, n: nat) returns (wlease: nat, rlease: nat)
      requires Ok() && Owns(bml) && bml !in RingIn(rings, bml.client)
      modifies this`leases, this`rings, RingIn(rings, bml.client)`chain, bml`chain, bml`chained, bml`rec
      ensures Ok() && live == old(live)
      ensures Recs(live) == old(Recs(live))[bml.id := LinkRec(old(Recs(live))[bml.id], n)]
      ensures IdRings(rings) == old(IdRings(rings))[bml.client := Ids(RingIn(old(rings), bml.client)) + [bml.id]]
      ensures wlease == CountW(Ids(RingIn(old(rings), bml.client)), old(Recs(live)))
      ensures wlease + rlease == |RingIn(old(rings), bml.client)|
    {
      ghost var m := Recs(live);
      var head;
      head, wlease, rlease := DuplsFind(bml.client);
      assert Recs(live) == m;
      LinkLease(bml, n);
    }

    method Position(bml: Lease) returns (i: nat)
      requires bml in leases
      ensures i < |leases| && leases[i] == bml
    {
      i := 0;
      while leases[i] != bml
        invariant 0 <= i < |leases| && bml !in leases[..i]
        decreases |leases| - i
      {
        i := i + 1;
      }
    }

    /** The list part of mds_bmap_bml_del_locked(): a head is removed, and the lease
        after it, `next`, is listed in its place at the end. */
    method Delist(bml: Lease, isHead: bool, next: Lease, ghost j: nat)
      requires ListOk() && bml.client in rings && j < |rings[bml.client]| && bml == rings[bml.client][j]
      requires isHead <==> j == 0
      requires isHead ==> next == Next(rings[bml.client], 0)
      modifies this`leases, this`rings
      ensures ListOk() && rings == WithoutAt(old(rings), bml.client, j)
    {
      var c, ls := bml.client, leases;
      ghost var r := rings[c];
      ghost var g := WithoutAt(rings, c, j);
      assert Mapped(live, g) by { MappedWithout(live, rings, c, j); }
      if isHead {
        var i := Position(bml);
        AllDistinct(r);
        if next == bml {
          ls := leases[..i] + leases[i + 1..];
          assert Listed(ls, g) by { ListedGone(leases, rings, i); }
        } else {
          ls := leases[..i] + leases[i + 1..] + [next];
          assert r[..0] + r[1..] == r[1..];
          assert Listed(ls, g) by { ListedSuccessor(leases, rings, i, r[1..]); }
        }
      } else {
        assert Listed(ls, g) by { ListedShorter(leases, rings, c, r[..j] + r[j + 1..]); }
      }
      leases := ls;
      rings := g;
    }

    /** The pointer part of mds_bmap_bml_del_locked(); the list is up to date already. */
    method UnchainPointers(head: Lease, bml: Lease, ghost g: Rings, ghost j: nat)
      requires ListOk() && bml.client in g && j < |g[bml.client]| && rings == WithoutAt(g, bml.client, j)
      requires Mapped(live, g) && forall d :: d in g ==> Closed(g[d])
      requires bml == g[bml.client][j] && head == g[bml.client][0]
      modifies g[bml.client]`chain, g[bml.client]`chained, bml`rec
      ensures Ok() && rings == old(rings) && live == old(live)
      ensures bml.rec == old(bml.rec).(linked := false)
    {
      ghost var g' := rings;
      DetachIn(head, bml, g, j);
      assert rings == g';
      forall d | d in g' ensures Closed(g'[d]) {
      }
    }

    method Unchain(bml: Lease, ghost j: nat)
      requires Ok() && Owns(bml) && bml.client in rings && j < |rings[bml.client]| && bml == rings[bml.client][j]
      modifies this`leases, this`rings, rings[bml.client]`chain, rings[bml.client]`chained, bml`rec
      ensures Ok() && live == old(live) && rings == WithoutAt(old(rings), bml.client, j)
      ensures bml.rec == old(bml.rec).(linked := false)
    {
      ghost var g := rings;
      var head := FindHead(bml.client);
      assert !head.chained && bml.chain == Next(g[bml.client], j);
      Delist(bml, !bml.chained, bml.chain, j);
      forall d | d in g ensures Closed(g[d]) {
        ClosedKept(g[d]);
      }
      UnchainPointers(head, bml, g, j);
    }

    /** mds_bmap_bml_del_locked(): the lease leaves the ring of its client. */
    method UnlinkLease(bml: Lease)
      requires Ok() && Owns(bml) && bml in RingIn(rings, bml.client)
      modifies this`leases, this`rings, rings[bml.client]`chain, rings[bml.client]`chained, bml`rec
      ensures Ok() && live == old(live)
      ensures Recs(live) == old(Recs(live))[bml.id := UnlinkRec(old(Recs(live))[bml.id])]
      ensures var r := Remove(Ids(RingIn(old(rings), bml.client)), bml.id);
              IdRings(rings) == if r == [] then old(IdRings(rings)) - {bml.client}
                                else old(IdRings(rings))[bml.client := r]
    {
      ghost var m := Recs(live);
      ghost var j :| 0 <= j < |rings[bml.client]| && rings[bml.client][j] == bml;
      ghost var g, lv := rings, live;
      WithoutIds(lv, g, bml, j);
      Unchain(bml, j);
      assert live == lv && rings == WithoutAt(g, bml.client, j);
      OneRecord(m, Recs(live), bml.id);
    }

    /** One lease gets new field values; lists and chains stay. */
    method SetLease(bml: Lease, r: Rec)
      requires Ok() && Owns(bml)
      modifies bml`rec
      ensures Ok() && live == old(live) && rings == old(rings)
      ensures bml.rec == r && Recs(live) == old(Recs(live))[bml.id := r.(client := bml.client)]
    {
      ghost var m := Recs(live);
      bml.rec := r;
      OneRecord(m, Recs(live), bml.id);
      forall d | d in rings ensures Closed(rings[d]) {
        ClosedKept(rings[d]);
      }
    }

    ghost predicate Walked(m: map<LeaseId, Rec>, c: Client, done: set<LeaseId>)
      reads this, live.Values
    {
      WalkedTo(m, Recs(live), c, done)
    }

    /** The leases on one ring are asked. */
    method AskOne(head: Lease, c: Client) returns (wait: bool, asks: bool)
      requires Ok() && head.client in rings && rings[head.client] != [] && head == rings[head.client][0]
      modifies rings[head.client]`rec
      ensures Ok() && Recs(live).Keys == old(Recs(live)).Keys
      ensures forall l :: l in live ==>
                var r := old(Recs(live))[l];
                Recs(live)[l] == if l in IdSet(rings[head.client]) then Asked(r, r.client, c) else r
      ensures wait <==> AnyIn(old(Recs(live)), IdSet(rings[head.client]), c, false)
      ensures asks <==> AnyIn(old(Recs(live)), IdSet(rings[head.client]), c, true)
    {
      ghost var g, lv := rings, live;
      wait, asks := AskLive(head, c, g, lv, Recs(lv));
      assert rings == g && live == lv;
    }

    method AskNext(head: Lease, c: Client, ghost m: map<LeaseId, Rec>, ghost done: set<LeaseId>)
      returns (wait: bool, asks: bool)
      requires Ok() && Walked(m, c, done)
      requires head.client in rings && rings[head.client] != [] && head == rings[head.client][0]
      requires IdSet(rings[head.client]) !! done
      modifies rings[head.client]`rec
      ensures Ok() && Walked(m, c, done + IdSet(rings[head.client]))
      ensures wait <==> AnyIn(m, IdSet(rings[head.client]), c, false)
      ensures asks <==> AnyIn(m, IdSet(rings[head.client]), c, true)
    {
      ghost var ids, m1 := IdSet(rings[head.client]), Recs(live);
      AnySame(m, m1, ids, c, false);
      AnySame(m, m1, ids, c, true);
      wait, asks := AskOne(head, c);
      WalkedMore(m, m1, Recs(live), c, done, ids);
    }

    /** How far the walk has come: `n` rings are done, with these findings. */
    ghost predicate Progress(m: map<LeaseId, Rec>, c: Client, n: nat, foreign: bool, wait: bool, asks: bool)
      reads this, live.Values
    {
      && n <= |leases| && Walked(m, c, DoneIds(rings, leases, n))
      && (wait <==> AnyIn(m, DoneIds(rings, leases, n), c, false))
      && (asks <==> AnyIn(m, DoneIds(rings, leases, n), c, true))
      && (foreign <==> AnyForeign(leases, n, c))
    }

    method AskStep(i: nat, c: Client, foreign: bool, wait: bool, asks: bool, ghost m: map<LeaseId, Rec>)
      returns (foreign': bool, wait': bool, asks': bool)
      requires Ok() && i < |leases| && Progress(m, c, i, foreign, wait, asks)
      modifies live.Values`rec
      ensures Ok() && Progress(m, c, i + 1, foreign', wait', asks')
    {
      var head := leases[i];
      ghost var done := DoneIds(rings, leases, i);
      DoneDisjoint(live, rings, leases, i);
      WalkStep(rings, leases, i, c);
      AnyUnion(m, done, IdSet(rings[head.client]), c, false);
      AnyUnion(m, done, IdSet(rings[head.client]), c, true);
      wait', asks' := AskNext(head, c, m, done);
      foreign', wait', asks' := foreign || head.client != c, wait || wait', asks || asks';
    }

    /** The walk of mds_bmap_directio() over all leases: those of other clients that have
        not acknowledged DIO are asked. */
    method Ask(c: Client) returns (foreign: bool, wait: bool, asks: bool)
      requires Ok()
      modifies live.Values`rec
      ensures Ok() && Progress(old(Recs(live)), c, |leases|, foreign, wait, asks)
    {
      foreign, wait, asks := false, false, false;
      ghost var m := Recs(live);
      assert DoneIds(rings, leases, 0) == {};
      assert Progress(m, c, 0, false, false, false);
      var i := 0;
      while i < |leases|
        invariant i <= |leases| && Ok() && Progress(m, c, i, foreign, wait, asks)
      {
        foreign, wait, asks := AskStep(i, c, foreign, wait, asks, m);
        i := i + 1;
      }
    }

    method FindSeq(n: nat, c: Client) returns (bml: Lease?, ghost k: int)
      requires Ok()
      ensures bml == null ==> forall i :: 0 <= i < |RingIn(rings, c)| ==> RingIn(rings, c)[i].rec.seqno != n
      ensures bml != null ==> Owns(bml) && bml.client == c
      ensures bml != null ==> FirstWith(RingIn(rings, c), n, k) && RingIn(rings, c)[k] == bml
    {
      k := 0;
      bml := FindHead(c);
      if bml != null {
        ghost var r := rings[c];
        assert Closed(r) && Distinct(Ids(r));
        bml, k := SeqOnRing(bml, n, r);
        assert RingIn(rings, c) == r;
      }
    }

    /** mds_bmap_getbml(): the first lease of a client with a given number gets one more
        reference; there is none if no lease has it or the first that has is being freed. */
    method GetBml(n: nat, c: Client) returns (bml: Lease?)
      requires Ok()
      modifies RingIn(rings, c)`rec
      ensures Ok()
      ensures bml == null ==>
                && Recs(live) == old(Recs(live))
                && forall k :: FirstWith(RingIn(rings, c), n, k) ==> RingIn(rings, c)[k].rec.freeing
      ensures bml != null ==>
                && Owns(bml) && old(exists k :: FirstWith(RingIn(rings, c), n, k) && RingIn(rings, c)[k] == bml)
                && var r := old(Recs(live))[bml.id];
                   !r.freeing && Recs(live) == old(Recs(live))[bml.id := GainRef(r)]
    {
      ghost var m := Recs(live);
      ghost var k;
      bml, k := FindSeq(n, c);
      assert Recs(live) == m;
      if bml == null || bml.rec.freeing {
        bml := null;
        return;
      }
      assert GainRef(m[bml.id]) == GainRef(bml.rec).(client := bml.client);
      SetLease(bml, GainRef(bml.rec));
      assert Recs(live) == m[bml.id := GainRef(m[bml.id])];
    }

    /** The lease is unlinked; what its client held is counted first. */
    method DropLease(bml: Lease) returns (wlease: nat, rlease: nat)
      requires Ok() && Owns(bml) && bml in RingIn(rings, bml.client)
      modifies this`leases, this`rings, rings[bml.client]`chain, rings[bml.client]`chained, bml`rec
      ensures Ok() && live == old(live)
      ensures Recs(live) == old(Recs(live))[bml.id := UnlinkRec(old(Recs(live))[bml.id])]
      ensures var r := Remove(Ids(RingIn(old(rings), bml.client)), bml.id);
              IdRings(rings) == if r == [] then old(IdRings(rings)) - {bml.client}
                                else old(IdRings(rings))[bml.client := r]
      ensures wlease == CountW(Ids(RingIn(old(rings), bml.client)), old(Recs(live)))
      ensures wlease + rlease == |RingIn(old(rings), bml.client)|
    {
      ghost var m := Recs(live);
      var head;
      head, wlease, rlease := DuplsFind(bml.client);
      assert Recs(live) == m;
      UnlinkLease(bml);
    }

    /** The lease becomes a write lease; what its client held is counted first. */
    method ConvertLease(bml: Lease) returns (wlease: nat, rlease: nat)
      requires Ok() && Owns(bml)
      modifies bml`rec
      ensures Ok() && live == old(live) && rings == old(rings)
      ensures Recs(live) == old(Recs(live))[bml.id := WriteRec(old(Recs(live))[bml.id])]
      ensures wlease == CountW(Ids(RingIn(rings, bml.client)), old(Recs(live)))
      ensures wlease + rlease == |RingIn(rings, bml.client)|
    {
      ghost var m := Recs(live);
      var head;
      head, wlease, rlease := DuplsFind(bml.client);
      assert Recs(live) == m;
      assert WriteRec(m[bml.id]) == WriteRec(bml.rec).(client := bml.client);
      SetLease(bml, WriteRec(bml.rec));
      assert Recs(live) == m[bml.id := WriteRec(m[bml.id])];
    }

    /** A lease comes from the pool. */
    method Admit(bml: Lease)
      requires Ok() && bml.id !in live && bml !in live.Values
      modifies this`live
      ensures Ok() && rings == old(rings) && live == old(live)[bml.id := bml]
      ensures Recs(live) == old(Recs(live))[bml.id := bml.rec.(client := bml.client)]
    {
      ghost var g: Rings := rings;
      live := live[bml.id := bml];
      forall c | c in g ensures Closed(g[c]) {
        ClosedKept(g[c]);
      }
    }

    /** The lease goes back to the pool. */
    method Forget(bml: Lease)
      requires Ok() && Owns(bml) && bml !in RingIn(rings, bml.client)
      modifies this`live
      ensures Ok() && rings == old(rings) && live == old(live) - {bml.id}
      ensures Recs(live) == old(Recs(live)) - {bml.id}
    {
      ghost var g: Rings := rings;
      assert forall c: Client, k: int :: c in g && 0 <= k < |g[c]| ==> g[c][k].id != bml.id;
      live := live - {bml.id};
      forall c | c in g ensures Closed(g[c]) {
        ClosedKept(g[c]);
      }
    }
  }
}
