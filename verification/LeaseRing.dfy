/** The leases of one bmap as the objects slashd/mds.c links together.

    bmi_leases lists one lease per client, the head; the further leases of a client hang
    off the head on the circular bml_chain and carry BML_CHAIN.  The ghost `rings` names
    the chains and `live` the allocated leases. */
module LeaseRing {
  import opened Common
  import opened BmapLease
  import opened LeaseCounts

  /** bmap_mds_lease: identity, the fields that BmapLease looks at, and the chain. */
  class Lease {
    const id: LeaseId
    const client: Client
    var rec: Rec
    var chained: bool
    var chain: Lease?

    constructor (id: LeaseId, client: Client, write: bool, dio: bool)
      ensures this.id == id && this.client == client && !chained
      ensures rec == Rec(client, write, dio, false, 1, false, false, false, 0, 0)
    {
      this.id, this.client := id, client;
      rec := Rec(client, write, dio, false, 1, false, false, false, 0, 0);
      chained, chain := false, null;
    }
  }

  // ----- One ring -----

  ghost function Ids(r: seq<Lease>): (s: seq<LeaseId>)
    ensures |s| == |r| && forall k :: 0 <= k < |r| ==> s[k] == r[k].id
  {
    seq(|r|, k requires 0 <= k < |r| => r[k].id)
  }

  ghost function Next(r: seq<Lease>, k: nat): Lease
    requires k < |r|
  {
    if k + 1 < |r| then r[k + 1] else r[0]
  }

  /** The chain pointers go once around the ring, and all but its head are marked. */
  ghost predicate Closed(r: seq<Lease>)
    reads r
  {
    r != [] && forall k :: 0 <= k < |r| ==> r[k].chain == Next(r, k) && (r[k].chained <==> k > 0)
  }

  twostate lemma ClosedKept(q: seq<Lease>)
    requires old(Closed(q))
    requires forall k :: 0 <= k < |q| ==> q[k].chain == old(q[k].chain) && q[k].chained == old(q[k].chained)
    ensures Closed(q)
  {
  }

  lemma {:induction false} DistinctAt(r: seq<Lease>, i: nat, j: nat)
    requires i < j < |r| && Distinct(Ids(r))
    ensures r[i] != r[j]
  {
    if i == 0 {
      assert Ids(r)[j] == Ids(r)[1..][j - 1];
    } else {
      assert Ids(r)[1..] == Ids(r[1..]);
      DistinctAt(r[1..], i - 1, j - 1);
    }
  }

  lemma AllDistinct(r: seq<Lease>)
    requires Distinct(Ids(r))
    ensures forall i, j :: 0 <= i < j < |r| ==> r[i] != r[j]
  {
    forall i, j | 0 <= i < j < |r| ensures r[i] != r[j] {
      DistinctAt(r, i, j);
    }
  }

  lemma OnlyAt(r: seq<Lease>, k: nat)
    requires Distinct(Ids(r)) && k < |r|
    ensures forall i :: 0 <= i < |r| && i != k ==> r[i] != r[k]
  {
    forall i | 0 <= i < |r| && i != k ensures r[i] != r[k] {
      if i < k {
        DistinctAt(r, i, k);
      } else {
        DistinctAt(r, k, i);
      }
    }
  }

  lemma {:induction false} CountWSnoc(r: seq<LeaseId>, l: LeaseId, rec: map<LeaseId, Rec>)
    ensures CountW(r + [l], rec) == CountW(r, rec) + (if l in rec && rec[l].write then 1 else 0)
  {
    if r == [] {
      assert (r + [l])[1..] == [];
    } else {
      CountWSnoc(r[1..], l, rec);
      assert (r + [l])[1..] == r[1..] + [l];
    }
  }

  /** The loop of mds_bmap_dupls_find(): one walk meets each lease of the ring once. */
  method WalkRing(head: Lease, ghost r: seq<Lease>, ghost rec: map<LeaseId, Rec>)
    returns (wlease: nat, rlease: nat)
    requires Closed(r) && Distinct(Ids(r)) && head == r[0]
    requires forall k :: 0 <= k < |r| ==> r[k].id in rec && rec[r[k].id].write == r[k].rec.write
    ensures wlease == CountW(Ids(r), rec) && wlease + rlease == |r|
  {
    wlease, rlease := 0, 0;
    AllDistinct(r);
    ghost var k := 0;
    var tmp := head;
    while true
      invariant 0 <= k < |r| && tmp == r[k]
      invariant wlease == CountW(Ids(r[..k]), rec) && wlease + rlease == k
      decreases |r| - k
    {
      if tmp.rec.write {
        wlease := wlease + 1;
      } else {
        rlease := rlease + 1;
      }
      CountWSnoc(Ids(r[..k]), r[k].id, rec);
      assert Ids(r[..k + 1]) == Ids(r[..k]) + [r[k].id];
      k := k + 1;
      tmp := tmp.chain;
      if tmp == head {
        break;
      }
    }
    assert r[..k] == r;
  }

  /** The `k`th lease of a ring is the first with the given number. */
  ghost predicate FirstWith(r: seq<Lease>, n: nat, k: int)
    reads r
  {
    0 <= k < |r| && r[k].rec.seqno == n && forall i :: 0 <= i < k ==> r[i].rec.seqno != n
  }

  /** The first lease of a ring with the given number. */
  method SeqOnRing(head: Lease, n: nat, ghost r: seq<Lease>) returns (bml: Lease?, ghost k: int)
    requires Closed(r) && Distinct(Ids(r)) && head == r[0]
    ensures bml == null ==> forall i :: 0 <= i < |r| ==> r[i].rec.seqno != n
    ensures bml != null ==> FirstWith(r, n, k) && r[k] == bml
  {
    OnlyAt(r, 0);
    bml := head;
    k := 0;
    while bml.rec.seqno != n
      invariant 0 <= k < |r| && bml == r[k]
      invariant forall i :: 0 <= i < k ==> r[i].rec.seqno != n
      decreases |r| - k
    {
      assert r[k].chain == Next(r, k);
      bml := bml.chain;
      k := k + 1;
      if bml == head {
        bml := null;
        return;
      }
    }
  }

  /** The lease before `bml` on its ring; before the head, the last one. */
  method Predecessor(head: Lease, bml: Lease, ghost r: seq<Lease>, ghost j: nat) returns (prev: Lease)
    requires Closed(r) && Distinct(Ids(r)) && head == r[0] && j < |r| && bml == r[j]
    ensures prev == r[if j == 0 then |r| - 1 else j - 1]
  {
    AllDistinct(r);
    ghost var k := 0;
    prev := head;
    while prev.chain != bml
      invariant 0 <= k < |r| && prev == r[k] && (j > 0 ==> k < j)
      decreases |r| - k
    {
      prev := prev.chain;
      k := k + 1;
    }
  }

  /** The lease becomes the last of the ring, or a ring of its own. */
  method Attach(head: Lease?, bml: Lease, ghost r: seq<Lease>)
    requires if r == [] then head == null else Closed(r) && Distinct(Ids(r)) && head == r[0]
    requires bml !in r
    modifies r`chain, bml`chain, bml`chained
    ensures Closed(r + [bml])
  {
    if head != null {
      bml.chained := true;
      var tail := Predecessor(head, head, r, 0);
      AllDistinct(r);
      tail.chain := bml;
      bml.chain := head;
    } else {
      bml.chained := false;
      bml.chain := bml;
    }
  }

  /** The lease leaves the ring; the lease after a head becomes the head. */
  method Detach(head: Lease, bml: Lease, ghost r: seq<Lease>, ghost j: nat)
    requires Closed(r) && Distinct(Ids(r)) && head == r[0] && j < |r| && bml == r[j]
    modifies r`chain, r`chained
    ensures |r| > 1 ==> Closed(r[..j] + r[j + 1..])
  {
    var prev := Predecessor(head, bml, r, j);
    AllDistinct(r);
    ghost var n := |r|;
    assert bml.chain == Next(r, j);
    if bml.chain != bml {
      if !bml.chained {
        bml.chain.chained := false;
      }
      prev.chain := bml.chain;
    }
    if n > 1 {
      forall k | 0 <= k < n && k != j ensures r[k].chain == NextBut(r, j, k) && (r[k].chained <==> k > FirstBut(j)) {
      }
      ClosedBut(r, j);
    }
  }

  /** The first lease of a ring that has lost the one at `j`, and the one after that at `k`. */
  function FirstBut(j: nat): nat {
    if j == 0 then 1 else 0
  }

  ghost function NextBut(r: seq<Lease>, j: nat, k: nat): Lease
    requires j < |r| && k < |r| && j != k
  {
    var m := if k + 1 == j then k + 2 else k + 1;
    if m < |r| then r[m] else r[FirstBut(j)]
  }

  lemma ClosedBut(r: seq<Lease>, j: nat)
    requires |r| > 1 && j < |r|
    requires forall k :: 0 <= k < |r| && k != j ==>
               r[k].chain == NextBut(r, j, k) && (r[k].chained <==> k > FirstBut(j))
    ensures Closed(r[..j] + r[j + 1..])
  {
    var q := r[..j] + r[j + 1..];
    forall k | 0 <= k < |q| ensures q[k].chain == Next(q, k) && (q[k].chained <==> k > 0) {
      var i := if k < j then k else k + 1;
      assert q[k] == r[i];
    }
  }

  // ----- Asking leases for DIO, the walk of mds_bmap_directio() -----

  predicate Blocks(r: Rec, d: Client, c: Client) { d != c && !r.dio }

  /** What the walk on behalf of client `c` leaves on a lease of client `d`. */
  function Asked(r: Rec, d: Client, c: Client): Rec {
    if Blocks(r, d, c) then r.(diocb := true) else r
  }

  /** Some record, or some record not asked before, blocks the request. */
  ghost predicate AnyBlocks(o: seq<Rec>, d: Client, c: Client, onlyNew: bool) {
    o != [] && ((Blocks(o[|o| - 1], d, c) && !(onlyNew && o[|o| - 1].diocb)) || AnyBlocks(o[..|o| - 1], d, c, onlyNew))
  }

  lemma {:induction false} AnyBlocksExists(o: seq<Rec>, d: Client, c: Client, onlyNew: bool)
    ensures AnyBlocks(o, d, c, onlyNew)
            <==> exists k :: 0 <= k < |o| && Blocks(o[k], d, c) && !(onlyNew && o[k].diocb)
  {
    if o != [] {
      AnyBlocksExists(o[..|o| - 1], d, c, onlyNew);
    }
  }

  lemma AnySnoc(o: seq<Rec>, k: nat, d: Client, c: Client, onlyNew: bool)
    requires k < |o|
    ensures AnyBlocks(o[..k + 1], d, c, onlyNew)
            <==> (Blocks(o[k], d, c) && !(onlyNew && o[k].diocb)) || AnyBlocks(o[..k], d, c, onlyNew)
  {
    assert o[..k + 1][..k] == o[..k];
  }

  method AskLease(bml: Lease, c: Client) returns (wait: bool, asks: bool)
    modifies bml`rec
    ensures bml.rec == Asked(old(bml.rec), bml.client, c)
    ensures wait == Blocks(old(bml.rec), bml.client, c) && asks == (wait && !old(bml.rec).diocb)
  {
    wait := bml.client != c && !bml.rec.dio;
    asks := wait && !bml.rec.diocb;
    if asks {
      bml.rec := bml.rec.(diocb := true);
    }
  }

  /** The walk over the ring of client `d`, whose records were `o`: every lease that has
      not acknowledged is asked, unless the ring is the requesting client's own. */
  method AskRing(head: Lease, c: Client, d: Client, ghost r: seq<Lease>, ghost o: seq<Rec>)
    returns (wait: bool, asks: bool)
    requires Closed(r) && Distinct(Ids(r)) && head == r[0]
    requires |o| == |r| && forall k :: 0 <= k < |r| ==> o[k] == r[k].rec && r[k].client == d
    modifies r`rec
    ensures forall k :: 0 <= k < |r| ==> r[k].rec == Asked(o[k], d, c)
    ensures wait <==> AnyBlocks(o, d, c, false)
    ensures asks <==> AnyBlocks(o, d, c, true)
  {
    OnlyAt(r, 0);
    wait, asks := false, false;
    ghost var k := 0;
    var bml := head;
    while true
      invariant 0 <= k < |r| && bml == r[k]
      invariant forall i :: 0 <= i < |r| ==> r[i].chain == Next(r, i)
      invariant forall i :: 0 <= i < k ==> r[i].rec == Asked(o[i], d, c)
      invariant forall i :: k <= i < |r| ==> r[i].rec == o[i]
      invariant wait <==> AnyBlocks(o[..k], d, c, false)
      invariant asks <==> AnyBlocks(o[..k], d, c, true)
      decreases |r| - k
    {
      OnlyAt(r, k);
      AnySnoc(o, k, d, c, false);
      AnySnoc(o, k, d, c, true);
      var w, a := AskLease(bml, c);
      wait, asks := wait || w, asks || a;
      bml := bml.chain;
      k := k + 1;
      if bml == head {
        break;
      }
    }
    assert o[..k] == o;
  }
}
