/** Replaying the whole journal on metadata that already reflects some prefix of it.

    The result is the same as from the start for replica tables, policies, water marks and
    assignment slots.  Replica states and CRCs depend on the replica table a file has when an
    entry is replayed, and before the first entry for that table it is the one the prefix left
    behind: for them the exact condition is given. */
module ReplayConverge {
  import opened Common
  import opened ReplayLog

  // ----- Replica tables -----

  predicate IsIno(o: Op, f: nat) {
    o.InoRepls? && o.fid == f
  }

  /** The replica table of a file after the first `n` changes. */
  function InoAt(ops: seq<Op>, n: nat, f: nat, ino: Ino): Ino
    requires OpsOk(ops) && n <= |ops|
  {
    if n == 0 then ino
    else if IsIno(ops[n - 1], f) then SetIno(InoAt(ops, n - 1, f, ino), ops[n - 1])
    else InoAt(ops, n - 1, f, ino)
  }

  predicate HasIno(ops: seq<Op>, n: nat, f: nat)
    requires n <= |ops|
  {
    n > 0 && (IsIno(ops[n - 1], f) || HasIno(ops, n - 1, f))
  }

  /** One of the changes writes the extras. */
  predicate HasBig(ops: seq<Op>, n: nat, f: nat)
    requires n <= |ops|
  {
    n > 0 && ((IsIno(ops[n - 1], f) && ops[n - 1].nrepls > DEF_REPLICAS) || HasBig(ops, n - 1, f))
  }

  /** What a change to the table sets does not depend on the table before. */
  lemma {:induction false} InoForgets(ops: seq<Op>, n: nat, f: nat, x: Ino, y: Ino)
    requires OpsOk(ops) && n <= |ops|
    ensures var a, b := InoAt(ops, n, f, x), InoAt(ops, n, f, y);
            && (HasIno(ops, n, f) ==> a.nrepls == b.nrepls && a.pol == b.pol && a.low == b.low)
            && (HasIno(ops, n, f) && a.nrepls > DEF_REPLICAS ==> a.high == b.high)
            && (HasIno(ops, n, f) ==> |a.low| == DEF_REPLICAS)
            && (HasBig(ops, n, f) ==> a.high == b.high)
            && (!HasBig(ops, n, f) ==> a.high == x.high)
            && (!HasIno(ops, n, f) ==> a == x && !HasBig(ops, n, f))
  {
    if n > 0 {
      InoForgets(ops, n - 1, f, x, y);
    }
  }

  lemma {:induction false} HasMore(ops: seq<Op>, p: nat, n: nat, f: nat)
    requires p <= n <= |ops|
    ensures HasIno(ops, p, f) ==> HasIno(ops, n, f)
    ensures HasBig(ops, p, f) ==> HasBig(ops, n, f)
    decreases n
  {
    if p < n {
      HasMore(ops, p, n - 1, f);
    }
  }

  /** A table that went through a prefix comes out the same. */
  lemma InoConverges(ops: seq<Op>, p: nat, f: nat, ino: Ino)
    requires OpsOk(ops) && p <= |ops|
    ensures InoAt(ops, |ops|, f, InoAt(ops, p, f, ino)) == InoAt(ops, |ops|, f, ino)
  {
    InoForgets(ops, |ops|, f, InoAt(ops, p, f, ino), ino);
    InoForgets(ops, |ops|, f, ino, ino);
    InoForgets(ops, p, f, ino, ino);
    HasMore(ops, p, |ops|, f);
  }

  /** Once a change was made to the table, a lookup does not depend on what it was before. */
  lemma FoundForgets(ops: seq<Op>, n: nat, f: nat, x: Ino, y: Ino, ios: nat)
    requires OpsOk(ops) && n <= |ops| && HasIno(ops, n, f)
    ensures Found(InoAt(ops, n, f, x), ios) <==> Found(InoAt(ops, n, f, y), ios)
  {
    InoForgets(ops, n, f, x, y);
    InoForgets(ops, n, f, y, x);
    var a, b := InoAt(ops, n, f, x), InoAt(ops, n, f, y);
    if a.nrepls <= DEF_REPLICAS {
      assert forall j :: 0 <= j < a.nrepls ==> (a.low + a.high)[j] == a.low[j] && (b.low + b.high)[j] == b.low[j];
    }
  }

  // ----- Replica states -----

  predicate IsRepls(o: Op, k: Key) {
    o.BmapRepls? && o.key == k
  }

  /** The replica states of a bmap after the first `n` changes. */
  function StatesAt(ops: seq<Op>, n: nat, k: Key, ino: Ino, x: seq<nat>): seq<nat>
    requires OpsOk(ops) && n <= |ops|
  {
    if n == 0 then x
    else if IsRepls(ops[n - 1], k) then Walk(ops[n - 1].states, InoAt(ops, n - 1, k.fid, ino).nrepls)
    else StatesAt(ops, n - 1, k, ino, x)
  }

  function PolAt(ops: seq<Op>, n: nat, k: Key, pol: nat): nat
    requires n <= |ops|
  {
    if n == 0 then pol else if IsRepls(ops[n - 1], k) then ops[n - 1].pol else PolAt(ops, n - 1, k, pol)
  }

  /** The place of the last change of the replica states of a bmap, or -1. */
  function LastRepls(ops: seq<Op>, n: nat, k: Key): int
    requires n <= |ops|
    ensures -1 <= LastRepls(ops, n, k) < n
    ensures LastRepls(ops, n, k) >= 0 ==> IsRepls(ops[LastRepls(ops, n, k)], k)
  {
    if n == 0 then -1 else if IsRepls(ops[n - 1], k) then n - 1 else LastRepls(ops, n - 1, k)
  }

  lemma {:induction false} StatesAre(ops: seq<Op>, n: nat, k: Key, ino: Ino, x: seq<nat>, pol: nat)
    requires OpsOk(ops) && n <= |ops|
    ensures var i := LastRepls(ops, n, k);
            && StatesAt(ops, n, k, ino, x)
               == (if i < 0 then x else Walk(ops[i].states, InoAt(ops, i, k.fid, ino).nrepls))
            && PolAt(ops, n, k, pol) == (if i < 0 then pol else ops[i].pol)
  {
    if n > 0 {
      StatesAre(ops, n - 1, k, ino, x, pol);
    }
  }

  lemma {:induction false} LastReplsMore(ops: seq<Op>, p: nat, n: nat, k: Key)
    requires p <= n <= |ops|
    ensures LastRepls(ops, p, k) <= LastRepls(ops, n, k)
    decreases n
  {
    if p < n {
      LastReplsMore(ops, p, n - 1, k);
    }
  }

  /** No replica between the two table lengths is in flight. */
  predicate Settled(x: seq<nat>, m: nat, n: nat) {
    forall j :: 0 <= j < |x| && (m <= j < n || n <= j < m) ==> !InFlight(x[j])
  }

  lemma WalkSame(x: seq<nat>, m: nat, n: nat)
    ensures Walk(x, m) == Walk(x, n) <==> Settled(x, m, n)
  {
    assert forall j :: 0 <= j < |x| ==> (Revert(x[j]) == x[j] <==> !InFlight(x[j]));
    if Walk(x, m) == Walk(x, n) {
      forall j | 0 <= j < |x| && (m <= j < n || n <= j < m) ensures !InFlight(x[j]) {
        assert Walk(x, m)[j] == Walk(x, n)[j];
      }
    }
  }

  /** The last change of the states comes after a change of the table, or has nothing in flight
      between the table at the start and the one the prefix leaves. */
  predicate StatesSafe(ops: seq<Op>, p: nat, k: Key, ino: Ino)
    requires OpsOk(ops) && p <= |ops|
  {
    var i := LastRepls(ops, |ops|, k);
    i < 0 || HasIno(ops, i, k.fid) || Settled(ops[i].states, ino.nrepls, InoAt(ops, p, k.fid, ino).nrepls)
  }

  lemma StatesConvergeIff(ops: seq<Op>, p: nat, k: Key, ino: Ino, x: seq<nat>, pol: nat)
    requires OpsOk(ops) && p <= |ops|
    ensures var inoP, x1 := InoAt(ops, p, k.fid, ino), StatesAt(ops, p, k, ino, x);
            StatesAt(ops, |ops|, k, inoP, x1) == StatesAt(ops, |ops|, k, ino, x) <==> StatesSafe(ops, p, k, ino)
    ensures PolAt(ops, |ops|, k, PolAt(ops, p, k, pol)) == PolAt(ops, |ops|, k, pol)
  {
    var i, inoP := LastRepls(ops, |ops|, k), InoAt(ops, p, k.fid, ino);
    StatesAre(ops, |ops|, k, ino, x, pol);
    StatesAre(ops, p, k, ino, x, pol);
    StatesAre(ops, |ops|, k, inoP, StatesAt(ops, p, k, ino, x), PolAt(ops, p, k, pol));
    LastReplsMore(ops, p, |ops|, k);
    if i >= 0 {
      InoForgets(ops, i, k.fid, ino, inoP);
      InoForgets(ops, i, k.fid, inoP, ino);
      WalkSame(ops[i].states, inoP.nrepls, ino.nrepls);
      assert Settled(ops[i].states, inoP.nrepls, ino.nrepls) <==> Settled(ops[i].states, ino.nrepls, inoP.nrepls);
    }
  }

  /** A bmap whose states were replayed has those of the last change, except that within the
      replica table of that moment a replica being made (1) is queued again (2) and one being
      reclaimed (7) is garbage (6).  So it ends with a replica in flight exactly where that change
      has one beyond the table. */
  lemma InFlightIff(ops: seq<Op>, k: Key, ino: Ino, x: seq<nat>, j: nat)
    requires OpsOk(ops) && LastRepls(ops, |ops|, k) >= 0 && j < MAX_REPLICAS
    ensures var i := LastRepls(ops, |ops|, k);
            && |StatesAt(ops, |ops|, k, ino, x)| == MAX_REPLICAS
            && |ops[i].states| == MAX_REPLICAS
            && (InFlight(StatesAt(ops, |ops|, k, ino, x)[j])
                <==> InFlight(ops[i].states[j]) && InoAt(ops, i, k.fid, ino).nrepls <= j)
            && StatesAt(ops, |ops|, k, ino, x)[j] ==
               (if InoAt(ops, i, k.fid, ino).nrepls <= j then ops[i].states[j]
                else if ops[i].states[j] == 1 then 2 else if ops[i].states[j] == 7 then 6 else ops[i].states[j])
  {
    StatesAre(ops, |ops|, k, ino, x, 0);
    assert OpOk(ops[LastRepls(ops, |ops|, k)]);
  }

  // ----- CRCs -----

  function CrcIn(o: Op, k: Key, t: nat): Option<nat> {
    if o.BmapCrc? && o.key == k then CrcFor(o.crcs, t) else None
  }

  /** Change `i` sets the CRC of sliver `t`. */
  predicate Hit(ops: seq<Op>, i: nat, k: Key, t: nat, ino: Ino)
    requires OpsOk(ops) && i < |ops|
  {
    CrcIn(ops[i], k, t).Some? && Found(InoAt(ops, i, k.fid, ino), ops[i].ios)
  }

  function SliverAt(ops: seq<Op>, n: nat, k: Key, t: nat, ino: Ino, v: Sliver): Sliver
    requires OpsOk(ops) && n <= |ops|
  {
    if n == 0 then v
    else if Hit(ops, n - 1, k, t, ino) then Stamp(SliverAt(ops, n - 1, k, t, ino, v), CrcIn(ops[n - 1], k, t).value)
    else SliverAt(ops, n - 1, k, t, ino, v)
  }

  /** The last change in [from, n) that sets the CRC, or -1. */
  function LastHit(ops: seq<Op>, from: nat, n: nat, k: Key, t: nat, ino: Ino): int
    requires OpsOk(ops) && from <= n <= |ops|
    ensures LastHit(ops, from, n, k, t, ino) == -1 || from <= LastHit(ops, from, n, k, t, ino) < n
    ensures LastHit(ops, from, n, k, t, ino) >= 0 ==> Hit(ops, LastHit(ops, from, n, k, t, ino), k, t, ino)
    decreases n
  {
    if n == from then -1 else if Hit(ops, n - 1, k, t, ino) then n - 1 else LastHit(ops, from, n - 1, k, t, ino)
  }

  /** The value after the change found by LastHit(). */
  function Stamped(ops: seq<Op>, j: int, k: Key, t: nat, v: Sliver): Sliver
    requires j < |ops|
  {
    if j >= 0 && CrcIn(ops[j], k, t).Some? then Stamp(v, CrcIn(ops[j], k, t).value) else v
  }

  lemma {:induction false} SliverIs(ops: seq<Op>, from: nat, n: nat, k: Key, t: nat, ino: Ino, v: Sliver)
    requires OpsOk(ops) && from <= n <= |ops|
    ensures SliverAt(ops, n, k, t, ino, v)
            == Stamped(ops, LastHit(ops, from, n, k, t, ino), k, t, SliverAt(ops, from, k, t, ino, v))
    decreases n
  {
    if from < n {
      SliverIs(ops, from, n - 1, k, t, ino, v);
    }
  }

  /** The last update that is let through wins, and the sliver counts as having data and a
      CRC; without one nothing changes. */
  lemma LastUpdateWins(ops: seq<Op>, k: Key, t: nat, ino: Ino, v: Sliver)
    requires OpsOk(ops)
    ensures var r, j := SliverAt(ops, |ops|, k, t, ino, v), LastHit(ops, 0, |ops|, k, t, ino);
            if j < 0 then r == v
            else CrcIn(ops[j], k, t) == Some(r.crc) && r.data && r.hasCrc && r.rest == v.rest
  {
    SliverIs(ops, 0, |ops|, k, t, ino, v);
  }

  /** The place of the first change of the replica table, or `n`. */
  function FirstIno(ops: seq<Op>, n: nat, f: nat): (d: nat)
    requires n <= |ops|
    ensures d <= n && !HasIno(ops, d, f) && (d < n ==> IsIno(ops[d], f))
  {
    if n == 0 then 0 else
      var d := FirstIno(ops, n - 1, f);
      if d < n - 1 || IsIno(ops[d], f) then d else n
  }

  /** From that place on the start does not matter, before it is all that matters. */
  lemma {:induction false} HitForgets(ops: seq<Op>, i: nat, k: Key, t: nat, x: Ino, y: Ino)
    requires OpsOk(ops) && FirstIno(ops, |ops|, k.fid) <= i < |ops|
    ensures Hit(ops, i, k, t, x) <==> Hit(ops, i, k, t, y)
  {
    var d := FirstIno(ops, |ops|, k.fid);
    if d < i && ops[i].BmapCrc? {
      HasMore(ops, d + 1, i, k.fid);
      FoundForgets(ops, i, k.fid, x, y, ops[i].ios);
    }
  }

  lemma {:induction false} TailForgets(ops: seq<Op>, n: nat, k: Key, t: nat, x: Ino, y: Ino)
    requires OpsOk(ops) && FirstIno(ops, |ops|, k.fid) <= n <= |ops|
    ensures var d := FirstIno(ops, |ops|, k.fid);
            LastHit(ops, d, n, k, t, x) == LastHit(ops, d, n, k, t, y)
  {
    if FirstIno(ops, |ops|, k.fid) < n {
      HitForgets(ops, n - 1, k, t, x, y);
      TailForgets(ops, n - 1, k, t, x, y);
    }
  }

  lemma {:induction false} LastHitMore(ops: seq<Op>, from: nat, p: nat, n: nat, k: Key, t: nat, ino: Ino)
    requires OpsOk(ops) && from <= p <= n <= |ops|
    ensures LastHit(ops, from, p, k, t, ino) <= LastHit(ops, from, n, k, t, ino)
    decreases n
  {
    if p < n {
      LastHitMore(ops, from, p, n - 1, k, t, ino);
    }
  }

  /** The last of the first `n` changes with a CRC for the sliver from a server in `table`, or
      -1; nothing is replayed to find it. */
  function LastFrom(ops: seq<Op>, n: nat, k: Key, t: nat, table: Ino): int
    requires n <= |ops|
    ensures -1 <= LastFrom(ops, n, k, t, table) < n
    ensures LastFrom(ops, n, k, t, table) >= 0 ==> CrcIn(ops[LastFrom(ops, n, k, t, table)], k, t).Some?
  {
    if n == 0 then -1
    else if CrcIn(ops[n - 1], k, t).Some? && Found(table, ops[n - 1].ios) then n - 1
    else LastFrom(ops, n - 1, k, t, table)
  }

  /** Before the first change of the table it is the one at the start that counts. */
  lemma {:induction false} HeadHits(ops: seq<Op>, n: nat, k: Key, t: nat, table: Ino)
    requires OpsOk(ops) && n <= FirstIno(ops, |ops|, k.fid)
    ensures LastHit(ops, 0, n, k, t, table) == LastFrom(ops, n, k, t, table)
  {
    if n > 0 {
      HeadHits(ops, n - 1, k, t, table);
      HasMore(ops, n - 1, FirstIno(ops, |ops|, k.fid), k.fid);
      InoForgets(ops, n - 1, k.fid, table, table);
    }
  }

  /** A prefix that reaches a change of the replica table changes the lookups of the CRC updates
      before the first such change.  That does no harm if a later update sets the CRC anyway;
      otherwise the last update from a server in the new table must carry the CRC of the last
      one from a server in the old table, or the one that was there if there is none. */
  predicate SliverSafe(ops: seq<Op>, p: nat, k: Key, t: nat, ino: Ino, v: Sliver)
    requires OpsOk(ops) && p <= |ops|
  {
    var d := FirstIno(ops, |ops|, k.fid);
    || p <= d || LastHit(ops, d, |ops|, k, t, ino) >= 0
    || var i, j := LastFrom(ops, d, k, t, ino), LastFrom(ops, d, k, t, InoAt(ops, p, k.fid, ino));
       j < 0 || (if i >= 0 then CrcIn(ops[j], k, t) == CrcIn(ops[i], k, t)
                 else v == Stamp(v, CrcIn(ops[j], k, t).value))
  }

  /** The prefix ends before the first change of the table. */
  lemma SliverEarly(ops: seq<Op>, p: nat, k: Key, t: nat, ino: Ino, v: Sliver)
    requires OpsOk(ops) && p <= FirstIno(ops, |ops|, k.fid)
    ensures SliverAt(ops, |ops|, k, t, InoAt(ops, p, k.fid, ino), SliverAt(ops, p, k, t, ino, v))
            == SliverAt(ops, |ops|, k, t, ino, v)
  {
    HasMore(ops, p, FirstIno(ops, |ops|, k.fid), k.fid);
    InoForgets(ops, p, k.fid, ino, ino);
    SliverIs(ops, 0, |ops|, k, t, ino, v);
    SliverIs(ops, 0, |ops|, k, t, ino, SliverAt(ops, p, k, t, ino, v));
    SliverIs(ops, 0, p, k, t, ino, v);
    LastHitMore(ops, 0, p, |ops|, k, t, ino);
  }

  lemma SliverConvergesIff(ops: seq<Op>, p: nat, k: Key, t: nat, ino: Ino, v: Sliver)
    requires OpsOk(ops) && p <= |ops|
    ensures SliverAt(ops, |ops|, k, t, InoAt(ops, p, k.fid, ino), SliverAt(ops, p, k, t, ino, v))
            == SliverAt(ops, |ops|, k, t, ino, v)
            <==> SliverSafe(ops, p, k, t, ino, v)
  {
    var d, n, inoP := FirstIno(ops, |ops|, k.fid), |ops|, InoAt(ops, p, k.fid, ino);
    if p <= d {
      SliverEarly(ops, p, k, t, ino, v);
    } else {
      var vP := SliverAt(ops, p, k, t, ino, v);
      SliverIs(ops, d, n, k, t, ino, v);
      SliverIs(ops, d, p, k, t, ino, v);
      SliverIs(ops, d, n, k, t, inoP, vP);
      SliverIs(ops, 0, d, k, t, inoP, vP);
      SliverIs(ops, 0, d, k, t, ino, v);
      HeadHits(ops, d, k, t, ino);
      HeadHits(ops, d, k, t, inoP);
      TailForgets(ops, n, k, t, ino, inoP);
      LastHitMore(ops, d, p, n, k, t, ino);
      if LastHit(ops, d, n, k, t, ino) >= 0 {
        RestKept(ops, d, k, t, ino, v);
        RestKept(ops, d, k, t, inoP, vP);
        RestKept(ops, p, k, t, ino, v);
      }
    }
  }

  lemma {:induction false} RestKept(ops: seq<Op>, n: nat, k: Key, t: nat, ino: Ino, v: Sliver)
    requires OpsOk(ops) && n <= |ops|
    ensures SliverAt(ops, n, k, t, ino, v).rest == v.rest
  {
    if n > 0 {
      RestKept(ops, n - 1, k, t, ino, v);
    }
  }
}
