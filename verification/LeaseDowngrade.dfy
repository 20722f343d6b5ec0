/** A DIO downgrade in progress: from the request that has to wait until every other client
    has acknowledged (BMAPF_DIOCB, slashd/mds.c). */
module LeaseDowngrade {
  import opened Common
  import opened BmapLease
  import opened LeaseCounts
  import opened LeaseProtocol
  import opened LeaseSafety
  import opened LeaseLifetime
  import opened LeaseWitness

  // ----- What a request does to the mode -----

  /** Clients other than `c` have leases. */
  ghost predicate Crowded(b: Bmap, c: Client) {
    b.rings.Keys - {c} != {}
  }

  lemma CrowdedIff(b: Bmap, c: Client)
    requires RingsOk(b)
    ensures Crowded(b, c) <==> exists l :: l in b.rec && Foreign(b, c, l)
  {
    if Crowded(b, c) {
      var d :| d in b.rings.Keys - {c};
      assert RingOk(b, d);
      assert b.rings[d][0] in b.rings[d] && Foreign(b, c, b.rings[d][0]);
    }
    forall l | l in b.rec && Foreign(b, c, l) ensures b.rec[l].client in b.rings.Keys - {c} {
      assert OnRing(b, l);
    }
  }

  /** A request that need not wait leaves the bmap in DIO mode exactly if it was, if DIO is asked
      for, if a downgrade is in progress, or if other clients have leases and somebody writes or
      is about to while somebody reads. */
  lemma DioEnteredIff(b: Bmap, c: Client, write: bool, want: bool)
    requires RingsOk(b) && CountsOk(b)
    ensures var b1 := Directio(b, c, write, want);
            b1.dio <==>
              b.dio || (!Waits(b, c, write, want)
                        && (want || b.diocb
                            || (Crowded(b, c) && (Writers(b) != {} || (write && Readers(b) != {})))))
  {
    CrowdedIff(b, c);
  }

  /** The bmap is marked as being downgraded exactly as long as DIO mode is not entered: if it
      was, or if the request waits for a client that has not been asked before. */
  lemma DowngradeBegunIff(b: Bmap, c: Client, write: bool, want: bool)
    requires !(b.dio && b.diocb)
    ensures var b1 := Directio(b, c, write, want);
            b1.diocb <==> !b1.dio && (b.diocb || (Waits(b, c, write, want)
                                      && exists l :: l in b.rec && Blocking(b, c, l) && !b.rec[l].diocb))
  {
  }

  /** A request that waits holds back every later one of a client `d` that is not alone to
      acknowledge, whatever it asks for, exactly if somebody writes, if a downgrade was already
      in progress, or if a client was asked for the first time. */
  lemma DowngradeHoldsIff(b: Bmap, c: Client, write: bool, want: bool, d: Client)
    requires Waits(b, c, write, want)
    ensures var b1 := Directio(b, c, write, want);
            (forall w, v :: Waits(b1, d, w, v)) <==>
              && (exists l :: l in b.rec && Blocking(b, d, l))
              && (b.writers != 0 || b.diocb || exists l :: l in b.rec && Blocking(b, c, l) && !b.rec[l].diocb)
  {
    var b1 := Directio(b, c, write, want);
    assert forall l :: l in b.rec ==> (Blocking(b1, d, l) <==> Blocking(b, d, l));
    if forall w, v :: Waits(b1, d, w, v) {
      assert Waits(b1, d, false, false);
    }
  }

  // ----- Over runs -----

  ghost predicate Exclusive(b: Bmap) {
    !(b.dio && b.diocb)
  }

  lemma ReleaseExclusive(s: Sys, l: LeaseId, drains: bool)
    requires l in s.b.rec && Exclusive(s.b)
    ensures Exclusive(ReleaseSys(s, l, drains).b)
  {
  }

  lemma StepExclusive(s: Sys, e: Event)
    requires Enabled(s, e) && Exclusive(s.b)
    ensures Exclusive(Apply(s, e).b)
  {
    match e
    case Put(l, drains) => ReleaseExclusive(s, l, drains);
    case PutExpired(drains) => ReleaseExclusive(s, s.expiring.value, drains);
    case GrantRead(l, n) => GrantExclusive(s, l, n);
    case GrantWrite(l) => GrantExclusive(s, l, 0);
    case GrantWriteEnd(l, o, drains) =>
      BindMode(s.b, l, o);
      ReleaseExclusive(GrantEnd(s, l, o), l, drains);
    case UpgradeEnd(l, o) => BindMode(s.b, l, o);
    case _ =>
  }

  lemma BindMode(b: Bmap, l: LeaseId, o: Outcome)
    requires CanBind(b, l, o)
    ensures Bind(b, l, o).dio == b.dio && Bind(b, l, o).diocb == b.diocb
  {
  }

  lemma GrantExclusive(s: Sys, l: LeaseId, n: nat)
    requires l in s.b.rec && Exclusive(s.b)
    ensures Exclusive(Grant(s, l, n).b)
  {
    var r := s.b.rec[l];
    DowngradeBegunIff(s.b, r.client, r.write, r.dio);
    if Waits(s.b, r.client, r.write, r.dio) {
      ReleaseExclusive(Condemn(s.(b := Directio(s.b, r.client, r.write, r.dio)), l), l, false);
    }
  }

  /** A bmap is never in DIO mode and on its way there. */
  lemma {:induction false} NeverBoth(tr: seq<Sys>, ev: seq<Event>, i: nat)
    requires IsRun(tr, ev) && i <= |ev|
    ensures !(tr[i].b.dio && tr[i].b.diocb)
  {
    if i > 0 {
      NeverBoth(tr, ev, i - 1);
      StepExclusive(tr[i - 1], ev[i - 1]);
    }
  }

  /** Lease `m` is not granted by the step, and no upgrade of it starts. */
  ghost predicate HeldBack(s: Sys, s': Sys, m: LeaseId) {
    && (Linked(s', m) ==> Linked(s, m))
    && (s'.b.barrier == Upgrading(m) ==> s.b.barrier == Upgrading(m))
  }

  lemma ReleaseHolds(s: Sys, x: LeaseId, drains: bool, m: LeaseId)
    requires x in s.b.rec
    ensures HeldBack(s, ReleaseSys(s, x, drains), m)
  {
    ReleaseRec(s.b, x);
  }

  lemma GrantHolds(s: Sys, x: LeaseId, n: nat, m: LeaseId)
    requires x in s.b.rec && (x == m ==> Waits(s.b, s.b.rec[x].client, s.b.rec[x].write, s.b.rec[x].dio))
    ensures HeldBack(s, Grant(s, x, n), m)
  {
    var r := s.b.rec[x];
    var s1 := s.(b := Directio(s.b, r.client, r.write, r.dio));
    DirectioSimilar(s.b, r.client, r.write, r.dio);
    if Waits(s.b, r.client, r.write, r.dio) {
      ReleaseHolds(Condemn(s1, x), x, false, m);
    } else {
      AddRec(s1.b, x, n);
    }
  }

  lemma UpgradeHolds(s: Sys, x: LeaseId, m: LeaseId)
    requires x in s.b.rec && (x == m ==> Waits(s.b, s.b.rec[x].client, true, false))
    ensures HeldBack(s, UpgradeBegin(s, x), m)
  {
    DirectioSimilar(s.b, s.b.rec[x].client, true, false);
  }

  lemma GrantEndHolds(s: Sys, x: LeaseId, o: Outcome, drains: bool, m: LeaseId)
    requires CanBind(s.b, x, o)
    ensures HeldBack(s, if Succeeds(o) then GrantEnd(s, x, o) else ReleaseSys(GrantEnd(s, x, o), x, drains), m)
  {
    BindSimilar(s.b, x, o);
    ReleaseHolds(GrantEnd(s, x, o), x, drains, m);
  }

  lemma UpgradeEndHolds(s: Sys, x: LeaseId, o: Outcome, m: LeaseId)
    requires CanBind(s.b, x, o)
    ensures HeldBack(s, UpgradeFinish(s, x, o), m)
  {
    BindSimilar(s.b, x, o);
  }

  lemma LocalHolds(s: Sys, e: Event, m: LeaseId)
    requires Enabled(s, e) && (FlagStep(e) || e.New? || e.Reassign? || e.ReassignEnd? || e.Drained?)
    ensures HeldBack(s, Apply(s, e), m)
  {
  }

  /** While a downgrade is in progress and lease `l` has not acknowledged, no other client is
      given a lease or starts to upgrade one. */
  lemma DowngradeGrants(s: Sys, e: Event, l: LeaseId, m: LeaseId)
    requires Enabled(s, e) && s.b.diocb && !s.b.dio && Linked(s, l) && !s.b.rec[l].dio
    requires m in s.b.rec && s.b.rec[m].client != s.b.rec[l].client
    ensures Linked(Apply(s, e), m) ==> Linked(s, m)
    ensures Apply(s, e).b.barrier == Upgrading(m) ==> s.b.barrier == Upgrading(m)
  {
    assert Blocking(s.b, s.b.rec[m].client, l);
    match e
    case Put(x, drains) => ReleaseHolds(s, x, drains, m);
    case PutExpired(drains) => ReleaseHolds(s, s.expiring.value, drains, m);
    case GrantRead(x, n) => GrantHolds(s, x, n, m);
    case GrantWrite(x) => GrantHolds(s, x, 0, m);
    case GrantWriteEnd(x, o, drains) => GrantEndHolds(s, x, o, drains, m);
    case UpgradeEnd(x, o) => UpgradeEndHolds(s, x, o, m);
    case Upgrade(x) => UpgradeHolds(s, x, m);
    case _ => LocalHolds(s, e, m);
  }

  // ----- How it ends -----

  /** A lease of the bmap goes with the step. */
  ghost predicate LeaseGoes(s: Sys, s': Sys) {
    exists l :: l in s.b.rec && s.b.rec[l].linked && l !in s'.b.rec
  }

  /** Nobody writes, or one client is left. */
  ghost predicate Harmless(b: Bmap) {
    Writers(b) == {} || |b.rings| == 1
  }

  ghost predicate Lasts(s: Sys, s': Sys) {
    s'.b.diocb <==> !s'.b.dio && !(LeaseGoes(s, s') && Harmless(s'.b))
  }

  lemma StaysLasts(s: Sys, s': Sys)
    requires s'.b.diocb == !s'.b.dio && forall l :: l in s.b.rec && s.b.rec[l].linked ==> l in s'.b.rec
    ensures Lasts(s, s')
  {
  }

  lemma GoneLasts(s: Sys, l: LeaseId, drains: bool)
    requires BmapOk(s.b) && l in s.b.rec && s.b.rec[l].linked && LastRef(s.b, l) && s.b.diocb && !s.b.dio
    ensures Lasts(s, ReleaseSys(s, l, drains))
  {
    var s' := ReleaseSys(s, l, drains);
    ReleaseOk(s.b, l);
    CountsCover(s'.b);
    assert l !in s'.b.rec by {
      ReleaseRec(s.b, l);
    }
    assert s'.b.writers == Unlink(s.b, l).writers && s'.b.readers == Unlink(s.b, l).readers;
  }

  lemma ReleaseLasts(s: Sys, l: LeaseId, drains: bool)
    requires BmapOk(s.b) && l in s.b.rec && s.b.diocb && !s.b.dio
    ensures Lasts(s, ReleaseSys(s, l, drains))
  {
    if LastRef(s.b, l) && s.b.rec[l].linked {
      GoneLasts(s, l, drains);
    } else {
      ReleaseRec(s.b, l);
      StaysLasts(s, ReleaseSys(s, l, drains));
    }
  }

  lemma GrantLasts(s: Sys, l: LeaseId, n: nat)
    requires l in s.b.rec && !s.b.rec[l].linked && s.b.diocb && !s.b.dio
    ensures Lasts(s, Grant(s, l, n))
  {
    var r := s.b.rec[l];
    var s1 := s.(b := Directio(s.b, r.client, r.write, r.dio));
    DirectioSimilar(s.b, r.client, r.write, r.dio);
    if Waits(s.b, r.client, r.write, r.dio) {
      ReleaseRec(Condemn(s1, l).b, l);
      StaysLasts(s, ReleaseSys(Condemn(s1, l), l, false));
    } else {
      AddRec(s1.b, l, n);
      StaysLasts(s, Grant(s, l, n));
    }
  }

  lemma GrantEndLasts(s: Sys, l: LeaseId, o: Outcome, drains: bool)
    requires BmapOk(s.b) && CanBind(s.b, l, o) && s.b.diocb && !s.b.dio
    ensures Lasts(s, if Succeeds(o) then GrantEnd(s, l, o) else ReleaseSys(GrantEnd(s, l, o), l, drains))
  {
    BindSimilar(s.b, l, o);
    BindMode(s.b, l, o);
    var s1 := s.(b := Bind(s.b, l, o).(barrier := Open));
    SimilarOk(s.b, s1.b);
    if Succeeds(o) {
      StaysLasts(s, s1);
    } else {
      CondemnedLasts(s1, l, drains);
      GoesSimilar(s, s1, ReleaseSys(Condemn(s1, l), l, drains));
    }
  }

  lemma CondemnedLasts(s: Sys, l: LeaseId, drains: bool)
    requires BmapOk(s.b) && l in s.b.rec && s.b.diocb && !s.b.dio
    ensures Lasts(s, ReleaseSys(Condemn(s, l), l, drains))
  {
    SetRecOk(s.b, l, s.b.rec[l].(freeing := true));
    ReleaseLasts(Condemn(s, l), l, drains);
    GoesSimilar(s, Condemn(s, l), ReleaseSys(Condemn(s, l), l, drains));
  }

  lemma GoesSimilar(s: Sys, s1: Sys, s': Sys)
    requires s1.b.rec.Keys == s.b.rec.Keys && forall l :: l in s.b.rec ==> s1.b.rec[l].linked == s.b.rec[l].linked
    requires Lasts(s1, s')
    ensures Lasts(s, s')
  {
  }

  /** A downgrade in progress ends exactly when DIO mode is entered, or when a lease goes and
      leaves nobody writing or a single client. */
  lemma DowngradeEndsIff(s: Sys, e: Event)
    requires Inv(s) && Enabled(s, e) && s.b.diocb && !s.b.dio
    ensures Lasts(s, Apply(s, e))
  {
    match e
    case Put(l, drains) => ReleaseLasts(s, l, drains);
    case PutExpired(drains) => ReleaseLasts(s, s.expiring.value, drains);
    case GrantRead(l, n) => GrantLasts(s, l, n);
    case GrantWrite(l) => GrantLasts(s, l, 0);
    case GrantWriteEnd(l, o, drains) => GrantEndLasts(s, l, o, drains);
    case UpgradeEnd(l, o) =>
      BindSimilar(s.b, l, o);
      BindMode(s.b, l, o);
    case _ => LocalLasts(s, e);
  }

  lemma LocalLasts(s: Sys, e: Event)
    requires Enabled(s, e) && s.b.diocb && !s.b.dio
    requires FlagStep(e) || e.New? || e.Reassign? || e.ReassignEnd? || e.Drained? || e.Upgrade?
    ensures Lasts(s, Apply(s, e))
  {
  }

  // ----- A downgrade that is forgotten -----

  const D := Client(2, 1)
  const E := Client(3, 1)
  const ASKED := READ.(diocb := true)

  /** Read leases 1 of client C and 2 of client D. */
  ghost function Pair(r1: Rec, r2: Rec, diocb: bool, freed: set<LeaseId>): Sys {
    Sys(Bmap(map[1 := r1, 2 := r2], map[C := [1], D := [2]], 2, 0, false, diocb, Open, false, None, None, 0),
        multiset{1, 2}, None, freed)
  }

  ghost function One(freed: set<LeaseId>): Sys {
    Sys(Bmap(map[1 := ASKED], map[C := [1]], 1, 0, false, false, Open, false, None, None, 0),
        multiset{1}, None, freed)
  }

  lemma Reads(s: Sys, l: LeaseId, c: Client, n: nat)
    requires l !in s.b.rec && l !in s.freed && s.b.barrier.Open? && c !in s.b.rings
    requires !s.b.diocb && s.b.writers == 0
    ensures Enabled(s, New(l, c, false, false))
    ensures var s1 := Apply(s, New(l, c, false, false));
            && Enabled(s1, GrantRead(l, n))
            && Apply(s1, GrantRead(l, n)) ==
               s.(b := s.b.(rec := s.b.rec[l := Rec(c, false, false, false, 1, false, false, true, n, 0)],
                            rings := s.b.rings[c := [l]], readers := s.b.readers + 1),
                  held := s.held + multiset{l})
  {
    var s1 := Apply(s, New(l, c, false, false));
    assert !Waits(s1.b, c, false, false);
    assert Ring(s1.b, c) + [l] == [l];
  }

  const READ2 := READ.(client := D, seqno := 6)

  /** Client E asks for a write lease and has to wait for the readers. */
  lemma PairWaits(s: Sys)
    requires s == Pair(READ, READ2, false, {})
    ensures Enabled(s, New(3, E, true, false))
    ensures var s1 := Apply(s, New(3, E, true, false));
            && Enabled(s1, GrantWrite(3)) && Asserts(s1, GrantWrite(3))
            && Apply(s1, GrantWrite(3)) == Pair(ASKED, READ2.(diocb := true), true, {3})
  {
    var s1 := Apply(s, New(3, E, true, false));
    assert Blocking(s1.b, E, 1) && Blocking(s1.b, E, 2) && !Blocking(s1.b, E, 3);
    var b1 := Directio(s1.b, E, true, false);
    assert b1.rec - {3} == map[1 := ASKED, 2 := READ2.(diocb := true)];
  }

  lemma PairLeaves(s: Sys)
    requires s == Pair(ASKED, READ2.(diocb := true), true, {3})
    ensures Enabled(s, MarkFreeing(2))
    ensures var s1 := Apply(s, MarkFreeing(2));
            && Enabled(s1, Put(2, false)) && Asserts(s1, Put(2, false))
            && Apply(s1, Put(2, false)) == One({2, 3})
  {
    var s1 := Apply(s, MarkFreeing(2));
    assert CountW([2], s1.b.rec) == 0 && Remove([2], 2) == [];
    assert s1.b.rings - {D} == map[C := [1]];
    assert s1.b.rec - {2} == map[1 := ASKED];
  }

  lemma OneWaits(s: Sys)
    requires s == One({2, 3})
    ensures Enabled(s, New(4, E, true, false))
    ensures var s1 := Apply(s, New(4, E, true, false));
            && Enabled(s1, GrantWrite(4)) && Asserts(s1, GrantWrite(4))
            && Waits(s1.b, E, true, false) && Apply(s1, GrantWrite(4)) == One({2, 3, 4})
  {
    var s1 := Apply(s, New(4, E, true, false));
    assert Blocking(s1.b, E, 1) && !Blocking(s1.b, E, 4);
    assert Directio(s1.b, E, true, false).rec - {4} == map[1 := ASKED];
  }

  lemma AskedRun() returns (tr: seq<Sys>, ev: seq<Event>)
    ensures IsRun(tr, ev) && tr[|ev|] == Pair(ASKED, READ2.(diocb := true), true, {3})
  {
    tr, ev := [EMPTY], [];
    Reads(EMPTY, 1, C, 5);
    tr, ev := Extend(tr, ev, New(1, C, false, false));
    tr, ev := Extend(tr, ev, GrantRead(1, 5));
    Reads(tr[|ev|], 2, D, 6);
    tr, ev := Extend(tr, ev, New(2, D, false, false));
    tr, ev := Extend(tr, ev, GrantRead(2, 6));
    assert tr[|ev|] == Pair(READ, READ2, false, {});
    PairWaits(tr[|ev|]);
    tr, ev := Extend(tr, ev, New(3, E, true, false));
    tr, ev := Extend(tr, ev, GrantWrite(3));
  }

  lemma ForgottenRun() returns (tr: seq<Sys>, ev: seq<Event>)
    ensures IsRun(tr, ev) && tr[|ev|] == One({2, 3})
  {
    tr, ev := AskedRun();
    PairLeaves(tr[|ev|]);
    tr, ev := Extend(tr, ev, MarkFreeing(2));
    tr, ev := Extend(tr, ev, Put(2, false));
  }

  lemma Overtakes(s: Sys)
    requires s == One({2, 3, 4})
    ensures Enabled(s, New(5, D, false, false))
    ensures var s1 := Apply(s, New(5, D, false, false));
            && Enabled(s1, GrantRead(5, 7)) && Linked(Apply(s1, GrantRead(5, 7)), 5)
  {
    Reads(s, 5, D, 7);
  }

  /** A downgrade is forgotten when a reader leaves, but the remaining client keeps the mark of
      having been asked.  The next request of the writer waits for it, and asks nobody; then a
      reader that comes after the writer gets its lease at once. */
  lemma ForgottenDowngrade() returns (tr: seq<Sys>, ev: seq<Event>)
    ensures IsRun(tr, ev) && Enabled(tr[|ev|], New(4, E, true, false))
    ensures var s1 := Apply(tr[|ev|], New(4, E, true, false));
            && Enabled(s1, GrantWrite(4)) && Asserts(s1, GrantWrite(4)) && Waits(s1.b, E, true, false)
            && var s2 := Apply(s1, GrantWrite(4));
               && Linked(s2, 1) && s2.b.rec[1].client == C && !s2.b.rec[1].dio
               && Enabled(s2, New(5, D, false, false))
               && var s3 := Apply(s2, New(5, D, false, false));
                  Enabled(s3, GrantRead(5, 7)) && Linked(Apply(s3, GrantRead(5, 7)), 5)
  {
    tr, ev := ForgottenRun();
    OneWaits(tr[|ev|]);
    Overtakes(One({2, 3, 4}));
  }
}
