/** Leases are freed once, never under a thread that still refers to them; and the safety
    theorems over whole runs. */
module LeaseLifetime {
  import opened Common
  import opened BmapLease
  import opened LeaseCounts
  import opened LeaseProtocol
  import opened LeaseSafety

  ghost predicate SameRef(r: Rec, r': Rec) {
    r'.refcnt == r.refcnt && r'.linked == r.linked && r'.freeing == r.freeing
  }

  /** Only lease `l` changes; what happens to it is in order. */
  ghost predicate RefChange(s: Sys, s': Sys, l: LeaseId) {
    && (forall m :: m != l ==> (m in s.b.rec <==> m in s'.b.rec) && s'.held[m] == s.held[m])
    && (forall m :: m in s.b.rec && m != l && m in s'.b.rec ==> SameRef(s.b.rec[m], s'.b.rec[m]))
    && (if l in s'.b.rec then RefOk(s', l) && l !in s'.freed else s'.held[l] == 0)
    && s'.freed - {l} == s.freed - {l}
    && (s'.expiring == s.expiring || (s.expiring.None? && s'.expiring == Some(l))
        || (s.expiring == Some(l) && s'.expiring.None?))
    && (s'.expiring == Some(l) ==> l in s'.b.rec && s'.b.rec[l].freeing && s'.b.rec[l].refcnt == 0)
  }

  lemma RefChangeOk(s: Sys, s': Sys, l: LeaseId)
    requires RefsOk(s) && RefChange(s, s', l)
    ensures RefsOk(s')
  {
    forall m | m in s'.b.rec ensures RefOk(s', m) && m !in s'.freed {
      if m != l {
        assert RefOk(s, m) && SameRef(s.b.rec[m], s'.b.rec[m]);
        assert m !in s'.freed - {l};
      }
    }
    forall m | m in s'.held ensures m in s'.b.rec {
      assert m != l ==> m in s.held;
    }
    if s'.expiring.Some? && s'.expiring != Some(l) {
      var x := s'.expiring.value;
      assert SameRef(s.b.rec[x], s'.b.rec[x]);
    }
  }

  /** A record changes outside the reference count and the freeing mark. */
  lemma RefSet(s: Sys, s': Sys, l: LeaseId, r: Rec)
    requires RefsOk(s) && l in s.b.rec && s'.b.rec == s.b.rec[l := r]
    requires s'.held == s.held && s'.expiring == s.expiring && s'.freed == s.freed
    requires r.refcnt == s.b.rec[l].refcnt && r.freeing == s.b.rec[l].freeing
    requires r.linked || r.linked == s.b.rec[l].linked
    ensures RefsOk(s')
  {
    assert RefOk(s, l);
    RefChangeOk(s, s', l);
  }

  lemma RefSimilarOk(s: Sys, s': Sys)
    requires RefsOk(s) && Similar(s.b, s'.b)
    requires s'.held == s.held && s'.expiring == s.expiring && s'.freed == s.freed
    ensures RefsOk(s')
  {
    forall m | m in s'.b.rec ensures RefOk(s', m) {
      assert RefOk(s, m);
    }
  }

  lemma ReleaseRec(b: Bmap, l: LeaseId)
    requires l in b.rec
    ensures var b' := Release(b, l);
            if LastRef(b, l) then b'.rec == b.rec - {l}
            else b'.rec == b.rec[l := b.rec[l].(refcnt := b.rec[l].refcnt - 1)]
  {
  }

  lemma ReleaseRefs(s: Sys, l: LeaseId, drains: bool)
    requires RefsOk(s) && l in s.b.rec
    requires l in s.held || s.expiring == Some(l)
    requires s.b.rec[l].linked || LastRef(s.b, l)
    ensures RefsOk(ReleaseSys(s, l, drains))
  {
    var s' := ReleaseSys(s, l, drains);
    ReleaseRec(s.b, l);
    assert RefOk(s, l);
    assert s.expiring == Some(l) ==> LastRef(s.b, l);
    RefChangeOk(s, s', l);
  }

  lemma CondemnRefs(s: Sys, l: LeaseId)
    requires RefsOk(s) && l in s.b.rec && l in s.held
    ensures RefsOk(Condemn(s, l))
  {
    assert RefOk(s, l);
    RefChangeOk(s, Condemn(s, l), l);
  }

  lemma WaitRefs(s: Sys, l: LeaseId)
    requires RefsOk(s) && l in s.b.rec && l in s.held && !s.b.rec[l].linked
    ensures RefsOk(ReleaseSys(Condemn(s, l), l, false))
  {
    assert RefOk(s, l);
    CondemnRefs(s, l);
    ReleaseRefs(Condemn(s, l), l, false);
  }

  lemma AddRec(b: Bmap, l: LeaseId, n: nat)
    requires l in b.rec
    ensures AddWrite(b, l).rec == b.rec[l := LinkRec(b.rec[l], b.rec[l].seqno)]
    ensures AddRead(b, l, n).rec == b.rec[l := LinkRec(b.rec[l], n)]
  {
  }

  lemma GrantRefs(s: Sys, l: LeaseId, n: nat)
    requires RefsOk(s) && l in s.b.rec && l in s.held && !s.b.rec[l].linked
    ensures RefsOk(Grant(s, l, n))
  {
    var r := s.b.rec[l];
    var s1 := s.(b := Directio(s.b, r.client, r.write, r.dio));
    DirectioSimilar(s.b, r.client, r.write, r.dio);
    RefSimilarOk(s, s1);
    if Waits(s.b, r.client, r.write, r.dio) {
      WaitRefs(s1, l);
    } else {
      AddRec(s1.b, l, n);
      RefSet(s1, Grant(s, l, n), l, Grant(s, l, n).b.rec[l]);
    }
  }

  lemma BindRefs(s: Sys, l: LeaseId, o: Outcome)
    requires RefsOk(s) && CanBind(s.b, l, o)
    ensures RefsOk(s.(b := Bind(s.b, l, o).(barrier := Open)))
  {
    BindSimilar(s.b, l, o);
    RefSimilarOk(s, s.(b := Bind(s.b, l, o).(barrier := Open)));
  }

  lemma GrantFailRefs(s: Sys, l: LeaseId, o: Outcome, drains: bool)
    requires RefsOk(s) && CanBind(s.b, l, o) && l in s.held && s.b.rec[l].linked && !Succeeds(o)
    ensures RefsOk(ReleaseSys(GrantEnd(s, l, o), l, drains))
  {
    BindRefs(s, l, o);
    CondemnRefs(s.(b := Bind(s.b, l, o).(barrier := Open)), l);
    ReleaseRefs(GrantEnd(s, l, o), l, drains);
  }

  lemma GrantEndRefs(s: Sys, l: LeaseId, o: Outcome, drains: bool)
    requires RefsOk(s) && CanBind(s.b, l, o) && l in s.held && s.b.rec[l].linked
    ensures RefsOk(if Succeeds(o) then GrantEnd(s, l, o) else ReleaseSys(GrantEnd(s, l, o), l, drains))
  {
    if Succeeds(o) {
      BindRefs(s, l, o);
    } else {
      GrantFailRefs(s, l, o, drains);
    }
  }

  lemma UpgradeRefs(s: Sys, l: LeaseId, o: Outcome)
    requires RefsOk(s) && CanBind(s.b, l, o)
    ensures RefsOk(UpgradeFinish(s, l, o))
  {
    BindRefs(s, l, o);
    var s1 := s.(b := Bind(s.b, l, o).(barrier := Open));
    RefSet(s1, UpgradeFinish(s, l, o), l, UpgradeFinish(s, l, o).b.rec[l]);
  }

  lemma NewRefs(s: Sys, e: Event)
    requires RefsOk(s) && Enabled(s, e) && e.New?
    ensures RefsOk(Apply(s, e))
  {
    assert e.l !in s.held;
    RefChangeOk(s, Apply(s, e), e.l);
  }

  lemma GetRefs(s: Sys, e: Event)
    requires RefsOk(s) && Enabled(s, e) && (e.GetBml? || e.Expire?)
    ensures RefsOk(Apply(s, e))
  {
    assert RefOk(s, e.l);
    if e.Expire? || !s.b.rec[e.l].freeing {
      RefChangeOk(s, Apply(s, e), e.l);
    }
  }

  lemma ReassignRefs(s: Sys, l: LeaseId, t: Option<(nat, nat)>)
    requires RefsOk(s) && l in s.b.rec
    ensures RefsOk(ReassignFinish(s, l, t))
  {
    if t.Some? {
      RefSet(s, ReassignFinish(s, l, t), l, ReassignFinish(s, l, t).b.rec[l]);
    }
  }

  /** Every event keeps the reference counts. */
  lemma StepRefs(s: Sys, e: Event)
    requires Inv(s) && Enabled(s, e)
    ensures RefsOk(Apply(s, e))
  {
    match e
    case GrantRead(l, n) => GrantRefs(s, l, n);
    case GrantWrite(l) => GrantRefs(s, l, 0);
    case GrantWriteEnd(l, o, drains) => GrantEndRefs(s, l, o, drains);
    case UpgradeEnd(l, o) => UpgradeRefs(s, l, o);
    case ReassignEnd(l, t) => ReassignRefs(s, l, t);
    case Put(l, drains) => ReleaseRefs(s, l, drains);
    case PutExpired(drains) => ReleaseRefs(s, s.expiring.value, drains);
    case _ => LocalRefs(s, e);
  }

  lemma UpgradeBeginRefs(s: Sys, l: LeaseId)
    requires RefsOk(s) && l in s.b.rec
    ensures RefsOk(UpgradeBegin(s, l))
  {
    DirectioSimilar(s.b, s.b.rec[l].client, true, false);
    RefSimilarOk(s, UpgradeBegin(s, l));
  }

  lemma LocalRefs(s: Sys, e: Event)
    requires RefsOk(s) && Enabled(s, e)
    requires e.New? || FlagStep(e) || e.Upgrade? || e.Reassign? || e.Drained?
    ensures RefsOk(Apply(s, e))
  {
    if e.New? {
      NewRefs(s, e);
    } else if e.GetBml? || e.Expire? {
      GetRefs(s, e);
    } else if e.MarkFreeing? {
      CondemnRefs(s, e.l);
    } else if e.Ack? {
      RefSet(s, Apply(s, e), e.l, s.b.rec[e.l].(dio := true, diocb := false));
    } else if e.Upgrade? {
      UpgradeBeginRefs(s, e.l);
    } else {
      RefSimilarOk(s, Apply(s, e));
    }
  }

  // ----- The barrier -----

  lemma BarrierKept(s: Sys, s': Sys)
    requires BarrierOk(s) && s'.b.barrier == s.b.barrier
    requires s'.b.rings == s.b.rings && s'.b.dio == s.b.dio && s.held <= s'.held
    requires forall l :: l in s.b.rec ==>
               && l in s'.b.rec && s'.b.rec[l].client == s.b.rec[l].client
               && s'.b.rec[l].write == s.b.rec[l].write && s'.b.rec[l].linked == s.b.rec[l].linked
    ensures BarrierOk(s')
  {
  }

  lemma UpgradeBarrier(s: Sys, l: LeaseId)
    requires Inv(s) && Enabled(s, Upgrade(l))
    ensures BarrierOk(UpgradeBegin(s, l))
  {
    var c := s.b.rec[l].client;
    DirectioSimilar(s.b, c, true, false);
    assert OnRing(s.b, l);
    if !s.b.rec[l].write && !Waits(s.b, c, true, false) {
      DirectioSafe(s.b, c, true, false);
    }
  }

  lemma GrantBarrier(s: Sys, l: LeaseId, n: nat)
    requires RefsOk(s) && l in s.b.rec && l in s.held && s.b.barrier.Open?
    ensures BarrierOk(Grant(s, l, n))
  {
    DirectioSimilar(s.b, s.b.rec[l].client, s.b.rec[l].write, s.b.rec[l].dio);
  }

  lemma StepBarrier(s: Sys, e: Event)
    requires Inv(s) && Enabled(s, e)
    ensures BarrierOk(Apply(s, e))
  {
    match e
    case Upgrade(l) => UpgradeBarrier(s, l);
    case GrantRead(l, n) => GrantBarrier(s, l, n);
    case GrantWrite(l) => GrantBarrier(s, l, 0);
    case New(_, _, _, _) => FlagBarrier(s, e);
    case GetBml(_) => FlagBarrier(s, e);
    case MarkFreeing(_) => FlagBarrier(s, e);
    case Ack(_) => FlagBarrier(s, e);
    case Expire(_) => FlagBarrier(s, e);
    case Put(_, _) => PutBarrier(s, e);
    case PutExpired(_) => PutBarrier(s, e);
    case _ => EndBarrier(s, e);
  }

  /** These end a section behind the barrier or open one. */
  lemma EndBarrier(s: Sys, e: Event)
    requires Enabled(s, e)
    requires e.Reassign? || e.GrantWriteEnd? || e.UpgradeEnd? || e.ReassignEnd? || e.Drained?
    ensures BarrierOk(Apply(s, e))
  {
  }

  /** A release needs the barrier down. */
  lemma PutBarrier(s: Sys, e: Event)
    requires Enabled(s, e) && (e.Put? || e.PutExpired?)
    ensures BarrierOk(Apply(s, e))
  {
  }

  lemma FlagBarrier(s: Sys, e: Event)
    requires BarrierOk(s) && Enabled(s, e) && (FlagStep(e) || e.New?)
    ensures BarrierOk(Apply(s, e))
  {
    BarrierKept(s, Apply(s, e));
  }

  // ----- Runs -----

  /** A run from a bmap without leases, in which no assertion of the source fails. */
  ghost predicate IsRun(tr: seq<Sys>, ev: seq<Event>) {
    && |tr| == |ev| + 1 && Init(tr[0])
    && forall i :: 0 <= i < |ev| ==> Enabled(tr[i], ev[i]) && Asserts(tr[i], ev[i]) && tr[i + 1] == Apply(tr[i], ev[i])
  }

  lemma StepInv(s: Sys, e: Event)
    requires Inv(s) && Enabled(s, e)
    ensures Inv(Apply(s, e))
  {
    StepBmap(s, e);
    StepRefs(s, e);
    StepBarrier(s, e);
  }

  lemma {:induction false} RunInv(tr: seq<Sys>, ev: seq<Event>, i: nat)
    requires IsRun(tr, ev) && i <= |ev|
    ensures Inv(tr[i])
  {
    if i == 0 {
      assert Writers(tr[0].b) == {} && Readers(tr[0].b) == {};
    } else {
      RunInv(tr, ev, i - 1);
      StepInv(tr[i - 1], ev[i - 1]);
    }
  }

  /** In every reachable state outside DIO mode, a write lease means that all leases
      belong to the same client. */
  lemma Coherence(tr: seq<Sys>, ev: seq<Event>, i: nat, l: LeaseId, m: LeaseId)
    requires IsRun(tr, ev) && i <= |ev|
    requires Linked(tr[i], l) && Linked(tr[i], m) && tr[i].b.rec[l].write && !tr[i].b.dio
    ensures tr[i].b.rec[m].client == tr[i].b.rec[l].client
  {
    RunInv(tr, ev, i);
    var b := tr[i].b;
    assert OnRing(b, l) && OnRing(b, m);
    var c, d := b.rec[l].client, b.rec[m].client;
    if CountW(b.rings[c], b.rec) == 0 {
      CountWZero(b.rings[c], l, b.rec);
    }
    assert c in Writers(b);
    if c != d {
      SubsetSize({c, d}, b.rings.Keys);
    }
  }

  lemma ReleaseKeepsDio(s: Sys, l: LeaseId, drains: bool)
    requires l in s.b.rec
    ensures ReleaseSys(s, l, drains).b.dio ==> s.b.dio
  {
  }

  ghost predicate IsRequest(e: Event) {
    e.GrantRead? || e.GrantWrite? || e.Upgrade?
  }

  /** Only a request that goes through mds_bmap_directio() can enter DIO mode. */
  lemma DioFromRequest(s: Sys, e: Event)
    requires Enabled(s, e) && !s.b.dio && Apply(s, e).b.dio
    ensures IsRequest(e)
  {
    match e
    case Put(l, drains) => ReleaseKeepsDio(s, l, drains);
    case PutExpired(drains) => ReleaseKeepsDio(s, s.expiring.value, drains);
    case GrantWriteEnd(l, o, drains) =>
      BindSimilar(s.b, l, o);
      ReleaseKeepsDio(GrantEnd(s, l, o), l, drains);
    case UpgradeEnd(l, o) => BindSimilar(s.b, l, o);
    case _ =>
  }

  lemma RequestDio(s: Sys, e: Event)
    requires Enabled(s, e) && IsRequest(e) && !s.b.dio && Apply(s, e).b.dio
    ensures var r := s.b.rec[e.l];
            Directio(s.b, r.client, e.Upgrade? || r.write, !e.Upgrade? && r.dio).dio
  {
    var r := s.b.rec[e.l];
    if !e.Upgrade? && Waits(s.b, r.client, r.write, r.dio) {
      ReleaseKeepsDio(Condemn(s.(b := Directio(s.b, r.client, r.write, r.dio)), e.l), e.l, false);
    }
  }

  /** An event that puts the bmap into DIO mode finds every lease of every other client
      already acknowledged. */
  lemma DioOnlyAcked(s: Sys, e: Event, m: LeaseId)
    requires Enabled(s, e) && !s.b.dio && Apply(s, e).b.dio && Linked(s, m)
    ensures IsRequest(e) && e.l in s.b.rec
    ensures s.b.rec[m].client != s.b.rec[e.l].client ==> s.b.rec[m].dio
  {
    DioFromRequest(s, e);
    RequestDio(s, e);
    var r := s.b.rec[e.l];
    if r.client != s.b.rec[m].client {
      DirectioAcks(s.b, r.client, e.Upgrade? || r.write, !e.Upgrade? && r.dio, m);
    }
  }

  /** The counts are the numbers of clients: with a write lease, and with read leases only. */
  lemma CountsAreClients(tr: seq<Sys>, ev: seq<Event>, i: nat)
    requires IsRun(tr, ev) && i <= |ev|
    ensures var rec := tr[i].b.rec;
            var w := set l | l in rec && rec[l].linked && rec[l].write :: rec[l].client;
            var a := set l | l in rec && rec[l].linked :: rec[l].client;
            tr[i].b.writers == |w| && tr[i].b.readers == |a - w|
  {
    RunInv(tr, ev, i);
    var b := tr[i].b;
    var w := set l | l in b.rec && b.rec[l].linked && b.rec[l].write :: b.rec[l].client;
    var a := set l | l in b.rec && b.rec[l].linked :: b.rec[l].client;
    forall c | c in b.rings ensures c in a && (c in w <==> CountW(b.rings[c], b.rec) > 0) {
      assert RingOk(b, c);
      WriteOnRing(b.rings[c], b.rec);
      assert b.rings[c][0] in b.rings[c];
      forall l | l in b.rec && b.rec[l].linked && b.rec[l].client == c ensures l in b.rings[c] {
        assert OnRing(b, l);
      }
    }
    forall l | l in b.rec && b.rec[l].linked ensures b.rec[l].client in b.rings {
      assert OnRing(b, l);
    }
    assert w == Writers(b);
    assert a - w == Readers(b);
  }

  lemma {:induction false} WriteOnRing(r: seq<LeaseId>, rec: map<LeaseId, Rec>)
    ensures CountW(r, rec) > 0 <==> exists l :: l in r && l in rec && rec[l].write
  {
    if r != [] {
      WriteOnRing(r[1..], rec);
      assert r == [r[0]] + r[1..];
    }
  }

  /** What a step may do to one lease: it is freed only when no thread is left with a
      reference, and once condemned it gains no reference and stays condemned. */
  ghost predicate LeaseStep(s: Sys, s': Sys, l: LeaseId)
    requires l in s.b.rec
  {
    if l in s'.b.rec then s.b.rec[l].freeing ==> s'.b.rec[l].freeing && s'.held[l] <= s.held[l]
    else l in s'.freed && s.b.rec[l].refcnt <= 1
  }

  lemma ReleaseLease(s: Sys, x: LeaseId, drains: bool, l: LeaseId)
    requires x in s.b.rec && l in s.b.rec
    ensures LeaseStep(s, ReleaseSys(s, x, drains), l)
  {
    ReleaseRec(s.b, x);
  }

  lemma GrantLease(s: Sys, x: LeaseId, n: nat, l: LeaseId)
    requires x in s.b.rec && l in s.b.rec
    ensures LeaseStep(s, Grant(s, x, n), l)
  {
    var r := s.b.rec[x];
    var s1 := s.(b := Directio(s.b, r.client, r.write, r.dio));
    DirectioSimilar(s.b, r.client, r.write, r.dio);
    if Waits(s.b, r.client, r.write, r.dio) {
      ReleaseLease(Condemn(s1, x), x, false, l);
    } else {
      AddRec(s1.b, x, n);
    }
  }

  lemma GrantEndLease(s: Sys, x: LeaseId, o: Outcome, drains: bool, l: LeaseId)
    requires CanBind(s.b, x, o) && l in s.b.rec
    ensures LeaseStep(s, if Succeeds(o) then GrantEnd(s, x, o) else ReleaseSys(GrantEnd(s, x, o), x, drains), l)
  {
    BindSimilar(s.b, x, o);
    ReleaseLease(GrantEnd(s, x, o), x, drains, l);
  }

  lemma UpgradeLease(s: Sys, x: LeaseId, o: Outcome, l: LeaseId)
    requires CanBind(s.b, x, o) && l in s.b.rec
    ensures LeaseStep(s, UpgradeFinish(s, x, o), l)
  {
    BindSimilar(s.b, x, o);
  }

  lemma LocalLease(s: Sys, e: Event, l: LeaseId)
    requires Enabled(s, e) && l in s.b.rec && (FlagStep(e) || e.New? || e.Reassign? || e.ReassignEnd? || e.Drained?)
    ensures LeaseStep(s, Apply(s, e), l)
  {
  }

  lemma StepLease(s: Sys, e: Event, l: LeaseId)
    requires Enabled(s, e) && l in s.b.rec
    ensures LeaseStep(s, Apply(s, e), l)
  {
    match e
    case Put(x, drains) => ReleaseLease(s, x, drains, l);
    case PutExpired(drains) => ReleaseLease(s, s.expiring.value, drains, l);
    case GrantRead(x, n) => GrantLease(s, x, n, l);
    case GrantWrite(x) => GrantLease(s, x, 0, l);
    case GrantWriteEnd(x, o, drains) => GrantEndLease(s, x, o, drains, l);
    case UpgradeEnd(x, o) => UpgradeLease(s, x, o, l);
    case Upgrade(x) => DirectioSimilar(s.b, s.b.rec[x].client, true, false);
    case _ => LocalLease(s, e, l);
  }

  /** The event gives back a reference to a lease that is marked for freeing: by then, or because
      its grant failed or has to wait. */
  ghost predicate GivesUp(s: Sys, e: Event, l: LeaseId)
    requires Enabled(s, e) && l in s.b.rec
  {
    match e
    case Put(x, _) => x == l && s.b.rec[l].freeing
    case PutExpired(_) => s.expiring == Some(l)
    case GrantWriteEnd(x, o, _) => x == l && !Succeeds(o)
    case GrantRead(x, _) => x == l && Waits(s.b, s.b.rec[l].client, s.b.rec[l].write, s.b.rec[l].dio)
    case GrantWrite(x) => x == l && Waits(s.b, s.b.rec[l].client, s.b.rec[l].write, s.b.rec[l].dio)
    case _ => false
  }

  lemma ReleaseFreesIff(s: Sys, x: LeaseId, drains: bool, l: LeaseId)
    requires x in s.b.rec && l in s.b.rec
    ensures l !in ReleaseSys(s, x, drains).b.rec <==> x == l && s.b.rec[l].refcnt <= 1 && s.b.rec[l].freeing
  {
    ReleaseRec(s.b, x);
  }

  lemma GrantFreesIff(s: Sys, x: LeaseId, n: nat, l: LeaseId)
    requires x in s.b.rec && l in s.b.rec && s.b.rec[x].refcnt == 1
    ensures l !in Grant(s, x, n).b.rec <==>
            x == l && Waits(s.b, s.b.rec[x].client, s.b.rec[x].write, s.b.rec[x].dio)
  {
    var r := s.b.rec[x];
    var s1 := s.(b := Directio(s.b, r.client, r.write, r.dio));
    DirectioSimilar(s.b, r.client, r.write, r.dio);
    if Waits(s.b, r.client, r.write, r.dio) {
      ReleaseFreesIff(Condemn(s1, x), x, false, l);
    } else {
      AddRec(s1.b, x, n);
    }
  }

  lemma GrantEndFreesIff(s: Sys, x: LeaseId, o: Outcome, drains: bool, l: LeaseId)
    requires CanBind(s.b, x, o) && l in s.b.rec
    ensures l !in (if Succeeds(o) then GrantEnd(s, x, o) else ReleaseSys(GrantEnd(s, x, o), x, drains)).b.rec
            <==> x == l && !Succeeds(o) && s.b.rec[l].refcnt <= 1
  {
    BindSimilar(s.b, x, o);
    if !Succeeds(o) {
      ReleaseFreesIff(GrantEnd(s, x, o), x, drains, l);
    }
  }

  lemma PutFreesIff(s: Sys, e: Event, l: LeaseId)
    requires RefsOk(s) && Enabled(s, e) && l in s.b.rec && (e.Put? || e.PutExpired?)
    ensures l !in Apply(s, e).b.rec <==> GivesUp(s, e, l) && s.b.rec[l].refcnt <= 1
  {
    if e.Put? {
      ReleaseFreesIff(s, e.l, e.drains, l);
    } else {
      ReleaseFreesIff(s, s.expiring.value, e.drains, l);
    }
  }

  lemma RequestFreesIff(s: Sys, e: Event, l: LeaseId)
    requires RefsOk(s) && Enabled(s, e) && l in s.b.rec && (e.GrantRead? || e.GrantWrite?)
    ensures l !in Apply(s, e).b.rec <==> GivesUp(s, e, l) && s.b.rec[l].refcnt <= 1
  {
    assert RefOk(s, e.l);
    GrantFreesIff(s, e.l, if e.GrantRead? then e.seqno else 0, l);
  }

  /** A lease is freed exactly when it is given up and the reference is the last one: until it is
      marked for freeing it outlives all its references. */
  lemma FreedIff(s: Sys, e: Event, l: LeaseId)
    requires RefsOk(s) && Enabled(s, e) && l in s.b.rec
    ensures l !in Apply(s, e).b.rec <==> GivesUp(s, e, l) && s.b.rec[l].refcnt <= 1
  {
    match e
    case Put(_, _) => PutFreesIff(s, e, l);
    case PutExpired(_) => PutFreesIff(s, e, l);
    case GrantRead(_, _) => RequestFreesIff(s, e, l);
    case GrantWrite(_) => RequestFreesIff(s, e, l);
    case GrantWriteEnd(x, o, drains) => GrantEndFreesIff(s, x, o, drains, l);
    case UpgradeEnd(x, o) => BindSimilar(s.b, x, o);
    case Upgrade(x) => DirectioSimilar(s.b, s.b.rec[x].client, true, false);
    case _ => LocalStays(s, e, l);
  }

  lemma LocalStays(s: Sys, e: Event, l: LeaseId)
    requires Enabled(s, e) && l in s.b.rec && (FlagStep(e) || e.New? || e.Reassign? || e.ReassignEnd? || e.Drained?)
    ensures l in Apply(s, e).b.rec
  {
  }

  /** A lease leaves the bmap for the pool, where it was not before, and at that moment no
      thread holds a reference to it. */
  lemma FreedUnreferenced(s: Sys, e: Event, l: LeaseId)
    requires Inv(s) && Enabled(s, e) && l in s.b.rec && l !in Apply(s, e).b.rec
    ensures l in Apply(s, e).freed && l !in s.freed && l !in Apply(s, e).held
    ensures s.held[l] <= 1
  {
    StepLease(s, e, l);
    StepRefs(s, e);
    assert RefOk(s, l);
  }

  lemma FreedGrows(s: Sys, e: Event)
    requires Enabled(s, e)
    ensures s.freed <= Apply(s, e).freed
  {
  }

  lemma {:induction false} Accumulates(tr: seq<Sys>, i: nat, j: nat)
    requires i <= j < |tr|
    requires forall k :: i <= k < j ==> tr[k].freed <= tr[k + 1].freed
    ensures tr[i].freed <= tr[j].freed
  {
    if i < j {
      Accumulates(tr, i, j - 1);
      assert tr[j - 1].freed <= tr[j - 1 + 1].freed;
    }
  }

  lemma FreedForever(tr: seq<Sys>, ev: seq<Event>, i: nat, j: nat)
    requires IsRun(tr, ev) && i <= j <= |ev|
    ensures tr[i].freed <= tr[j].freed
  {
    forall k | i <= k < j ensures tr[k].freed <= tr[k + 1].freed {
      FreedGrows(tr[k], ev[k]);
    }
    Accumulates(tr, i, j);
  }

  /** A lease is freed at most once in a run. */
  lemma FreedOnce(tr: seq<Sys>, ev: seq<Event>, i: nat, j: nat, l: LeaseId)
    requires IsRun(tr, ev) && i < |ev| && j < |ev|
    requires l in tr[i].b.rec && l !in tr[i + 1].b.rec
    requires l in tr[j].b.rec && l !in tr[j + 1].b.rec
    ensures i == j
  {
    RunInv(tr, ev, i);
    RunInv(tr, ev, j);
    StepLease(tr[i], ev[i], l);
    StepLease(tr[j], ev[j], l);
    if i < j {
      FreedForever(tr, ev, i + 1, j);
    } else if j < i {
      FreedForever(tr, ev, j + 1, i);
    }
  }
}
