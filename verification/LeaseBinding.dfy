/** The binding of a bmap to its I/O server follows the writer count.

    The runs considered are those in which the assignment table never fills up, no upgrade
    to write fails, and no server is missing for a write lease that a second thread refers to
    while it is being granted: it can be looked up by number 0 then. */
module LeaseBinding {
  import opened Common
  import opened BmapLease
  import opened LeaseCounts
  import opened LeaseProtocol
  import opened LeaseSafety
  import opened LeaseLifetime

  ghost predicate Plain(s: Sys, e: Event) {
    match e
    case GrantWriteEnd(l, o, _) => !o.NoSlot? && !(o.Offline? && Shared(s, l))
    case UpgradeEnd(_, o) => Succeeds(o)
    case _ => true
  }

  /** A second reference to the lease is out. */
  ghost predicate Shared(s: Sys, l: LeaseId) {
    l in s.b.rec && s.b.rec[l].refcnt > 1
  }

  /** Server pointer and stored assignment exist together, with the bmap's number. */
  ghost predicate Tied(b: Bmap) {
    && (b.ion.Some? <==> b.assign.Some?)
    && (b.assign.Some? ==> b.assign.value.seqno == b.seqno)
    && (b.noion ==> b.ion.None?)
  }

  ghost predicate Unfailed(b: Bmap) {
    forall l :: l in b.rec ==> !b.rec[l].assfail
  }

  /** A bmap has a server exactly when it has a writer.  While a write lease is being
      granted its client is counted already, and the writers without it decide. */
  ghost predicate BoundOk(s: Sys) {
    && Tied(s.b) && Unfailed(s.b)
    && match s.b.barrier
       case Granting(l) => l in s.b.rec && (s.b.ion.Some? <==> Unlink(s.b, l).writers > 0)
       case _ => s.b.ion.Some? <==> s.b.writers > 0
  }

  /** Linking a write lease and removing it again leaves the writer count. */
  lemma AddThenUnlink(b: Bmap, l: LeaseId)
    requires RingsOk(b) && l in b.rec && !b.rec[l].linked && b.rec[l].write
    ensures Unlink(AddWrite(b, l), l).writers == b.writers
  {
    LinkOnly(b, l, b.rec[l].seqno);
  }

  lemma UnlinkFrame(b: Bmap, b': Bmap, l: LeaseId)
    requires RingsOk(b) && l in b.rec && l in b'.rec && b.rec[l].linked
    requires b'.rings == b.rings && b'.writers == b.writers
    requires b'.rec[l].client == b.rec[l].client && b'.rec[l].write == b.rec[l].write
    requires SameWrites(Ring(b, b.rec[l].client), b.rec, b'.rec)
    ensures Unlink(b', l).writers == Unlink(b, l).writers
  {
    CountWFrame(Ring(b, b.rec[l].client), b.rec, b'.rec);
  }

  lemma DirectioBinding(b: Bmap, c: Client, write: bool, want: bool)
    requires Unfailed(b)
    ensures var b1 := Directio(b, c, write, want);
            && Unfailed(b1) && b1.ion == b.ion && b1.assign == b.assign && b1.seqno == b.seqno
            && b1.noion == b.noion && b1.writers == b.writers && b1.barrier == b.barrier
  {
  }

  /** The request waits: its lease, not linked yet, is freed again. */
  lemma WaitBound(s: Sys, l: LeaseId)
    requires BoundOk(s) && l in s.b.rec && !s.b.rec[l].linked && s.b.rec[l].refcnt == 1 && s.b.barrier.Open?
    ensures BoundOk(ReleaseSys(Condemn(s, l), l, false))
  {
    ReleaseRec(Condemn(s, l).b, l);
  }

  lemma AddBound(s: Sys, l: LeaseId, n: nat)
    requires RingsOk(s.b) && BoundOk(s) && s.b.barrier.Open?
    requires l in s.b.rec && !s.b.rec[l].linked && s.b.rec[l].refcnt == 1
    ensures s.b.rec[l].write ==> BoundOk(s.(b := AddWrite(s.b, l)))
    ensures !s.b.rec[l].write ==> BoundOk(s.(b := AddRead(s.b, l, n)))
  {
    AddRec(s.b, l, n);
    if s.b.rec[l].write {
      AddThenUnlink(s.b, l);
    }
  }

  lemma GrantBound(s: Sys, l: LeaseId, n: nat)
    requires RingsOk(s.b) && CountsOk(s.b) && BoundOk(s) && s.b.barrier.Open?
    requires l in s.b.rec && !s.b.rec[l].linked && s.b.rec[l].refcnt == 1
    ensures BoundOk(Grant(s, l, n))
  {
    var r := s.b.rec[l];
    var s1 := s.(b := Directio(s.b, r.client, r.write, r.dio));
    DirectioSimilar(s.b, r.client, r.write, r.dio);
    DirectioBinding(s.b, r.client, r.write, r.dio);
    if Waits(s.b, r.client, r.write, r.dio) {
      WaitBound(s1, l);
    } else {
      SimilarOk(s.b, s1.b);
      AddBound(s1, l, n);
    }
  }

  /** What a release that frees the lease does to the binding. */
  lemma FreeBinding(b: Bmap, l: LeaseId)
    requires l in b.rec && LastRef(b, l) && b.rec[l].linked
    ensures var b' := Release(b, l);
            var u := b.rec[l].write && Unlink(b, l).writers == 0 && !b.noion && !b.rec[l].assfail;
            && b'.writers == Unlink(b, l).writers && b'.noion == b.noion && b'.seqno == b.seqno
            && b'.ion == (if u then None else b.ion) && b'.assign == (if u then None else b.assign)
  {
  }

  lemma FreeBound(s: Sys, l: LeaseId, drains: bool)
    requires RingsOk(s.b) && CountsOk(s.b) && BoundOk(s) && l in s.b.rec && s.b.barrier.Open?
    requires s.b.rec[l].linked && LastRef(s.b, l)
    ensures BoundOk(ReleaseSys(s, l, drains))
  {
    ReleaseRec(s.b, l);
    FreeBinding(s.b, l);
    UnlinkOk(s.b, l);
    assert Unlink(s.b, l).writers >= 0;
  }

  lemma ReleaseBound(s: Sys, l: LeaseId, drains: bool)
    requires RingsOk(s.b) && CountsOk(s.b) && BoundOk(s) && l in s.b.rec && s.b.barrier.Open?
    requires s.b.rec[l].linked
    ensures BoundOk(ReleaseSys(s, l, drains))
  {
    if LastRef(s.b, l) {
      FreeBound(s, l, drains);
    } else {
      ReleaseRec(s.b, l);
    }
  }

  /** What mds_bmap_ios_assign() and mds_bmap_ios_update() do to the binding. */
  lemma BindEffect(b: Bmap, l: LeaseId, o: Outcome)
    requires Tied(b) && CanBind(b, l, o) && !o.NoSlot?
    ensures var b' := Bind(b, l, o);
            && Tied(b') && (b'.ion.Some? <==> b.ion.Some? || o.Bound? || o.ReplFail?)
            && b'.rec.Keys == b.rec.Keys && b'.rec[l].seqno >= 0
            && (forall m :: m in b.rec && m != l ==> b'.rec[m] == b.rec[m])
            && (b'.rec[l].assfail ==> b.rec[l].assfail || o.Offline?)
            && (o.Offline? ==> b'.noion)
  {
  }

  /** A linked write lease makes its client a writer. */
  lemma WriterCounts(b: Bmap, l: LeaseId)
    requires RingsOk(b) && CountsOk(b) && l in b.rec && b.rec[l].linked && b.rec[l].write
    ensures b.writers > 0
  {
    assert OnRing(b, l);
    WriteOnRing(b.rings[b.rec[l].client], b.rec);
    assert b.rec[l].client in Writers(b);
    CountsCover(b);
  }

  /** A failed grant leaves the binding to the other writers. */
  lemma GrantFreedBound(s: Sys, l: LeaseId, o: Outcome, drains: bool)
    requires RingsOk(s.b) && CountsOk(s.b) && BoundOk(s) && s.b.barrier == Granting(l)
    requires Linked(s, l) && s.b.rec[l].write && CanBind(s.b, l, o) && !o.NoSlot? && !Succeeds(o)
    requires !Shared(s, l)
    ensures BoundOk(ReleaseSys(GrantEnd(s, l, o), l, drains))
  {
    var g := GrantEnd(s, l, o).b;
    BindEffect(s.b, l, o);
    BindSimilar(s.b, l, o);
    assert g.rec[l].freeing && g.rec[l].refcnt <= 1;
    GrantUnlink(s, l, o);
    ReleaseRec(g, l);
    FreeBinding(g, l);
  }

  /** The lease stays, condemned, for as long as the other reference is out. */
  lemma GrantSharedBound(s: Sys, l: LeaseId, o: Outcome, drains: bool)
    requires RingsOk(s.b) && CountsOk(s.b) && BoundOk(s) && s.b.barrier == Granting(l)
    requires Linked(s, l) && s.b.rec[l].write && CanBind(s.b, l, o) && !o.NoSlot? && !o.Offline? && !Succeeds(o)
    requires Shared(s, l)
    ensures BoundOk(ReleaseSys(GrantEnd(s, l, o), l, drains))
  {
    var g := GrantEnd(s, l, o).b;
    BindEffect(s.b, l, o);
    BindSimilar(s.b, l, o);
    WriterCounts(s.b, l);
    assert !LastRef(g, l);
    assert Release(g, l) == SetRec(g, l, LoseRef(g.rec[l]));
  }

  lemma GrantUnlink(s: Sys, l: LeaseId, o: Outcome)
    requires RingsOk(s.b) && CountsOk(s.b) && Linked(s, l) && CanBind(s.b, l, o)
    ensures var g := GrantEnd(s, l, o).b;
            l in g.rec && Unlink(g, l).writers == Unlink(s.b, l).writers >= 0
  {
    BindSimilar(s.b, l, o);
    assert OnRing(s.b, l) && RingOk(s.b, s.b.rec[l].client);
    UnlinkFrame(s.b, GrantEnd(s, l, o).b, l);
    UnlinkOk(s.b, l);
  }

  lemma GrantSuccessBound(s: Sys, l: LeaseId, o: Outcome)
    requires RingsOk(s.b) && CountsOk(s.b) && BoundOk(s) && s.b.barrier == Granting(l)
    requires Linked(s, l) && s.b.rec[l].write && CanBind(s.b, l, o) && Succeeds(o)
    ensures BoundOk(GrantEnd(s, l, o))
  {
    BindEffect(s.b, l, o);
    BindSimilar(s.b, l, o);
    UnlinkOk(s.b, l);
  }

  /** With a server bound, a read lease may become a write lease. */
  lemma ConvertBound(s: Sys, l: LeaseId)
    requires RingsOk(s.b) && CountsOk(s.b) && Tied(s.b) && Unfailed(s.b) && s.b.barrier.Open? && s.b.ion.Some?
    requires Linked(s, l) && !s.b.rec[l].write
    ensures BoundOk(s.(b := Convert(s.b, l)))
  {
    ConvertOk(s.b, l);
    WriterCounts(Convert(s.b, l), l);
  }

  lemma UpgradeBound(s: Sys, l: LeaseId, o: Outcome)
    requires RingsOk(s.b) && CountsOk(s.b) && BoundOk(s) && s.b.barrier == Upgrading(l)
    requires Linked(s, l) && !s.b.rec[l].write && CanBind(s.b, l, o) && Succeeds(o)
    ensures BoundOk(UpgradeFinish(s, l, o))
  {
    var s1 := s.(b := Bind(s.b, l, o).(barrier := Open));
    BindEffect(s.b, l, o);
    BindSimilar(s.b, l, o);
    SimilarOk(s.b, s1.b);
    ConvertBound(s1, l);
  }

  lemma FlagUnlink(s: Sys, e: Event, l: LeaseId)
    requires RingsOk(s.b) && Linked(s, l) && Enabled(s, e) && (FlagStep(e) || e.New?)
    ensures l in Apply(s, e).b.rec && Unlink(Apply(s, e).b, l).writers == Unlink(s.b, l).writers
  {
    assert OnRing(s.b, l) && RingOk(s.b, s.b.rec[l].client);
    UnlinkFrame(s.b, Apply(s, e).b, l);
  }

  /** A record changes, the binding does not. */
  lemma SetRecBound(s: Sys, s': Sys, l: LeaseId, r: Rec)
    requires BoundOk(s) && s'.b.rec == s.b.rec[l := r] && !r.assfail
    requires s'.b.ion == s.b.ion && s'.b.assign == s.b.assign && s'.b.seqno == s.b.seqno
    requires s'.b.noion == s.b.noion && s'.b.writers == s.b.writers && s'.b.barrier == s.b.barrier
    requires s.b.barrier.Granting? ==>
               && s.b.barrier.lease in s'.b.rec
               && Unlink(s'.b, s.b.barrier.lease).writers == Unlink(s.b, s.b.barrier.lease).writers
    ensures BoundOk(s')
  {
  }

  /** What a step local to one lease changes. */
  lemma FlagChange(s: Sys, e: Event)
    requires Unfailed(s.b) && Enabled(s, e) && Plain(s, e) && (FlagStep(e) || e.New?)
    requires !(e.GetBml? && s.b.rec[e.l].freeing)
    ensures var s' := Apply(s, e);
            && e.l in s'.b.rec && s'.b == s.b.(rec := s.b.rec[e.l := s'.b.rec[e.l]])
            && !s'.b.rec[e.l].assfail
  {
  }

  lemma LocalBound(s: Sys, e: Event)
    requires RingsOk(s.b) && BoundOk(s) && Enabled(s, e) && Plain(s, e) && (FlagStep(e) || e.New?)
    requires s.b.barrier.Granting? ==> Linked(s, s.b.barrier.lease)
    ensures BoundOk(Apply(s, e))
  {
    if s.b.barrier.Granting? {
      FlagUnlink(s, e, s.b.barrier.lease);
    }
    if !(e.GetBml? && s.b.rec[e.l].freeing) {
      FlagChange(s, e);
      SetRecBound(s, Apply(s, e), e.l, Apply(s, e).b.rec[e.l]);
    }
  }

  lemma GrantEndBound(s: Sys, l: LeaseId, o: Outcome, drains: bool)
    requires RingsOk(s.b) && CountsOk(s.b) && BoundOk(s) && s.b.barrier == Granting(l)
    requires Linked(s, l) && s.b.rec[l].write && CanBind(s.b, l, o) && Plain(s, GrantWriteEnd(l, o, drains))
    ensures BoundOk(if Succeeds(o) then GrantEnd(s, l, o) else ReleaseSys(GrantEnd(s, l, o), l, drains))
  {
    if Succeeds(o) {
      GrantSuccessBound(s, l, o);
    } else if Shared(s, l) {
      GrantSharedBound(s, l, o, drains);
    } else {
      GrantFreedBound(s, l, o, drains);
    }
  }

  lemma QuietBound(s: Sys, e: Event)
    requires RingsOk(s.b) && CountsOk(s.b) && BoundOk(s)
    requires Enabled(s, e) && (e.Reassign? || e.ReassignEnd? || e.Drained?)
    requires e.ReassignEnd? ==> Linked(s, e.l) && s.b.rec[e.l].write
    ensures BoundOk(Apply(s, e))
  {
    if e.ReassignEnd? {
      WriterCounts(s.b, e.l);
    }
  }

  /** Every event of such a run keeps the binding. */
  lemma StepBound(s: Sys, e: Event)
    requires Inv(s) && BoundOk(s) && Enabled(s, e) && Plain(s, e)
    ensures BoundOk(Apply(s, e))
  {
    match e
    case GrantRead(l, n) => assert RefOk(s, l); GrantBound(s, l, n);
    case GrantWrite(l) => assert RefOk(s, l); GrantBound(s, l, 0);
    case GrantWriteEnd(l, o, drains) => GrantEndBound(s, l, o, drains);
    case UpgradeEnd(l, o) => UpgradeBound(s, l, o);
    case Put(l, drains) => ReleaseBound(s, l, drains);
    case PutExpired(drains) =>
      assert RefOk(s, s.expiring.value);
      ReleaseBound(s, s.expiring.value, drains);
    case Upgrade(l) => UpgradeBeginBound(s, l);
    case Reassign(l) => QuietBound(s, e);
    case ReassignEnd(l, t) => QuietBound(s, e);
    case Drained => QuietBound(s, e);
    case _ => LocalBound(s, e);
  }

  lemma UpgradeBeginBound(s: Sys, l: LeaseId)
    requires BoundOk(s) && s.b.barrier.Open? && l in s.b.rec
    ensures BoundOk(UpgradeBegin(s, l))
  {
    DirectioBinding(s.b, s.b.rec[l].client, true, false);
  }

  lemma {:induction false} RunBound(tr: seq<Sys>, ev: seq<Event>, i: nat)
    requires IsRun(tr, ev) && i <= |ev|
    requires forall k :: 0 <= k < i ==> Plain(tr[k], ev[k])
    ensures BoundOk(tr[i])
  {
    if i > 0 {
      RunBound(tr, ev, i - 1);
      RunInv(tr, ev, i - 1);
      StepBound(tr[i - 1], ev[i - 1]);
    }
  }

  /** Whenever no grant is in flight, a server is bound and an assignment stored if and
      only if there is a writer, and the stored number is the bmap's. */
  lemma BindingFollowsWriters(tr: seq<Sys>, ev: seq<Event>, i: nat)
    requires IsRun(tr, ev) && i <= |ev| && !tr[i].b.barrier.Granting?
    requires forall k :: 0 <= k < i ==> Plain(tr[k], ev[k])
    ensures tr[i].b.ion.Some? <==> tr[i].b.writers > 0
    ensures tr[i].b.assign.Some? <==> tr[i].b.writers > 0
    ensures tr[i].b.assign.Some? ==> tr[i].b.assign.value.seqno == tr[i].b.seqno
  {
    RunBound(tr, ev, i);
  }

  // ----- The assertions -----

  /** A reassignment that gets past the check of the counts finds the bmap in DIO mode. */
  ghost predicate ReassignInDio(s: Sys, e: Event) {
    e.Reassign? && Reassignable(s.b) && s.b.dio
  }

  lemma ReleaseFits(s: Sys, l: LeaseId)
    requires Inv(s) && BoundOk(s) && Linked(s, l) && s.b.barrier.Open?
    requires l in s.held || s.expiring == Some(l)
    ensures ReleaseAsserts(s.b, l)
  {
    assert RefOk(s, l);
    UnlinkOk(s.b, l);
    if s.b.rec[l].write {
      WriterCounts(s.b, l);
    }
  }

  lemma GrantFits(s: Sys, l: LeaseId)
    requires Inv(s) && BoundOk(s) && l in s.b.rec && s.b.barrier.Open?
    ensures GrantAsserts(s.b, l)
  {
    CountsCover(s.b);
    var c := s.b.rec[l].client;
    assert c in s.b.rings && CountW(s.b.rings[c], s.b.rec) > 0 ==> c in Writers(s.b);
  }

  lemma GrantEndFits(s: Sys, l: LeaseId, o: Outcome)
    requires Inv(s) && BoundOk(s) && Linked(s, l) && l in s.held
    requires s.b.barrier == Granting(l) && CanBind(s.b, l, o) && !o.NoSlot? && !Succeeds(o)
    ensures ReleaseAsserts(GrantEnd(s, l, o).b, l)
  {
    assert RefOk(s, l);
    BindSimilar(s.b, l, o);
    BindEffect(s.b, l, o);
    GrantUnlink(s, l, o);
  }

  lemma ReassignFits(s: Sys, l: LeaseId)
    requires Inv(s) && BoundOk(s) && Enabled(s, Reassign(l))
    ensures Asserts(s, Reassign(l)) <==> !ReassignInDio(s, Reassign(l))
  {
    WriterCounts(s.b, l);
  }

  /** In such a run one assertion of the source can fail, and exactly when a lease on a bmap
      in DIO mode is reassigned; all others hold whenever they are evaluated. */
  lemma AssertsIff(s: Sys, e: Event)
    requires Inv(s) && BoundOk(s) && Enabled(s, e) && Plain(s, e)
    ensures Asserts(s, e) <==> !ReassignInDio(s, e)
  {
    match e
    case GrantWrite(l) => GrantFits(s, l);
    case GrantWriteEnd(l, o, drains) =>
      if !Succeeds(o) {
        GrantEndFits(s, l, o);
      }
    case UpgradeEnd(l, o) => BindEffect(s.b, l, o);
    case Reassign(l) => ReassignFits(s, l);
    case Put(l, drains) => ReleaseFits(s, l);
    case PutExpired(drains) =>
      assert RefOk(s, s.expiring.value);
      ReleaseFits(s, s.expiring.value);
    case _ =>
  }

  /** Threads take steps that are enabled; nothing is said of assertions, but a step whose
      assertions fail has no successor. */
  ghost predicate IsSchedule(tr: seq<Sys>, ev: seq<Event>) {
    && |tr| == |ev| + 1 && Init(tr[0])
    && forall i :: 0 <= i < |ev| ==>
         Enabled(tr[i], ev[i]) && (Asserts(tr[i], ev[i]) ==> tr[i + 1] == Apply(tr[i], ev[i]))
  }

  lemma RunPrefix(tr: seq<Sys>, ev: seq<Event>, n: nat)
    requires IsSchedule(tr, ev) && n <= |ev|
    requires forall i :: 0 <= i < n ==> Asserts(tr[i], ev[i])
    ensures IsRun(tr[..n + 1], ev[..n])
  {
    var t, v := tr[..n + 1], ev[..n];
    forall i | 0 <= i < |v|
      ensures Enabled(t[i], v[i]) && Asserts(t[i], v[i]) && t[i + 1] == Apply(t[i], v[i])
    {
      assert t[i] == tr[i] && t[i + 1] == tr[i + 1] && v[i] == ev[i];
    }
  }

  /** However the threads are scheduled, as long as the steps are plain and none reassigns in
      DIO mode no assertion is ever hit: the schedule is a run. */
  lemma {:induction false} BindingAsserts(tr: seq<Sys>, ev: seq<Event>, n: nat)
    requires IsSchedule(tr, ev) && n <= |ev|
    requires forall i :: 0 <= i < n ==> Plain(tr[i], ev[i]) && !ReassignInDio(tr[i], ev[i])
    ensures forall i :: 0 <= i < n ==> Asserts(tr[i], ev[i])
    ensures IsRun(tr[..n + 1], ev[..n])
  {
    if n > 0 {
      BindingAsserts(tr, ev, n - 1);
      var t, v := tr[..n], ev[..n - 1];
      assert t[n - 1] == tr[n - 1];
      RunInv(t, v, n - 1);
      forall k | 0 <= k < n - 1 ensures Plain(t[k], v[k]) {
        assert t[k] == tr[k] && v[k] == ev[k];
      }
      RunBound(t, v, n - 1);
      AssertsIff(tr[n - 1], ev[n - 1]);
    }
    RunPrefix(tr, ev, n);
  }

  // ----- What the hypotheses exclude -----

  /** Server, stored assignment and writers in step. */
  ghost predicate InStep(b: Bmap) {
    (b.ion.Some? <==> b.writers > 0) && (b.assign.Some? <==> b.writers > 0)
  }

  /** The end of a grant leaves them in step if and only if the table was not full and it was not
      a missing server for a lease to which a second reference is out. */
  lemma GrantInStepIff(s: Sys, l: LeaseId, o: Outcome, drains: bool)
    requires RingsOk(s.b) && CountsOk(s.b) && BoundOk(s) && s.b.barrier == Granting(l)
    requires Linked(s, l) && s.b.rec[l].write && CanBind(s.b, l, o)
    ensures InStep(if Succeeds(o) then GrantEnd(s, l, o).b else ReleaseSys(GrantEnd(s, l, o), l, drains).b)
            <==> !o.NoSlot? && !(o.Offline? && Shared(s, l))
  {
    if Plain(s, GrantWriteEnd(l, o, drains)) {
      GrantEndBound(s, l, o, drains);
    } else {
      var g := GrantEnd(s, l, o).b;
      BindSimilar(s.b, l, o);
      GrantUnlink(s, l, o);
      WriterCounts(s.b, l);
      ReleaseRec(g, l);
      if LastRef(g, l) {
        FreeBinding(g, l);
      }
    }
  }

  /** The end of an upgrade leaves them in step if and only if it did not give the bmap a server
      and then fail, for lack of a slot or of room in the replica table. */
  lemma UpgradeInStepIff(s: Sys, l: LeaseId, o: Outcome)
    requires RingsOk(s.b) && CountsOk(s.b) && BoundOk(s) && s.b.barrier == Upgrading(l)
    requires Linked(s, l) && !s.b.rec[l].write && CanBind(s.b, l, o)
    ensures InStep(UpgradeFinish(s, l, o).b) <==> !(s.b.ion.None? && (o.NoSlot? || o.ReplFail?))
  {
    if Succeeds(o) {
      UpgradeBound(s, l, o);
    }
  }

  /** Dropping the last reference of a lease keeps server and writers in step if and only
      if the lease is not the last write lease of the bmap with BML_ASSFAIL or BMAPF_NOION set. */
  lemma ReleaseInStepIff(b: Bmap, l: LeaseId)
    requires RingsOk(b) && CountsOk(b) && l in b.rec && b.rec[l].linked && LastRef(b, l)
    requires b.ion.Some? <==> b.writers > 0
    ensures (Release(b, l).ion.Some? <==> Release(b, l).writers > 0)
            <==> !(b.rec[l].write && Unlink(b, l).writers == 0 && (b.rec[l].assfail || b.noion))
  {
    FreeBinding(b, l);
    UnlinkOk(b, l);
    if b.rec[l].write {
      WriterCounts(b, l);
    }
  }
}
