/** Which I/O server a bmap is bound to: the pointer bmi_wr_ion, the stored assignment and the
    write leases (slashd/mds.c). */
module LeaseServer {
  import opened Common
  import opened BmapLease
  import opened LeaseCounts
  import opened LeaseProtocol
  import opened LeaseSafety
  import opened LeaseLifetime
  import opened LeaseBinding
  import opened LeaseWitness

  /** A write lease that has been granted and is not on its way out. */
  ghost predicate Serves(b: Bmap, l: LeaseId) {
    l in b.rec && b.rec[l].linked && b.rec[l].write && !b.rec[l].freeing && b.barrier != Granting(l)
  }

  /** The stored assignment names the server the bmap is bound to, and so does every such lease. */
  ghost predicate Agree(b: Bmap) {
    && (b.assign.Some? ==> b.ion == Some(b.assign.value.ios))
    && (forall l :: l in b.rec && Serves(b, l) ==> b.assign.Some? && b.rec[l].ios == b.assign.value.ios)
    && (b.barrier.Reassigning? ==> b.assign.Some?)
  }

  /** Nothing that matters changes, except that leases may go. */
  lemma AgreeFrame(b: Bmap, b': Bmap)
    requires Agree(b) && b'.assign == b.assign && b'.ion == b.ion && (b'.barrier.Reassigning? ==> b.assign.Some?)
    requires forall l :: l in b'.rec && Serves(b', l) ==> l in b.rec && Serves(b, l) && b'.rec[l].ios == b.rec[l].ios
    ensures Agree(b')
  {
  }

  lemma NobodyServes(b: Bmap)
    requires RingsOk(b) && CountsOk(b) && b.writers == 0 && !b.barrier.Reassigning?
    requires b.assign.Some? ==> b.ion == Some(b.assign.value.ios)
    ensures Agree(b)
  {
    forall l | l in b.rec ensures !Serves(b, l) {
      if Serves(b, l) {
        WriterCounts(b, l);
      }
    }
  }

  lemma ReleaseBinding(b: Bmap, l: LeaseId)
    requires l in b.rec
    ensures var b' := Release(b, l);
            || (b'.assign == b.assign && b'.ion == b.ion)
            || (b'.assign == None && b'.ion == None && b'.writers == 0)
  {
    if LastRef(b, l) && b.rec[l].linked {
      FreeBinding(b, l);
    }
  }

  lemma RefAgrees(b: Bmap, b': Bmap, l: LeaseId)
    requires Agree(b) && l in b.rec && !b.barrier.Granting? && !b'.barrier.Granting? && !b'.barrier.Reassigning?
    requires b'.assign == b.assign && b'.ion == b.ion
    requires b'.rec == b.rec - {l} || b'.rec == b.rec[l := LoseRef(b.rec[l])]
    ensures Agree(b')
  {
    AgreeFrame(b, b');
  }

  lemma ReleaseAgrees(s: Sys, l: LeaseId, drains: bool)
    requires BmapOk(s.b) && l in s.b.rec && Agree(s.b) && !s.b.barrier.Granting?
    ensures Agree(ReleaseSys(s, l, drains).b)
  {
    var b' := ReleaseSys(s, l, drains).b;
    ReleaseBinding(s.b, l);
    if b'.assign == s.b.assign && b'.ion == s.b.ion {
      ReleaseRec(s.b, l);
      RefAgrees(s.b, b', l);
    } else {
      ReleaseOk(s.b, l);
      FrameOk(Release(s.b, l), b');
      NobodyServes(b');
    }
  }

  lemma DirectioServer(b: Bmap, c: Client, write: bool, want: bool, l: LeaseId)
    requires l in b.rec
    ensures var b1 := Directio(b, c, write, want);
            && b1.assign == b.assign && b1.ion == b.ion && b1.barrier == b.barrier && l in b1.rec
            && b1.rec[l].ios == b.rec[l].ios
  {
  }

  lemma DirectioAgrees(b: Bmap, c: Client, write: bool, want: bool)
    requires Agree(b)
    ensures Agree(Directio(b, c, write, want))
  {
    var b1 := Directio(b, c, write, want);
    DirectioSimilar(b, c, write, want);
    forall l | l in b.rec ensures b1.rec[l].ios == b.rec[l].ios {
      DirectioServer(b, c, write, want, l);
    }
    AgreeFrame(b, b1);
  }

  lemma WaitAgrees(s: Sys, l: LeaseId)
    requires l in s.b.rec && !s.b.rec[l].linked && Agree(s.b) && s.b.barrier.Open?
    ensures Agree(ReleaseSys(Condemn(s, l), l, false).b)
  {
    var s1 := Condemn(s, l);
    AgreeFrame(s.b, s1.b);
    UnlinkedAgrees(s1, l);
  }

  lemma UnlinkedServer(b: Bmap, l: LeaseId)
    requires l in b.rec && !b.rec[l].linked
    ensures Release(b, l).assign == b.assign && Release(b, l).ion == b.ion
  {
  }

  lemma UnlinkedAgrees(s: Sys, l: LeaseId)
    requires l in s.b.rec && !s.b.rec[l].linked && Agree(s.b) && s.b.barrier.Open?
    ensures Agree(ReleaseSys(s, l, false).b)
  {
    ReleaseRec(s.b, l);
    UnlinkedServer(s.b, l);
    RefAgrees(s.b, ReleaseSys(s, l, false).b, l);
  }

  lemma AddAgrees(b: Bmap, l: LeaseId, n: nat)
    requires l in b.rec && !b.rec[l].linked && Agree(b) && b.barrier.Open?
    ensures if b.rec[l].write then Agree(AddWrite(b, l)) else Agree(AddRead(b, l, n))
  {
    AddRec(b, l, n);
    AgreeFrame(b, if b.rec[l].write then AddWrite(b, l) else AddRead(b, l, n));
  }

  lemma GrantAgrees(s: Sys, l: LeaseId, n: nat)
    requires l in s.b.rec && !s.b.rec[l].linked && Agree(s.b) && s.b.barrier.Open?
    ensures Agree(Grant(s, l, n).b)
  {
    var r := s.b.rec[l];
    var s1 := s.(b := Directio(s.b, r.client, r.write, r.dio));
    DirectioSimilar(s.b, r.client, r.write, r.dio);
    DirectioAgrees(s.b, r.client, r.write, r.dio);
    assert s1.b.barrier == s.b.barrier by {
      DirectioServer(s.b, r.client, r.write, r.dio, l);
    }
    if Waits(s.b, r.client, r.write, r.dio) {
      WaitAgrees(s1, l);
    } else {
      AddAgrees(s1.b, l, n);
    }
  }

  lemma BindOther(b: Bmap, l: LeaseId, o: Outcome, m: LeaseId)
    requires CanBind(b, l, o) && m in b.rec && m != l
    ensures m in Bind(b, l, o).rec && Bind(b, l, o).rec[m] == b.rec[m]
  {
  }

  /** Binding changes no other lease and nothing else of this one that matters here. */
  lemma BindOthers(b: Bmap, l: LeaseId, o: Outcome)
    requires CanBind(b, l, o)
    ensures var b' := Bind(b, l, o);
            && Similar(b, b')
            && (forall m :: m in b.rec && m != l ==> b'.rec[m] == b.rec[m])
  {
    BindSimilar(b, l, o);
    forall m | m in b.rec && m != l ensures Bind(b, l, o).rec[m] == b.rec[m] {
      BindOther(b, l, o, m);
    }
  }

  /** The bmap after mds_bmap_ios_assign() or mds_bmap_ios_update(). */
  lemma BindServer(b: Bmap, l: LeaseId, o: Outcome)
    requires CanBind(b, l, o) && BindAsserts(b, o) && (b.assign.Some? ==> b.ion == Some(b.assign.value.ios))
    ensures var b' := Bind(b, l, o);
            && l in b'.rec && (b'.assign.Some? ==> b'.ion == Some(b'.assign.value.ios))
            && (b.assign.Some? ==> b'.assign.Some? && b'.assign.value.ios == b.assign.value.ios)
            && (Succeeds(o) ==> b'.assign.Some? && b'.rec[l].ios == b'.assign.value.ios)
  {
  }

  lemma GrantEndAgrees(s: Sys, l: LeaseId, o: Outcome)
    requires CanBind(s.b, l, o) && BindAsserts(s.b, o) && Agree(s.b) && s.b.barrier == Granting(l)
    ensures Agree(GrantEnd(s, l, o).b)
  {
    BindServer(s.b, l, o);
    BindOthers(s.b, l, o);
    var b' := GrantEnd(s, l, o).b;
    forall m | m in b'.rec && Serves(b', m) ensures b'.assign.Some? && b'.rec[m].ios == b'.assign.value.ios {
      if m != l {
        assert Serves(s.b, m);
      }
    }
  }

  lemma UpgradeAgrees(s: Sys, l: LeaseId, o: Outcome)
    requires CanBind(s.b, l, o) && BindAsserts(s.b, o) && Agree(s.b) && s.b.barrier == Upgrading(l)
    requires !s.b.rec[l].write
    ensures Agree(UpgradeFinish(s, l, o).b)
  {
    BindServer(s.b, l, o);
    BindOthers(s.b, l, o);
    var b' := UpgradeFinish(s, l, o).b;
    forall m | m in b'.rec && Serves(b', m) ensures b'.assign.Some? && b'.rec[m].ios == b'.assign.value.ios {
      if m != l {
        assert Serves(s.b, m);
      }
    }
  }

  /** The event gives the bmap to another server. */
  ghost predicate Moves(s: Sys, e: Event) {
    e.ReassignEnd? && e.target.Some? && s.b.assign.Some? && e.target.value.0 != s.b.assign.value.ios
  }

  lemma ReassignAgreesIff(s: Sys, e: Event)
    requires Agree(s.b) && e.ReassignEnd? && Enabled(s, e)
    ensures Agree(Apply(s, e).b) <==> !Moves(s, e)
  {
    var b' := Apply(s, e).b;
    if !Moves(s, e) {
      forall m | m in b'.rec && Serves(b', m) ensures b'.assign.Some? && b'.rec[m].ios == b'.assign.value.ios {
        assert m != e.l ==> Serves(s.b, m);
      }
    }
  }

  lemma SetRecAgrees(b: Bmap, l: LeaseId, r: Rec)
    requires Agree(b) && (l in b.rec ==> r.ios == b.rec[l].ios && (b.rec[l].freeing ==> r.freeing))
    requires r.linked && r.write ==> l in b.rec && b.rec[l].linked && b.rec[l].write
    ensures Agree(SetRec(b, l, r))
  {
    AgreeFrame(b, SetRec(b, l, r));
  }

  lemma LocalAgrees(s: Sys, e: Event)
    requires Agree(s.b) && Enabled(s, e) && Asserts(s, e) && (FlagStep(e) || e.New? || e.Drained? || e.Reassign?)
    ensures Agree(Apply(s, e).b)
  {
    if e.Drained? || e.Reassign? {
      AgreeFrame(s.b, Apply(s, e).b);
    } else if Apply(s, e).b != s.b {
      SetRecAgrees(s.b, e.l, Apply(s, e).b.rec[e.l]);
    }
  }

  lemma FailAgrees(s: Sys, l: LeaseId, o: Outcome, drains: bool)
    requires BmapOk(s.b) && CanBind(s.b, l, o) && BindAsserts(s.b, o) && Agree(s.b) && s.b.barrier == Granting(l)
    ensures Agree((if Succeeds(o) then GrantEnd(s, l, o) else ReleaseSys(GrantEnd(s, l, o), l, drains)).b)
  {
    GrantEndAgrees(s, l, o);
    if !Succeeds(o) {
      var s1 := s.(b := Bind(s.b, l, o).(barrier := Open));
      BindSimilar(s.b, l, o);
      SimilarOk(s.b, s1.b);
      SetRecOk(s1.b, l, s1.b.rec[l].(freeing := true));
      ReleaseAgrees(Condemn(s1, l), l, drains);
    }
  }

  /** An event keeps the agreement exactly if it does not give the bmap to another server. */
  lemma StepAgreesIff(s: Sys, e: Event)
    requires Inv(s) && Enabled(s, e) && Asserts(s, e) && Agree(s.b)
    ensures Agree(Apply(s, e).b) <==> !Moves(s, e)
  {
    match e
    case Put(l, drains) => ReleaseAgrees(s, l, drains);
    case PutExpired(drains) => ReleaseAgrees(s, s.expiring.value, drains);
    case GrantRead(l, n) => GrantAgrees(s, l, n);
    case GrantWrite(l) => GrantAgrees(s, l, 0);
    case GrantWriteEnd(l, o, drains) => FailAgrees(s, l, o, drains);
    case Upgrade(l) => UpgradeBeginAgrees(s, l);
    case UpgradeEnd(l, o) => UpgradeAgrees(s, l, o);
    case ReassignEnd(_, _) => ReassignAgreesIff(s, e);
    case _ => LocalAgrees(s, e);
  }

  lemma UpgradeBeginAgrees(s: Sys, l: LeaseId)
    requires Agree(s.b) && Enabled(s, Upgrade(l))
    ensures Agree(UpgradeBegin(s, l).b)
  {
    var b1 := Directio(s.b, s.b.rec[l].client, true, false);
    DirectioAgrees(s.b, s.b.rec[l].client, true, false);
    DirectioServer(s.b, s.b.rec[l].client, true, false, l);
    AgreeFrame(b1, b1.(barrier := Upgrading(l)));
  }

  /** In every run in which no reassignment picks another server, the pointer, the stored
      assignment and the write leases name the same server. */
  lemma {:induction false} SameServer(tr: seq<Sys>, ev: seq<Event>, i: nat)
    requires IsRun(tr, ev) && i <= |ev| && forall j :: 0 <= j < i ==> !Moves(tr[j], ev[j])
    ensures Agree(tr[i].b)
  {
    if i > 0 {
      SameServer(tr, ev, i - 1);
      RunInv(tr, ev, i - 1);
      StepAgreesIff(tr[i - 1], ev[i - 1]);
    }
  }

  // ----- What is stored -----

  /** A lease that is bound has a number in common with the bmap and the stored item, which names
      its client, the server and the mode of the bmap.  The server is the one selected, or the one
      the bmap has.  If the replica table has no room a bmap that gets its first server keeps it
      all the same, and only the number of the lease is left. */
  lemma BindStores(b: Bmap, l: LeaseId, o: Outcome)
    requires CanBind(b, l, o) && BindAsserts(b, o) && (o.Bound? || o.ReplFail?)
    ensures var b', ios := Bind(b, l, o), if b.ion.None? then o.ios else b.assign.value.ios;
            && l in b'.rec && b'.assign == Some(Assign(ios, b.rec[l].client, o.seqno, b.dio))
            && b'.seqno == o.seqno && b'.rec[l].ios == ios && b'.ion.Some?
            && b'.rec[l].seqno == if b.ion.None? && o.ReplFail? then b.rec[l].seqno else o.seqno
  {
  }

  /** A reassignment renews lease, bmap and item together; the item keeps its DIO mark. */
  lemma ReassignStores(s: Sys, l: LeaseId, ios: nat, n: nat)
    requires Enabled(s, ReassignEnd(l, Some((ios, n)))) && s.b.assign.Some?
    ensures var b' := Apply(s, ReassignEnd(l, Some((ios, n)))).b;
            && b'.assign == Some(Assign(ios, s.b.rec[l].client, n, s.b.assign.value.dio))
            && b'.seqno == n && l in b'.rec && b'.rec[l].ios == ios && b'.rec[l].seqno == n && b'.barrier.Open?
  {
  }

  /** An upgrade ends with a write lease, or with a read lease that is marked as failed. */
  lemma UpgradeMarks(s: Sys, l: LeaseId, o: Outcome)
    requires Inv(s) && Enabled(s, UpgradeEnd(l, o))
    ensures var r := UpgradeFinish(s, l, o).b.rec;
            l in r && (r[l].write <==> o.Bound?) && (!o.Bound? ==> r[l].assfail) && r[l].linked
  {
    BindSimilar(s.b, l, o);
  }

  lemma OneRing(b: Bmap, c: Client)
    requires RingsOk(b) && CountsOk(b) && c in Writers(b)
    ensures Reassignable(b) <==> b.rings.Keys == {c}
  {
    CountsCover(b);
    if Reassignable(b) {
      assert |b.rings.Keys| == 1;
      forall d | d in b.rings ensures d == c {
        if d != c {
          SubsetSize({c, d}, b.rings.Keys);
        }
      }
    }
  }

  /** A reassignment goes on exactly if all leases of the bmap are of one client. */
  lemma ReassignAloneIff(s: Sys, l: LeaseId)
    requires Inv(s) && Enabled(s, Reassign(l))
    ensures Apply(s, Reassign(l)).b.barrier == Reassigning(l) <==>
            forall m :: Linked(s, m) ==> s.b.rec[m].client == s.b.rec[l].client
  {
    var b, c := s.b, s.b.rec[l].client;
    assert OnRing(b, l) && RingOk(b, c);
    WriteOnRing(b.rings[c], b.rec);
    OneRing(b, c);
    if forall m :: Linked(s, m) ==> b.rec[m].client == c {
      forall d | d in b.rings ensures d == c {
        assert RingOk(b, d) && b.rings[d][0] in b.rings[d];
        assert Linked(s, b.rings[d][0]);
      }
    } else {
      var m :| Linked(s, m) && b.rec[m].client != c;
      assert OnRing(b, m);
    }
  }

  /** A release leaves the barrier up, if it has work to queue, exactly when it unbound the server. */
  lemma DrainsIff(s: Sys, l: LeaseId, drains: bool)
    requires Enabled(s, Put(l, drains)) && Asserts(s, Put(l, drains))
    ensures var b' := Apply(s, Put(l, drains)).b;
            b'.barrier == if drains && s.b.ion.Some? && b'.ion.None? then Draining else Open
  {
    if LastRef(s.b, l) {
      FreeBinding(s.b, l);
    }
  }

  // ----- A reassignment to another server -----

  const BOUND := PENDING.(ios := 7, seqno := 9)

  lemma Binds(s: Sys)
    requires s == Solo(PENDING, false, false, None, None, 0, Granting(1))
    ensures var e := GrantWriteEnd(1, Bound(7, 9), false);
            && Enabled(s, e) && Asserts(s, e)
            && Apply(s, e) == Solo(BOUND, false, false, Some(7), Some(Assign(7, C, 9, false)), 9, Open)
  {
  }

  /** The pointer still names the old server when the lease and the stored assignment name the
      new one; it is the pointer that clients are told when they renew the lease. */
  lemma ReassignLeavesPointer() returns (tr: seq<Sys>, ev: seq<Event>)
    ensures IsRun(tr, ev)
    ensures ev == [New(1, C, true, false), GrantWrite(1), GrantWriteEnd(1, Bound(7, 9), false), Reassign(1),
                   ReassignEnd(1, Some((8, 10)))]
    ensures tr[5].b.ion == Some(7) && tr[5].b.assign.Some? && tr[5].b.assign.value.ios == 8
    ensures 1 in tr[5].b.rec && tr[5].b.rec[1].ios == 8
  {
    tr, ev := WriteRun(false);
    Binds(tr[2]);
    tr, ev := Extend(tr, ev, GrantWriteEnd(1, Bound(7, 9), false));
    tr, ev := Extend(tr, ev, Reassign(1));
    tr, ev := Extend(tr, ev, ReassignEnd(1, Some((8, 10))));
  }
}
