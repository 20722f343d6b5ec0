/** Coherence, lease counting and lease lifetime over every run of the lease protocol. */
module LeaseSafety {
  import opened Common
  import opened BmapLease
  import opened LeaseCounts
  import opened LeaseProtocol

  ghost predicate BmapOk(b: Bmap) {
    RingsOk(b) && CountsOk(b) && Coherent(b)
  }

  // ----- Bmap steps -----

  /** The two bmaps agree on everything the ring and reference invariants look at. */
  ghost predicate Similar(b: Bmap, b': Bmap) {
    && b'.rings == b.rings && b'.readers == b.readers && b'.writers == b.writers
    && b'.rec.Keys == b.rec.Keys
    && forall l :: l in b.rec ==>
         && b'.rec[l].client == b.rec[l].client && b'.rec[l].write == b.rec[l].write
         && b'.rec[l].linked == b.rec[l].linked && b'.rec[l].refcnt == b.rec[l].refcnt
         && b'.rec[l].freeing == b.rec[l].freeing
  }

  lemma SimilarOk(b: Bmap, b': Bmap)
    requires RingsOk(b) && CountsOk(b) && Similar(b, b')
    ensures RingsOk(b') && CountsOk(b') && Writers(b') == Writers(b)
    ensures b'.dio == b.dio && Coherent(b) ==> Coherent(b')
  {
    FrameOk(b, b');
  }

  lemma DirectioSimilar(b: Bmap, c: Client, write: bool, want: bool)
    ensures Similar(b, Directio(b, c, write, want))
    ensures b.dio ==> Directio(b, c, write, want).dio
  {
  }

  /** The request may go on.  Then the bmap is in DIO mode, or nobody but the requesting
      client has a lease, or there is no writer and, for a write request, no lease at all. */
  lemma DirectioSafe(b: Bmap, c: Client, write: bool, want: bool)
    requires RingsOk(b) && CountsOk(b) && !Waits(b, c, write, want)
    ensures var b1 := Directio(b, c, write, want);
            b1.dio || b.rings.Keys <= {c} || (Writers(b) == {} && (write ==> b.rings == map[]))
  {
    CountsCover(b);
    if !b.dio && MustCheck(b, write, want) && !Directio(b, c, write, want).dio {
      forall d | d in b.rings ensures d == c {
        assert RingOk(b, d);
        var l := b.rings[d][0];
        assert l in b.rings[d];
        assert d != c ==> Foreign(b, c, l);
      }
    }
  }

  /** A request waits exactly when it has to look at the leases and one of another client has
      not acknowledged DIO; exactly those leases are asked, no other record changes, and DIO
      mode is entered only when there is none.  The bmap is marked once a lease is asked for the
      first time, and loses the mark only to DIO mode. */
  lemma DirectioAcks(b: Bmap, c: Client, write: bool, want: bool, l: LeaseId)
    requires l in b.rec
    ensures var b1, w := Directio(b, c, write, want), Waits(b, c, write, want);
            var blocks := b.rec[l].linked && b.rec[l].client != c && !b.rec[l].dio;
            && b1.rec.Keys == b.rec.Keys
            && b1.rec[l] == b.rec[l].(diocb := b.rec[l].diocb || (w && blocks))
            && (!b.dio && b1.dio ==> !blocks)
            && (!b.dio && MustCheck(b, write, want) && blocks ==> w)
            && (w ==> !b1.dio && exists m :: m in b.rec && b.rec[m].linked && b.rec[m].client != c && !b.rec[m].dio)
            && (w && blocks && !b.rec[l].diocb ==> b1.diocb)
            && (!b.dio && b1.dio ==> !b1.diocb) && (b.diocb && !b1.diocb ==> !b.dio && b1.dio)
  {
    if Waits(b, c, write, want) {
      var m :| m in b.rec && Blocking(b, c, m);
      assert b.rec[m].linked && b.rec[m].client != c && !b.rec[m].dio;
    }
    if b.rec[l].linked && b.rec[l].client != c {
      assert Foreign(b, c, l);
    }
  }

  lemma OneClient(b: Bmap, c: Client)
    requires b.rings.Keys == {c}
    ensures Coherent(b)
  {
    assert |b.rings.Keys| == 1;
  }

  /** Grants keep a bmap coherent; `b` is the bmap after mds_bmap_directio(). */
  lemma AddWriteCoherent(b: Bmap, l: LeaseId)
    requires RingsOk(b) && CountsOk(b) && l in b.rec && !b.rec[l].linked && b.rec[l].write
    requires b.dio || b.rings.Keys <= {b.rec[l].client}
    ensures BmapOk(AddWrite(b, l))
  {
    AddWriteOk(b, l);
    if !b.dio {
      OneClient(AddWrite(b, l), b.rec[l].client);
    }
  }

  lemma AddReadCoherent(b: Bmap, l: LeaseId, n: nat)
    requires RingsOk(b) && CountsOk(b) && l in b.rec && !b.rec[l].linked && !b.rec[l].write
    requires b.dio || b.rings.Keys <= {b.rec[l].client} || Writers(b) == {}
    ensures BmapOk(AddRead(b, l, n))
  {
    AddReadOk(b, l, n);
    if !b.dio && Writers(b) != {} {
      OneClient(AddRead(b, l, n), b.rec[l].client);
    } else {
      CountsCover(b);
      CountsCover(AddRead(b, l, n));
    }
  }

  lemma GrantOk(b: Bmap, l: LeaseId, n: nat)
    requires BmapOk(b) && l in b.rec && !b.rec[l].linked
    requires !Waits(b, b.rec[l].client, b.rec[l].write, b.rec[l].dio)
    ensures var b1 := Directio(b, b.rec[l].client, b.rec[l].write, b.rec[l].dio);
            BmapOk(if b.rec[l].write then AddWrite(b1, l) else AddRead(b1, l, n))
  {
    var r := b.rec[l];
    var b1 := Directio(b, r.client, r.write, r.dio);
    DirectioSimilar(b, r.client, r.write, r.dio);
    DirectioSafe(b, r.client, r.write, r.dio);
    SimilarOk(b, b1);
    if r.write {
      AddWriteCoherent(b1, l);
    } else {
      AddReadCoherent(b1, l, n);
    }
  }

  lemma ClearDioOk(b: Bmap)
    requires RingsOk(b) && CountsOk(b)
    ensures RingsOk(ClearDio(b)) && CountsOk(ClearDio(b))
    ensures Coherent(b) || b.dio ==> Coherent(ClearDio(b))
    ensures b.dio && !ClearDio(b).dio ==> Writers(b) == {} || |b.rings| == 1
  {
    CountsCover(b);
    SameShape(b, ClearDio(b));
  }

  /** Fewer leases cannot break coherence. */
  lemma UnlinkCoherent(b: Bmap, l: LeaseId)
    requires BmapOk(b) && l in b.rec && b.rec[l].linked
    ensures BmapOk(Unlink(b, l))
  {
    var b' := Unlink(b, l);
    UnlinkRings(b, l);
    UnlinkOk(b, l);
    CountsCover(b);
    CountsCover(b');
    if |b.rings| == 1 {
      SubsetSize(b'.rings.Keys, b.rings.Keys);
      assert |b'.rings| <= 1;
      assert |b'.rings| == 0 ==> b'.rings == map[];
    }
  }

  lemma SubsetSize(s: set<Client>, t: set<Client>)
    requires s <= t
    ensures |s| <= |t|
  {
    assert t == s + (t - s);
  }

  lemma FreeRings(b: Bmap, l: LeaseId)
    requires RingsOk(b) && CountsOk(b) && (l in b.rec ==> !b.rec[l].linked)
    ensures RingsOk(Free(b, l)) && CountsOk(Free(b, l)) && Writers(Free(b, l)) == Writers(b)
  {
    var b' := Free(b, l);
    forall c | c in b.rings ensures RingOk(b', c) && CountW(b.rings[c], b.rec) == CountW(b.rings[c], b'.rec) {
      assert RingOk(b, c);
      CountWFrame(b.rings[c], b.rec, b'.rec);
    }
    forall m | m in b'.rec && b'.rec[m].linked ensures OnRing(b', m) {
      assert OnRing(b, m);
    }
    assert Writers(b') == Writers(b) && Readers(b') == Readers(b);
  }

  lemma FreeOk(b: Bmap, l: LeaseId)
    requires BmapOk(b) && (l in b.rec ==> !b.rec[l].linked)
    ensures BmapOk(Free(b, l))
  {
    FreeRings(b, l);
  }

  lemma UnlinkFree(b: Bmap, l: LeaseId)
    requires BmapOk(b) && l in b.rec && b.rec[l].linked
    ensures BmapOk(Free(Unbind(ClearDio(Unlink(b, l)), l), l))
  {
    UnlinkCoherent(b, l);
    var u := ClearDio(Unlink(b, l));
    ClearDioOk(Unlink(b, l));
    SameShape(u, Unbind(u, l));
    FreeOk(Unbind(u, l), l);
  }

  /** When a lease goes, DIO mode lasts exactly if somebody still writes and somebody else
      still has a lease. */
  lemma DioLastsIff(b: Bmap, l: LeaseId)
    requires BmapOk(b) && l in b.rec && b.rec[l].linked && LastRef(b, l)
    ensures var b' := Release(b, l);
            b'.dio <==> b.dio && Writers(b') != {} && |b'.rings| > 1
  {
    var u := Unlink(b, l);
    UnlinkCoherent(b, l);
    ReleaseOk(b, l);
    CountsCover(u);
    CountsCover(Release(b, l));
  }

  lemma ReleaseOk(b: Bmap, l: LeaseId)
    requires BmapOk(b) && l in b.rec
    ensures BmapOk(Release(b, l))
  {
    if !LastRef(b, l) {
      SetRecOk(b, l, b.rec[l].(refcnt := b.rec[l].refcnt - 1));
    } else if !b.rec[l].linked {
      FreeOk(b, l);
    } else {
      UnlinkFree(b, l);
    }
  }

  lemma BindSimilar(b: Bmap, l: LeaseId, o: Outcome)
    requires CanBind(b, l, o)
    ensures Similar(b, Bind(b, l, o)) && Bind(b, l, o).dio == b.dio
  {
    var b' := Bind(b, l, o);
    if b' != b {
      SetRecSimilar(b, b', l, b'.rec[l]);
    }
  }

  lemma SetRecSimilar(b: Bmap, b': Bmap, l: LeaseId, r: Rec)
    requires l in b.rec && b'.rec == b.rec[l := r] && b'.rings == b.rings
    requires b'.readers == b.readers && b'.writers == b.writers
    requires r.client == b.rec[l].client && r.write == b.rec[l].write && r.linked == b.rec[l].linked
    requires r.refcnt == b.rec[l].refcnt && r.freeing == b.rec[l].freeing
    ensures Similar(b, b')
  {
    assert b'.rec.Keys == b.rec.Keys;
  }

  lemma UpgradeOk(b: Bmap, l: LeaseId, o: Outcome)
    requires BmapOk(b) && CanBind(b, l, o) && b.rec[l].linked && !b.rec[l].write
    requires b.dio || b.rings.Keys == {b.rec[l].client}
    ensures BmapOk(UpgradeFinish(Sys(b, multiset{}, None, {}), l, o).b)
  {
    var b1 := Bind(b, l, o).(barrier := Open);
    BindSimilar(b, l, o);
    SimilarOk(b, b1);
    if Succeeds(o) {
      ConvertOk(b1, l);
      if !b.dio {
        OneClient(Convert(b1, l), b.rec[l].client);
      }
    } else {
      SetRecOk(b1, l, b1.rec[l].(assfail := true));
    }
  }

  /** Every event keeps rings, counts and coherence. */
  lemma StepBmap(s: Sys, e: Event)
    requires Inv(s) && Enabled(s, e)
    ensures BmapOk(Apply(s, e).b)
  {
    match e
    case GrantRead(l, n) => GrantStep(s, l, n);
    case GrantWrite(l) => GrantStep(s, l, 0);
    case GrantWriteEnd(l, o, drains) => GrantEndStep(s, l, o);
    case Upgrade(l) => UpgradeStep(s, l);
    case UpgradeEnd(l, o) => UpgradeOk(s.b, l, o);
    case Put(l, drains) => ReleaseStep(s, l, drains);
    case PutExpired(drains) => ReleaseStep(s, s.expiring.value, drains);
    case _ => LocalStep(s, e);
  }

  lemma LocalStep(s: Sys, e: Event)
    requires BmapOk(s.b) && Enabled(s, e)
    requires e.New? || e.Reassign? || e.ReassignEnd? || e.Drained? || FlagStep(e)
    ensures BmapOk(Apply(s, e).b)
  {
    if FlagStep(e) {
      FlagOk(s, e);
    } else if e.New? {
      NewOk(s.b, e.l, Rec(e.client, e.write, e.dio, false, 1, false, false, false, 0, 0));
    } else if e.ReassignEnd? {
      ReassignOk(s, e.l, e.target);
    } else {
      SameShape(s.b, Apply(s, e).b);
    }
  }

  lemma ReassignOk(s: Sys, l: LeaseId, t: Option<(nat, nat)>)
    requires BmapOk(s.b) && l in s.b.rec
    ensures BmapOk(ReassignFinish(s, l, t).b)
  {
    if t.Some? {
      SetRecBmap(s.b, ReassignFinish(s, l, t).b, l, s.b.rec[l].(ios := t.value.0, seqno := t.value.1));
    } else {
      SameShape(s.b, ReassignFinish(s, l, t).b);
    }
  }

  lemma FlagOk(s: Sys, e: Event)
    requires BmapOk(s.b) && Enabled(s, e) && FlagStep(e)
    ensures BmapOk(Apply(s, e).b)
  {
    var r := s.b.rec[e.l];
    if e.GetBml? {
      if !r.freeing {
        SetRecBmap(s.b, Apply(s, e).b, e.l, r.(refcnt := r.refcnt + 1));
      }
    } else if e.Ack? {
      SetRecBmap(s.b, Apply(s, e).b, e.l, r.(dio := true, diocb := false));
    } else {
      SetRecBmap(s.b, Apply(s, e).b, e.l, r.(freeing := true));
    }
  }

  predicate FlagStep(e: Event) {
    e.GetBml? || e.MarkFreeing? || e.Ack? || e.Expire?
  }

  lemma SetRecBmap(b: Bmap, b': Bmap, l: LeaseId, r: Rec)
    requires BmapOk(b) && l in b.rec && b'.rec == b.rec[l := r] && b'.rings == b.rings
    requires b'.readers == b.readers && b'.writers == b.writers && b'.dio == b.dio
    requires r.client == b.rec[l].client && r.write == b.rec[l].write && r.linked == b.rec[l].linked
    ensures BmapOk(b')
  {
    SetRecOk(b, l, r);
    SameShape(SetRec(b, l, r), b');
  }

  lemma NewOk(b: Bmap, l: LeaseId, r: Rec)
    requires RingsOk(b) && CountsOk(b) && l !in b.rec && !r.linked
    ensures RingsOk(SetRec(b, l, r)) && CountsOk(SetRec(b, l, r))
    ensures Coherent(b) ==> Coherent(SetRec(b, l, r))
  {
    var b' := SetRec(b, l, r);
    forall c | c in b.rings ensures RingOk(b', c) && CountW(b.rings[c], b.rec) == CountW(b.rings[c], b'.rec) {
      assert RingOk(b, c);
      CountWFrame(b.rings[c], b.rec, b'.rec);
    }
    forall m | m in b'.rec && b'.rec[m].linked ensures OnRing(b', m) {
      assert OnRing(b, m);
    }
    assert Writers(b') == Writers(b) && Readers(b') == Readers(b);
  }

  lemma ReleaseStep(s: Sys, l: LeaseId, drains: bool)
    requires BmapOk(s.b) && l in s.b.rec
    ensures BmapOk(ReleaseSys(s, l, drains).b)
  {
    ReleaseOk(s.b, l);
    SameShape(Release(s.b, l), ReleaseSys(s, l, drains).b);
  }

  lemma GrantStep(s: Sys, l: LeaseId, n: nat)
    requires BmapOk(s.b) && l in s.b.rec && !s.b.rec[l].linked
    ensures BmapOk(Grant(s, l, n).b)
  {
    var r := s.b.rec[l];
    if Waits(s.b, r.client, r.write, r.dio) {
      var b1 := Directio(s.b, r.client, r.write, r.dio);
      DirectioSimilar(s.b, r.client, r.write, r.dio);
      SimilarOk(s.b, b1);
      SetRecOk(b1, l, b1.rec[l].(freeing := true));
      ReleaseStep(Condemn(s.(b := b1), l), l, false);
    } else {
      GrantOk(s.b, l, n);
    }
  }

  lemma GrantEndStep(s: Sys, l: LeaseId, o: Outcome)
    requires BmapOk(s.b) && CanBind(s.b, l, o)
    ensures BmapOk(GrantEnd(s, l, o).b)
    ensures forall drains :: BmapOk(ReleaseSys(GrantEnd(s, l, o), l, drains).b)
  {
    BindSimilar(s.b, l, o);
    var b1 := Bind(s.b, l, o).(barrier := Open);
    SimilarOk(s.b, b1);
    SetRecOk(b1, l, b1.rec[l].(freeing := true));
    forall drains ensures BmapOk(ReleaseSys(GrantEnd(s, l, o), l, drains).b) {
      ReleaseStep(GrantEnd(s, l, o), l, drains);
    }
  }

  lemma UpgradeStep(s: Sys, l: LeaseId)
    requires BmapOk(s.b) && l in s.b.rec
    ensures BmapOk(UpgradeBegin(s, l).b)
  {
    if !s.b.rec[l].write {
      DirectioSimilar(s.b, s.b.rec[l].client, true, false);
      SimilarOk(s.b, UpgradeBegin(s, l).b);
    }
  }
}
