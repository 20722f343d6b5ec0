/** The heap bmap under all threads: every schedule of LeaseProtocol can be played on it, event by
    event, and leaves it where the protocol says. */
module LeaseRun {
  import opened Common
  import opened BmapLease
  import opened LeaseCounts
  import opened LeaseSafety
  import opened LeaseProtocol
  import opened LeaseLifetime
  import opened LeaseRing
  import opened LeaseTable
  import opened LeaseBmap

  /** The bmap on the heap is that of the protocol state. */
  ghost predicate At(b: BmapInfo, s: Sys)
    reads b, b.table, b.table.live.Values
  {
    b.Valid() && b.View() == s.b
  }

  lemma MayDrainIff(v: Bmap, l: LeaseId)
    requires l in v.rec
    ensures MayDrain(v, l) <==> LastRef(v, l) && v.rec[l].linked && Unbinds(Unlink(v, l), l)
  {
  }

  /** What the timeout thread is still to release once `last` says whether lease `l` is gone. */
  function Left(x: Option<LeaseId>, l: LeaseId, last: bool): Option<LeaseId> {
    if last && x == Some(l) then None else x
  }

  method SetRecord(b: BmapInfo, bml: Lease, r: Rec, ghost s: Sys)
    requires At(b, s) && b.table.Owns(bml) && r.linked == bml.rec.linked && r.write == bml.rec.write
    modifies b`info, bml`rec
    ensures At(b, s.(b := SetRec(s.b, bml.id, r.(client := bml.client)))) && b.table.live == old(b.table.live)
  {
    b.Change(bml, r, b.info);
  }

  // ----- Releases and grants -----

  /** mds_bmap_bml_release(), with the barrier up if replication work is left. */
  method Release(b: BmapInfo, bml: Lease, drains: bool, ghost s: Sys) returns (last: bool)
    requires At(b, s) && b.table.Owns(bml)
    modifies b`info, b.table, b.table.live.Values
    ensures At(b, ReleaseSys(s, bml.id, drains))
    ensures ReleaseSys(s, bml.id, drains).expiring == Left(s.expiring, bml.id, last)
    ensures b.table.live == if last then old(b.table.live) - {bml.id} else old(b.table.live)
  {
    MayDrainIff(s.b, bml.id);
    var unbinds;
    last, unbinds := b.BmlRelease(bml);
    b.SetBarrier(if drains && unbinds then Draining else Open);
  }

  /** BML_FREEING is set. */
  method Condemn(b: BmapInfo, bml: Lease, ghost s: Sys)
    requires At(b, s) && b.table.Owns(bml)
    modifies b`info, bml`rec
    ensures At(b, LeaseProtocol.Condemn(s, bml.id)) && b.table.live == old(b.table.live)
  {
    SetRecord(b, bml, bml.rec.(freeing := true), s);
  }

  lemma DirectioKeeps(v: Bmap, c: Client, write: bool, want: bool, l: LeaseId)
    requires l in v.rec
    ensures var w := Directio(v, c, write, want).rec;
            l in w && w[l].linked == v.rec[l].linked && w[l].write == v.rec[l].write
  {
    DirectioSimilar(v, c, write, want);
  }

  /** mds_bmap_directio() for a lease. */
  method AskDio(b: BmapInfo, bml: Lease, write: bool, want: bool, ghost s: Sys) returns (wait: bool)
    requires At(b, s) && b.table.Owns(bml)
    modifies b`info, b.table.live.Values
    ensures At(b, s.(b := Directio(s.b, bml.client, write, want))) && b.table.live == old(b.table.live)
    ensures wait <==> Waits(s.b, bml.client, write, want)
    ensures bml.rec.linked == old(bml.rec.linked) && bml.rec.write == old(bml.rec.write)
  {
    DirectioKeeps(s.b, bml.client, write, want, bml.id);
    wait := b.BmapDirectio(bml.client, write, want);
    assert b.View().rec[bml.id].linked == bml.rec.linked && b.View().rec[bml.id].write == bml.rec.write;
  }

  /** The lease is put on its ring. */
  method Join(b: BmapInfo, bml: Lease, write: bool, n: nat, ghost s: Sys)
    requires At(b, s) && b.table.Owns(bml) && !bml.rec.linked && bml.rec.write == write
    modifies b`info, b.table`leases, b.table`rings, b.table.live.Values
    ensures At(b, s.(b := if write then AddWrite(s.b, bml.id) else AddRead(s.b, bml.id, n)))
    ensures b.table.live == old(b.table.live)
  {
    if write {
      b.BmlAddWrite(bml);
    } else {
      b.BmlAddRead(bml, n);
    }
  }

  /** mds_bmap_bml_add() until the lock is dropped or the operation is over. */
  method Grant(b: BmapInfo, bml: Lease, n: nat, ghost s: Sys) returns (last: bool)
    requires At(b, s) && b.table.Owns(bml) && !bml.rec.linked
    modifies b`info, b.table, b.table.live.Values
    ensures At(b, LeaseProtocol.Grant(s, bml.id, n))
    ensures b.table.live == if last then old(b.table.live) - {bml.id} else old(b.table.live)
    ensures LeaseProtocol.Grant(s, bml.id, n).expiring == Left(s.expiring, bml.id, last)
  {
    last := false;
    ghost var r, s1 := s.b.rec[bml.id], s.(b := Directio(s.b, bml.client, bml.rec.write, bml.rec.dio));
    assert r.client == bml.client && r.write == bml.rec.write && r.dio == bml.rec.dio;
    var wait := AskDio(b, bml, bml.rec.write, bml.rec.dio, s);
    if wait {
      Condemn(b, bml, s1);
      last := Release(b, bml, false, LeaseProtocol.Condemn(s1, bml.id));
    } else {
      Join(b, bml, bml.rec.write, n, s1);
    }
  }

  /** The end of a write grant: if no server was found the lease is released at once. */
  method GrantEnd(b: BmapInfo, bml: Lease, o: Outcome, drains: bool, ghost s: Sys) returns (last: bool)
    requires At(b, s) && b.table.Owns(bml) && CanBind(s.b, bml.id, o)
    modifies b`info, b.table, b.table.live.Values
    ensures var s' := LeaseProtocol.GrantEnd(s, bml.id, o);
            && At(b, if Succeeds(o) then s' else ReleaseSys(s', bml.id, drains))
            && (Succeeds(o) ==> !last)
            && (!Succeeds(o) ==> ReleaseSys(s', bml.id, drains).expiring == Left(s.expiring, bml.id, last))
    ensures b.table.live == if last then old(b.table.live) - {bml.id} else old(b.table.live)
  {
    last := false;
    b.BmlBind(bml, o);
    ghost var s1 := s.(b := b.View());
    if !Succeeds(o) {
      Condemn(b, bml, s1);
      last := Release(b, bml, drains, LeaseProtocol.Condemn(s1, bml.id));
    }
  }

  // ----- Upgrades and reassignments -----

  /** mds_bmap_bml_chwrmode() until the lock is dropped or the operation is over. */
  method Upgrade(b: BmapInfo, bml: Lease, ghost s: Sys)
    requires At(b, s) && b.table.Owns(bml)
    modifies b`info, b.table.live.Values
    ensures At(b, UpgradeBegin(s, bml.id)) && b.table.live == old(b.table.live)
  {
    if !bml.rec.write {
      var wait := AskDio(b, bml, true, false, s);
      if !wait {
        b.SetBarrier(Upgrading(bml.id));
      }
    }
  }

  method UpgradeClose(b: BmapInfo, bml: Lease, ok: bool, ghost s: Sys)
    requires At(b, s) && b.table.Owns(bml) && bml.rec.linked && !bml.rec.write
    modifies b`info, b.table`leases, b.table`rings, b.table.live.Values
    ensures b.table.live == old(b.table.live)
    ensures At(b, s.(b := if ok then Convert(s.b, bml.id)
                          else SetRec(s.b, bml.id, s.b.rec[bml.id].(assfail := true))))
  {
    if ok {
      b.BmlConvert(bml);
    } else {
      ghost var r := s.b.rec[bml.id];
      assert bml.rec.(assfail := true).(client := bml.client) == r.(assfail := true);
      SetRecord(b, bml, bml.rec.(assfail := true), s);
    }
  }

  /** The rest of mds_bmap_bml_chwrmode(). */
  method UpgradeEnd(b: BmapInfo, bml: Lease, o: Outcome, ghost s: Sys)
    requires At(b, s) && b.table.Owns(bml) && CanBind(s.b, bml.id, o) && bml.rec.linked && !bml.rec.write
    modifies b`info, b.table`leases, b.table`rings, b.table.live.Values
    ensures At(b, UpgradeFinish(s, bml.id, o)) && b.table.live == old(b.table.live)
  {
    b.BmlBind(bml, o);
    UpgradeClose(b, bml, Succeeds(o), s.(b := b.View()));
  }

  /** mds_lease_reassign() until the lock is dropped or the operation is over. */
  method Reassign(b: BmapInfo, bml: Lease, ghost s: Sys)
    requires At(b, s) && b.table.Owns(bml)
    modifies b`info
    ensures At(b, if !Reassignable(s.b) then s else s.(b := s.b.(barrier := Reassigning(bml.id))))
  {
    if b.info.writers <= 1 && b.info.readers <= 0 {
      b.SetBarrier(Reassigning(bml.id));
    }
  }

  /** The scalars after mds_lease_reassign(). */
  function ReassignScalars(i: Info, c: Client, ios: nat, n: nat): Info {
    i.(barrier := Open, seqno := n, assign := Some(Assign(ios, c, n, i.assign.Some? && i.assign.value.dio)))
  }

  lemma ReassignWhole(s: Sys, l: LeaseId, target: Option<(nat, nat)>, ios: nat, n: nat)
    requires l in s.b.rec && target == Some((ios, n))
    ensures ReassignFinish(s, l, target).b ==
            Whole(s.b.rec[l := s.b.rec[l].(ios := ios, seqno := n)], s.b.rings,
                  ReassignScalars(Scalars(s.b), s.b.rec[l].client, ios, n))
  {
  }

  /** The rest of mds_lease_reassign(). */
  method ReassignEnd(b: BmapInfo, bml: Lease, target: Option<(nat, nat)>, ghost s: Sys)
    requires At(b, s) && b.table.Owns(bml)
    modifies b`info, bml`rec
    ensures At(b, ReassignFinish(s, bml.id, target)) && b.table.live == old(b.table.live)
  {
    if target.None? {
      b.SetBarrier(Open);
    } else {
      var ios, n := target.value.0, target.value.1;
      ReassignWhole(s, bml.id, target, ios, n);
      b.Change(bml, bml.rec.(ios := ios, seqno := n), ReassignScalars(b.info, bml.client, ios, n));
    }
  }

  // ----- Schedules -----

  /** Events that can give back the last reference to their lease. */
  predicate MayFree(e: Event) {
    e.GrantRead? || e.GrantWrite? || e.GrantWriteEnd? || e.Put? || e.PutExpired?
  }

  method FreeStep(b: BmapInfo, bml: Lease, e: Event, ghost s: Sys) returns (last: bool)
    requires At(b, s) && Enabled(s, e) && MayFree(e) && b.table.Owns(bml)
    requires bml.id == if e.PutExpired? then s.expiring.value else e.l
    modifies b`info, b.table, b.table.live.Values
    ensures At(b, Apply(s, e)) && Apply(s, e).expiring == Left(s.expiring, bml.id, last)
    ensures b.table.live == if last then old(b.table.live) - {bml.id} else old(b.table.live)
  {
    match e {
      case GrantRead(_, n) => last := Grant(b, bml, n, s);
      case GrantWrite(_) => last := Grant(b, bml, 0, s);
      case GrantWriteEnd(_, o, drains) => last := GrantEnd(b, bml, o, drains, s);
      case Put(_, drains) => last := Release(b, bml, drains, s);
      case PutExpired(drains) => last := Release(b, bml, drains, s);
    }
  }

  /** Events that raise or lower the barrier, or would. */
  predicate MovesBarrier(e: Event) {
    e.Upgrade? || e.UpgradeEnd? || e.Reassign? || e.ReassignEnd?
  }

  method BarrierStep(b: BmapInfo, bml: Lease, e: Event, ghost s: Sys)
    requires At(b, s) && BarrierOk(s) && Enabled(s, e) && MovesBarrier(e) && b.table.Owns(bml) && bml.id == e.l
    modifies b`info, b.table`leases, b.table`rings, b.table.live.Values
    ensures At(b, Apply(s, e)) && b.table.live == old(b.table.live)
  {
    match e {
      case Upgrade(_) => Upgrade(b, bml, s);
      case UpgradeEnd(_, o) => UpgradeEnd(b, bml, o, s);
      case Reassign(_) => Reassign(b, bml, s);
      case ReassignEnd(_, target) => ReassignEnd(b, bml, target, s);
    }
  }

  /** What a step local to one lease makes of its record. */
  function LocalRec(r: Rec, e: Event): Rec {
    if e.GetBml? then if r.freeing then r else GainRef(r)
    else if e.Ack? then r.(dio := true, diocb := false)
    else r.(freeing := true)
  }

  lemma LocalIs(s: Sys, e: Event, l: LeaseId)
    requires Enabled(s, e) && FlagStep(e) && l == e.l
    ensures l in s.b.rec && Apply(s, e).b == SetRec(s.b, l, LocalRec(s.b.rec[l], e))
  {
    if e.GetBml? && s.b.rec[l].freeing {
      assert s.b.rec[l := s.b.rec[l]] == s.b.rec;
    }
  }

  lemma LocalKeeps(r: Rec, e: Event, c: Client)
    ensures LocalRec(r, e).linked == r.linked && LocalRec(r, e).write == r.write
    ensures LocalRec(r, e).(client := c) == LocalRec(r.(client := c), e)
  {
    if e.GetBml? {
    } else if e.Ack? {
      assert r.(client := c).(dio := true, diocb := false) == r.(dio := true, diocb := false).(client := c);
    }
  }

  /** Who the timeout thread is about to release. */
  lemma ExpiringIs(s: Sys, e: Event)
    requires Enabled(s, e) && !MayFree(e)
    ensures Apply(s, e).expiring == if e.Expire? then Some(e.l) else s.expiring
  {
  }

  /** A reference is taken, the lease condemned, or DIO acknowledged. */
  method LocalStep(b: BmapInfo, bml: Lease, e: Event, ghost s: Sys)
    requires At(b, s) && Enabled(s, e) && FlagStep(e) && b.table.Owns(bml) && bml.id == e.l
    modifies b`info, bml`rec
    ensures At(b, Apply(s, e)) && b.table.live == old(b.table.live)
  {
    LocalIs(s, e, bml.id);
    LocalKeeps(bml.rec, e, bml.client);
    SetRecord(b, bml, LocalRec(bml.rec, e), s);
  }

  /** The leases `h` and the lease `x` of the timeout thread are those of the protocol state. */
  ghost predicate Follows(b: BmapInfo, h: Live, x: Option<LeaseId>, s: Sys)
    reads b, b.table, b.table.live.Values
  {
    At(b, s) && h == b.table.live && x == s.expiring
  }

  /** The lease of an event, which there is in every reachable state. */
  lemma LeaseOf(b: BmapInfo, h: Live, x: Option<LeaseId>, e: Event, s: Sys)
    requires Follows(b, h, x, s) && Inv(s) && Enabled(s, e) && !e.New? && !e.Drained?
    ensures var l := if e.PutExpired? then s.expiring.value else e.l; l in h && b.table.Owns(h[l]) && h[l].id == l
  {
    var l := if e.PutExpired? then s.expiring.value else e.l;
    assert l in s.b.rec;
    assert l in b.View().rec;
  }

  /** An event of a lease that is there. */
  method PerformOld(b: BmapInfo, h: Live, x: Option<LeaseId>, bml: Lease, e: Event, ghost s: Sys)
    returns (h': Live, x': Option<LeaseId>)
    requires Follows(b, h, x, s) && Inv(s) && Enabled(s, e) && !e.New? && !e.Drained?
    requires b.table.Owns(bml) && bml.id == if e.PutExpired? then s.expiring.value else e.l
    modifies b`info, b.table, b.table.live.Values
    ensures Follows(b, h', x', Apply(s, e)) && h'.Values <= h.Values
  {
    h', x' := h, x;
    if MayFree(e) {
      var last := FreeStep(b, bml, e, s);
      h', x' := if last then h - {bml.id} else h, Left(x, bml.id, last);
    } else {
      ExpiringIs(s, e);
      if FlagStep(e) {
        LocalStep(b, bml, e, s);
        x' := if e.Expire? then Some(e.l) else x;
      } else {
        BarrierStep(b, bml, e, s);
      }
    }
  }

  method PerformNew(b: BmapInfo, h: Live, x: Option<LeaseId>, e: Event, ghost s: Sys) returns (h': Live)
    requires Follows(b, h, x, s) && Enabled(s, e) && e.New?
    modifies b`info, b.table, b.table.live.Values
    ensures Follows(b, h', x, Apply(s, e)) && fresh(h'.Values - h.Values)
  {
    ExpiringIs(s, e);
    assert e.l !in b.View().rec;
    var bml := b.BmlNew(e.l, e.client, e.write, e.dio);
    h' := h[e.l := bml];
  }

  /** One event on the heap. */
  method Perform(b: BmapInfo, h: Live, x: Option<LeaseId>, e: Event, ghost s: Sys)
    returns (h': Live, x': Option<LeaseId>)
    requires Follows(b, h, x, s) && Inv(s) && Enabled(s, e)
    modifies b`info, b.table, b.table.live.Values
    ensures Follows(b, h', x', Apply(s, e)) && fresh(h'.Values - h.Values)
  {
    if e.New? {
      x' := x;
      h' := PerformNew(b, h, x, e, s);
    } else if e.Drained? {
      h', x' := h, x;
      b.SetBarrier(Open);
    } else {
      LeaseOf(b, h, x, e, s);
      h', x' := PerformOld(b, h, x, h[if e.PutExpired? then x.value else e.l], e, s);
    }
  }

  /** A whole run on the heap: from a new bmap, event by event, the leases, rings, counts, flags
      and binding are those of the protocol, and coherent. */
  method Play(seqno: nat, ev: seq<Event>, ghost tr: seq<Sys>) returns (b: BmapInfo, h: Live)
    requires IsRun(tr, ev) && tr[0].b.seqno == seqno
    ensures Follows(b, h, tr[|ev|].expiring, tr[|ev|]) && Coherent(b.View())
    ensures fresh(b) && fresh(b.table) && fresh(h.Values)
  {
    b := new BmapInfo(seqno);
    h := map[];
    var x: Option<LeaseId> := None;
    for i := 0 to |ev|
      invariant fresh(b) && fresh(b.table) && fresh(h.Values)
      invariant Follows(b, h, x, tr[i])
    {
      RunInv(tr, ev, i);
      h, x := Perform(b, h, x, ev[i], tr[i]);
    }
    RunInv(tr, ev, |ev|);
  }
}
