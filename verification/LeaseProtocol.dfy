/** All threads of the metadata server working on the leases of one bmap.

    The state adds to the bmap what the threads hold: `held` counts the references of
    every lease that some thread still has to give back, `expiring` is the lease the
    timeout thread has condemned but not yet released, `freed` the leases returned to
    the pool.  An event is one section of code run under the bmap lock, or under the lock
    of the lease alone; events of different threads interleave freely. */
module LeaseProtocol {
  import opened Common
  import opened BmapLease
  import opened LeaseCounts

  datatype Sys = Sys(b: Bmap, held: multiset<LeaseId>, expiring: Option<LeaseId>, freed: set<LeaseId>)

  datatype Event =
    | New(l: LeaseId, client: Client, write: bool, dio: bool)
    | GrantRead(l: LeaseId, seqno: nat)
    | GrantWrite(l: LeaseId)
    | GrantWriteEnd(l: LeaseId, o: Outcome, drains: bool)
    | Upgrade(l: LeaseId)
    | UpgradeEnd(l: LeaseId, o: Outcome)
    | Reassign(l: LeaseId)
    | ReassignEnd(l: LeaseId, target: Option<(nat, nat)>)
    | GetBml(l: LeaseId)
    | MarkFreeing(l: LeaseId)
    | Ack(l: LeaseId)
    | Expire(l: LeaseId)
    | Put(l: LeaseId, drains: bool)
    | PutExpired(drains: bool)
    | Drained

  ghost predicate Linked(s: Sys, l: LeaseId) {
    l in s.b.rec && s.b.rec[l].linked
  }

  // ----- One release, mds_bmap_bml_release() -----

  /** The release unbinds the server, after which it may drop the lock to queue
      replication work with the barrier still up. */
  ghost predicate MayDrain(b: Bmap, l: LeaseId)
    requires l in b.rec
  {
    LastRef(b, l) && b.rec[l].linked && b.rec[l].write && Unlink(b, l).writers == 0
    && !b.noion && !b.rec[l].assfail
  }

  ghost function ReleaseSys(s: Sys, l: LeaseId, drains: bool): Sys
    requires l in s.b.rec
  {
    var b' := Release(s.b, l).(barrier := if drains && MayDrain(s.b, l) then Draining else Open);
    s.(b := b', held := s.held - multiset{l},
       freed := if LastRef(s.b, l) then s.freed + {l} else s.freed,
       expiring := if LastRef(s.b, l) && s.expiring == Some(l) then None else s.expiring)
  }

  ghost function Condemn(s: Sys, l: LeaseId): Sys
    requires l in s.b.rec
  {
    s.(b := SetRec(s.b, l, s.b.rec[l].(freeing := true)))
  }

  // ----- When an event can happen -----

  /** A failed grant is condemned and released before the bmap lock is dropped. */
  ghost function GrantEnd(s: Sys, l: LeaseId, o: Outcome): (r: Sys)
    requires CanBind(s.b, l, o)
    ensures l in r.b.rec
  {
    var s1 := s.(b := Bind(s.b, l, o).(barrier := Open));
    if Succeeds(o) then s1 else Condemn(s1, l)
  }

  ghost predicate Enabled(s: Sys, e: Event) {
    var b := s.b;
    match e
    case New(l, _, _, _) => l !in b.rec && l !in s.freed
    case GrantRead(l, _) => l in s.held && l in b.rec && !b.rec[l].linked && !b.rec[l].write && b.barrier.Open?
    case GrantWrite(l) => l in s.held && l in b.rec && !b.rec[l].linked && b.rec[l].write && b.barrier.Open?
    case GrantWriteEnd(l, o, _) => b.barrier == Granting(l) && CanBind(b, l, o)
    case Upgrade(l) => l in s.held && Linked(s, l) && b.barrier.Open?
    case UpgradeEnd(l, o) => b.barrier == Upgrading(l) && CanBind(b, l, o)
    case Reassign(l) => l in s.held && Linked(s, l) && b.rec[l].write && b.barrier.Open?
    case ReassignEnd(l, o) => b.barrier == Reassigning(l) && l in b.rec
    case GetBml(l) => Linked(s, l)
    case MarkFreeing(l) => l in s.held && Linked(s, l)
    case Ack(l) => l in s.held && Linked(s, l)
    case Expire(l) => Linked(s, l) && b.rec[l].refcnt == 0 && s.expiring.None?
    case Put(l, _) => l in s.held && Linked(s, l) && b.barrier.Open?
    case PutExpired(_) => s.expiring.Some? && b.barrier.Open? && s.expiring.value in b.rec
    case Drained => b.barrier.Draining?
  }

  // ----- The assertions the source evaluates -----

  /** The assertions of mds_bmap_ios_assign() and mds_bmap_ios_update(). */
  ghost predicate BindAsserts(b: Bmap, o: Outcome) {
    if b.ion.None? then b.assign.None?
    else b.assign.Some? && (o.Mismatch? || b.assign.value.seqno == b.seqno)
  }

  /** The assertions of mds_bmap_bml_add() on the server, lines 979 and 986. */
  ghost predicate GrantAsserts(b: Bmap, l: LeaseId)
    requires l in b.rec
  {
    b.ion.None? <==> CountW(Ring(b, b.rec[l].client), b.rec) == 0 && b.writers == 0
  }

  /** mds_lease_reassign() goes on: nobody but one writer has a lease. */
  ghost predicate Reassignable(b: Bmap) {
    b.writers <= 1 && b.readers <= 0
  }

  ghost predicate Asserts(s: Sys, e: Event)
    requires Enabled(s, e)
  {
    var b := s.b;
    match e
    case GrantWrite(l) => Waits(b, b.rec[l].client, true, b.rec[l].dio) || GrantAsserts(b, l)
    case GrantWriteEnd(l, o, _) => BindAsserts(b, o) && (Succeeds(o) || ReleaseAsserts(GrantEnd(s, l, o).b, l))
    case UpgradeEnd(l, o) => BindAsserts(b, o) && (Succeeds(o) ==> Bind(b, l, o).ion.Some?)
    case Reassign(l) =>
      Reassignable(b) ==> b.ion.Some? && !b.dio && b.assign.Some? && b.assign.value.seqno == b.seqno
    case Put(l, _) => ReleaseAsserts(b, l)
    case PutExpired(_) => ReleaseAsserts(b, s.expiring.value)
    case _ => true
  }

  // ----- What it does -----

  /** mds_bmap_bml_add() until the lock is dropped or the operation is over. */
  ghost function Grant(s: Sys, l: LeaseId, seqno: nat): Sys
    requires l in s.b.rec
  {
    var r := s.b.rec[l];
    var b1 := Directio(s.b, r.client, r.write, r.dio);
    if Waits(s.b, r.client, r.write, r.dio) then ReleaseSys(Condemn(s.(b := b1), l), l, false)
    else s.(b := if r.write then AddWrite(b1, l) else AddRead(b1, l, seqno))
  }

  ghost function UpgradeBegin(s: Sys, l: LeaseId): Sys
    requires l in s.b.rec
  {
    if s.b.rec[l].write then s
    else
      var b1 := Directio(s.b, s.b.rec[l].client, true, false);
      if Waits(s.b, s.b.rec[l].client, true, false) then s.(b := b1)
      else s.(b := b1.(barrier := Upgrading(l)))
  }

  ghost function UpgradeFinish(s: Sys, l: LeaseId, o: Outcome): Sys
    requires CanBind(s.b, l, o)
  {
    var b1 := Bind(s.b, l, o).(barrier := Open);
    s.(b := if Succeeds(o) then Convert(b1, l) else SetRec(b1, l, b1.rec[l].(assfail := true)))
  }

  /** mds_lease_reassign(); the server pointer bmi_wr_ion is not changed by it. */
  ghost function ReassignFinish(s: Sys, l: LeaseId, o: Option<(nat, nat)>): Sys
    requires l in s.b.rec
  {
    match o
    case None => s.(b := s.b.(barrier := Open))
    case Some((ios, n)) =>
      s.(b := SetRec(s.b, l, s.b.rec[l].(ios := ios, seqno := n))
              .(barrier := Open, seqno := n, assign := Some(Assign(ios, s.b.rec[l].client, n,
                  s.b.assign.Some? && s.b.assign.value.dio))))
  }

  ghost function Apply(s: Sys, e: Event): Sys
    requires Enabled(s, e)
  {
    var b := s.b;
    match e
    case New(l, c, w, dio) =>
      s.(b := SetRec(b, l, Rec(c, w, dio, false, 1, false, false, false, 0, 0)), held := s.held + multiset{l})
    case GrantRead(l, n) => Grant(s, l, n)
    case GrantWrite(l) => Grant(s, l, 0)
    case GrantWriteEnd(l, o, drains) =>
      if Succeeds(o) then GrantEnd(s, l, o) else ReleaseSys(GrantEnd(s, l, o), l, drains)
    case Upgrade(l) => UpgradeBegin(s, l)
    case UpgradeEnd(l, o) => UpgradeFinish(s, l, o)
    case Reassign(l) =>
      if !Reassignable(b) then s else s.(b := b.(barrier := Reassigning(l)))
    case ReassignEnd(l, o) => ReassignFinish(s, l, o)
    case GetBml(l) =>
      if b.rec[l].freeing then s
      else s.(b := SetRec(b, l, b.rec[l].(refcnt := b.rec[l].refcnt + 1)), held := s.held + multiset{l})
    case MarkFreeing(l) => Condemn(s, l)
    case Ack(l) => s.(b := SetRec(b, l, b.rec[l].(dio := true, diocb := false)))
    case Expire(l) => Condemn(s, l).(expiring := Some(l))
    case Put(l, drains) => ReleaseSys(s, l, drains)
    case PutExpired(drains) => ReleaseSys(s, s.expiring.value, drains)
    case Drained => s.(b := b.(barrier := Open))
  }

  // ----- The invariant -----

  /** The count of a lease is the number of references threads hold; a lease nobody refers
      to is linked and, if condemned, is the timeout thread's. */
  ghost predicate RefOk(s: Sys, l: LeaseId)
    requires l in s.b.rec
  {
    var r := s.b.rec[l];
    && r.refcnt == s.held[l]
    && (r.refcnt == 0 ==> r.linked)
    && (r.refcnt == 0 && r.freeing ==> s.expiring == Some(l))
    && (!r.linked ==> r.refcnt == 1)
  }

  ghost predicate RefsOk(s: Sys) {
    && (forall l :: l in s.b.rec ==> RefOk(s, l))
    && (forall l :: l in s.held ==> l in s.b.rec)
    && (s.expiring.Some? ==>
          var l := s.expiring.value; l in s.b.rec && s.b.rec[l].freeing && s.b.rec[l].refcnt == 0)
    && s.freed !! s.b.rec.Keys
  }

  ghost predicate BarrierOk(s: Sys) {
    match s.b.barrier
    case Open => true
    case Draining => true
    case Granting(l) => Linked(s, l) && l in s.held && s.b.rec[l].write
    case Upgrading(l) =>
      && Linked(s, l) && l in s.held && !s.b.rec[l].write
      && (s.b.dio || s.b.rings.Keys == {s.b.rec[l].client})
    case Reassigning(l) => Linked(s, l) && l in s.held && s.b.rec[l].write
  }

  ghost predicate Inv(s: Sys) {
    RingsOk(s.b) && CountsOk(s.b) && Coherent(s.b) && RefsOk(s) && BarrierOk(s)
  }

  ghost predicate Init(s: Sys) {
    s == Sys(Bmap(map[], map[], 0, 0, false, false, Open, false, None, None, s.b.seqno), multiset{}, None, s.freed)
  }
}
