/** bmap_mds_info: the sections of slashd/mds.c that run under the bmap lock, on the heap.
    Each does to `View()` what the function of BmapLease named in its contract says. */
module LeaseBmap {
  import opened Common
  import opened BmapLease
  import opened LeaseCounts
  import opened LeaseSafety
  import opened LeaseRing
  import opened LeaseTable

  /** The scalar fields of the bmap and its bmap_mds_info. */
  datatype Info = Info(readers: int, writers: int, dio: bool, diocb: bool, barrier: Barrier,
                       noion: bool, ion: Option<nat>, assign: Option<Assign>, seqno: nat)

  ghost function Whole(rec: map<LeaseId, Rec>, rings: map<Client, seq<LeaseId>>, i: Info): Bmap {
    Bmap(rec, rings, i.readers, i.writers, i.dio, i.diocb, i.barrier, i.noion, i.ion, i.assign, i.seqno)
  }

  /** A bmap is its leases, its rings and its scalars. */
  lemma WholeIs(b: Bmap, rec: map<LeaseId, Rec>, rings: map<Client, seq<LeaseId>>, i: Info)
    requires b.rec == rec && b.rings == rings && i == Scalars(b)
    ensures Whole(rec, rings, i) == b
  {
  }

  function Scalars(b: Bmap): Info {
    Info(b.readers, b.writers, b.dio, b.diocb, b.barrier, b.noion, b.ion, b.assign, b.seqno)
  }

  lemma AddReadScalars(b: Bmap, l: LeaseId, n: nat)
    requires l in b.rec
    ensures Scalars(AddRead(b, l, n))
            == Scalars(b).(readers := b.readers + if |Ring(b, b.rec[l].client)| == 0 then 1 else 0)
  {
  }

  /** The scalars after a write lease joined a ring of `w` write and `r` read leases. */
  function WriteScalars(i: Info, l: LeaseId, w: nat, r: nat): Info {
    i.(writers := i.writers + (if w == 0 then 1 else 0),
       readers := i.readers - (if w == 0 && r > 0 then 1 else 0), barrier := Granting(l))
  }

  lemma AddWriteScalars(b: Bmap, l: LeaseId, w: nat, r: nat)
    requires l in b.rec && w == CountW(Ring(b, b.rec[l].client), b.rec) && w + r == |Ring(b, b.rec[l].client)|
    ensures Scalars(AddWrite(b, l)) == WriteScalars(Scalars(b), l, w, r)
  {
  }

  /** The scalars after a lease left a ring of `w` write and `r` read leases. */
  function DelScalars(i: Info, write: bool, w: nat, r: nat): Info {
    if write then
      if w == 1 then i.(writers := i.writers - 1, readers := i.readers + if r > 0 then 1 else 0) else i
    else if w == 0 && r == 1 then i.(readers := i.readers - 1) else i
  }

  lemma UnlinkScalars(b: Bmap, l: LeaseId, w: nat, r: nat)
    requires l in b.rec && w == CountW(Ring(b, b.rec[l].client), b.rec) && w + r == |Ring(b, b.rec[l].client)|
    ensures Scalars(Unlink(b, l)) == DelScalars(Scalars(b), b.rec[l].write, w, r)
  {
  }

  function ConvertScalars(i: Info, w: nat): Info {
    if w == 0 then i.(writers := i.writers + 1, readers := i.readers - 1) else i
  }

  lemma ConvertWhole(b: Bmap, l: LeaseId, w: nat)
    requires l in b.rec && w == CountW(Ring(b, b.rec[l].client), b.rec)
    ensures Scalars(Convert(b, l)) == ConvertScalars(Scalars(b), w)
    ensures Convert(b, l).rec == b.rec[l := WriteRec(b.rec[l])] && Convert(b, l).rings == b.rings
  {
  }

  /** Lease and scalars after mds_bmap_ios_assign(). */
  function AssignRec(r: Rec, o: Outcome): Rec
    requires !o.Mismatch?
  {
    match o
    case Offline => r.(assfail := true)
    case NoSlot(_) => r.(assfail := true)
    case Bound(ios, n) => r.(ios := ios, seqno := n)
    case ReplFail(ios, _) => r.(ios := ios)
  }

  function AssignScalars(i: Info, c: Client, o: Outcome): Info
    requires !o.Mismatch?
  {
    match o
    case Offline => i.(noion := true)
    case NoSlot(ios) => i.(noion := true, ion := Some(ios))
    case Bound(ios, n) => AssignedScalars(i, c, ios, n)
    case ReplFail(ios, n) => AssignedScalars(i, c, ios, n)
  }

  function AssignedScalars(i: Info, c: Client, ios: nat, n: nat): Info {
    i.(noion := false, ion := Some(ios), seqno := n, assign := Some(Assign(ios, c, n, i.dio)))
  }

  lemma AssignKeeps(r: Rec, c: Client, o: Outcome)
    requires !o.Mismatch?
    ensures AssignRec(r, o).(client := c) == AssignRec(r.(client := c), o)
    ensures AssignRec(r, o).linked == r.linked && AssignRec(r, o).write == r.write
  {
    match o
    case Offline => assert r.(assfail := true).(client := c) == r.(client := c).(assfail := true);
    case NoSlot(_) => assert r.(assfail := true).(client := c) == r.(client := c).(assfail := true);
    case Bound(ios, n) =>
      assert r.(ios := ios, seqno := n).(client := c) == r.(client := c).(ios := ios, seqno := n);
    case ReplFail(ios, _) => assert r.(ios := ios).(client := c) == r.(client := c).(ios := ios);
  }

  lemma AssignWhole(b: Bmap, l: LeaseId, o: Outcome)
    requires l in b.rec && !o.Mismatch?
    ensures IosAssign(b, l, o) ==
            Whole(b.rec[l := AssignRec(b.rec[l], o)], b.rings, AssignScalars(Scalars(b), b.rec[l].client, o))
  {
  }

  /** The scalars after mds_bmap_ios_update(). */
  function UpdateScalars(i: Info, c: Client, ios: nat, n: nat): Info {
    i.(seqno := n, assign := Some(Assign(ios, c, n, i.dio)))
  }

  lemma UpdateWhole(b: Bmap, l: LeaseId, o: Outcome, ios: nat, n: nat)
    requires l in b.rec && (o.Bound? || o.ReplFail?) && n == o.seqno
    requires b.assign.Some? && ios == b.assign.value.ios
    ensures IosUpdate(b, l, o) ==
            Whole(b.rec[l := b.rec[l].(ios := ios, seqno := n)], b.rings,
                  UpdateScalars(Scalars(b), b.rec[l].client, ios, n))
  {
  }

  /** The scalars after the walk of mds_bmap_directio() with these findings. */
  function DioScalars(i: Info, want: bool, foreign: bool, wait: bool, asks: bool): Info {
    if wait then i.(diocb := i.diocb || asks)
    else if want || i.diocb || foreign then i.(dio := true, diocb := false) else i
  }

  /** The scalars once the last reference to a linked lease is gone. */
  function ReleaseScalars(i: Info, write: bool, assfail: bool): Info {
    var c := if (i.dio || i.diocb) && (i.writers == 0 || (i.writers == 1 && i.readers == 0))
             then i.(dio := false, diocb := false) else i;
    if write && c.writers == 0 && !c.noion && !assfail then c.(assign := None, ion := None) else c
  }

  /** With an unlinked lease goes the binding to the server. */
  ghost predicate Unbinds(u: Bmap, l: LeaseId) {
    l in u.rec && u.rec[l].write && u.writers == 0 && !u.noion && !u.rec[l].assfail
  }

  /** What follows the unlinking of a lease whose last reference is gone. */
  ghost function Settled(u: Bmap, l: LeaseId): Bmap
    requires l in u.rec
  {
    Free(Unbind(ClearDio(u), l), l)
  }

  lemma SettledOk(u: Bmap, l: LeaseId)
    requires RingsOk(u) && CountsOk(u) && l in u.rec && !u.rec[l].linked
    ensures RingsOk(Settled(u, l)) && CountsOk(Settled(u, l))
  {
    var x := Unbind(ClearDio(u), l);
    assert x.rec == u.rec && x.rings == u.rings && x.readers == u.readers && x.writers == u.writers;
    FrameOk(u, x);
    FreeRings(x, l);
  }

  lemma SettledWhole(u: Bmap, l: LeaseId)
    requires l in u.rec
    ensures Settled(u, l) == Whole(u.rec - {l}, u.rings, ReleaseScalars(Scalars(u), u.rec[l].write, u.rec[l].assfail))
  {
  }

  lemma WalkBlocks(v: Bmap, done: set<LeaseId>, c: Client, onlyNew: bool)
    requires forall l :: l in v.rec ==> (l in done <==> v.rec[l].linked)
    ensures AnyIn(v.rec, done, c, onlyNew)
            <==> exists l :: l in v.rec && Blocking(v, c, l) && !(onlyNew && v.rec[l].diocb)
  {
    forall l | l in v.rec ensures Blocking(v, c, l) <==> l in done && Blocks(v.rec[l], v.rec[l].client, c) {
    }
  }

  lemma WalkRecs(v: Bmap, m: map<LeaseId, Rec>, done: set<LeaseId>, c: Client, write: bool, want: bool)
    requires !v.dio && MustCheck(v, write, want) && m.Keys == v.rec.Keys
    requires forall l :: l in v.rec ==> (l in done <==> v.rec[l].linked)
    requires forall l :: l in v.rec ==> m[l] == if l in done then Asked(v.rec[l], v.rec[l].client, c) else v.rec[l]
    ensures Directio(v, c, write, want).rec == m && Directio(v, c, write, want).rings == v.rings
  {
    var d := Directio(v, c, write, want).rec;
    forall l | l in v.rec ensures l in d && d[l] == m[l] {
      assert Blocking(v, c, l) ==> Waits(v, c, write, want);
    }
  }

  /** What the walk found is what Directio() goes by. */
  lemma WalkScalars(v: Bmap, c: Client, write: bool, want: bool, foreign: bool, wait: bool, asks: bool)
    requires !v.dio && MustCheck(v, write, want)
    requires wait <==> exists l :: l in v.rec && Blocking(v, c, l)
    requires asks <==> exists l :: l in v.rec && Blocking(v, c, l) && !v.rec[l].diocb
    requires foreign <==> exists l :: l in v.rec && Foreign(v, c, l)
    ensures wait <==> Waits(v, c, write, want)
    ensures Scalars(Directio(v, c, write, want)) == DioScalars(Scalars(v), want, foreign, wait, asks)
  {
  }

  /** What the walk found and did is what Directio() says. */
  lemma WalkIsDirectio(v: Bmap, m: map<LeaseId, Rec>, done: set<LeaseId>, c: Client, write: bool, want: bool,
                       foreign: bool, wait: bool, asks: bool)
    requires !v.dio && MustCheck(v, write, want) && m.Keys == v.rec.Keys
    requires forall l :: l in v.rec ==> (l in done <==> v.rec[l].linked)
    requires forall l :: l in v.rec ==> m[l] == if l in done then Asked(v.rec[l], v.rec[l].client, c) else v.rec[l]
    requires (wait <==> AnyIn(v.rec, done, c, false)) && (asks <==> AnyIn(v.rec, done, c, true))
    requires foreign <==> exists l :: l in v.rec && Foreign(v, c, l)
    ensures wait <==> Waits(v, c, write, want)
    ensures Directio(v, c, write, want).rec == m && Directio(v, c, write, want).rings == v.rings
    ensures Scalars(Directio(v, c, write, want)) == DioScalars(Scalars(v), want, foreign, wait, asks)
  {
    WalkBlocks(v, done, c, false);
    WalkBlocks(v, done, c, true);
    WalkRecs(v, m, done, c, write, want);
    WalkScalars(v, c, write, want, foreign, wait, asks);
  }

  class BmapInfo {
    const table: Table
    var info: Info

    constructor (seqno: nat)
      ensures Valid() && View() == Bmap(map[], map[], 0, 0, false, false, Open, false, None, None, seqno)
      ensures fresh(table) && table.live == map[]
    {
      table := new Table();
      info := Info(0, 0, false, false, Open, false, None, None, seqno);
      new;
      assert Writers(View()) == {} && Readers(View()) == {};
    }

    ghost function View(): Bmap
      reads this, table, table.live.Values
    {
      Whole(Recs(table.live), IdRings(table.rings), info)
    }

    ghost predicate Valid()
      reads this, table, table.live.Values
    {
      table.Ok() && RingsOk(View()) && CountsOk(View())
    }

    lemma RingOfView(c: Client)
      ensures Ring(View(), c) == Ids(RingIn(table.rings, c))
    {
    }

    lemma NotOnRing(l: Lease)
      requires table.Ok() && RingsOk(View()) && table.Owns(l) && !l.rec.linked
      ensures l !in RingIn(table.rings, l.client)
    {
      var r := RingIn(table.rings, l.client);
      forall k | 0 <= k < |r| ensures r[k].rec.linked {
        assert RingOk(View(), l.client);
        assert Ids(r)[k] in Ids(r);
      }
    }

    lemma IsOnRing(l: Lease)
      requires table.Ok() && RingsOk(View()) && table.Owns(l) && l.rec.linked
      ensures l in RingIn(table.rings, l.client)
    {
      assert OnRing(View(), l.id);
      var r := table.rings[l.client];
      var k :| 0 <= k < |r| && Ids(r)[k] == l.id;
      assert r[k] == l;
    }

    /** Only the scalars change. */
    method SetInfo(i: Info)
      requires table.Ok()
      modifies this`info
      ensures table.Ok() && View() == Whole(old(Recs(table.live)), old(IdRings(table.rings)), i)
    {
      ghost var m, g := Recs(table.live), table.rings;
      info := i;
      assert Recs(table.live) == m;
      forall c | c in g ensures Closed(g[c]) {
        ClosedKept(g[c]);
      }
    }

    /** The table already agrees with `w`; `i` are the scalars it is to have. */
    ghost predicate Linked(w: Bmap, i: Info)
      reads this, table, table.live.Values
    {
      table.Ok() && Recs(table.live) == w.rec && IdRings(table.rings) == w.rings && i == Scalars(w)
    }

    method LinkRead(bml: Lease, n: nat) returns (i: Info)
      requires table.Ok() && table.Owns(bml) && bml !in RingIn(table.rings, bml.client)
      modifies table`leases, table`rings, table.live.Values
      ensures Linked(AddRead(old(View()), bml.id, n), i)
    {
      RingOfView(bml.client);
      AddReadScalars(View(), bml.id, n);
      i := info;
      assert i == Scalars(View());
      var wlease, rlease := table.AddLease(bml, n);
      if wlease == 0 && rlease == 0 {
        i := i.(readers := i.readers + 1);
      }
    }

    method LinkWrite(bml: Lease) returns (i: Info)
      requires table.Ok() && table.Owns(bml) && bml !in RingIn(table.rings, bml.client)
      modifies table`leases, table`rings, table.live.Values
      ensures Linked(AddWrite(old(View()), bml.id), i)
    {
      ghost var v := View();
      RingOfView(bml.client);
      i := info;
      assert i == Scalars(v);
      var wlease, rlease := table.AddLease(bml, bml.rec.seqno);
      AddWriteScalars(v, bml.id, wlease, rlease);
      i := WriteScalars(i, bml.id, wlease, rlease);
    }

    method Finish(i: Info, ghost w: Bmap)
      requires Linked(w, i)
      modifies this`info
      ensures table.Ok() && View() == w
    {
      WholeIs(w, w.rec, w.rings, i);
      SetInfo(i);
    }

    method AdmitBml(bml: Lease)
      requires Valid() && bml.id !in table.live && bml !in table.live.Values && !bml.rec.linked
      modifies table`live
      ensures Valid() && table.live == old(table.live)[bml.id := bml]
      ensures View() == SetRec(old(View()), bml.id, bml.rec.(client := bml.client))
    {
      ghost var v := View();
      NewOk(v, bml.id, bml.rec.(client := bml.client));
      table.Admit(bml);
      assert View() == SetRec(v, bml.id, bml.rec.(client := bml.client));
    }

    /** mds_bml_new() */
    method BmlNew(id: LeaseId, c: Client, write: bool, dio: bool) returns (bml: Lease)
      requires Valid() && id !in table.live
      modifies table`live
      ensures Valid() && fresh(bml) && bml.id == id && table.live == old(table.live)[id := bml]
      ensures View() == SetRec(old(View()), id, Rec(c, write, dio, false, 1, false, false, false, 0, 0))
    {
      bml := new Lease(id, c, write, dio);
      assert Recs(table.live) == old(Recs(table.live));
      AdmitBml(bml);
    }

    /** mds_bmap_bml_add() for a read lease. */
    method BmlAddRead(bml: Lease, n: nat)
      requires Valid() && table.Owns(bml) && !bml.rec.linked && !bml.rec.write
      modifies this`info, table`leases, table`rings, table.live.Values
      ensures Valid() && View() == AddRead(old(View()), bml.id, n)
    {
      ghost var w := AddRead(View(), bml.id, n);
      AddReadOk(View(), bml.id, n);
      NotOnRing(bml);
      var i := LinkRead(bml, n);
      Finish(i, w);
    }

    /** mds_bmap_bml_add() for a write lease, until the lock is dropped. */
    method BmlAddWrite(bml: Lease)
      requires Valid() && table.Owns(bml) && !bml.rec.linked && bml.rec.write
      modifies this`info, table`leases, table`rings, table.live.Values
      ensures Valid() && View() == AddWrite(old(View()), bml.id)
    {
      ghost var w := AddWrite(View(), bml.id);
      AddWriteOk(View(), bml.id);
      NotOnRing(bml);
      var i := LinkWrite(bml);
      Finish(i, w);
    }

    method UnlinkBml(bml: Lease) returns (i: Info)
      requires table.Ok() && table.Owns(bml) && bml in RingIn(table.rings, bml.client)
      modifies table`leases, table`rings, table.live.Values
      ensures Linked(Unlink(old(View()), bml.id), i) && table.Owns(bml) && !bml.rec.linked
    {
      ghost var v := View();
      RingOfView(bml.client);
      i := info;
      assert i == Scalars(v) && v.rec[bml.id].write == bml.rec.write;
      var write := bml.rec.write;
      var wlease, rlease := table.DropLease(bml);
      UnlinkScalars(v, bml.id, wlease, rlease);
      i := DelScalars(i, write, wlease, rlease);
    }

    /** mds_bmap_bml_del_locked() and the clearing of BML_BMI. */
    method BmlDel(bml: Lease)
      requires Valid() && table.Owns(bml) && bml.rec.linked
      modifies this`info, table`leases, table`rings, table.live.Values
      ensures Valid() && View() == Unlink(old(View()), bml.id) && table.Owns(bml) && !bml.rec.linked
    {
      ghost var w := Unlink(View(), bml.id);
      UnlinkOk(View(), bml.id);
      UnlinkRings(View(), bml.id);
      IsOnRing(bml);
      var i := UnlinkBml(bml);
      Finish(i, w);
    }

    method ConvertBml(bml: Lease) returns (i: Info)
      requires table.Ok() && table.Owns(bml)
      modifies table`leases, table`rings, table.live.Values
      ensures Linked(Convert(old(View()), bml.id), i)
    {
      ghost var v := View();
      RingOfView(bml.client);
      i := info;
      assert i == Scalars(v);
      var wlease, rlease := table.ConvertLease(bml);
      ConvertWhole(v, bml.id, wlease);
      i := ConvertScalars(i, wlease);
    }

    /** The end of mds_bmap_bml_chwrmode(). */
    method BmlConvert(bml: Lease)
      requires Valid() && table.Owns(bml) && bml.rec.linked && !bml.rec.write
      modifies this`info, table`leases, table`rings, table.live.Values
      ensures Valid() && View() == Convert(old(View()), bml.id)
    {
      ghost var w := Convert(View(), bml.id);
      ConvertOk(View(), bml.id);
      var i := ConvertBml(bml);
      Finish(i, w);
    }

    lemma DoneIsLinked(l: LeaseId)
      requires table.Ok() && RingsOk(View()) && l in table.live
      ensures l in DoneIds(table.rings, table.leases, |table.leases|) <==> table.live[l].rec.linked
    {
      DoneFacts(table.live, table.rings, table.leases, |table.leases|);
      DoneAll(table.live, table.rings, table.leases);
      var bml := table.live[l];
      if bml.rec.linked {
        IsOnRing(bml);
        var k :| 0 <= k < |table.rings[bml.client]| && table.rings[bml.client][k] == bml;
      } else {
        NotOnRing(bml);
      }
    }

    lemma ForeignLease(c: Client)
      requires table.Ok() && RingsOk(View())
      ensures AnyForeign(table.leases, |table.leases|, c) <==> exists l :: l in View().rec && Foreign(View(), c, l)
    {
      var v := View();
      ForeignRing(table.rings, table.leases, c);
      forall d | d in table.rings && d != c ensures exists l :: l in v.rec && Foreign(v, c, l) {
        assert RingOk(v, d);
        var l := table.rings[d][0].id;
        assert Ids(table.rings[d])[0] in Ids(table.rings[d]);
        assert Foreign(v, c, l);
      }
      forall l | l in v.rec && Foreign(v, c, l) ensures v.rec[l].client in table.rings {
        assert OnRing(v, l);
      }
    }

    /** The leases on the listed rings are the linked ones. */
    ghost predicate AllListed(c: Client)
      reads this, table, table.live.Values
    {
      && (forall l :: l in View().rec ==>
            (l in DoneIds(table.rings, table.leases, |table.leases|) <==> View().rec[l].linked))
      && (AnyForeign(table.leases, |table.leases|, c) <==> exists l :: l in View().rec && Foreign(View(), c, l))
    }

    lemma ListedAll(c: Client)
      requires table.Ok() && RingsOk(View())
      ensures AllListed(c)
    {
      forall l | l in table.live
        ensures l in DoneIds(table.rings, table.leases, |table.leases|) <==> table.live[l].rec.linked
      {
        DoneIsLinked(l);
      }
      ForeignLease(c);
    }

    method AskAll(c: Client, write: bool, want: bool) returns (i: Info, wait: bool)
      requires table.Ok() && AllListed(c) && !info.dio && MustCheck(View(), write, want)
      modifies table.live.Values`rec
      ensures Linked(Directio(old(View()), c, write, want), i)
      ensures wait <==> Waits(old(View()), c, write, want)
    {
      ghost var v, done := View(), DoneIds(table.rings, table.leases, |table.leases|);
      i := info;
      var foreign, asks;
      foreign, wait, asks := table.Ask(c);
      WalkIsDirectio(v, Recs(table.live), done, c, write, want, foreign, wait, asks);
      i := DioScalars(i, want, foreign, wait, asks);
    }

    /** mds_bmap_directio(). */
    method BmapDirectio(c: Client, write: bool, want: bool) returns (wait: bool)
      requires Valid()
      modifies this`info, table.live.Values`rec
      ensures Valid() && View() == Directio(old(View()), c, write, want)
      ensures wait <==> Waits(old(View()), c, write, want)
    {
      wait := false;
      if info.dio || !(want || info.diocb || info.writers != 0 || (write && info.readers != 0)) {
        return;
      }
      ghost var w := Directio(View(), c, write, want);
      DirectioSimilar(View(), c, write, want);
      SimilarOk(View(), w);
      ListedAll(c);
      var i;
      i, wait := AskAll(c, write, want);
      Finish(i, w);
    }

    /** A lease and the scalars get new values; rings and counts are not touched. */
    method Change(bml: Lease, r: Rec, i: Info)
      requires Valid() && table.Owns(bml) && r.linked == bml.rec.linked && r.write == bml.rec.write
      requires i.readers == info.readers && i.writers == info.writers
      modifies this`info, bml`rec
      ensures Valid() && table.live == old(table.live) && bml.rec == r
      ensures View() == Whole(old(View()).rec[bml.id := r.(client := bml.client)], old(View()).rings, i)
    {
      ghost var v := View();
      ghost var w := Whole(v.rec[bml.id := r.(client := bml.client)], v.rings, i);
      FrameOk(v, w);
      table.SetLease(bml, r);
      SetInfo(i);
    }

    /** mds_bmap_ios_assign(), when the lock is taken again. */
    method IosAssign(bml: Lease, o: Outcome)
      requires Valid() && table.Owns(bml) && !o.Mismatch?
      modifies this`info, bml`rec
      ensures Valid() && table.live == old(table.live) && View() == BmapLease.IosAssign(old(View()), bml.id, o)
      ensures bml.rec.linked == old(bml.rec.linked) && bml.rec.write == old(bml.rec.write)
    {
      AssignWhole(View(), bml.id, o);
      AssignKeeps(bml.rec, bml.client, o);
      var r, i := AssignRec(bml.rec, o), AssignScalars(info, bml.client, o);
      Change(bml, r, i);
    }

    /** mds_bmap_ios_update(), when the lock is taken again. */
    method IosUpdate(bml: Lease, o: Outcome)
      requires Valid() && table.Owns(bml) && (o.Bound? || o.ReplFail? || o.Mismatch?)
      modifies this`info, bml`rec
      ensures Valid() && table.live == old(table.live) && View() == BmapLease.IosUpdate(old(View()), bml.id, o)
      ensures bml.rec.linked == old(bml.rec.linked) && bml.rec.write == old(bml.rec.write)
    {
      if !o.Mismatch? && info.assign.Some? {
        var ios, n := info.assign.value.ios, o.seqno;
        UpdateWhole(View(), bml.id, o, ios, n);
        Change(bml, bml.rec.(ios := ios, seqno := n), UpdateScalars(info, bml.client, ios, n));
      }
    }

    /** The end of a section behind the barrier: the server is assigned or updated. */
    method BmlBind(bml: Lease, o: Outcome)
      requires Valid() && CanBind(View(), bml.id, o) && table.Owns(bml)
      modifies this`info, bml`rec
      ensures Valid() && table.live == old(table.live)
      ensures View() == Bind(old(View()), bml.id, o).(barrier := Open)
      ensures bml.rec.linked == old(bml.rec.linked) && bml.rec.write == old(bml.rec.write)
    {
      if info.ion.None? {
        IosAssign(bml, o);
      } else {
        IosUpdate(bml, o);
      }
      SetBarrier(Open);
    }

    method SetBarrier(to: Barrier)
      requires Valid()
      modifies this`info
      ensures Valid() && View() == old(View()).(barrier := to)
    {
      ghost var v := View();
      FrameOk(v, v.(barrier := to));
      SetInfo(info.(barrier := to));
    }

    /** One reference less. */
    method DropRef(bml: Lease)
      requires Valid() && table.Owns(bml)
      modifies bml`rec
      ensures Valid() && View() == SetRec(old(View()), bml.id, LoseRef(old(View()).rec[bml.id]))
    {
      ghost var v := View();
      assert LoseRef(v.rec[bml.id]) == LoseRef(bml.rec).(client := bml.client);
      SetRecOk(v, bml.id, LoseRef(v.rec[bml.id]));
      table.SetLease(bml, LoseRef(bml.rec));
    }

    /** A lease off the rings goes back to the pool, and the scalars are settled. */
    method FreeBml(bml: Lease, i: Info)
      requires Valid() && table.Owns(bml) && !bml.rec.linked
      modifies this`info, table`live
      ensures table.Ok() && View() == Whole(old(View()).rec - {bml.id}, old(View()).rings, i)
      ensures table.live == old(table.live) - {bml.id}
    {
      NotOnRing(bml);
      table.Forget(bml);
      SetInfo(i);
    }

    /** mds_bmap_bml_release(), from the unlinking on. */
    method Settle(bml: Lease) returns (unbinds: bool)
      requires Valid() && table.Owns(bml) && !bml.rec.linked
      modifies this`info, table`live
      ensures Valid() && View() == Settled(old(View()), bml.id) && table.live == old(table.live) - {bml.id}
      ensures unbinds <==> Unbinds(old(View()), bml.id)
    {
      SettledOk(View(), bml.id);
      SettledWhole(View(), bml.id);
      unbinds := bml.rec.write && info.writers == 0 && !info.noion && !bml.rec.assfail;
      FreeBml(bml, ReleaseScalars(info, bml.rec.write, bml.rec.assfail));
    }

    method DropLast(bml: Lease) returns (unbinds: bool)
      requires Valid() && table.Owns(bml)
      modifies this`info, table, table.live.Values
      ensures var v := old(View());
              Valid() && View() == if v.rec[bml.id].linked then Settled(Unlink(v, bml.id), bml.id) else Free(v, bml.id)
      ensures table.live == old(table.live) - {bml.id}
      ensures var v := old(View()); unbinds <==> v.rec[bml.id].linked && Unbinds(Unlink(v, bml.id), bml.id)
    {
      unbinds := false;
      assert View().rec[bml.id].linked == bml.rec.linked;
      if bml.rec.linked {
        BmlDel(bml);
        unbinds := Settle(bml);
      } else {
        FreeRings(View(), bml.id);
        FreeBml(bml, info);
      }
    }

    /** mds_bmap_bml_release(): whether the lease is gone, and whether the server was unbound. */
    method BmlRelease(bml: Lease) returns (last: bool, unbinds: bool)
      requires Valid() && table.Owns(bml)
      modifies this`info, table, table.live.Values
      ensures Valid() && View() == Release(old(View()), bml.id)
      ensures last <==> LastRef(old(View()), bml.id)
      ensures table.live == if last then old(table.live) - {bml.id} else old(table.live)
      ensures var v := old(View());
              unbinds <==> last && v.rec[bml.id].linked && Unbinds(Unlink(v, bml.id), bml.id)
    {
      last, unbinds := bml.rec.refcnt <= 1 && bml.rec.freeing, false;
      ghost var v := View();
      assert LastRef(v, bml.id) <==> bml.rec.refcnt <= 1 && bml.rec.freeing;
      if !last {
        assert Release(v, bml.id) == SetRec(v, bml.id, LoseRef(v.rec[bml.id]));
        DropRef(bml);
      } else {
        assert Release(v, bml.id) ==
               if v.rec[bml.id].linked then Settled(Unlink(v, bml.id), bml.id) else Free(v, bml.id);
        unbinds := DropLast(bml);
      }
    }
  }
}
