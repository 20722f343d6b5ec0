/** Rings and counts stay right under every operation of BmapLease. */
module LeaseCounts {
  import opened Common
  import opened BmapLease

  lemma {:induction false} RemoveFacts(r: seq<LeaseId>, l: LeaseId, rec: map<LeaseId, Rec>)
    requires Distinct(r) && l in r
    ensures Distinct(Remove(r, l)) && |Remove(r, l)| == |r| - 1
    ensures forall x :: x in Remove(r, l) <==> x in r && x != l
    ensures CountW(r, rec) == CountW(Remove(r, l), rec) + (if l in rec && rec[l].write then 1 else 0)
  {
    RemoveDistinct(r, l);
    assert r == [r[0]] + r[1..];
    if r[0] != l {
      RemoveFacts(r[1..], l, rec);
      assert Remove(r, l)[1..] == Remove(r[1..], l);
    }
  }

  lemma {:induction false} AppendFacts(r: seq<LeaseId>, l: LeaseId, rec: map<LeaseId, Rec>)
    requires Distinct(r) && l !in r
    ensures Distinct(r + [l])
    ensures CountW(r + [l], rec) == CountW(r, rec) + (if l in rec && rec[l].write then 1 else 0)
  {
    if r == [] {
      assert (r + [l])[1..] == [];
    } else {
      AppendFacts(r[1..], l, rec);
      assert (r + [l])[1..] == r[1..] + [l];
    }
  }

  ghost predicate SameWrites(r: seq<LeaseId>, rec: map<LeaseId, Rec>, rec': map<LeaseId, Rec>) {
    forall l :: l in r ==> (l in rec && rec[l].write <==> l in rec' && rec'[l].write)
  }

  lemma {:induction false} CountWFrame(r: seq<LeaseId>, rec: map<LeaseId, Rec>, rec': map<LeaseId, Rec>)
    requires SameWrites(r, rec, rec')
    ensures CountW(r, rec) == CountW(r, rec')
  {
    if r != [] {
      CountWFrame(r[1..], rec, rec');
    }
  }

  /** Upgrading the read lease `l` adds one write lease to its ring. */
  lemma {:induction false} CountWConvert(r: seq<LeaseId>, l: LeaseId, rec: map<LeaseId, Rec>)
    requires Distinct(r) && l in r && l in rec && !rec[l].write
    ensures CountW(r, rec[l := WriteRec(rec[l])]) == CountW(r, rec) + 1
  {
    var rec' := rec[l := WriteRec(rec[l])];
    if r[0] == l {
      CountWFrame(r[1..], rec, rec');
    } else {
      CountWConvert(r[1..], l, rec);
    }
  }

  lemma {:induction false} CountWZero(r: seq<LeaseId>, l: LeaseId, rec: map<LeaseId, Rec>)
    requires CountW(r, rec) == 0 && l in r && l in rec
    ensures !rec[l].write
  {
    if r[0] != l {
      CountWZero(r[1..], l, rec);
    }
  }

  ghost function One(p: bool): int { if p then 1 else 0 }

  /** Only client `c` changes: the other rings and their write leases are the same. */
  ghost predicate OnlyClient(b: Bmap, b': Bmap, c: Client) {
    && (forall d :: d != c ==> (d in b.rings <==> d in b'.rings))
    && (forall d :: d != c && d in b.rings && d in b'.rings ==>
          b'.rings[d] == b.rings[d] && CountW(b'.rings[d], b'.rec) == CountW(b.rings[d], b.rec))
  }

  lemma SetShift(s: set<Client>, t: set<Client>, c: Client)
    requires s - {c} == t - {c}
    ensures |t| == |s| - One(c in s) + One(c in t)
  {
    assert s == (s - {c}) + (if c in s then {c} else {});
    assert t == (t - {c}) + (if c in t then {c} else {});
  }

  lemma CountShift(b: Bmap, b': Bmap, c: Client)
    requires OnlyClient(b, b', c)
    ensures |Writers(b')| == |Writers(b)| - One(c in Writers(b)) + One(c in Writers(b'))
    ensures |Readers(b')| == |Readers(b)| - One(c in Readers(b)) + One(c in Readers(b'))
  {
    assert Writers(b) - {c} == Writers(b') - {c};
    assert Readers(b) - {c} == Readers(b') - {c};
    SetShift(Writers(b), Writers(b'), c);
    SetShift(Readers(b), Readers(b'), c);
  }

  /** The two counts cover all clients of the bmap. */
  lemma CountsCover(b: Bmap)
    requires CountsOk(b)
    ensures b.readers + b.writers == |b.rings|
    ensures b.readers >= 0 && b.writers >= 0
    ensures b.writers == 0 <==> Writers(b) == {}
    ensures b.readers == 0 <==> Readers(b) == {}
  {
    assert b.rings.Keys == Writers(b) + Readers(b);
    assert Writers(b) !! Readers(b);
  }

  /** Records change, rings and write flags do not. */
  lemma FrameOk(b: Bmap, b': Bmap)
    requires RingsOk(b) && CountsOk(b)
    requires b'.rings == b.rings && b'.readers == b.readers && b'.writers == b.writers
    requires b'.rec.Keys == b.rec.Keys
    requires forall l :: l in b.rec ==>
               b'.rec[l].client == b.rec[l].client && b'.rec[l].linked == b.rec[l].linked
    requires forall l :: l in b.rec && b.rec[l].linked ==> b'.rec[l].write == b.rec[l].write
    ensures RingsOk(b') && CountsOk(b') && Writers(b') == Writers(b)
  {
    forall c | c in b.rings ensures CountW(b.rings[c], b.rec) == CountW(b.rings[c], b'.rec) {
      CountWFrame(b.rings[c], b.rec, b'.rec);
    }
    assert Writers(b') == Writers(b) && Readers(b') == Readers(b);
  }

  lemma SameShape(b: Bmap, b': Bmap)
    requires RingsOk(b) && b'.rec == b.rec && b'.rings == b.rings
    ensures RingsOk(b') && Writers(b') == Writers(b) && Readers(b') == Readers(b)
  {
  }

  /** A record changes in fields that neither rings nor counts look at. */
  lemma SetRecOk(b: Bmap, l: LeaseId, r: Rec)
    requires RingsOk(b) && CountsOk(b) && l in b.rec
    requires r.client == b.rec[l].client && r.linked == b.rec[l].linked
    requires r.linked ==> r.write == b.rec[l].write
    ensures RingsOk(SetRec(b, l, r)) && CountsOk(SetRec(b, l, r)) && Writers(SetRec(b, l, r)) == Writers(b)
  {
    FrameOk(b, SetRec(b, l, r));
  }

  lemma LinkOnly(b: Bmap, l: LeaseId, n: nat)
    requires RingsOk(b) && l in b.rec && !b.rec[l].linked
    ensures RingsOk(Link(b, l, n))
    ensures OnlyClient(b, Link(b, l, n), b.rec[l].client)
    ensures var c := b.rec[l].client;
            CountW(Link(b, l, n).rings[c], Link(b, l, n).rec)
            == CountW(Ring(b, c), b.rec) + (if b.rec[l].write then 1 else 0)
  {
    var c := b.rec[l].client;
    var r := Ring(b, c);
    var b' := Link(b, l, n);
    assert l !in r;
    AppendFacts(r, l, b'.rec);
    CountWFrame(r, b.rec, b'.rec);
    forall d | d != c && d in b.rings
      ensures CountW(b'.rings[d], b'.rec) == CountW(b.rings[d], b.rec)
    {
      CountWFrame(b.rings[d], b.rec, b'.rec);
    }
  }

  /** Granting a write lease counts its client once, as a writer and no longer as a reader. */
  lemma AddWriteOk(b: Bmap, l: LeaseId)
    requires RingsOk(b) && CountsOk(b) && l in b.rec && !b.rec[l].linked && b.rec[l].write
    ensures RingsOk(AddWrite(b, l)) && CountsOk(AddWrite(b, l))
    ensures AddWrite(b, l).rings.Keys == b.rings.Keys + {b.rec[l].client}
  {
    var c := b.rec[l].client;
    var n := b.rec[l].seqno;
    LinkOnly(b, l, n);
    CountShift(b, Link(b, l, n), c);
    SameShape(Link(b, l, n), AddWrite(b, l));
  }

  lemma LinkReadCounts(b: Bmap, l: LeaseId, n: nat)
    requires RingsOk(b) && CountsOk(b) && l in b.rec && !b.rec[l].linked && !b.rec[l].write
    ensures |Writers(Link(b, l, n))| == b.writers
    ensures |Readers(Link(b, l, n))| == b.readers + (if Ring(b, b.rec[l].client) == [] then 1 else 0)
  {
    var c := b.rec[l].client;
    LinkOnly(b, l, n);
    CountShift(b, Link(b, l, n), c);
    assert c in Readers(b) <==> Ring(b, c) != [] && CountW(Ring(b, c), b.rec) == 0;
  }

  lemma AddReadOk(b: Bmap, l: LeaseId, n: nat)
    requires RingsOk(b) && CountsOk(b) && l in b.rec && !b.rec[l].linked && !b.rec[l].write
    ensures RingsOk(AddRead(b, l, n)) && CountsOk(AddRead(b, l, n))
    ensures AddRead(b, l, n).rings.Keys == b.rings.Keys + {b.rec[l].client}
    ensures AddRead(b, l, n).writers == b.writers
  {
    LinkOnly(b, l, n);
    LinkReadCounts(b, l, n);
    SameShape(Link(b, l, n), AddRead(b, l, n));
  }

  lemma UnlinkOnly(b: Bmap, l: LeaseId)
    requires RingsOk(b) && l in b.rec && b.rec[l].linked
    ensures OnlyClient(b, Unlink(b, l), b.rec[l].client)
    ensures var r := Remove(Ring(b, b.rec[l].client), l);
            CountW(r, Unlink(b, l).rec)
            == CountW(Ring(b, b.rec[l].client), b.rec) - (if b.rec[l].write then 1 else 0)
  {
    var c := b.rec[l].client;
    var b' := Unlink(b, l);
    RemoveFacts(Ring(b, c), l, b.rec);
    CountWFrame(Remove(Ring(b, c), l), b.rec, b'.rec);
    forall d | d != c && d in b.rings
      ensures CountW(b.rings[d], b'.rec) == CountW(b.rings[d], b.rec)
    {
      CountWFrame(b.rings[d], b.rec, b'.rec);
    }
  }

  lemma UnlinkRing(b: Bmap, l: LeaseId, d: Client)
    requires RingsOk(b) && l in b.rec && b.rec[l].linked
    ensures d in Unlink(b, l).rings ==> d in b.rings && RingOk(Unlink(b, l), d)
  {
    var c := b.rec[l].client;
    assert OnRing(b, l);
    assert RingOk(b, c);
    if d == c {
      var r1 := Remove(b.rings[c], l);
      RemoveFacts(b.rings[c], l, b.rec);
      forall m | m in r1 ensures m in Unlink(b, l).rec && Unlink(b, l).rec[m] == b.rec[m] {
        assert m in b.rings[c];
      }
    } else if d in b.rings {
      assert RingOk(b, d);
      assert l !in b.rings[d];
    }
  }

  lemma UnlinkRings(b: Bmap, l: LeaseId)
    requires RingsOk(b) && l in b.rec && b.rec[l].linked
    ensures RingsOk(Unlink(b, l))
    ensures Unlink(b, l).rings.Keys <= b.rings.Keys
  {
    var b' := Unlink(b, l);
    forall d | d in b'.rings ensures d in b.rings && RingOk(b', d) {
      UnlinkRing(b, l, d);
    }
    RemoveFacts(b.rings[b.rec[l].client], l, b.rec);
    forall m | m in b'.rec && b'.rec[m].linked ensures OnRing(b', m) {
      assert OnRing(b, m);
    }
  }

  /** Removing a lease counts its client as what its remaining leases make it. */
  lemma UnlinkOk(b: Bmap, l: LeaseId)
    requires RingsOk(b) && CountsOk(b) && l in b.rec && b.rec[l].linked
    ensures CountsOk(Unlink(b, l))
    ensures b.rec[l].write ==> b.writers > 0
    ensures Unlink(b, l).writers <= b.writers
    ensures !b.rec[l].write ==> Unlink(b, l).writers == b.writers
  {
    var c := b.rec[l].client;
    var r := Ring(b, c);
    var b' := Unlink(b, l);
    UnlinkOnly(b, l);
    CountShift(b, b', c);
    RemoveFacts(r, l, b.rec);
    assert b.rec[l].write ==> c in Writers(b);
    assert c in Writers(b) <==> CountW(r, b.rec) > 0;
    assert c in Readers(b) <==> CountW(r, b.rec) == 0;
    assert c in Writers(b') <==> CountW(Remove(r, l), b'.rec) > 0;
    assert c in Readers(b') <==> |r| > 1 && CountW(Remove(r, l), b'.rec) == 0;
  }

  lemma ConvertOk(b: Bmap, l: LeaseId)
    requires RingsOk(b) && CountsOk(b) && l in b.rec && b.rec[l].linked && !b.rec[l].write
    ensures RingsOk(Convert(b, l)) && CountsOk(Convert(b, l))
    ensures Convert(b, l).writers > 0
  {
    var c := b.rec[l].client;
    var b' := Convert(b, l);
    assert OnRing(b, l) && RingOk(b, c);
    CountWConvert(b.rings[c], l, b.rec);
    ConvertRings(b, l);
    assert c in Writers(b');
    assert c in Writers(b) <==> CountW(b.rings[c], b.rec) > 0;
  }

  lemma ConvertRings(b: Bmap, l: LeaseId)
    requires RingsOk(b) && l in b.rec && b.rec[l].linked
    ensures RingsOk(Convert(b, l))
    ensures |Writers(Convert(b, l))| == |Writers(b)| - One(b.rec[l].client in Writers(b))
                                        + One(b.rec[l].client in Writers(Convert(b, l)))
    ensures |Readers(Convert(b, l))| == |Readers(b)| - One(b.rec[l].client in Readers(b))
                                        + One(b.rec[l].client in Readers(Convert(b, l)))
  {
    var c := b.rec[l].client;
    var b' := Convert(b, l);
    forall d | d in b.rings ensures RingOk(b', d) {
      assert RingOk(b, d);
    }
    forall m | m in b'.rec && b'.rec[m].linked ensures OnRing(b', m) {
      assert OnRing(b, m);
    }
    forall d | d != c && d in b.rings
      ensures CountW(b.rings[d], b'.rec) == CountW(b.rings[d], b.rec)
    {
      assert RingOk(b, d);
      CountWFrame(b.rings[d], b.rec, b'.rec);
    }
    CountShift(b, b', c);
  }
}
