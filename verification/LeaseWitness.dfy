/** Runs that show what the lease protocol does not guarantee. */
module LeaseWitness {
  import opened Common
  import opened BmapLease
  import opened LeaseCounts
  import opened LeaseProtocol
  import opened LeaseLifetime

  const C := Client(1, 1)

  /** A bmap with one lease, lease 1 of client C. */
  ghost function Solo(r: Rec, dio: bool, noion: bool, ion: Option<nat>, a: Option<Assign>, n: nat,
                      barrier: Barrier): Sys {
    Sys(Bmap(map[1 := r], map[C := [1]], if r.write then 0 else 1, if r.write then 1 else 0,
             dio, false, barrier, noion, ion, a, n), multiset{1}, None, {})
  }

  const READ := Rec(C, false, false, false, 1, false, false, true, 5, 0)

  lemma Granted(s: Sys)
    requires Init(s) && s.freed == {} && s.b.seqno == 0
    ensures Enabled(s, New(1, C, false, false))
    ensures var s1 := Apply(s, New(1, C, false, false));
            Enabled(s1, GrantRead(1, 5))
            && Apply(s1, GrantRead(1, 5)) == Solo(READ, false, false, None, None, 0, Open)
  {
    var s1 := Apply(s, New(1, C, false, false));
    assert !Waits(s1.b, C, false, false);
    assert Ring(s1.b, C) + [1] == [1];
  }

  lemma UpgradeStarts(s: Sys, r: Rec, noion: bool)
    requires s == Solo(r, false, noion, None, None, 0, Open)
    requires r.client == C && !r.write && r.linked && r.refcnt == 1
    ensures Enabled(s, Upgrade(1)) && Apply(s, Upgrade(1)) == Solo(r, false, noion, None, None, 0, Upgrading(1))
  {
    assert s.b.rec[1] == r;
    assert !Waits(s.b, C, true, false);
    assert forall l :: l in s.b.rec ==> !Foreign(s.b, C, l);
  }

  lemma UpgradeFails(s: Sys)
    requires s == Solo(READ, false, false, None, None, 0, Upgrading(1))
    ensures Enabled(s, UpgradeEnd(1, Offline)) && Asserts(s, UpgradeEnd(1, Offline))
    ensures Apply(s, UpgradeEnd(1, Offline)) == Solo(READ.(assfail := true), false, true, None, None, 0, Open)
  {
  }

  lemma UpgradeSucceeds(s: Sys)
    requires s == Solo(READ.(assfail := true), false, true, None, None, 0, Upgrading(1))
    ensures Enabled(s, UpgradeEnd(1, Bound(7, 9))) && Asserts(s, UpgradeEnd(1, Bound(7, 9)))
    ensures Apply(s, UpgradeEnd(1, Bound(7, 9)))
            == Solo(READ.(assfail := true, write := true, ios := 7, seqno := 9), false, false,
                    Some(7), Some(Assign(7, C, 9, false)), 9, Open)
  {
    assert CountW([1], s.b.rec) == 0;
  }

  const FAILED := READ.(assfail := true, write := true, ios := 7, seqno := 9)

  lemma LastWriterGoes(s: Sys)
    requires s == Solo(FAILED, false, false, Some(7), Some(Assign(7, C, 9, false)), 9, Open)
    ensures Enabled(s, MarkFreeing(1))
    ensures var s1 := Apply(s, MarkFreeing(1));
            && Enabled(s1, Put(1, false)) && Asserts(s1, Put(1, false))
            && Apply(s1, Put(1, false)).b.writers == 0 && Apply(s1, Put(1, false)).b.ion == Some(7)
  {
    var s1 := Apply(s, MarkFreeing(1));
    assert CountW([1], s1.b.rec) == 1 && Remove([1], 1) == [];
  }

  lemma Extend(tr: seq<Sys>, ev: seq<Event>, e: Event) returns (tr': seq<Sys>, ev': seq<Event>)
    requires IsRun(tr, ev) && Enabled(tr[|ev|], e) && Asserts(tr[|ev|], e)
    ensures IsRun(tr', ev') && tr'[|ev'|] == Apply(tr[|ev|], e) && ev' == ev + [e]
  {
    tr', ev' := tr + [Apply(tr[|ev|], e)], ev + [e];
    forall i | 0 <= i < |ev'|
      ensures Enabled(tr'[i], ev'[i]) && Asserts(tr'[i], ev'[i]) && tr'[i + 1] == Apply(tr'[i], ev'[i])
    {
      if i < |ev| {
        assert tr'[i] == tr[i] && tr'[i + 1] == tr[i + 1] && ev'[i] == ev[i];
      }
    }
  }

  const EMPTY := Sys(Bmap(map[], map[], 0, 0, false, false, Open, false, None, None, 0), multiset{}, None, {})

  lemma UpgradeRun() returns (tr: seq<Sys>, ev: seq<Event>)
    ensures IsRun(tr, ev) && ev == [New(1, C, false, false), GrantRead(1, 5), Upgrade(1)]
    ensures tr[3] == Solo(READ, false, false, None, None, 0, Upgrading(1))
  {
    tr, ev := [EMPTY], [];
    Granted(tr[0]);
    tr, ev := Extend(tr, ev, New(1, C, false, false));
    tr, ev := Extend(tr, ev, GrantRead(1, 5));
    UpgradeStarts(tr[|ev|], READ, false);
    tr, ev := Extend(tr, ev, Upgrade(1));
  }

  lemma FirstUpgradeFails() returns (tr: seq<Sys>, ev: seq<Event>)
    ensures IsRun(tr, ev) && tr[|ev|] == Solo(READ.(assfail := true), false, true, None, None, 0, Open)
  {
    tr, ev := UpgradeRun();
    UpgradeFails(tr[|ev|]);
    tr, ev := Extend(tr, ev, UpgradeEnd(1, Offline));
  }

  /** An upgrade that fails and is then repeated leaves BML_ASSFAIL on the lease, and its
      release keeps the server bound although nobody writes any more. */
  lemma FailedUpgradeLeaksServer() returns (tr: seq<Sys>, ev: seq<Event>)
    ensures IsRun(tr, ev)
    ensures tr[|ev|].b.writers == 0 && tr[|ev|].b.ion.Some?
  {
    tr, ev := FirstUpgradeFails();
    UpgradeStarts(tr[|ev|], READ.(assfail := true), true);
    tr, ev := Extend(tr, ev, Upgrade(1));
    UpgradeSucceeds(tr[|ev|]);
    tr, ev := Extend(tr, ev, UpgradeEnd(1, Bound(7, 9)));
    LastWriterGoes(tr[|ev|]);
    tr, ev := Extend(tr, ev, MarkFreeing(1));
    tr, ev := Extend(tr, ev, Put(1, false));
  }

  /** A single upgrade whose replica table is full does the same at once. */
  lemma FailedUpgradeBindsServer() returns (tr: seq<Sys>, ev: seq<Event>)
    ensures IsRun(tr, ev)
    ensures ev == [New(1, C, false, false), GrantRead(1, 5), Upgrade(1), UpgradeEnd(1, ReplFail(7, 9))]
    ensures tr[4].b.barrier.Open? && tr[4].b.writers == 0 && tr[4].b.ion == Some(7)
  {
    tr, ev := UpgradeRun();
    tr, ev := Extend(tr, ev, UpgradeEnd(1, ReplFail(7, 9)));
  }

  // ----- A lease looked up while it is being granted -----

  /** A write lease that waits for its server; it has no number yet. */
  const PENDING := Rec(C, true, false, false, 1, false, false, true, 0, 0)

  lemma WriteStarts(dio: bool)
    ensures Enabled(EMPTY, New(1, C, true, dio))
    ensures var s := Apply(EMPTY, New(1, C, true, dio));
            && Enabled(s, GrantWrite(1)) && Asserts(s, GrantWrite(1))
            && Apply(s, GrantWrite(1)) == Solo(PENDING.(dio := dio), dio, false, None, None, 0, Granting(1))
  {
    var s := Apply(EMPTY, New(1, C, true, dio));
    assert !Waits(s.b, C, true, dio);
    assert Ring(s.b, C) + [1] == [1];
  }

  lemma SharedGrantEnds(s: Sys)
    requires s == Solo(PENDING, false, false, None, None, 0, Granting(1))
    ensures Enabled(s, GetBml(1))
    ensures var s1 := Apply(s, GetBml(1));
            && Enabled(s1, GrantWriteEnd(1, Offline, false)) && Asserts(s1, GrantWriteEnd(1, Offline, false))
            && var s2 := Apply(s1, GrantWriteEnd(1, Offline, false));
               s2.b == Solo(PENDING.(assfail := true, freeing := true), false, true, None, None, 0, Open).b
               && s2.freed == {}
  {
    var s1 := Apply(s, GetBml(1));
    assert GrantEnd(s1, 1, Offline).b.rec[1].refcnt == 2;
  }

  lemma NextGrantAsserts(s: Sys)
    requires s.b == Solo(PENDING.(assfail := true, freeing := true), false, true, None, None, 0, Open).b
    requires s.freed == {}
    ensures Enabled(s, New(2, C, true, false))
    ensures var s1 := Apply(s, New(2, C, true, false));
            Enabled(s1, GrantWrite(2)) && !Asserts(s1, GrantWrite(2))
  {
    var s1 := Apply(s, New(2, C, true, false));
    assert CountW([1], s1.b.rec) == 1;
    assert !Waits(s1.b, C, true, false);
  }

  lemma WriteRun(dio: bool) returns (tr: seq<Sys>, ev: seq<Event>)
    ensures IsRun(tr, ev) && ev == [New(1, C, true, dio), GrantWrite(1)]
    ensures tr[2] == Solo(PENDING.(dio := dio), dio, false, None, None, 0, Granting(1))
  {
    tr, ev := [EMPTY], [];
    WriteStarts(dio);
    tr, ev := Extend(tr, ev, New(1, C, true, dio));
    tr, ev := Extend(tr, ev, GrantWrite(1));
  }

  /** A new lease has number 0 until its server is found, and the barrier does not hold back a
      lookup.  If no server is found then, the lease outlives its grant: the bmap is left with
      a writer and no server, and the next write lease of the client hits an assertion. */
  lemma SharedGrantLeavesWriter() returns (tr: seq<Sys>, ev: seq<Event>)
    ensures IsRun(tr, ev)
    ensures ev == [New(1, C, true, false), GrantWrite(1), GetBml(1), GrantWriteEnd(1, Offline, false)]
    ensures tr[4].b.barrier.Open? && tr[4].b.writers == 1 && tr[4].b.ion.None?
    ensures Enabled(tr[4], New(2, C, true, false))
    ensures var s := Apply(tr[4], New(2, C, true, false));
            Enabled(s, GrantWrite(2)) && !Asserts(s, GrantWrite(2))
  {
    tr, ev := WriteRun(false);
    SharedGrantEnds(tr[2]);
    tr, ev := Extend(tr, ev, GetBml(1));
    tr, ev := Extend(tr, ev, GrantWriteEnd(1, Offline, false));
    NextGrantAsserts(tr[4]);
  }

  // ----- A full table of assignments -----

  /** The server is bound before a slot is looked for.  If there is none the grant is given up,
      and the release of its lease hits the assertion that no server is bound. */
  lemma FullTableAsserts() returns (tr: seq<Sys>, ev: seq<Event>)
    ensures IsRun(tr, ev) && ev == [New(1, C, true, false), GrantWrite(1)]
    ensures Enabled(tr[2], GrantWriteEnd(1, NoSlot(7), false)) && !Asserts(tr[2], GrantWriteEnd(1, NoSlot(7), false))
  {
    tr, ev := WriteRun(false);
    NoSlotAsserts(tr[2]);
  }

  lemma NoSlotAsserts(s: Sys)
    requires s == Solo(PENDING, false, false, None, None, 0, Granting(1))
    ensures Enabled(s, GrantWriteEnd(1, NoSlot(7), false)) && !Asserts(s, GrantWriteEnd(1, NoSlot(7), false))
  {
    var b := GrantEnd(s, 1, NoSlot(7)).b;
    assert b.rec[1].write && CountW([1], b.rec) == 1;
    assert LastRef(b, 1) && Unlink(b, 1).writers == 0;
  }

  // ----- Reassigning in DIO mode -----

  /** A client that asked for DIO and is alone may have its lease reassigned; the counts let it
      through and the assertion on BMAPF_DIO fails. */
  lemma ReassignHitsDio() returns (tr: seq<Sys>, ev: seq<Event>)
    ensures IsRun(tr, ev)
    ensures tr[|ev|].b.dio && tr[|ev|].b.writers == 1 && tr[|ev|].b.readers == 0
    ensures Enabled(tr[|ev|], Reassign(1)) && !Asserts(tr[|ev|], Reassign(1))
  {
    tr, ev := WriteRun(true);
    tr, ev := Extend(tr, ev, GrantWriteEnd(1, Bound(7, 9), false));
  }
}
