/** Convergence of the replay for the whole metadata state. */
module ReplayTheorem {
  import opened Common
  import opened ReplayLog
  import opened ReplayConverge

  // ----- Water marks and assignment slots -----

  function HighAt(ops: seq<Op>, n: nat, h: nat): nat
    requires n <= |ops|
  {
    if n == 0 then h
    else if ops[n - 1].BmapSeq? then Max(HighAt(ops, n - 1, h), ops[n - 1].high)
    else HighAt(ops, n - 1, h)
  }

  function LowAt(ops: seq<Op>, n: nat, l: nat): nat
    requires n <= |ops|
  {
    if n == 0 then l
    else if ops[n - 1].BmapSeq? then Max(LowAt(ops, n - 1, l), ops[n - 1].low)
    else LowAt(ops, n - 1, l)
  }

  lemma {:induction false} MarksAre(ops: seq<Op>, n: nat, h: nat)
    requires n <= |ops|
    ensures HighAt(ops, n, h) == Max(h, HighAt(ops, n, 0)) && LowAt(ops, n, h) == Max(h, LowAt(ops, n, 0))
  {
    if n > 0 {
      MarksAre(ops, n - 1, h);
    }
  }

  lemma {:induction false} MarksGrow(ops: seq<Op>, p: nat, n: nat)
    requires p <= n <= |ops|
    ensures HighAt(ops, p, 0) <= HighAt(ops, n, 0) && LowAt(ops, p, 0) <= LowAt(ops, n, 0)
    decreases n
  {
    if p < n {
      MarksGrow(ops, p, n - 1);
    }
  }

  lemma MarksConverge(ops: seq<Op>, p: nat, h: nat)
    requires p <= |ops|
    ensures HighAt(ops, |ops|, HighAt(ops, p, h)) == HighAt(ops, |ops|, h)
    ensures LowAt(ops, |ops|, LowAt(ops, p, h)) == LowAt(ops, |ops|, h)
  {
    MarksAre(ops, |ops|, h);
    MarksAre(ops, p, h);
    MarksAre(ops, |ops|, HighAt(ops, p, h));
    MarksAre(ops, |ops|, LowAt(ops, p, h));
    MarksGrow(ops, p, |ops|);
  }

  predicate IsPut(o: Op, e: nat) {
    o.PutSlot? && o.elem == e
  }

  function SlotAt(ops: seq<Op>, n: nat, e: nat, v: Slot): Slot
    requires n <= |ops|
  {
    if n == 0 then v
    else if IsPut(ops[n - 1], e) then
      Slot(if ops[n - 1].item.Some? then ops[n - 1].item else SlotAt(ops, n - 1, e, v).item, ops[n - 1].inuse)
    else SlotAt(ops, n - 1, e, v)
  }

  predicate HasPut(ops: seq<Op>, n: nat, e: nat, filled: bool)
    requires n <= |ops|
  {
    n > 0 && ((IsPut(ops[n - 1], e) && (filled ==> ops[n - 1].item.Some?)) || HasPut(ops, n - 1, e, filled))
  }

  lemma {:induction false} SlotForgets(ops: seq<Op>, n: nat, e: nat, x: Slot, y: Slot)
    requires n <= |ops|
    ensures var a, b := SlotAt(ops, n, e, x), SlotAt(ops, n, e, y);
            && (if HasPut(ops, n, e, true) then a.item == b.item else a.item == x.item)
            && (if HasPut(ops, n, e, false) then a.inuse == b.inuse else a.inuse == x.inuse)
  {
    if n > 0 {
      SlotForgets(ops, n - 1, e, x, y);
    }
  }

  lemma {:induction false} HasPutMore(ops: seq<Op>, p: nat, n: nat, e: nat, filled: bool)
    requires p <= n <= |ops| && HasPut(ops, p, e, filled)
    ensures HasPut(ops, n, e, filled)
    decreases n
  {
    if p < n {
      HasPutMore(ops, p, n - 1, e, filled);
    }
  }

  lemma SlotConverges(ops: seq<Op>, p: nat, e: nat, v: Slot)
    requires p <= |ops|
    ensures SlotAt(ops, |ops|, e, SlotAt(ops, p, e, v)) == SlotAt(ops, |ops|, e, v)
  {
    var n := |ops|;
    SlotForgets(ops, n, e, SlotAt(ops, p, e, v), v);
    SlotForgets(ops, n, e, v, v);
    SlotForgets(ops, p, e, v, v);
    if HasPut(ops, p, e, true) {
      HasPutMore(ops, p, n, e, true);
    }
    if HasPut(ops, p, e, false) {
      HasPutMore(ops, p, n, e, false);
    }
  }

  // ----- The parts of the replayed state -----

  lemma {:induction false} SetCrcsIs(b: Bmap, crcs: seq<Wire>, t: nat)
    ensures var r := SetCrcs(b, crcs);
            && r.states == b.states && r.pol == b.pol
            && var c, v := CrcFor(crcs, t), SliverOf(b, t);
               SliverOf(r, t) == if c.Some? then Stamp(v, c.value) else v
  {
    if crcs != [] {
      SetCrcsIs(b, crcs[..|crcs| - 1], t);
    }
  }

  lemma {:induction false} InodesAre(ops: seq<Op>, n: nat, s: State)
    requires OpsOk(ops) && n <= |ops|
    ensures Replay(ops, n, s).inodes.Keys == s.inodes.Keys
    ensures forall f :: f in s.inodes ==> Replay(ops, n, s).inodes[f] == InoAt(ops, n, f, s.inodes[f])
  {
    if n > 0 {
      InodesAre(ops, n - 1, s);
    }
  }

  /** A part of the state that the changes of other bmaps do not touch. */
  lemma {:induction false} BmapIs(ops: seq<Op>, n: nat, s: State, k: Key, t: nat)
    requires OpsOk(ops) && n <= |ops|
    ensures var b, r := BmapOf(s, k), BmapOf(Replay(ops, n, s), k);
            if k.fid in s.inodes then
              var ino := s.inodes[k.fid];
              && r.states == StatesAt(ops, n, k, ino, b.states) && r.pol == PolAt(ops, n, k, b.pol)
              && SliverOf(r, t) == SliverAt(ops, n, k, t, ino, SliverOf(b, t))
            else r == b
  {
    if n > 0 {
      BmapIs(ops, n - 1, s, k, t);
      InodesAre(ops, n - 1, s);
      var o := ops[n - 1];
      if o.BmapCrc? && o.key == k {
        SetCrcsIs(BmapOf(Replay(ops, n - 1, s), k), o.crcs, t);
      }
    }
  }

  lemma {:induction false} RestIs(ops: seq<Op>, n: nat, s: State, e: nat)
    requires OpsOk(ops) && n <= |ops|
    ensures var r := Replay(ops, n, s);
            && r.high == HighAt(ops, n, s.high) && r.low == LowAt(ops, n, s.low)
            && SlotOf(r, e) == SlotAt(ops, n, e, SlotOf(s, e))
  {
    if n > 0 {
      RestIs(ops, n - 1, s, e);
    }
  }

  // ----- The theorem -----

  ghost predicate SameBmap(a: State, b: State, k: Key) {
    && BmapOf(a, k).states == BmapOf(b, k).states && BmapOf(a, k).pol == BmapOf(b, k).pol
    && forall t: nat :: SliverOf(BmapOf(a, k), t) == SliverOf(BmapOf(b, k), t)
  }

  ghost predicate SameBut(a: State, b: State) {
    && a.inodes == b.inodes && a.high == b.high && a.low == b.low
    && forall e: nat :: SlotOf(a, e) == SlotOf(b, e)
  }

  /** The two states hold the same metadata. */
  ghost predicate Equivalent(a: State, b: State) {
    SameBut(a, b) && forall k: Key :: SameBmap(a, b, k)
  }

  ghost predicate BmapSafe(ops: seq<Op>, p: nat, s: State, k: Key)
    requires OpsOk(ops) && p <= |ops|
  {
    k.fid in s.inodes ==>
      && StatesSafe(ops, p, k, s.inodes[k.fid])
      && forall t: nat :: SliverSafe(ops, p, k, t, s.inodes[k.fid], SliverOf(BmapOf(s, k), t))
  }

  /** Tables, water marks and slots converge whatever the journal. */
  lemma RestConverges(ops: seq<Op>, p: nat, s: State)
    requires OpsOk(ops) && p <= |ops|
    ensures SameBut(Replay(ops, |ops|, Replay(ops, p, s)), Replay(ops, |ops|, s))
  {
    var n, sP := |ops|, Replay(ops, p, s);
    InodesAre(ops, n, s);
    InodesAre(ops, p, s);
    InodesAre(ops, n, sP);
    forall f | f in s.inodes ensures Replay(ops, n, sP).inodes[f] == Replay(ops, n, s).inodes[f] {
      InoConverges(ops, p, f, s.inodes[f]);
    }
    forall e: nat ensures SlotOf(Replay(ops, n, sP), e) == SlotOf(Replay(ops, n, s), e) {
      RestIs(ops, n, s, e);
      RestIs(ops, p, s, e);
      RestIs(ops, n, sP, e);
      SlotConverges(ops, p, e, SlotOf(s, e));
    }
    RestIs(ops, n, s, 0);
    RestIs(ops, p, s, 0);
    RestIs(ops, n, sP, 0);
    MarksConverge(ops, p, s.high);
    MarksConverge(ops, p, s.low);
  }

  lemma BmapConvergesIff(ops: seq<Op>, p: nat, s: State, k: Key)
    requires OpsOk(ops) && p <= |ops|
    ensures SameBmap(Replay(ops, |ops|, Replay(ops, p, s)), Replay(ops, |ops|, s), k) <==> BmapSafe(ops, p, s, k)
  {
    var n, sP := |ops|, Replay(ops, p, s);
    InodesAre(ops, p, s);
    BmapIs(ops, n, s, k, 0);
    BmapIs(ops, p, s, k, 0);
    BmapIs(ops, n, sP, k, 0);
    if k.fid in s.inodes {
      var ino, b := s.inodes[k.fid], BmapOf(s, k);
      StatesConvergeIff(ops, p, k, ino, b.states, b.pol);
      forall t: nat
        ensures SliverOf(BmapOf(Replay(ops, n, sP), k), t) == SliverOf(BmapOf(Replay(ops, n, s), k), t)
                <==> SliverSafe(ops, p, k, t, ino, SliverOf(b, t))
      {
        BmapIs(ops, n, s, k, t);
        BmapIs(ops, p, s, k, t);
        BmapIs(ops, n, sP, k, t);
        SliverConvergesIff(ops, p, k, t, ino, SliverOf(b, t));
      }
    }
  }

  /** Replaying all of it on a state that reflects a prefix gives the state the replay from the
      start gives, exactly when every bmap is safe. */
  lemma ReplayConvergesIff(ops: seq<Op>, p: nat, s: State)
    requires OpsOk(ops) && p <= |ops|
    ensures Equivalent(Replay(ops, |ops|, Replay(ops, p, s)), Replay(ops, |ops|, s))
            <==> forall k: Key :: BmapSafe(ops, p, s, k)
  {
    RestConverges(ops, p, s);
    forall k: Key
      ensures SameBmap(Replay(ops, |ops|, Replay(ops, p, s)), Replay(ops, |ops|, s), k) <==> BmapSafe(ops, p, s, k)
    {
      BmapConvergesIff(ops, p, s, k);
    }
  }

  predicate Touches(o: Op, k: Key) {
    (o.BmapRepls? || o.BmapCrc?) && o.key == k
  }

  /** The table of the file is not changed, or is before the first entry for the bmap. */
  ghost predicate TableFirst(ops: seq<Op>, k: Key) {
    var d := FirstIno(ops, |ops|, k.fid);
    d == |ops| || forall i :: 0 <= i < d ==> !Touches(ops[i], k)
  }

  lemma {:induction false} StatesTableFirst(ops: seq<Op>, p: nat, k: Key, ino: Ino)
    requires OpsOk(ops) && p <= |ops| && TableFirst(ops, k)
    ensures StatesSafe(ops, p, k, ino)
  {
    var d, i := FirstIno(ops, |ops|, k.fid), LastRepls(ops, |ops|, k);
    if d == |ops| {
      HasMore(ops, p, d, k.fid);
      InoForgets(ops, p, k.fid, ino, ino);
    } else if i >= 0 {
      assert Touches(ops[i], k) && d < i;
      HasMore(ops, d + 1, i, k.fid);
    }
  }

  lemma {:induction false} SliverTableFirst(ops: seq<Op>, p: nat, k: Key, t: nat, ino: Ino, v: Sliver)
    requires OpsOk(ops) && p <= |ops| && TableFirst(ops, k)
    ensures SliverSafe(ops, p, k, t, ino, v)
  {
    var d := FirstIno(ops, |ops|, k.fid);
    var j := LastFrom(ops, d, k, t, InoAt(ops, p, k.fid, ino));
    assert j >= 0 ==> Touches(ops[j], k);
  }

  /** A journal that never has a bmap of a file before the first change of its table converges
      from every prefix. */
  lemma TableFirstConverges(ops: seq<Op>, p: nat, s: State)
    requires OpsOk(ops) && p <= |ops| && forall k: Key :: TableFirst(ops, k)
    ensures Equivalent(Replay(ops, |ops|, Replay(ops, p, s)), Replay(ops, |ops|, s))
  {
    forall k: Key ensures BmapSafe(ops, p, s, k) {
      if k.fid in s.inodes {
        StatesTableFirst(ops, p, k, s.inodes[k.fid]);
        forall t: nat ensures SliverSafe(ops, p, k, t, s.inodes[k.fid], SliverOf(BmapOf(s, k), t)) {
          SliverTableFirst(ops, p, k, t, s.inodes[k.fid], SliverOf(BmapOf(s, k), t));
        }
      }
    }
    ReplayConvergesIff(ops, p, s);
  }

  // ----- What the server writes in normal operation -----

  /** A table of the stored form. */
  predicate InoOk(ino: Ino) {
    |ino.low| == DEF_REPLICAS && |ino.high| == MAX_REPLICAS - DEF_REPLICAS && ino.nrepls <= MAX_REPLICAS
  }

  /** Change `i` is one the server makes in normal operation: a table only gets servers added
      at its end, a CRC comes from a server in the table, and no replica is in flight beyond
      the table. */
  ghost predicate Regular(ops: seq<Op>, i: nat, s: State)
    requires OpsOk(ops) && i < |ops|
  {
    match ops[i]
    case InoRepls(f, _, n, repls) =>
      f in s.inodes ==>
        var ino := InoAt(ops, i, f, s.inodes[f]);
        && ino.nrepls <= n
        && forall j :: 0 <= j < ino.nrepls && j < |ino.low + ino.high| ==> repls[j] == (ino.low + ino.high)[j]
    case BmapCrc(k, ios, _) => k.fid in s.inodes ==> Found(InoAt(ops, i, k.fid, s.inodes[k.fid]), ios)
    case BmapRepls(k, _, x) =>
      k.fid in s.inodes ==>
        forall j :: InoAt(ops, i, k.fid, s.inodes[k.fid]).nrepls <= j < |x| ==> !InFlight(x[j])
    case _ => true
  }

  ghost predicate RegularLog(ops: seq<Op>, s: State) {
    && OpsOk(ops) && (forall f :: f in s.inodes ==> InoOk(s.inodes[f]))
    && forall i :: 0 <= i < |ops| ==> Regular(ops, i, s)
  }

  lemma {:induction false} TableOk(ops: seq<Op>, n: nat, f: nat, ino: Ino)
    requires OpsOk(ops) && n <= |ops| && InoOk(ino)
    ensures InoOk(InoAt(ops, n, f, ino))
  {
    if n > 0 {
      TableOk(ops, n - 1, f, ino);
      assert OpOk(ops[n - 1]);
    }
  }

  lemma SetGrows(ino: Ino, o: Op, ios: nat)
    requires InoOk(ino) && o.InoRepls? && OpOk(o) && ino.nrepls <= o.nrepls
    requires forall j :: 0 <= j < ino.nrepls && j < |ino.low + ino.high| ==> o.repls[j] == (ino.low + ino.high)[j]
    requires Found(ino, ios)
    ensures Found(SetIno(ino, o), ios)
  {
    var j :| 0 <= j < ino.nrepls && j < |ino.low + ino.high| && (ino.low + ino.high)[j] == ios;
    var g := SetIno(ino, o);
    assert (g.low + g.high)[j] == ios;
  }

  /** Tables only grow. */
  lemma {:induction false} TableGrows(ops: seq<Op>, n: nat, s: State, f: nat, ios: nat)
    requires RegularLog(ops, s) && n <= |ops| && f in s.inodes
    ensures var ino, g := s.inodes[f], InoAt(ops, n, f, s.inodes[f]);
            ino.nrepls <= g.nrepls && (Found(ino, ios) ==> Found(g, ios))
  {
    if n > 0 {
      TableGrows(ops, n - 1, s, f, ios);
      TableOk(ops, n - 1, f, s.inodes[f]);
      assert Regular(ops, n - 1, s);
      if IsIno(ops[n - 1], f) && Found(InoAt(ops, n - 1, f, s.inodes[f]), ios) {
        SetGrows(InoAt(ops, n - 1, f, s.inodes[f]), ops[n - 1], ios);
      }
    }
  }

  /** Every CRC update before the first change of the table gets through, with the table of the
      start and with any later one. */
  lemma {:induction false} HeadSame(ops: seq<Op>, n: nat, s: State, p: nat, k: Key, t: nat)
    requires RegularLog(ops, s) && p <= |ops| && k.fid in s.inodes && n <= FirstIno(ops, |ops|, k.fid)
    ensures LastFrom(ops, n, k, t, InoAt(ops, p, k.fid, s.inodes[k.fid])) == LastFrom(ops, n, k, t, s.inodes[k.fid])
  {
    if n > 0 {
      HeadSame(ops, n - 1, s, p, k, t);
      HasMore(ops, n - 1, FirstIno(ops, |ops|, k.fid), k.fid);
      InoForgets(ops, n - 1, k.fid, s.inodes[k.fid], s.inodes[k.fid]);
      assert Regular(ops, n - 1, s);
      if ops[n - 1].BmapCrc? {
        TableGrows(ops, p, s, k.fid, ops[n - 1].ios);
      }
    }
  }

  lemma {:induction false} RegularIsSafe(ops: seq<Op>, p: nat, s: State, k: Key)
    requires RegularLog(ops, s) && p <= |ops|
    ensures BmapSafe(ops, p, s, k)
  {
    if k.fid in s.inodes {
      var ino, i := s.inodes[k.fid], LastRepls(ops, |ops|, k);
      if i >= 0 && !HasIno(ops, i, k.fid) {
        assert Regular(ops, i, s);
        InoForgets(ops, i, k.fid, ino, ino);
        TableGrows(ops, p, s, k.fid, 0);
      }
      forall t: nat ensures SliverSafe(ops, p, k, t, ino, SliverOf(BmapOf(s, k), t)) {
        HeadSame(ops, FirstIno(ops, |ops|, k.fid), s, p, k, t);
      }
    }
  }

  /** A journal of normal operation converges from every prefix. */
  lemma RegularConverges(ops: seq<Op>, p: nat, s: State)
    requires RegularLog(ops, s) && p <= |ops|
    ensures Equivalent(Replay(ops, |ops|, Replay(ops, p, s)), Replay(ops, |ops|, s))
  {
    forall k: Key ensures BmapSafe(ops, p, s, k) {
      RegularIsSafe(ops, p, s, k);
    }
    ReplayConvergesIff(ops, p, s);
  }

  /** And every bmap whose replica states it changes ends with no replica in flight: what was being
      made (1) is queued again (2), what was being reclaimed (7) is garbage (6), and every other
      replica has the state of the last change. */
  lemma RegularSettles(ops: seq<Op>, s: State, k: Key, j: nat)
    requires RegularLog(ops, s) && k.fid in s.inodes && LastRepls(ops, |ops|, k) >= 0 && j < MAX_REPLICAS
    ensures var x := BmapOf(Replay(ops, |ops|, s), k).states;
            && |x| == MAX_REPLICAS == |ops[LastRepls(ops, |ops|, k)].states| && !InFlight(x[j])
            && var e := ops[LastRepls(ops, |ops|, k)].states[j];
               x[j] == if e == 1 then 2 else if e == 7 then 6 else e
  {
    var ino := s.inodes[k.fid];
    BmapIs(ops, |ops|, s, k, 0);
    InFlightIff(ops, k, ino, BmapOf(s, k).states, j);
    assert Regular(ops, LastRepls(ops, |ops|, k), s);
    assert OpOk(ops[LastRepls(ops, |ops|, k)]);
  }

  /** The journal of the metadata server. */
  lemma JournalConvergesIff(log: seq<Entry>, p: nat, s: State)
    requires p <= |log| && forall i :: 0 <= i < |log| ==> EntryOk(log[i])
    ensures var ops, m := Flatten(log), |Flatten(log[..p])|;
            && OpsOk(ops) && m <= |ops| && ops[..m] == Flatten(log[..p])
            && (Equivalent(Replay(ops, |ops|, Replay(ops, m, s)), Replay(ops, |ops|, s))
                <==> forall k: Key :: BmapSafe(ops, m, s, k))
  {
    FlattenOk(log);
    FlattenPrefix(log, p);
    ReplayConvergesIff(Flatten(log), |Flatten(log[..p])|, s);
  }

  // ----- Two journals that do not converge -----

  function Repls(a: nat, b: nat): (r: seq<nat>)
    ensures |r| == MAX_REPLICAS && r[0] == a && r[1] == b
  {
    [a, b] + seq(MAX_REPLICAS - 2, _ => 0)
  }

  const FILE := Ino(1, 0, Repls(7, 0)[..DEF_REPLICAS], Repls(0, 0)[DEF_REPLICAS..])
  const BMAP := Key(5, 0)
  const START := State(map[5 := FILE], map[], 0, 0, map[])

  /** Both start from a file whose stored table is behind: a file that is created takes over the
      table of its directory without a journal entry (slashd/rmc.c:696), so entries can follow
      that go by a table the journal only has later.

      A replica in flight beyond the old table is left in flight from the start, and reverted
      once the new table is known: both claims about replica states fail. */
  lemma StatesDiverge()
    ensures var ops := [BmapRepls(BMAP, 0, Repls(3, REPL_SCHED)), InoRepls(5, 0, 2, Repls(7, 8))];
            && OpsOk(ops)
            && !Equivalent(Replay(ops, 2, Replay(ops, 2, START)), Replay(ops, 2, START))
            && var end := BmapOf(Replay(ops, 2, START), BMAP).states;
               |end| == MAX_REPLICAS && InFlight(end[1])
  {
    var x := Repls(3, REPL_SCHED);
    var ops := [BmapRepls(BMAP, 0, x), InoRepls(5, 0, 2, Repls(7, 8))];
    BmapIs(ops, 2, START, BMAP, 0);
    InFlightIff(ops, BMAP, FILE, BmapOf(START, BMAP).states, 1);
    assert LastRepls(ops, 2, BMAP) == 0 && !HasIno(ops, 0, 5);
    assert InoAt(ops, 2, 5, FILE).nrepls == 2;
    assert !Settled(x, 1, 2);
    assert !StatesSafe(ops, 2, BMAP, FILE);
    assert !BmapSafe(ops, 2, START, BMAP);
    ReplayConvergesIff(ops, 2, START);
  }

  /** A CRC from a server that joins the table later is skipped from the start, and taken once
      the new table is known. */
  lemma CrcsDiverge()
    ensures var ops := [BmapCrc(BMAP, 8, [Wire(0, 99)]), InoRepls(5, 0, 2, Repls(7, 8))];
            && OpsOk(ops)
            && !Equivalent(Replay(ops, 2, Replay(ops, 2, START)), Replay(ops, 2, START))
  {
    var ops := [BmapCrc(BMAP, 8, [Wire(0, 99)]), InoRepls(5, 0, 2, Repls(7, 8))];
    var inoP := InoAt(ops, 2, 5, FILE);
    assert FirstIno(ops, 2, 5) == 1;
    assert !Found(FILE, 8);
    assert (inoP.low + inoP.high)[1] == 8;
    assert Found(inoP, 8);
    assert CrcFor([Wire(0, 99)], 0) == Some(99);
    assert Hit(ops, 0, BMAP, 0, inoP);
    assert !Hit(ops, 0, BMAP, 0, FILE);
    assert LastFrom(ops, 1, BMAP, 0, inoP) == 0 && LastFrom(ops, 1, BMAP, 0, FILE) == -1;
    assert LastHit(ops, 1, 2, BMAP, 0, FILE) == -1;
    assert !SliverSafe(ops, 2, BMAP, 0, FILE, SliverOf(BmapOf(START, BMAP), 0));
    assert !BmapSafe(ops, 2, START, BMAP);
    ReplayConvergesIff(ops, 2, START);
  }
}
