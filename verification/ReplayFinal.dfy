/** What the metadata hold when the journal has been replayed: for each part, what the last
    entry about it says, with the numbers and table sizes of the stored format. */
module ReplayFinal {
  import opened Common
  import opened ReplayLog
  import opened ReplayConverge
  import opened ReplayTheorem

  // ----- Replica tables -----

  lemma {:induction false} TableIs(ops: seq<Op>, n: nat, s: State, f: nat, i: nat)
    requires OpsOk(ops) && i < n <= |ops| && f in s.inodes && IsIno(ops[i], f)
    requires forall m :: i < m < n ==> !IsIno(ops[m], f)
    ensures f in Replay(ops, n, s).inodes
    ensures var t := Replay(ops, n, s).inodes[f];
            && t.nrepls == ops[i].nrepls && t.pol == ops[i].pol && |t.low| == 4
            && (forall j :: 0 <= j < 4 ==> t.low[j] == ops[i].repls[j])
            && (ops[i].nrepls > 4 ==> |t.high| == 60 && forall j :: 0 <= j < 60 ==> t.high[j] == ops[i].repls[4 + j])
  {
    InodesAre(ops, n - 1, s);
    assert OpOk(ops[n - 1]);
    if i < n - 1 {
      TableIs(ops, n - 1, s, f, i);
    }
  }

  /** The replica table of a file is that of the last entry for it, in all its servers. */
  lemma FinalTable(ops: seq<Op>, s: State, f: nat, i: nat)
    requires OpsOk(ops) && i < |ops| && f in s.inodes && IsIno(ops[i], f)
    requires forall m :: i < m < |ops| ==> !IsIno(ops[m], f)
    ensures f in Replay(ops, |ops|, s).inodes
    ensures var t := Replay(ops, |ops|, s).inodes[f];
            && t.nrepls == ops[i].nrepls && t.pol == ops[i].pol
            && forall j :: 0 <= j < t.nrepls ==> j < |t.low + t.high| && (t.low + t.high)[j] == ops[i].repls[j]
  {
    TableIs(ops, |ops|, s, f, i);
    assert OpOk(ops[i]);
  }

  // ----- Replica states -----

  lemma {:induction false} LastReplsIs(ops: seq<Op>, n: nat, k: Key, i: nat)
    requires i < n <= |ops| && IsRepls(ops[i], k) && forall m :: i < m < n ==> !IsRepls(ops[m], k)
    ensures LastRepls(ops, n, k) == i
  {
    if i < n - 1 {
      LastReplsIs(ops, n - 1, k, i);
    }
  }

  /** The state of each replica is that of the last entry for the bmap; but a replica within the
      table the file has at that entry that was being made (1) is queued again (2), and one that
      was being reclaimed (7) is garbage again (6). */
  lemma FinalStates(ops: seq<Op>, s: State, k: Key, i: nat, j: nat)
    requires OpsOk(ops) && i < |ops| && k.fid in s.inodes && IsRepls(ops[i], k) && j < 64
    requires forall m :: i < m < |ops| ==> !IsRepls(ops[m], k)
    ensures var b := BmapOf(Replay(ops, |ops|, s), k);
            && |b.states| == |ops[i].states| == 64 && b.pol == ops[i].pol
            && k.fid in Replay(ops, i, s).inodes
            && var x := ops[i].states[j];
               b.states[j] == (if j >= Replay(ops, i, s).inodes[k.fid].nrepls then x
                               else if x == 1 then 2 else if x == 7 then 6 else x)
  {
    var ino, b := s.inodes[k.fid], BmapOf(s, k);
    BmapIs(ops, |ops|, s, k, 0);
    LastReplsIs(ops, |ops|, k, i);
    StatesAre(ops, |ops|, k, ino, b.states, b.pol);
    InodesAre(ops, i, s);
    assert OpOk(ops[i]);
  }

  /** A bmap without an entry keeps its states and its policy. */
  lemma NoStates(ops: seq<Op>, s: State, k: Key)
    requires OpsOk(ops) && forall m :: 0 <= m < |ops| ==> !IsRepls(ops[m], k)
    ensures var b, b' := BmapOf(s, k), BmapOf(Replay(ops, |ops|, s), k);
            b'.states == b.states && b'.pol == b.pol
  {
    BmapIs(ops, |ops|, s, k, 0);
    if k.fid in s.inodes {
      StatesAre(ops, |ops|, k, s.inodes[k.fid], BmapOf(s, k).states, BmapOf(s, k).pol);
    }
  }

  // ----- CRCs -----

  /** Entry `i` has a CRC for sliver `t` of the bmap, from a server in the table of that moment. */
  ghost predicate Accepted(ops: seq<Op>, i: nat, s: State, k: Key, t: nat)
    requires OpsOk(ops) && i < |ops|
  {
    && ops[i].BmapCrc? && ops[i].key == k && (exists w :: 0 <= w < |ops[i].crcs| && ops[i].crcs[w].slot == t)
    && k.fid in Replay(ops, i, s).inodes
    && var g := Replay(ops, i, s).inodes[k.fid];
       exists j :: 0 <= j < g.nrepls && j < |g.low + g.high| && (g.low + g.high)[j] == ops[i].ios
  }

  lemma {:induction false} CrcForIs(crcs: seq<Wire>, t: nat)
    ensures CrcFor(crcs, t).Some? <==> exists w :: 0 <= w < |crcs| && crcs[w].slot == t
    ensures forall w :: 0 <= w < |crcs| && crcs[w].slot == t && (forall v :: w < v < |crcs| ==> crcs[v].slot != t)
              ==> CrcFor(crcs, t) == Some(crcs[w].crc)
  {
    if crcs != [] {
      CrcForIs(crcs[..|crcs| - 1], t);
      assert forall w :: 0 <= w < |crcs| - 1 ==> crcs[..|crcs| - 1][w] == crcs[w];
    }
  }

  lemma AcceptedIff(ops: seq<Op>, i: nat, s: State, k: Key, t: nat)
    requires OpsOk(ops) && i < |ops| && k.fid in s.inodes
    ensures Accepted(ops, i, s, k, t) <==> Hit(ops, i, k, t, s.inodes[k.fid])
  {
    InodesAre(ops, i, s);
    if ops[i].BmapCrc? {
      CrcForIs(ops[i].crcs, t);
    }
  }

  lemma {:induction false} SliverHit(ops: seq<Op>, n: nat, k: Key, t: nat, ino: Ino, v: Sliver, i: nat)
    requires OpsOk(ops) && i < n <= |ops| && Hit(ops, i, k, t, ino)
    requires forall m :: i < m < n ==> !Hit(ops, m, k, t, ino)
    ensures var r := SliverAt(ops, n, k, t, ino, v);
            r.crc == CrcFor(ops[i].crcs, t).value && r.data && r.hasCrc && r.rest == v.rest
    decreases n
  {
    if i < n - 1 {
      SliverHit(ops, n - 1, k, t, ino, v, i);
    } else {
      SliverRest(ops, i, k, t, ino, v);
    }
  }

  lemma {:induction false} SliverRest(ops: seq<Op>, n: nat, k: Key, t: nat, ino: Ino, v: Sliver)
    requires OpsOk(ops) && n <= |ops|
    ensures SliverAt(ops, n, k, t, ino, v).rest == v.rest
  {
    if n > 0 {
      SliverRest(ops, n - 1, k, t, ino, v);
    }
  }

  lemma {:induction false} SliverMiss(ops: seq<Op>, n: nat, k: Key, t: nat, ino: Ino, v: Sliver)
    requires OpsOk(ops) && n <= |ops| && forall m :: 0 <= m < n ==> !Hit(ops, m, k, t, ino)
    ensures SliverAt(ops, n, k, t, ino, v) == v
  {
    if n > 0 {
      SliverMiss(ops, n - 1, k, t, ino, v);
    }
  }

  /** The CRC of a sliver is the last one of the last entry that has one and is accepted; the
      sliver is then marked as having data and a CRC, and its other marks stay. */
  lemma FinalCrc(ops: seq<Op>, s: State, k: Key, t: nat, i: nat, w: nat)
    requires OpsOk(ops) && i < |ops| && k.fid in s.inodes && Accepted(ops, i, s, k, t)
    requires forall m :: i < m < |ops| ==> !Accepted(ops, m, s, k, t)
    requires w < |ops[i].crcs| && ops[i].crcs[w].slot == t
    requires forall v :: w < v < |ops[i].crcs| ==> ops[i].crcs[v].slot != t
    ensures SliverOf(BmapOf(Replay(ops, |ops|, s), k), t)
            == Sliver(ops[i].crcs[w].crc, true, true, SliverOf(BmapOf(s, k), t).rest)
  {
    var ino, v := s.inodes[k.fid], SliverOf(BmapOf(s, k), t);
    BmapIs(ops, |ops|, s, k, t);
    CrcForIs(ops[i].crcs, t);
    forall m | i <= m < |ops| ensures Hit(ops, m, k, t, ino) <==> m == i {
      AcceptedIff(ops, m, s, k, t);
    }
    SliverHit(ops, |ops|, k, t, ino, v, i);
  }

  /** Without such an entry the sliver stays as it is. */
  lemma NoCrc(ops: seq<Op>, s: State, k: Key, t: nat)
    requires OpsOk(ops) && forall m :: 0 <= m < |ops| ==> !Accepted(ops, m, s, k, t)
    ensures SliverOf(BmapOf(Replay(ops, |ops|, s), k), t) == SliverOf(BmapOf(s, k), t)
  {
    BmapIs(ops, |ops|, s, k, t);
    if k.fid in s.inodes {
      forall m | 0 <= m < |ops| ensures !Hit(ops, m, k, t, s.inodes[k.fid]) {
        AcceptedIff(ops, m, s, k, t);
      }
      SliverMiss(ops, |ops|, k, t, s.inodes[k.fid], SliverOf(BmapOf(s, k), t));
    }
  }

  // ----- Water marks -----

  /** A water mark is the largest of its values in the journal and the one before. */
  lemma {:induction false} FinalMarks(ops: seq<Op>, n: nat, s: State)
    requires OpsOk(ops) && n <= |ops|
    ensures var r := Replay(ops, n, s);
            && s.high <= r.high && s.low <= r.low
            && (forall i :: 0 <= i < n && ops[i].BmapSeq? ==> ops[i].high <= r.high && ops[i].low <= r.low)
            && (r.high == s.high || exists i :: 0 <= i < n && ops[i].BmapSeq? && ops[i].high == r.high)
            && (r.low == s.low || exists i :: 0 <= i < n && ops[i].BmapSeq? && ops[i].low == r.low)
  {
    if n > 0 {
      FinalMarks(ops, n - 1, s);
    }
  }

  // ----- Assignment slots -----

  /** The entry frees or fills slot `e`. */
  predicate Slots(en: Entry, e: nat) {
    if en.Plain? then en.op.PutSlot? && en.op.elem == e else en.elem == e
  }

  ghost predicate LogOk(log: seq<Entry>) {
    forall i :: 0 <= i < |log| ==> EntryOk(log[i])
  }

  /** The state after the entries. */
  ghost function ReplayLogged(log: seq<Entry>, s: State): State
    requires LogOk(log)
  {
    FlattenOk(log);
    ReplayAll(Flatten(log), s)
  }

  function ReplayAll(ops: seq<Op>, s: State): State
    requires OpsOk(ops)
  {
    Replay(ops, |ops|, s)
  }

  lemma {:induction false} ReplayAppend(a: seq<Op>, b: seq<Op>, n: nat, s: State)
    requires OpsOk(a) && OpsOk(b) && OpsOk(a + b) && n <= |b|
    ensures Replay(a + b, |a| + n, s) == Replay(b, n, Replay(a, |a|, s))
  {
    if n == 0 {
      ReplayPrefix(a, b, |a|, s);
    } else {
      ReplayAppend(a, b, n - 1, s);
    }
  }

  lemma {:induction false} ReplayPrefix(a: seq<Op>, b: seq<Op>, n: nat, s: State)
    requires OpsOk(a) && OpsOk(a + b) && n <= |a|
    ensures Replay(a + b, n, s) == Replay(a, n, s)
  {
    if n > 0 {
      ReplayPrefix(a, b, n - 1, s);
    }
  }

  lemma ExpandOk(e: Entry)
    requires EntryOk(e)
    ensures OpsOk(Expand(e))
  {
  }

  lemma ReplayBoth(a: seq<Op>, b: seq<Op>, s: State)
    requires OpsOk(a) && OpsOk(b)
    ensures OpsOk(a + b) && ReplayAll(a + b, s) == ReplayAll(b, ReplayAll(a, s))
  {
    ReplayAppend(a, b, |b|, s);
  }

  /** One entry after the others. */
  lemma ReplayEntry(log: seq<Entry>, s: State)
    requires LogOk(log) && log != []
    ensures var n := |log| - 1;
            && OpsOk(Expand(log[n])) && LogOk(log[..n])
            && ReplayLogged(log, s) == ReplayAll(Expand(log[n]), ReplayLogged(log[..n], s))
  {
    var n := |log| - 1;
    ExpandOk(log[n]);
    FlattenOk(log[..n]);
    ReplayBoth(Flatten(log[..n]), Expand(log[n]), s);
  }

  /** What the changes of one entry do to slot `e`. */
  lemma EntrySlot(en: Entry, s: State, e: nat)
    requires EntryOk(en) && OpsOk(Expand(en))
    ensures var v, r := SlotOf(s, e), SlotOf(ReplayAll(Expand(en), s), e);
            && (!Slots(en, e) ==> r == v)
            && (en.AssignRep? && en.elem == e ==>
                  r.inuse == !en.free && r.item == if en.item.Some? then en.item else v.item)
  {
    var ops := Expand(en);
    RestIs(ops, |ops|, s, e);
    if en.AssignRep? {
      var n := |ops| - 1;
      assert ops[n] == PutSlot(en.elem, en.item, !en.free);
      NoPut(ops, n, e, SlotOf(s, e));
    }
  }

  lemma {:induction false} NoPut(ops: seq<Op>, n: nat, e: nat, v: Slot)
    requires n <= |ops| && forall m :: 0 <= m < n ==> !ops[m].PutSlot?
    ensures SlotAt(ops, n, e, v) == v
  {
    if n > 0 {
      NoPut(ops, n - 1, e, v);
    }
  }

  ghost predicate SlotBy(en: Entry, v: Slot, r: Slot)
    requires en.AssignRep?
  {
    (r.inuse <==> !en.free) && r.item == if en.item.Some? then en.item else v.item
  }

  /** Slot `e` after the first `n` entries. */
  ghost function SlotAfter(log: seq<Entry>, n: nat, s: State, e: nat): Slot
    requires LogOk(log) && n <= |log|
  {
    SlotOf(ReplayLogged(log[..n], s), e)
  }

  lemma SlotStep(log: seq<Entry>, n: nat, s: State, e: nat)
    requires LogOk(log) && n < |log|
    ensures !Slots(log[n], e) ==> SlotAfter(log, n + 1, s, e) == SlotAfter(log, n, s, e)
    ensures log[n].AssignRep? && log[n].elem == e ==>
              SlotBy(log[n], SlotAfter(log, n, s, e), SlotAfter(log, n + 1, s, e))
  {
    ReplayEntry(log[..n + 1], s);
    assert log[..n + 1][..n] == log[..n];
    EntrySlot(log[n], ReplayLogged(log[..n], s), e);
  }

  lemma {:induction false} SlotStays(log: seq<Entry>, i: nat, n: nat, s: State, e: nat)
    requires LogOk(log) && i <= n <= |log| && forall m :: i <= m < n ==> !Slots(log[m], e)
    ensures SlotAfter(log, n, s, e) == SlotAfter(log, i, s, e)
    decreases n
  {
    if i < n {
      SlotStays(log, i, n - 1, s, e);
      SlotStep(log, n - 1, s, e);
    }
  }

  /** A slot is in use exactly if the last entry for it does not free it; it holds the item of
      that entry, or if it brings none the one it held before. */
  lemma FinalSlot(log: seq<Entry>, s: State, e: nat, i: nat)
    requires LogOk(log) && i < |log| && log[i].AssignRep? && log[i].elem == e
    requires forall m :: i < m < |log| ==> !Slots(log[m], e)
    ensures SlotBy(log[i], SlotAfter(log, i, s, e), SlotOf(ReplayLogged(log, s), e))
  {
    SlotStep(log, i, s, e);
    SlotStays(log, i + 1, |log|, s, e);
    assert log[..|log|] == log;
  }

  lemma NoSlot(log: seq<Entry>, s: State, e: nat)
    requires LogOk(log) && forall m :: 0 <= m < |log| ==> !Slots(log[m], e)
    ensures SlotOf(ReplayLogged(log, s), e) == SlotOf(s, e)
  {
    SlotStays(log, 0, |log|, s, e);
    assert log[..|log|] == log && log[..0] == [];
  }

  /** An assignment entry that changes the table of a file and the states of a bmap of it: the
      states go by the new table. */
  lemma AssignGoesByNewTable(log: seq<Entry>, s: State, j: nat)
    requires LogOk(log) && log != [] && log[|log| - 1].AssignRep? && j < 64
    requires var en := log[|log| - 1];
             && EntryOk(en) && en.ino.Some? && en.rep.Some?
             && en.rep.value.key.fid == en.ino.value.fid && en.ino.value.fid in s.inodes
    ensures var en, k := log[|log| - 1], log[|log| - 1].rep.value.key;
            var x, y := en.rep.value.states, BmapOf(ReplayLogged(log, s), k).states;
            && |x| == |y| == 64
            && y[j] == (if j >= en.ino.value.nrepls then x[j]
                        else if x[j] == 1 then 2 else if x[j] == 7 then 6 else x[j])
  {
    var en, n := log[|log| - 1], |log| - 1;
    var ops, k := Expand(en), en.rep.value.key;
    ReplayEntry(log, s);
    var s1 := ReplayLogged(log[..n], s);
    FlattenOk(log[..n]);
    InodesAre(Flatten(log[..n]), |Flatten(log[..n])|, s);
    assert EntryOk(en);
    assert ops == [en.ino.value, en.rep.value, PutSlot(en.elem, en.item, !en.free)];
    FinalStates(ops, s1, k, 1, j);
    TableIs(ops, 1, s1, k.fid, 0);
  }
}
