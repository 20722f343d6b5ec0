/** slashd/mds_bmap_timeo.c: the lease timeout table with its two water marks.

    `Table` is the table as a value: a lease is its place in the list, with the sequence number
    stored in it.  `TimeoTable` is the table the MDS updates in place. */
module TimeoTable {
  import opened Common

  /** BMAPSEQ_ANY */
  const SEQ_ANY: nat := 0xffff_ffff_ffff_ffff

  datatype Table = Table(max: nat, min: nat, seqs: seq<nat>)

  function NextSeq(max: nat): nat {
    if max + 1 == SEQ_ANY then 1 else max + 1
  }

  function Without<T>(s: seq<T>, k: nat): seq<T>
    requires k < |s|
  {
    s[..k] + s[k + 1..]
  }

  /** mds_bmap_timeotbl_remove() */
  function Pull(t: Table, k: nat): Table
    requires k < |t.seqs|
  {
    var rest := Without(t.seqs, k);
    t.(seqs := rest, min := if k != 0 then t.min else if rest == [] then t.max else rest[0])
  }

  /** The table when mds_bmap_timeotbl_mdsi() is about to link the lease, which was at `was`. */
  function Unlinked(t: Table, was: Option<nat>): Table
    requires was.Some? ==> was.value < |t.seqs|
  {
    var t' := t.(max := NextSeq(t.max));
    if was.Some? then Pull(t', was.value) else t'
  }

  function Append(t: Table, n: nat): Table {
    t.(seqs := t.seqs + [n])
  }

  /** A grant, a re-grant or a removal, each as one step.  A failed write grant has linked its
      lease, which keeps the number `stale` it had. */
  datatype Event =
    | ReadGrant
    | WriteGrant(was: Option<nat>)
    | FailedGrant(was: Option<nat>, stale: nat)
    | Drop(k: nat)

  predicate Enabled(t: Table, e: Event) {
    match e
    case ReadGrant => true
    case WriteGrant(was) => was.Some? ==> was.value < |t.seqs|
    case FailedGrant(was, stale) => was.Some? ==> was.value < |t.seqs| && stale == t.seqs[was.value]
    case Drop(k) => k < |t.seqs|
  }

  function Apply(t: Table, e: Event): Table
    requires Enabled(t, e)
  {
    match e
    case ReadGrant => Append(t.(max := NextSeq(NextSeq(t.max))), NextSeq(t.max))
    case WriteGrant(was) => Append(Unlinked(t, was), NextSeq(t.max))
    case FailedGrant(was, stale) => Append(Unlinked(t, was), stale)
    case Drop(k) => Pull(t, k)
  }

  predicate Sorted(s: seq<nat>) {
    forall i, j :: 0 <= i < j < |s| ==> s[i] < s[j]
  }

  predicate Ok(t: Table) {
    Sorted(t.seqs) && t.min <= t.max && forall i :: 0 <= i < |t.seqs| ==> t.min <= t.seqs[i] <= t.max
  }

  /** Two more numbers can be handed out before the counter wraps. */
  predicate Roomy(t: Table) {
    t.max + 2 < SEQ_ANY
  }

  predicate Below(s: seq<nat>, n: nat) {
    forall i :: 0 <= i < |s| ==> s[i] < n
  }

  lemma PullOk(t: Table, k: nat, n: nat)
    requires Ok(t) && k < |t.seqs| && Below(t.seqs, n)
    ensures Ok(Pull(t, k)) && t.min <= Pull(t, k).min && Below(Pull(t, k).seqs, n)
  {
    var r := Pull(t, k).seqs;
    assert forall i :: 0 <= i < |r| ==> r[i] == t.seqs[if i < k then i else i + 1];
  }

  /** The lease is out of the list, and the next number is above all that are left. */
  lemma UnlinkedOk(t: Table, was: Option<nat>)
    requires Ok(t) && Roomy(t) && (was.Some? ==> was.value < |t.seqs|)
    ensures var u := Unlinked(t, was);
            Ok(u) && t.min <= u.min && u.min <= u.max == t.max + 1 && Below(u.seqs, t.max + 1)
  {
    if was.Some? {
      PullOk(t.(max := t.max + 1), was.value, t.max + 1);
    }
  }

  lemma AppendOk(t: Table, n: nat)
    requires Ok(t)
    ensures Ok(Append(t, n)) <==> t.min <= n <= t.max && (t.seqs == [] || t.seqs[|t.seqs| - 1] < n)
  {
    var a := Append(t, n).seqs;
    assert a[|t.seqs|] == n && forall i :: 0 <= i < |t.seqs| ==> a[i] == t.seqs[i];
  }

  /** A successful step keeps the list strictly sorted between the marks, and the low mark
      never goes down. */
  lemma StepOk(t: Table, e: Event)
    requires Ok(t) && Roomy(t) && Enabled(t, e) && !e.FailedGrant?
    ensures Ok(Apply(t, e)) && t.min <= Apply(t, e).min && t.max <= Apply(t, e).max
  {
    match e
    case ReadGrant => AppendOk(t.(max := t.max + 2), t.max + 1);
    case WriteGrant(was) =>
      UnlinkedOk(t, was);
      AppendOk(Unlinked(t, was), t.max + 1);
    case Drop(k) => PullOk(t, k, t.max + 1);
  }

  /** A granted lease is the youngest and has the next number.  A write grant makes that the high
      mark, a read grant takes one number more.  The other leases stay in their order. */
  lemma GrantNumbers(t: Table, e: Event)
    requires Roomy(t) && Enabled(t, e) && (e.ReadGrant? || e.WriteGrant?)
    ensures var u, gone := Apply(t, e), e.WriteGrant? && e.was.Some?;
            && |u.seqs| == |t.seqs| + (if gone then 0 else 1) && u.seqs[|u.seqs| - 1] == t.max + 1
            && u.max == t.max + (if e.ReadGrant? then 2 else 1)
            && forall i :: 0 <= i < |u.seqs| - 1 ==>
                 u.seqs[i] == t.seqs[if gone && i >= e.was.value then i + 1 else i]
  {
  }

  /** The low mark moves only when the oldest lease leaves its place: then to the number of the
      next one, or if there is none to the high mark. */
  lemma LowMarkMoves(t: Table, e: Event)
    requires Enabled(t, e) && t.seqs != []
    ensures var u := Apply(t, e);
            var first := e == Drop(0) || ((e.WriteGrant? || e.FailedGrant?) && e.was == Some(0));
            u.min == if !first then t.min else if |t.seqs| == 1 then u.max else t.seqs[1]
  {
  }

  /** When the oldest lease goes, the low mark becomes the least live number, or the high mark if
      none is left: what is below it can be forgotten, and nothing more. */
  lemma LowMarkIsLeast(t: Table)
    requires Ok(t) && t.seqs != []
    ensures var u := Apply(t, Drop(0));
            if u.seqs == [] then u.min == u.max
            else u.min in u.seqs && forall i :: 0 <= i < |u.seqs| ==> u.min <= u.seqs[i]
  {
    var u := Apply(t, Drop(0));
    PullOk(t, 0, t.max + 1);
    assert u.seqs != [] ==> u.seqs[0] in u.seqs;
  }

  /** A number handed out is never 0, which leases start with, nor BMAPSEQ_ANY; it is the next one
      until the counter wraps. */
  lemma NextSeqIs(max: nat)
    requires max < SEQ_ANY
    ensures 0 < NextSeq(max) < SEQ_ANY && (NextSeq(max) == max + 1 <==> max != SEQ_ANY - 1)
    ensures max == SEQ_ANY - 1 ==> NextSeq(max) == 1
  {
  }

  /** The leases `s` and one with number 1 behind them. */
  lemma WrappedIff(t: Table, s: seq<nat>)
    requires t.seqs == s + [1] && 1 <= t.max
    ensures Ok(t) <==> t.min <= 1 && (s == [] || (s == [0] && t.min == 0))
  {
    var n := |s|;
    assert t.seqs[n] == 1 && forall i :: 0 <= i < n ==> t.seqs[i] == s[i];
    if n > 1 {
      assert !(t.seqs[0] < t.seqs[1]) || !(t.seqs[1] < t.seqs[n]);
    } else if n == 1 {
      assert t.seqs[0] < t.seqs[1] <==> s == [0];
    }
  }

  /** The table when the counter wraps: order survives iff no other lease is linked but one with
      number 0, and the low mark is not above the new number. */
  lemma WriteWrapIff(t: Table, was: Option<nat>)
    requires t.max == SEQ_ANY - 1 && Enabled(t, WriteGrant(was))
    ensures Ok(Apply(t, WriteGrant(was))) <==>
            var u := Unlinked(t, was);
            u.min <= 1 && (u.seqs == [] || (u.seqs == [0] && u.min == 0))
  {
    WrappedIff(Apply(t, WriteGrant(was)), Unlinked(t, was).seqs);
  }

  /** A read grant takes two numbers, and order is also lost if the wrap comes between them. */
  lemma ReadWrapIff(t: Table)
    requires !Roomy(t) && t.max < SEQ_ANY
    ensures Ok(Apply(t, ReadGrant)) <==>
            t.max == SEQ_ANY - 1 && t.min <= 1 && (t.seqs == [] || (t.seqs == [0] && t.min == 0))
  {
    var u := Apply(t, ReadGrant);
    if t.max == SEQ_ANY - 1 {
      WrappedIff(u, t.seqs);
    } else {
      assert u.seqs[|t.seqs|] == t.max + 1 > u.max;
    }
  }

  ghost predicate IsRun(ts: seq<Table>, es: seq<Event>) {
    && |ts| == |es| + 1
    && forall i :: 0 <= i < |es| ==> Roomy(ts[i]) && Enabled(ts[i], es[i]) && ts[i + 1] == Apply(ts[i], es[i])
  }

  /** Over every run of grants, re-grants and removals: the live leases are strictly sorted,
      and the low mark is never above a live number, above the high mark or going down. */
  lemma {:induction false} Marks(ts: seq<Table>, es: seq<Event>, i: nat, j: nat)
    requires IsRun(ts, es) && Ok(ts[0]) && i <= j <= |es|
    requires forall k :: 0 <= k < |es| ==> !es[k].FailedGrant?
    ensures Ok(ts[i]) && Ok(ts[j]) && ts[i].min <= ts[j].min && ts[i].max <= ts[j].max
    decreases i + j
  {
    if i < j {
      Marks(ts, es, i, j - 1);
      StepOk(ts[j - 1], es[j - 1]);
    } else if 0 < i {
      Marks(ts, es, i - 1, i - 1);
      StepOk(ts[i - 1], es[i - 1]);
    }
  }

  /** A write grant that fails once its lease is linked keeps the table in order exactly when
      the number left in the lease is above those of the other leases and within the marks. */
  lemma FailedGrantIff(t: Table, was: Option<nat>, stale: nat)
    requires Ok(t) && Roomy(t) && Enabled(t, FailedGrant(was, stale))
    ensures Ok(Apply(t, FailedGrant(was, stale)))
            <==> var u := Unlinked(t, was);
                 u.min <= stale <= u.max && (u.seqs == [] || u.seqs[|u.seqs| - 1] < stale)
  {
    UnlinkedOk(t, was);
    AppendOk(Unlinked(t, was), stale);
  }

  /** A new lease has number 0.  Once a lease was granted, a failed write grant of a second
      one and the release of the first move the low mark back. */
  lemma FailedGrantLowersMark()
    ensures exists ts: seq<Table>, es: seq<Event> ::
              IsRun(ts, es) && Ok(ts[0]) && |es| == 4 && es[2] == FailedGrant(None, 0) && ts[4].min < ts[3].min
  {
    var t0 := Table(1, 1, []);
    var es := [WriteGrant(None), WriteGrant(Some(0)), FailedGrant(None, 0), Drop(0)];
    var t1 := Apply(t0, es[0]);
    var t2 := Apply(t1, es[1]);
    var t3 := Apply(t2, es[2]);
    var t4 := Apply(t3, es[3]);
    assert t4.min < t3.min;
    assert IsRun([t0, t1, t2, t3, t4], es);
  }

  /** The number is taken before the lease is linked.  If other grants finish in between, the
      table stays in order exactly when all their leases are gone again and the low mark has
      not passed the number. */
  lemma OvertakenIff(t: Table, t': Table)
    requires Ok(t) && Roomy(t) && Ok(t') && t.max + 1 <= t'.max
    requires forall i :: 0 <= i < |t'.seqs| ==> t'.seqs[i] <= t.max || t.max + 1 < t'.seqs[i]
    ensures Ok(Append(t', t.max + 1)) <==> t'.min <= t.max + 1 && Below(t'.seqs, t.max + 1)
  {
    AppendOk(t', t.max + 1);
    if t'.seqs != [] {
      var l := |t'.seqs| - 1;
      assert forall i :: 0 <= i < l ==> t'.seqs[i] < t'.seqs[l];
    }
  }

  // ----- The table on the heap -----

  class TimeoLease {
    var seqno: nat
    var timeoq: bool

    constructor ()
      ensures seqno == 0 && !timeoq
    {
      seqno, timeoq := 0, false;
    }
  }

  /** The leases once one that was at `was`, if it was linked, has moved to the tail. */
  function MovedToTail<T>(s: seq<T>, was: Option<nat>, x: T): seq<T>
    requires was.Some? ==> was.value < |s|
  {
    (if was.Some? then Without(s, was.value) else s) + [x]
  }

  ghost function Numbers(leases: seq<TimeoLease>): seq<nat>
    reads leases
  {
    seq(|leases|, i requires 0 <= i < |leases| reads leases => leases[i].seqno)
  }

  class TimeoTable {
    var maxseq: nat
    var minseq: nat
    var leases: seq<TimeoLease>

    constructor (max: nat, min: nat)
      ensures Valid() && leases == [] && View() == Table(max, min, [])
    {
      maxseq, minseq, leases := max, min, [];
    }

    ghost function View(): Table
      reads this, leases
    {
      Table(maxseq, minseq, Numbers(leases))
    }

    /** A lease is linked exactly when BML_TIMEOQ is set, and then once. */
    ghost predicate Linked(bml: TimeoLease)
      reads this, bml
    {
      bml.timeoq <==> bml in leases
    }

    ghost predicate Valid()
      reads this, leases
    {
      && (forall i :: 0 <= i < |leases| ==> leases[i].timeoq)
      && (forall i, j :: 0 <= i < j < |leases| ==> leases[i] != leases[j])
    }

    method GetNextSeq() returns (hwm: nat)
      modifies this`maxseq
      ensures maxseq == hwm == NextSeq(old(maxseq))
    {
      maxseq := maxseq + 1;
      if maxseq == SEQ_ANY {
        maxseq := 1;
      }
      hwm := maxseq;
    }

    method Remove(bml: TimeoLease) returns (ghost k: nat)
      requires Valid() && bml in leases
      modifies this`leases, this`minseq
      ensures Valid() && k < |old(leases)| && old(leases)[k] == bml
      ensures leases == Without(old(leases), k) && bml !in leases
      ensures View() == Pull(old(View()), k)
    {
      var update := leases[0] == bml;
      var i :| 0 <= i < |leases| && leases[i] == bml;
      k := i;
      leases := leases[..i] + leases[i + 1..];
      assert Numbers(leases) == Without(old(Numbers(leases)), k);
      if update {
        if leases != [] {
          minseq := leases[0].seqno;
        } else {
          minseq := maxseq;
        }
      }
    }

    /** mds_bmap_timeotbl_mdsi(BTE_ADD): the lease moves to the tail, with the number it had. */
    method Add(bml: TimeoLease) returns (n: nat, ghost was: Option<nat>)
      requires Valid() && Linked(bml)
      modifies this, bml`timeoq
      ensures Valid() && bml.timeoq && (was.Some? <==> old(bml.timeoq))
      ensures was.Some? ==> was.value < |old(leases)| && old(leases)[was.value] == bml
      ensures leases == MovedToTail(old(leases), was, bml)
      ensures n == NextSeq(old(maxseq))
      ensures View() == Append(Unlinked(old(View()), was), bml.seqno)
    {
      n := GetNextSeq();
      was := None;
      assert Numbers(leases) == old(Numbers(leases));
      if bml.timeoq {
        ghost var k := Remove(bml);
        was := Some(k);
      } else {
        bml.timeoq := true;
        assert Numbers(leases) == old(Numbers(leases));
      }
      ghost var u := Numbers(leases);
      leases := leases + [bml];
      assert Numbers(leases) == u + [bml.seqno];
    }

    /** mds_bmap_ios_assign(), mds_bmap_ios_update(), mds_lease_reassign(): link, then store. */
    method GrantWrite(bml: TimeoLease, ok: bool) returns (ghost e: Event)
      requires Valid() && Linked(bml)
      modifies this, bml
      ensures Valid() && Linked(bml) && Enabled(old(View()), e) && View() == Apply(old(View()), e)
      ensures if ok then e.WriteGrant? && bml.seqno == NextSeq(old(maxseq))
              else e.FailedGrant? && e.stale == bml.seqno == old(bml.seqno)
      ensures bml.timeoq && (e.was.Some? <==> old(bml.timeoq)) && (e.was.Some? ==> old(leases)[e.was.value] == bml)
      ensures leases == MovedToTail(old(leases), e.was, bml)
    {
      ghost var t := View();
      var n; ghost var was;
      n, was := Add(bml);
      e := FailedGrant(was, bml.seqno);
      if ok {
        e := WriteGrant(was);
        ghost var u := Numbers(leases);
        bml.seqno := n;
        assert Numbers(leases) == u[..|u| - 1] + [n];
        assert View() == Append(Unlinked(t, was), n);
      }
    }

    /** mds_bmap_bml_add() for a read lease: the number stored is not the one Add() hands out. */
    method GrantRead(bml: TimeoLease)
      requires Valid() && Linked(bml) && !bml.timeoq
      modifies this, bml
      ensures Valid() && Linked(bml) && View() == Apply(old(View()), ReadGrant)
      ensures bml.timeoq && bml.seqno == NextSeq(old(maxseq)) && leases == old(leases) + [bml]
    {
      var n := GetNextSeq();
      assert Numbers(leases) == old(Numbers(leases));
      bml.seqno := n;
      assert Numbers(leases) == old(Numbers(leases));
      var m; ghost var was;
      m, was := Add(bml);
    }

    /** mds_bmap_timeotbl_mdsi(BTE_DEL) */
    method Delete(bml: TimeoLease) returns (ghost k: nat)
      requires Valid() && Linked(bml) && bml.timeoq
      modifies this, bml`timeoq
      ensures Valid() && Linked(bml) && Enabled(old(View()), Drop(k)) && View() == Apply(old(View()), Drop(k))
      ensures !bml.timeoq && old(leases)[k] == bml && leases == Without(old(leases), k)
    {
      k := Remove(bml);
      ghost var u := Numbers(leases);
      bml.timeoq := false;
      assert Numbers(leases) == u;
    }
  }

  // ----- Calls one after the other -----

  /** A read or a write grant for a new lease, another write grant for lease `i` of those made so
      far, or its removal. */
  datatype Call = ReadNew | WriteNew(ok: bool) | WriteAgain(i: nat, ok: bool) | Delete(i: nat)

  /** The table, which lease is at each place of the list, and the numbers of all leases. */
  datatype Sim = Sim(t: Table, ids: seq<nat>, nos: seq<nat>)

  predicate SimOk(s: Sim) {
    |s.ids| == |s.t.seqs| && forall k :: 0 <= k < |s.ids| ==> s.ids[k] < |s.nos| && s.t.seqs[k] == s.nos[s.ids[k]]
  }

  function Place(ids: seq<nat>, i: nat): (k: Option<nat>)
    ensures if k.Some? then k.value < |ids| && ids[k.value] == i else i !in ids
  {
    if ids == [] then None
    else if ids[|ids| - 1] == i then Some(|ids| - 1)
    else Place(ids[..|ids| - 1], i)
  }

  /** The event a call is, if it is one: a lease that was not made is not granted again, and one
      that is not linked is not removed. */
  function EventOf(s: Sim, q: Call): Option<Event> {
    match q
    case ReadNew => Some(ReadGrant)
    case WriteNew(ok) => Some(if ok then WriteGrant(None) else FailedGrant(None, 0))
    case WriteAgain(i, ok) =>
      if i >= |s.nos| then None
      else Some(if ok then WriteGrant(Place(s.ids, i)) else FailedGrant(Place(s.ids, i), s.nos[i]))
    case Delete(i) => if i in s.ids then Some(Drop(Place(s.ids, i).value)) else None
  }

  /** The lists after a call. */
  function Invoked(s: Sim, q: Call): Sim
    requires SimOk(s)
  {
    if EventOf(s, q).None? then s else
      var t, n := Apply(s.t, EventOf(s, q).value), NextSeq(s.t.max);
      match q
      case ReadNew => Sim(t, s.ids + [|s.nos|], s.nos + [n])
      case WriteNew(ok) => Sim(t, s.ids + [|s.nos|], s.nos + [if ok then n else 0])
      case WriteAgain(i, ok) => Sim(t, MovedToTail(s.ids, Place(s.ids, i), i), if ok then s.nos[i := n] else s.nos)
      case Delete(i) => Sim(t, Without(s.ids, Place(s.ids, i).value), s.nos)
  }

  ghost predicate AllDistinct(all: seq<TimeoLease>) {
    forall i, j :: 0 <= i < j < |all| ==> all[i] != all[j]
  }

  ghost predicate Mapped(leases: seq<TimeoLease>, ids: seq<nat>, all: seq<TimeoLease>) {
    |leases| == |ids| && forall k :: 0 <= k < |ids| ==> ids[k] < |all| && leases[k] == all[ids[k]]
  }

  /** The table and the leases made so far are as `s` says. */
  ghost predicate Rep(t: TimeoTable, all: seq<TimeoLease>, s: Sim)
    reads t, t.leases, all
  {
    && t.Valid() && t.View() == s.t && AllDistinct(all) && |all| == |s.nos| && Mapped(t.leases, s.ids, all)
    && (forall i :: 0 <= i < |all| ==> all[i].seqno == s.nos[i] && t.Linked(all[i]))
  }

  lemma RepOk(t: TimeoTable, all: seq<TimeoLease>, s: Sim)
    requires Rep(t, all, s)
    ensures SimOk(s)
  {
  }

  /** A lease is linked iff its place in the list is known, which is the only one. */
  lemma RepPlace(t: TimeoTable, all: seq<TimeoLease>, s: Sim, i: nat)
    requires Rep(t, all, s) && i < |all|
    ensures all[i].timeoq <==> Place(s.ids, i).Some?
    ensures forall k :: 0 <= k < |t.leases| && t.leases[k] == all[i] ==> Place(s.ids, i) == Some(k)
  {
    if all[i] in t.leases {
      var k :| 0 <= k < |t.leases| && t.leases[k] == all[i];
      assert s.ids[k] == i;
    }
    var p := Place(s.ids, i);
    assert p.Some? ==> t.leases[p.value] == all[i];
  }

  /** The first grant of a lease. */
  method InvokeNew(t: TimeoTable, all: seq<TimeoLease>, read: bool, ok: bool, ghost s: Sim) returns (bml: TimeoLease)
    requires Rep(t, all, s) && SimOk(s)
    modifies t
    ensures fresh(bml) && Rep(t, all + [bml], Invoked(s, if read then ReadNew else WriteNew(ok)))
  {
    bml := new TimeoLease();
    assert Numbers(t.leases) == old(Numbers(t.leases));
    if read {
      t.GrantRead(bml);
    } else {
      ghost var e := t.GrantWrite(bml, ok);
      assert e == if ok then WriteGrant(None) else FailedGrant(None, 0);
    }
  }

  lemma WithoutAt<T>(s: seq<T>, k: nat, i: nat)
    requires k < |s| && i < |s| - 1
    ensures Without(s, k)[i] == s[if i < k then i else i + 1]
  {
  }

  lemma WithoutMapped(leases: seq<TimeoLease>, ids: seq<nat>, all: seq<TimeoLease>, k: nat)
    requires Mapped(leases, ids, all) && k < |ids|
    ensures Mapped(Without(leases, k), Without(ids, k), all)
  {
    forall i | 0 <= i < |ids| - 1
      ensures Without(ids, k)[i] < |all| && Without(leases, k)[i] == all[Without(ids, k)[i]]
    {
      WithoutAt(leases, k, i);
      WithoutAt(ids, k, i);
    }
  }

  lemma StillIn(leases: seq<TimeoLease>, k: nat, x: TimeoLease)
    requires k < |leases| && x != leases[k]
    ensures x in Without(leases, k) <==> x in leases
  {
    assert leases == leases[..k] + [leases[k]] + leases[k + 1..];
  }

  /** A lease moves to the tail. */
  lemma MovedMapped(leases: seq<TimeoLease>, ids: seq<nat>, all: seq<TimeoLease>, was: Option<nat>, i: nat)
    requires Mapped(leases, ids, all) && i < |all| && (was.Some? ==> was.value < |ids| && ids[was.value] == i)
    ensures Mapped(MovedToTail(leases, was, all[i]), MovedToTail(ids, was, i), all)
    ensures forall x :: x != all[i] ==> (x in MovedToTail(leases, was, all[i]) <==> x in leases)
  {
    if was.Some? {
      WithoutMapped(leases, ids, all, was.value);
      forall x | x != all[i] ensures x in Without(leases, was.value) <==> x in leases {
        StillIn(leases, was.value, x);
      }
    }
  }

  method InvokeAgain(t: TimeoTable, all: seq<TimeoLease>, i: nat, ok: bool, ghost s: Sim)
    requires Rep(t, all, s) && SimOk(s) && i < |all|
    modifies t, all[i]
    ensures Rep(t, all, Invoked(s, WriteAgain(i, ok)))
  {
    RepPlace(t, all, s, i);
    MovedMapped(t.leases, s.ids, all, Place(s.ids, i), i);
    ghost var e := t.GrantWrite(all[i], ok);
    assert e.was == Place(s.ids, i);
    assert Mapped(t.leases, MovedToTail(s.ids, e.was, i), all);
    assert forall j :: 0 <= j < |all| && j != i ==> all[j] != all[i];
  }

  method InvokeDelete(t: TimeoTable, all: seq<TimeoLease>, i: nat, ghost s: Sim)
    requires Rep(t, all, s) && SimOk(s) && i < |all| && all[i].timeoq
    modifies t, all[i]
    ensures Rep(t, all, Invoked(s, Delete(i)))
  {
    RepPlace(t, all, s, i);
    ghost var p := Place(s.ids, i).value;
    WithoutMapped(t.leases, s.ids, all, p);
    forall x | x != all[i] ensures x in Without(t.leases, p) <==> x in t.leases {
      StillIn(t.leases, p, x);
    }
    ghost var k := t.Delete(all[i]);
    assert k == p;
  }

  method Invoke(t: TimeoTable, all: seq<TimeoLease>, q: Call, ghost s: Sim) returns (all': seq<TimeoLease>)
    requires Rep(t, all, s) && SimOk(s)
    modifies t, all
    ensures all <= all' && (forall i :: |all| <= i < |all'| ==> fresh(all'[i])) && Rep(t, all', Invoked(s, q))
  {
    all' := all;
    match q {
      case ReadNew =>
        var bml := InvokeNew(t, all, true, true, s);
        all' := all + [bml];
      case WriteNew(ok) =>
        var bml := InvokeNew(t, all, false, ok, s);
        all' := all + [bml];
      case WriteAgain(i, ok) =>
        if i < |all| {
          InvokeAgain(t, all, i, ok, s);
        }
      case Delete(i) =>
        if i < |all| {
          RepPlace(t, all, s, i);
          if all[i].timeoq {
            InvokeDelete(t, all, i, s);
          }
        }
    }
  }

  /** After the first `n` calls, from an empty table. */
  ghost predicate IsTrace(ss: seq<Sim>, qs: seq<Call>, n: nat, max: nat, min: nat) {
    && n <= |qs| && |ss| == n + 1 && ss[0] == Sim(Table(max, min, []), [], [])
    && forall i :: 0 <= i < n ==> SimOk(ss[i]) && ss[i + 1] == Invoked(ss[i], qs[i])
  }

  /** Any calls from an empty table: each is the event it should be, on the place where its lease is,
      and in the end list, marks and the numbers in all leases are those of the specification. */
  method Play(max: nat, min: nat, qs: seq<Call>) returns (t: TimeoTable, all: seq<TimeoLease>, ghost ss: seq<Sim>)
    ensures IsTrace(ss, qs, |qs|, max, min) && Rep(t, all, ss[|qs|])
  {
    t := new TimeoTable(max, min);
    all := [];
    ss := [Sim(t.View(), [], [])];
    for n := 0 to |qs|
      invariant fresh(t) && forall i :: 0 <= i < |all| ==> fresh(all[i])
      invariant IsTrace(ss, qs, n, max, min) && Rep(t, all, ss[n])
    {
      RepOk(t, all, ss[n]);
      all := Invoke(t, all, qs[n], ss[n]);
      ss := ss + [Invoked(ss[n], qs[n])];
    }
  }
}
