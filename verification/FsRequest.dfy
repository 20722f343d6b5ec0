/** mount_slash/io.c: the life of one file system request.

    msl_io() splits the request into requests on bmaps (biorqs), which RPCs, callbacks and
    the flusher share by reference count.  A release drops its lock while it completes the
    request, so the steps of different threads interleave; each event is one locked section. */
module FsRequest {
  import opened Common

  /** A biorq.  `ready` is BIORQ_FLUSHRDY; `done`: it has completed its request.  Threads that
      hold a reference are counted by where they are: using the biorq (or, for the flusher,
      having it queued); in a release before the data is copied; before the request is
      completed, with `amount` bytes copied and `flush` if they have to be flushed; before the
      biorq is queued for that; and before the reference is given back. */
  datatype Biorq = Biorq(write: bool, dio: bool, len: nat, ref: int, ready: bool, done: bool, destroyed: nat,
                         held: nat, copying: nat, copied: nat, amount: nat, flush: bool, queueing: nat,
                         finishing: nat)

  /** msl_fsrqinfo.  `issuing`: msl_io() still has its reference; `built` is the number of
      bytes for which biorqs were built, `reported` the length at the reply. */
  datatype Fsrq = Fsrq(size: nat, ref: int, len: nat, err: bool, replies: nat, reported: nat,
                       issuing: bool, built: nat, rs: seq<Biorq>)

  datatype Event =
    | Build(write: bool, dio: bool, len: nat)
    | SetErr(err: bool)
    | Issued
    | Incref(i: nat)
    | Release(i: nat)
    | Copy(i: nat, amount: nat)
    | Complete(i: nat)
    | Schedule(i: nat)
    | ReleaseEnd(i: nat)

  // ----- One biorq -----

  /** bmpc_biorq_new() */
  function NewBiorq(write: bool, dio: bool, len: nat): Biorq {
    Biorq(write, dio, len, 1, false, false, 0, 1, 0, 0, 0, false, 0, 0)
  }

  /** The release goes on to complete the request. */
  predicate Completes(b: Biorq) {
    b.ref == 1 && (!b.write || !b.ready)
  }

  function Drop(b: Biorq): Biorq {
    b.(ref := b.ref - 1, destroyed := b.destroyed + if b.ref == 1 then 1 else 0)
  }

  function ReleaseBiorq(b: Biorq): Biorq
    requires b.held > 0
  {
    var c := b.(held := b.held - 1);
    if Completes(b) then c.(copying := c.copying + 1) else Drop(c)
  }

  /** The first section of msl_biorq_complete_fsrq(): nothing is copied if the request failed; a
      cached write that was copied has to be flushed. */
  function CopyBiorq(b: Biorq, err: bool, n: nat): Biorq
    requires b.copying > 0
  {
    b.(copying := b.copying - 1, copied := b.copied + 1, amount := n, flush := b.write && !b.dio && !err)
  }

  /** The call of msl_complete_fsrq(); the request may have failed in between. */
  function CompleteBiorq(b: Biorq): Biorq
    requires b.copied > 0
  {
    var c := b.(copied := b.copied - 1, done := true);
    if b.flush then c.(queueing := c.queueing + 1) else c.(finishing := c.finishing + 1)
  }

  function ScheduleBiorq(b: Biorq): Biorq
    requires b.queueing > 0
  {
    b.(queueing := b.queueing - 1, finishing := b.finishing + 1, ready := true, ref := b.ref + 1, held := b.held + 1)
  }

  function EndBiorq(b: Biorq): Biorq
    requires b.finishing > 0
  {
    Drop(b.(finishing := b.finishing - 1))
  }

  // ----- The request -----

  /** _msl_complete_fsrq(): the last reference replies. */
  function CompleteFsrq(q: Fsrq, len: nat): Fsrq {
    var n := if q.err then q.len else q.len + len;
    if q.ref == 1 then q.(len := n, ref := 0, replies := q.replies + 1, reported := n)
    else q.(len := n, ref := q.ref - 1)
  }

  predicate Enabled(q: Fsrq, v: Event) {
    match v
    case Build(_, _, len) => q.issuing && q.built + len <= q.size
    case SetErr(_) => true
    case Issued => q.issuing
    case Incref(i) => i < |q.rs| && q.rs[i].held > 0
    case Release(i) => i < |q.rs| && q.rs[i].held > 0
    case Copy(i, n) =>
      && i < |q.rs| && q.rs[i].copying > 0
      && (if q.err then n == 0 else if q.rs[i].write || q.rs[i].dio then n == q.rs[i].len else n <= q.rs[i].len)
    case Complete(i) => i < |q.rs| && q.rs[i].copied > 0
    case Schedule(i) => i < |q.rs| && q.rs[i].queueing > 0
    case ReleaseEnd(i) => i < |q.rs| && q.rs[i].finishing > 0
  }

  function Put(q: Fsrq, i: nat, b: Biorq): Fsrq
    requires i < |q.rs|
  {
    q.(rs := q.rs[i := b])
  }

  function Apply(q: Fsrq, v: Event): Fsrq
    requires Enabled(q, v)
  {
    match v
    case Build(w, d, len) =>
      q.(ref := q.ref + 1, built := q.built + len, rs := q.rs + [NewBiorq(w, d, len)])
    case SetErr(e) => q.(err := e)
    case Issued => CompleteFsrq(q, 0).(issuing := false)
    case Incref(i) => Put(q, i, q.rs[i].(ref := q.rs[i].ref + 1, held := q.rs[i].held + 1))
    case Release(i) => Put(q, i, ReleaseBiorq(q.rs[i]))
    case Copy(i, n) => Put(q, i, CopyBiorq(q.rs[i], q.err, n))
    case Complete(i) => Put(CompleteFsrq(q, q.rs[i].amount), i, CompleteBiorq(q.rs[i]))
    case Schedule(i) => Put(q, i, ScheduleBiorq(q.rs[i]))
    case ReleaseEnd(i) => Put(q, i, EndBiorq(q.rs[i]))
  }

  /** msl_fsrqinfo_init() */
  function Start(size: nat): Fsrq {
    Fsrq(size, 1, 0, false, 0, 0, true, 0, [])
  }

  /** The assertions of the source: counts are positive before they drop, the length stays
      within the size, a reply is the first, and a biorq is destroyed once. */
  predicate Asserts(q: Fsrq, v: Event)
    requires Enabled(q, v)
  {
    match v
    case Issued => q.ref > 0 && q.replies == 0
    case Complete(i) => q.ref > 0 && q.replies == 0 && (!q.err ==> q.len + q.rs[i].amount <= q.size)
    case Release(i) => q.rs[i].ref > 0 && q.rs[i].destroyed == 0
    case ReleaseEnd(i) => q.rs[i].ref > 0 && q.rs[i].destroyed == 0
    case _ => true
  }

  // ----- What every event keeps -----

  /** Either the request is not completed and at most the last reference is in a release; or it
      is, and what is left is the end of that release and the reference of the flusher. */
  predicate BiorqOk(b: Biorq) {
    && b.ref == b.held + b.copying + b.copied + b.queueing + b.finishing
    && b.copying + b.copied + b.queueing + b.finishing <= 1
    && (b.copying + b.copied + b.queueing > 0 ==> b.held == 0)
    && (b.done <==> b.ready || b.queueing + b.finishing > 0 || b.destroyed > 0)
    && (b.ready || b.queueing > 0 ==> b.write && !b.dio)
    && (b.copied > 0 ==> b.amount <= b.len && (b.flush ==> b.write && !b.dio))
    && (b.done ==> b.copying + b.copied == 0) && (b.done && !b.ready ==> b.held == 0)
    && b.destroyed == if b.ref == 0 then 1 else 0
  }

  function Open(b: Biorq): nat {
    if b.done then 0 else 1
  }

  /** The number of biorqs that have not completed the request. */
  function Pending(rs: seq<Biorq>): nat {
    if rs == [] then 0 else Pending(rs[..|rs| - 1]) + Open(rs[|rs| - 1])
  }

  function Share(b: Biorq): nat {
    if b.done then b.len else 0
  }

  /** The bytes of those that have. */
  function Finished(rs: seq<Biorq>): nat {
    if rs == [] then 0 else Finished(rs[..|rs| - 1]) + Share(rs[|rs| - 1])
  }

  function Total(rs: seq<Biorq>): nat {
    if rs == [] then 0 else Total(rs[..|rs| - 1]) + rs[|rs| - 1].len
  }

  ghost predicate Inv(q: Fsrq) {
    && (forall i :: 0 <= i < |q.rs| ==> BiorqOk(q.rs[i]))
    && q.ref == Pending(q.rs) + (if q.issuing then 1 else 0)
    && q.replies == (if q.ref == 0 then 1 else 0)
    && q.len <= Finished(q.rs) && Total(q.rs) == q.built <= q.size
    && q.reported <= q.size && (q.replies == 1 ==> q.reported == q.len)
  }

  lemma {:induction false} FinishedBelow(rs: seq<Biorq>, i: nat)
    requires i < |rs|
    ensures Finished(rs) <= Total(rs) && (rs[i].done || Finished(rs) + rs[i].len <= Total(rs))
    ensures rs[i].done || Pending(rs) > 0
  {
    var n := |rs| - 1;
    if i < n {
      FinishedBelow(rs[..n], i);
    } else {
      AllBelow(rs[..n]);
    }
  }

  lemma {:induction false} AllBelow(rs: seq<Biorq>)
    ensures Finished(rs) <= Total(rs)
  {
    if rs != [] {
      AllBelow(rs[..|rs| - 1]);
    }
  }

  /** One biorq changes. */
  lemma {:induction false} PutSums(rs: seq<Biorq>, i: nat, b: Biorq)
    requires i < |rs| && b.len == rs[i].len
    ensures Pending(rs[i := b]) == Pending(rs) - Open(rs[i]) + Open(b)
    ensures Finished(rs[i := b]) == Finished(rs) - Share(rs[i]) + Share(b)
    ensures Total(rs[i := b]) == Total(rs)
  {
    var n := |rs| - 1;
    if i < n {
      PutSums(rs[..n], i, b);
      assert rs[i := b][..n] == rs[..n][i := b];
    } else {
      assert rs[i := b][..n] == rs[..n];
    }
  }

  lemma AddSums(rs: seq<Biorq>, b: Biorq)
    ensures Pending(rs + [b]) == Pending(rs) + Open(b) && Total(rs + [b]) == Total(rs) + b.len
    ensures !b.done ==> Finished(rs + [b]) == Finished(rs)
  {
    assert (rs + [b])[..|rs|] == rs;
  }

  /** A biorq changes and neither starts nor ends to be pending. */
  lemma PutInv(q: Fsrq, i: nat, b: Biorq)
    requires Inv(q) && i < |q.rs| && BiorqOk(b) && b.len == q.rs[i].len && b.done == q.rs[i].done
    ensures Inv(Put(q, i, b))
  {
    PutSums(q.rs, i, b);
  }

  lemma BuildInv(q: Fsrq, w: bool, d: bool, len: nat)
    requires Inv(q) && Enabled(q, Build(w, d, len))
    ensures Inv(Apply(q, Build(w, d, len)))
  {
    AddSums(q.rs, NewBiorq(w, d, len));
  }

  lemma IssuedInv(q: Fsrq)
    requires Inv(q) && q.issuing
    ensures Inv(Apply(q, Issued)) && Asserts(q, Issued)
  {
    AllBelow(q.rs);
  }

  lemma CompleteOk(b: Biorq)
    requires BiorqOk(b) && b.copied > 0
    ensures !b.done && b.amount <= b.len && BiorqOk(CompleteBiorq(b))
  {
  }

  lemma CompleteInv(q: Fsrq, i: nat)
    requires Inv(q) && Enabled(q, Complete(i))
    ensures Inv(Apply(q, Complete(i))) && Asserts(q, Complete(i))
  {
    var b := CompleteBiorq(q.rs[i]);
    CompleteOk(q.rs[i]);
    FinishedBelow(q.rs, i);
    PutSums(q.rs, i, b);
    AllBelow(q.rs[i := b]);
    assert Apply(q, Complete(i)).len <= Finished(q.rs[i := b]);
  }

  lemma CopyOk(b: Biorq, err: bool, n: nat)
    requires BiorqOk(b) && b.copying > 0 && n <= b.len
    ensures !b.done && BiorqOk(CopyBiorq(b, err, n))
  {
  }

  lemma ReleaseInv(q: Fsrq, i: nat)
    requires Inv(q) && Enabled(q, Release(i))
    ensures Inv(Apply(q, Release(i))) && Asserts(q, Release(i))
  {
    assert BiorqOk(q.rs[i]);
    PutInv(q, i, ReleaseBiorq(q.rs[i]));
  }

  lemma CopyInv(q: Fsrq, i: nat, n: nat)
    requires Inv(q) && Enabled(q, Copy(i, n))
    ensures Inv(Apply(q, Copy(i, n))) && Asserts(q, Copy(i, n))
  {
    CopyOk(q.rs[i], q.err, n);
    PutInv(q, i, CopyBiorq(q.rs[i], q.err, n));
  }

  lemma ScheduleInv(q: Fsrq, i: nat)
    requires Inv(q) && Enabled(q, Schedule(i))
    ensures Inv(Apply(q, Schedule(i))) && Asserts(q, Schedule(i))
  {
    assert BiorqOk(q.rs[i]);
    PutInv(q, i, ScheduleBiorq(q.rs[i]));
  }

  lemma ReleaseEndInv(q: Fsrq, i: nat)
    requires Inv(q) && Enabled(q, ReleaseEnd(i))
    ensures Inv(Apply(q, ReleaseEnd(i))) && Asserts(q, ReleaseEnd(i))
  {
    assert BiorqOk(q.rs[i]);
    PutInv(q, i, EndBiorq(q.rs[i]));
  }

  lemma StepInv(q: Fsrq, v: Event)
    requires Inv(q) && Enabled(q, v)
    ensures Inv(Apply(q, v)) && Asserts(q, v)
  {
    match v
    case Build(w, d, len) => BuildInv(q, w, d, len);
    case SetErr(_) =>
    case Issued => IssuedInv(q);
    case Incref(i) =>
      assert BiorqOk(q.rs[i]);
      PutInv(q, i, Apply(q, v).rs[i]);
    case Release(i) => ReleaseInv(q, i);
    case Copy(i, n) => CopyInv(q, i, n);
    case Complete(i) => CompleteInv(q, i);
    case Schedule(i) => ScheduleInv(q, i);
    case ReleaseEnd(i) => ReleaseEndInv(q, i);
  }

  /** What is flushed was copied while the request had not failed, also if it fails before it is
      completed; then the bytes do not count and are written all the same. */
  lemma FlushedWasCopied(q: Fsrq, i: nat, n: nat, late: bool)
    requires Inv(q) && Enabled(q, Copy(i, n)) && q.rs[i].write && !q.rs[i].dio
    ensures var q1 := Apply(q, Copy(i, n)).(err := late);
            && Enabled(q1, Complete(i))
            && var q2 := Apply(q1, Complete(i));
               && (Enabled(q2, Schedule(i)) <==> !q.err)
               && q2.len == q.len + if late then 0 else n
  {
    assert BiorqOk(q.rs[i]);
  }

  // ----- Runs -----

  ghost predicate IsRun(qs: seq<Fsrq>, vs: seq<Event>) {
    && |qs| == |vs| + 1 && qs[0] == Start(qs[0].size)
    && forall i :: 0 <= i < |vs| ==> Enabled(qs[i], vs[i]) && qs[i + 1] == Apply(qs[i], vs[i])
  }

  lemma {:induction false} RunInv(qs: seq<Fsrq>, vs: seq<Event>, i: nat)
    requires IsRun(qs, vs) && i <= |vs|
    ensures Inv(qs[i]) && qs[i].size == qs[0].size
  {
    if i > 0 {
      RunInv(qs, vs, i - 1);
      StepInv(qs[i - 1], vs[i - 1]);
    }
  }

  /** In every reachable state the count of the request is the reference of its issuer plus
      its biorqs that have not completed it, and none of the assertions fires. */
  lemma CountIsPending(qs: seq<Fsrq>, vs: seq<Event>, i: nat)
    requires IsRun(qs, vs) && i <= |vs|
    ensures qs[i].ref == Pending(qs[i].rs) + (if qs[i].issuing then 1 else 0)
    ensures i < |vs| ==> Asserts(qs[i], vs[i])
  {
    RunInv(qs, vs, i);
    if i < |vs| {
      StepInv(qs[i], vs[i]);
    }
  }

  lemma {:induction false} NonePending(rs: seq<Biorq>, i: nat)
    requires Pending(rs) == 0 && i < |rs|
    ensures rs[i].done
  {
    if i < |rs| - 1 {
      NonePending(rs[..|rs| - 1], i);
    }
  }

  /** At most one reply is sent in any run, exactly when the issuer and all biorqs are through,
      and the length reported is what was completed, at most what was asked for. */
  lemma RepliedOnce(qs: seq<Fsrq>, vs: seq<Event>, i: nat)
    requires IsRun(qs, vs) && i <= |vs|
    ensures qs[i].replies <= 1 && qs[i].reported <= qs[0].size
    ensures qs[i].replies == 1 ==> qs[i].reported == qs[i].len
    ensures qs[i].replies == 1 <==> !qs[i].issuing && Pending(qs[i].rs) == 0
    ensures qs[i].replies == 1 ==> forall k :: 0 <= k < |qs[i].rs| ==> qs[i].rs[k].done
  {
    RunInv(qs, vs, i);
    if qs[i].replies == 1 {
      forall k | 0 <= k < |qs[i].rs| ensures qs[i].rs[k].done {
        NonePending(qs[i].rs, k);
      }
    }
  }

  // ----- How many bytes a reply reports -----

  ghost function Blanked(q: Fsrq, v: Event, blank: set<nat>): set<nat> {
    if v.Copy? && q.err then blank + {v.i} else blank
  }

  ghost function Delayed(q: Fsrq, v: Event, late: set<nat>): set<nat> {
    if v.Complete? && q.err then late + {v.i} else late
  }

  /** The biorqs that were copied while the request had an error. */
  ghost function Blank(qs: seq<Fsrq>, vs: seq<Event>, i: nat): set<nat>
    requires i <= |vs| < |qs|
  {
    if i == 0 then {} else Blanked(qs[i - 1], vs[i - 1], Blank(qs, vs, i - 1))
  }

  /** The biorqs that completed the request while it had an error. */
  ghost function Late(qs: seq<Fsrq>, vs: seq<Event>, i: nat): set<nat>
    requires i <= |vs| < |qs|
  {
    if i == 0 then {} else Delayed(qs[i - 1], vs[i - 1], Late(qs, vs, i - 1))
  }

  /** What the biorqs copied that completed the request, except the late ones. */
  ghost function Counted(rs: seq<Biorq>, late: set<nat>): nat {
    if rs == [] then 0
    else
      var n := |rs| - 1;
      Counted(rs[..n], late) + if rs[n].done && n !in late then rs[n].amount else 0
  }

  function Weight(b: Biorq, late: bool): nat {
    if b.done && !late then b.amount else 0
  }

  lemma {:induction false} CountedPut(rs: seq<Biorq>, late: set<nat>, late': set<nat>, i: nat, b: Biorq)
    requires i < |rs| && forall k :: k != i ==> (k in late <==> k in late')
    ensures Counted(rs[i := b], late') == Counted(rs, late) - Weight(rs[i], i in late) + Weight(b, i in late')
  {
    var n := |rs| - 1;
    if i < n {
      CountedPut(rs[..n], late, late', i, b);
      assert rs[i := b][..n] == rs[..n][i := b];
    } else {
      assert rs[i := b][..n] == rs[..n];
      CountedSame(rs[..n], late, late');
    }
  }

  lemma {:induction false} CountedSame(rs: seq<Biorq>, late: set<nat>, late': set<nat>)
    requires forall k :: 0 <= k < |rs| ==> (k in late <==> k in late')
    ensures Counted(rs, late) == Counted(rs, late')
  {
    if rs != [] {
      CountedSame(rs[..|rs| - 1], late, late');
    }
  }

  /** What is known of a biorq that has been copied. */
  predicate AmountOk(b: Biorq, blank: bool) {
    (b.copied > 0 || b.done) && (b.write || b.dio) ==> b.amount == if blank then 0 else b.len
  }

  ghost predicate Tallied(q: Fsrq, blank: set<nat>, late: set<nat>) {
    && q.len == Counted(q.rs, late)
    && (forall k :: 0 <= k < |q.rs| ==> AmountOk(q.rs[k], k in blank))
    && (forall k :: k in blank ==> k < |q.rs| && (q.rs[k].copied > 0 || q.rs[k].done))
    && (forall k :: k in late ==> k < |q.rs| && q.rs[k].done)
  }

  /** Biorq `i` becomes `b`. */
  lemma TallyPut(q: Fsrq, q': Fsrq, blank: set<nat>, late: set<nat>, blank': set<nat>, late': set<nat>,
                 i: nat, b: Biorq)
    requires Tallied(q, blank, late) && i < |q.rs| && q'.rs == q.rs[i := b]
    requires blank' == blank || blank' == blank + {i}
    requires late' == late || late' == late + {i}
    requires q'.len == q.len - Weight(q.rs[i], i in late) + Weight(b, i in late')
    requires AmountOk(b, i in blank') && (i in blank' ==> b.copied > 0 || b.done) && (i in late' ==> b.done)
    ensures Tallied(q', blank', late')
  {
    CountedPut(q.rs, late, late', i, b);
  }

  /** The biorq changes in nothing that counts. */
  lemma TallyKeep(q: Fsrq, q': Fsrq, blank: set<nat>, late: set<nat>, i: nat, b: Biorq)
    requires Tallied(q, blank, late) && i < |q.rs| && q'.rs == q.rs[i := b] && q'.len == q.len
    requires b.done == q.rs[i].done && b.copied == q.rs[i].copied && b.amount == q.rs[i].amount
    requires b.write == q.rs[i].write && b.dio == q.rs[i].dio && b.len == q.rs[i].len
    ensures Tallied(q', blank, late)
  {
    TallyPut(q, q', blank, late, blank, late, i, b);
  }

  lemma TallyCopy(q: Fsrq, blank: set<nat>, late: set<nat>, i: nat, n: nat)
    requires Inv(q) && Enabled(q, Copy(i, n)) && Tallied(q, blank, late)
    ensures Tallied(Apply(q, Copy(i, n)), if q.err then blank + {i} else blank, late)
  {
    var b := q.rs[i];
    assert BiorqOk(b) && b.copied == 0 && !b.done && i !in blank && i !in late;
    TallyPut(q, Apply(q, Copy(i, n)), blank, late, if q.err then blank + {i} else blank, late, i,
             CopyBiorq(b, q.err, n));
  }

  lemma TallyComplete(q: Fsrq, blank: set<nat>, late: set<nat>, i: nat)
    requires Inv(q) && Enabled(q, Complete(i)) && Tallied(q, blank, late)
    ensures Tallied(Apply(q, Complete(i)), blank, if q.err then late + {i} else late)
  {
    var b := q.rs[i];
    assert BiorqOk(b) && !b.done && AmountOk(b, i in blank);
    TallyPut(q, Apply(q, Complete(i)), blank, late, blank, if q.err then late + {i} else late, i, CompleteBiorq(b));
  }

  lemma TallyBuild(q: Fsrq, blank: set<nat>, late: set<nat>, w: bool, d: bool, len: nat)
    requires Tallied(q, blank, late) && Enabled(q, Build(w, d, len))
    ensures Tallied(Apply(q, Build(w, d, len)), blank, late)
  {
    assert Apply(q, Build(w, d, len)).rs[..|q.rs|] == q.rs;
  }

  /** The events that neither copy, complete nor build. */
  lemma TallyOther(q: Fsrq, v: Event, blank: set<nat>, late: set<nat>)
    requires Inv(q) && Enabled(q, v) && Tallied(q, blank, late) && !v.Copy? && !v.Complete? && !v.Build?
    ensures Tallied(Apply(q, v), blank, late)
  {
    if !v.SetErr? && !v.Issued? {
      TallyKeep(q, Apply(q, v), blank, late, v.i, Apply(q, v).rs[v.i]);
    }
  }

  lemma TallyStep(q: Fsrq, v: Event, blank: set<nat>, late: set<nat>)
    requires Inv(q) && Enabled(q, v) && Tallied(q, blank, late)
    ensures Tallied(Apply(q, v), Blanked(q, v, blank), Delayed(q, v, late))
  {
    match v
    case Build(w, d, len) => TallyBuild(q, blank, late, w, d, len);
    case Copy(k, n) => TallyCopy(q, blank, late, k, n);
    case Complete(k) => TallyComplete(q, blank, late, k);
    case _ => TallyOther(q, v, blank, late);
  }

  lemma {:induction false} RunTallied(qs: seq<Fsrq>, vs: seq<Event>, i: nat)
    requires IsRun(qs, vs) && i <= |vs|
    ensures Tallied(qs[i], Blank(qs, vs, i), Late(qs, vs, i))
  {
    if i > 0 {
      RunTallied(qs, vs, i - 1);
      RunInv(qs, vs, i - 1);
      TallyStep(qs[i - 1], vs[i - 1], Blank(qs, vs, i - 1), Late(qs, vs, i - 1));
    }
  }

  /** The length of the request is what its biorqs have copied and completed, without those
      completed while it had an error; and a biorq that writes, or bypasses the cache, copied all
      of its bytes, or none if the request had an error then. */
  lemma LengthIsCopied(qs: seq<Fsrq>, vs: seq<Event>, i: nat)
    requires IsRun(qs, vs) && i <= |vs|
    ensures qs[i].len == Counted(qs[i].rs, Late(qs, vs, i))
    ensures forall k :: 0 <= k < |qs[i].rs| && qs[i].rs[k].done && (qs[i].rs[k].write || qs[i].rs[k].dio) ==>
              qs[i].rs[k].amount == if k in Blank(qs, vs, i) then 0 else qs[i].rs[k].len
  {
    RunTallied(qs, vs, i);
    forall k | 0 <= k < |qs[i].rs| && qs[i].rs[k].done && (qs[i].rs[k].write || qs[i].rs[k].dio)
      ensures qs[i].rs[k].amount == if k in Blank(qs, vs, i) then 0 else qs[i].rs[k].len
    {
      assert AmountOk(qs[i].rs[k], k in Blank(qs, vs, i));
    }
  }

  predicate Whole(b: Biorq, blank: bool, late: bool) {
    b.len > 0 ==> !blank && !late
  }

  /** No biorq with data was copied or completed while the request had an error. */
  ghost predicate AllWhole(rs: seq<Biorq>, blank: set<nat>, late: set<nat>) {
    forall k :: 0 <= k < |rs| ==> Whole(rs[k], k in blank, k in late)
  }

  lemma {:induction false} CountedIff(rs: seq<Biorq>, blank: set<nat>, late: set<nat>)
    requires forall k :: 0 <= k < |rs| ==> rs[k].done && rs[k].write && AmountOk(rs[k], k in blank)
    ensures Counted(rs, late) <= Total(rs)
    ensures Counted(rs, late) == Total(rs) <==> AllWhole(rs, blank, late)
  {
    if rs != [] {
      var n := |rs| - 1;
      CountedIff(rs[..n], blank, late);
      assert AmountOk(rs[n], n in blank);
      assert AllWhole(rs, blank, late) <==>
             AllWhole(rs[..n], blank, late) && Whole(rs[n], n in blank, n in late);
    }
  }

  lemma TalliedIff(q: Fsrq, blank: set<nat>, late: set<nat>)
    requires Tallied(q, blank, late) && forall k :: 0 <= k < |q.rs| ==> q.rs[k].done && q.rs[k].write
    ensures q.len == Total(q.rs) <==> AllWhole(q.rs, blank, late)
  {
    CountedIff(q.rs, blank, late);
  }

  /** A write that was built in full is reported in full exactly if no biorq with data was copied
      or completed while the request had an error, also if the error has been cleared since. */
  lemma WholeWriteIff(qs: seq<Fsrq>, vs: seq<Event>, i: nat)
    requires IsRun(qs, vs) && i <= |vs| && qs[i].replies == 1 && qs[i].built == qs[i].size
    requires forall k :: 0 <= k < |qs[i].rs| ==> qs[i].rs[k].write
    ensures qs[i].reported == qs[0].size <==> AllWhole(qs[i].rs, Blank(qs, vs, i), Late(qs, vs, i))
  {
    var q, blank, late := qs[i], Blank(qs, vs, i), Late(qs, vs, i);
    assert q.reported == q.len && Total(q.rs) == qs[0].size by {
      RunInv(qs, vs, i);
    }
    assert forall k :: 0 <= k < |q.rs| ==> q.rs[k].done by {
      RepliedOnce(qs, vs, i);
    }
    assert Tallied(q, blank, late) by {
      RunTallied(qs, vs, i);
    }
    TalliedIff(q, blank, late);
  }

  /** Once it was copied a biorq stays so, with the amount it has. */
  predicate Keeps(b: Biorq, b': Biorq) {
    (b.done ==> b'.done) && (b.copied > 0 || b.done ==> (b'.copied > 0 || b'.done) && b'.amount == b.amount)
  }

  lemma BiorqKeeps(b: Biorq)
    requires BiorqOk(b)
    ensures b.held > 0 ==> Keeps(b, ReleaseBiorq(b))
    ensures b.copied > 0 ==> Keeps(b, CompleteBiorq(b))
    ensures b.queueing > 0 ==> Keeps(b, ScheduleBiorq(b))
    ensures b.finishing > 0 ==> Keeps(b, EndBiorq(b))
  {
  }

  lemma CopyKeeps(b: Biorq, err: bool, n: nat)
    requires BiorqOk(b) && b.copying > 0
    ensures Keeps(b, CopyBiorq(b, err, n))
  {
  }

  lemma DoneStep(q: Fsrq, v: Event, k: nat)
    requires Inv(q) && Enabled(q, v) && k < |q.rs|
    ensures k < |Apply(q, v).rs| && Keeps(q.rs[k], Apply(q, v).rs[k])
  {
    BiorqKeeps(q.rs[k]);
    if v.Copy? && v.i == k {
      CopyKeeps(q.rs[k], q.err, v.amount);
    }
  }

  lemma {:induction false} DoneStays(qs: seq<Fsrq>, vs: seq<Event>, i: nat, j: nat, k: nat)
    requires IsRun(qs, vs) && i <= j <= |vs| && k < |qs[i].rs|
    ensures k < |qs[j].rs| && Keeps(qs[i].rs[k], qs[j].rs[k])
    decreases j
  {
    if i < j {
      DoneStays(qs, vs, i, j - 1, k);
      RunInv(qs, vs, j - 1);
      DoneStep(qs[j - 1], vs[j - 1], k);
    }
  }

  /** The amount of a biorq is what its one copy moved. */
  lemma AmountIsCopied(qs: seq<Fsrq>, vs: seq<Event>, i: nat, j: nat, k: nat, n: nat)
    requires IsRun(qs, vs) && i < j <= |vs| && vs[i] == Copy(k, n)
    ensures k < |qs[j].rs| && qs[j].rs[k].amount == n
    ensures j < |vs| ==> !(vs[j].Copy? && vs[j].i == k)
  {
    assert qs[i + 1] == Apply(qs[i], vs[i]);
    DoneStays(qs, vs, i + 1, j, k);
    RunInv(qs, vs, j);
    assert BiorqOk(qs[j].rs[k]);
  }

  /** The error of a request is what was set or cleared last. */
  lemma {:induction false} ErrorIsLast(qs: seq<Fsrq>, vs: seq<Event>, i: nat, j: nat, e: bool)
    requires IsRun(qs, vs) && i < j <= |vs| && vs[i] == SetErr(e)
    requires forall m :: i < m < j ==> !vs[m].SetErr?
    ensures qs[j].err == e
    decreases j
  {
    assert qs[j] == Apply(qs[j - 1], vs[j - 1]);
    if i < j - 1 {
      ErrorIsLast(qs, vs, i, j - 1, e);
    }
  }

  /** No biorq completes the request twice, also not one that is kept alive for flushing. */
  lemma CompletesOnce(qs: seq<Fsrq>, vs: seq<Event>, i: nat, j: nat, k: nat)
    requires IsRun(qs, vs) && i < j < |vs| && vs[i].Complete? && vs[i].i == k
    ensures !(vs[j].Complete? && vs[j].i == k)
  {
    assert qs[i + 1] == Apply(qs[i], vs[i]);
    DoneStays(qs, vs, i + 1, j, k);
    RunInv(qs, vs, j);
    assert BiorqOk(qs[j].rs[k]);
  }

  /** A biorq is destroyed at most once, only after it completed the request, and when nobody
      holds a reference to it. */
  lemma DestroyedAfterDone(qs: seq<Fsrq>, vs: seq<Event>, i: nat, k: nat)
    requires IsRun(qs, vs) && i <= |vs| && k < |qs[i].rs|
    ensures var b := qs[i].rs[k];
            && b.destroyed <= 1
            && (b.destroyed == 1 ==> b.done && b.held == b.copying == b.copied == b.queueing == b.finishing == 0)
            && (b.destroyed == 0 ==> b.held + b.copying + b.copied + b.queueing + b.finishing > 0)
  {
    RunInv(qs, vs, i);
    assert BiorqOk(qs[i].rs[k]);
  }
}
