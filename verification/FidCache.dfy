/** share/fidc_common.c: the cache of file handles (fcmh).

    A handle is found in a hash table by its FID, counted while threads use it, kept on an idle
    list when nobody does, and freed by the reaper or, if its constructor failed, by whoever
    drops the last reference.  Each event is one section run under the lock of a handle,
    together with what it does to the table under the bucket lock and to the idle list. */
module FidCache {
  import opened Common

  type HandleId = nat

  const ROOT: nat := 1

  /** `users` counts the references threads hold.  `linked`: on the idle list; `leaving`: the
      threads that have condemned the handle and still have to take it out of the table. */
  datatype Handle = Handle(fid: nat, ref: int, idle: bool, initing: bool, tofree: bool, ctorFailed: bool,
                           linked: bool, users: nat, leaving: nat)

  datatype Cache = Cache(table: map<HandleId, Handle>, destroyed: set<HandleId>)

  datatype Result = Loaded | CtorFails | LoadFails

  datatype Event =
    | Create(h: HandleId, fid: nat)
    | Wait(h: HandleId)
    | Hit(h: HandleId)
    | Finish(h: HandleId, res: Result)
    | Start(h: HandleId)
    | Done(h: HandleId)
    | Reap(h: HandleId)
    | Destroy(h: HandleId)

  // ----- One handle -----

  /** _fcmh_op_start_type() */
  function StartOp(f: Handle): Handle {
    f.(ref := f.ref + 1, users := f.users + 1, idle := false, linked := f.linked && !f.idle)
  }

  /** _fcmh_op_done_type(): the last reference puts the handle on the idle list, or condemns
      it if its constructor failed. */
  function DoneOp(f: Handle): Handle
    requires f.users > 0
  {
    var g := f.(ref := f.ref - 1, users := f.users - 1);
    if f.ref != 1 then g
    else if f.ctorFailed then g.(tofree := true, leaving := g.leaving + 1)
    else g.(idle := true, linked := true)
  }

  /** The end of _fidc_lookup() for a new handle; a handle that could not be set up is not
      handed out. */
  function FinishInit(f: Handle, res: Result): Handle
    requires f.users > 0
  {
    var g := f.(initing := false);
    match res
    case Loaded => DoneOp(StartOp(g))
    case CtorFails => DoneOp(g.(ctorFailed := true, tofree := true))
    case LoadFails => DoneOp(g.(tofree := true))
  }

  function ReapHandle(f: Handle): Handle {
    f.(tofree := true, linked := false, leaving := f.leaving + 1)
  }

  // ----- The events -----

  /** The scan of the bucket finds nothing but handles being freed. */
  ghost predicate Vacant(s: Cache, fid: nat) {
    forall h :: h in s.table && s.table[h].fid == fid ==> s.table[h].tofree
  }

  ghost predicate Enabled(s: Cache, v: Event) {
    match v
    case Create(h, fid) => h !in s.table && h !in s.destroyed && Vacant(s, fid)
    case Wait(h) => h in s.table && !s.table[h].tofree && s.table[h].initing
    case Hit(h) => h in s.table && !s.table[h].tofree && !s.table[h].initing
    case Finish(h, _) => h in s.table && s.table[h].initing && s.table[h].users > 0
    case Start(h) => h in s.table && s.table[h].users > (if s.table[h].initing then 1 else 0)
    case Done(h) => h in s.table && s.table[h].users > (if s.table[h].initing then 1 else 0)
    case Reap(h) => h in s.table && s.table[h].linked && s.table[h].fid != ROOT
    case Destroy(h) => h in s.table && s.table[h].leaving > 0
  }

  ghost function Set(s: Cache, h: HandleId, f: Handle): Cache {
    s.(table := s.table[h := f])
  }

  ghost function Apply(s: Cache, v: Event): Cache
    requires Enabled(s, v)
  {
    match v
    case Create(h, fid) => Set(s, h, Handle(fid, 1, false, true, false, false, false, 1, 0))
    case Wait(h) => Set(s, h, StartOp(s.table[h]))
    case Hit(h) => Set(s, h, StartOp(s.table[h]))
    case Finish(h, res) => Set(s, h, FinishInit(s.table[h], res))
    case Start(h) => Set(s, h, StartOp(s.table[h]))
    case Done(h) => Set(s, h, DoneOp(s.table[h]))
    case Reap(h) => Set(s, h, ReapHandle(s.table[h]))
    case Destroy(h) => Cache(s.table - {h}, s.destroyed + {h})
  }

  /** The assertions of the source. */
  ghost predicate Asserts(s: Cache, v: Event)
    requires Enabled(s, v)
  {
    match v
    case Wait(h) => s.table[h].ref >= 0
    case Hit(h) => s.table[h].ref >= 0 && (s.table[h].idle <==> s.table[h].linked)
    case Done(h) => s.table[h].ref > 0 && (s.table[h].ref == 1 ==> !s.table[h].idle && !s.table[h].linked)
    case Reap(h) => s.table[h].ref == 0 && s.table[h].idle
    case Destroy(h) => s.table[h].ref == 0 && !s.table[h].linked
    case _ => true
  }

  // ----- What every event keeps -----

  predicate HandleOk(f: Handle) {
    && f.ref == f.users && f.leaving <= 1
    && (f.idle ==> f.ref == 0) && (f.linked ==> f.idle && f.leaving == 0)
    && (f.initing ==> f.users > 0 && !f.tofree && !f.ctorFailed)
    && (f.leaving > 0 ==> f.tofree && f.ref == 0)
    && (f.ref == 0 ==> f.linked || f.leaving == 1)
    && (f.ctorFailed ==> f.tofree && !f.idle)
  }

  /** A lookup may find the handle. */
  predicate Live(s: Cache, h: HandleId) {
    h in s.table && !s.table[h].tofree
  }

  /** At most one handle of a FID is not being freed. */
  ghost predicate OnePerFid(s: Cache) {
    forall h, k :: Live(s, h) && Live(s, k) && s.table[h].fid == s.table[k].fid ==> h == k
  }

  ghost predicate Inv(s: Cache) {
    && (forall h :: h in s.table ==> HandleOk(s.table[h]) && h !in s.destroyed)
    && OnePerFid(s)
  }

  lemma StartOk(f: Handle)
    requires HandleOk(f) && f.leaving == 0
    ensures HandleOk(StartOp(f))
  {
  }

  lemma DoneOk(f: Handle)
    requires HandleOk(f) && f.users > (if f.initing then 1 else 0)
    ensures HandleOk(DoneOp(f)) && f.ref > 0 && !f.idle && !f.linked
  {
  }

  lemma FinishOk(f: Handle, res: Result)
    requires HandleOk(f) && f.initing
    ensures HandleOk(FinishInit(f, res))
  {
  }

  lemma ReapOk(f: Handle)
    requires HandleOk(f) && f.linked
    ensures HandleOk(ReapHandle(f))
  {
  }

  /** A handle changes; it does not come back from being freed. */
  lemma SetInv(s: Cache, h: HandleId, f: Handle)
    requires Inv(s) && h in s.table && HandleOk(f) && f.fid == s.table[h].fid && (s.table[h].tofree ==> f.tofree)
    ensures Inv(Set(s, h, f))
  {
  }

  lemma CreateInv(s: Cache, h: HandleId, fid: nat)
    requires Inv(s) && Enabled(s, Create(h, fid))
    ensures Inv(Apply(s, Create(h, fid)))
  {
  }

  lemma StepInv(s: Cache, v: Event)
    requires Inv(s) && Enabled(s, v)
    ensures Inv(Apply(s, v)) && Asserts(s, v)
  {
    match v
    case Create(h, fid) => CreateInv(s, h, fid);
    case Wait(h) =>
      StartOk(s.table[h]);
      SetInv(s, h, StartOp(s.table[h]));
    case Hit(h) =>
      StartOk(s.table[h]);
      SetInv(s, h, StartOp(s.table[h]));
    case Finish(h, res) =>
      FinishOk(s.table[h], res);
      SetInv(s, h, FinishInit(s.table[h], res));
    case Start(h) =>
      StartOk(s.table[h]);
      SetInv(s, h, StartOp(s.table[h]));
    case Done(h) =>
      DoneOk(s.table[h]);
      SetInv(s, h, DoneOp(s.table[h]));
    case Reap(h) =>
      ReapOk(s.table[h]);
      SetInv(s, h, ReapHandle(s.table[h]));
    case Destroy(h) =>
      assert HandleOk(s.table[h]);
  }

  // ----- Runs -----

  ghost predicate IsRun(ss: seq<Cache>, vs: seq<Event>) {
    && |ss| == |vs| + 1 && ss[0] == Cache(map[], {})
    && forall i :: 0 <= i < |vs| ==> Enabled(ss[i], vs[i]) && ss[i + 1] == Apply(ss[i], vs[i])
  }

  lemma {:induction false} RunInv(ss: seq<Cache>, vs: seq<Event>, i: nat)
    requires IsRun(ss, vs) && i <= |vs|
    ensures Inv(ss[i])
  {
    if i > 0 {
      RunInv(ss, vs, i - 1);
      StepInv(ss[i - 1], vs[i - 1]);
    }
  }

  /** In every reachable state: one handle at most of a FID can be found; a handle is on the idle
      list exactly if nobody uses it or is about to destroy it, and is flagged so then; the count
      of a handle is its users; and the next event fires no assertion. */
  lemma CacheSound(ss: seq<Cache>, vs: seq<Event>, i: nat, h: HandleId)
    requires IsRun(ss, vs) && i <= |vs| && h in ss[i].table
    ensures Live(ss[i], h) ==> forall k :: Live(ss[i], k) && ss[i].table[k].fid == ss[i].table[h].fid ==> k == h
    ensures ss[i].table[h].linked <==> ss[i].table[h].users == 0 && ss[i].table[h].leaving == 0
    ensures ss[i].table[h].linked ==> ss[i].table[h].idle
    ensures ss[i].table[h].ref == ss[i].table[h].users
    ensures i < |vs| ==> Asserts(ss[i], vs[i])
  {
    RunInv(ss, vs, i);
    assert HandleOk(ss[i].table[h]);
    if i < |vs| {
      StepInv(ss[i], vs[i]);
    }
  }

  lemma {:induction false} StaysDestroyed(ss: seq<Cache>, vs: seq<Event>, i: nat, j: nat, h: HandleId)
    requires IsRun(ss, vs) && i <= j <= |vs| && h in ss[i].destroyed
    ensures h in ss[j].destroyed && h !in ss[j].table
    decreases j
  {
    RunInv(ss, vs, j);
    if i < j {
      StaysDestroyed(ss, vs, i, j - 1, h);
    }
  }

  /** A handle is destroyed at most once, and only when nobody has a reference. */
  lemma DestroyedOnce(ss: seq<Cache>, vs: seq<Event>, i: nat, j: nat, h: HandleId)
    requires IsRun(ss, vs) && i < j <= |vs| && vs[i] == Destroy(h)
    ensures ss[i].table[h].users == 0 && ss[i].table[h].ref == 0
    ensures h !in ss[j].table && (j < |vs| ==> vs[j] != Destroy(h))
  {
    RunInv(ss, vs, i);
    assert HandleOk(ss[i].table[h]);
    assert h in ss[i + 1].destroyed;
    StaysDestroyed(ss, vs, i + 1, j, h);
  }

  /** A handle without users is on the idle list, where the reaper finds it, or about to be
      destroyed: a failed load does not leave it behind. */
  lemma NoHandleIsLost(ss: seq<Cache>, vs: seq<Event>, i: nat, h: HandleId)
    requires IsRun(ss, vs) && i <= |vs| && h in ss[i].table && ss[i].table[h].users == 0
    ensures Enabled(ss[i], Destroy(h)) || (ss[i].table[h].fid != ROOT ==> Enabled(ss[i], Reap(h)))
  {
    RunInv(ss, vs, i);
    assert HandleOk(ss[i].table[h]);
  }

  // ----- Which handles are found -----

  /** The handle is condemned: it is reaped, or could not be set up. */
  predicate Condemns(v: Event, h: HandleId) {
    v == Reap(h) || (v.Finish? && v.h == h && !v.res.Loaded?)
  }

  ghost predicate Born(vs: seq<Event>, n: nat, h: HandleId)
    requires n <= |vs|
  {
    exists i :: 0 <= i < n && vs[i].Create? && vs[i].h == h
  }

  ghost predicate Condemned(vs: seq<Event>, n: nat, h: HandleId)
    requires n <= |vs|
  {
    exists i :: 0 <= i < n && Condemns(vs[i], h)
  }

  lemma LivesIff(s: Cache, v: Event, h: HandleId)
    requires Inv(s) && Enabled(s, v) && h in s.table
    ensures Live(Apply(s, v), h) <==> Live(s, h) && !Condemns(v, h)
    ensures h in Apply(s, v).table || h in Apply(s, v).destroyed
  {
    assert HandleOk(s.table[h]);
  }

  lemma {:induction false} History(ss: seq<Cache>, vs: seq<Event>, n: nat, h: HandleId)
    requires IsRun(ss, vs) && n <= |vs|
    ensures h in ss[n].table || h in ss[n].destroyed <==> Born(vs, n, h)
    ensures Condemned(vs, n, h) ==> Born(vs, n, h)
    ensures Live(ss[n], h) <==> Born(vs, n, h) && !Condemned(vs, n, h)
  {
    if n > 0 {
      History(ss, vs, n - 1, h);
      RunInv(ss, vs, n - 1);
      var s, v := ss[n - 1], vs[n - 1];
      assert ss[n] == Apply(s, v);
      assert Born(vs, n, h) <==> Born(vs, n - 1, h) || (v.Create? && v.h == h);
      assert Condemned(vs, n, h) <==> Condemned(vs, n - 1, h) || Condemns(v, h);
      if h in s.table {
        LivesIff(s, v, h);
      }
    }
  }

  /** A lookup can find a handle exactly from its creation until it is reaped, or at once no more
      if its constructor or its load fails. */
  lemma LiveIff(ss: seq<Cache>, vs: seq<Event>, n: nat, h: HandleId)
    requires IsRun(ss, vs) && n <= |vs|
    ensures Live(ss[n], h) <==> Born(vs, n, h) && !Condemned(vs, n, h)
  {
    History(ss, vs, n, h);
  }

  lemma SetUpStep(s: Cache, v: Event, h: HandleId)
    requires Inv(s) && Enabled(s, v) && h in Apply(s, v).table
    ensures var f := Apply(s, v).table[h];
            if h in s.table then
              && (!f.initing ==> !s.table[h].initing || (v.Finish? && v.h == h))
              && (s.table[h].ctorFailed || v == Finish(h, CtorFails) ==> f.ctorFailed)
            else f.initing && !v.Finish?
  {
  }

  /** Before it is set up a handle is marked so. */
  lemma {:induction false} SetUpOnce(ss: seq<Cache>, vs: seq<Event>, n: nat, h: HandleId)
    requires IsRun(ss, vs) && n <= |vs| && h in ss[n].table
    ensures !ss[n].table[h].initing ==> exists i :: 0 <= i < n && vs[i].Finish? && vs[i].h == h
  {
    if n > 0 {
      RunInv(ss, vs, n - 1);
      SetUpStep(ss[n - 1], vs[n - 1], h);
      if h in ss[n - 1].table {
        SetUpOnce(ss, vs, n - 1, h);
      }
    }
  }

  lemma {:induction false} StaysFailed(ss: seq<Cache>, vs: seq<Event>, i: nat, n: nat, h: HandleId)
    requires IsRun(ss, vs) && i < n <= |vs| && vs[i] == Finish(h, CtorFails) && h in ss[n].table
    ensures ss[n].table[h].ctorFailed
    decreases n
  {
    RunInv(ss, vs, n - 1);
    SetUpStep(ss[n - 1], vs[n - 1], h);
    if i < n - 1 {
      if h !in ss[n - 1].table {
        StaysUnknown(ss, vs, n - 1, h);
      } else {
        StaysFailed(ss, vs, i, n - 1, h);
      }
    }
  }

  lemma {:induction false} StaysUnknown(ss: seq<Cache>, vs: seq<Event>, n: nat, h: HandleId)
    requires IsRun(ss, vs) && n <= |vs| && h !in ss[n].table && h !in ss[n].destroyed
    ensures forall i :: 0 <= i < n ==> !(vs[i].Finish? && vs[i].h == h)
  {
    if n > 0 {
      assert ss[n] == Apply(ss[n - 1], vs[n - 1]);
      StaysUnknown(ss, vs, n - 1, h);
    }
  }

  /** A lookup is given only handles that have been set up. */
  lemma HitIsLoaded(ss: seq<Cache>, vs: seq<Event>, n: nat, h: HandleId)
    requires IsRun(ss, vs) && n < |vs| && vs[n] == Hit(h)
    ensures exists i :: 0 <= i < n && vs[i] == Finish(h, Loaded)
  {
    SetUpOnce(ss, vs, n, h);
    LiveIff(ss, vs, n, h);
    var i :| 0 <= i < n && vs[i].Finish? && vs[i].h == h;
    assert !Condemns(vs[i], h);
    assert vs[i] == Finish(h, Loaded);
  }

  /** A handle whose constructor failed is never put on the idle list. */
  lemma FailedCtorNotIdle(ss: seq<Cache>, vs: seq<Event>, i: nat, n: nat, h: HandleId)
    requires IsRun(ss, vs) && i < n <= |vs| && vs[i] == Finish(h, CtorFails) && h in ss[n].table
    ensures !ss[n].table[h].linked && !ss[n].table[h].idle
  {
    StaysFailed(ss, vs, i, n, h);
    RunInv(ss, vs, n);
    assert HandleOk(ss[n].table[h]);
  }

  // ----- Who has a reference -----

  /** What an event does to the references threads have to a handle.  The creator has one and
      swaps it for that of the lookup; it loses it if the handle could not be set up. */
  function Delta(v: Event, h: HandleId): int {
    if v.h != h then 0
    else match v
      case Create(_, _) => 1
      case Wait(_) => 1
      case Hit(_) => 1
      case Start(_) => 1
      case Done(_) => -1
      case Finish(_, res) => if res.Loaded? then 0 else -1
      case _ => 0
  }

  function Outstanding(vs: seq<Event>, n: nat, h: HandleId): int
    requires n <= |vs|
  {
    if n == 0 then 0 else Outstanding(vs, n - 1, h) + Delta(vs[n - 1], h)
  }

  lemma StepCount(s: Cache, v: Event, h: HandleId)
    requires Inv(s) && Enabled(s, v)
    ensures h in s.table && h in Apply(s, v).table ==> Apply(s, v).table[h].users == s.table[h].users + Delta(v, h)
    ensures h !in s.table && h in Apply(s, v).table ==> Apply(s, v).table[h].users == 1 == Delta(v, h)
    ensures h !in s.table && h !in Apply(s, v).table ==> Delta(v, h) == 0
  {
    if h in s.table {
      assert HandleOk(s.table[h]);
    }
  }

  /** The count of a handle is the number of references taken and not given back in the run. */
  lemma {:induction false} CountIsOutstanding(ss: seq<Cache>, vs: seq<Event>, n: nat, h: HandleId)
    requires IsRun(ss, vs) && n <= |vs|
    ensures h in ss[n].table ==> ss[n].table[h].ref == ss[n].table[h].users == Outstanding(vs, n, h)
    ensures h !in ss[n].table && h !in ss[n].destroyed ==> Outstanding(vs, n, h) == 0
  {
    RunInv(ss, vs, n);
    assert h in ss[n].table ==> HandleOk(ss[n].table[h]);
    if n > 0 {
      CountIsOutstanding(ss, vs, n - 1, h);
      RunInv(ss, vs, n - 1);
      StepCount(ss[n - 1], vs[n - 1], h);
      assert ss[n] == Apply(ss[n - 1], vs[n - 1]);
    }
  }
}
