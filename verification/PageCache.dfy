/** mount_slash/pgcache.c: who owns a cached page.

    The pages of one bmap are in a tree keyed by offset.  Threads look pages up, release
    them, reap them from the LRU lists and free the whole tree, and their critical sections
    interleave.  Each event below is one section run under the lock of a page, together with
    what that section does to the tree or to a list; `Threads` counts the threads that are
    between two sections of one call. */
module PageCache {
  import opened Common

  type PageId = nat

  /** The LRU list whose flag (BMPCEF_IDLE or BMPCEF_READALC) is set. */
  datatype Lru = NotListed | IdleList | ReadaheadList

  /** A page cache entry.  `linked` is the list it is on: a lookup clears the flag first and
      unlinks the page later. */
  datatype Entry = Entry(off: nat, ref: int, lru: Lru, linked: Lru, reaped: bool, tofree: bool,
                         datardy: bool, eio: bool, discard: bool, readahead: bool)

  /** Threads using the page; threads in a lookup that took it off the LRU but did not unlink
      it yet; threads in a release that is about to put it on the LRU; reapers that still have
      to release it; threads and reapers about to remove it from the tree. */
  datatype Threads = Threads(held: nat, removing: nat, listing: nat, reaping: nat, freeing: nat, reapFreeing: nat)

  datatype Page = Page(e: Entry, t: Threads)

  datatype Cache = Cache(tree: map<PageId, Page>, freed: set<PageId>)

  datatype Event =
    | Create(p: PageId, off: nat, readahead: bool)
    | ClearEio(p: PageId)
    | LookupHit(p: PageId)
    | LookupEnd(p: PageId)
    | Mark(p: PageId, datardy: bool, eio: bool)
    | Discard(p: PageId)
    | Release(p: PageId)
    | ReleaseList(p: PageId)
    | Reap(p: PageId)
    | ReapRelease(p: PageId)
    | Remove(p: PageId)
    | FreeAll(p: PageId)

  // ----- One page -----

  predicate TakesLru(e: Entry) {
    e.ref == 1 && !e.reaped && !e.lru.NotListed?
  }

  /** The page is handed out.  Whether it failed was looked at before its lock was taken. */
  function Hit(p: Page): Page {
    if TakesLru(p.e)
    then Page(p.e.(lru := NotListed), p.t.(removing := p.t.removing + 1))
    else Page(p.e.(ref := p.e.ref + 1), p.t.(held := p.t.held + 1))
  }

  predicate KeepsData(e: Entry) {
    e.ref == 1 && e.datardy && !e.eio && !e.discard
  }

  /** The end of bmpce_release(): one reference less, and the page is condemned at zero. */
  function Drop(e: Entry): Entry {
    e.(ref := e.ref - 1, tofree := e.ref == 1)
  }

  function ReleasePage(p: Page): Page
    requires p.t.held > 0
  {
    var t := p.t.(held := p.t.held - 1);
    if KeepsData(p.e) then Page(p.e, t.(listing := t.listing + 1))
    else Page(Drop(p.e), if p.e.ref == 1 then t.(freeing := t.freeing + 1) else t)
  }

  function ListPage(p: Page): Page
    requires p.t.listing > 0
  {
    var t := p.t.(listing := p.t.listing - 1);
    if p.e.ref == 1 then
      var l := if p.e.readahead then ReadaheadList else IdleList;
      Page(p.e.(lru := l, linked := l), t)
    else Page(Drop(p.e), t)
  }

  function ReapPage(p: Page): Page {
    Page(p.e.(lru := NotListed, linked := NotListed, discard := true, reaped := true), p.t.(reaping := p.t.reaping + 1))
  }

  function ReapReleasePage(p: Page): Page
    requires p.t.reaping > 0
  {
    var t := p.t.(reaping := p.t.reaping - 1);
    if KeepsData(p.e) then Page(p.e, t.(listing := t.listing + 1))
    else Page(Drop(p.e), if p.e.ref == 1 then t.(reapFreeing := t.reapFreeing + 1) else t)
  }

  // ----- The events -----

  predicate Still(t: Threads) {
    t.held == 0 && t.removing == 0 && t.listing == 0 && t.freeing == 0
  }

  /** No thread uses a page or is in the middle of using or releasing one. */
  ghost predicate Quiet(s: Cache) {
    forall p :: p in s.tree ==> Still(s.tree[p].t)
  }

  ghost predicate Absent(s: Cache, off: nat) {
    forall p :: p in s.tree ==> s.tree[p].e.off != off
  }

  ghost predicate Enabled(s: Cache, v: Event) {
    match v
    case Create(p, off, _) => p !in s.tree && p !in s.freed && Absent(s, off)
    case ClearEio(p) => p in s.tree && s.tree[p].e.readahead
    case LookupHit(p) => p in s.tree && !s.tree[p].e.tofree
    case LookupEnd(p) => p in s.tree && s.tree[p].t.removing > 0
    case Mark(p, _, _) => p in s.tree && s.tree[p].t.held > 0
    case Discard(p) => p in s.tree
    case Release(p) => p in s.tree && s.tree[p].t.held > 0
    case ReleaseList(p) => p in s.tree && s.tree[p].t.listing > 0
    case Reap(p) =>
      && p in s.tree && !s.tree[p].e.lru.NotListed? && s.tree[p].e.lru == s.tree[p].e.linked
      && !s.tree[p].e.reaped
    case ReapRelease(p) => p in s.tree && s.tree[p].t.reaping > 0
    case Remove(p) => p in s.tree && s.tree[p].t.freeing + s.tree[p].t.reapFreeing > 0
    case FreeAll(p) => p in s.tree && Quiet(s)
  }

  ghost function Set(s: Cache, p: PageId, q: Page): Cache {
    s.(tree := s.tree[p := q])
  }

  ghost function Gone(s: Cache, p: PageId): Cache {
    Cache(s.tree - {p}, s.freed + {p})
  }

  ghost function Apply(s: Cache, v: Event): Cache
    requires Enabled(s, v)
  {
    match v
    case Create(p, off, ra) =>
      Set(s, p, Page(Entry(off, 1, NotListed, NotListed, false, false, false, false, false, ra),
                     Threads(1, 0, 0, 0, 0, 0)))
    case ClearEio(p) => Set(s, p, Page(s.tree[p].e.(eio := false), s.tree[p].t))
    case LookupHit(p) => Set(s, p, Hit(s.tree[p]))
    case LookupEnd(p) =>
      var t := s.tree[p].t;
      Set(s, p, Page(s.tree[p].e.(linked := NotListed), t.(removing := t.removing - 1, held := t.held + 1)))
    case Mark(p, d, e) => Set(s, p, Page(s.tree[p].e.(datardy := d, eio := e), s.tree[p].t))
    case Discard(p) => Set(s, p, Page(s.tree[p].e.(discard := true), s.tree[p].t))
    case Release(p) => Set(s, p, ReleasePage(s.tree[p]))
    case ReleaseList(p) => Set(s, p, ListPage(s.tree[p]))
    case Reap(p) => Set(s, p, ReapPage(s.tree[p]))
    case ReapRelease(p) => Set(s, p, ReapReleasePage(s.tree[p]))
    case Remove(p) => Gone(s, p)
    case FreeAll(p) =>
      if s.tree[p].e.reaped then Set(s, p, Page(s.tree[p].e.(discard := true), s.tree[p].t)) else Gone(s, p)
  }

  /** The assertions of the source: counts are positive before a release and zero when a page
      is freed; a page is linked to a list once and unlinked from the list it is on;
      bmpc_freeall() finds every page on a list or reaped. */
  ghost predicate Asserts(s: Cache, v: Event)
    requires Enabled(s, v)
  {
    match v
    case LookupEnd(p) => !s.tree[p].e.linked.NotListed?
    case Release(p) => s.tree[p].e.ref > 0
    case ReleaseList(p) => s.tree[p].e.ref > 0 && (s.tree[p].e.ref == 1 ==> s.tree[p].e.linked.NotListed?)
    case ReapRelease(p) => s.tree[p].e.ref > 0
    case Remove(p) => s.tree[p].e.ref == 0
    case FreeAll(p) =>
      var e := s.tree[p].e;
      e.reaped || (!e.lru.NotListed? && e.linked == e.lru && e.ref == 1)
    case _ => true
  }

  // ----- What every event keeps -----

  function Users(t: Threads): nat {
    t.held + t.removing + t.listing
  }

  /** A list or a pending reap owns one reference. */
  function Owner(p: Page): nat {
    if !p.e.lru.NotListed? then 1 else p.t.reaping
  }

  ghost predicate PageOk(p: Page) {
    && p.e.ref == Users(p.t) + Owner(p)
    && p.t.removing + p.t.reaping <= 1 && p.t.listing <= 1
    && (!p.e.lru.NotListed? ==> p.e.ref == 1 && !p.e.reaped && p.t.reaping == 0)
    && (p.e.linked.NotListed? <==> p.e.lru.NotListed? && p.t.removing == 0)
    && (!p.e.lru.NotListed? ==> p.e.linked == p.e.lru)
    && (p.t.listing > 0 ==> Owner(p) == 0 && !p.e.reaped)
    && (p.t.reaping > 0 ==> p.e.reaped) && (p.e.reaped ==> p.e.discard)
    && (p.e.tofree <==> p.e.ref == 0)
    && p.t.freeing + p.t.reapFreeing == (if p.e.tofree then 1 else 0)
    && (p.t.reapFreeing > 0 ==> p.e.reaped)
  }

  ghost predicate OnePerOffset(s: Cache) {
    forall p, q :: p in s.tree && q in s.tree && s.tree[p].e.off == s.tree[q].e.off ==> p == q
  }

  ghost predicate Inv(s: Cache) {
    && (forall p :: p in s.tree ==> PageOk(s.tree[p]) && p !in s.freed)
    && OnePerOffset(s)
  }

  lemma HitOk(p: Page)
    requires PageOk(p) && !p.e.tofree
    ensures PageOk(Hit(p)) && Users(Hit(p).t) == Users(p.t) + 1
  {
  }

  lemma ReleaseOk(p: Page)
    requires PageOk(p) && p.t.held > 0
    ensures p.e.ref > 0 && PageOk(ReleasePage(p))
  {
  }

  lemma ListOk(p: Page)
    requires PageOk(p) && p.t.listing > 0
    ensures p.e.ref > 0 && (p.e.ref == 1 ==> p.e.linked.NotListed?) && PageOk(ListPage(p))
  {
  }

  lemma ReapOk(p: Page)
    requires PageOk(p) && !p.e.lru.NotListed?
    ensures PageOk(ReapPage(p))
  {
  }

  /** A reaped page is not kept: DISCARD stays set until it is released. */
  lemma ReapReleaseOk(p: Page)
    requires PageOk(p) && p.t.reaping > 0
    ensures p.e.ref > 0 && !KeepsData(p.e) && PageOk(ReapReleasePage(p))
  {
  }

  lemma SetInv(s: Cache, p: PageId, q: Page)
    requires Inv(s) && p in s.tree && PageOk(q) && q.e.off == s.tree[p].e.off
    ensures Inv(Set(s, p, q))
  {
  }

  lemma GoneInv(s: Cache, p: PageId)
    requires Inv(s)
    ensures Inv(Gone(s, p))
  {
  }

  lemma CreateInv(s: Cache, v: Event)
    requires Inv(s) && v.Create? && Enabled(s, v)
    ensures Inv(Apply(s, v))
  {
  }

  /** Every event but Create and the removal of a page changes one page, and keeps it sound. */
  lemma StepPage(s: Cache, v: Event)
    requires !v.Create? && !v.Remove? && !v.FreeAll? && Enabled(s, v) && PageOk(s.tree[v.p])
    ensures v.p in Apply(s, v).tree && Apply(s, v) == Set(s, v.p, Apply(s, v).tree[v.p])
    ensures PageOk(Apply(s, v).tree[v.p]) && Apply(s, v).tree[v.p].e.off == s.tree[v.p].e.off
    ensures Asserts(s, v)
  {
    match v
    case LookupHit(p) => HitOk(s.tree[p]);
    case Release(p) => ReleaseOk(s.tree[p]);
    case ReleaseList(p) => ListOk(s.tree[p]);
    case Reap(p) => ReapOk(s.tree[p]);
    case ReapRelease(p) => ReapReleaseOk(s.tree[p]);
    case ClearEio(p) =>
    case LookupEnd(p) =>
    case Mark(p, _, _) =>
    case Discard(p) =>
  }

  lemma DiscardOk(p: Page)
    requires PageOk(p)
    ensures PageOk(Page(p.e.(discard := true), p.t))
  {
  }

  /** Without users a page is on a list or reaped. */
  lemma StillOk(p: Page)
    requires PageOk(p) && Still(p.t)
    ensures p.e.reaped || (!p.e.lru.NotListed? && p.e.linked == p.e.lru && p.e.ref == 1)
  {
  }

  lemma StepInv(s: Cache, v: Event)
    requires Inv(s) && Enabled(s, v)
    ensures Inv(Apply(s, v)) && Asserts(s, v)
  {
    if v.Create? {
      CreateInv(s, v);
    } else if v.Remove? {
      assert PageOk(s.tree[v.p]);
      GoneInv(s, v.p);
    } else if v.FreeAll? {
      StillOk(s.tree[v.p]);
      DiscardOk(s.tree[v.p]);
      GoneInv(s, v.p);
      SetInv(s, v.p, Page(s.tree[v.p].e.(discard := true), s.tree[v.p].t));
    } else {
      StepPage(s, v);
      SetInv(s, v.p, Apply(s, v).tree[v.p]);
    }
  }

  // ----- Runs -----

  ghost predicate IsRun(ss: seq<Cache>, vs: seq<Event>) {
    && |ss| == |vs| + 1 && ss[0] == Cache(map[], {})
    && forall i :: 0 <= i < |vs| ==> Enabled(ss[i], vs[i]) && ss[i + 1] == Apply(ss[i], vs[i])
  }

  lemma {:induction false} RunInv(ss: seq<Cache>, vs: seq<Event>, i: nat)
    requires IsRun(ss, vs) && i <= |vs|
    ensures Inv(ss[i])
  {
    if i > 0 {
      RunInv(ss, vs, i - 1);
      StepInv(ss[i - 1], vs[i - 1]);
    }
  }

  /** In every reachable state the count of a page is its users, plus one if an LRU list or a
      pending reap owns it, and no two pages of the tree have the same offset. */
  lemma CountIsHolders(ss: seq<Cache>, vs: seq<Event>, i: nat, p: PageId)
    requires IsRun(ss, vs) && i <= |vs| && p in ss[i].tree
    ensures var g := ss[i].tree[p];
            && g.e.ref == Users(g.t) + (if !g.e.lru.NotListed? || g.t.reaping > 0 then 1 else 0)
            && !(!g.e.lru.NotListed? && g.t.reaping > 0)
    ensures forall q :: q in ss[i].tree && ss[i].tree[q].e.off == ss[i].tree[p].e.off ==> q == p
  {
    RunInv(ss, vs, i);
    assert PageOk(ss[i].tree[p]);
  }

  /** No assertion of the source fires in any run. */
  lemma NoAssertFires(ss: seq<Cache>, vs: seq<Event>, i: nat)
    requires IsRun(ss, vs) && i < |vs|
    ensures Asserts(ss[i], vs[i])
  {
    RunInv(ss, vs, i);
    StepInv(ss[i], vs[i]);
  }

  /** Once no thread uses a page, every page left in the tree is on an LRU list or being
      reaped, so the branch of bmpc_freeall() called impossible is. */
  lemma ImpossibleIsUnreachable(ss: seq<Cache>, vs: seq<Event>, i: nat, p: PageId)
    requires IsRun(ss, vs) && i <= |vs| && Quiet(ss[i]) && p in ss[i].tree
    ensures var e := ss[i].tree[p].e;
            e.reaped || (!e.lru.NotListed? && e.linked == e.lru && e.ref == 1)
  {
    RunInv(ss, vs, i);
    StillOk(ss[i].tree[p]);
  }

  /** The event returns the page to the pool. */
  ghost predicate Frees(s: Cache, v: Event, p: PageId) {
    (v == Remove(p) && p in s.tree) || (v == FreeAll(p) && p in s.tree && !s.tree[p].e.reaped)
  }

  lemma {:induction false} StaysFreed(ss: seq<Cache>, vs: seq<Event>, i: nat, j: nat, p: PageId)
    requires IsRun(ss, vs) && i <= j <= |vs| && p in ss[i].freed
    ensures p in ss[j].freed && p !in ss[j].tree
    decreases j
  {
    RunInv(ss, vs, j);
    if i < j {
      StaysFreed(ss, vs, i, j - 1, p);
    }
  }

  /** A page is freed at most once, by then nobody uses it and no list holds it, and it never
      comes back. */
  lemma FreedOnce(ss: seq<Cache>, vs: seq<Event>, i: nat, j: nat, p: PageId)
    requires IsRun(ss, vs) && i < j <= |vs| && Frees(ss[i], vs[i], p)
    ensures Users(ss[i].tree[p].t) == 0 && ss[i].tree[p].t.reaping == 0
    ensures p !in ss[j].tree && (j < |vs| ==> !Frees(ss[j], vs[j], p))
  {
    RunInv(ss, vs, i);
    assert PageOk(ss[i].tree[p]);
    assert p in ss[i + 1].freed;
    StaysFreed(ss, vs, i + 1, j, p);
  }

  /** A page nobody will use again is on its way to being freed: it is on a list, being
      reaped, or about to leave the tree. */
  lemma NoPageIsLost(ss: seq<Cache>, vs: seq<Event>, i: nat, p: PageId)
    requires IsRun(ss, vs) && i <= |vs| && p in ss[i].tree && Users(ss[i].tree[p].t) == 0
    ensures Enabled(ss[i], Reap(p)) || Enabled(ss[i], ReapRelease(p)) || Enabled(ss[i], Remove(p))
  {
    RunInv(ss, vs, i);
    assert PageOk(ss[i].tree[p]);
  }

  // ----- What becomes of a page at its last release -----

  /** The last user gives the page back.  If its data are good it goes to the list of its kind
      with them, if it failed, has none or is discarded it leaves the tree. */
  lemma LastReleaseIff(s: Cache, p: PageId)
    requires Inv(s) && Enabled(s, Release(p)) && Users(s.tree[p].t) == 1
    ensures var e, s1 := s.tree[p].e, Apply(s, Release(p));
            var good := e.datardy && !e.eio && !e.discard;
            && p in s1.tree && (Enabled(s1, ReleaseList(p)) <==> good)
            && (!good && s.tree[p].t.reaping == 0 ==> Enabled(s1, Remove(p)) && Frees(s1, Remove(p), p))
            && (good ==>
                  var l := if e.readahead then ReadaheadList else IdleList;
                  var s2 := Apply(s1, ReleaseList(p));
                  p in s2.tree && s2.tree[p].e == e.(lru := l, linked := l) && Users(s2.tree[p].t) == 0)
  {
    assert PageOk(s.tree[p]);
  }

  /** Once the error of a page with data is cleared, its last release keeps it. */
  lemma ClearedIsKept(s: Cache, p: PageId)
    requires Inv(s) && Enabled(s, ClearEio(p)) && s.tree[p].t.held > 0 && Users(s.tree[p].t) == 1
    requires s.tree[p].e.datardy && !s.tree[p].e.discard
    ensures var s1 := Apply(s, ClearEio(p));
            Enabled(s1, Release(p)) && Enabled(Apply(s1, Release(p)), ReleaseList(p))
  {
    assert PageOk(s.tree[p]);
  }

  /** The page that an event returns to the pool has no user, and no reaper still has it. */
  lemma FreedUnused(s: Cache, v: Event, p: PageId)
    requires Inv(s) && Enabled(s, v) && p !in s.freed && p in Apply(s, v).freed
    ensures p in s.tree && Users(s.tree[p].t) == 0 && s.tree[p].t.reaping == 0
    ensures v.FreeAll? ==> s.tree[p].t.freeing + s.tree[p].t.reapFreeing == 0
  {
    if v.p != p {
      OtherPage(s, v, p);
    } else {
      assert PageOk(s.tree[p]);
      GoesUnused(s, v);
    }
  }

  lemma GoesUnused(s: Cache, v: Event)
    requires Enabled(s, v) && v.p in s.tree && PageOk(s.tree[v.p]) && v.p !in s.freed && v.p in Apply(s, v).freed
    ensures Users(s.tree[v.p].t) == 0 && s.tree[v.p].t.reaping == 0
    ensures v.FreeAll? ==> s.tree[v.p].t.freeing + s.tree[v.p].t.reapFreeing == 0
  {
  }

  // ----- A page that failed on a list -----

  ghost predicate OnList(s: Cache, p: PageId) {
    p in s.tree && !s.tree[p].e.lru.NotListed?
  }

  ghost predicate Failed(s: Cache, p: PageId) {
    p in s.tree && s.tree[p].e.eio
  }

  /** A page gets on a list with a failure exactly if it failed after the release looked at it:
      the lock is dropped before the list is taken. */
  lemma ListsFailedIff(s: Cache, v: Event, p: PageId)
    requires Inv(s) && Enabled(s, v) && !OnList(s, p)
    ensures OnList(Apply(s, v), p) && Failed(Apply(s, v), p) <==>
            v == ReleaseList(p) && s.tree[p].e.ref == 1 && Failed(s, p)
  {
    if v.p != p {
      OtherPage(s, v, p);
    } else if p in s.tree {
      assert PageOk(s.tree[p]);
      ListsIff(s, v);
    }
  }

  lemma NotListedYet(p: Page)
    requires PageOk(p) && p.e.lru.NotListed?
    ensures Hit(p).e.lru.NotListed?
    ensures p.t.held > 0 ==> ReleasePage(p).e.lru.NotListed?
    ensures p.t.reaping > 0 ==> ReapReleasePage(p).e.lru.NotListed?
  {
  }

  lemma ListsOne(p: Page)
    requires PageOk(p) && p.e.lru.NotListed? && p.t.listing > 0
    ensures !ListPage(p).e.lru.NotListed? <==> p.e.ref == 1
    ensures ListPage(p).e.eio == p.e.eio
  {
  }

  lemma ListsIff(s: Cache, v: Event)
    requires Enabled(s, v) && v.p in s.tree && PageOk(s.tree[v.p]) && !OnList(s, v.p)
    ensures OnList(Apply(s, v), v.p) <==> v.ReleaseList? && s.tree[v.p].e.ref == 1
    ensures OnList(Apply(s, v), v.p) ==> Apply(s, v).tree[v.p].e.eio == s.tree[v.p].e.eio
  {
    NotListedYet(s.tree[v.p]);
    if v.ReleaseList? {
      ListsOne(s.tree[v.p]);
    }
  }

  /** One page, used by `held` threads, with `listing` about to put it on the list. */
  ghost function Single(ref: int, data: bool, eio: bool, held: nat, listing: nat): Cache {
    Cache(map[1 := Page(Entry(0, ref, NotListed, NotListed, false, false, data, eio, false, false),
                        Threads(held, 0, listing, 0, 0, 0))], {})
  }

  lemma SingleSteps()
    ensures Enabled(Cache(map[], {}), Create(1, 0, false))
    ensures Apply(Cache(map[], {}), Create(1, 0, false)) == Single(1, false, false, 1, 0)
    ensures Apply(Single(1, false, false, 1, 0), Mark(1, true, false)) == Single(1, true, false, 1, 0)
    ensures Apply(Single(1, true, false, 1, 0), Release(1)) == Single(1, true, false, 0, 1)
    ensures Apply(Single(1, true, false, 0, 1), LookupHit(1)) == Single(2, true, false, 1, 1)
    ensures Apply(Single(2, true, false, 1, 1), Mark(1, true, true)) == Single(2, true, true, 1, 1)
    ensures Apply(Single(2, true, true, 1, 1), Release(1)) == Single(1, true, true, 0, 1)
  {
  }

  lemma Extend(ss: seq<Cache>, vs: seq<Event>, v: Event) returns (ss': seq<Cache>, vs': seq<Event>)
    requires IsRun(ss, vs) && Enabled(ss[|vs|], v)
    ensures IsRun(ss', vs') && ss'[|vs'|] == Apply(ss[|vs|], v) && vs' == vs + [v]
  {
    ss', vs' := ss + [Apply(ss[|vs|], v)], vs + [v];
    forall i | 0 <= i < |vs'| ensures Enabled(ss'[i], vs'[i]) && ss'[i + 1] == Apply(ss'[i], vs'[i]) {
      if i < |vs| {
        assert ss'[i] == ss[i] && ss'[i + 1] == ss[i + 1] && vs'[i] == vs[i];
      }
    }
  }

  lemma ListingRun() returns (ss: seq<Cache>, vs: seq<Event>)
    ensures IsRun(ss, vs) && vs == [Create(1, 0, false), Mark(1, true, false), Release(1)]
    ensures ss[3] == Single(1, true, false, 0, 1)
  {
    SingleSteps();
    ss, vs := [Cache(map[], {})], [];
    ss, vs := Extend(ss, vs, Create(1, 0, false));
    ss, vs := Extend(ss, vs, Mark(1, true, false));
    ss, vs := Extend(ss, vs, Release(1));
  }

  lemma FailingRun() returns (ss: seq<Cache>, vs: seq<Event>)
    ensures IsRun(ss, vs)
    ensures vs == [Create(1, 0, false), Mark(1, true, false), Release(1), LookupHit(1), Mark(1, true, true), Release(1)]
    ensures ss[6] == Single(1, true, true, 0, 1)
  {
    SingleSteps();
    ss, vs := ListingRun();
    ss, vs := Extend(ss, vs, LookupHit(1));
    ss, vs := Extend(ss, vs, Mark(1, true, true));
    ss, vs := Extend(ss, vs, Release(1));
  }

  /** A page with data is released by its last user.  Before it is on the list another thread looks
      it up for a write, which fails, and releases it. */
  lemma FailedPageIsListed() returns (ss: seq<Cache>, vs: seq<Event>)
    ensures IsRun(ss, vs)
    ensures vs == [Create(1, 0, false), Mark(1, true, false), Release(1), LookupHit(1), Mark(1, true, true),
                   Release(1), ReleaseList(1)]
    ensures OnList(ss[7], 1) && Failed(ss[7], 1)
  {
    ss, vs := FailingRun();
    ss, vs := Extend(ss, vs, ReleaseList(1));
  }

  // ----- Who has a reference -----

  /** What an event does to the users of a page.  A release that keeps the data is over only when
      the page is on its list. */
  ghost function Delta(s: Cache, v: Event, p: PageId): int {
    if v.p != p || p !in s.tree then (if v.Create? && v.p == p then 1 else 0)
    else
      var e := s.tree[p].e;
      match v
      case LookupHit(_) => 1
      case Release(_) => if e.ref == 1 && e.datardy && !e.eio && !e.discard then 0 else -1
      case ReleaseList(_) => -1
      case _ => 0
  }

  ghost function Outstanding(ss: seq<Cache>, vs: seq<Event>, n: nat, p: PageId): int
    requires n <= |vs| < |ss|
  {
    if n == 0 then 0 else Outstanding(ss, vs, n - 1, p) + Delta(ss[n - 1], vs[n - 1], p)
  }

  lemma ReleaseUsers(p: Page)
    requires PageOk(p) && p.t.held > 0
    ensures Users(ReleasePage(p).t) == Users(p.t) + if KeepsData(p.e) then 0 else -1
  {
  }

  lemma ListUsers(p: Page)
    requires PageOk(p) && p.t.listing > 0
    ensures Users(ListPage(p).t) == Users(p.t) - 1
  {
  }

  lemma ReapUsers(p: Page)
    requires PageOk(p)
    ensures Users(ReapPage(p).t) == Users(p.t)
    ensures p.t.reaping > 0 ==> Users(ReapReleasePage(p).t) == Users(p.t)
  {
  }

  /** An event on a page that stays. */
  lemma PageUsers(s: Cache, v: Event)
    requires Enabled(s, v) && v.p in s.tree && PageOk(s.tree[v.p]) && v.p in Apply(s, v).tree
    ensures Users(Apply(s, v).tree[v.p].t) == Users(s.tree[v.p].t) + Delta(s, v, v.p)
  {
    match v
    case LookupHit(p) => HitOk(s.tree[p]);
    case Release(p) => ReleaseUsers(s.tree[p]);
    case ReleaseList(p) => ListUsers(s.tree[p]);
    case Reap(p) => ReapUsers(s.tree[p]);
    case ReapRelease(p) => ReapUsers(s.tree[p]);
    case _ =>
  }

  lemma OtherPage(s: Cache, v: Event, p: PageId)
    requires Enabled(s, v) && p != v.p
    ensures p in Apply(s, v).tree <==> p in s.tree
    ensures p in s.tree ==> Apply(s, v).tree[p] == s.tree[p]
    ensures p in Apply(s, v).freed <==> p in s.freed
  {
  }

  /** How the users of a page follow from one state to the next. */
  ghost predicate Follows(s: Cache, s': Cache, p: PageId, d: int) {
    && (p in s'.tree ==> (p in s.tree || (p !in s.freed && d == 1)))
    && (p in s'.tree ==> Users(s'.tree[p].t) == (if p in s.tree then Users(s.tree[p].t) else 0) + d)
    && (p !in s'.tree && p !in s'.freed ==> p !in s.tree && p !in s.freed && d == 0)
  }

  lemma StepUsers(s: Cache, v: Event, p: PageId)
    requires Enabled(s, v) && (p in s.tree ==> PageOk(s.tree[p]))
    ensures Follows(s, Apply(s, v), p, Delta(s, v, p))
  {
    if p != v.p {
      OtherPage(s, v, p);
    } else if p in s.tree && p in Apply(s, v).tree {
      PageUsers(s, v);
    }
  }

  lemma RunFollows(ss: seq<Cache>, vs: seq<Event>, n: nat, p: PageId)
    requires IsRun(ss, vs) && n < |vs|
    ensures Follows(ss[n], ss[n + 1], p, Delta(ss[n], vs[n], p))
  {
    RunInv(ss, vs, n);
    StepUsers(ss[n], vs[n], p);
  }

  /** The users of a page are the references taken and not given back in the run, and its count is
      that, plus one if a list or a pending reap owns it. */
  lemma {:induction false} UsersAreOutstanding(ss: seq<Cache>, vs: seq<Event>, n: nat, p: PageId)
    requires IsRun(ss, vs) && n <= |vs|
    ensures p in ss[n].tree ==> Users(ss[n].tree[p].t) == Outstanding(ss, vs, n, p)
    ensures p !in ss[n].tree && p !in ss[n].freed ==> Outstanding(ss, vs, n, p) == 0
  {
    if n > 0 {
      UsersAreOutstanding(ss, vs, n - 1, p);
      RunFollows(ss, vs, n - 1, p);
    }
  }
}
