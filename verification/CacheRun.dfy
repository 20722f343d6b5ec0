/** The cache of a file under a sequence of requests: what it does call after call is a run of
    ValidRegion, and what its reads return is the file. */
module CacheRun {
  import opened Common
  import opened FlatPages
  import opened ValidRegion
  import opened PagedIo

  /** Requests of users, and pages that the reaper takes away.  `fsz` is the size of the file when
      it is read. */
  datatype Request = Write(off: nat, buf: seq<int>) | Read(off: nat, size: nat, fsz: nat) | Evict(k: Key)

  predicate Sane(q: Request) {
    (q.Write? ==> q.buf != []) && (q.Read? ==> q.fsz < OFF_LIMIT)
  }

  predicate AllSane(qs: seq<Request>) {
    forall i :: 0 <= i < |qs| ==> Sane(qs[i])
  }

  /** EINVAL: more than two bmaps are touched. */
  predicate Invalid(q: Request) {
    match q
    case Write(off, buf) => buf != [] && Spanned(off, |buf|) > MAX_BMAPS
    case Read(off, size, fsz) => Clipped(off, size, fsz) > 0 && Spanned(off, Clipped(off, size, fsz)) > MAX_BMAPS
    case Evict(_) => false
  }

  /** What a request does to the cache; one that is refused reads nothing. */
  function Effect(q: Request): Step {
    match q
    case Write(off, buf) => if Invalid(q) then ReadStep(off, 0) else WriteStep(off, buf)
    case Read(off, size, fsz) => ReadStep(off, if Invalid(q) then 0 else Clipped(off, size, fsz))
    case Evict(k) => EvictStep(k)
  }

  function Effects(qs: seq<Request>): seq<Step> {
    seq(|qs|, i requires 0 <= i < |qs| => Effect(qs[i]))
  }

  /** The file after a request. */
  function FileAfter(file: nat -> int, q: Request): nat -> int {
    if q.Write? && !Invalid(q) then Over(file, q.off, q.buf) else file
  }

  /** The file after the first `n` requests. */
  function FileAt(file: nat -> int, qs: seq<Request>, n: nat): nat -> int
    requires n <= |qs|
  {
    if n == 0 then file else FileAfter(FileAt(file, qs, n - 1), qs[n - 1])
  }

  ghost function Now(c: FileCache, file: nat -> int): State
    reads c, c.store, c.regions
  {
    State(c.store.contents, c.regions.marks, file)
  }

  lemma NothingDone(m: Pages, ms: Marks, file: nat -> int, off: nat)
    requires Good(m) && m.Keys == ms.at.Keys
    ensures Did(State(m, ms, file), State(m, ms, file), ReadStep(off, 0))
  {
  }

  lemma GoodContents(c: FileCache)
    requires c.Valid()
    ensures Good(c.store.contents)
  {
  }

  /** One request, with a server that has the file. */
  method Serve(c: FileCache, q: Request, file: nat -> int) returns (got: Option<seq<int>>)
    requires c.Valid() && Sane(q)
    modifies c.store, c.regions, c.store.bufs
    ensures c.Valid() && fresh(c.store.bufs - old(c.store.bufs))
    ensures Did(old(Now(c, file)), Now(c, FileAfter(file, q)), Effect(q))
    ensures got.None? <==> Invalid(q)
    ensures got.Some? && q.Read? ==> |got.value| == Effect(q).len && Reads(c.store.contents, q.off, got.value)
  {
    GoodContents(c);
    got := Some([]);
    match q {
      case Write(off, buf) =>
        NothingDone(c.store.contents, c.regions.marks, file, off);
        var ok := c.Write(off, buf);
        got := if ok then Some([]) else None;
      case Read(off, size, fsz) =>
        NothingDone(c.store.contents, c.regions.marks, file, off);
        got := c.Read(off, size, fsz, file);
      case Evict(k) =>
        c.Evict(k);
    }
    GoodContents(c);
  }

  // ----- Sequences of requests -----

  /** `got` is what request `i` returned, from the cache in the state after it. */
  ghost predicate Answered(q: Request, got: Option<seq<int>>, s: State) {
    && (got.None? <==> Invalid(q))
    && (got.Some? && q.Read? ==> |got.value| == Effect(q).len && Reads(s.m, q.off, got.value))
  }

  /** The first `n` requests have been served, with these states and answers. */
  ghost predicate Handled(file: nat -> int, qs: seq<Request>, n: nat, ss: seq<State>, got: seq<Option<seq<int>>>) {
    && n <= |qs| && |ss| == n + 1 && |got| == n
    && ss[0] == State(map[], Marks(map[]), file)
    && (forall i :: 0 <= i <= n ==> ss[i].file == FileAt(file, qs, i))
    && (forall i :: 0 <= i < n ==> Did(ss[i], ss[i + 1], Effect(qs[i])) && Answered(qs[i], got[i], ss[i + 1]))
  }

  lemma HandledMore(file: nat -> int, qs: seq<Request>, n: nat, ss: seq<State>, got: seq<Option<seq<int>>>,
                   s: State, g: Option<seq<int>>)
    requires Handled(file, qs, n, ss, got) && n < |qs| && s.file == FileAt(file, qs, n + 1)
    requires Did(ss[n], s, Effect(qs[n])) && Answered(qs[n], g, s)
    ensures Handled(file, qs, n + 1, ss + [s], got + [g])
  {
    var ss', got' := ss + [s], got + [g];
    forall i | 0 <= i < n + 1
      ensures Did(ss'[i], ss'[i + 1], Effect(qs[i])) && Answered(qs[i], got'[i], ss'[i + 1])
    {
      if i < n {
        assert ss'[i] == ss[i] && ss'[i + 1] == ss[i + 1] && got'[i] == got[i];
      }
    }
  }

  lemma HandledIsRun(file: nat -> int, qs: seq<Request>, ss: seq<State>, got: seq<Option<seq<int>>>)
    requires Handled(file, qs, |qs|, ss, got)
    ensures IsRun(ss, Effects(qs))
  {
    var vs := Effects(qs);
    forall i | 0 <= i < |vs| ensures Did(ss[i], ss[i + 1], vs[i]) {
      assert vs[i] == Effect(qs[i]);
    }
  }

  /** What is read is the file of the moment. */
  ghost predicate IsFile(q: Request, got: Option<seq<int>>, file: nat -> int) {
    q.Read? && got.Some? ==> forall j :: 0 <= j < |got.value| ==> got.value[j] == file(q.off + j)
  }

  lemma AnswerIsFile(ss: seq<State>, vs: seq<Step>, i: nat, q: Request, got: Option<seq<int>>, file: nat -> int)
    requires IsRun(ss, vs) && i < |vs| && NoHoles(ss, vs, i) && vs[i] == Effect(q)
    requires Answered(q, got, ss[i + 1]) && file == ss[i].file
    ensures IsFile(q, got, file)
  {
    if q.Read? && got.Some? {
      ReadsAreFile(ss, vs, i, got.value);
    }
  }

  lemma HandledIsFile(file: nat -> int, qs: seq<Request>, ss: seq<State>, got: seq<Option<seq<int>>>, i: nat)
    requires Handled(file, qs, |qs|, ss, got) && i < |qs| && NoHoles(ss, Effects(qs), i)
    ensures IsFile(qs[i], got[i], FileAt(file, qs, i))
  {
    HandledIsRun(file, qs, ss, got);
    AnswerIsFile(ss, Effects(qs), i, qs[i], got[i], FileAt(file, qs, i));
  }

  /** From an empty cache: each request is a step of a run, refused iff it touches more than two
      bmaps, and a read before which no write left a hole gives the file with all writes before
      it, clipped at its end. */
  method Play(file: nat -> int, qs: seq<Request>) returns (got: seq<Option<seq<int>>>, ghost ss: seq<State>)
    requires AllSane(qs)
    ensures Handled(file, qs, |qs|, ss, got) && IsRun(ss, Effects(qs))
    ensures forall i: nat :: i < |qs| && NoHoles(ss, Effects(qs), i) ==> IsFile(qs[i], got[i], FileAt(file, qs, i))
  {
    var c := new FileCache();
    var now := file;
    got, ss := [], [Now(c, file)];
    for n := 0 to |qs|
      invariant c.Valid() && fresh(c.store) && fresh(c.regions) && fresh(c.store.bufs)
      invariant Handled(file, qs, n, ss, got) && now == FileAt(file, qs, n) && ss[n] == Now(c, now)
    {
      var g := Serve(c, qs[n], now);
      now := FileAfter(now, qs[n]);
      HandledMore(file, qs, n, ss, got, Now(c, now), g);
      got, ss := got + [g], ss + [Now(c, now)];
    }
    HandledIsRun(file, qs, ss, got);
    forall i: nat | i < |qs| && NoHoles(ss, Effects(qs), i) ensures IsFile(qs[i], got[i], FileAt(file, qs, i)) {
      HandledIsFile(file, qs, ss, got, i);
    }
  }

  /** What a write that is not refused and leaves no hole put there is what a read returns. */
  method WriteRead(c: FileCache, off: nat, buf: seq<int>, fsz: nat, file: nat -> int) returns (got: Option<seq<int>>)
    requires c.Valid() && buf != [] && off + |buf| <= fsz < OFF_LIMIT && Spanned(off, |buf|) <= MAX_BMAPS
    requires Sound(c.store.contents, c.regions.marks, file) && JoinsAll(c.regions.marks, off, |buf|)
    modifies c.store, c.regions, c.store.bufs
    ensures got == Some(buf)
  {
    ghost var m, ms := c.store.contents, c.regions.marks;
    var ok := c.Write(off, buf);
    ghost var m1, ms1 := c.store.contents, c.regions.marks;
    var now := Over(file, off, buf);
    WriteSound(m, m1, ms, ms1, file, off, buf);
    got := c.Read(off, |buf|, fsz, now);
    RefilledSound(m1, c.store.contents, ms1, c.regions.marks, now, off, |buf|);
    ReadsBack(c.store.contents, file, off, buf, got.value);
  }

  lemma ReadsBack(m: Pages, file: nat -> int, off: nat, buf: seq<int>, got: seq<int>)
    requires |got| == |buf| && Reads(m, off, got)
    requires forall x: nat :: In(x, off, |buf|) && Has(m, x) ==> At(m, x) == Over(file, off, buf)(x)
    ensures got == buf
  {
    forall j | 0 <= j < |buf| ensures got[j] == buf[j] {
      assert In(off + j, off, |buf|);
    }
  }
}
