/** The timeout table under threads that interleave.

    In slashd/mds_bmap_timeo.c a grant takes its number, takes its lease off the list if it is
    there, links it at the tail and, for a write, has the number stored in it later; the lock of
    the table is dropped in between.  Each of these is an event here. */
module TimeoSteps {
  import opened Common
  import T = TimeoTable

  /** A linked lease: the number stored in it, and the one it was linked for. */
  datatype Entry = Entry(no: nat, due: nat)

  datatype Full = Full(max: nat, min: nat, list: seq<Entry>)

  datatype Event =
    | Take
    | Remove(k: nat)
    | Link(no: nat, due: nat)
    | Store(k: nat)

  predicate Enabled(f: Full, e: Event) {
    match e
    case Take => f.max + 1 < T.SEQ_ANY
    case Remove(k) => k < |f.list|
    case Link(no, due) => no <= due <= f.max
    case Store(k) => k < |f.list|
  }

  function Apply(f: Full, e: Event): Full
    requires Enabled(f, e)
  {
    match e
    case Take => f.(max := T.NextSeq(f.max))
    case Remove(k) =>
      var rest := T.Without(f.list, k);
      f.(list := rest, min := if k != 0 then f.min else if rest == [] then f.max else rest[0].no)
    case Link(no, due) => f.(list := f.list + [Entry(no, due)])
    case Store(k) => f.(list := f.list[k := f.list[k].(no := f.list[k].due)])
  }

  /** The table as its readers see it. */
  function View(f: Full): T.Table {
    T.Table(f.max, f.min, seq(|f.list|, i requires 0 <= i < |f.list| => f.list[i].no))
  }

  /** The leases are in the order of the numbers they are linked for, which are between the marks. */
  predicate Ok(f: Full) {
    && f.min <= f.max
    && (forall i, j :: 0 <= i < j < |f.list| ==> f.list[i].due < f.list[j].due)
    && (forall i :: 0 <= i < |f.list| ==> f.list[i].no <= f.list[i].due && f.min <= f.list[i].due <= f.max)
  }

  /** No grant that took a later number was faster. */
  predicate InTurn(f: Full, e: Event) {
    e.Link? ==> f.min <= e.due && forall i :: 0 <= i < |f.list| ==> f.list[i].due < e.due
  }

  /** A removal makes a lease the oldest whose stored number is behind the low mark. */
  predicate Exposes(f: Full, e: Event) {
    e == Remove(0) && |f.list| > 1 && f.list[1].no < f.min
  }

  // ----- One event -----

  lemma RemoveOk(f: Full, k: nat)
    requires Ok(f) && k < |f.list|
    ensures Ok(Apply(f, Remove(k)))
  {
    var rest := T.Without(f.list, k);
    assert forall i :: 0 <= i < |rest| ==> rest[i] == f.list[if i < k then i else i + 1];
  }

  lemma LinkOkIff(f: Full, no: nat, due: nat)
    requires Ok(f) && no <= due <= f.max
    ensures Ok(Apply(f, Link(no, due))) <==> InTurn(f, Link(no, due))
  {
    var l := f.list + [Entry(no, due)];
    assert l[|f.list|] == Entry(no, due) && forall i :: 0 <= i < |f.list| ==> l[i] == f.list[i];
  }

  /** Order and marks are kept iff a link is in turn. */
  lemma StepOkIff(f: Full, e: Event)
    requires Ok(f) && Enabled(f, e)
    ensures Ok(Apply(f, e)) <==> InTurn(f, e)
  {
    match e
    case Take =>
    case Remove(k) => RemoveOk(f, k);
    case Link(no, due) => LinkOkIff(f, no, due);
    case Store(k) =>
  }

  /** The low mark does not go down iff no such lease becomes the oldest. */
  lemma StepMarkIff(f: Full, e: Event)
    requires Ok(f) && Enabled(f, e)
    ensures f.min <= Apply(f, e).min <==> !Exposes(f, e)
    ensures f.max <= Apply(f, e).max
  {
  }

  // ----- Runs -----

  ghost predicate IsRun(fs: seq<Full>, es: seq<Event>) {
    && |fs| == |es| + 1
    && forall i :: 0 <= i < |es| ==> Enabled(fs[i], es[i]) && fs[i + 1] == Apply(fs[i], es[i])
  }

  ghost predicate AllOk(fs: seq<Full>) {
    forall i :: 0 <= i < |fs| ==> Ok(fs[i])
  }

  ghost predicate AllInTurn(fs: seq<Full>, es: seq<Event>, n: nat)
    requires n <= |es| && n <= |fs|
  {
    forall i :: 0 <= i < n ==> InTurn(fs[i], es[i])
  }

  lemma {:induction false} RunOk(fs: seq<Full>, es: seq<Event>, n: nat)
    requires IsRun(fs, es) && Ok(fs[0]) && n <= |es| && AllInTurn(fs, es, n)
    ensures Ok(fs[n])
  {
    if n > 0 {
      RunOk(fs, es, n - 1);
      StepOkIff(fs[n - 1], es[n - 1]);
    }
  }

  /** Whatever the interleaving, every state of a run is in order iff every link is in turn. */
  lemma InOrderIff(fs: seq<Full>, es: seq<Event>)
    requires IsRun(fs, es) && Ok(fs[0])
    ensures AllOk(fs) <==> AllInTurn(fs, es, |es|)
  {
    if AllInTurn(fs, es, |es|) {
      forall i | 0 <= i < |fs| ensures Ok(fs[i]) {
        RunOk(fs, es, i);
      }
    }
    if AllOk(fs) {
      forall i | 0 <= i < |es| ensures InTurn(fs[i], es[i]) {
        assert Ok(fs[i]) && Ok(fs[i + 1]);
        StepOkIff(fs[i], es[i]);
      }
    }
  }

  /** The low mark never goes down between two states. */
  ghost predicate Rises(fs: seq<Full>) {
    forall i, j :: 0 <= i <= j < |fs| ==> fs[i].min <= fs[j].min
  }

  ghost predicate NoneExposed(fs: seq<Full>, es: seq<Event>)
    requires |es| <= |fs|
  {
    forall i :: 0 <= i < |es| ==> !Exposes(fs[i], es[i])
  }

  lemma {:induction false} MarkUpTo(fs: seq<Full>, es: seq<Event>, i: nat, j: nat)
    requires IsRun(fs, es) && AllOk(fs) && NoneExposed(fs, es) && i <= j <= |es|
    ensures fs[i].min <= fs[j].min
    decreases j
  {
    if i < j {
      MarkUpTo(fs, es, i, j - 1);
      StepMarkIff(fs[j - 1], es[j - 1]);
    }
  }

  /** In such a run the low mark never goes down iff no removal exposes a lease whose number is
      still to be stored and behind the mark. */
  lemma MarkRisesIff(fs: seq<Full>, es: seq<Event>)
    requires IsRun(fs, es) && AllOk(fs)
    ensures Rises(fs) <==> NoneExposed(fs, es)
  {
    if NoneExposed(fs, es) {
      forall i, j | 0 <= i <= j < |fs| ensures fs[i].min <= fs[j].min {
        MarkUpTo(fs, es, i, j);
      }
    }
    if Rises(fs) {
      forall i | 0 <= i < |es| ensures !Exposes(fs[i], es[i]) {
        assert fs[i].min <= fs[i + 1].min;
        StepMarkIff(fs[i], es[i]);
      }
    }
  }

  // ----- Grants that are not interrupted -----

  function Unlinked(f: Full, was: Option<nat>): Full
    requires was.Some? ==> was.value < |f.list|
  {
    if was.Some? then Apply(f, Remove(was.value)) else f
  }

  lemma RemoveView(f: Full, k: nat)
    requires k < |f.list|
    ensures View(Apply(f, Remove(k))) == T.Pull(View(f), k)
  {
    assert View(Apply(f, Remove(k))).seqs == T.Without(View(f).seqs, k);
  }

  lemma LinkView(f: Full, no: nat, due: nat)
    requires no <= due <= f.max
    ensures View(Apply(f, Link(no, due))) == T.Append(View(f), no)
  {
    assert View(Apply(f, Link(no, due))).seqs == View(f).seqs + [no];
  }

  lemma TakeView(f: Full)
    requires Enabled(f, Take)
    ensures View(Apply(f, Take)) == View(f).(max := T.NextSeq(f.max))
  {
    assert View(Apply(f, Take)).seqs == View(f).seqs;
  }

  /** The events of a grant in a row, up to the link, are the grant that TimeoTable has as one
      step, without success; storing the number makes it a success. */
  lemma GrantIsSteps(f: Full, was: Option<nat>, no: nat)
    requires T.Roomy(View(f)) && no <= f.max + 1 && T.Enabled(View(f), T.FailedGrant(was, no))
    ensures var g := Unlinked(Apply(f, Take), was);
            var due := g.max;
            && Enabled(g, Link(no, due))
            && var h := Apply(g, Link(no, due));
               && View(h) == T.Apply(View(f), T.FailedGrant(was, no))
               && Enabled(h, Store(|g.list|))
               && View(Apply(h, Store(|g.list|))) == T.Apply(View(f), T.WriteGrant(was))
  {
    var f1 := Apply(f, Take);
    TakeView(f);
    if was.Some? {
      RemoveView(f1, was.value);
    }
    var g := Unlinked(f1, was);
    LinkView(g, no, g.max);
    var h := Apply(g, Link(no, g.max));
    assert View(Apply(h, Store(|g.list|))).seqs == View(g).seqs + [g.max];
  }

  /** The same for a read grant. */
  lemma ReadIsSteps(f: Full)
    requires T.Roomy(View(f))
    ensures var g := Apply(f, Take);
            && Enabled(g, Take)
            && var h := Apply(g, Take);
               Enabled(h, Link(g.max, g.max)) && View(Apply(h, Link(g.max, g.max))) == T.Apply(View(f), T.ReadGrant)
  {
    var g := Apply(f, Take);
    TakeView(f);
    TakeView(g);
    LinkView(Apply(g, Take), g.max, g.max);
  }

  // ----- What can go wrong -----

  lemma Extend(fs: seq<Full>, es: seq<Event>, e: Event, f: Full) returns (fs': seq<Full>, es': seq<Event>)
    requires IsRun(fs, es) && AllOk(fs) && Enabled(fs[|es|], e) && InTurn(fs[|es|], e) && f == Apply(fs[|es|], e)
    ensures IsRun(fs', es') && AllOk(fs') && es' == es + [e] && fs' == fs + [f]
  {
    StepOkIff(fs[|es|], e);
    fs', es' := fs + [f], es + [e];
    forall i | 0 <= i < |es'| ensures Enabled(fs'[i], es'[i]) && fs'[i + 1] == Apply(fs'[i], es'[i]) {
      if i < |es| {
        assert fs'[i] == fs[i] && fs'[i + 1] == fs[i + 1] && es'[i] == es[i];
      }
    }
  }

  const START := Full(1, 1, [])

  /** Two grants have taken their numbers. */
  lemma TwoTaken() returns (fs: seq<Full>, es: seq<Event>)
    ensures IsRun(fs, es) && AllOk(fs) && es == [Take, Take] && fs[2] == Full(3, 1, [])
  {
    fs, es := [START], [];
    fs, es := Extend(fs, es, Take, Full(2, 1, []));
    assert es == [Take];
    fs, es := Extend(fs, es, Take, Full(3, 1, []));
  }

  /** Two grants interleave: the one that took the later number is linked first. */
  lemma OvertakenRun() returns (fs: seq<Full>, es: seq<Event>)
    ensures IsRun(fs, es) && AllOk(fs) && es == [Take, Take, Link(3, 3)]
    ensures Enabled(fs[3], Link(2, 2)) && !Ok(Apply(fs[3], Link(2, 2)))
  {
    fs, es := TwoTaken();
    fs, es := Extend(fs, es, Link(3, 3), Full(3, 1, [Entry(3, 3)]));
    assert fs[3] == Full(3, 1, [Entry(3, 3)]) && fs[3].list[0].due == 3;
    StepOkIff(fs[3], Link(2, 2));
  }

  /** A read lease is linked. */
  lemma OneLinked() returns (fs: seq<Full>, es: seq<Event>)
    ensures IsRun(fs, es) && AllOk(fs) && es == [Take, Link(2, 2)] && fs[2] == Full(2, 1, [Entry(2, 2)])
  {
    fs, es := [START], [];
    fs, es := Extend(fs, es, Take, Full(2, 1, []));
    assert es == [Take];
    fs, es := Extend(fs, es, Link(2, 2), Full(2, 1, [Entry(2, 2)]));
  }

  /** And a write lease, whose number is still to be stored. */
  lemma TwoLinked() returns (fs: seq<Full>, es: seq<Event>)
    ensures IsRun(fs, es) && AllOk(fs) && es == [Take, Link(2, 2), Take, Link(0, 3)]
    ensures fs[4] == Full(3, 1, [Entry(2, 2), Entry(0, 3)])
  {
    fs, es := OneLinked();
    fs, es := Extend(fs, es, Take, Full(3, 1, [Entry(2, 2)]));
    assert es == [Take, Link(2, 2), Take] && fs[3] == Full(3, 1, [Entry(2, 2)]);
    fs, es := Extend(fs, es, Link(0, 3), Full(3, 1, [Entry(2, 2), Entry(0, 3)]));
  }

  /** The oldest lease goes while a write grant has linked its lease, with number 0, and not
      stored its number yet: the low mark goes back to 0. */
  lemma ExposedRun() returns (fs: seq<Full>, es: seq<Event>)
    ensures IsRun(fs, es) && AllOk(fs) && es == [Take, Link(2, 2), Take, Link(0, 3), Remove(0)]
    ensures fs[4].min == 1 && fs[5].min == 0
  {
    fs, es := TwoLinked();
    assert T.Without([Entry(2, 2), Entry(0, 3)], 0) == [Entry(0, 3)];
    fs, es := Extend(fs, es, Remove(0), Full(3, 0, [Entry(0, 3)]));
  }
}
