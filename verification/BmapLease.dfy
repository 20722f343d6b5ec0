/** The lease state of one bmap on the metadata server (slashd/mds.c), as a value.

    A client may hold several leases on a bmap at once.  They are kept on one circular
    chain per client, the ring; the bmap counts clients, not leases: a client with at
    least one write lease is a writer, a client with read leases only is a reader.
    Every function below is what one section of code does while it holds the bmap lock.
    Where the source drops that lock in the middle of an operation it first raises
    BMAPF_IOSASSIGNED, the barrier, and the operation is split into two functions. */
module BmapLease {
  import opened Common

  /** Identifies a lease object. */
  type LeaseId = nat

  datatype Client = Client(nid: nat, pid: nat)

  /** A lease, bmap_mds_lease.  `write` is BML_WRITE, its negation BML_READ; `linked`
      is BML_BMI; the other flags carry the names of their BML_ bits. */
  datatype Rec = Rec(client: Client, write: bool, dio: bool, diocb: bool, refcnt: int,
                     freeing: bool, assfail: bool, linked: bool, seqno: nat, ios: nat)

  /** Who has raised BMAPF_IOSASSIGNED and for which lease. */
  datatype Barrier = Open | Granting(lease: LeaseId) | Upgrading(lease: LeaseId)
                   | Reassigning(lease: LeaseId) | Draining

  /** A bmap_ios_assign item of the assignment table. */
  datatype Assign = Assign(ios: nat, lastcli: Client, seqno: nat, dio: bool)

  datatype Bmap = Bmap(rec: map<LeaseId, Rec>, rings: map<Client, seq<LeaseId>>,
                       readers: int, writers: int, dio: bool, diocb: bool,
                       barrier: Barrier, noion: bool, ion: Option<nat>,
                       assign: Option<Assign>, seqno: nat)

  // ----- Rings and counts -----

  /** The number of write leases on a ring, `wlease` in mds_bmap_dupls_find(). */
  ghost function CountW(r: seq<LeaseId>, rec: map<LeaseId, Rec>): (n: nat)
    ensures n <= |r|
  {
    if r == [] then 0
    else (if r[0] in rec && rec[r[0]].write then 1 else 0) + CountW(r[1..], rec)
  }

  ghost function Ring(b: Bmap, c: Client): seq<LeaseId> {
    if c in b.rings then b.rings[c] else []
  }

  ghost function Writers(b: Bmap): set<Client> {
    set c | c in b.rings && CountW(b.rings[c], b.rec) > 0
  }

  ghost function Readers(b: Bmap): set<Client> {
    set c | c in b.rings && CountW(b.rings[c], b.rec) == 0
  }

  /** A ring is a non-empty chain of distinct linked leases of its client. */
  ghost predicate RingOk(b: Bmap, c: Client)
    requires c in b.rings
  {
    && b.rings[c] != [] && Distinct(b.rings[c])
    && forall l :: l in b.rings[c] ==> l in b.rec && b.rec[l].linked && b.rec[l].client == c
  }

  ghost predicate OnRing(b: Bmap, l: LeaseId)
    requires l in b.rec
  {
    b.rec[l].client in b.rings && l in b.rings[b.rec[l].client]
  }

  ghost predicate RingsOk(b: Bmap) {
    && (forall c :: c in b.rings ==> RingOk(b, c))
    && (forall l :: l in b.rec && b.rec[l].linked ==> OnRing(b, l))
  }

  ghost predicate CountsOk(b: Bmap) {
    b.writers == |Writers(b)| && b.readers == |Readers(b)|
  }

  /** Outside DIO mode a bmap with a writer has a single client. */
  ghost predicate Coherent(b: Bmap) {
    b.dio || Writers(b) == {} || |b.rings| == 1
  }

  // ----- Entering DIO mode: mds_bmap_directio() -----

  ghost predicate MustCheck(b: Bmap, write: bool, want: bool) {
    want || b.diocb || b.writers != 0 || (write && b.readers != 0)
  }

  /** A linked lease of a client other than `c`. */
  ghost predicate Foreign(b: Bmap, c: Client, l: LeaseId) {
    l in b.rec && b.rec[l].linked && b.rec[l].client != c
  }

  ghost predicate Blocking(b: Bmap, c: Client, l: LeaseId) {
    Foreign(b, c, l) && !b.rec[l].dio
  }

  /** The request has to wait: some other client has not acknowledged DIO yet. */
  ghost predicate Waits(b: Bmap, c: Client, write: bool, want: bool) {
    !b.dio && MustCheck(b, write, want) && exists l :: l in b.rec && Blocking(b, c, l)
  }

  ghost function Directio(b: Bmap, c: Client, write: bool, want: bool): Bmap {
    if b.dio || !MustCheck(b, write, want) then b
    else if Waits(b, c, write, want) then
      b.(rec := map l | l in b.rec ::
                  if Blocking(b, c, l) then b.rec[l].(diocb := true) else b.rec[l],
         diocb := b.diocb || exists l :: l in b.rec && Blocking(b, c, l) && !b.rec[l].diocb)
    else if want || b.diocb || exists l :: l in b.rec && Foreign(b, c, l) then
      b.(dio := true, diocb := false)
    else b
  }

  // ----- Linking and unlinking a lease -----

  ghost function SetRec(b: Bmap, l: LeaseId, r: Rec): Bmap {
    b.(rec := b.rec[l := r])
  }

  function LinkRec(r: Rec, n: nat): Rec { r.(linked := true, seqno := n) }

  function UnlinkRec(r: Rec): Rec { r.(linked := false) }

  /** The lease, with number `n`, joins the end of its client's ring, or starts one. */
  ghost function Link(b: Bmap, l: LeaseId, n: nat): Bmap
    requires l in b.rec
  {
    var c := b.rec[l].client;
    b.(rec := b.rec[l := LinkRec(b.rec[l], n)], rings := b.rings[c := Ring(b, c) + [l]])
  }

  /** mds_bmap_bml_add() for a write lease, up to the point where the lock is dropped. */
  ghost function AddWrite(b: Bmap, l: LeaseId): Bmap
    requires l in b.rec
  {
    var r := Ring(b, b.rec[l].client);
    var first := CountW(r, b.rec) == 0;
    Link(b, l, b.rec[l].seqno).(writers := b.writers + (if first then 1 else 0),
                                readers := b.readers - (if first && r != [] then 1 else 0),
                                barrier := Granting(l))
  }

  /** mds_bmap_bml_add() for a read lease. */
  ghost function AddRead(b: Bmap, l: LeaseId, n: nat): Bmap
    requires l in b.rec
  {
    Link(b, l, n).(readers := b.readers + (if Ring(b, b.rec[l].client) == [] then 1 else 0))
  }

  /** mds_bmap_bml_del_locked() and the clearing of BML_BMI. */
  ghost function Unlink(b: Bmap, l: LeaseId): Bmap
    requires l in b.rec
  {
    var c := b.rec[l].client;
    var r := Ring(b, c);
    var w := CountW(r, b.rec);
    var r1 := Remove(r, l);
    b.(rec := b.rec[l := UnlinkRec(b.rec[l])],
       rings := if r1 == [] then b.rings - {c} else b.rings[c := r1],
       writers := b.writers - (if b.rec[l].write && w == 1 then 1 else 0),
       readers := b.readers + (if b.rec[l].write
                               then (if w == 1 && w < |r| then 1 else 0)
                               else (if w == 0 && |r| == 1 then -1 else 0)))
  }

  function WriteRec(r: Rec): Rec { r.(write := true) }

  /** The end of mds_bmap_bml_chwrmode(): the read lease becomes a write lease. */
  ghost function Convert(b: Bmap, l: LeaseId): Bmap
    requires l in b.rec
  {
    var d := if CountW(Ring(b, b.rec[l].client), b.rec) == 0 then 1 else 0;
    SetRec(b, l, WriteRec(b.rec[l])).(writers := b.writers + d, readers := b.readers - d)
  }

  // ----- Binding the bmap to an I/O server -----

  /** How the section without the lock ended.  `Offline`: no server could be selected.
      `NoSlot`: the assignment table is full.  `ReplFail`: the replica table could not be
      updated.  `Mismatch`: the stored assignment names another file. */
  datatype Outcome = Bound(ios: nat, seqno: nat) | Offline | NoSlot(ios: nat)
                   | ReplFail(ios: nat, seqno: nat) | Mismatch

  predicate Succeeds(o: Outcome) { o.Bound? }

  /** mds_bmap_ios_assign(): the outcomes it can have and what it leaves behind. */
  ghost function IosAssign(b: Bmap, l: LeaseId, o: Outcome): Bmap
    requires l in b.rec && !o.Mismatch?
  {
    var r := b.rec[l];
    match o
    case Offline => SetRec(b, l, r.(assfail := true)).(noion := true)
    case NoSlot(ios) => SetRec(b, l, r.(assfail := true)).(noion := true, ion := Some(ios))
    case Bound(ios, n) =>
      SetRec(b, l, r.(ios := ios, seqno := n))
      .(noion := false, ion := Some(ios), seqno := n, assign := Some(Assign(ios, r.client, n, b.dio)))
    case ReplFail(ios, n) =>
      SetRec(b, l, r.(ios := ios))
      .(noion := false, ion := Some(ios), seqno := n, assign := Some(Assign(ios, r.client, n, b.dio)))
  }

  /** mds_bmap_ios_update(): the server stays, the stored item is refreshed. */
  ghost function IosUpdate(b: Bmap, l: LeaseId, o: Outcome): Bmap
    requires l in b.rec && (o.Bound? || o.ReplFail? || o.Mismatch?)
  {
    if o.Mismatch? || b.assign.None? then b else
      var r := b.rec[l];
      SetRec(b, l, r.(ios := b.assign.value.ios, seqno := o.seqno))
      .(seqno := o.seqno, assign := Some(Assign(b.assign.value.ios, r.client, o.seqno, b.dio)))
  }

  /** Assign when there is no server yet, update otherwise (lines 798-801, 972-989). */
  ghost predicate CanBind(b: Bmap, l: LeaseId, o: Outcome) {
    && l in b.rec
    && (if b.ion.None? then !o.Mismatch? else o.Bound? || o.ReplFail? || o.Mismatch?)
  }

  ghost function Bind(b: Bmap, l: LeaseId, o: Outcome): Bmap
    requires CanBind(b, l, o)
  {
    if b.ion.None? then IosAssign(b, l, o) else IosUpdate(b, l, o)
  }

  // ----- Releasing a reference: mds_bmap_bml_release() -----

  /** The reference dropped is the last one of a lease marked for freeing. */
  ghost predicate LastRef(b: Bmap, l: LeaseId)
    requires l in b.rec
  {
    b.rec[l].refcnt <= 1 && b.rec[l].freeing
  }

  /** DIO mode ends when nobody writes or a single writer is alone. */
  ghost function ClearDio(b: Bmap): Bmap {
    if (b.dio || b.diocb) && (b.writers == 0 || (b.writers == 1 && b.readers == 0))
    then b.(dio := false, diocb := false) else b
  }

  ghost function Unbind(b: Bmap, l: LeaseId): Bmap
    requires l in b.rec
  {
    if b.rec[l].write && b.writers == 0 && !b.noion && !b.rec[l].assfail
    then b.(assign := None, ion := None) else b
  }

  ghost function Free(b: Bmap, l: LeaseId): Bmap {
    b.(rec := b.rec - {l})
  }

  function LoseRef(r: Rec): Rec {
    r.(refcnt := r.refcnt - 1)
  }

  ghost function Release(b: Bmap, l: LeaseId): Bmap
    requires l in b.rec
  {
    if !LastRef(b, l) then SetRec(b, l, LoseRef(b.rec[l]))
    else if !b.rec[l].linked then Free(b, l)
    else Free(Unbind(ClearDio(Unlink(b, l)), l), l)
  }

  /** The assertions that a release evaluates, on the count and on the binding (lines
      1136 and 1186-1212). */
  ghost predicate ReleaseAsserts(b: Bmap, l: LeaseId)
    requires l in b.rec
  {
    && (LastRef(b, l) || b.rec[l].refcnt > 0)
    && (LastRef(b, l) && b.rec[l].linked && b.rec[l].write && Unlink(b, l).writers == 0 ==>
          if b.noion then b.assign.None? && b.ion.None?
          else b.rec[l].assfail || (b.assign.Some? && b.ion.Some? && b.assign.value.seqno == b.seqno))
  }
}
