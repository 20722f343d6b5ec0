/** slashd/jreplay.c: what each journal entry does to the metadata when it is replayed. */
module ReplayLog {
  import opened Common

  /** SL_DEF_REPLICAS, SL_MAX_REPLICAS */
  const DEF_REPLICAS: nat := 4
  const MAX_REPLICAS: nat := 64

  /** BREPLST_REPL_SCHED, BREPLST_REPL_QUEUED, BREPLST_GARBAGE, BREPLST_GARBAGE_SCHED */
  const REPL_SCHED: nat := 1
  const REPL_QUEUED: nat := 2
  const GARBAGE: nat := 6
  const GARBAGE_SCHED: nat := 7

  /** The replica table of a file: the first few entries are in the inode, the rest in the
      extras block. */
  datatype Ino = Ino(nrepls: nat, pol: nat, low: seq<nat>, high: seq<nat>)

  /** A sliver of a bmap: its CRC, BMAP_SLVR_DATA, BMAP_SLVR_CRC and the other state bits. */
  datatype Sliver = Sliver(crc: nat, data: bool, hasCrc: bool, rest: nat)

  datatype Bmap = Bmap(states: seq<nat>, pol: nat, slivers: map<nat, Sliver>)

  datatype Item = Item(client: nat, ios: nat, fid: nat, seqno: nat, bno: nat, start: nat, flags: nat)

  /** An element of the assignment table; a freed one keeps its contents. */
  datatype Slot = Slot(item: Option<Item>, inuse: bool)

  datatype Key = Key(fid: nat, bno: nat)

  datatype State = State(inodes: map<nat, Ino>, bmaps: map<Key, Bmap>, high: nat, low: nat, slots: map<nat, Slot>)

  datatype Wire = Wire(slot: nat, crc: nat)

  datatype Op =
    | InoRepls(fid: nat, pol: nat, nrepls: nat, repls: seq<nat>)
    | BmapRepls(key: Key, pol: nat, states: seq<nat>)
    | BmapCrc(key: Key, ios: nat, crcs: seq<Wire>)
    | BmapSeq(high: nat, low: nat)
    | PutSlot(elem: nat, item: Option<Item>, inuse: bool)

  /** A journal entry; an assignment entry combines up to three changes. */
  datatype Entry =
    | Plain(op: Op)
    | AssignRep(ino: Option<Op>, rep: Option<Op>, elem: nat, item: Option<Item>, free: bool)

  predicate OpOk(o: Op) {
    match o
    case InoRepls(_, _, n, repls) => n <= MAX_REPLICAS && |repls| == MAX_REPLICAS
    case BmapRepls(_, _, states) => |states| == MAX_REPLICAS
    case _ => true
  }

  predicate EntryOk(e: Entry) {
    match e
    case Plain(o) => OpOk(o)
    case AssignRep(i, r, _, _, _) =>
      && (i.Some? ==> i.value.InoRepls? && OpOk(i.value)) && (r.Some? ==> r.value.BmapRepls? && OpOk(r.value))
  }

  function Opt(o: Option<Op>): seq<Op> {
    if o.Some? then [o.value] else []
  }

  /** mds_replay_bmap_assign(): the changes in their order. */
  function Expand(e: Entry): seq<Op> {
    match e
    case Plain(o) => [o]
    case AssignRep(i, r, elem, item, free) => Opt(i) + Opt(r) + [PutSlot(elem, item, !free)]
  }

  // ----- The handlers -----

  predicate InFlight(x: nat) {
    x == REPL_SCHED || x == GARBAGE_SCHED
  }

  function Revert(x: nat): nat {
    if x == REPL_SCHED then REPL_QUEUED else if x == GARBAGE_SCHED then GARBAGE else x
  }

  /** The walk that reverts replicas in flight covers the replica table of the file. */
  function Walk(x: seq<nat>, n: nat): seq<nat> {
    seq(|x|, k requires 0 <= k < |x| => if k < n then Revert(x[k]) else x[k])
  }

  /** mds_replay_ino(): the extras are only written if the table reaches into them. */
  function SetIno(ino: Ino, o: Op): Ino
    requires o.InoRepls? && OpOk(o)
  {
    Ino(o.nrepls, o.pol, o.repls[..DEF_REPLICAS], if o.nrepls > DEF_REPLICAS then o.repls[DEF_REPLICAS..] else ino.high)
  }

  /** mds_repl_ios_lookup(): the server is in the replica table. */
  predicate Found(ino: Ino, ios: nat) {
    exists j :: 0 <= j < ino.nrepls && j < |ino.low + ino.high| && (ino.low + ino.high)[j] == ios
  }

  /** The CRC an entry has for a sliver: the last one counts. */
  function CrcFor(crcs: seq<Wire>, t: nat): Option<nat> {
    if crcs == [] then None
    else if crcs[|crcs| - 1].slot == t then Some(crcs[|crcs| - 1].crc)
    else CrcFor(crcs[..|crcs| - 1], t)
  }

  const NO_SLIVER := Sliver(0, false, false, 0)

  function SliverOf(b: Bmap, t: nat): Sliver {
    if t in b.slivers then b.slivers[t] else NO_SLIVER
  }

  function Stamp(v: Sliver, c: nat): Sliver {
    v.(crc := c, data := true, hasCrc := true)
  }

  function SetCrcs(b: Bmap, crcs: seq<Wire>): Bmap {
    if crcs == [] then b else
      var n := |crcs| - 1;
      var p := SetCrcs(b, crcs[..n]);
      p.(slivers := p.slivers[crcs[n].slot := Stamp(SliverOf(p, crcs[n].slot), crcs[n].crc)])
  }

  function BmapOf(s: State, k: Key): Bmap {
    if k in s.bmaps then s.bmaps[k] else Bmap(seq(MAX_REPLICAS, _ => 0), 0, map[])
  }

  const NO_SLOT := Slot(None, false)

  function SlotOf(s: State, e: nat): Slot {
    if e in s.slots then s.slots[e] else NO_SLOT
  }

  /** One change.  A change to a file that does not exist fails; so does a CRC update from a
      server that is not in the replica table. */
  function Apply(s: State, o: Op): State
    requires OpOk(o)
  {
    match o
    case InoRepls(f, _, _, _) =>
      if f in s.inodes then s.(inodes := s.inodes[f := SetIno(s.inodes[f], o)]) else s
    case BmapRepls(k, pol, x) =>
      if k.fid in s.inodes
      then s.(bmaps := s.bmaps[k := BmapOf(s, k).(pol := pol, states := Walk(x, s.inodes[k.fid].nrepls))]) else s
    case BmapCrc(k, ios, crcs) =>
      if k.fid in s.inodes && Found(s.inodes[k.fid], ios)
      then s.(bmaps := s.bmaps[k := SetCrcs(BmapOf(s, k), crcs)]) else s
    case BmapSeq(h, l) => s.(high := Max(s.high, h), low := Max(s.low, l))
    case PutSlot(e, item, inuse) =>
      s.(slots := s.slots[e := Slot(if item.Some? then item else SlotOf(s, e).item, inuse)])
  }

  predicate OpsOk(ops: seq<Op>) {
    forall i :: 0 <= i < |ops| ==> OpOk(ops[i])
  }

  /** The state after the first `n` changes. */
  function Replay(ops: seq<Op>, n: nat, s: State): State
    requires OpsOk(ops) && n <= |ops|
  {
    if n == 0 then s else Apply(Replay(ops, n - 1, s), ops[n - 1])
  }

  function Flatten(log: seq<Entry>): seq<Op> {
    if log == [] then [] else Flatten(log[..|log| - 1]) + Expand(log[|log| - 1])
  }

  /** A prefix of the journal is a prefix of the changes. */
  lemma {:induction false} FlattenPrefix(log: seq<Entry>, p: nat)
    requires p <= |log|
    ensures Flatten(log[..p]) <= Flatten(log)
  {
    if p == |log| {
      assert log[..p] == log;
    } else {
      FlattenPrefix(log[..|log| - 1], p);
      assert log[..|log| - 1][..p] == log[..p];
    }
  }

  lemma {:induction false} FlattenOk(log: seq<Entry>)
    requires forall i :: 0 <= i < |log| ==> EntryOk(log[i])
    ensures OpsOk(Flatten(log))
  {
    if log != [] {
      FlattenOk(log[..|log| - 1]);
      assert OpsOk(Expand(log[|log| - 1]));
    }
  }
}
