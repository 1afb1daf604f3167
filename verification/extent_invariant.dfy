/** What every step of the protocol keeps, whatever the tasks, their order and the transfers that fail. */
module ExtentInvariant {
  import opened Bytes
  import opened ExtentHeaders
  import opened Devices
  import opened ExtentGeometry
  import opened BitmapImages
  import opened ExtentProtocol
  import opened ExtentViews

  /** Extent `i` is in use and its header names `id`. */
  predicate Owns(bits: seq<bool>, v: View, i: nat, id: U64) {
    i < |bits| && i < |v.owner| && bits[i] && v.owner[i] == id
  }

  /**
   The marked extents and the map describe each other: the header of each marked extent is good and
   names an id that the map sends there, and each id of the map owns a marked extent.
   */
  ghost predicate Owned(g: Geometry, bits: seq<bool>, v: View, offsets: map<U64, U64>) {
    && |bits| <= |v.good| && |bits| <= |v.owner|
    && (forall i | 0 <= i < |bits| && bits[i] ::
          v.good[i] && v.owner[i] in offsets && offsets[v.owner[i]] == ExtentOffset(g, i))
    && (forall id | id in offsets :: exists i :: Owns(bits, v, i, id))
  }

  ghost predicate MarkedGood(v: View) {
    |v.bits| == |v.good| && forall i | 0 <= i < |v.bits| && v.bits[i] :: v.good[i]
  }

  function Marked(bits: seq<bool>): set<nat> {
    set i: nat | i < |bits| && bits[i]
  }

  /** The counter, in the forms of the source: never touched, or kept up with by guarded deletes. */
  ghost predicate Counted(cfg: Config, m: Memory) {
    && (cfg.fixes.countUsed && cfg.fixes.stopOnMissing ==> m.used == |Marked(m.bitmap)|)
    && (!cfg.fixes.countUsed ==> m.used == 0)
  }

  predicate LandedAt(flight: Phase, i: nat) {
    flight.BitmapWrite? && flight.landed && flight.index == i
  }

  /** Memory and device disagree only where a bitmap write failed or is still under way. */
  ghost predicate Agree(m: Memory, v: View, suspect: set<nat>, flight: Phase) {
    && |m.bitmap| == |v.bits|
    && (forall i | 0 <= i < |v.bits| && v.bits[i] != m.bitmap[i] :: i in suspect || LandedAt(flight, i))
    && (forall i, j | 0 <= i < j < |v.bits| && v.bits[i] != m.bitmap[i] && v.bits[j] != m.bitmap[j] ::
          BitmapIndex(i) != BitmapIndex(j))
  }

  /** What holds while a delete is under way. */
  ghost predicate Deleting(cfg: Config, m: Memory, task: Task) {
    && !task.adds && Matched(cfg, m, task)
    && (cfg.fixes.stopOnMissing ==> task.Id() in m.offsets)
  }

  /** What holds while an add of the task's extent to slot `i` is under way. */
  ghost predicate Adding(m: Memory, task: Task, i: nat) {
    && task.adds && i < |m.bitmap| && !m.bitmap[i] && task.Id() !in m.offsets && task.Index() == i
  }

  ghost predicate Prepared(cfg: Config, m: Memory, v: View, task: Task, i: nat) {
    && i < |m.bitmap| && |m.bitmap| == |v.good| == |v.owner|
    && if task.adds then Adding(m, task, i) && v.good[i] && v.owner[i] == task.Id()
       else
         && Deleting(cfg, m, task) && task.Index() == i
         && (TrustsIndex(cfg.fixes) ==> (m.bitmap[i] <==> task.Id() in m.offsets))
         && (m.bitmap[i] ==> cfg.fixes.header.Repaired? && v.owner[i] == task.Id())
  }

  /** What is known of a task that holds the lock. */
  ghost predicate FlightOk(cfg: Config, m: Memory, v: View, task: Task) {
    |m.bitmap| == |v.bits| == |v.good| == |v.owner| &&
    match task.phase
    case Reading => Deleting(cfg, m, task)
    case HeaderWrite(i, bytes, landed) =>
      && Adding(m, task, i)
      && task.header.Valid() && bytes == HeaderEncode(task.header)
      && (landed ==> v.good[i] && v.owner[i] == task.Id())
    case BitmapWrite(i, bytes, landed) =>
      && Prepared(cfg, m, v, task, i)
      && bytes == CloneImage(m.bitmap, i, task.adds)
      && (landed ==> SameBlock(v.bits, m.bitmap[i := task.adds], BitmapIndex(i)))
    case _ => true
  }

  /** At most one task is suspended inside the lock, and it is the one that holds it. */
  ghost predicate Locking(s: State) {
    && (s.lock.Held? ==> s.lock.task < |s.tasks| && s.tasks[s.lock.task].phase.InFlight())
    && (forall t | 0 <= t < |s.tasks| && s.tasks[t].phase.InFlight() :: s.lock == Held(t))
  }

  /** The headers of the tasks are well formed. */
  ghost predicate Called(tasks: seq<Task>) {
    forall t | 0 <= t < |tasks| :: tasks[t].header.Valid()
  }

  datatype Holder = Nobody | Suspended(task: Task)

  function HolderOf(s: State): Holder {
    if s.lock.Held? && s.lock.task < |s.tasks| then Suspended(s.tasks[s.lock.task]) else Nobody
  }

  function PhaseOf(h: Holder): Phase {
    if h.Suspended? then h.task.phase else Waiting
  }

  /** Either a delete removes the id from the map, or no delete gets past the header it reads. */
  predicate Sound(fixes: Fixes) {
    fixes.eraseOnDelete || fixes.header.AsWritten?
  }

  /** The part of the invariant that does not look at the tasks that wait. */
  ghost predicate Core(cfg: Config, m: Memory, v: View, suspect: set<nat>, h: Holder) {
    && |m.bitmap| == |v.bits| == |v.good| == |v.owner| == cfg.geo.count
    && Owned(cfg.geo, m.bitmap, v, m.offsets)
    && MarkedGood(v)
    && Agree(m, v, suspect, PhaseOf(h))
    && Counted(cfg, m)
    && (h.Suspended? ==> FlightOk(cfg, m, v, h.task))
  }

  ghost predicate InvOn(cfg: Config, s: State, v: View) {
    && Locking(s) && Called(s.tasks)
    && Core(cfg, s.mem, v, s.suspect, HolderOf(s))
  }

  ghost predicate Inv(cfg: Config, s: State) {
    Readable(cfg.geo, s.disk) && InvOn(cfg, s, ViewOf(cfg.geo, s.disk))
  }

  // ---- first state ----

  lemma InitialInv(cfg: Config, disk: Disk)
    requires ValidConfig(cfg) && BlankDevice(cfg, disk)
    ensures Inv(cfg, Initial(cfg, disk))
  {
    BlankView(cfg, disk);
    hide Readable, BlankDevice, ViewOf, Roomy;
    assert Marked(FreshMemory(cfg.geo.count).bitmap) == {};
    var v := ViewOf(cfg.geo, disk);
    ViewSize(cfg.geo, disk);
    assert !exists i :: 0 <= i < |v.bits| && v.bits[i];
  }

  lemma ViewSize(g: Geometry, disk: Disk)
    ensures var v := ViewOf(g, disk); |v.bits| == |v.good| == |v.owner| == g.count
  {
  }

  // ---- facts about the map ----

  lemma OwnerIn(g: Geometry, bits: seq<bool>, v: View, offsets: map<U64, U64>, i: nat)
    requires Owned(g, bits, v, offsets) && i < |bits| && bits[i]
    ensures i < |v.good| && i < |v.owner| && v.good[i]
    ensures v.owner[i] in offsets && offsets[v.owner[i]] == ExtentOffset(g, i)
  {
    hide ExtentOffset, Owns;
  }

  lemma SlotOf(cfg: Config, bits: seq<bool>, v: View, offsets: map<U64, U64>, id: U64) returns (i: nat)
    requires Owned(cfg.geo, bits, v, offsets) && id in offsets
    ensures i < |bits| && bits[i] && v.owner[i] == id && offsets[id] == ExtentOffset(cfg.geo, i)
  {
    hide ExtentOffset;
    i :| Owns(bits, v, i, id);
  }

  lemma OwnedSize(g: Geometry, bits: seq<bool>, v: View, offsets: map<U64, U64>)
    requires Owned(g, bits, v, offsets)
    ensures |bits| <= |v.good| && |bits| <= |v.owner|
  {
    hide ExtentOffset, Owns;
  }

  lemma OwnedWhole(g: Geometry, bits: seq<bool>, v: View, offsets: map<U64, U64>)
    requires |bits| <= |v.good| && |bits| <= |v.owner|
    requires forall i | 0 <= i < |bits| && bits[i] ::
      v.good[i] && v.owner[i] in offsets && offsets[v.owner[i]] == ExtentOffset(g, i)
    requires forall id | id in offsets :: exists i :: Owns(bits, v, i, id)
    ensures Owned(g, bits, v, offsets)
  {
    hide ExtentOffset, Owns;
  }

  /** A slot whose offset the map records for `id` is `id`'s. */
  lemma OwnedAt(cfg: Config, bits: seq<bool>, v: View, offsets: map<U64, U64>, i: nat, id: U64)
    requires Roomy(cfg.geo) && |bits| == |v.good| == |v.owner| == cfg.geo.count
    requires Owned(cfg.geo, bits, v, offsets) && i < |bits|
    requires id in offsets && offsets[id] == ExtentOffset(cfg.geo, i)
    ensures bits[i] && v.owner[i] == id
  {
    AddressesApart(cfg.geo);
    hide ExtentOffset, Roomy;
    var j :| Owns(bits, v, j, id);
    assert offsets[id] == ExtentOffset(cfg.geo, j);
  }

  lemma OwnedAfterAdd(g: Geometry, bits: seq<bool>, v: View, offsets: map<U64, U64>, i: nat, id: U64)
    requires |bits| == |v.good| == |v.owner|
    requires Owned(g, bits, v, offsets) && i < |bits| && !bits[i] && id !in offsets
    requires v.good[i] && v.owner[i] == id
    ensures Owned(g, bits[i := true], v, offsets[id := ExtentOffset(g, i)])
  {
    hide ExtentOffset;
    var bits', offsets' := bits[i := true], offsets[id := ExtentOffset(g, i)];
    forall d | d in offsets' ensures exists k :: Owns(bits', v, k, d) {
      if d == id {
        assert Owns(bits', v, i, d);
      } else {
        var k :| Owns(bits, v, k, d);
        assert Owns(bits', v, k, d);
      }
    }
  }

  lemma OwnedAfterDelete(cfg: Config, bits: seq<bool>, v: View, offsets: map<U64, U64>, i: nat, id: U64)
    requires Roomy(cfg.geo) && |bits| == |v.good| == |v.owner| == cfg.geo.count
    requires Owned(cfg.geo, bits, v, offsets) && i < |bits| && bits[i] && v.owner[i] == id
    ensures Owned(cfg.geo, bits[i := false], v, offsets - {id})
  {
    AddressesApart(cfg.geo);
    hide ExtentOffset, Roomy;
    var bits', offsets' := bits[i := false], offsets - {id};
    forall j | 0 <= j < |bits'| && bits'[j] ensures v.owner[j] != id {
      assert offsets[v.owner[j]] == ExtentOffset(cfg.geo, j);
    }
    forall d | d in offsets' ensures exists k :: Owns(bits', v, k, d) {
      var k :| Owns(bits, v, k, d);
      assert Owns(bits', v, k, d);
    }
  }

  lemma MarkedUpdate(bits: seq<bool>, i: nat, used: bool)
    requires i < |bits|
    ensures used && !bits[i] ==> |Marked(bits[i := used])| == |Marked(bits)| + 1 <= |bits|
    ensures !used && bits[i] ==> |Marked(bits[i := used])| + 1 == |Marked(bits)|
    ensures used == bits[i] ==> bits[i := used] == bits
  {
    var after := Marked(bits[i := used]);
    if used && !bits[i] {
      assert after == Marked(bits) + {i};
      MarkedBound(bits[i := used]);
    } else if !used && bits[i] {
      assert after == Marked(bits) - {i};
    }
  }

  lemma {:induction false} MarkedBound(bits: seq<bool>)
    ensures |Marked(bits)| <= |bits|
    decreases |bits|
  {
    if bits != [] {
      var n := |bits| - 1;
      MarkedBound(bits[..n]);
      assert Marked(bits) == Marked(bits[..n]) + if bits[n] then {n} else {};
    }
  }
}
