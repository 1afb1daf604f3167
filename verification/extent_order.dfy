/** The order in which adds take slots, in runs. */
module ExtentOrder {
  import opened Bytes
  import opened ErrorCodes
  import opened ExtentHeaders
  import opened ExtentGeometry
  import opened BitmapImages
  import opened NextFit
  import opened ExtentProtocol
  import opened ExtentViews
  import opened ExtentInvariant
  import opened ExtentSteps
  import opened ExtentSafety

  /** The step is the successful end of the bitmap write of an add, or else of a delete. */
  predicate Succeeds(s: State, step: Step, adds: bool) {
    step.Finish? && step.ok && step.t < |s.tasks| && s.tasks[step.t].phase.BitmapWrite? && s.tasks[step.t].adds == adds
  }

  /** The slots that the successful adds of a run take, one after the other. */
  function Taken(cfg: Config, s: State, steps: seq<Step>): seq<nat>
    requires IsRun(cfg, s, steps)
    decreases |steps|
  {
    if steps == [] then []
    else
      (if Succeeds(s, steps[0], true) then [s.tasks[steps[0].t].phase.index] else [])
      + Taken(cfg, Next(cfg, s, steps[0]), steps[1..])
  }

  /** No delete of the run succeeds. */
  predicate NothingDeleted(cfg: Config, s: State, steps: seq<Step>)
    requires IsRun(cfg, s, steps)
    decreases |steps|
  {
    steps == [] || (!Succeeds(s, steps[0], false) && NothingDeleted(cfg, Next(cfg, s, steps[0]), steps[1..]))
  }

  // ---- where the cursor stands ----

  /** The cursor stands `q` places after `from`. */
  ghost predicate Stands(cursor: nat, from: nat, q: nat, modulus: nat)
    requires modulus > 0
  {
    forall j: nat :: Around(cursor, j, modulus) == Around(from, q + j, modulus)
  }

  lemma StandsOn(cursor: nat, from: nat, q: nat, modulus: nat, k: nat, next: nat)
    requires modulus > 0 && Stands(cursor, from, q, modulus) && Stands(next, cursor, k, modulus)
    ensures Stands(next, from, q + k, modulus)
  {
    hide Around;
    forall j: nat ensures Around(next, j, modulus) == Around(from, q + k + j, modulus) {
      assert Around(next, j, modulus) == Around(cursor, k + j, modulus);
      assert q + (k + j) == q + k + j;
    }
  }

  /** A scan moves the cursor on, past the slot that it finds, or past all the slots it looked at. */
  lemma {:induction false} ScanMoves(bits: seq<bool>, cursor: nat, modulus: nat, left: nat) returns (k: nat)
    requires modulus > 0
    ensures var r := Scan(bits, cursor, modulus, left);
      && (r.Found? ==>
            k < left && r.index == Around(cursor, k, modulus) && Stands(r.cursor, cursor, k + 1, modulus))
      && (r.NotFound? ==> k == left && Stands(r.cursor, cursor, k, modulus))
    decreases left
  {
    k := 0;
    if left != 0 {
      var c := cursor % modulus;
      AroundNext(cursor, 0, modulus);
      OnePlaceOn(cursor, modulus);
      if c < |bits| && bits[c] {
        var rest := ScanMoves(bits, c + 1, modulus, left - 1);
        var r := Scan(bits, c + 1, modulus, left - 1);
        k := rest + 1;
        AroundNext(cursor, rest, modulus);
        hide Scan;
        if r.Found? {
          StandsOn(c + 1, cursor, 1, modulus, rest + 1, r.cursor);
        } else if r.NotFound? {
          StandsOn(c + 1, cursor, 1, modulus, rest, r.cursor);
        }
      }
    }
  }

  lemma OnePlaceOn(cursor: nat, modulus: nat)
    requires modulus > 0
    ensures Stands(cursor % modulus + 1, cursor, 1, modulus)
  {
    var c := cursor % modulus + 1;
    forall j: nat ensures Around(c, j, modulus) == Around(cursor, 1 + j, modulus) {
      AroundNext(cursor, j, modulus);
    }
  }

  /** The same slot twice is a whole round apart. */
  lemma SameSlot(from: nat, p: nat, q: nat, modulus: nat)
    requires modulus > 0 && p < q && Around(from, p, modulus) == Around(from, q, modulus)
    ensures p + modulus <= q
  {
    SameRemainder(from + p, from + q, modulus);
  }

  lemma SameRemainder(n: nat, n': nat, modulus: nat)
    requires modulus > 0 && n < n' && n % modulus == n' % modulus
    ensures n + modulus <= n'
  {
    var a, b, r := n / modulus, n' / modulus, n % modulus;
    Divided(n, modulus);
    Divided(n', modulus);
    assert n == a * modulus + r && n' == b * modulus + r;
    if a < b {
      Multiple(a, b, modulus);
    } else if b < a {
      Multiple(b, a, modulus);
    }
  }

  lemma Divided(n: nat, modulus: nat)
    requires modulus > 0
    ensures n == n / modulus * modulus + n % modulus
  {
  }

  // ---- runs ----

  /** The slot that an add under way has been given is at place `p`, before the cursor. */
  ghost predicate Holds(h: Holder, from: nat, p: nat, q: nat, modulus: nat)
    requires modulus > 0
  {
    forall i: nat | h.Suspended? && Chooses(h.task, i) :: p < q && i == Around(from, p, modulus)
  }

  /** The slots taken are in cyclic order from place `low` on. */
  ghost predicate InOrder(taken: seq<nat>, places: seq<nat>, from: nat, low: nat, modulus: nat)
    requires modulus > 0
  {
    && |places| == |taken|
    && (forall k | 0 <= k < |taken| :: low <= places[k] && taken[k] == Around(from, places[k], modulus))
    && (forall j, k | 0 <= j < k < |places| :: places[j] < places[k])
  }

  /** Where the slots to come can be: that of the add under way, or past the cursor. */
  function Low(h: Holder, p: nat, q: nat): nat {
    if h.Suspended? && h.task.adds && (h.task.phase.HeaderWrite? || h.task.phase.BitmapWrite?) then p else q
  }

  lemma InOrderFrom(taken: seq<nat>, places: seq<nat>, from: nat, low: nat, modulus: nat, low': nat)
    requires modulus > 0 && InOrder(taken, places, from, low, modulus) && low' <= low
    ensures InOrder(taken, places, from, low', modulus)
  {
    hide Around;
  }

  lemma OneMoreTaken(taken: seq<nat>, places: seq<nat>, from: nat, p: nat, low: nat, modulus: nat, i: nat)
    requires modulus > 0 && InOrder(taken, places, from, low, modulus) && p < low && i == Around(from, p, modulus)
    ensures InOrder([i] + taken, [p] + places, from, p, modulus)
  {
    hide Around;
  }

  // ---- the steps ----

  /**
   The admission of an add: its slot is `k` places on, and the cursor ends behind it. A search in vain moves the
   cursor as many places as there are extents; any other refusal leaves it.
   */
  lemma AdmitMoves(cfg: Config, m: Memory, id: U64) returns (k: nat)
    requires 0 < cfg.modulus && Admit(cfg, m, id).1 != Undefined
    ensures var (m', admission) := Admit(cfg, m, id);
      && (admission.Admitted? ==>
            admission.index == Around(m.cursor, k, cfg.modulus) && Stands(m'.cursor, m.cursor, k + 1, cfg.modulus))
      && (admission.Refused? ==> Stands(m'.cursor, m.cursor, k, cfg.modulus))
      && (admission == Refused(CodeError) ==> k == cfg.geo.count)
      && (admission.Refused? && admission.err != CodeError ==> m' == m)
  {
    k := 0;
    if id !in m.offsets && m.used != cfg.geo.count {
      k := ScanMoves(m.bitmap, m.cursor, cfg.modulus, cfg.geo.count);
    }
  }

  /** Where the cursor, the add under way and the slots to come are. */
  ghost predicate Places(cfg: Config, s: State, from: nat, p: nat, q: nat) {
    && 0 < cfg.modulus && Stands(s.mem.cursor, from, q, cfg.modulus)
    && Holds(HolderOf(s), from, p, q, cfg.modulus)
  }

  /** What a step does to these. */
  ghost predicate PlacesOn(cfg: Config, s: State, step: Step, s': State, from: nat, p: nat, q: nat, p': nat, q': nat) {
    && Places(cfg, s, from, p, q) && Places(cfg, s', from, p', q')
    && Low(HolderOf(s), p, q) <= Low(HolderOf(s'), p', q')
    && (Succeeds(s, step, true) ==>
          && s.tasks[step.t].phase.index == Around(from, p, cfg.modulus)
          && Low(HolderOf(s), p, q) == p < Low(HolderOf(s'), p', q'))
  }

  lemma BeginAddPlaces(cfg: Config, s: State, t: nat, from: nat, p: nat, q: nat) returns (p': nat, q': nat)
    requires Places(cfg, s, from, p, q) && Enabled(cfg, s, Begin(t)) && s.tasks[t].adds && HolderOf(s) == Nobody
    ensures PlacesOn(cfg, s, Begin(t), BeginTask(cfg, s, t), from, p, q, p', q')
  {
    hide Stands, Admit, Indexed, HeaderEncode, Around;
    var (m, admission) := Admit(cfg, s.mem, s.tasks[t].Id());
    var k := AdmitMoves(cfg, s.mem, s.tasks[t].Id());
    if admission.Admitted? {
      StandsOn(s.mem.cursor, from, q, cfg.modulus, k + 1, m.cursor);
      StandsAt(s.mem.cursor, from, q, cfg.modulus, k);
      p', q' := q + k, q + (k + 1);
    } else {
      StandsOn(s.mem.cursor, from, q, cfg.modulus, k, m.cursor);
      p', q' := p, q + k;
    }
  }

  lemma StandsAt(cursor: nat, from: nat, q: nat, modulus: nat, k: nat)
    requires modulus > 0 && Stands(cursor, from, q, modulus)
    ensures Around(cursor, k, modulus) == Around(from, q + k, modulus)
  {
    hide Around;
  }

  lemma BeginDeletePlaces(cfg: Config, s: State, t: nat, from: nat, p: nat, q: nat)
    requires Places(cfg, s, from, p, q) && Enabled(cfg, s, Begin(t)) && !s.tasks[t].adds && HolderOf(s) == Nobody
    ensures PlacesOn(cfg, s, Begin(t), BeginTask(cfg, s, t), from, p, q, p, q)
  {
    hide Stands, Around;
  }

  lemma HolderIs(cfg: Config, s: State, t: nat)
    requires Inv(cfg, s) && t < |s.tasks|
    ensures s.tasks[t].phase.InFlight() ==> s.lock == Held(t) && HolderOf(s) == Suspended(s.tasks[t])
    ensures s.lock.Free? ==> HolderOf(s) == Nobody
    ensures s.lock.Held? ==> s.lock.task < |s.tasks|
  {
    hide Core, Readable, Called, ViewOf;
  }

  lemma LandPlaces(cfg: Config, s: State, t: nat, s': State, from: nat, p: nat, q: nat)
    requires Places(cfg, s, from, p, q) && OnlyLands(s, t, s') && s.lock == Held(t)
    requires s.tasks[t].phase.HeaderWrite? || s.tasks[t].phase.BitmapWrite?
    ensures PlacesOn(cfg, s, Land(t), s', from, p, q, p, q)
  {
    hide Stands, Around;
    HoldsSame(s.tasks[t], s'.tasks[t], from, p, q, cfg.modulus);
  }

  /** The add under way keeps its slot. */
  lemma HoldsSame(task: Task, task': Task, from: nat, p: nat, q: nat, modulus: nat)
    requires modulus > 0 && Holds(Suspended(task), from, p, q, modulus) && task'.adds == task.adds
    requires forall i: nat | Chooses(task', i) :: Chooses(task, i)
    ensures Holds(Suspended(task'), from, p, q, modulus)
  {
  }

  lemma FinishPlaces(cfg: Config, s: State, t: nat, ok: bool, s': State, from: nat, p: nat, q: nat)
    requires Places(cfg, s, from, p, q) && OnlyFinishes(cfg, s, t, ok, s') && s.lock == Held(t)
    requires s.tasks[t].phase.InFlight() && (s.tasks[t].phase.Reading? ==> !s.tasks[t].adds)
    ensures PlacesOn(cfg, s, Finish(t, ok), s', from, p, q, p, q)
  {
    hide Stands, Around;
    assert s'.mem.cursor == s.mem.cursor;
    var task := s.tasks[t];
    if task.adds {
      assert Chooses(task, task.phase.index);
    }
    if s'.lock.Held? {
      HoldsSame(task, s'.tasks[t], from, p, q, cfg.modulus);
    }
  }

  lemma SpawnPlaces(cfg: Config, s: State, task: Task, from: nat, p: nat, q: nat)
    requires Inv(cfg, s) && Places(cfg, s, from, p, q) && Enabled(cfg, s, Spawn(task))
    ensures PlacesOn(cfg, s, Spawn(task), Next(cfg, s, Spawn(task)), from, p, q, p, q)
  {
    hide Core, Readable, Called, ViewOf, Stands, Around;
  }

  lemma StepPlaces(cfg: Config, s: State, step: Step, from: nat, p: nat, q: nat) returns (p': nat, q': nat)
    requires Inv(cfg, s) && Places(cfg, s, from, p, q) && Enabled(cfg, s, step)
    ensures PlacesOn(cfg, s, step, Next(cfg, s, step), from, p, q, p', q')
  {
    StepTask(cfg, s, step);
    hide Inv, Places, PlacesOn, Enabled, BeginTask, LandTask, FinishTask, OnlyLands, OnlyFinishes;
    p', q' := p, q;
    match step
    case Spawn(task) => SpawnPlaces(cfg, s, task, from, p, q);
    case Begin(t) =>
      HolderIs(cfg, s, t);
      if s.tasks[t].adds {
        p', q' := BeginAddPlaces(cfg, s, t, from, p, q);
      } else {
        BeginDeletePlaces(cfg, s, t, from, p, q);
      }
    case Land(t) =>
      LandShape(cfg, s, t);
      HolderIs(cfg, s, t);
      LandPlaces(cfg, s, t, LandTask(cfg, s, t), from, p, q);
    case Finish(t, ok) =>
      HolderIs(cfg, s, t);
      FinishShape(cfg, s, t, ok);
      ReadsAreDeletes(cfg, s, t);
      FinishPlaces(cfg, s, t, ok, FinishTask(cfg, s, t, ok), from, p, q);
  }

  lemma ReadsAreDeletes(cfg: Config, s: State, t: nat)
    requires Inv(cfg, s) && t < |s.tasks| && s.tasks[t].phase.InFlight()
    ensures s.tasks[t].phase.Reading? ==> !s.tasks[t].adds
    ensures s.tasks[t].adds && s.tasks[t].phase.BitmapWrite? ==>
      s.tasks[t].phase.index < |s.mem.bitmap| && !s.mem.bitmap[s.tasks[t].phase.index]
  {
    hide Readable, Core, ViewOf, FlightOk, Locking, Called;
    HolderMoves(cfg, s, ViewOf(cfg.geo, s.disk), t);
    FlightOfAdd(cfg, s.mem, ViewOf(cfg.geo, s.disk), s.tasks[t]);
  }

  lemma FlightOfAdd(cfg: Config, m: Memory, v: View, task: Task)
    requires FlightOk(cfg, m, v, task)
    ensures task.phase.Reading? ==> !task.adds
    ensures task.adds && task.phase.BitmapWrite? ==> task.phase.index < |m.bitmap| && !m.bitmap[task.phase.index]
  {
    hide HeaderEncode, CloneImage, SameBlock, Matched;
  }

  lemma {:induction false} TakenFrom(cfg: Config, s: State, steps: seq<Step>, from: nat, p: nat, q: nat)
    returns (places: seq<nat>)
    requires ValidConfig(cfg) && Sound(cfg.fixes) && Inv(cfg, s) && Places(cfg, s, from, p, q)
    requires IsRun(cfg, s, steps) && IsCareful(cfg, s, steps)
    ensures InOrder(Taken(cfg, s, steps), places, from, Low(HolderOf(s), p, q), cfg.modulus)
    decreases |steps|
  {
    places := [];
    if steps != [] {
      hide Inv, Next, Enabled, Careful, ValidConfig, Places, InOrder, Around;
      var s' := Next(cfg, s, steps[0]);
      StepKeeps(cfg, s, steps[0]);
      var p', q' := StepPlaces(cfg, s, steps[0], from, p, q);
      var rest := TakenFrom(cfg, s', steps[1..], from, p', q');
      var low, low' := Low(HolderOf(s), p, q), Low(HolderOf(s'), p', q');
      if Succeeds(s, steps[0], true) {
        places := [p] + rest;
        OneMoreTaken(Taken(cfg, s', steps[1..]), rest, from, p, low', cfg.modulus, s.tasks[steps[0].t].phase.index);
      } else {
        places := rest;
        InOrderFrom(Taken(cfg, s', steps[1..]), rest, from, low', cfg.modulus, low);
        assert [] + Taken(cfg, s', steps[1..]) == Taken(cfg, s', steps[1..]);
      }
    }
  }

  // ---- what is taken was free ----

  lemma BitmapStep(cfg: Config, s: State, step: Step)
    requires Enabled(cfg, s, step) && !Succeeds(s, step, false)
    ensures Succeeds(s, step, true) ==> s.tasks[step.t].phase.index < |s.mem.bitmap|
    ensures Next(cfg, s, step).mem.bitmap
      == if Succeeds(s, step, true) then s.mem.bitmap[s.tasks[step.t].phase.index := true] else s.mem.bitmap
  {
    hide Admit, Indexed, HeaderEncode, BitmapWriteOf, Inspect, HeaderBlock, BitmapBlock, BitmapIndex, Elsewhere,
      ExtentOffset;
  }

  /** The slots were free, and differ. */
  ghost predicate FreeAndDistinct(bits: seq<bool>, taken: seq<nat>) {
    && (forall k | 0 <= k < |taken| :: taken[k] < |bits| && !bits[taken[k]])
    && (forall j, k | 0 <= j < k < |taken| :: taken[j] != taken[k])
  }

  lemma OneMoreFree(bits: seq<bool>, i: nat, taken: seq<nat>)
    requires i < |bits| && !bits[i] && FreeAndDistinct(bits[i := true], taken)
    ensures FreeAndDistinct(bits, [i] + taken)
  {
    forall k | 0 <= k < |taken| ensures taken[k] < |bits| && !bits[taken[k]] && taken[k] != i {
      assert !bits[i := true][taken[k]];
    }
  }

  lemma {:induction false} TakenWereFree(cfg: Config, s: State, steps: seq<Step>)
    requires ValidConfig(cfg) && Sound(cfg.fixes) && Inv(cfg, s)
    requires IsRun(cfg, s, steps) && IsCareful(cfg, s, steps) && NothingDeleted(cfg, s, steps)
    ensures FreeAndDistinct(s.mem.bitmap, Taken(cfg, s, steps))
    decreases |steps|
  {
    if steps != [] {
      hide Inv, Next, Enabled, Careful, ValidConfig, FreeAndDistinct;
      StepTask(cfg, s, steps[0]);
      var s' := Next(cfg, s, steps[0]);
      StepKeeps(cfg, s, steps[0]);
      BitmapStep(cfg, s, steps[0]);
      TakenWereFree(cfg, s', steps[1..]);
      var rest := Taken(cfg, s', steps[1..]);
      if Succeeds(s, steps[0], true) {
        ReadsAreDeletes(cfg, s, steps[0].t);
        OneMoreFree(s.mem.bitmap, s.tasks[steps[0].t].phase.index, rest);
      } else {
        assert [] + rest == rest;
      }
    } else {
      assert Taken(cfg, s, steps) == [];
    }
  }

  /**
   Whatever the tasks, and whichever adds and deletes fail among them: the successful adds of a run take
   their slots in cyclic order from where the cursor stood, and none again before the search has gone a
   whole round. If no delete succeeds they are slots that were free at the start, each taken once.
   */
  lemma AddsInOrder(cfg: Config, s: State, steps: seq<Step>) returns (places: seq<nat>)
    requires ValidConfig(cfg) && Sound(cfg.fixes) && 0 < cfg.geo.count && Inv(cfg, s) && s.lock.Free?
    requires IsRun(cfg, s, steps) && IsCareful(cfg, s, steps)
    ensures var taken := Taken(cfg, s, steps);
      && InOrder(taken, places, s.mem.cursor, 0, cfg.modulus)
      && (forall j, k | 0 <= j < k < |taken| && taken[j] == taken[k] :: places[j] + cfg.modulus <= places[k])
      && (NothingDeleted(cfg, s, steps) ==> FreeAndDistinct(s.mem.bitmap, taken))
  {
    hide Roomy, Inv, IsRun, IsCareful, Taken, NothingDeleted, FreeAndDistinct, Around;
    var start := s.mem.cursor;
    assert Stands(start, start, 0, cfg.modulus);
    assert Places(cfg, s, start, 0, 0);
    places := TakenFrom(cfg, s, steps, start, 0, 0);
    var taken := Taken(cfg, s, steps);
    forall j, k | 0 <= j < k < |taken| && taken[j] == taken[k] ensures places[j] + cfg.modulus <= places[k] {
      SameSlot(start, places[j], places[k], cfg.modulus);
    }
    if NothingDeleted(cfg, s, steps) {
      TakenWereFree(cfg, s, steps);
    }
  }
}
