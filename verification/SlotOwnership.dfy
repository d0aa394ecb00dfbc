/** Threads sharing the table of connections: the steps of `_db_add` and `_db_release`, each
    reading or writing one shared variable, interleaved in any order. `_dbv_mux` guards
    the search, the allocation and the used flag; everything else of an entry belongs to the thread that
    was given it. */
module SlotOwnership {
  import opened Oci
  import opened Wrappers

  /** An entry of `_dbv`; not allocated means NULL. `handles` are srvhp, svchp, errhp, authp and envhp,
      `statements` the used flags of stmtv, which is empty until it is allocated. */
  datatype Slot = Slot(present: bool, used: bool, handles: seq<Handle>, attached: bool, session: bool,
                       statements: seq<bool>)

  const HANDLES := 5
  const BARE := Slot(false, false, [NULL, NULL, NULL, NULL, NULL], false, false, [])

  /** Where a thread is. From AddUnlock to RelUsed it owns slot `i`. */
  datatype Pc =
    | Idle
    | AddLock                            // _db_add: waiting for the mutex
    | Scan(i: nat, firstNull: int)       // _find_free_dbv_entry
    | NoSlot
    | Alloc(i: nat)                      // _db_alloc, if the entry is NULL
    | Mark(i: nat)
    | AddUnlock(i: nat)
    | Fill(i: nat)                       // _stmtv_alloc, if stmtv is NULL
    | Given(i: nat)                      // _db_add has returned
    | Owner(i: nat)
    | RelHandle(i: nat, k: nat)          // _db_release: clearing handle k
    | RelStatement(i: nat, j: nat)       // releasing statement j
    | RelLock(i: nat)
    | RelAttached(i: nat)
    | RelSession(i: nat)
    | RelUsed(i: nat)
    | RelUnlock(i: nat)
    | Left(i: nat)                       // _db_release has returned; the handle may still be known

  datatype World = World(dbv: seq<Slot>, mutex: Option<nat>, threads: seq<Pc>, maxCursors: nat)

  /** What a thread may do besides its next step: an idle one starts `_db_add`, one that has a slot uses it in
      any way, or starts `_db_release`. Unlock is UNLOCK_ALL by a thread that need not hold the mutex. FreeAgain is
      a call on a handle whose slot the thread has released: CHECK_DBHANDLE lets it through when the slot is
      in use, by whomever, and then it is released once more. */
  datatype Action = Go | Use(slot: Slot) | Release | Unlock | FreeAgain

  /** The slot a thread owns. */
  function Owned(pc: Pc): Option<nat> {
    match pc
    case AddUnlock(i) => Some(i)
    case Fill(i) => Some(i)
    case Given(i) => Some(i)
    case Owner(i) => Some(i)
    case RelHandle(i, _) => Some(i)
    case RelStatement(i, _) => Some(i)
    case RelLock(i) => Some(i)
    case RelAttached(i) => Some(i)
    case RelSession(i) => Some(i)
    case RelUsed(i) => Some(i)
    case _ => None
  }

  /** Whether a thread is between locking and unlocking. */
  predicate Locking(pc: Pc) {
    || pc.Scan? || pc.NoSlot? || pc.Alloc? || pc.Mark? || pc.AddUnlock?
    || pc.RelAttached? || pc.RelSession? || pc.RelUsed? || pc.RelUnlock?
  }

  /** Writing a slot in any way that leaves it allocated and in use, its table of statements in place. */
  predicate Usable(was: Slot, slot: Slot) {
    slot.present && slot.used && |slot.handles| == HANDLES && |slot.statements| == |was.statements|
  }

  function Goes(s: World, t: nat, pc: Pc): World
    requires t < |s.threads|
  {
    s.(threads := s.threads[t := pc])
  }

  function Write(s: World, i: nat, slot: Slot): World
    requires i < |s.dbv|
  {
    s.(dbv := s.dbv[i := slot])
  }

  /** One move of thread `t`. A move that is not possible changes nothing; so does waiting for the mutex. */
  function Step(s: World, t: nat, m: Action): World {
    if t >= |s.threads| then s
    else if m.Unlock? then s.(mutex := None)
    else
      var pc := s.threads[t];
      if !Writes(pc) then
        var r := Wait(s.dbv, s.mutex, t, pc, m);
        Goes(s, t, r.0).(mutex := r.1)
      else if pc.i < |s.dbv| then
        var r := StepOn(s.dbv[pc.i], pc, m, s.maxCursors);
        Goes(Write(s, pc.i, r.0), t, r.1)
      else s
  }

  /** Whether the next step works on a slot: all but those below do. */
  predicate Writes(pc: Pc) {
    pc.Alloc? || pc.Mark? || (Owned(pc).Some? && !pc.AddUnlock? && !pc.RelLock?)
  }

  /** Where a thread goes that writes no slot, and what becomes of the mutex. */
  function Wait(dbv: seq<Slot>, mutex: Option<nat>, t: nat, pc: Pc, m: Action): (Pc, Option<nat>) {
    match pc
    case Idle => (if m.Go? then AddLock else Idle, mutex)
    case Left(i) =>
      (if m.Go? then AddLock
       else if m.FreeAgain? && i < |dbv| && dbv[i].present && dbv[i].used then RelHandle(i, 0) else pc, mutex)
    case AddLock => if mutex.None? then (Scan(0, -1), Some(t)) else (pc, mutex)
    case Scan(i, firstNull) => (Scanned(dbv, i, firstNull), mutex)
    case NoSlot => (Idle, None)
    case AddUnlock(i) => (Fill(i), None)
    case RelLock(i) => if mutex.None? then (RelAttached(i), Some(t)) else (pc, mutex)
    case RelUnlock(i) => (Left(i), None)
    case _ => (pc, mutex)
  }

  /** The search's next entry. */
  function Scanned(dbv: seq<Slot>, i: nat, firstNull: int): Pc {
    if i >= |dbv| then if firstNull >= 0 then Alloc(firstNull) else NoSlot
    else if dbv[i].present && !dbv[i].used then Alloc(i)
    else Scan(i + 1, if firstNull == -1 && !dbv[i].present then i else firstNull)
  }

  /** The moves on a slot: what becomes of it and where the thread goes next. */
  function StepOn(d: Slot, pc: Pc, m: Action, maxCursors: nat): (Slot, Pc) {
    match pc
    case Alloc(i) => (if d.present then d else BARE.(present := true), Mark(i))
    case Mark(i) => (d.(used := true), AddUnlock(i))
    case Fill(i) => (if d.statements == [] then d.(statements := Zeroed(maxCursors)) else d, Given(i))
    case Given(i) => Hold(d, i, m, pc)
    case Owner(i) => Hold(d, i, m, pc)
    case RelHandle(i, k) =>
      if k < |d.handles| then (d.(handles := d.handles[k := NULL]), RelHandle(i, k + 1)) else (d, RelStatement(i, 0))
    case RelStatement(i, j) =>
      if j < |d.statements| then (d.(statements := d.statements[j := false]), RelStatement(i, j + 1))
      else (d, RelLock(i))
    case RelAttached(i) => (d.(attached := false), RelSession(i))
    case RelSession(i) => (d.(session := false), RelUsed(i))
    case RelUsed(i) => (d.(used := false), RelUnlock(i))
    case _ => (d, pc)
  }

  /** A thread that holds a slot uses it, gives it up, or does neither. */
  function Hold(d: Slot, i: nat, m: Action, pc: Pc): (Slot, Pc) {
    match m
    case Use(slot) => (if Usable(d, slot) then slot else d, Owner(i))
    case Release => (d, RelHandle(i, 0))
    case _ => (d, pc)
  }

  function Zeroed(n: nat): (z: seq<bool>)
    ensures forall j :: 0 <= j < |z| ==> !z[j]
  {
    seq(n, _ => false)
  }

  function Run(s: World, run: seq<(nat, Action)>): World
    decreases |run|
  {
    if run == [] then s
    else
      var last := run[|run| - 1];
      Step(Run(s, run[..|run| - 1]), last.0, last.1)
  }

  /** `_dbv` as `sqlo_init` makes it, no thread inside the library. */
  ghost predicate Initial(s: World) {
    s.mutex.None? && (forall i :: 0 <= i < |s.dbv| ==> s.dbv[i] == BARE)
      && (forall t :: 0 <= t < |s.threads| ==> s.threads[t].Idle?)
  }

  // ------------------------------------------------------------- what always holds

  ghost predicate NoHandles(d: Slot, n: nat) {
    forall k :: 0 <= k < n && k < |d.handles| ==> d.handles[k] == NULL
  }

  ghost predicate NoStatements(d: Slot, n: nat) {
    forall j :: 0 <= j < n && j < |d.statements| ==> !d.statements[j]
  }

  /** Nothing left of an earlier user. */
  ghost predicate Clean(d: Slot) {
    NoHandles(d, HANDLES) && NoStatements(d, |d.statements|) && !d.attached && !d.session
  }

  ghost predicate EntryOk(d: Slot) {
    |d.handles| == HANDLES && (!d.present ==> !d.used) && (!d.used ==> Clean(d))
  }

  /** What a thread relies on where it is. */
  ghost predicate Relies(dbv: seq<Slot>, pc: Pc) {
    match pc
    case Scan(i, n) => n == -1 || (0 <= n < |dbv| && !dbv[n].present)
    case Alloc(i) => i < |dbv| && !dbv[i].used
    case Mark(i) => i < |dbv| && dbv[i].present && !dbv[i].used
    case _ => Owned(pc).Some? ==> Owned(pc).value < |dbv| && ReliesOn(dbv[Owned(pc).value], pc)
  }

  ghost predicate ReliesOn(d: Slot, pc: Pc) {
    && d.present && d.used
    && match pc
       case AddUnlock(_) => Clean(d)
       case Fill(_) => Clean(d)
       case Given(_) => Clean(d)
       case RelHandle(_, k) => NoHandles(d, k)
       case RelStatement(_, j) => NoHandles(d, HANDLES) && NoStatements(d, j)
       case RelLock(_) => NoHandles(d, HANDLES) && NoStatements(d, |d.statements|)
       case RelAttached(_) => NoHandles(d, HANDLES) && NoStatements(d, |d.statements|)
       case RelSession(_) => NoHandles(d, HANDLES) && NoStatements(d, |d.statements|) && !d.attached
       case RelUsed(_) => Clean(d)
       case _ => true
  }

  /** No two threads own the same slot. */
  ghost predicate Exclusive(threads: seq<Pc>) {
    forall t, u :: 0 <= t < u < |threads| && Owned(threads[t]).Some? ==> Owned(threads[t]) != Owned(threads[u])
  }

  ghost predicate Inv(s: World) {
    && (forall i :: 0 <= i < |s.dbv| ==> EntryOk(s.dbv[i]))
    && (forall t :: 0 <= t < |s.threads| ==> Relies(s.dbv, s.threads[t]))
    && (forall t :: 0 <= t < |s.threads| ==> (Locking(s.threads[t]) <==> s.mutex == Some(t)))
    && Exclusive(s.threads)
  }

  /** The actions of threads that unlock only what they locked, and let go of a handle they have released. */
  predicate Fair(m: Action) {
    !m.Unlock? && !m.FreeAgain?
  }

  /** A thread not concerned with slot `i` keeps what it relies on when that slot is written. */
  lemma OthersRely(dbv: seq<Slot>, i: nat, d: Slot, pc: Pc)
    requires i < |dbv| && Relies(dbv, pc) && Owned(pc) != Some(i)
    requires !Locking(pc) || (dbv[i].present && dbv[i].used && d.present && d.used)
    ensures Relies(dbv[i := d], pc)
  {
  }

  /** A move that writes slot `i` keeps the invariant when its thread owns the slot, or holds the mutex and the slot
      is free, and what it writes is sound. */
  lemma WriteKeepsInv(s: World, t: nat, i: nat, d: Slot, pc: Pc)
    requires Inv(s) && t < |s.threads| && i < |s.dbv|
    requires Owned(s.threads[t]) == Some(i) || (s.mutex == Some(t) && !s.dbv[i].used)
    requires s.mutex == Some(t) || (d.present && d.used)
    requires Locking(pc) <==> Locking(s.threads[t])
    requires EntryOk(d) && Relies(s.dbv[i := d], pc) && (Owned(pc) == Some(i) || Owned(pc).None?)
    ensures Inv(Goes(Write(s, i, d), t, pc))
  {
    forall u | 0 <= u < |s.threads| && u != t
      ensures Owned(s.threads[u]) != Some(i) && Relies(s.dbv[i := d], s.threads[u])
    {
      OthersRely(s.dbv, i, d, s.threads[u]);
    }
  }

  /** A move that writes no slot and keeps what its thread owns. */
  lemma MoveKeepsInv(s: World, t: nat, pc: Pc, mutex: Option<nat>)
    requires Inv(s) && t < |s.threads| && Relies(s.dbv, pc) && (Owned(pc) == Owned(s.threads[t]))
    requires mutex == s.mutex || (s.mutex.None? && mutex == Some(t)) || (s.mutex == Some(t) && mutex.None?)
    requires Locking(pc) <==> mutex == Some(t)
    ensures Inv(Goes(s, t, pc).(mutex := mutex))
  {
  }

  /** A thread that owns a slot leaves it sound, and knows what it needs where it goes next. */
  lemma OwnerStep(d: Slot, pc: Pc, m: Action, maxCursors: nat)
    requires EntryOk(d) && Writes(pc) && Owned(pc).Some? && ReliesOn(d, pc)
    ensures var r := StepOn(d, pc, m, maxCursors);
      && EntryOk(r.0) && (Locking(r.1) <==> Locking(pc))
      && (if pc.RelUsed? then r.1.RelUnlock? else Owned(r.1) == Owned(pc) && ReliesOn(r.0, r.1))
  {
  }

  /** Every action keeps the invariant, except unlocking another thread's mutex and freeing a released slot
      again. */
  lemma StepKeepsInv(s: World, t: nat, m: Action)
    requires Inv(s) && Fair(m)
    ensures Inv(Step(s, t, m))
  {
    hide Inv;
    if t < |s.threads| {
      var pc := s.threads[t];
      if !Writes(pc) {
        WaitKeepsInv(s, t, m);
      } else if Owned(pc).Some? {
        OwnerKeepsInv(s, t, m);
      } else {
        AddKeepsInv(s, t, m);
      }
    }
  }

  lemma OwnerKeepsInv(s: World, t: nat, m: Action)
    requires Inv(s) && Fair(m) && t < |s.threads|
    requires Writes(s.threads[t]) && Owned(s.threads[t]).Some?
    ensures Inv(Step(s, t, m))
  {
    hide StepOn, ReliesOn, EntryOk, Exclusive;
    var pc := s.threads[t];
    var i := pc.i;
    assert Relies(s.dbv, pc);
    var r := StepOn(s.dbv[i], pc, m, s.maxCursors);
    OwnerStep(s.dbv[i], pc, m, s.maxCursors);
    if !pc.RelUsed? {
      OwnerUses(s.dbv[i], pc, m, s.maxCursors);
    }
    WriteKeepsInv(s, t, i, r.0, r.1);
  }

  lemma OwnerUses(d: Slot, pc: Pc, m: Action, maxCursors: nat)
    requires Writes(pc) && Owned(pc).Some? && ReliesOn(d, pc) && !pc.RelUsed?
    ensures StepOn(d, pc, m, maxCursors).0.present && StepOn(d, pc, m, maxCursors).0.used
  {
  }

  lemma AddKeepsInv(s: World, t: nat, m: Action)
    requires Inv(s) && Fair(m) && t < |s.threads| && (s.threads[t].Alloc? || s.threads[t].Mark?)
    ensures Inv(Step(s, t, m))
  {
    var pc := s.threads[t];
    var i := pc.i;
    assert Relies(s.dbv, pc);
    var r := StepOn(s.dbv[i], pc, m, s.maxCursors);
    WriteKeepsInv(s, t, i, r.0, r.1);
  }

  lemma ScanRelies(dbv: seq<Slot>, i: nat, n: int)
    requires Relies(dbv, Scan(i, n)) && forall j :: 0 <= j < |dbv| ==> EntryOk(dbv[j])
    ensures var pc := Scanned(dbv, i, n); Relies(dbv, pc) && Locking(pc) && Owned(pc).None?
  {
  }

  lemma InvAt(s: World, t: nat)
    requires Inv(s) && t < |s.threads|
    ensures Relies(s.dbv, s.threads[t]) && (Locking(s.threads[t]) <==> s.mutex == Some(t))
    ensures forall j :: 0 <= j < |s.dbv| ==> EntryOk(s.dbv[j])
  {
  }

  /** The moves that write no slot. */
  lemma WaitKeepsInv(s: World, t: nat, m: Action)
    requires Inv(s) && Fair(m) && t < |s.threads| && !Writes(s.threads[t])
    ensures Inv(Step(s, t, m))
  {
    hide Inv, StepOn, Wait, EntryOk, Relies;
    InvAt(s, t);
    var r := Wait(s.dbv, s.mutex, t, s.threads[t], m);
    WaitRelies(s.dbv, s.mutex, t, s.threads[t], m);
    MoveKeepsInv(s, t, r.0, r.1);
  }

  lemma WaitRelies(dbv: seq<Slot>, mutex: Option<nat>, t: nat, pc: Pc, m: Action)
    requires Relies(dbv, pc) && !Writes(pc) && Fair(m) && (forall j :: 0 <= j < |dbv| ==> EntryOk(dbv[j]))
    requires Locking(pc) <==> mutex == Some(t)
    ensures var r := Wait(dbv, mutex, t, pc, m);
      && Relies(dbv, r.0) && Owned(r.0) == Owned(pc) && (Locking(r.0) <==> r.1 == Some(t))
      && (r.1 == mutex || (mutex.None? && r.1 == Some(t)) || (mutex == Some(t) && r.1.None?))
  {
    hide Scanned, Clean;
    if pc.Scan? {
      ScanRelies(dbv, pc.i, pc.firstNull);
    }
  }

  /** Slot ownership. However threads interleave the steps of `_db_add` and `_db_release`, as long as the
      mutex is only unlocked by the thread that locked it and no handle is freed after its slot was
      released: no two threads ever own the same slot, and a thread given a slot finds its five handles
      NULL, nobody attached, no session, every statement released. */
  lemma {:induction false} OneOwner(s: World, run: seq<(nat, Action)>)
    requires Initial(s) && forall n :: 0 <= n < |run| ==> Fair(run[n].1)
    ensures var r := Run(s, run);
      && Inv(r) && Exclusive(r.threads)
      && forall t :: 0 <= t < |r.threads| && r.threads[t].Given? ==>
           r.threads[t].i < |r.dbv| && Clean(r.dbv[r.threads[t].i])
    decreases |run|
  {
    hide Step;
    if run == [] {
      InitialInv(s);
    } else {
      var before := run[..|run| - 1];
      OneOwner(s, before);
      StepKeepsInv(Run(s, before), run[|run| - 1].0, run[|run| - 1].1);
    }
    var r := Run(s, run);
    forall t | 0 <= t < |r.threads| && r.threads[t].Given?
      ensures r.threads[t].i < |r.dbv| && Clean(r.dbv[r.threads[t].i])
    {
      assert Relies(r.dbv, r.threads[t]);
    }
  }

  lemma InitialInv(s: World)
    requires Initial(s)
    ensures Inv(s)
  {
  }

  /** Some run leads there in which nobody does `never`. */
  ghost predicate Reaches(s: World, r: World, never: Action) {
    exists run: seq<(nat, Action)> :: (forall n :: 0 <= n < |run| ==> run[n].1 != never) && Run(s, run) == r
  }

  lemma Then(s: World, r: World, t: nat, m: Action, never: Action)
    requires Reaches(s, r, never) && m != never
    ensures Reaches(s, Step(r, t, m), never)
  {
    var run: seq<(nat, Action)> :| (forall n :: 0 <= n < |run| ==> run[n].1 != never) && Run(s, run) == r;
    var run' := run + [(t, m)];
    assert run'[..|run|] == run;
    assert Run(s, run') == Step(r, t, m);
  }

  lemma RunsNowhere(s: World, never: Action)
    ensures Reaches(s, s, never)
  {
    assert Run(s, []) == s;
  }

  /** The first assumption is needed: with one slot and two threads, a single foreign unlock makes both own it. */
  lemma ForeignUnlock()
    ensures var s := World([BARE], None, [Idle, Idle], 1);
      exists r :: Initial(s) && Reaches(s, r, FreeAgain) && !Exclusive(r.threads)
  {
    hide Reaches, Exclusive;
    var s0 := World([BARE], None, [Idle, Idle], 1);
    RunsNowhere(s0, FreeAgain);
    var s1 := FindsSlot(s0, s0, 0, FreeAgain);
    Then(s0, s1, 1, Unlock, FreeAgain);
    var s2 := FindsSlot(s0, s1.(mutex := None), 1, FreeAgain);
    assert s2 == World([BARE], Some(1), [Alloc(0), Alloc(0)], 1);
    var s3 := TakesSlot(s0, s2, 0, FreeAgain);
    var s4 := TakesSlot(s0, s3, 1, FreeAgain);
    assert s4.threads == [AddUnlock(0), AddUnlock(0)];
    NotExclusive(s4.threads);
  }

  lemma NotExclusive(threads: seq<Pc>)
    requires |threads| == 2 && Owned(threads[0]).Some? && Owned(threads[0]) == Owned(threads[1])
    ensures !Exclusive(threads)
  {
  }

  /** An idle thread locks the mutex and finds slot 0. */
  lemma FindsSlot(s0: World, s: World, t: nat, never: Action) returns (r: World)
    requires Reaches(s0, s, never) && never != Go && |s.dbv| == 1 && !s.dbv[0].used
    requires t < |s.threads| && (s.threads[t].Idle? || s.threads[t].Left?) && s.mutex.None?
    ensures Reaches(s0, r, never) && r == s.(mutex := Some(t), threads := s.threads[t := Alloc(0)])
  {
    hide Reaches;
    Then(s0, s, t, Go, never);
    r := Step(s, t, Go);
    Then(s0, r, t, Go, never);
    r := Step(r, t, Go);
    Then(s0, r, t, Go, never);
    r := Step(r, t, Go);
    if r.threads[t].Scan? {
      Then(s0, r, t, Go, never);
      r := Step(r, t, Go);
    }
    assert r.threads == s.threads[t := Alloc(0)];
  }

  /** A thread that has found slot 0 allocates it and marks it. */
  lemma TakesSlot(s0: World, s: World, t: nat, never: Action) returns (r: World)
    requires Reaches(s0, s, never) && never != Go && |s.dbv| == 1 && t < |s.threads| && s.threads[t] == Alloc(0)
    ensures Reaches(s0, r, never) && r.threads == s.threads[t := AddUnlock(0)] && |r.dbv| == 1 && r.mutex == s.mutex
    ensures r.dbv[0] == (if s.dbv[0].present then s.dbv[0] else BARE).(present := true, used := true)
      && r.maxCursors == s.maxCursors
  {
    hide Reaches;
    Then(s0, s, t, Go, never);
    var s1 := Step(s, t, Go);
    assert s1.threads == s.threads[t := Mark(0)];
    Then(s0, s1, t, Go, never);
    r := Step(s1, t, Go);
    assert r.threads == s.threads[t := AddUnlock(0)];
  }

  /** ... and unlocks, and is given it. */
  lemma GetsSlot(s0: World, s: World, t: nat, never: Action) returns (r: World)
    requires Reaches(s0, s, never) && never != Go && |s.dbv| == 1 && !s.dbv[0].used && |s.dbv[0].handles| == HANDLES
    requires t < |s.threads| && (s.threads[t].Idle? || s.threads[t].Left?) && s.mutex.None?
    ensures Reaches(s0, r, never) && r.threads == s.threads[t := Given(0)] && r.mutex.None? && |r.dbv| == 1
    ensures r.dbv[0].present && r.dbv[0].used && |r.dbv[0].handles| == HANDLES
  {
    hide Reaches;
    var s1 := FindsSlot(s0, s, t, never);
    var s2 := TakesSlot(s0, s1, t, never);
    assert s2.threads == s.threads[t := AddUnlock(0)];
    Then(s0, s2, t, Go, never);
    var s3 := Step(s2, t, Go);
    assert s3.threads == s.threads[t := Fill(0)];
    Then(s0, s3, t, Go, never);
    r := Step(s3, t, Go);
    assert r.threads == s.threads[t := Given(0)];
  }

  /** A thread that has begun to release slot 0 clears its handles, releases its statements, and marks it free. */
  lemma {:induction false} FreesSlot(s0: World, s: World, t: nat, never: Action) returns (r: World)
    requires Reaches(s0, s, never) && never != Go && |s.dbv| == 1 && t < |s.threads| && s.mutex.None?
    requires s.dbv[0].present && |s.dbv[0].handles| == HANDLES
    requires match s.threads[t]
             case RelHandle(i, k) => i == 0 && k <= HANDLES
             case RelStatement(i, j) => i == 0 && j <= |s.dbv[0].statements|
             case _ => false
    ensures Reaches(s0, r, never) && r.threads == s.threads[t := Left(0)] && r.mutex.None? && |r.dbv| == 1
    ensures r.dbv[0].present && !r.dbv[0].used && |r.dbv[0].handles| == HANDLES
    decreases if s.threads[t].RelHandle? then HANDLES - s.threads[t].k else 0,
      if s.threads[t].RelStatement? then |s.dbv[0].statements| - s.threads[t].j else |s.dbv[0].statements| + 1
  {
    hide Reaches;
    Then(s0, s, t, Go, never);
    var s1 := Step(s, t, Go);
    if s1.threads[t].RelLock? {
      r := UnmarksSlot(s0, s1, t, never);
    } else {
      r := FreesSlot(s0, s1, t, never);
    }
    assert r.threads == s.threads[t := Left(0)];
  }

  lemma UnmarksSlot(s0: World, s: World, t: nat, never: Action) returns (r: World)
    requires Reaches(s0, s, never) && never != Go && |s.dbv| == 1 && t < |s.threads| && s.mutex.None?
    requires s.dbv[0].present && |s.dbv[0].handles| == HANDLES && s.threads[t] == RelLock(0)
    ensures Reaches(s0, r, never) && r.threads == s.threads[t := Left(0)] && r.mutex.None? && |r.dbv| == 1
    ensures r.dbv[0].present && !r.dbv[0].used && |r.dbv[0].handles| == HANDLES
  {
    hide Reaches;
    Then(s0, s, t, Go, never);
    var s1 := Step(s, t, Go);
    assert s1.threads == s.threads[t := RelAttached(0)];
    Then(s0, s1, t, Go, never);
    var s2 := Step(s1, t, Go);
    assert s2.threads == s.threads[t := RelSession(0)];
    r := LeavesSlot(s0, s2, t, never);
    assert r.threads == s.threads[t := Left(0)];
  }

  lemma LeavesSlot(s0: World, s: World, t: nat, never: Action) returns (r: World)
    requires Reaches(s0, s, never) && never != Go && |s.dbv| == 1 && t < |s.threads| && s.mutex == Some(t)
    requires s.dbv[0].present && |s.dbv[0].handles| == HANDLES && s.threads[t] == RelSession(0)
    ensures Reaches(s0, r, never) && r.threads == s.threads[t := Left(0)] && r.mutex.None? && |r.dbv| == 1
    ensures r.dbv[0].present && !r.dbv[0].used && |r.dbv[0].handles| == HANDLES
  {
    hide Reaches;
    Then(s0, s, t, Go, never);
    var s1 := Step(s, t, Go);
    assert s1.threads == s.threads[t := RelUsed(0)];
    Then(s0, s1, t, Go, never);
    var s2 := Step(s1, t, Go);
    assert s2.threads == s.threads[t := RelUnlock(0)];
    Then(s0, s2, t, Go, never);
    r := Step(s2, t, Go);
    assert r.threads == s.threads[t := Left(0)];
  }

  /** The second assumption is needed, and `sqlo_connect` breaks it: a refused attach releases the slot,
      which another thread is given; then the handle is freed again. That thread loses its connection, and
      the slot is given out once more. All without a foreign unlock. */
  lemma StaleRelease()
    ensures var s := World([BARE], None, [Idle, Idle], 1);
      exists r :: Initial(s) && Reaches(s, r, Unlock) && r.threads == [Given(0), Given(0)] && !Exclusive(r.threads)
  {
    hide Reaches, Exclusive;
    var s0 := World([BARE], None, [Idle, Idle], 1);
    RunsNowhere(s0, Unlock);
    var s1 := GetsSlot(s0, s0, 0, Unlock);
    Then(s0, s1, 0, Release, Unlock);
    var s2 := FreesSlot(s0, Step(s1, 0, Release), 0, Unlock);
    assert s2.threads == [Left(0), Idle];
    var s3 := GetsSlot(s0, s2, 1, Unlock);
    assert s3.threads == [Left(0), Given(0)];
    Then(s0, s3, 0, FreeAgain, Unlock);
    var s4 := FreesSlot(s0, Step(s3, 0, FreeAgain), 0, Unlock);
    assert s4.threads == [Left(0), Given(0)] && !s4.dbv[0].used;
    var s5 := GetsSlot(s0, s4, 0, Unlock);
    assert s5.threads == [Given(0), Given(0)];
    NotExclusive(s5.threads);
  }
}
