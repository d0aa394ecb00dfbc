/** Opening and running statements to the end, for every script of answers: the tables of `CursorTables` end
    as `Replies` reads off the answers alone. */
module Polls {
  import opened Oci
  import opened Handles
  import opened Statements
  import opened Cursors
  import opened CursorTables
  import opened Replies
  import opened Wrappers

  // ------------------------------------------------------------------ one call

  /** Opening a fresh statement, for every script: the statement is prepared once, each argument is bound at most
      once, and all of them are if the statement runs or is open. */
  lemma OpenNewOutcome(k: Cursor, h: Handle, args: seq<string>, maxLong: nat)
    requires Fresh(k, h) && k.status == SUCCESS
    ensures var o := OpenNew(k, args, maxLong);
      var a := Preparing(k.oci.script, |args|, k.s.defs.num != 0);
      var all := k.oci.bound + Positions(h, 1, |args|);
      && Came(h, a, o.k, maxLong) && o.ret == a.Ret() && (o.named <==> a.Named()) && OwnOnly(k, o.k)
      && o.k.oci.prepared == k.oci.prepared + multiset{h}
      && k.oci.bound <= o.k.oci.bound <= all && (a.Opens? || a.Pends? ==> o.k.oci.bound == all)
      && (a.Opens? || a.Pends? ==> Filled(o.k.s.binds, BindAnswers(k.oci.script), args, 0))
  {
    hide Reopen, Abandon, Binding, Came, OwnOnly, Positions, Filled;
    var k1 := Prepare(k);
    if k1.status != SUCCESS {
      AbandonComes(k, k1, k1.status, maxLong);
    } else if k1.s.IsPlsql() {
      AbandonComes(k, k1, INVALID_STMT_TYPE, maxLong);
    } else {
      var k2 := if k1.s.IsQuery() then Local(k1) else k1;
      if k2.status != SUCCESS {
        AbandonComes(k, k2, k2.status, maxLong);
      } else {
        OpenPrepared(k, k2, h, args, maxLong);
      }
    }
  }

  lemma AbandonComes(k: Cursor, k1: Cursor, ret: int, maxLong: nat)
    requires k.Ok() && k1.Ok() && k1.s.used && k1.s.handle == k.s.handle != NULL && ret != SUCCESS && OwnOnly(k, k1)
    ensures var o := Abandon(k1, ret, maxLong);
      var a := ClosedTwice(ret, k1.oci.script);
      && Came(k.s.handle, a, o.k, maxLong) && o.ret == a.Ret() && !o.named && !a.Named() && OwnOnly(k, o.k)
      && o.k.oci.prepared == k1.oci.prepared && o.k.oci.bound == k1.oci.bound
  {
    AbandonVacates(k1, ret, maxLong);
  }

  lemma OpenPrepared(k: Cursor, k2: Cursor, h: Handle, args: seq<string>, maxLong: nat)
    requires Fresh(k, h) && k2.Ok() && k2.status == SUCCESS && k2.oci.columns == k.oci.columns
      && k2.oci.last == k.oci.last
      && k2.oci.executed == k.oci.executed
    requires k2.s == k.s.(prepared := true, stype := k2.s.stype)
    ensures var r := Reopen(k2, args, maxLong);
      var a := Binding(k2.oci.script, |args|, k2.s.IsQuery(), k.s.defs.num != 0);
      var all := k2.oci.bound + Positions(h, 1, |args|);
      && Came(h, a, r, maxLong) && r.status == a.Ret() && OwnOnly(k, r)
      && r.oci.prepared == k2.oci.prepared && k2.oci.bound <= r.oci.bound <= all
      && (a.Opens? || a.Pends? ==> r.oci.bound == all && Filled(r.s.binds, k2.oci.script, args, 0))
  {
    hide Reopen, Came, BindReplies, Positions, Filled;
    ReopenOutcome(k2, args, maxLong);
    if BindReplies(k2.oci.script, |args|).status == SUCCESS {
      ReopenFills(k2, args, maxLong);
    }
    BindsAccepted(k2.oci.script, |args|);
    OwnOnlyBefore(k, k2, Reopen(k2, args, maxLong));
  }

  lemma OwnOnlyBefore(k: Cursor, k2: Cursor, r: Cursor)
    requires OwnOnly(k2, r) && k2.oci.columns == k.oci.columns && k2.oci.last == k.oci.last
      && k2.oci.executed == k.oci.executed && k2.s.sth == k.s.sth && k2.s.handle == k.s.handle
    ensures OwnOnly(k, r)
  {
  }

  /** What a call does that takes slot `i` for a new statement. */
  ghost predicate Tried(tb: Table, i: nat, sth: int32, dbh: nat, a: Attempt, r: Result, maxLong: nat)
    requires i < |tb.slots| <= MAX_CURSORS && dbh < MAX_DB
  {
    && r.tb.Ok() && |r.tb.slots| == |tb.slots| && r.tb.slots == tb.slots[i := r.tb.slots[i]]
    && r.tb.nonBlocking == tb.nonBlocking
    && r.ret == a.Ret() && r.sth == (if a.Named() then Encode(i, dbh) else sth)
    && Came(tb.oci.last + 1, a, r.tb.At(i), maxLong)
    && (a.Bounces? && !a.closed ==> r.tb.slots[i].defs == tb.slots[i].defs)
    && tb.oci.last <= r.tb.oci.last <= tb.oci.last + 1 && (a.Pends? || a.Opens? ==> r.tb.oci.last == tb.oci.last + 1)
    && r.tb.oci.columns - {tb.oci.last + 1} == tb.oci.columns - {tb.oci.last + 1}
    && forall h :: h <= tb.oci.last ==> r.tb.oci.executed[h] == tb.oci.executed[h]
  }

  lemma NewOutcome(tb: Table, sth: int32, dbh: nat, args: seq<string>, maxLong: nat)
    requires tb.Ok() && dbh < MAX_DB && FirstFree(tb.slots) < |tb.slots|
    ensures var i := FirstFree(tb.slots);
      Tried(tb, i, sth, dbh, Opening(tb.oci.script, |args|, tb.slots[i].defs.num != 0),
            OpenInFreeSlot(tb, sth, dbh, args, maxLong), maxLong)
  {
    hide OpenNew, Preparing, NewStatement, Positions;
    NewStatementOutcome(tb);
    var k := NewStatement(tb);
    if k.status == SUCCESS {
      OpenNewOutcome(k, tb.oci.last + 1, args, maxLong);
    }
  }

  // ------------------------------------------------------------ the polling loop

  /** Where polling stands: what its handle names in slot `i`. */
  ghost predicate Stands(tb: Table, i: nat, held: Held, sth: int32, dbh: nat)
    requires i < |tb.slots| <= MAX_CURSORS && dbh < MAX_DB
  {
    match held
    case Nobody => sth == STH_INIT && FirstFree(tb.slots) == i
    case Stripped(query) =>
      && sth == Encode(i, dbh) && Lost(tb.slots[i]) && !tb.slots[i].stillExecuting && tb.slots[i].IsQuery() == query
    case Pending(executed) =>
      && sth == Encode(i, dbh) && UnderWay(tb.slots[i], tb.slots[i].handle)
      && Paused(tb.At(i), executed) && tb.slots[i].handle <= tb.oci.last
    case Open(_, _) => false
  }

  /** The free slot after slot `i`: whether it still holds defines, if there is one. */
  function Second(slots: seq<State>, i: nat): Option<bool>
    requires i < |slots|
  {
    var f := FirstFree(slots[i := slots[i].(used := true)]);
    if f == |slots| then None else Some(slots[f].defs.num != 0)
  }

  /** Where polling stands in this table. */
  function StandingAt(tb: Table, i: nat, held: Held): Standing
    requires i < |tb.slots|
  {
    Standing(held, held.Nobody? && tb.slots[i].defs.num != 0, Second(tb.slots, i))
  }

  /** What is in the slot that the returned handle names. */
  ghost predicate HeldSlot(held: Held, k: Cursor, maxLong: nat)
    requires k.Ok()
  {
    match held
    case Nobody => !k.s.used
    case Stripped(query) => Lost(k.s) && k.s.IsQuery() == query
    case Pending(_) => UnderWay(k.s, k.s.handle)
    case Open(query, complete) =>
      OpenOn(k.s, k.s.handle) && k.s.IsQuery() == query && (query ==> (complete <==> AllDefined(k, maxLong)))
  }

  ghost predicate OthersKept(slots: seq<State>, slots': seq<State>, i: nat) {
    && |slots'| == |slots|
    && forall j :: 0 <= j < |slots| && j != i ==>
         slots'[j].used == slots[j].used && (slots[j].used ==> slots'[j] == slots[j])
  }

  /** The slot is idle again, unless it was free without being idle before. */
  ghost predicate LeftIdle(s: State, s': State) {
    s'.Idle() || (!s.used && !s.Idle())
  }

  /** Some slot that was free, or slot `i`, is taken and the returned handle does not name it. */
  ghost predicate Leaked(slots: seq<State>, i: nat, r: Result) {
    |r.tb.slots| == |slots| && exists j :: 0 <= j < |slots| && LeakedAt(slots, i, r, j)
  }

  ghost predicate LeakedAt(slots: seq<State>, i: nat, r: Result, j: nat)
    requires |r.tb.slots| == |slots| && j < |slots|
  {
    (j == i || !slots[j].used) && r.tb.slots[j].used && DecodeSlot(r.sth) != j
  }

  /** Polling has ended as foretold. */
  ghost predicate EndsAs(slots: seq<State>, i: nat, held: Held, dbh: nat, r: Result, e: PollEnd, maxLong: nat)
    requires i < |slots| <= MAX_CURSORS && dbh < MAX_DB
  {
    r.tb.Ok() && |r.tb.slots| == |slots| &&
    match e
    case Leaks =>
      && Leaked(slots, i, r) && r.tb.slots[i].used && !r.tb.slots[i].isOpen
      && (held.Pending? ==> UnderWay(r.tb.slots[i], r.tb.slots[i].handle))
      && (r.ret == STILL_EXECUTING ==> DecodeSlot(r.sth) != i || !r.tb.slots[i].Resumable())
    case Ends(status, held', alone, rest) =>
      && r.ret == status && r.tb.oci.script == rest && OthersKept(slots, r.tb.slots, i)
      && (alone ==> r.tb.slots == slots[i := r.tb.slots[i]])
      && HeldSlot(held', r.tb.At(i), maxLong) && (held'.Nobody? ==> LeftIdle(slots[i], r.tb.slots[i]))
      && (r.sth == Encode(i, dbh) || (held'.Nobody? && r.sth == STH_INIT))
  }

  /** A slot in use that the handle does not make polling resume keeps every field. */
  lemma {:induction false} LeftAlone(tb: Table, sth: int32, k: nat, dbh: nat, args: seq<string>, maxLong: nat)
    requires tb.Ok() && dbh < MAX_DB && k < |tb.slots| && tb.slots[k].used
    requires DecodeSlot(sth) != k || !tb.slots[k].Resumable()
    ensures var r := PollOpen(tb, sth, dbh, args, maxLong);
      r.tb.slots[k] == tb.slots[k] && (r.sth == sth || DecodeSlot(r.sth) != k)
    decreases |tb.oci.script|
  {
    hide Open2;
    CallLeavesAlone(tb, sth, k, dbh, args, maxLong);
    var r := Open2(tb, sth, dbh, args, maxLong);
    if r.ret == STILL_EXECUTING {
      LeftAlone(r.tb, r.sth, k, dbh, args, maxLong);
    }
  }

  lemma CallLeavesAlone(tb: Table, sth: int32, k: nat, dbh: nat, args: seq<string>, maxLong: nat)
    requires tb.Ok() && dbh < MAX_DB && k < |tb.slots| && tb.slots[k].used
    requires DecodeSlot(sth) != k || !tb.slots[k].Resumable()
    ensures var r := Open2(tb, sth, dbh, args, maxLong);
      r.tb.slots[k] == tb.slots[k] && (r.sth == sth || DecodeSlot(r.sth) != k)
  {
    hide OpenNew, Reopen, NewStatement, DecodeSlot, Encode;
    if FirstFree(tb.slots) < |tb.slots| {
      RoundTrip(FirstFree(tb.slots), dbh);
    }
  }

  lemma SameFree(slots: seq<State>, slots': seq<State>)
    requires |slots| == |slots'| && forall j :: 0 <= j < |slots| ==> slots'[j].used == slots[j].used
    ensures FirstFree(slots') == FirstFree(slots)
  {
  }

  /** Slot `i` does not matter for the slot after it. */
  lemma SecondOf(slots: seq<State>, i: nat, s: State)
    requires i < |slots|
    ensures Second(slots[i := s], i) == Second(slots, i)
    ensures slots[i].used ==> FirstFree(slots[i := slots[i].(used := true)]) == FirstFree(slots)
  {
    SameFree(slots[i := slots[i].(used := true)], slots[i := s][i := s.(used := true)]);
    if slots[i].used {
      SameFree(slots, slots[i := slots[i].(used := true)]);
    }
  }

  /** One call that resumes the pending query. */
  lemma ResumingCall(tb: Table, i: nat, executed: bool, dbh: nat, args: seq<string>, maxLong: nat)
    requires tb.Ok() && dbh < MAX_DB && i < |tb.slots| && Stands(tb, i, Pending(executed), Encode(i, dbh), dbh)
    requires tb.oci.Now().mode >= 0 && ReadsNonBlocking(tb.oci.Now(), tb.nonBlocking)
    ensures var r := Open2(tb, Encode(i, dbh), dbh, args, maxLong);
      var a := Launches(Tail(tb.oci.script), executed);
      && r.tb.slots == tb.slots[i := r.tb.slots[i]] && r.tb.nonBlocking == tb.nonBlocking
      && r.ret == a.Ret() && r.sth == Encode(i, dbh)
      && Came(tb.slots[i].handle, a, r.tb.At(i), maxLong)
      && r.tb.oci.last == tb.oci.last && r.tb.oci.prepared == tb.oci.prepared && r.tb.oci.bound == tb.oci.bound
      && r.tb.slots[i].stype == tb.slots[i].stype && (a.Pends? || a.Opens? ==> r.tb.slots[i].binds == tb.slots[i].binds)
  {
    hide Launch, Launches, Came, Encode, DecodeSlot;
    RoundTrip(i, dbh);
    var tb1 := tb.(oci := tb.oci.Rest(), status := tb.oci.Now().mode);
    LaunchOutcome(tb1.At(i), maxLong);
    LaunchSameType(tb1.At(i), maxLong);
    LaunchKeepsBinds(tb1.At(i), maxLong);
    var k := Launch(tb1.At(i), maxLong);
    assert Reopen(tb1.At(i), args, maxLong) == k;
    assert Open2(tb, Encode(i, dbh), dbh, args, maxLong) == Result(tb1.Put(i, k), k.status, Encode(i, dbh));
  }

  lemma TriedBefore(tb: Table, tb1: Table, i: nat, sth: int32, dbh: nat, a: Attempt, r: Result, maxLong: nat)
    requires i < |tb.slots| <= MAX_CURSORS && dbh < MAX_DB && tb1.slots == tb.slots && tb1.nonBlocking == tb.nonBlocking
    requires tb1.oci == tb.oci.(script := tb1.oci.script) && Tried(tb1, i, sth, dbh, a, r, maxLong)
    ensures Tried(tb, i, sth, dbh, a, r, maxLong)
  {
    hide Came;
  }

  /** A call that does not resume goes for a new statement. */
  lemma NewCall(tb: Table, i: nat, held: Held, sth: int32, dbh: nat, args: seq<string>, maxLong: nat)
    requires tb.Ok() && dbh < MAX_DB && i < |tb.slots| && Stands(tb, i, held, sth, dbh)
    requires tb.oci.Now().mode >= 0 && !(held.Pending? && ReadsNonBlocking(tb.oci.Now(), tb.nonBlocking))
    ensures var tb1 := tb.(oci := tb.oci.Rest(), status := tb.oci.Now().mode);
      && Open2(tb, sth, dbh, args, maxLong) == OpenInFreeSlot(tb1, sth, dbh, args, maxLong)
      && (FirstFree(tb.slots) < |tb.slots| ==>
            Tried(tb, FirstFree(tb.slots), sth, dbh,
                  Opening(Tail(tb.oci.script), |args|, tb.slots[FirstFree(tb.slots)].defs.num != 0),
                  Open2(tb, sth, dbh, args, maxLong), maxLong))
  {
    hide OpenInFreeSlot, Opening, Tried;
    RoundTrip(i, dbh);
    var tb1 := tb.(oci := tb.oci.Rest(), status := tb.oci.Now().mode);
    if FirstFree(tb.slots) < |tb.slots| {
      NewOutcome(tb1, sth, dbh, args, maxLong);
      TriedBefore(tb, tb1, FirstFree(tb.slots), sth, dbh,
                  Opening(tb1.oci.script, |args|, tb.slots[FirstFree(tb.slots)].defs.num != 0),
                  OpenInFreeSlot(tb1, sth, dbh, args, maxLong), maxLong);
    }
  }

  /** One call of polling does as foretold: it goes on, standing as the answers say, or has ended. */
  ghost predicate Moves(tb: Table, i: nat, held: Held, dbh: nat, r: Result, m: Move, maxLong: nat)
    requires i < |tb.slots| <= MAX_CURSORS && dbh < MAX_DB
  {
    match m
    case Over(e) => (e.Ends? ==> r.ret != STILL_EXECUTING) && EndsAs(tb.slots, i, held, dbh, r, e, maxLong)
    case Again(st, alone, rest) =>
      && r.ret == STILL_EXECUTING && r.tb.Ok() && |r.tb.slots| == |tb.slots| && r.tb.nonBlocking == tb.nonBlocking
      && r.tb.oci.script == rest && OthersKept(tb.slots, r.tb.slots, i)
      && (alone ==> r.tb.slots == tb.slots[i := r.tb.slots[i]])
      && Stands(r.tb, i, st.held, r.sth, dbh) && StandingAt(r.tb, i, st.held) == st
      && (held.Pending? ==> st.held.Pending?)
      && (st.held.Nobody? ==> r.tb.slots[i] == tb.slots[i] || r.tb.slots[i].Idle())
  }

  /** What a call came to, seen through the handle. */
  lemma CameHeld(h: Handle, a: Attempt, k: Cursor, maxLong: nat)
    requires k.Ok() && Came(h, a, k, maxLong)
    ensures k.oci.script == a.rest
    ensures a.Bounces? || a.Refuses? || a.Returns? ==> k.s.Idle() && !k.s.used
    ensures a.Bounces? && a.closed ==> k.s.defs.num == 0
    ensures a.LosesBusy? || a.Loses? ==> Lost(k.s) && k.s.used
    ensures a.LosesBusy? ==> !k.s.stillExecuting && k.s.IsQuery() == a.query
    ensures a.Pends? ==> UnderWay(k.s, k.s.handle) && k.s.used && k.s.handle == h && Paused(k, a.executed)
    ensures a.Opens? ==> HeldSlot(Open(a.query, a.complete), k, maxLong) && k.s.used
  {
    hide AllDefined, Lacks;
  }

  lemma ModeMoves(tb: Table, i: nat, held: Held, sth: int32, dbh: nat, args: seq<string>, maxLong: nat)
    requires tb.Ok() && dbh < MAX_DB && i < |tb.slots| && !held.Open? && Stands(tb, i, held, sth, dbh)
    requires tb.oci.Now().mode < 0
    ensures Moves(tb, i, held, dbh, Open2(tb, sth, dbh, args, maxLong),
                  PollMove(tb.oci.script, |args|, tb.nonBlocking, StandingAt(tb, i, held)), maxLong)
  {
    hide Launches, Opening, Second;
    var r := Open2(tb, sth, dbh, args, maxLong);
    assert r.tb.slots == tb.slots == tb.slots[i := tb.slots[i]];
  }

  lemma ResumingMoves(tb: Table, i: nat, executed: bool, dbh: nat, args: seq<string>, maxLong: nat)
    requires tb.Ok() && dbh < MAX_DB && i < |tb.slots| && Stands(tb, i, Pending(executed), Encode(i, dbh), dbh)
    requires tb.oci.Now().mode >= 0 && ReadsNonBlocking(tb.oci.Now(), tb.nonBlocking)
    ensures Moves(tb, i, Pending(executed), dbh, Open2(tb, Encode(i, dbh), dbh, args, maxLong),
                  ResumingMove(Launches(Tail(tb.oci.script), executed), Second(tb.slots, i)), maxLong)
  {
    hide Launches, Open2, AllDefined, Lacks, Second, State.Ok;
    ResumingCall(tb, i, executed, dbh, args, maxLong);
    SecondOf(tb.slots, i, Open2(tb, Encode(i, dbh), dbh, args, maxLong).tb.slots[i]);
  }

  /** A first call that goes on. */
  lemma FirstGoesOn(tb: Table, i: nat, dbh: nat, a: Attempt, r: Result, maxLong: nat)
    requires tb.Ok() && dbh < MAX_DB && i < |tb.slots| && FirstFree(tb.slots) == i
    requires Tried(tb, i, STH_INIT, dbh, a, r, maxLong) && a.Ret() == STILL_EXECUTING
    requires a.Refuses? || a.Loses? ==> a.status != STILL_EXECUTING
    ensures Moves(tb, i, Nobody, dbh, r, FirstMove(a, StandingAt(tb, i, Nobody)), maxLong)
  {
    hide Came, UnderWay, Paused, Lost, Second, State.Ok, Encode, FirstFree;
    CameHeld(tb.oci.last + 1, a, r.tb.At(i), maxLong);
    SecondOf(tb.slots, i, r.tb.slots[i]);
    if a.Bounces? {
      SameFree(tb.slots, r.tb.slots);
    }
  }

  /** ... and one that ends polling. */
  lemma FirstStops(tb: Table, i: nat, dbh: nat, a: Attempt, r: Result, maxLong: nat)
    requires tb.Ok() && dbh < MAX_DB && i < |tb.slots|
    requires Tried(tb, i, STH_INIT, dbh, a, r, maxLong) && a.Ret() != STILL_EXECUTING
    ensures Moves(tb, i, Nobody, dbh, r, FirstMove(a, StandingAt(tb, i, Nobody)), maxLong)
  {
    hide Came, HeldSlot, Second, State.Ok, Encode, DecodeSlot;
    CameHeld(tb.oci.last + 1, a, r.tb.At(i), maxLong);
    if a.Loses? {
      InitNamesNothing();
      assert LeakedAt(tb.slots, i, r, i);
    } else {
      IdleHeld(r.tb.At(i), maxLong);
    }
  }

  lemma FirstMoves(tb: Table, i: nat, dbh: nat, args: seq<string>, maxLong: nat)
    requires tb.Ok() && dbh < MAX_DB && i < |tb.slots| && Stands(tb, i, Nobody, STH_INIT, dbh)
    requires tb.oci.Now().mode >= 0
    ensures Moves(tb, i, Nobody, dbh, Open2(tb, STH_INIT, dbh, args, maxLong),
                  FirstMove(Opening(Tail(tb.oci.script), |args|, tb.slots[i].defs.num != 0),
                            StandingAt(tb, i, Nobody)), maxLong)
  {
    hide Opening, Open2, Tried, Moves, FirstMove, StandingAt;
    NewCall(tb, i, Nobody, STH_INIT, dbh, args, maxLong);
    var r := Open2(tb, STH_INIT, dbh, args, maxLong);
    var a := Opening(Tail(tb.oci.script), |args|, tb.slots[i].defs.num != 0);
    if a.Ret() == STILL_EXECUTING {
      FirstGoesOn(tb, i, dbh, a, r, maxLong);
    } else {
      FirstStops(tb, i, dbh, a, r, maxLong);
    }
  }

  lemma IdleHeld(k: Cursor, maxLong: nat)
    requires k.Ok()
    ensures HeldSlot(Nobody, k, maxLong) == !k.s.used
    ensures forall query :: HeldSlot(Stripped(query), k, maxLong) == (Lost(k.s) && k.s.IsQuery() == query)
    ensures forall executed :: HeldSlot(Pending(executed), k, maxLong) == UnderWay(k.s, k.s.handle)
  {
  }

  /** A call that goes for another slot while the handle names slot `i`. */
  lemma OtherMoves(tb: Table, i: nat, held: Held, dbh: nat, args: seq<string>, maxLong: nat)
    requires tb.Ok() && dbh < MAX_DB && i < |tb.slots| && (held.Pending? || held.Stripped?)
      && Stands(tb, i, held, Encode(i, dbh), dbh)
    requires tb.oci.Now().mode >= 0 && !(held.Pending? && ReadsNonBlocking(tb.oci.Now(), tb.nonBlocking))
    ensures Moves(tb, i, held, dbh, Open2(tb, Encode(i, dbh), dbh, args, maxLong),
                  PollMove(tb.oci.script, |args|, tb.nonBlocking, StandingAt(tb, i, held)), maxLong)
  {
    hide Opening, Open2, Tried, Moves, OtherMove, UnderWay, Encode;
    NewCall(tb, i, held, Encode(i, dbh), dbh, args, maxLong);
    SecondOf(tb.slots, i, tb.slots[i]);
    HeldIsUsed(tb, i, held, Encode(i, dbh), dbh);
    var f := FirstFree(tb.slots);
    var r := Open2(tb, Encode(i, dbh), dbh, args, maxLong);
    if f == |tb.slots| {
      NoRoom(tb, i, held, dbh, r, maxLong);
    } else {
      var a := Opening(Tail(tb.oci.script), |args|, tb.slots[f].defs.num != 0);
      if a.Bounces? {
        OtherBounces(tb, i, held, f, dbh, a, r, maxLong);
      } else if a.Refuses? {
        OtherRefuses(tb, i, held, f, dbh, a, r, maxLong);
      } else {
        OtherLeaks(tb, i, held, f, dbh, a, r, maxLong);
      }
    }
  }

  lemma HeldIsUsed(tb: Table, i: nat, held: Held, sth: int32, dbh: nat)
    requires i < |tb.slots| <= MAX_CURSORS && dbh < MAX_DB && !held.Nobody? && Stands(tb, i, held, sth, dbh)
    ensures tb.slots[i].used && sth == Encode(i, dbh)
  {
  }

  lemma NoRoom(tb: Table, i: nat, held: Held, dbh: nat, r: Result, maxLong: nat)
    requires tb.Ok() && dbh < MAX_DB && i < |tb.slots| && (held.Pending? || held.Stripped?)
      && Stands(tb, i, held, Encode(i, dbh), dbh)
    requires r.tb.slots == tb.slots && r.ret == ERRMALLOC && r.sth == Encode(i, dbh)
    ensures Moves(tb, i, held, dbh, r, Over(Ends(ERRMALLOC, held, true, r.tb.oci.script)), maxLong)
  {
    hide Encode, DecodeSlot, Paused;
    assert tb.slots == tb.slots[i := tb.slots[i]];
  }

  lemma OtherBounces(tb: Table, i: nat, held: Held, f: nat, dbh: nat, a: Attempt, r: Result, maxLong: nat)
    requires tb.Ok() && dbh < MAX_DB && i < |tb.slots| && (held.Pending? || held.Stripped?)
      && Stands(tb, i, held, Encode(i, dbh), dbh)
    requires f == FirstFree(tb.slots) < |tb.slots| && Tried(tb, f, Encode(i, dbh), dbh, a, r, maxLong) && a.Bounces?
    ensures Moves(tb, i, held, dbh, r, OtherMove(a, held, tb.slots[f].defs.num != 0), maxLong)
  {
    hide Came, Encode, DecodeSlot, FirstFree, State.Ok;
    HeldIsUsed(tb, i, held, Encode(i, dbh), dbh);
    CameHeld(tb.oci.last + 1, a, r.tb.At(f), maxLong);
    SameFree(tb.slots, r.tb.slots);
    SecondOf(tb.slots, i, tb.slots[i]);
    SecondOf(r.tb.slots, i, r.tb.slots[i]);
    if held.Pending? {
      StillPaused(tb.At(i), r.tb.At(i), held.executed, tb.oci.last + 1);
    }
  }

  /** Records of another handle do not matter. */
  lemma StillPaused(k: Cursor, r: Cursor, executed: bool, h: Handle)
    requires Paused(k, executed) && r.s == k.s && k.s.handle != h && r.oci.columns - {h} == k.oci.columns - {h}
    ensures Paused(r, executed)
  {
    var g := k.s.handle;
    assert g in k.oci.columns <==> g in k.oci.columns - {h};
    assert g in r.oci.columns <==> g in r.oci.columns - {h};
    if g in k.oci.columns {
      assert (k.oci.columns - {h})[g] == k.oci.columns[g] && (r.oci.columns - {h})[g] == r.oci.columns[g];
    }
  }

  lemma OtherRefuses(tb: Table, i: nat, held: Held, f: nat, dbh: nat, a: Attempt, r: Result, maxLong: nat)
    requires tb.Ok() && dbh < MAX_DB && i < |tb.slots| && (held.Pending? || held.Stripped?)
      && Stands(tb, i, held, Encode(i, dbh), dbh)
    requires f == FirstFree(tb.slots) < |tb.slots| && Tried(tb, f, Encode(i, dbh), dbh, a, r, maxLong)
    requires a.Refuses? && a.status != STILL_EXECUTING
    ensures Moves(tb, i, held, dbh, r, OtherMove(a, held, tb.slots[f].defs.num != 0), maxLong)
  {
    hide Came, Encode, DecodeSlot, FirstFree, State.Ok, Paused;
    HeldIsUsed(tb, i, held, Encode(i, dbh), dbh);
    CameHeld(tb.oci.last + 1, a, r.tb.At(f), maxLong);
  }

  lemma OtherLeaks(tb: Table, i: nat, held: Held, f: nat, dbh: nat, a: Attempt, r: Result, maxLong: nat)
    requires tb.Ok() && dbh < MAX_DB && i < |tb.slots| && (held.Pending? || held.Stripped?)
      && Stands(tb, i, held, Encode(i, dbh), dbh)
    requires f == FirstFree(tb.slots) < |tb.slots| && Tried(tb, f, Encode(i, dbh), dbh, a, r, maxLong)
    requires !a.Bounces? && !a.Refuses? && (a.Loses? ==> a.status != STILL_EXECUTING)
    ensures Moves(tb, i, held, dbh, r, OtherMove(a, held, tb.slots[f].defs.num != 0), maxLong)
  {
    hide Came, Encode, DecodeSlot, FirstFree, State.Ok, Paused;
    HeldIsUsed(tb, i, held, Encode(i, dbh), dbh);
    CameHeld(tb.oci.last + 1, a, r.tb.At(f), maxLong);
    RoundTrip(i, dbh);
    RoundTrip(f, dbh);
    assert LeakedAt(tb.slots, i, r, if a.Loses? then f else i);
  }

  lemma InitNamesNothing()
    ensures DecodeSlot(STH_INIT) >= MAX_CURSORS
  {
  }

  /** Every call of polling moves as foretold. */
  lemma CallMoves(tb: Table, i: nat, held: Held, sth: int32, dbh: nat, args: seq<string>, maxLong: nat)
    requires tb.Ok() && dbh < MAX_DB && i < |tb.slots| && !held.Open? && Stands(tb, i, held, sth, dbh)
    ensures Moves(tb, i, held, dbh, Open2(tb, sth, dbh, args, maxLong),
                  PollMove(tb.oci.script, |args|, tb.nonBlocking, StandingAt(tb, i, held)), maxLong)
  {
    hide Opening, Launches, Open2, Moves, FirstMove, ResumingMove, OtherMove, UnderWay, Paused, Lost, Encode;
    if tb.oci.Now().mode < 0 {
      ModeMoves(tb, i, held, sth, dbh, args, maxLong);
    } else if held.Nobody? {
      FirstMoves(tb, i, dbh, args, maxLong);
    } else if held.Pending? && ReadsNonBlocking(tb.oci.Now(), tb.nonBlocking) {
      ResumingMoves(tb, i, held.executed, dbh, args, maxLong);
    } else {
      OtherMoves(tb, i, held, dbh, args, maxLong);
    }
  }

  /** The end of a polling is the end of its rest. */
  lemma EndsAfter(tb: Table, i: nat, held: Held, dbh: nat, r1: Result, m: Move, r: Result, e: PollEnd, maxLong: nat)
    requires i < |tb.slots| <= MAX_CURSORS && dbh < MAX_DB && m.Again? && Moves(tb, i, held, dbh, r1, m, maxLong)
    requires EndsAs(r1.tb.slots, i, m.st.held, dbh, r, e, maxLong) && r.ret != STILL_EXECUTING
    ensures EndsAs(tb.slots, i, held, dbh, r, if m.alone then e else Disturbed(e), maxLong)
  {
    hide Stands, HeldSlot, UnderWay, Second;
    if e.Leaks? {
      var j :| 0 <= j < |tb.slots| && LeakedAt(r1.tb.slots, i, r, j);
      assert LeakedAt(tb.slots, i, r, j);
    } else {
      assert m.alone && e.alone ==> r.tb.slots == tb.slots[i := r.tb.slots[i]];
      if !m.st.held.Nobody? {
        HeldIsUsed(r1.tb, i, m.st.held, r1.sth, dbh);
      }
    }
  }

  /** A leaked slot stays leaked. */
  lemma StaysLeaked(tb: Table, i: nat, held: Held, r1: Result, dbh: nat, args: seq<string>, maxLong: nat)
    requires i < |tb.slots| <= MAX_CURSORS && dbh < MAX_DB && r1.tb.Ok()
      && EndsAs(tb.slots, i, held, dbh, r1, Leaks, maxLong)
    requires r1.ret == STILL_EXECUTING
    ensures EndsAs(tb.slots, i, held, dbh, PollOpen(r1.tb, r1.sth, dbh, args, maxLong), Leaks, maxLong)
  {
    hide PollOpen, UnderWay, DecodeSlot;
    var j :| 0 <= j < |tb.slots| && LeakedAt(tb.slots, i, r1, j);
    var r := PollOpen(r1.tb, r1.sth, dbh, args, maxLong);
    LeftAlone(r1.tb, r1.sth, j, dbh, args, maxLong);
    assert LeakedAt(tb.slots, i, r, j);
    LeftAlone(r1.tb, r1.sth, i, dbh, args, maxLong);
  }

  /** Polling to the end, from wherever it stands and for every script of answers, ends as the answers say: the
      status, what the returned handle names, whether the columns of a query are all defined, and whether any
      slot is left taken that the handle does not name. */
  lemma {:induction false} PollOutcome(tb: Table, i: nat, held: Held, sth: int32, dbh: nat, args: seq<string>,
                                       maxLong: nat)
    requires tb.Ok() && dbh < MAX_DB && i < |tb.slots| && !held.Open? && Stands(tb, i, held, sth, dbh)
    ensures EndsAs(tb.slots, i, held, dbh, PollOpen(tb, sth, dbh, args, maxLong),
                   Polling(tb.oci.script, |args|, tb.nonBlocking, StandingAt(tb, i, held)), maxLong)
    decreases |tb.oci.script|
  {
    hide Open2, PollMove, Stands, EndsAs, Second;
    CallMoves(tb, i, held, sth, dbh, args, maxLong);
    var r := Open2(tb, sth, dbh, args, maxLong);
    var m := PollMove(tb.oci.script, |args|, tb.nonBlocking, StandingAt(tb, i, held));
    if m.Again? {
      PollOutcome(r.tb, i, m.st.held, r.sth, dbh, args, maxLong);
      EndsAfter(tb, i, held, dbh, r, m, PollOpen(r.tb, r.sth, dbh, args, maxLong),
                Polling(m.rest, |args|, tb.nonBlocking, m.st), maxLong);
    } else if r.ret == STILL_EXECUTING {
      StaysLeaked(tb, i, held, r, dbh, args, maxLong);
    }
  }

  // ------------------------------------------------------------- what was asked

  /** From `oci` to `oci'` every statement handle handed out was prepared once, at most `n` positions of it were
      bound, each at most once, and no other handle was prepared or bound. */
  ghost predicate Accounted(oci: Oracle, oci': Oracle, n: nat) {
    && oci.last <= oci'.last
    && (forall h: Handle :: oci'.prepared[h] == oci.prepared[h] + (if oci.last < h <= oci'.last then 1 else 0))
    && (forall h: Handle, p: nat ::
          oci.bound[(h, p)] <= oci'.bound[(h, p)]
            <= oci.bound[(h, p)] + (if oci.last < h <= oci'.last && 1 <= p <= n then 1 else 0))
  }

  lemma {:induction false} PositionsOnce(h: Handle, first: nat, last: nat, g: Handle, p: nat)
    ensures Positions(h, first, last)[(g, p)] == if g == h && first <= p <= last then 1 else 0
    decreases last - first
  {
    if first <= last {
      PositionsOnce(h, first + 1, last, g, p);
    }
  }

  lemma NewAccounted(oci: Oracle, oci': Oracle, n: nat)
    requires oci'.last == oci.last + 1 && oci'.prepared == oci.prepared + multiset{oci'.last}
    requires oci.bound <= oci'.bound <= oci.bound + Positions(oci'.last, 1, n)
    ensures Accounted(oci, oci', n)
  {
    forall h: Handle, p: nat
      ensures oci.bound[(h, p)] <= oci'.bound[(h, p)]
        <= oci.bound[(h, p)] + (if oci.last < h <= oci'.last && 1 <= p <= n then 1 else 0)
    {
      PositionsOnce(oci'.last, 1, n, h, p);
      assert oci'.bound[(h, p)] <= (oci.bound + Positions(oci'.last, 1, n))[(h, p)];
    }
  }

  lemma CallAccounted(tb: Table, sth: int32, dbh: nat, args: seq<string>, maxLong: nat)
    requires tb.Ok() && dbh < MAX_DB
    ensures Accounted(tb.oci, Open2(tb, sth, dbh, args, maxLong).tb.oci, |args|)
  {
    hide OpenNew, Launch, NewStatement, Encode, DecodeSlot, Positions, Preparing;
    var tb1 := tb.(oci := tb.oci.Rest(), status := tb.oci.Now().mode);
    if Resumes(tb, sth) {
      LaunchFrame(tb1.At(DecodeSlot(sth)), maxLong);
    } else if FirstFree(tb.slots) < |tb.slots| {
      NewStatementOutcome(tb1);
      var k := NewStatement(tb1);
      if k.status == SUCCESS {
        OpenNewOutcome(k, tb.oci.last + 1, args, maxLong);
        NewAccounted(tb.oci, OpenNew(k, args, maxLong).k.oci, |args|);
      }
    }
  }

  /** However often a statement is polled: every statement handle is prepared once and no argument of it is bound
      twice. */
  lemma {:induction false} PollAccounted(tb: Table, sth: int32, dbh: nat, args: seq<string>, maxLong: nat)
    requires tb.Ok() && dbh < MAX_DB
    ensures Accounted(tb.oci, PollOpen(tb, sth, dbh, args, maxLong).tb.oci, |args|)
    decreases |tb.oci.script|
  {
    hide Open2;
    CallAccounted(tb, sth, dbh, args, maxLong);
    var r := Open2(tb, sth, dbh, args, maxLong);
    if r.ret == STILL_EXECUTING {
      PollAccounted(r.tb, r.sth, dbh, args, maxLong);
    }
  }

  // -------------------------------------------------------------- the main results

  /** Non-blocking open, for every table with a free slot and every script of answers. Polling from
      SQLO_STH_INIT ends as the answers say: the first free slot is open, with all columns of a query or
      not, or free again, or taken though its statement is gone or still pending; or a slot is leaked. In
      every case each statement handle is prepared once, no argument is bound twice, and the slots in use
      before keep every field. */
  lemma NonBlockingOpen(tb: Table, dbh: nat, args: seq<string>, maxLong: nat)
    requires tb.Ok() && dbh < MAX_DB && FirstFree(tb.slots) < |tb.slots|
    ensures var i := FirstFree(tb.slots);
      var r := PollOpen(tb, STH_INIT, dbh, args, maxLong);
      && EndsAs(tb.slots, i, Nobody, dbh, r,
                Polling(tb.oci.script, |args|, tb.nonBlocking, StandingAt(tb, i, Nobody)), maxLong)
      && Accounted(tb.oci, r.tb.oci, |args|)
      && forall j :: 0 <= j < |tb.slots| && tb.slots[j].used ==>
           r.tb.slots[j] == tb.slots[j] && DecodeSlot(r.sth) != j
  {
    hide PollOpen, EndsAs, Polling, Accounted;
    var i := FirstFree(tb.slots);
    PollOutcome(tb, i, Nobody, STH_INIT, dbh, args, maxLong);
    PollAccounted(tb, STH_INIT, dbh, args, maxLong);
    InitNamesNothing();
    forall j | 0 <= j < |tb.slots| && tb.slots[j].used
      ensures var r := PollOpen(tb, STH_INIT, dbh, args, maxLong);
        r.tb.slots[j] == tb.slots[j] && DecodeSlot(r.sth) != j
    {
      LeftAlone(tb, STH_INIT, j, dbh, args, maxLong);
    }
  }

  /** One call on a query under way resumes it exactly when the mode read says non-blocking: the query is then
      executed once more. Otherwise the pending slot keeps every field: the call fails, or goes for another slot. */
  lemma ResumesExactly(tb: Table, i: nat, h: Handle, dbh: nat, args: seq<string>, maxLong: nat)
    requires tb.Ok() && i < |tb.slots| && dbh < MAX_DB && UnderWay(tb.slots[i], h) && h <= tb.oci.last
    requires tb.slots[i].numExecutions == 0 ==> tb.slots[i].defs.num == 0
    ensures var t := tb.oci.Now();
      var r := Open2(tb, Encode(i, dbh), dbh, args, maxLong);
      var resumes := (t.mode == SUCCESS && tb.nonBlocking) || (t.mode > 0 && t.value == SQLO_OFF);
      && (resumes <==> r.tb.oci.executed[h] == tb.oci.executed[h] + 1)
      && (!resumes ==> r.tb.slots[i] == tb.slots[i] && r.tb.oci.executed[h] == tb.oci.executed[h])
  {
    hide OpenInFreeSlot, Launch, Encode, DecodeSlot;
    RoundTrip(i, dbh);
    var tb1 := tb.(oci := tb.oci.Rest(), status := tb.oci.Now().mode);
    if tb.oci.Now().mode >= 0 {
      if ReadsNonBlocking(tb.oci.Now(), tb.nonBlocking) {
        LaunchExecutes(tb1.At(i), maxLong);
      } else {
        OtherExecutes(tb1, Encode(i, dbh), i, h, dbh, args, maxLong);
      }
    }
  }

  lemma OtherExecutes(tb: Table, sth: int32, i: nat, h: Handle, dbh: nat, args: seq<string>, maxLong: nat)
    requires tb.Ok() && i < |tb.slots| && dbh < MAX_DB && tb.slots[i].used && h <= tb.oci.last
    ensures var r := OpenInFreeSlot(tb, sth, dbh, args, maxLong);
      r.tb.slots[i] == tb.slots[i] && r.tb.oci.executed[h] == tb.oci.executed[h]
  {
    hide OpenNew, NewStatement, Opening, Came;
    if FirstFree(tb.slots) < |tb.slots| {
      NewOutcome(tb, sth, dbh, args, maxLong);
    }
  }

  /** Polling leaves a query that is under way pending for good exactly when the answers say so. */
  lemma StrandedExactly(tb: Table, i: nat, executed: bool, dbh: nat, args: seq<string>, maxLong: nat)
    requires tb.Ok() && dbh < MAX_DB && i < |tb.slots| && Stands(tb, i, Pending(executed), Encode(i, dbh), dbh)
    ensures var s := PollOpen(tb, Encode(i, dbh), dbh, args, maxLong).tb.slots[i];
      UnderWay(s, s.handle) <==> Strands(tb.oci.script, |args|, tb.nonBlocking, Second(tb.slots, i), executed)
  {
    hide PollOpen, Polling, Strands, Second, Encode;
    PollOutcome(tb, i, Pending(executed), Encode(i, dbh), dbh, args, maxLong);
    StrandsExactly(tb.oci.script, |args|, tb.nonBlocking, StandingAt(tb, i, Pending(executed)));
  }

  /** In non-blocking mode, polling a query under way that was never executed ends with it open and all its columns
      defined exactly when, after its first successful execution, the describing and defining calls succeed;
      if one of them is busy it may end open without them. */
  lemma PendingColumnsExactly(tb: Table, i: nat, dbh: nat, args: seq<string>, maxLong: nat)
    requires tb.Ok() && dbh < MAX_DB && i < |tb.slots| && Stands(tb, i, Pending(false), Encode(i, dbh), dbh)
    requires tb.nonBlocking && ModeReadable(tb.oci.script)
    ensures var k := PollOpen(tb, Encode(i, dbh), dbh, args, maxLong).tb.At(i);
      var f := FirstExecution(tb.oci.script);
      var d := DescribeReplies(f.rest);
      && (k.s.isOpen && AllDefined(k, maxLong) <==> f.status == SUCCESS && d.status == SUCCESS)
      && (k.s.isOpen && !AllDefined(k, maxLong) <==>
            f.status == SUCCESS && d.status == STILL_EXECUTING && FirstExecution(d.rest).status == SUCCESS)
  {
    hide PollOpen, Polling, DescribeReplies, FirstExecution, Second, Encode, AllDefined;
    PollOutcome(tb, i, Pending(false), Encode(i, dbh), dbh, args, maxLong);
    CompleteExactly(tb.oci.script, |args|, StandingAt(tb, i, Pending(false)));
    PendingOpens(tb.oci.script, |args|, StandingAt(tb, i, Pending(false)));
  }

  /** The first call that can read the mode takes slot `i` and leaves it in use or idle. */
  lemma {:induction false} LeavesIdle(tb: Table, dbh: nat, args: seq<string>, maxLong: nat)
    requires tb.Ok() && dbh < MAX_DB && FirstFree(tb.slots) < |tb.slots| && ModeReadable(tb.oci.script)
    ensures var i := FirstFree(tb.slots);
      var e := Polling(tb.oci.script, |args|, tb.nonBlocking, StandingAt(tb, i, Nobody));
      e.Ends? && e.held.Nobody? ==> PollOpen(tb, STH_INIT, dbh, args, maxLong).tb.slots[i].Idle()
    decreases |tb.oci.script|
  {
    hide Open2, Opening, PollMove, EndsAs, Second, Moves;
    var i := FirstFree(tb.slots);
    var r := Open2(tb, STH_INIT, dbh, args, maxLong);
    var m := PollMove(tb.oci.script, |args|, tb.nonBlocking, StandingAt(tb, i, Nobody));
    FirstCall(tb, dbh, args, maxLong);
    if m.Again? {
      if m.st.held.Nobody? {
        LeavesIdle(r.tb, dbh, args, maxLong);
      } else {
        PollOutcome(r.tb, i, m.st.held, r.sth, dbh, args, maxLong);
        LeavesUsedIdle(r.tb.slots, i, m.st.held, dbh, PollOpen(r.tb, r.sth, dbh, args, maxLong),
                       Polling(m.rest, |args|, tb.nonBlocking, m.st), maxLong);
      }
    }
  }

  lemma LeavesUsedIdle(slots: seq<State>, i: nat, held: Held, dbh: nat, r: Result, e: PollEnd, maxLong: nat)
    requires i < |slots| <= MAX_CURSORS && dbh < MAX_DB && EndsAs(slots, i, held, dbh, r, e, maxLong) && slots[i].used
    ensures e.Ends? && e.held.Nobody? ==> r.tb.slots[i].Idle()
  {
  }

  /** What the first call does, as polling sees it. */
  lemma FirstCall(tb: Table, dbh: nat, args: seq<string>, maxLong: nat)
    requires tb.Ok() && dbh < MAX_DB && FirstFree(tb.slots) < |tb.slots| && ModeReadable(tb.oci.script)
    ensures var i := FirstFree(tb.slots);
      var r := Open2(tb, STH_INIT, dbh, args, maxLong);
      match PollMove(tb.oci.script, |args|, tb.nonBlocking, StandingAt(tb, i, Nobody))
      case Over(e) => r.ret != STILL_EXECUTING && (e.Ends? && e.held.Nobody? ==> r.tb.slots[i].Idle())
      case Again(st, _, rest) =>
        && r.ret == STILL_EXECUTING && r.tb.Ok() && |r.tb.slots| == |tb.slots| && r.tb.nonBlocking == tb.nonBlocking
        && r.tb.oci.script == rest && ModeReadable(rest) && StandingAt(r.tb, i, st.held) == st
        && Stands(r.tb, i, st.held, r.sth, dbh) && (st.held.Nobody? || r.tb.slots[i].used)
  {
    hide Open2, Opening, EndsAs, Second, Stands, Tried, FirstFree, Encode;
    var i := FirstFree(tb.slots);
    StandsAtFirst(tb, dbh);
    CallMoves(tb, i, Nobody, STH_INIT, dbh, args, maxLong);
    var m := PollMove(tb.oci.script, |args|, tb.nonBlocking, StandingAt(tb, i, Nobody));
    var r := Open2(tb, STH_INIT, dbh, args, maxLong);
    if m.Over? {
      NewCall(tb, i, Nobody, STH_INIT, dbh, args, maxLong);
      EndsIdle(tb, i, STH_INIT, dbh, Opening(Tail(tb.oci.script), |args|, tb.slots[i].defs.num != 0), r, maxLong);
    } else {
      assert Within(m.rest, tb.oci.script);
      if !m.st.held.Nobody? {
        HeldIsUsed(r.tb, i, m.st.held, r.sth, dbh);
      }
    }
  }

  lemma StandsAtFirst(tb: Table, dbh: nat)
    requires FirstFree(tb.slots) < |tb.slots| <= MAX_CURSORS && dbh < MAX_DB
    ensures Stands(tb, FirstFree(tb.slots), Nobody, STH_INIT, dbh)
  {
  }

  lemma EndsIdle(tb: Table, i: nat, sth: int32, dbh: nat, a: Attempt, r: Result, maxLong: nat)
    requires i < |tb.slots| <= MAX_CURSORS && dbh < MAX_DB && Tried(tb, i, sth, dbh, a, r, maxLong)
    ensures a.Refuses? || a.Returns? ==> r.tb.slots[i].Idle()
    ensures a.Ret() != STILL_EXECUTING ==> r.ret != STILL_EXECUTING
  {
    hide Came;
    CameHeld(tb.oci.last + 1, a, r.tb.At(i), maxLong);
  }

  // ---------------------------------------------------------- one statement only

  /** Every argument is bound once on handle `h`, in its position. */
  ghost predicate BoundOnce(oci: Oracle, oci': Oracle, h: Handle, n: nat) {
    oci.last < h && forall p: nat :: oci'.bound[(h, p)] == oci.bound[(h, p)] + (if 1 <= p <= n then 1 else 0)
  }

  /** An attempt takes a handle exactly when its allocation is accepted; when its statement runs or is open, every
      argument is bound once. */
  lemma AttemptAsks(tb: Table, sth: int32, dbh: nat, args: seq<string>, maxLong: nat)
    requires tb.Ok() && dbh < MAX_DB && FirstFree(tb.slots) < |tb.slots|
    ensures var r := OpenInFreeSlot(tb, sth, dbh, args, maxLong).tb;
      var a := Opening(tb.oci.script, |args|, tb.slots[FirstFree(tb.slots)].defs.num != 0);
      && r.oci.last == tb.oci.last + (if tb.oci.Now().alloc == SUCCESS then 1 else 0)
      && (a.Pends? || a.Opens? ==>
            && BoundOnce(tb.oci, r.oci, tb.oci.last + 1, |args|)
            && Filled(r.slots[FirstFree(tb.slots)].binds, BindAnswers(Tail(tb.oci.script)), args, 0))
  {
    hide OpenNew, Preparing, NewStatement, Positions, Came, BoundOnce, Filled;
    NewStatementOutcome(tb);
    var k := NewStatement(tb);
    if k.status == SUCCESS {
      OpenNewOutcome(k, tb.oci.last + 1, args, maxLong);
      var a := Preparing(k.oci.script, |args|, k.s.defs.num != 0);
      if a.Pends? || a.Opens? {
        AllBoundOnce(tb.oci, OpenNew(k, args, maxLong).k.oci, tb.oci.last + 1, |args|);
      }
    }
  }

  lemma AllBoundOnce(oci: Oracle, oci': Oracle, h: Handle, n: nat)
    requires oci.last < h && oci'.bound == oci.bound + Positions(h, 1, n)
    ensures BoundOnce(oci, oci', h, n)
  {
    forall p: nat
      ensures oci'.bound[(h, p)] == oci.bound[(h, p)] + (if 1 <= p <= n then 1 else 0)
    {
      PositionsOnce(h, 1, n, h, p);
    }
  }

  /** In non-blocking mode, polling a query under way prepares and binds nothing. */
  lemma {:induction false} PendingAsksNothing(tb: Table, i: nat, executed: bool, dbh: nat, args: seq<string>,
                                              maxLong: nat)
    requires tb.Ok() && dbh < MAX_DB && i < |tb.slots| && Stands(tb, i, Pending(executed), Encode(i, dbh), dbh)
    requires tb.nonBlocking && ModeReadable(tb.oci.script)
    ensures var oci := PollOpen(tb, Encode(i, dbh), dbh, args, maxLong).tb.oci;
      && oci.last == tb.oci.last && oci.prepared == tb.oci.prepared && oci.bound == tb.oci.bound
      && SameHandle(tb.slots[i], PollOpen(tb, Encode(i, dbh), dbh, args, maxLong).tb.slots[i])
    decreases |tb.oci.script|
  {
    hide Moves, Launches, Opening, Stands, Second, Encode, UnderWay, Paused, Came;
    PendingStep(tb, i, executed, dbh, args, maxLong);
    var r := Open2(tb, Encode(i, dbh), dbh, args, maxLong);
    if r.ret == STILL_EXECUTING {
      var m := PollMove(tb.oci.script, |args|, true, StandingAt(tb, i, Pending(executed)));
      PendingAsksNothing(r.tb, i, m.st.held.executed, dbh, args, maxLong);
    }
  }

  lemma PendingStep(tb: Table, i: nat, executed: bool, dbh: nat, args: seq<string>, maxLong: nat)
    requires tb.Ok() && dbh < MAX_DB && i < |tb.slots| && Stands(tb, i, Pending(executed), Encode(i, dbh), dbh)
    requires tb.nonBlocking && ModeReadable(tb.oci.script)
    ensures var r := Open2(tb, Encode(i, dbh), dbh, args, maxLong);
      var m := PollMove(tb.oci.script, |args|, true, StandingAt(tb, i, Pending(executed)));
      && r.tb.oci.last == tb.oci.last && r.tb.oci.prepared == tb.oci.prepared && r.tb.oci.bound == tb.oci.bound
      && SameHandle(tb.slots[i], r.tb.slots[i])
      && (r.ret == STILL_EXECUTING ==>
            && m.Again? && r.tb.slots[i].handle == tb.slots[i].handle && r.tb.slots[i].binds == tb.slots[i].binds
            && m.st.held.Pending? && r.sth == Encode(i, dbh)
            && r.tb.nonBlocking && ModeReadable(r.tb.oci.script)
            && Stands(r.tb, i, m.st.held, Encode(i, dbh), dbh))
  {
    hide Launches, Opening, Second, Encode, Came, EndsAs, UnderWay, Paused, Launch, Reopen, OpenInFreeSlot;
    CallMoves(tb, i, Pending(executed), Encode(i, dbh), dbh, args, maxLong);
    if tb.oci.Now().mode == SUCCESS {
      ResumingCall(tb, i, executed, dbh, args, maxLong);
      CameSame(tb.slots[i].handle, Launches(Tail(tb.oci.script), executed),
               Open2(tb, Encode(i, dbh), dbh, args, maxLong).tb.At(i), maxLong);
    }
  }

  /** If the slot is open at the end, it is on the handle it was on, with what was bound. */
  ghost predicate SameHandle(s: State, s': State) {
    s'.isOpen ==> s'.handle == s.handle && s'.binds == s.binds
  }

  lemma CameSame(h: Handle, a: Attempt, k: Cursor, maxLong: nat)
    requires k.Ok() && Came(h, a, k, maxLong)
    ensures (k.s.isOpen ==> a.Opens?) && (a.Pends? || a.Opens? ==> k.s.handle == h)
  {
    hide AllDefined, Paused;
  }

  /** In non-blocking mode, polling a statement to the end from SQLO_STH_INIT, in a slot without leftover
      defines, leaves a query open with all its columns defined exactly when its first execution that is
      not busy succeeds and the describing and defining calls after it do. If one of those is busy the
      query is executed again, and may end open without its columns. */
  lemma AllColumnsExactly(tb: Table, dbh: nat, args: seq<string>, maxLong: nat)
    requires tb.Ok() && dbh < MAX_DB && FirstFree(tb.slots) < |tb.slots| && tb.slots[FirstFree(tb.slots)].defs.num == 0
    requires tb.nonBlocking && ModeReadable(tb.oci.script)
    ensures var k := PollOpen(tb, STH_INIT, dbh, args, maxLong).tb.At(FirstFree(tb.slots));
      var query := k.s.isOpen && k.s.IsQuery();
      var l := ToLaunch(tb.oci.script, |args|);
      if l.None? then !query
      else
        var f := Executing(l.value);
        var d := DescribeReplies(f.rest);
        && (query && AllDefined(k, maxLong) <==> f.status == SUCCESS && d.status == SUCCESS)
        && (query && !AllDefined(k, maxLong) <==>
              f.status == SUCCESS && d.status == STILL_EXECUTING && FirstExecution(d.rest).status == SUCCESS)
  {
    hide PollOpen, Polling, DescribeReplies, FirstExecution, Executing, ToLaunch, Second, Encode, AllDefined;
    var i := FirstFree(tb.slots);
    PollOutcome(tb, i, Nobody, STH_INIT, dbh, args, maxLong);
    OpensCompletely(tb.oci.script, |args|, Second(tb.slots, i));
    LeavesIdle(tb, dbh, args, maxLong);
  }

  /** In non-blocking mode, polling a statement from SQLO_STH_INIT through any number of STILL_EXECUTING replies:
      the text is prepared no more than once exactly when no attempt had to give up a handle it had and
      got another; unless a close was refused, one slot is touched, open if the last attempt opened it
      and else free; and an open statement has every argument bound once on its handle. */
  lemma OneStatement(tb: Table, dbh: nat, args: seq<string>, maxLong: nat)
    requires tb.Ok() && dbh < MAX_DB && FirstFree(tb.slots) < |tb.slots|
    requires tb.nonBlocking && ModeReadable(tb.oci.script)
    ensures var i := FirstFree(tb.slots);
      var stale := tb.slots[i].defs.num != 0;
      var a := LastTry(tb.oci.script, |args|, stale);
      var r := PollOpen(tb, STH_INIT, dbh, args, maxLong);
      && Accounted(tb.oci, r.tb.oci, |args|)
      && (r.tb.oci.last <= tb.oci.last + 1 <==> PreparesOnce(tb.oci.script, |args|, stale, Second(tb.slots, i)))
      && (!a.Loses? && !a.LosesBusy? ==>
            && r.tb.slots == tb.slots[i := r.tb.slots[i]] && r.ret == a.Ret()
            && (r.tb.slots[i].used <==> a.Opens?)
            && (r.ret == SUCCESS && !r.tb.slots[i].used <==> a.Returns?))
      && (a.Opens? ==>
            && r.tb.slots[i].isOpen && BoundOnce(tb.oci, r.tb.oci, r.tb.slots[i].handle, |args|)
            && Filled(r.tb.slots[i].binds, LastBinding(tb.oci.script, |args|, stale), args, 0))
  {
    hide PollOpen, LastTry, PreparesOnce, Accounted, Second, BoundOnce, Filled, LastBinding;
    PollAccounted(tb, STH_INIT, dbh, args, maxLong);
    PreparedOnce(tb, dbh, args, maxLong);
    OneSlot(tb, dbh, args, maxLong);
    if LastTry(tb.oci.script, |args|, tb.slots[FirstFree(tb.slots)].defs.num != 0).Opens? {
      OpenIsBound(tb, dbh, args, maxLong);
    }
  }

  lemma OneSlot(tb: Table, dbh: nat, args: seq<string>, maxLong: nat)
    requires tb.Ok() && dbh < MAX_DB && FirstFree(tb.slots) < |tb.slots|
    requires tb.nonBlocking && ModeReadable(tb.oci.script)
    ensures var i := FirstFree(tb.slots);
      var a := LastTry(tb.oci.script, |args|, tb.slots[i].defs.num != 0);
      var r := PollOpen(tb, STH_INIT, dbh, args, maxLong);
      && (!a.Loses? && !a.LosesBusy? ==>
            && r.tb.slots == tb.slots[i := r.tb.slots[i]] && r.ret == a.Ret()
            && (r.tb.slots[i].used <==> a.Opens?) && (r.ret == SUCCESS <==> a.Opens? || a.Returns?))
      && (a.Opens? ==> r.tb.slots[i].isOpen)
  {
    hide PollOpen, Polling, LastTry, Second, AllDefined, Encode;
    var i := FirstFree(tb.slots);
    StandsAtFirst(tb, dbh);
    PollOutcome(tb, i, Nobody, STH_INIT, dbh, args, maxLong);
    EndsAsLastTry(tb.oci.script, |args|, tb.slots[i].defs.num != 0, Second(tb.slots, i));
  }

  /** A call that does not resume takes a handle exactly when its allocation is accepted. */
  lemma CallAsks(tb: Table, i: nat, held: Held, sth: int32, dbh: nat, args: seq<string>, maxLong: nat)
    requires tb.Ok() && dbh < MAX_DB && i < |tb.slots| && Stands(tb, i, held, sth, dbh) && !held.Pending?
    requires tb.oci.Now().mode >= 0 && FirstFree(tb.slots) < |tb.slots|
    ensures var r := Open2(tb, sth, dbh, args, maxLong).tb;
      var a := Opening(Tail(tb.oci.script), |args|, tb.slots[FirstFree(tb.slots)].defs.num != 0);
      && r.oci.last == tb.oci.last + (if Next(Tail(tb.oci.script)).alloc == SUCCESS then 1 else 0)
      && (a.Pends? || a.Opens? ==>
            && BoundOnce(tb.oci, r.oci, tb.oci.last + 1, |args|)
            && Filled(r.slots[FirstFree(tb.slots)].binds, BindAnswers(Tail(Tail(tb.oci.script))), args, 0))
  {
    hide Filled, OpenInFreeSlot, Open2, Opening, Tried, Stands, Second;
    NewCall(tb, i, held, sth, dbh, args, maxLong);
    AttemptAsks(tb.(oci := tb.oci.Rest(), status := tb.oci.Now().mode), sth, dbh, args, maxLong);
  }

  /** Polling on with a handle that names nothing, or a slot whose statement is gone, takes no handle exactly when
      there is no other slot or no allocation is accepted. */
  lemma {:induction false} NoMoreHandles(tb: Table, i: nat, held: Held, sth: int32, dbh: nat, args: seq<string>,
                                         maxLong: nat)
    requires tb.Ok() && dbh < MAX_DB && i < |tb.slots| && Stands(tb, i, held, sth, dbh) && ModeReadable(tb.oci.script)
    requires held.Nobody? || held.Stripped?
    ensures PollOpen(tb, sth, dbh, args, maxLong).tb.oci.last == tb.oci.last <==>
      (held.Stripped? && Second(tb.slots, i).None?) || AllocatesNoMore(tb.oci.script)
    decreases |tb.oci.script|
  {
    hide Open2, Opening, Stands, EndsAs, Second, Encode;
    var r := Open2(tb, sth, dbh, args, maxLong);
    if tb.oci.Now().mode == STILL_EXECUTING {
      ModeIsBusy(tb, sth, dbh, args, maxLong);
      StandsOn(tb, r.tb, i, held, sth, dbh);
      NoMoreHandles(r.tb, i, held, sth, dbh, args, maxLong);
    } else {
      AnotherCall(tb, i, held, sth, dbh, args, maxLong);
      if r.ret == STILL_EXECUTING {
        PollAccounted(r.tb, r.sth, dbh, args, maxLong);
        if Next(Tail(tb.oci.script)).alloc != SUCCESS {
          NoMoreHandles(r.tb, i, held, r.sth, dbh, args, maxLong);
        }
      }
    }
  }

  lemma StandsOn(tb: Table, tb1: Table, i: nat, held: Held, sth: int32, dbh: nat)
    requires i < |tb.slots| <= MAX_CURSORS && dbh < MAX_DB && (held.Nobody? || held.Stripped?)
    requires tb1.slots == tb.slots && Stands(tb, i, held, sth, dbh)
    ensures Stands(tb1, i, held, sth, dbh)
  {
  }

  lemma AnotherCall(tb: Table, i: nat, held: Held, sth: int32, dbh: nat, args: seq<string>, maxLong: nat)
    requires tb.Ok() && dbh < MAX_DB && i < |tb.slots| && Stands(tb, i, held, sth, dbh) && ModeReadable(tb.oci.script)
    requires (held.Nobody? || held.Stripped?) && tb.oci.Now().mode == SUCCESS
    ensures var r := Open2(tb, sth, dbh, args, maxLong);
      var alloc := Next(Tail(tb.oci.script)).alloc;
      if held.Stripped? && Second(tb.slots, i).None? then r.ret != STILL_EXECUTING && r.tb.oci.last == tb.oci.last
      else
        && r.tb.oci.last == tb.oci.last + (if alloc == SUCCESS then 1 else 0)
        && (alloc != SUCCESS ==> (r.ret == STILL_EXECUTING <==> alloc == STILL_EXECUTING))
        && (alloc == STILL_EXECUTING ==>
              && r.tb.oci.script == Tail(Tail(tb.oci.script)) && ModeReadable(r.tb.oci.script)
              && |r.tb.slots| == |tb.slots| && Stands(r.tb, i, held, r.sth, dbh)
              && Second(r.tb.slots, i).None? == Second(tb.slots, i).None?)
  {
    hide Opening, EndsAs, Encode, Stands, FirstFree, OpenInFreeSlot, Open2;
    CallMoves(tb, i, held, sth, dbh, args, maxLong);
    SecondOf(tb.slots, i, tb.slots[i]);
    if held.Stripped? {
      HeldIsUsed(tb, i, held, sth, dbh);
    } else {
      NobodyIsInit(tb, i, sth, dbh);
    }
    if FirstFree(tb.slots) < |tb.slots| {
      CallAsks(tb, i, held, sth, dbh, args, maxLong);
      AllocationDecides(Tail(tb.oci.script), |args|, tb.slots[FirstFree(tb.slots)].defs.num != 0);
    } else {
      NoSlotTaken(tb, i, held, sth, dbh, args, maxLong);
    }
  }

  lemma NoSlotTaken(tb: Table, i: nat, held: Held, sth: int32, dbh: nat, args: seq<string>, maxLong: nat)
    requires tb.Ok() && dbh < MAX_DB && i < |tb.slots| && Stands(tb, i, held, sth, dbh) && !held.Pending?
    requires tb.oci.Now().mode == SUCCESS && FirstFree(tb.slots) == |tb.slots|
    ensures Open2(tb, sth, dbh, args, maxLong).tb.oci.last == tb.oci.last
  {
    hide Open2, Stands;
    NewCall(tb, i, held, sth, dbh, args, maxLong);
  }

  lemma {:induction false} PreparedOnce(tb: Table, dbh: nat, args: seq<string>, maxLong: nat)
    requires tb.Ok() && dbh < MAX_DB && FirstFree(tb.slots) < |tb.slots|
    requires tb.nonBlocking && ModeReadable(tb.oci.script)
    ensures var i := FirstFree(tb.slots);
      PollOpen(tb, STH_INIT, dbh, args, maxLong).tb.oci.last <= tb.oci.last + 1 <==>
        PreparesOnce(tb.oci.script, |args|, tb.slots[i].defs.num != 0, Second(tb.slots, i))
    decreases |tb.oci.script|
  {
    hide Opening, EndsAs, Encode, Stands, Second, Tried, FirstFree, OpenInFreeSlot, Open2, AllocatesNoMore;
    var i := FirstFree(tb.slots);
    FirstCall(tb, dbh, args, maxLong);
    var r := Open2(tb, STH_INIT, dbh, args, maxLong);
    if tb.oci.Now().mode == STILL_EXECUTING {
      ModeIsBusy(tb, STH_INIT, dbh, args, maxLong);
      PreparedOnce(r.tb, dbh, args, maxLong);
    } else {
      var a := Opening(Tail(tb.oci.script), |args|, tb.slots[i].defs.num != 0);
      StandsAtFirst(tb, dbh);
      CallAsks(tb, i, Nobody, STH_INIT, dbh, args, maxLong);
      NewCall(tb, i, Nobody, STH_INIT, dbh, args, maxLong);
      AttemptSays(tb, i, STH_INIT, dbh, a, r, maxLong);
      AllocationDecides(Tail(tb.oci.script), |args|, tb.slots[i].defs.num != 0);
      if r.ret == STILL_EXECUTING {
        PollAccounted(r.tb, r.sth, dbh, args, maxLong);
      }
      match a
      case Bounces(closed, _) =>
        NobodyIsInit(r.tb, i, r.sth, dbh);
        if closed {
          NoMoreHandles(r.tb, i, Nobody, STH_INIT, dbh, args, maxLong);
        } else {
          PreparedOnce(r.tb, dbh, args, maxLong);
        }
      case LosesBusy(query, _) => NoMoreHandles(r.tb, i, Stripped(query), r.sth, dbh, args, maxLong);
      case Pends(executed, _) => PendingAsksNothing(r.tb, i, executed, dbh, args, maxLong);
      case _ =>
    }
  }

  lemma ModeIsBusy(tb: Table, sth: int32, dbh: nat, args: seq<string>, maxLong: nat)
    requires tb.Ok() && dbh < MAX_DB && tb.oci.Now().mode == STILL_EXECUTING
    ensures var r := Open2(tb, sth, dbh, args, maxLong);
      && r.ret == STILL_EXECUTING && r.sth == sth && r.tb.oci == tb.oci.Rest() && r.tb.slots == tb.slots
      && r.tb.nonBlocking == tb.nonBlocking
  {
    hide OpenInFreeSlot, Reopen;
  }

  lemma NobodyIsInit(tb: Table, i: nat, sth: int32, dbh: nat)
    requires i < |tb.slots| <= MAX_CURSORS && dbh < MAX_DB && Stands(tb, i, Nobody, sth, dbh)
    ensures sth == STH_INIT && FirstFree(tb.slots) == i
  {
  }

  lemma AttemptSays(tb: Table, i: nat, sth: int32, dbh: nat, a: Attempt, r: Result, maxLong: nat)
    requires i < |tb.slots| <= MAX_CURSORS && dbh < MAX_DB && Tried(tb, i, sth, dbh, a, r, maxLong)
    ensures r.ret == a.Ret() && r.tb.nonBlocking == tb.nonBlocking && (a.Named() ==> r.sth == Encode(i, dbh))
    ensures a.Pends? || a.Opens? ==> r.tb.slots[i].handle == tb.oci.last + 1
  {
    hide Came;
    CameSame(tb.oci.last + 1, a, r.tb.At(i), maxLong);
  }

  lemma {:induction false} OpenIsBound(tb: Table, dbh: nat, args: seq<string>, maxLong: nat)
    requires tb.Ok() && dbh < MAX_DB && FirstFree(tb.slots) < |tb.slots|
    requires tb.nonBlocking && ModeReadable(tb.oci.script)
    requires LastTry(tb.oci.script, |args|, tb.slots[FirstFree(tb.slots)].defs.num != 0).Opens?
    ensures var r := PollOpen(tb, STH_INIT, dbh, args, maxLong);
      var i := FirstFree(tb.slots);
      && BoundOnce(tb.oci, r.tb.oci, r.tb.slots[i].handle, |args|)
      && Filled(r.tb.slots[i].binds, LastBinding(tb.oci.script, |args|, tb.slots[i].defs.num != 0), args, 0)
    decreases |tb.oci.script|
  {
    hide Opening, EndsAs, Encode, Stands, Second, Tried, FirstFree, OpenInFreeSlot, Open2, BoundOnce, Accounted, Filled;
    var i := FirstFree(tb.slots);
    FirstCall(tb, dbh, args, maxLong);
    OneSlot(tb, dbh, args, maxLong);
    var r := Open2(tb, STH_INIT, dbh, args, maxLong);
    var r' := PollOpen(tb, STH_INIT, dbh, args, maxLong);
    CallAccounted(tb, STH_INIT, dbh, args, maxLong);
    if tb.oci.Now().mode == STILL_EXECUTING {
      ModeIsBusy(tb, STH_INIT, dbh, args, maxLong);
      OpenIsBound(r.tb, dbh, args, maxLong);
      BoundBefore(tb.oci, r.tb.oci, r'.tb.oci, r'.tb.slots[i].handle, |args|);
    } else {
      var a := Opening(Tail(tb.oci.script), |args|, tb.slots[i].defs.num != 0);
      StandsAtFirst(tb, dbh);
      CallAsks(tb, i, Nobody, STH_INIT, dbh, args, maxLong);
      NewCall(tb, i, Nobody, STH_INIT, dbh, args, maxLong);
      AttemptSays(tb, i, STH_INIT, dbh, a, r, maxLong);
      if a.Bounces? {
        NobodyIsInit(r.tb, i, r.sth, dbh);
        OpenIsBound(r.tb, dbh, args, maxLong);
        BoundBefore(tb.oci, r.tb.oci, r'.tb.oci, r'.tb.slots[i].handle, |args|);
      } else if a.Pends? {
        PendingAsksNothing(r.tb, i, a.executed, dbh, args, maxLong);
        BoundAfter(tb.oci, r.tb.oci, r'.tb.oci, tb.oci.last + 1, |args|);
      }
    }
  }

  /** What a call before binds is not bound on a later handle. */
  lemma BoundBefore(oci: Oracle, oci1: Oracle, oci': Oracle, h: Handle, n: nat)
    requires Accounted(oci, oci1, n) && BoundOnce(oci1, oci', h, n)
    ensures BoundOnce(oci, oci', h, n)
  {
  }

  lemma BoundAfter(oci: Oracle, oci1: Oracle, oci': Oracle, h: Handle, n: nat)
    requires BoundOnce(oci, oci1, h, n) && oci'.bound == oci1.bound
    ensures BoundOnce(oci, oci', h, n)
  {
  }

  // ------------------------------------------------------------------ sqlo_run

  /** Some slot that was free is taken. */
  ghost predicate Taken(slots: seq<State>, slots': seq<State>) {
    |slots'| == |slots| && exists j :: 0 <= j < |slots| && !slots[j].used && slots'[j].used
  }

  /** `sqlo_run` and the statement slots, for every table with a free slot and every script of answers:
      the slots in use before keep every field, and a slot is left taken exactly when the answers say so:
      a close of a failed `_sqlo_reopen` or the final close met a refusal that nobody repeated, or polling
      left a statement behind. */
  lemma RunOutcome(tb: Table, dbh: nat, args: seq<string>, maxLong: nat)
    requires tb.Ok() && dbh < MAX_DB && FirstFree(tb.slots) < |tb.slots|
    ensures var r := RunStatement(tb, dbh, args, maxLong).0;
      var i := FirstFree(tb.slots);
      && (forall j :: 0 <= j < |tb.slots| && tb.slots[j].used ==> r.slots[j] == tb.slots[j])
      && (Taken(tb.slots, r.slots) <==>
            RunLoses(Polling(tb.oci.script, |args|, tb.nonBlocking, StandingAt(tb, i, Nobody))))
  {
    hide PollOpen, Polling, Second, Finish, EndsAs, DecodeSlot, DecodeDbh, Accounted, RunLoses, Taken;
    NonBlockingOpen(tb, dbh, args, maxLong);
    var i := FirstFree(tb.slots);
    var r := PollOpen(tb, STH_INIT, dbh, args, maxLong);
    var e := Polling(tb.oci.script, |args|, tb.nonBlocking, StandingAt(tb, i, Nobody));
    if e.Leaks? {
      RunLeaks(tb, i, dbh, r, args, maxLong);
    } else {
      RunEnds(tb, i, dbh, r, e, args, maxLong);
    }
  }

  lemma RunLeaks(tb: Table, i: nat, dbh: nat, r: Result, args: seq<string>, maxLong: nat)
    requires tb.Ok() && dbh < MAX_DB && i == FirstFree(tb.slots) < |tb.slots|
      && r == PollOpen(tb, STH_INIT, dbh, args, maxLong)
    requires EndsAs(tb.slots, i, Nobody, dbh, r, Leaks, maxLong)
    ensures Taken(tb.slots, RunStatement(tb, dbh, args, maxLong).0.slots)
    ensures RunLoses(Leaks)
  {
    hide PollOpen, Finish, DecodeSlot, DecodeDbh;
    var j :| 0 <= j < |tb.slots| && LeakedAt(tb.slots, i, r, j);
    assert RunStatement(tb, dbh, args, maxLong).0.slots[j].used;
  }

  lemma RunEnds(tb: Table, i: nat, dbh: nat, r: Result, e: PollEnd, args: seq<string>, maxLong: nat)
    requires tb.Ok() && dbh < MAX_DB && i == FirstFree(tb.slots) < |tb.slots|
      && r == PollOpen(tb, STH_INIT, dbh, args, maxLong)
    requires e.Ends? && EndsAs(tb.slots, i, Nobody, dbh, r, e, maxLong)
    ensures var slots := RunStatement(tb, dbh, args, maxLong).0.slots;
      && (Taken(tb.slots, slots) <==> RunLoses(e))
      && (RunLoses(e) <==> slots[i].used) && OthersKept(tb.slots, slots, i)
      && (e.alone ==> slots == tb.slots[i := slots[i]])
  {
    hide PollOpen, Finish, DecodeSlot, DecodeDbh, AllDefined, FinalFree, Encode, FirstFree;
    RoundTrip(i, dbh);
    RejectedRange(STH_INIT);
    HeldFinishes(r.tb.At(i), e.held, maxLong);
    var slots := RunStatement(tb, dbh, args, maxLong).0.slots;
    assert OthersKept(tb.slots, slots, i);
    assert slots[i].used ==> !tb.slots[i].used;
  }

  /** What becomes of the slot the handle names. */
  lemma HeldFinishes(k: Cursor, held: Held, maxLong: nat)
    requires k.Ok() && HeldSlot(held, k, maxLong)
    ensures k.s.used <==> !held.Nobody?
    ensures held.Stripped? ==> !Finish(k, maxLong).0.s.used
    ensures held.Open? || held.Pending? ==>
      (Finish(k, maxLong).0.s.used <==>
         FinalFree(k.oci.script, held) != SUCCESS && FinalFree(k.oci.script, held) != STILL_EXECUTING)
  {
    hide Finish, Fetching, AllDefined;
    if k.s.used {
      FinishLoses(k, maxLong);
    }
  }

  /** Freeing a statement handle is accepted or busy. */
  ghost predicate FreesEventually(script: seq<Turn>) {
    forall t <- script :: t.free == SUCCESS || t.free == STILL_EXECUTING
  }

  lemma FinalFreeWithin(script: seq<Turn>, held: Held)
    requires FreesEventually(script) && (held.Open? || held.Pending?)
    ensures FinalFree(script, held) == SUCCESS || FinalFree(script, held) == STILL_EXECUTING
  {
    var query := held.Pending? || held.query;
    FetchingWithin(script, query);
    var f := Fetching(script, query);
    assert Within(Tail(f.rest), f.rest);
  }

  lemma {:induction false} FetchingWithin(script: seq<Turn>, query: bool)
    ensures Within(Fetching(script, query).rest, script)
    decreases |script|
  {
    if (if query then Next(script).fetch else Next(script).execute) == STILL_EXECUTING {
      FetchingWithin(Tail(script), query);
    }
  }

  /** When freeing handles eventually succeeds the final close of `sqlo_run` loses nothing. A slot is then
      left taken only by the opening phase: the one close of a failed `_sqlo_reopen`, which nobody
      repeats, was busy and the run ended in an error, or polling left a statement behind. */
  lemma RunLosesInOpening(tb: Table, dbh: nat, args: seq<string>, maxLong: nat)
    requires tb.Ok() && dbh < MAX_DB && FirstFree(tb.slots) < |tb.slots| && FreesEventually(tb.oci.script)
    ensures var r := RunStatement(tb, dbh, args, maxLong).0;
      var e := Polling(tb.oci.script, |args|, tb.nonBlocking, StandingAt(tb, FirstFree(tb.slots), Nobody));
      Taken(tb.slots, r.slots) <==> e.Leaks? || (e.status < 0 && !e.held.Nobody?)
  {
    hide RunStatement, Polling, Second, Taken, FinalFree;
    RunOutcome(tb, dbh, args, maxLong);
    var st := StandingAt(tb, FirstFree(tb.slots), Nobody);
    var e := Polling(tb.oci.script, |args|, tb.nonBlocking, st);
    if e.Ends? {
      assert FreesEventually(e.rest);
      if e.held.Open? || e.held.Pending? {
        FinalFreeWithin(e.rest, e.held);
      }
    }
  }

  /** The exact condition in non-blocking mode, on the replies: a slot is lost when a close in
      `_sqlo_reopen` cost it, or when the statement was opened and its final close was refused for good. */
  lemma RunLosesExactly(tb: Table, dbh: nat, args: seq<string>, maxLong: nat)
    requires tb.Ok() && dbh < MAX_DB && FirstFree(tb.slots) < |tb.slots|
    requires tb.nonBlocking && ModeReadable(tb.oci.script)
    ensures var i := FirstFree(tb.slots);
      var stale := tb.slots[i].defs.num != 0;
      var a := LastTry(tb.oci.script, |args|, stale);
      Taken(tb.slots, RunStatement(tb, dbh, args, maxLong).0.slots) <==>
        || ReopenLoses(tb.oci.script, |args|, stale, Second(tb.slots, i))
        || (a.Opens? && FinalFree(a.rest, Open(a.query, a.complete)) != SUCCESS
            && FinalFree(a.rest, Open(a.query, a.complete)) != STILL_EXECUTING)
  {
    hide RunStatement, Polling, Second, Taken, FinalFree, LastTry, ReopenLoses;
    RunOutcome(tb, dbh, args, maxLong);
    var i := FirstFree(tb.slots);
    EndsAsLastTry(tb.oci.script, |args|, tb.slots[i].defs.num != 0, Second(tb.slots, i));
    LosesExactly(tb.oci.script, |args|, tb.slots[i].defs.num != 0, Second(tb.slots, i));
  }

  /** `sqlo_run` conserves slots: whatever opening, binding, fetching and counting reply, and however often they are
      STILL_EXECUTING, with handle frees accepted every slot but the first free one is untouched and that one is
      idle again. */
  lemma RunConservesSlots(tb: Table, dbh: nat, args: seq<string>, maxLong: nat)
    requires tb.Ok() && dbh < MAX_DB
    requires FreesSucceed(tb.oci.script) && ModeReadable(tb.oci.script) && (tb.nonBlocking || NeverBusy(tb.oci.script))
    ensures var r := RunStatement(tb, dbh, args, maxLong).0;
      var i := FirstFree(tb.slots);
      if i == |tb.slots| then r.slots == tb.slots
      else r.slots == tb.slots[i := r.slots[i]] && r.slots[i].Idle()
  {
    hide PollOpen, Polling, Second, Finish, EndsAs, Encode, FirstFree;
    var i := FirstFree(tb.slots);
    if i == |tb.slots| {
      NoneFree(tb, dbh, args, maxLong);
    } else {
      StandsAtFirst(tb, dbh);
      PollOutcome(tb, i, Nobody, STH_INIT, dbh, args, maxLong);
      NothingLost(tb.oci.script, |args|, tb.nonBlocking, StandingAt(tb, i, Nobody));
      LeavesIdle(tb, dbh, args, maxLong);
      var e := Polling(tb.oci.script, |args|, tb.nonBlocking, StandingAt(tb, i, Nobody));
      var r := PollOpen(tb, STH_INIT, dbh, args, maxLong);
      RunReleases(tb, i, dbh, r, e, args, maxLong);
    }
  }

  lemma RunReleases(tb: Table, i: nat, dbh: nat, r: Result, e: PollEnd, args: seq<string>, maxLong: nat)
    requires tb.Ok() && dbh < MAX_DB && i == FirstFree(tb.slots) < |tb.slots|
      && r == PollOpen(tb, STH_INIT, dbh, args, maxLong)
    requires e.Ends? && EndsAs(tb.slots, i, Nobody, dbh, r, e, maxLong) && e.alone && FreesSucceed(tb.oci.script)
    requires if e.held.Nobody? then r.tb.slots[i].Idle() else e.held.Open? && e.status == SUCCESS
    ensures var slots := RunStatement(tb, dbh, args, maxLong).0.slots;
      slots == tb.slots[i := slots[i]] && slots[i].Idle()
  {
    hide PollOpen, Finish, Encode, DecodeSlot, DecodeDbh, FinalFree, AllDefined, FirstFree;
    RunEnds(tb, i, dbh, r, e, args, maxLong);
    RoundTrip(i, dbh);
    RejectedRange(STH_INIT);
    if e.held.Open? {
      FinalFreeWithin(r.tb.oci.script, e.held);
      FinishKeeps(r.tb.At(i), maxLong);
    }
  }

  /** In a table without a free slot nothing happens. */
  lemma {:induction false} NoneFree(tb: Table, dbh: nat, args: seq<string>, maxLong: nat)
    requires tb.Ok() && dbh < MAX_DB && FirstFree(tb.slots) == |tb.slots|
    ensures var r := PollOpen(tb, STH_INIT, dbh, args, maxLong); r.tb.slots == tb.slots && r.ret < 0
    decreases |tb.oci.script|
  {
    if tb.oci.Now().mode == STILL_EXECUTING {
      NoneFree(Open2(tb, STH_INIT, dbh, args, maxLong).tb, dbh, args, maxLong);
    }
  }

  // ---------------------------------------------------- what the caller is told

  /** Of each free slot, in order, whether it still holds defines. */
  function Frees(slots: seq<State>): seq<bool> {
    if slots == [] then []
    else (if slots[0].used then [] else [slots[0].defs.num != 0]) + Frees(slots[1..])
  }

  lemma {:induction false} FreesFirst(slots: seq<State>)
    ensures Frees(slots) == [] <==> FirstFree(slots) == |slots|
    ensures FirstFree(slots) < |slots| ==> Frees(slots)[0] == (slots[FirstFree(slots)].defs.num != 0)
  {
    if slots != [] && slots[0].used {
      FreesFirst(slots[1..]);
    }
  }

  /** The first free slot is taken, or changed. */
  lemma {:induction false} FreesWithout(slots: seq<State>, s: State)
    requires FirstFree(slots) < |slots|
    ensures Frees(slots) != []
    ensures Frees(slots[FirstFree(slots) := s]) == (if s.used then [] else [s.defs.num != 0]) + Frees(slots)[1..]
  {
    var rest := slots[1..];
    if slots[0].used {
      FreesWithout(rest, s);
      FreesRest(slots);
      var changed := slots[FirstFree(slots) := s];
      assert changed[1..] == rest[FirstFree(rest) := s];
      FreesRest(changed);
    } else {
      assert slots[0 := s][1..] == rest;
      assert Frees(slots) == [slots[0].defs.num != 0] + Frees(rest);
    }
  }

  lemma FreesRest(slots: seq<State>)
    requires slots != [] && slots[0].used
    ensures Frees(slots) == Frees(slots[1..])
  {
  }

  /** A slot in use stays in use. */
  lemma {:induction false} FreesKept(slots: seq<State>, i: nat, s: State)
    requires i < |slots| && slots[i].used && s.used
    ensures Frees(slots[i := s]) == Frees(slots)
  {
    if i == 0 {
      assert slots[0 := s][1..] == slots[1..];
    } else {
      FreesKept(slots[1..], i - 1, s);
      assert slots[i := s][1..] == slots[1..][i - 1 := s];
    }
  }

  /** What the handle names while polling goes on. */
  ghost predicate Carries(tb: Table, held: Held, sth: int32, dbh: nat)
    requires |tb.slots| <= MAX_CURSORS && dbh < MAX_DB
  {
    if held.Nobody? then sth == STH_INIT
    else DecodeSlot(sth) < |tb.slots| && Stands(tb, DecodeSlot(sth), held, sth, dbh)
  }

  /** ... and when it has ended. */
  ghost predicate Carried(tb: Table, held: Held, sth: int32, dbh: nat, maxLong: nat)
    requires tb.Ok() && dbh < MAX_DB
  {
    if held.Nobody? then !Names(tb, dbh, sth)
    else Names(tb, dbh, sth) && HeldSlot(held, tb.At(DecodeSlot(sth)), maxLong)
  }

  lemma InitIsNobody(tb: Table, dbh: nat)
    requires dbh < MAX_DB
    ensures !Names(tb, dbh, STH_INIT)
  {
    RejectedRange(STH_INIT);
  }

  /** The handle is left as it was, and so is its slot. */
  lemma StillCarried(tb: Table, tb1: Table, held: Held, sth: int32, dbh: nat, maxLong: nat)
    requires tb.Ok() && tb1.Ok() && |tb1.slots| == |tb.slots| && dbh < MAX_DB && !held.Open?
      && Carries(tb, held, sth, dbh)
    requires !held.Nobody? ==> tb1.slots[DecodeSlot(sth)] == tb.slots[DecodeSlot(sth)]
    ensures Carried(tb1, held, sth, dbh, maxLong)
  {
    hide Encode, DecodeDbh, DecodeSlot;
    InitIsNobody(tb1, dbh);
    if !held.Nobody? {
      RoundTrip(DecodeSlot(sth), dbh);
    }
  }

  lemma HeldIsInUse(tb: Table, held: Held, sth: int32, dbh: nat)
    requires tb.Ok() && dbh < MAX_DB && !held.Open? && !held.Nobody? && Carries(tb, held, sth, dbh)
    ensures tb.slots[DecodeSlot(sth)].used && sth == Encode(DecodeSlot(sth), dbh)
  {
    hide Encode, DecodeSlot;
  }

  /** A call on a new statement. */
  lemma NewCarries(tb: Table, f: nat, sth: int32, dbh: nat, a: Attempt, r: Result, maxLong: nat)
    requires tb.Ok() && dbh < MAX_DB && f == FirstFree(tb.slots) < |tb.slots| && Tried(tb, f, sth, dbh, a, r, maxLong)
    ensures r.ret == a.Ret() && r.tb.oci.script == a.rest && r.tb.slots == tb.slots[f := r.tb.slots[f]]
    ensures a.Named() ==> DecodeSlot(r.sth) == f
    ensures !a.Named() ==> r.sth == sth
    ensures a.Pends? ==> Carries(r.tb, Pending(a.executed), r.sth, dbh)
    ensures a.LosesBusy? ==> Carries(r.tb, Stripped(a.query), r.sth, dbh)
    ensures a.Opens? ==> Carried(r.tb, Open(a.query, a.complete), r.sth, dbh, maxLong)
    ensures a.Returns? ==> Carried(r.tb, Nobody, r.sth, dbh, maxLong)
    ensures a.Pends? || a.LosesBusy? ==> r.tb.slots[f].used
    ensures a.Bounces? ==>
      !r.tb.slots[f].used && (r.tb.slots[f].defs.num != 0 <==> tb.slots[f].defs.num != 0 && !a.closed)
  {
    hide Came, Encode, DecodeDbh, DecodeSlot, AllDefined, Paused, FirstFree;
    RoundTrip(f, dbh);
    CameHeld(tb.oci.last + 1, a, r.tb.At(f), maxLong);
  }

  /** A call that bounces leaves what the handle names. */
  lemma BouncesCarry(tb: Table, held: Held, f: nat, sth: int32, dbh: nat, a: Attempt, r: Result, maxLong: nat)
    requires tb.Ok() && dbh < MAX_DB && f == FirstFree(tb.slots) < |tb.slots| && Tried(tb, f, sth, dbh, a, r, maxLong)
    requires a.Bounces? && !held.Open? && Carries(tb, held, sth, dbh)
    ensures Carries(r.tb, held, r.sth, dbh)
  {
    hide Came, Encode, DecodeSlot, FirstFree, State.Ok;
    if !held.Nobody? {
      var i := DecodeSlot(sth);
      HeldIsInUse(tb, held, sth, dbh);
      if held.Pending? {
        StillPaused(tb.At(i), r.tb.At(i), held.executed, tb.oci.last + 1);
      }
    }
  }

  /** A call that resumes. */
  lemma ResumingCarries(tb: Table, i: nat, executed: bool, dbh: nat, args: seq<string>, maxLong: nat)
    requires tb.Ok() && dbh < MAX_DB && i < |tb.slots| && Stands(tb, i, Pending(executed), Encode(i, dbh), dbh)
    requires tb.oci.Now().mode >= 0 && ReadsNonBlocking(tb.oci.Now(), tb.nonBlocking)
    ensures var r := Open2(tb, Encode(i, dbh), dbh, args, maxLong);
      var a := Launches(Tail(tb.oci.script), executed);
      && r.ret == a.Ret() && r.tb.oci.script == a.rest && r.sth == Encode(i, dbh) && r.tb.nonBlocking == tb.nonBlocking
      && (a.Pends? ==> Carries(r.tb, Pending(a.executed), r.sth, dbh) && Frees(r.tb.slots) == Frees(tb.slots))
      && (a.Opens? ==> Carried(r.tb, Open(a.query, a.complete), r.sth, dbh, maxLong))
      && (a.Refuses? ==> Carried(r.tb, Nobody, r.sth, dbh, maxLong))
      && (a.Loses? ==> Carried(r.tb, Stripped(true), r.sth, dbh, maxLong))
  {
    hide Launches, Open2, Came, Encode, DecodeDbh, DecodeSlot, AllDefined, Paused, Frees;
    RoundTrip(i, dbh);
    ResumingCall(tb, i, executed, dbh, args, maxLong);
    var r := Open2(tb, Encode(i, dbh), dbh, args, maxLong);
    var a := Launches(Tail(tb.oci.script), executed);
    CameHeld(tb.slots[i].handle, a, r.tb.At(i), maxLong);
    if a.Pends? {
      FreesKept(tb.slots, i, r.tb.slots[i]);
    }
  }

  /** A call does as foretold. */
  ghost predicate Says(tb: Table, dbh: nat, r: Result, c: Call, maxLong: nat)
    requires dbh < MAX_DB
  {
    r.tb.Ok() && r.tb.nonBlocking == tb.nonBlocking &&
    match c
    case Repeats(held, free, rest) =>
      && r.ret == STILL_EXECUTING && r.tb.oci.script == rest && !held.Open?
      && Carries(r.tb, held, r.sth, dbh) && Frees(r.tb.slots) == free
    case Tells(a) => r.ret == a.status && r.tb.oci.script == a.rest && Carried(r.tb, a.held, r.sth, dbh, maxLong)
  }

  lemma CallSays(tb: Table, held: Held, sth: int32, dbh: nat, args: seq<string>, maxLong: nat)
    requires tb.Ok() && dbh < MAX_DB && !held.Open? && Carries(tb, held, sth, dbh)
    ensures Says(tb, dbh, Open2(tb, sth, dbh, args, maxLong),
                 Calling(tb.oci.script, |args|, tb.nonBlocking, held, Frees(tb.slots)), maxLong)
  {
    hide Open2, Launches, Opening, Carries, Carried, Stands, Frees, FirstFree, Encode, DecodeSlot, HeldSlot;
    var t := tb.oci.Now();
    var r := Open2(tb, sth, dbh, args, maxLong);
    if t.mode == STILL_EXECUTING {
      ModeIsBusy(tb, sth, dbh, args, maxLong);
      CarriesOn(tb, r.tb, held, sth, dbh);
    } else if t.mode < 0 {
      ModeIsRefused(tb, sth, dbh, args, maxLong);
      StillCarried(tb, r.tb, held, sth, dbh, maxLong);
    } else if held.Pending? && ReadsNonBlocking(t, tb.nonBlocking) {
      HeldIsInUse(tb, held, sth, dbh);
      PendingStands(tb, held, sth, dbh);
      ResumingCarries(tb, DecodeSlot(sth), held.executed, dbh, args, maxLong);
    } else {
      NewAnswer(tb, held, sth, dbh, args, maxLong);
    }
  }

  /** What polling tells the caller, from wherever it stands, in either mode, for every table and every script of
      answers: the status, and whether the handle names an open statement, with or without its columns, one
      under way, one that is gone, or none. */
  lemma {:induction false} PollAnswer(tb: Table, held: Held, sth: int32, dbh: nat, args: seq<string>, maxLong: nat)
    requires tb.Ok() && dbh < MAX_DB && !held.Open? && Carries(tb, held, sth, dbh)
    ensures var r := PollOpen(tb, sth, dbh, args, maxLong);
      var a := Answering(tb.oci.script, |args|, tb.nonBlocking, held, Frees(tb.slots));
      r.ret == a.status && r.tb.oci.script == a.rest && Carried(r.tb, a.held, r.sth, dbh, maxLong)
    decreases |tb.oci.script|
  {
    hide Open2, Calling, Carries, Carried, Frees;
    CallSays(tb, held, sth, dbh, args, maxLong);
    var r := Open2(tb, sth, dbh, args, maxLong);
    var c := Calling(tb.oci.script, |args|, tb.nonBlocking, held, Frees(tb.slots));
    if c.Repeats? {
      PollAnswer(r.tb, c.held, r.sth, dbh, args, maxLong);
    }
  }

  lemma CarriesOn(tb: Table, tb1: Table, held: Held, sth: int32, dbh: nat)
    requires |tb.slots| <= MAX_CURSORS && dbh < MAX_DB && !held.Open? && Carries(tb, held, sth, dbh)
    requires tb1.slots == tb.slots && tb1.oci == tb.oci.(script := tb1.oci.script)
    ensures Carries(tb1, held, sth, dbh)
  {
    hide Encode, DecodeSlot;
  }

  lemma PendingStands(tb: Table, held: Held, sth: int32, dbh: nat)
    requires |tb.slots| <= MAX_CURSORS && dbh < MAX_DB && !held.Nobody? && Carries(tb, held, sth, dbh)
    ensures DecodeSlot(sth) < |tb.slots| && Stands(tb, DecodeSlot(sth), held, sth, dbh)
  {
  }

  lemma ModeIsRefused(tb: Table, sth: int32, dbh: nat, args: seq<string>, maxLong: nat)
    requires tb.Ok() && dbh < MAX_DB && tb.oci.Now().mode < 0
    ensures var r := Open2(tb, sth, dbh, args, maxLong);
      && r.ret == tb.oci.Now().mode && r.sth == sth && r.tb.oci == tb.oci.Rest() && r.tb.slots == tb.slots
  {
    hide OpenInFreeSlot, Reopen;
  }

  /** One call that goes for a new statement. */
  lemma NewAnswer(tb: Table, held: Held, sth: int32, dbh: nat, args: seq<string>, maxLong: nat)
    requires tb.Ok() && dbh < MAX_DB && !held.Open? && Carries(tb, held, sth, dbh) && tb.oci.Now().mode >= 0
    requires !(held.Pending? && ReadsNonBlocking(tb.oci.Now(), tb.nonBlocking))
    ensures var r := Open2(tb, sth, dbh, args, maxLong);
      var free := Frees(tb.slots);
      if free == [] then
        && r.ret == r.tb.status == ERRMALLOC && r.tb.oci.script == Tail(tb.oci.script) && r.sth == sth
        && Carried(r.tb, held, r.sth, dbh, maxLong)
      else
        var a := Opening(Tail(tb.oci.script), |args|, free[0]);
        && r.ret == a.Ret() && r.tb.oci.script == a.rest && r.tb.nonBlocking == tb.nonBlocking
        && (a.Bounces? ==> Carries(r.tb, held, r.sth, dbh) && Frees(r.tb.slots) == [free[0] && !a.closed] + free[1..])
        && (a.Pends? ==> Carries(r.tb, Pending(a.executed), r.sth, dbh) && Frees(r.tb.slots) == free[1..])
        && (a.LosesBusy? ==> Carries(r.tb, Stripped(a.query), r.sth, dbh) && Frees(r.tb.slots) == free[1..])
        && (a.Opens? ==> Carried(r.tb, Open(a.query, a.complete), r.sth, dbh, maxLong))
        && (a.Returns? ==> Carried(r.tb, Nobody, r.sth, dbh, maxLong))
        && (a.Refuses? || a.Loses? ==> Carried(r.tb, held, r.sth, dbh, maxLong))
  {
    hide Open2, OpenInFreeSlot, Opening, Carried, Tried, Stands, Frees, FirstFree, Encode, DecodeSlot, Came;
    FreesFirst(tb.slots);
    var f := FirstFree(tb.slots);
    var r := Open2(tb, sth, dbh, args, maxLong);
    if f == |tb.slots| {
      NothingFree(tb, held, sth, dbh, args, maxLong);
      StillCarried(tb, r.tb, held, sth, dbh, maxLong);
    } else {
      var i := if held.Nobody? then f else DecodeSlot(sth);
      if held.Nobody? {
        StandsAtFirst(tb, dbh);
      } else {
        HeldIsInUse(tb, held, sth, dbh);
      }
      NewCall(tb, i, held, sth, dbh, args, maxLong);
      var a := Opening(Tail(tb.oci.script), |args|, tb.slots[f].defs.num != 0);
      TriedKeeps(tb, f, sth, dbh, a, r, maxLong);
      NewCarries(tb, f, sth, dbh, a, r, maxLong);
      FreesWithout(tb.slots, r.tb.slots[f]);
      if a.Bounces? {
        BouncesCarry(tb, held, f, sth, dbh, a, r, maxLong);
      } else if a.Refuses? || a.Loses? {
        StillCarried(tb, r.tb, held, sth, dbh, maxLong);
      }
    }
  }

  lemma TriedKeeps(tb: Table, i: nat, sth: int32, dbh: nat, a: Attempt, r: Result, maxLong: nat)
    requires i < |tb.slots| <= MAX_CURSORS && dbh < MAX_DB && Tried(tb, i, sth, dbh, a, r, maxLong)
    ensures r.tb.Ok() && |r.tb.slots| == |tb.slots| && r.tb.nonBlocking == tb.nonBlocking
  {
    hide Came;
  }

  lemma NothingFree(tb: Table, held: Held, sth: int32, dbh: nat, args: seq<string>, maxLong: nat)
    requires tb.Ok() && dbh < MAX_DB && !held.Open? && Carries(tb, held, sth, dbh) && tb.oci.Now().mode >= 0
    requires FirstFree(tb.slots) == |tb.slots| && !(held.Pending? && ReadsNonBlocking(tb.oci.Now(), tb.nonBlocking))
    ensures var r := Open2(tb, sth, dbh, args, maxLong);
      && r.ret == r.tb.status == ERRMALLOC && r.sth == sth
      && r.tb.oci == tb.oci.Rest() && r.tb.slots == tb.slots
  {
    hide Reopen, Encode, DecodeSlot, FirstFree;
    if !held.Nobody? {
      HeldIsInUse(tb, held, sth, dbh);
    }
  }

  /** What `sqlo_run` returns, for every table, either mode and every script of answers. */
  lemma RunResult(tb: Table, dbh: nat, args: seq<string>, maxLong: nat)
    requires tb.Ok() && dbh < MAX_DB
    ensures RunStatement(tb, dbh, args, maxLong).1
      == RunAnswer(tb.oci.script, |args|, tb.nonBlocking, Frees(tb.slots))
  {
    hide PollOpen, Answering, Frees, Finish, HeldSlot, DecodeDbh, DecodeSlot;
    PollAnswer(tb, Nobody, STH_INIT, dbh, args, maxLong);
    var r := PollOpen(tb, STH_INIT, dbh, args, maxLong);
    var a := Answering(tb.oci.script, |args|, tb.nonBlocking, Nobody, Frees(tb.slots));
    if a.status >= 0 && !a.held.Nobody? {
      FinishResult(r.tb.At(DecodeSlot(r.sth)), a.held, maxLong);
    }
  }

  lemma FinishResult(k: Cursor, held: Held, maxLong: nat)
    requires k.Ok() && !held.Nobody? && HeldSlot(held, k, maxLong)
    ensures var f := Fetching(k.oci.script, held.Pending? || held.query);
      Finish(k, maxLong).1 ==
        if f.status < 0 then f.status
        else if !held.Open? then INVALID_STMT_HANDLE
        else if Next(f.rest).local == SUCCESS then Next(f.rest).value
        else Next(f.rest).local
  {
    hide PollFetch, PollClose, Fetching, AllDefined;
    PollFetchOutcome(k);
  }

  // ------------------------------------------------------- a slot used before

  /** The first call for a query that is accepted up to its execution: the server is asked to execute it
      exactly when the slot holds no defines. If it does, the query is open at once. */
  lemma StaleOpen(tb: Table, dbh: nat, args: seq<string>, maxLong: nat)
    requires tb.Ok() && dbh < MAX_DB && FirstFree(tb.slots) < |tb.slots|
    requires tb.oci.Now().mode == SUCCESS && QueryBound(Tail(tb.oci.script), |args|).Some?
    ensures var i := FirstFree(tb.slots);
      var stale := tb.slots[i].defs.num != 0;
      var r := Open2(tb, STH_INIT, dbh, args, maxLong);
      && r.tb.oci.executed == tb.oci.executed + (if stale then multiset{} else multiset{tb.oci.last + 1})
      && (stale ==> r.ret == SUCCESS && r.tb.slots[i].used && r.tb.slots[i].isOpen && r.tb.slots[i].IsQuery()
                    && r.sth == Encode(i, dbh))
  {
    hide OpenNew, NewStatement, QueryBound, Encode, State.Ok, Within, Fresh;
    var tb1 := tb.(oci := tb.oci.Rest(), status := tb.oci.Now().mode);
    QueryAnswers(tb1.oci.script, |args|);
    NewStatementOutcome(tb1);
    NewExecutes(NewStatement(tb1), tb.oci.last + 1, args, maxLong);
  }

  lemma NewExecutes(k: Cursor, h: Handle, args: seq<string>, maxLong: nat)
    requires Fresh(k, h) && k.status == SUCCESS
    requires var s2 := Tail(k.oci.script);
      && Next(k.oci.script).prepare == SUCCESS && Next(s2).local == SUCCESS && Next(s2).value == STMT_SELECT
      && Next(Tail(s2)).local == SUCCESS && BindReplies(Tail(Tail(s2)), |args|).status == SUCCESS
    ensures var o := OpenNew(k, args, maxLong);
      && o.k.oci.executed == k.oci.executed + (if k.s.defs.num != 0 then multiset{} else multiset{h})
      && (k.s.defs.num != 0 ==> o.ret == SUCCESS && o.named && o.k.s.isOpen && o.k.s.used && o.k.s.IsQuery())
  {
    hide Reopen, BindReplies, OpenNew, State.Ok;
    PreparesQuery(k, h, args, maxLong);
    ReopenExecutes(k.(s := k.s.(prepared := true, stype := STMT_SELECT), oci := Local(Prepare(k)).oci), args, maxLong);
  }

  lemma PreparesQuery(k: Cursor, h: Handle, args: seq<string>, maxLong: nat)
    requires Fresh(k, h) && k.status == SUCCESS
    requires var s2 := Tail(k.oci.script);
      && Next(k.oci.script).prepare == SUCCESS && Next(s2).local == SUCCESS && Next(s2).value == STMT_SELECT
      && Next(Tail(s2)).local == SUCCESS
    ensures var k2 := k.(s := k.s.(prepared := true, stype := STMT_SELECT), oci := Local(Prepare(k)).oci);
      && Local(Prepare(k)) == k2 && k2.s.Ok() && k2.oci.executed == k.oci.executed
      && k2.oci.script == Tail(Tail(Tail(k.oci.script)))
      && OpenNew(k, args, maxLong) ==
         var r := Reopen(k2, args, maxLong); Outcome(r, r.status, r.status == SUCCESS || r.status == STILL_EXECUTING)
  {
    hide Reopen;
  }

  lemma QueryAnswers(script: seq<Turn>, n: nat)
    requires QueryBound(script, n).Some?
    ensures var s1 := Tail(script);
      var s2 := Tail(s1);
      var s3 := Tail(s2);
      && Next(script).alloc == SUCCESS && Next(s1).prepare == SUCCESS && Next(s2).local == SUCCESS
      && Next(s2).value == STMT_SELECT && Next(s3).local == SUCCESS && BindReplies(Tail(s3), n).status == SUCCESS
  {
    hide BindReplies;
  }

  lemma ReopenExecutes(k: Cursor, args: seq<string>, maxLong: nat)
    requires k.Ok() && k.s.prepared && k.s.IsQuery() && k.s.cursor.Default? && k.s.numExecutions == 0
      && !k.s.stillExecuting
      && k.s.used
    requires BindReplies(k.oci.script, |args|).status == SUCCESS
    ensures var r := Reopen(k, args, maxLong);
      && r.oci.executed == k.oci.executed + (if k.s.defs.num != 0 then multiset{} else multiset{k.s.handle})
      && (k.s.defs.num != 0 ==> r.status == SUCCESS && r.s.isOpen && r.s.used && r.s.IsQuery())
  {
    hide BindArgv, BindReplies, DefineAll;
    var k0 := k.(s := k.s.(binds := ResetBinds(k.s.binds)));
    var k1 := k;
    if args != [] {
      BindArgvOutcome(k0, args);
      k1 := BindArgv(k0, args);
    }
    if k.s.defs.num == 0 {
      LaunchExecutes(k1, maxLong);
    }
  }

  // ------------------------------------------------------------- concrete runs

  /** Mode, handle and prepare accepted, not a query, and its first bind refused. */
  const BIND_REFUSED := [QUIET, QUIET, QUIET, QUIET, QUIET.(bind := ERROR)]

  /** Mode, handle and prepare accepted, a query, its prefetch count accepted. */
  const QUERY := [QUIET, QUIET, QUIET, QUIET.(value := STMT_SELECT), QUIET]

  /** ... which fails, and the close of it is busy. */
  const CLOSE_BUSY := QUERY + [QUIET.(execute := ERROR), QUIET.(free := STILL_EXECUTING)]

  /** ... which is executed, but counting its columns is busy; the next call can execute it again. */
  const COUNT_BUSY := QUERY + [QUIET, QUIET.(local := STILL_EXECUTING), QUIET, QUIET]

  /** SUCCESS, and no statement: the bind was refused. */
  lemma RefusedBind(tb: Table, dbh: nat, arg: string, maxLong: nat)
    requires tb.Ok() && dbh < MAX_DB && FirstFree(tb.slots) < |tb.slots| && tb.oci.script == BIND_REFUSED
    ensures var r := PollOpen(tb, STH_INIT, dbh, [arg], maxLong);
      r.ret == SUCCESS && !r.tb.slots[FirstFree(tb.slots)].used
  {
    hide PollOpen, Second;
    var i := FirstFree(tb.slots);
    var st := StandingAt(tb, i, Nobody);
    StandsAtFirst(tb, dbh);
    PollOutcome(tb, i, Nobody, STH_INIT, dbh, [arg], maxLong);
    BindIsRefused(st, tb.nonBlocking);
  }

  lemma BindIsRefused(st: Standing, nonBlocking: bool)
    requires st.held.Nobody?
    ensures Polling(BIND_REFUSED, 1, nonBlocking, st) == Ends(SUCCESS, Nobody, true, [])
  {
  }

  /** A run that loses a slot: the query fails, and nobody repeats the close. */
  lemma LostByBusyClose(tb: Table, dbh: nat, maxLong: nat)
    requires tb.Ok() && dbh < MAX_DB && FirstFree(tb.slots) < |tb.slots| && tb.oci.script == CLOSE_BUSY
    requires tb.slots[FirstFree(tb.slots)].defs.num == 0
    ensures Taken(tb.slots, RunStatement(tb, dbh, [], maxLong).0.slots)
  {
    hide RunStatement, Second, Taken;
    RunOutcome(tb, dbh, [], maxLong);
    CloseIsBusy(StandingAt(tb, FirstFree(tb.slots), Nobody), tb.nonBlocking);
  }

  lemma CloseIsBusy(st: Standing, nonBlocking: bool)
    requires st.held.Nobody? && !st.stale
    ensures Polling(CLOSE_BUSY, 0, nonBlocking, st) == Leaks
  {
    var failed := [QUIET.(execute := ERROR), QUIET.(free := STILL_EXECUTING)];
    QueryOpens(failed);
    assert Tail(failed) == failed[1..] && Tail(Tail(failed)) == [];
    assert Launches(failed, false) == Loses(ERROR, []);
  }

  lemma QueryOpens(script: seq<Turn>)
    ensures Next(QUERY + script) == QUIET && Opening(Tail(QUERY + script), 0, false) == Launches(script, false)
  {
    hide Launches;
    var s := QUERY + script;
    assert s[5..] == script;
    assert Tail(Tail(Tail(Tail(Tail(s))))) == s[5..];
  }

  /** A query that ends open without its columns, executed twice. */
  lemma CountedTooLate(tb: Table, dbh: nat, maxLong: nat)
    requires tb.Ok() && dbh < MAX_DB && FirstFree(tb.slots) < |tb.slots| && tb.oci.script == COUNT_BUSY
    requires tb.nonBlocking && tb.slots[FirstFree(tb.slots)].defs.num == 0
    ensures var r := PollOpen(tb, STH_INIT, dbh, [], maxLong);
      var k := r.tb.At(FirstFree(tb.slots));
      && r.ret == SUCCESS && k.s.isOpen && k.s.IsQuery() && !AllDefined(k, maxLong)
  {
    hide PollOpen, Second, AllDefined;
    var i := FirstFree(tb.slots);
    StandsAtFirst(tb, dbh);
    PollOutcome(tb, i, Nobody, STH_INIT, dbh, [], maxLong);
    CountIsBusy(StandingAt(tb, i, Nobody));
  }

  lemma CountIsBusy(st: Standing)
    requires st.held.Nobody? && !st.stale
    ensures Polling(COUNT_BUSY, 0, true, st) == Ends(SUCCESS, Open(true, false), true, [])
  {
    var busy := [QUIET, QUIET.(local := STILL_EXECUTING), QUIET, QUIET];
    QueryOpens(busy);
    assert Tail(busy) == busy[1..] && Tail(Tail(busy)) == busy[2..] == [QUIET, QUIET];
    assert Launches(busy, false) == Pends(true, [QUIET, QUIET]);
    assert Tail([QUIET, QUIET]) == [QUIET] && Tail([QUIET]) == [];
    assert Launches([QUIET], true) == Opens(true, false, []);
    var again := Standing(Pending(true), false, st.next);
    assert PollMove(COUNT_BUSY, 0, true, st) == Again(again, true, [QUIET, QUIET]);
    assert PollMove([QUIET, QUIET], 0, true, again) == Over(Ends(SUCCESS, Open(true, false), true, []));
    assert Polling([QUIET, QUIET], 0, true, again) == Ends(SUCCESS, Open(true, false), true, []);
  }

  /** Mode and handle accepted, but preparing is busy. */
  const PREPARE_BUSY := [QUIET, QUIET, QUIET.(prepare := STILL_EXECUTING)]

  /** STILL_EXECUTING, the slot given back and no handle: the next call prepares the same text on another handle. */
  lemma PreparedTwice(tb: Table, dbh: nat, maxLong: nat)
    requires tb.Ok() && dbh < MAX_DB && FirstFree(tb.slots) < |tb.slots| && tb.oci.script == PREPARE_BUSY
    requires tb.nonBlocking
    ensures var i := FirstFree(tb.slots);
      var h := tb.oci.last + 1;
      var first := Open2(tb, STH_INIT, dbh, [], maxLong);
      var r := PollOpen(tb, STH_INIT, dbh, [], maxLong);
      && first.ret == STILL_EXECUTING && first.sth == STH_INIT && !first.tb.slots[i].used
      && h + 1 <= r.tb.oci.last
      && r.tb.oci.prepared[h] == tb.oci.prepared[h] + 1 && r.tb.oci.prepared[h + 1] == tb.oci.prepared[h + 1] + 1
  {
    hide PollOpen, Open2, Second, Tried, LastTry, BoundOnce, Encode, FirstFree;
    var i := FirstFree(tb.slots);
    PrepareIsBusy(tb.slots[i].defs.num != 0, Second(tb.slots, i));
    OneStatement(tb, dbh, [], maxLong);
    FirstCall(tb, dbh, [], maxLong);
    NobodyIsInit(Open2(tb, STH_INIT, dbh, [], maxLong).tb, i, Open2(tb, STH_INIT, dbh, [], maxLong).sth, dbh);
  }

  lemma PrepareIsBusy(stale: bool, next: Option<bool>)
    ensures PollMove(PREPARE_BUSY, 0, true, Standing(Nobody, stale, next))
      == Again(Standing(Nobody, false, next), true, [])
    ensures !PreparesOnce(PREPARE_BUSY, 0, stale, next)
  {
    var busy := PREPARE_BUSY[1..];
    assert Tail(PREPARE_BUSY) == busy && Tail(busy) == busy[1..] && Tail(busy[1..]) == [];
    assert Opening(busy, 0, stale) == Bounces(true, []);
  }

  /** A pending query left behind: the mode could not be read, or was answered by a value above zero with something
      other than SQLO_OFF in the variable. */
  lemma StrandedByMode(tb: Table, i: nat, executed: bool, dbh: nat, mode: int, maxLong: nat)
    requires tb.Ok() && dbh < MAX_DB && i < |tb.slots| && Stands(tb, i, Pending(executed), Encode(i, dbh), dbh)
    requires tb.oci.script == [QUIET.(mode := mode, value := 1)] && (mode == ERROR || mode == 1)
    ensures var s := PollOpen(tb, Encode(i, dbh), dbh, [], maxLong).tb.slots[i]; UnderWay(s, s.handle)
  {
    hide PollOpen, Second, Encode, Stands, UnderWay;
    StrandedExactly(tb, i, executed, dbh, [], maxLong);
    assert Tail(tb.oci.script) == [];
  }
}
