/** The statement table of one connection: taking the first free slot, opening through
    `sqlo_open2` with polling, running a statement to its end, and closing in bulk. */
module CursorTables {
  import opened Oci
  import opened Handles
  import opened Statements
  import opened Cursors
  import Replies

  /** The slots, the environment, the last status, and whether the server connection is in
      non-blocking mode. */
  datatype Table = Table(slots: seq<State>, oci: Oracle, status: int, nonBlocking: bool) {
    ghost predicate Ok() {
      && |slots| <= MAX_CURSORS
      && forall i :: 0 <= i < |slots| ==> slots[i].Ok()
    }

    function At(i: nat): Cursor
      requires i < |slots|
    {
      Cursor(slots[i], oci, status)
    }

    function Put(i: nat, k: Cursor): (r: Table)
      requires i < |slots|
      ensures |r.slots| == |slots| && r.nonBlocking == nonBlocking && (Ok() && k.Ok() ==> r.Ok())
    {
      this.(slots := slots[i := k.s], oci := k.oci, status := k.status)
    }
  }

  /** The first slot not in use, or the table's size. */
  function FirstFree(slots: seq<State>): (i: nat)
    ensures i <= |slots|
    ensures forall j :: 0 <= j < i ==> slots[j].used
    ensures i < |slots| ==> !slots[i].used
  {
    if slots == [] || !slots[0].used then 0 else 1 + FirstFree(slots[1..])
  }

  /** `_get_stmt_ptr` and `_stmt_new`, when a slot is free. */
  function NewStatement(tb: Table): (k: Cursor)
    requires tb.Ok() && FirstFree(tb.slots) < |tb.slots|
    ensures Progress(tb.At(FirstFree(tb.slots)), k)
  {
    var i := FirstFree(tb.slots);
    Allocate(tb.At(i).(s := Initialised(tb.slots[i], i)))
  }

  // --------------------------------------------------------------------- open

  /** What a call on the table returns besides the table. */
  datatype Result = Result(tb: Table, ret: int, sth: int32)

  /** The slot `sqlo_open2` resumes. Only the low half of the handle is looked at. */
  predicate Resumes(tb: Table, sth: int32) {
    && Replies.ReadsNonBlocking(tb.oci.Now(), tb.nonBlocking) && sth != STH_INIT
    && DecodeSlot(sth) < |tb.slots| && tb.slots[DecodeSlot(sth)].Resumable()
  }

  /** One call of `sqlo_open2` on connection `dbh`. */
  function Open2(tb: Table, sth: int32, dbh: nat, args: seq<string>, maxLong: nat): (r: Result)
    requires tb.Ok() && dbh < MAX_DB
    ensures r.tb.Ok() && |r.tb.slots| == |tb.slots| && r.tb.nonBlocking == tb.nonBlocking
    ensures Within(r.tb.oci.script, tb.oci.script)
    ensures r.ret == STILL_EXECUTING ==> |r.tb.oci.script| < |tb.oci.script|
  {
    var mode := tb.oci.Now().mode;
    var tb1 := tb.(oci := tb.oci.Rest(), status := mode);
    if mode < 0 then Result(tb1, mode, sth)
    else if Resumes(tb, sth) then
      var k := Reopen(tb1.At(DecodeSlot(sth)), args, maxLong);
      Result(tb1.Put(DecodeSlot(sth), k), k.status, sth)
    else OpenInFreeSlot(tb1, sth, dbh, args, maxLong)
  }

  /** `sqlo_open2` when there is nothing to resume. */
  function OpenInFreeSlot(tb: Table, sth: int32, dbh: nat, args: seq<string>, maxLong: nat): (r: Result)
    requires tb.Ok() && dbh < MAX_DB
    ensures r.tb.Ok() && |r.tb.slots| == |tb.slots| && r.tb.nonBlocking == tb.nonBlocking
    ensures Within(r.tb.oci.script, tb.oci.script)
    ensures r.ret == STILL_EXECUTING ==> |r.tb.oci.script| < |tb.oci.script|
  {
    var i := FirstFree(tb.slots);
    if i == |tb.slots| then Result(tb.(status := ERRMALLOC), ERRMALLOC, sth)
    else
      var k := NewStatement(tb);
      if k.status != SUCCESS then Result(tb.Put(i, k), k.status, sth)
      else
        var o := OpenNew(k, args, maxLong);
        Result(tb.Put(i, o.k), o.ret, if o.named then Encode(i, dbh) else sth)
  }

  /** The connection's status and the returned one differ on the error exits; `named` tells
      whether the caller's handle is set. */
  datatype Outcome = Outcome(k: Cursor, ret: int, named: bool)

  /** `sqlo_open2` from a fresh statement on: prepare, refuse PL/SQL blocks, set the prefetch
      count of a query, and reopen. */
  function OpenNew(k: Cursor, args: seq<string>, maxLong: nat): (o: Outcome)
    requires k.Ok() && k.status == SUCCESS
    ensures o.k.Ok() && Within(o.k.oci.script, k.oci.script)
    ensures o.ret == STILL_EXECUTING ==> |o.k.oci.script| < |k.oci.script|
  {
    var k1 := Prepare(k);
    if k1.status != SUCCESS then Abandon(k1, k1.status, maxLong)
    else if k1.s.IsPlsql() then Abandon(k1, INVALID_STMT_TYPE, maxLong)
    else
      var k2 := if k1.s.IsQuery() then Local(k1) else k1;
      if k2.status != SUCCESS then Abandon(k2, k2.status, maxLong)
      else
        var k3 := Reopen(k2, args, maxLong);
        Outcome(k3, k3.status, k3.status == SUCCESS || k3.status == STILL_EXECUTING)
  }

  /** The error exits evaluate `sqlo_close` twice, once for each use of the argument in
      CHECK_OCI_STATUS. */
  function Abandon(k: Cursor, ret: int, maxLong: nat): (o: Outcome)
    requires k.Ok()
    ensures o.ret == ret && !o.named && o.k.Ok() && Within(o.k.oci.script, k.oci.script)
  {
    Outcome(CloseIfUsed(CloseIfUsed(k, maxLong), maxLong), ret, false)
  }

  /** The caller's loop: call `sqlo_open2` again while it answers STILL_EXECUTING. */
  function PollOpen(tb: Table, sth: int32, dbh: nat, args: seq<string>, maxLong: nat): (r: Result)
    requires tb.Ok() && dbh < MAX_DB
    ensures r.tb.Ok() && |r.tb.slots| == |tb.slots| && r.tb.nonBlocking == tb.nonBlocking
    ensures Within(r.tb.oci.script, tb.oci.script) && r.ret != STILL_EXECUTING
    decreases |tb.oci.script|
  {
    var r := Open2(tb, sth, dbh, args, maxLong);
    if r.ret == STILL_EXECUTING then PollOpen(r.tb, r.sth, dbh, args, maxLong) else r
  }

  // ------------------------------------------------------------------ sqlo_run

  /** The statement a handle names on connection `dbh`, as `_sth2stp` finds it. */
  predicate Names(tb: Table, dbh: nat, sth: int32) {
    DecodeDbh(sth) == dbh && DecodeSlot(sth) < |tb.slots| && tb.slots[DecodeSlot(sth)].used
  }

  function PollFetch(k: Cursor): (r: Cursor)
    requires k.Ok()
    ensures r.Ok() && Within(r.oci.script, k.oci.script) && r.s.used == k.s.used && r.s.handle == k.s.handle
    ensures r.oci == k.oci.(script := r.oci.script, executed := r.oci.executed)
    decreases |k.oci.script|
  {
    var r := Fetch(k);
    if r.status == STILL_EXECUTING then PollFetch(r) else r
  }

  function PollClose(k: Cursor, maxLong: nat): (r: Cursor)
    requires k.Ok()
    ensures r.Ok() && Within(r.oci.script, k.oci.script)
    decreases |k.oci.script|
  {
    var r := Close(k, maxLong);
    if r.status == STILL_EXECUTING then PollClose(r, maxLong) else r
  }

  /** `sqlo_prows`: the row count of an opened statement. */
  function Rows(k: Cursor): (r: (Cursor, int))
    requires k.Ok()
    ensures r.0.s == k.s && Within(r.0.oci.script, k.oci.script)
  {
    if !k.s.isOpen then (k, INVALID_STMT_HANDLE)
    else
      var t := k.oci.Now();
      (Cursor(k.s, k.oci.Rest(), t.local), if t.local == SUCCESS then t.value else t.local)
  }

  /** `sqlo_run` once the statement is open: fetch, count the rows, close. */
  function Finish(k: Cursor, maxLong: nat): (r: (Cursor, int))
    requires k.Ok()
    ensures r.0.Ok() && Within(r.0.oci.script, k.oci.script)
  {
    var k1 := PollFetch(k);
    var r := if 0 <= k1.status then Rows(k1) else (k1, k1.status);
    (PollClose(r.0, maxLong), r.1)
  }

  /** `sqlo_run`. */
  function RunStatement(tb: Table, dbh: nat, args: seq<string>, maxLong: nat): (r: (Table, int))
    requires tb.Ok() && dbh < MAX_DB
    ensures r.0.Ok() && |r.0.slots| == |tb.slots|
  {
    var r := PollOpen(tb, STH_INIT, dbh, args, maxLong);
    if r.ret < 0 then (r.tb, r.ret)
    else if !Names(r.tb, dbh, r.sth) then (r.tb, INVALID_STMT_HANDLE)
    else
      var i := DecodeSlot(r.sth);
      var f := Finish(r.tb.At(i), maxLong);
      (r.tb.Put(i, f.0), f.1)
  }

  // ------------------------------------------------------------- bulk closing

  /** `_close_all_executing_cursors` from slot `i` on. */
  function CloseExecuting(tb: Table, i: nat, maxLong: nat): (r: Table)
    requires tb.Ok() && i <= |tb.slots|
    ensures r.Ok() && |r.slots| == |tb.slots| && Within(r.oci.script, tb.oci.script) && r.nonBlocking == tb.nonBlocking
    decreases |tb.slots| - i
  {
    if i == |tb.slots| then tb
    else if !tb.slots[i].used || !tb.slots[i].stillExecuting then CloseExecuting(tb, i + 1, maxLong)
    else CloseExecuting(tb.Put(i, Close(tb.At(i), maxLong)), i + 1, maxLong)
  }

  /** The arrays freed, as at the end of a session. */
  function Emptied(s: State): State {
    s.(binds := NO_BINDS, defs := NO_DEFINES.(generation := s.defs.generation))
  }

  /** `_close_all_db_cursors` from slot `i` on. */
  function CloseAll(tb: Table, i: nat, maxLong: nat): (r: Table)
    requires tb.Ok() && i <= |tb.slots|
    ensures r.Ok() && |r.slots| == |tb.slots| && Within(r.oci.script, tb.oci.script) && r.nonBlocking == tb.nonBlocking
    decreases |tb.slots| - i
  {
    if i == |tb.slots| then tb
    else if !tb.slots[i].used then CloseAll(tb, i + 1, maxLong)
    else
      var k := Close(tb.At(i), maxLong);
      CloseAll(tb.Put(i, k.(s := Emptied(k.s))), i + 1, maxLong)
  }

  lemma ClosingEnds(tb: Table, maxLong: nat)
    requires tb.Ok()
    ensures CloseAll(tb, |tb.slots|, maxLong) == tb && CloseExecuting(tb, |tb.slots|, maxLong) == tb
  {
  }

  /** A statement just taken, with handle `h`. */
  ghost predicate Fresh(k: Cursor, h: Handle) {
    && k.s.Ok() && k.s.used && k.s.handle == h != NULL && !k.s.isOpen && !k.s.prepared && !k.s.stillExecuting
    && k.s.numExecutions == 0 && k.s.cursor.Default? && k.s.stype == 0
    && h !in k.oci.columns
  }

  lemma NewStatementOutcome(tb: Table)
    requires tb.Ok() && FirstFree(tb.slots) < |tb.slots|
    ensures var k := NewStatement(tb);
      && k.status == tb.oci.Now().alloc && k.oci.script == Tail(tb.oci.script)
      && k.s.defs == tb.slots[FirstFree(tb.slots)].defs && k.s.binds == tb.slots[FirstFree(tb.slots)].binds
      && k.s.sth == FirstFree(tb.slots)
      && (if k.status == SUCCESS then Fresh(k, tb.oci.last + 1) && k.oci.last == tb.oci.last + 1
          else k.s.Idle() && k.oci == tb.oci.Rest())
      && k.oci.prepared == tb.oci.prepared && k.oci.bound == tb.oci.bound && k.oci.executed == tb.oci.executed
      && k.oci.columns - {tb.oci.last + 1} == tb.oci.columns - {tb.oci.last + 1}
  {
  }

  /** The doubled close of the error exits always gives the slot back, with one answer used up. */
  lemma AbandonVacates(k: Cursor, ret: int, maxLong: nat)
    requires k.Ok() && k.s.used
    ensures var o := Abandon(k, ret, maxLong);
      && Vacated(o.k.s) && o.k.s.sth == k.s.sth
      && o.k.status ==
         (if k.s.handle == NULL || At(k.oci.script, 0).free == SUCCESS then INVALID_STMT_HANDLE else SUCCESS)
      && o.k.oci == k.oci.(script := o.k.oci.script, freed := o.k.oci.freed)
      && (k.s.handle != NULL ==> o.k.oci.script == Tail(k.oci.script))
  {
    CloseOutcome(k, maxLong);
    CloseOutcome(Close(k, maxLong), maxLong);
  }

  /** The final close of `sqlo_run` loses the slot exactly when freeing the handle is refused, unless the
      refusal is STILL_EXECUTING, which the closing loop repeats. */
  lemma FinalCloseKeepsSlot(k: Cursor, maxLong: nat)
    requires k.Ok() && k.s.used
    ensures PollClose(k, maxLong).s.used <==>
      k.s.handle != NULL && k.oci.Now().free != SUCCESS && k.oci.Now().free != STILL_EXECUTING
  {
    CloseOutcome(k, maxLong);
    CloseOutcome(Close(k, maxLong), maxLong);
  }

  /** The handle polling ends with is the initial one or one of this connection. */
  lemma {:induction false} PollOpenHandle(tb: Table, sth: int32, dbh: nat, args: seq<string>, maxLong: nat)
    requires tb.Ok() && dbh < MAX_DB && (sth == STH_INIT || DecodeDbh(sth) == dbh)
    ensures var r := PollOpen(tb, sth, dbh, args, maxLong); r.sth == STH_INIT || DecodeDbh(r.sth) == dbh
    decreases |tb.oci.script|
  {
    hide OpenNew, Reopen, NewStatement, DecodeDbh, Encode;
    var r := Open2(tb, sth, dbh, args, maxLong);
    var i := FirstFree(tb.slots);
    if i < |tb.slots| {
      RoundTrip(i, dbh);
    }
    if r.ret == STILL_EXECUTING {
      PollOpenHandle(r.tb, r.sth, dbh, args, maxLong);
    }
  }

  /** One fetch, or execution of what is not a query: the reply, and the flag that tells `sqlo_break` whether the
      statement is still executing. A refusal leaves the flag as it was. */
  lemma FetchOutcome(k: Cursor)
    requires k.Ok()
    ensures var r := Fetch(k);
      var query := k.s.IsQuery();
      && r.status == (if query then At(k.oci.script, 0).fetch else At(k.oci.script, 0).execute)
      && r.s == k.s.(stillExecuting := StillExecuting(k.s, r.status))
      && r.oci == k.oci.(script := After(k.oci.script, 1),
           executed := k.oci.executed + if query then multiset{} else multiset{k.s.handle})
  {
  }

  /** The flag after such a reply. NO_DATA, the end of a query, is one of success. */
  predicate StillExecuting(s: State, reply: int) {
    reply == STILL_EXECUTING || (reply != SUCCESS && !(s.IsQuery() && reply == NO_DATA) && s.stillExecuting)
  }

  /** Fetching to the end goes by the answers to fetching, or to executing what is not a query, and touches
      nothing but one flag, which stays up only if the fetch was busy, before or now, and then refused. */
  lemma {:induction false} PollFetchOutcome(k: Cursor)
    requires k.Ok()
    ensures var r := PollFetch(k);
      var query := k.s.IsQuery();
      var first := if query then Next(k.oci.script).fetch else Next(k.oci.script).execute;
      && Replies.Reply(r.status, r.oci.script) == Replies.Fetching(k.oci.script, query)
      && r.s == k.s.(stillExecuting :=
           (first == STILL_EXECUTING || k.s.stillExecuting) && r.status != SUCCESS && !(query && r.status == NO_DATA))
    decreases |k.oci.script|
  {
    FetchOutcome(k);
    if Fetch(k).status == STILL_EXECUTING {
      PollFetchOutcome(Fetch(k));
    }
  }

  /** The end of `sqlo_run` leaves a slot taken exactly when it holds a statement whose final close is refused
      for good. */
  lemma FinishLoses(k: Cursor, maxLong: nat)
    requires k.Ok() && k.s.used
    ensures var f := Replies.Fetching(k.oci.script, k.s.IsQuery());
      var free := Next(if 0 <= f.status && k.s.isOpen then Tail(f.rest) else f.rest).free;
      Finish(k, maxLong).0.s.used <==> k.s.handle != NULL && free != SUCCESS && free != STILL_EXECUTING
  {
    hide PollFetch, PollClose;
    PollFetchOutcome(k);
    var k1 := PollFetch(k);
    FinalCloseKeepsSlot(if 0 <= k1.status then Rows(k1).0 else k1, maxLong);
  }

  lemma FinishKeeps(k: Cursor, maxLong: nat)
    requires k.Ok() && k.s.used
    ensures Keeps(k.s, Finish(k, maxLong).0.s)
  {
    hide PollFetch, PollClose;
    PollFetchOutcome(k);
    var k1 := PollFetch(k);
    var k2 := if 0 <= k1.status then Rows(k1).0 else k1;
    PollCloseKeeps(k2, maxLong);
  }

  lemma {:induction false} PollCloseKeeps(k: Cursor, maxLong: nat)
    requires k.Ok() && k.s.used
    ensures Keeps(k.s, PollClose(k, maxLong).s)
    decreases |k.oci.script|
  {
    hide Close;
    CloseOutcome(k, maxLong);
    if Close(k, maxLong).status == STILL_EXECUTING {
      PollCloseKeeps(Close(k, maxLong), maxLong);
    }
  }

  // --------------------------------------------------- what bulk closing does

  /** Slot `s` as `sqlo_close` leaves it: given back, or stripped but still taken when its
      handle would not be freed. */
  ghost predicate ClosedFrom(s: State, s': State, maxLong: nat)
    requires s.Ok()
  {
    var stripped := s.(binds := ResetBinds(s.binds), defs := DropDefines(s.defs, maxLong), handle := NULL);
    s' == Released(stripped) || (s' == stripped && s.handle != NULL)
  }

  lemma CloseIsClosed(k: Cursor, maxLong: nat)
    requires k.Ok()
    ensures ClosedFrom(k.s, Close(k, maxLong).s, maxLong)
  {
  }

  /** Closing the executing statements closes exactly those; every other slot keeps every field. */
  lemma {:induction false} CloseExecutingOutcome(tb: Table, i: nat, maxLong: nat)
    requires tb.Ok() && i <= |tb.slots|
    ensures var r := CloseExecuting(tb, i, maxLong);
      forall j :: 0 <= j < |tb.slots| ==>
        if j >= i && tb.slots[j].used && tb.slots[j].stillExecuting
        then ClosedFrom(tb.slots[j], r.slots[j], maxLong)
        else r.slots[j] == tb.slots[j]
    decreases |tb.slots| - i
  {
    hide Close, ClosedFrom, Within, State.Ok;
    if i < |tb.slots| {
      var s := tb.slots[i];
      var tb1 := if s.used && s.stillExecuting then tb.Put(i, Close(tb.At(i), maxLong)) else tb;
      CloseIsClosed(tb.At(i), maxLong);
      CloseExecutingOutcome(tb1, i + 1, maxLong);
    }
  }

  /** ... and with handle frees accepted, all of them are given back. */
  lemma {:induction false} CloseExecutingVacates(tb: Table, i: nat, maxLong: nat)
    requires tb.Ok() && i <= |tb.slots| && FreesSucceed(tb.oci.script)
    ensures var r := CloseExecuting(tb, i, maxLong);
      forall j :: i <= j < |tb.slots| && tb.slots[j].used && tb.slots[j].stillExecuting ==> Vacated(r.slots[j])
    decreases |tb.slots| - i
  {
    hide Close, ClosedFrom, Vacated, State.Ok;
    if i < |tb.slots| {
      var s := tb.slots[i];
      if s.used && s.stillExecuting {
        var k := Close(tb.At(i), maxLong);
        ClosingVacates(tb.At(i), maxLong);
        assert Within(k.oci.script, tb.oci.script);
        CloseExecutingVacates(tb.Put(i, k), i + 1, maxLong);
        CloseExecutingOutcome(tb.Put(i, k), i + 1, maxLong);
      } else {
        CloseExecutingVacates(tb, i + 1, maxLong);
      }
    }
  }

  /** Whether bulk closing closes a slot: at the end of a session, or after a break. */
  predicate ToClose(s: State, all: bool) {
    s.used && (all || s.stillExecuting)
  }

  /** The handles it frees in slots `i` up to `j`, in order. */
  function ToFree(slots: seq<State>, i: nat, j: nat, all: bool): (hs: seq<Handle>)
    requires i <= j <= |slots|
    decreases j - i
  {
    if i == j then []
    else
      var one := if ToClose(slots[i], all) && slots[i].handle != NULL then [slots[i].handle] else [];
      one + ToFree(slots, i + 1, j, all)
  }

  /** The reply to closing slot `j`, when closing began at slot `i`. */
  function CloseReply(slots: seq<State>, script: seq<Turn>, i: nat, j: nat, all: bool): int
    requires i <= j < |slots|
  {
    if slots[j].handle == NULL then SUCCESS else At(script, |ToFree(slots, i, j, all)|).free
  }

  /** What bulk closing frees and replies: each handle of a slot it closes is freed once, in order, and the
      slot is given back exactly when its own free is accepted; the status is that of the last close, if
      any. */
  ghost predicate ClosedInBulk(tb: Table, r: Table, i: nat, all: bool) {
    i <= |tb.slots| == |r.slots| &&
    var n := |tb.slots|;
    var hs := ToFree(tb.slots, i, n, all);
    && FreesTo(tb.oci, r.oci, hs)
    && (forall j :: i <= j < n && ToClose(tb.slots[j], all) ==>
          (r.slots[j].used <==> CloseReply(tb.slots, tb.oci.script, i, j, all) != SUCCESS))
    && (forall j :: i <= j < n && ToClose(tb.slots[j], all) && NoneAfter(tb.slots, j, all) ==>
          r.status == CloseReply(tb.slots, tb.oci.script, i, j, all))
    && ((forall j :: i <= j < n ==> !ToClose(tb.slots[j], all)) ==> r.status == tb.status)
  }

  ghost predicate NoneAfter(slots: seq<State>, j: nat, all: bool) {
    forall l :: j < l < |slots| ==> !ToClose(slots[l], all)
  }

  lemma {:induction false} CloseExecutingFrees(tb: Table, i: nat, maxLong: nat)
    requires tb.Ok() && i <= |tb.slots|
    ensures ClosedInBulk(tb, CloseExecuting(tb, i, maxLong), i, false)
    decreases |tb.slots| - i
  {
    hide Close, State.Ok, ClosedInBulk, ToFree, After;
    if i == |tb.slots| {
      NothingClosed(tb, false);
    } else {
      var s := tb.slots[i];
      var tb1 := if ToClose(s, false) then tb.Put(i, Close(tb.At(i), maxLong)) else tb;
      CloseExecutingFrees(tb1, i + 1, maxLong);
      CloseExecutingOutcome(tb1, i + 1, maxLong);
      CloseOutcome(tb.At(i), maxLong);
      CloseFrees(tb.At(i), maxLong);
      OneMoreClosed(tb, tb1, CloseExecuting(tb1, i + 1, maxLong), i, false);
    }
  }

  lemma {:induction false} CloseAllFrees(tb: Table, i: nat, maxLong: nat)
    requires tb.Ok() && i <= |tb.slots|
    ensures ClosedInBulk(tb, CloseAll(tb, i, maxLong), i, true)
    decreases |tb.slots| - i
  {
    hide Close, State.Ok, ClosedInBulk, ToFree, Emptied, EmptiedFrom, After;
    if i == |tb.slots| {
      NothingClosed(tb, true);
    } else {
      var s := tb.slots[i];
      var k := Close(tb.At(i), maxLong);
      EmptiedOk(k.s);
      var tb1 := if ToClose(s, true) then tb.Put(i, k.(s := Emptied(k.s))) else tb;
      CloseAllFrees(tb1, i + 1, maxLong);
      CloseAllOutcome(tb1, i + 1, maxLong);
      CloseOutcome(tb.At(i), maxLong);
      CloseFrees(tb.At(i), maxLong);
      EmptiedUsed(k.s);
      OneMoreClosed(tb, tb1, CloseAll(tb1, i + 1, maxLong), i, true);
    }
  }

  lemma EmptiedUsed(s: State)
    ensures Emptied(s).used == s.used
  {
  }

  lemma NothingClosed(tb: Table, all: bool)
    ensures ClosedInBulk(tb, tb, |tb.slots|, all)
  {
    var none: seq<Handle> := [];
    assert multiset(none) == multiset{};
  }

  /** What closing slot `i`, or passing over it, does to the conversation. */
  ghost predicate ClosedOne(tb: Table, tb1: Table, i: nat, all: bool)
    requires i < |tb.slots| == |tb1.slots|
  {
    var h := tb.slots[i].handle;
    && tb1.slots == tb.slots[i := tb1.slots[i]]
    && (if !ToClose(tb.slots[i], all) then tb1 == tb
        else
          && tb1.status == (if h == NULL then SUCCESS else At(tb.oci.script, 0).free)
          && tb1.oci == (if h == NULL then tb.oci
                         else tb.oci.(script := After(tb.oci.script, 1), freed := tb.oci.freed + multiset{h}))
          && (tb1.slots[i].used <==> tb1.status != SUCCESS))
  }

  /** ... and then the rest. */
  lemma OneMoreClosed(tb: Table, tb1: Table, r: Table, i: nat, all: bool)
    requires i < |tb.slots| == |tb1.slots| && ClosedInBulk(tb1, r, i + 1, all)
    requires r.slots[i] == tb1.slots[i] && ClosedOne(tb, tb1, i, all)
    ensures ClosedInBulk(tb, r, i, all)
  {
    hide ToFree, After, CloseReply, FreesTo;
    var n := |tb.slots|;
    OneMoreFreed(tb, tb1, r, i, all);
    if ToClose(tb.slots[i], all) {
      ReplyNow(tb, tb1, i, all);
    }
    forall j | i < j < n
      ensures CloseReply(tb.slots, tb.oci.script, i, j, all) == CloseReply(tb1.slots, tb1.oci.script, i + 1, j, all)
    {
      ReplyLater(tb, tb1, i, j, all);
    }
    if exists j :: i < j < n && ToClose(tb.slots[j], all) {
      assert !NoneAfter(tb.slots, i, all);
    }
  }

  lemma OneMoreFreed(tb: Table, tb1: Table, r: Table, i: nat, all: bool)
    requires i < |tb.slots| == |tb1.slots| && FreesTo(tb1.oci, r.oci, ToFree(tb1.slots, i + 1, |tb.slots|, all))
    requires ClosedOne(tb, tb1, i, all)
    ensures FreesTo(tb.oci, r.oci, ToFree(tb.slots, i, |tb.slots|, all))
  {
    hide FreesTo;
    var rest := ToFree(tb.slots, i + 1, |tb.slots|, all);
    ToFreeSame(tb.slots, tb1.slots, i + 1, |tb.slots|, all);
    if ToClose(tb.slots[i], all) && tb.slots[i].handle != NULL {
      FreesThen(tb.oci, tb1.oci, r.oci, tb.slots[i].handle, rest);
    } else {
      var none: seq<Handle> := [];
      assert none + rest == rest;
    }
  }

  /** The handles are freed in this conversation, one answer each. */
  ghost predicate FreesTo(oci: Oracle, oci': Oracle, hs: seq<Handle>) {
    oci' == oci.(script := After(oci.script, |hs|), freed := oci.freed + multiset(hs))
  }

  lemma FreesThen(oci: Oracle, oci1: Oracle, oci': Oracle, h: Handle, hs: seq<Handle>)
    requires oci1 == oci.(script := After(oci.script, 1), freed := oci.freed + multiset{h}) && FreesTo(oci1, oci', hs)
    ensures FreesTo(oci, oci', [h] + hs)
  {
    AfterThen(oci.script, 1, |hs|);
    assert multiset([h] + hs) == multiset{h} + multiset(hs);
  }

  lemma ReplyNow(tb: Table, tb1: Table, i: nat, all: bool)
    requires i < |tb.slots| == |tb1.slots| && ClosedOne(tb, tb1, i, all) && ToClose(tb.slots[i], all)
    ensures CloseReply(tb.slots, tb.oci.script, i, i, all) == tb1.status
  {
  }

  lemma ReplyLater(tb: Table, tb1: Table, i: nat, j: nat, all: bool)
    requires i < j < |tb.slots| && |tb1.slots| == |tb.slots| && ClosedOne(tb, tb1, i, all)
    ensures CloseReply(tb.slots, tb.oci.script, i, j, all) == CloseReply(tb1.slots, tb1.oci.script, i + 1, j, all)
  {
    hide After, ToFree;
    var n := |ToFree(tb.slots, i + 1, j, all)|;
    ToFreeSame(tb.slots, tb1.slots, i + 1, j, all);
    ToFreeCount(tb.slots, i, j, all);
    AfterThen(tb.oci.script, 1, n);
  }

  lemma ToFreeCount(slots: seq<State>, i: nat, j: nat, all: bool)
    requires i < j <= |slots|
    ensures |ToFree(slots, i, j, all)|
      == |ToFree(slots, i + 1, j, all)| + if ToClose(slots[i], all) && slots[i].handle != NULL then 1 else 0
  {
  }

  lemma {:induction false} ToFreeSame(slots: seq<State>, slots': seq<State>, i: nat, j: nat, all: bool)
    requires i <= j <= |slots| == |slots'| && forall l :: i <= l < j ==> slots'[l] == slots[l]
    ensures ToFree(slots', i, j, all) == ToFree(slots, i, j, all)
    decreases j - i
  {
    if i < j {
      ToFreeSame(slots, slots', i + 1, j, all);
    }
  }

  /** Slot `s` as the end of a session leaves it: emptied, and given back unless its handle would not
      be freed. */
  ghost predicate EmptiedFrom(s: State, s': State) {
    && s'.handle == NULL && s'.sth == s.sth && s'.binds == NO_BINDS && s'.defs.size == s'.defs.num == 0
    && s'.defs.generation == s.defs.generation
    && (s'.used || s'.Idle())
  }

  lemma CloseEmpties(k: Cursor, maxLong: nat)
    requires k.Ok() && k.s.used
    ensures EmptiedFrom(k.s, Emptied(Close(k, maxLong).s))
  {
    hide ResetBinds;
  }

  /** Ending a session empties every slot in use; only a refused handle free leaves one taken. */
  lemma {:induction false} CloseAllOutcome(tb: Table, i: nat, maxLong: nat)
    requires tb.Ok() && i <= |tb.slots|
    ensures var r := CloseAll(tb, i, maxLong);
      forall j :: 0 <= j < |tb.slots| ==>
        if j >= i && tb.slots[j].used then EmptiedFrom(tb.slots[j], r.slots[j]) else r.slots[j] == tb.slots[j]
    decreases |tb.slots| - i
  {
    hide Close, Emptied, EmptiedFrom, Within, Progress, State.Ok, State.Idle;
    if i < |tb.slots| {
      if tb.slots[i].used {
        var k := Close(tb.At(i), maxLong);
        CloseEmpties(tb.At(i), maxLong);
        EmptiedOk(k.s);
        CloseAllOutcome(tb.Put(i, k.(s := Emptied(k.s))), i + 1, maxLong);
      } else {
        CloseAllOutcome(tb, i + 1, maxLong);
      }
    }
  }

  lemma EmptiedOk(s: State)
    ensures Emptied(s).Ok()
  {
  }
}
